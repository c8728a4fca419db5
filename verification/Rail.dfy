/** The rail beside the terminal's list: what it offers, what it draws, and which offer a
    press on one of its lines takes. */

module Rail {
  import opened Naturals
  import opened Options

  /** Three headings, three size bands and two blank lines. */
  const RAIL_FIXED: nat := 8
  const KINDS_LEAST: nat := 4
  const PLACES_MOST: nat := 6

  datatype Place = Place(said: string, path: string)

  /** What an offer says, and the term pressing it adds to the query. */
  datatype Offer = Offer(said: string, term: string)

  /** A line of the rail. An offer's line knows the offer's place among them all. */
  datatype Line = Heading(what: string) | Blank | Offered(at: nat, offer: Offer)

  const SIZES: seq<Offer> := [Offer("> 10 MB", "size:>10mb"), Offer("> 1 MB", "size:>1mb"), Offer("= 0", "size:0")]

  function OfKind(token: string): Offer {
    Offer(token, "kind:" + token)
  }

  function OfPlace(place: Place): Offer {
    Offer(place.said, "under:\"" + place.path + "\"")
  }

  function KindOffers(kinds: seq<string>): seq<Offer> {
    seq(|kinds|, i requires 0 <= i < |kinds| => OfKind(kinds[i]))
  }

  function PlaceOffers(places: seq<Place>): seq<Offer> {
    seq(|places|, i requires 0 <= i < |places| => OfPlace(places[i]))
  }

  /// What is drawn

  /** Offers one below the other, the first of them the `at`th of the rail. */
  function Section(at: nat, offers: seq<Offer>): seq<Line> {
    seq(|offers|, i requires 0 <= i < |offers| => Offered(at + i, offers[i]))
  }

  /** The whole rail: each section under its heading, a blank line between two. */
  function Layout(kinds: seq<Offer>, places: seq<Offer>, sizes: seq<Offer>): seq<Line> {
    [Heading("KIND")] + Section(0, kinds)
    + [Blank, Heading("WHERE")] + Section(|kinds|, places)
    + [Blank, Heading("SIZE")] + Section(|kinds| + |places|, sizes)
  }

  function Pressed(lines: seq<Line>, line: nat): Option<nat> {
    if line < |lines| && lines[line].Offered? then Some(lines[line].at) else None
  }

  /** On the line an offer is drawn on, and on no other, a press finds that offer. */
  lemma PressedIsTheOffer(kinds: seq<Offer>, places: seq<Offer>, sizes: seq<Offer>, i: nat)
    requires i < |kinds| + |places| + |sizes|
    ensures exists line: nat ::
              Pressed(Layout(kinds, places, sizes), line) == Some(i)
              && Layout(kinds, places, sizes)[line].offer == (kinds + places + sizes)[i]
              && forall other: nat | Pressed(Layout(kinds, places, sizes), other) == Some(i) :: other == line
  {
    var line := if i < |kinds| then i + 1 else if i < |kinds| + |places| then i + 3 else i + 5;
    var lines := Layout(kinds, places, sizes);
    assert Pressed(lines, line) == Some(i) && lines[line].offer == (kinds + places + sizes)[i];
    forall other: nat | Pressed(lines, other) == Some(i) ensures other == line {
    }
  }

  /** A press that finds an offer finds one of those the rail offers, and the line pressed
      shows it. */
  lemma PressedIsOffered(kinds: seq<Offer>, places: seq<Offer>, sizes: seq<Offer>, line: nat)
    ensures var found := Pressed(Layout(kinds, places, sizes), line);
            found.Some? ==> found.value < |kinds| + |places| + |sizes|
                            && Layout(kinds, places, sizes)[line] == Offered(found.value, (kinds + places + sizes)[found.value])
  {
  }

  /// How much of it there is room for

  /** The kinds and the places shown, of those there are. */
  function Shared(room: nat, kinds: nat, places: nat): (nat, nat) {
    var lines := Less(room + 1, RAIL_FIXED);
    var somePlaces := Smaller(places, PLACES_MOST);
    var someKinds := Smaller(kinds, Larger(Less(lines, somePlaces), KINDS_LEAST));
    (someKinds, Smaller(somePlaces, Less(lines, someKinds)))
  }

  /** The rail fits the lines it has, one more than the list, exactly when they hold its
      fixed lines and the fewest kinds it will show. */
  lemma FitsWithTheFewestKinds(room: nat, kinds: nat, places: nat)
    ensures var (k, p) := Shared(room, kinds, places);
            8 + k + p <= room + 1 <==> 8 + Smaller(kinds, 4) <= room + 1
  {
  }

  /** When it fits it wastes no line: a kind or one of the first six places is left out
      only where every line is taken. Places give way first, and only then do the kinds
      beyond the fewest. */
  lemma RoomIsUsed(room: nat, kinds: nat, places: nat)
    ensures var (k, p) := Shared(room, kinds, places);
            && Smaller(kinds, 4) <= k <= kinds && p <= Smaller(places, 6)
            && (8 + k + p <= room + 1 ==>
                  8 + k + p == Smaller(room + 1, 8 + kinds + Smaller(places, 6)))
            && (p < Smaller(places, 6) ==> k == Smaller(kinds, 4))
  {
  }

  /** A terminal of nine rows and all thirteen kinds: four of them are drawn where two
      lines are left for them. */
  lemma ShortTerminalOverflows()
    ensures var (k, p) := Shared(9, 13, 2);
            (k, p) == (4, 0) && 8 + k + p > 9 + 1
  {
  }

  class App {
    var room: nat
    var kinds: seq<string>
    var places: seq<Place>

    function RailRoom(): (shown: (nat, nat))
      reads this
      ensures shown.0 <= |kinds| && shown.1 <= |places|
    {
      Shared(room, |kinds|, |places|)
    }

    ghost function KindsShown(): seq<Offer>
      reads this
    {
      KindOffers(kinds[..RailRoom().0])
    }

    ghost function PlacesShown(): seq<Offer>
      reads this
    {
      PlaceOffers(places[..RailRoom().1])
    }

    /** The offers: kinds, places, sizes. */
    method RailLines() returns (offers: seq<Offer>)
      ensures offers == KindsShown() + PlacesShown() + SIZES
      ensures var (k, p) := RailRoom();
              && |offers| == k + p + 3
              && (forall i :: 0 <= i < k ==> offers[i] == Offer(kinds[i], "kind:" + kinds[i]))
              && (forall i :: 0 <= i < p ==> offers[k + i] == Offer(places[i].said, "under:\"" + places[i].path + "\""))
              && offers[k + p..] == [Offer("> 10 MB", "size:>10mb"), Offer("> 1 MB", "size:>1mb"), Offer("= 0", "size:0")]
    {
      var (k, p) := RailRoom();
      offers := KindOffers(kinds[..k]);
      offers := offers + PlaceOffers(places[..p]);
      offers := offers + SIZES;
    }

    /** A section's offers under what is drawn already, counted on from the `at`th. */
    static method DrawSection(above: seq<Line>, at: nat, offers: seq<Offer>) returns (lines: seq<Line>, past: nat)
      ensures lines == above + Section(at, offers) && past == at + |offers|
    {
      lines, past := above, at;
      for i := 0 to |offers|
        invariant past == at + i && |lines| == |above| + i && lines[..|above|] == above
        invariant forall k :: 0 <= k < i ==> lines[|above| + k] == Offered(at + k, offers[k])
      {
        lines := lines + [Offered(past, offers[i])];
        past := past + 1;
      }
    }

    /** The lines drawn, from the top. */
    method Side() returns (lines: seq<Line>)
      ensures lines == Layout(KindsShown(), PlacesShown(), SIZES)
      ensures var (k, p) := RailRoom();
              && |lines| == 8 + k + p
              && lines[0] == Heading("KIND") && lines[k + 1] == Blank
              && lines[k + 2] == Heading("WHERE") && lines[k + p + 3] == Blank
              && lines[k + p + 4] == Heading("SIZE")
              && (forall i :: 0 <= i < k ==> lines[1 + i] == Offered(i, Offer(kinds[i], "kind:" + kinds[i])))
              && (forall i :: 0 <= i < p ==>
                    lines[k + 3 + i] == Offered(k + i, Offer(places[i].said, "under:\"" + places[i].path + "\"")))
              && lines[k + p + 5..] == [Offered(k + p, Offer("> 10 MB", "size:>10mb")),
                                        Offered(k + p + 1, Offer("> 1 MB", "size:>1mb")),
                                        Offered(k + p + 2, Offer("= 0", "size:0"))]
    {
      var (k, p) := RailRoom();
      var at := 0;
      lines := [Heading("KIND")];
      lines, at := DrawSection(lines, at, KindOffers(kinds[..k]));
      lines := lines + [Blank, Heading("WHERE")];
      lines, at := DrawSection(lines, at, PlaceOffers(places[..p]));
      lines := lines + [Blank, Heading("SIZE")];
      lines, at := DrawSection(lines, at, SIZES);
    }

    /** The offer drawn on a line, if one is. */
    method RailHit(line: nat) returns (hit: Option<nat>)
      ensures hit == Pressed(Layout(KindsShown(), PlacesShown(), SIZES), line)
    {
      var (k, p) := RailRoom();
      var sections := [k, p, |SIZES|];
      ghost var lines := Layout(KindsShown(), PlacesShown(), SIZES);
      var at, row := 0, 0;
      for s := 0 to |sections|
        invariant at == [0, k, k + p, k + p + 3][s] && row == [0, k + 2, k + p + 4, k + p + 9][s]
        invariant line < row ==> Pressed(lines, line) == None
      {
        row := row + 1;
        if row <= line < row + sections[s] {
          assert lines[line].Offered? && lines[line].at == at + (line - row);
          return Some(at + (line - row));
        }
        at := at + sections[s];
        row := row + sections[s] + 1;
      }
      hit := None;
    }
  }
}
