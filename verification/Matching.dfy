/** The part of a name that is lit: found in the folded name, cut from the one spelled. */

module Matching {
  import opened Naturals
  import opened Options
  import opened Utf8

  type Bytes = seq<byte>

  /** Where a match begins and ends. */
  datatype Span = Span(from: nat, upTo: nat)

  datatype Parts = Parts(before: Bytes, hit: Bytes, after: Bytes)

  /// Finding

  predicate OccursAt(text: Bytes, needle: Bytes, at: nat) {
    at + |needle| <= |text| && text[at..at + |needle|] == needle
  }

  function FindFrom(text: Bytes, needle: Bytes, at: nat): (found: Option<nat>)
    ensures found.Some? ==> at <= found.value && OccursAt(text, needle, found.value)
    ensures forall q: nat :: at <= q && OccursAt(text, needle, q) ==> found.Some? && found.value <= q
    decreases |text| - at
  {
    if at > |text| then None
    else if OccursAt(text, needle, at) then Some(at)
    else FindFrom(text, needle, at + 1)
  }

  /** Earlier, or as early and shorter. */
  predicate Before(a: Span, b: Span)
    requires a.from <= a.upTo && b.from <= b.upTo
  {
    a.from < b.from || (a.from == b.from && a.upTo - a.from < b.upTo - b.from)
  }

  /** A match of one of the needles that are not empty. */
  predicate IsMatch(folded: Bytes, needles: seq<Bytes>, s: Span) {
    s.from <= s.upTo <= |folded| && folded[s.from..s.upTo] in needles && s.from < s.upTo
  }

  /** None if nothing matches; else a match no other match goes before. */
  ghost predicate IsBest(folded: Bytes, needles: seq<Bytes>, best: Option<Span>) {
    && (best.Some? ==> IsMatch(folded, needles, best.value))
    && forall s :: IsMatch(folded, needles, s) ==> best.Some? && !Before(s, best.value)
  }

  lemma BestWithOneMore(folded: Bytes, needles: seq<Bytes>, needle: Bytes, best: Option<Span>, next: Option<Span>)
    requires IsBest(folded, needles, best)
    requires next.Some? ==> IsMatch(folded, needles + [needle], next.value)
    requires forall s :: IsMatch(folded, [needle], s) ==> next.Some? && !Before(s, next.value)
    requires best.Some? ==> next.Some? && !Before(best.value, next.value)
    ensures IsBest(folded, needles + [needle], next)
  {
    forall s | IsMatch(folded, needles + [needle], s) ensures next.Some? && !Before(s, next.value) {
      assert IsMatch(folded, needles, s) || IsMatch(folded, [needle], s);
    }
  }

  /** The earliest match, and the shortest of those: the loop over the terms. */
  method Best(folded: Bytes, needles: seq<Bytes>) returns (best: Option<Span>)
    ensures IsBest(folded, needles, best)
  {
    best := None;
    for k := 0 to |needles|
      invariant IsBest(folded, needles[..k], best)
    {
      var needle := needles[k];
      assert needles[..k + 1] == needles[..k] + [needle];
      ghost var before := best;
      var found := FindFrom(folded, needle, 0);
      if needle != [] && found.Some? {
        var cand := Span(found.value, found.value + |needle|);
        FirstIsBest(folded, needle, cand);
        assert folded[cand.from..cand.upTo] == needle;
        if best.None? || Before(cand, best.value) {
          best := Some(cand);
        }
      } else {
        forall s ensures !IsMatch(folded, [needle], s) {
          assert IsMatch(folded, [needle], s) ==> OccursAt(folded, needle, s.from);
        }
      }
      BestWithOneMore(folded, needles[..k], needle, before, best);
    }
    assert needles[..|needles|] == needles;
  }

  lemma FirstIsBest(folded: Bytes, needle: Bytes, first: Span)
    requires needle != [] && FindFrom(folded, needle, 0) == Some(first.from) && first.upTo == first.from + |needle|
    ensures forall s :: IsMatch(folded, [needle], s) ==> !Before(s, first)
  {
    forall s | IsMatch(folded, [needle], s) ensures !Before(s, first) {
      assert OccursAt(folded, needle, s.from);
    }
  }

  /** Among matches that begin together the shortest is lit, not the longest. */
  lemma ShortestOfTies(best: Option<Span>)
    requires IsBest([1, 2, 3], [[1, 2], [1]], best)
    ensures best == Some(Span(0, 1))
  {
    assert IsMatch([1, 2, 3], [[1, 2], [1]], Span(0, 1)) by {
      assert [1, 2, 3][0..1] == [1];
    }
    assert !Before(Span(0, 1), best.value);
  }

  /// Cutting

  function Ceiling(text: Bytes, want: nat): (at: nat)
    requires want <= |text|
    ensures want <= at <= |text| && IsBoundary(text, at)
    ensures forall b :: want <= b < at ==> !IsBoundary(text, b)
    decreases |text| - want
  {
    if IsBoundary(text, want) then want else Ceiling(text, want + 1)
  }

  function Start(name: Bytes, back: seq<nat>, s: Span): nat {
    Floor(name, Smaller(if s.from < |back| then back[s.from] else 0, |name|))
  }

  function End(name: Bytes, back: seq<nat>, s: Span): nat {
    Ceiling(name, Smaller(if s.upTo < |back| then back[s.upTo] else |name|, |name|))
  }

  function Cut(name: Bytes, back: seq<nat>, best: Option<Span>): Parts {
    if best.None? || Start(name, back, best.value) > End(name, back, best.value) then Parts(name, [], [])
    else
      var a, b := Start(name, back, best.value), End(name, back, best.value);
      Parts(name[..a], name[a..b], name[b..])
  }

  /** Whatever the map says, the parts are whole characters and rejoin to the name. */
  lemma PartsAreTheName(s: string, back: seq<nat>, best: Option<Span>) returns (before: string, hit: string, after: string)
    ensures before + hit + after == s
    ensures Cut(Encode(s), back, best) == Parts(Encode(before), Encode(hit), Encode(after))
  {
    var name := Encode(s);
    if best.None? || Start(name, back, best.value) > End(name, back, best.value) {
      before, hit, after := s, "", "";
    } else {
      before, hit, after := BetweenBoundaries(s, Start(name, back, best.value), End(name, back, best.value));
    }
  }

  lemma BetweenBoundaries(s: string, a: nat, b: nat) returns (before: string, hit: string, after: string)
    requires a <= b <= |Encode(s)| && IsBoundary(Encode(s), a) && IsBoundary(Encode(s), b)
    ensures before + hit + after == s
    ensures Encode(before) == Encode(s)[..a] && Encode(hit) == Encode(s)[a..b] && Encode(after) == Encode(s)[b..]
  {
    var i, j := CharactersBefore(s, a, b);
    CutInThree(s, i, j);
    before, hit, after := s[..i], s[i..j], s[j..];
  }

  lemma CharactersBefore(s: string, a: nat, b: nat) returns (i: nat, j: nat)
    requires a <= b <= |Encode(s)| && IsBoundary(Encode(s), a) && IsBoundary(Encode(s), b)
    ensures i <= j <= |s| && |Encode(s[..i])| == a && |Encode(s[..j])| == b
  {
    i := CharactersTo(s, a);
    j := CharactersTo(s, b);
    LeadsRise(Encode(s), a, b);
  }

  lemma CharactersTo(s: string, at: nat) returns (i: nat)
    requires at <= |Encode(s)| && IsBoundary(Encode(s), at)
    ensures i == Leads(Encode(s)[..at]) && i <= |s| && |Encode(s[..i])| == at
  {
    BoundarySplits(s, at);
    i := Leads(Encode(s)[..at]);
  }

  lemma LeadsRise(bytes: Bytes, a: nat, b: nat)
    requires a <= b <= |bytes|
    ensures Leads(bytes[..a]) <= Leads(bytes[..b])
  {
    assert bytes[..b] == bytes[..a] + bytes[a..b];
    LeadsConcat(bytes[..a], bytes[a..b]);
  }

  lemma CutInThree(s: string, i: nat, j: nat)
    requires i <= j <= |s|
    ensures var name, a, b := Encode(s), |Encode(s[..i])|, |Encode(s[..j])|;
            && a <= b <= |name|
            && name[..a] == Encode(s[..i]) && name[a..b] == Encode(s[i..j]) && name[b..] == Encode(s[j..])
  {
    var a, b, c := s[..i], s[i..j], s[j..];
    assert s == (a + b) + c && s[..j] == a + b;
    EncodeConcat(a + b, c);
    EncodeConcat(a, b);
    Excised(Encode(a), Encode(b), Encode(c));
  }

  method SplitAtMatch(name: Bytes, folded: Bytes, back: seq<nat>, needles: seq<Bytes>) returns (parts: Parts)
    ensures exists best :: IsBest(folded, needles, best) && parts == Cut(name, back, best)
  {
    var found := Best(folded, needles);
    if found.None? {
      return Parts(name, [], []);
    }
    var a: nat := Smaller(if found.value.from < |back| then back[found.value.from] else 0, |name|);
    var b: nat := Smaller(if found.value.upTo < |back| then back[found.value.upTo] else |name|, |name|);
    while a > 0 && !IsBoundary(name, a)
      invariant a <= |name| && Floor(name, a) == Start(name, back, found.value)
    {
      a := a - 1;
    }
    while b < |name| && !IsBoundary(name, b)
      invariant b <= |name| && Ceiling(name, b) == End(name, back, found.value)
    {
      b := b + 1;
    }
    parts := if a > b then Parts(name, [], []) else Parts(name[..a], name[a..b], name[b..]);
  }

  /// The map from the folded name back

  /** The folded name: each character's own folding, whatever that is. */
  function Joined(pieces: seq<Bytes>): Bytes {
    if pieces == [] then [] else Joined(pieces[..|pieces| - 1]) + pieces[|pieces| - 1]
  }

  /** For every folded byte, where the character it comes from begins. */
  function Origins(s: string, pieces: seq<Bytes>): (back: seq<nat>)
    requires |pieces| <= |s|
    ensures |back| == |Joined(pieces)|
  {
    if pieces == [] then []
    else
      var n := |pieces| - 1;
      Origins(s, pieces[..n]) + seq(|pieces[n]|, _ => |Encode(s[..n])|)
  }

  function Back(s: string, pieces: seq<Bytes>): seq<nat>
    requires |pieces| == |s|
  {
    Origins(s, pieces) + [|Encode(s)|]
  }

  /** The program's loop over the characters. */
  method FoldIndexed(s: string, pieces: seq<Bytes>) returns (folded: Bytes, back: seq<nat>)
    requires |pieces| == |s|
    ensures folded == Joined(pieces) && back == Back(s, pieces)
  {
    folded, back := [], [];
    var at := 0;
    for i := 0 to |s|
      invariant at == |Encode(s[..i])| && folded == Joined(pieces[..i]) && back == Origins(s, pieces[..i])
    {
      assert pieces[..i + 1][..i] == pieces[..i];
      folded := folded + pieces[i];
      back := back + seq(|pieces[i]|, _ => at);
      assert s[..i + 1] == s[..i] + [s[i]];
      EncodeSnoc(s[..i], s[i]);
      at := at + |Encoded(s[i])|;
    }
    assert pieces[..|s|] == pieces && s[..|s|] == s;
    back := back + [|Encode(s)|];
  }

  /** The character a folded byte comes from; past the last byte, the one past the last. */
  function Owner(pieces: seq<Bytes>, k: nat): (i: nat)
    requires k <= |Joined(pieces)|
    ensures i <= |pieces|
  {
    if k == |Joined(pieces)| then |pieces|
    else
      var n := |pieces| - 1;
      if k < |Joined(pieces[..n])| then Owner(pieces[..n], k) else n
  }

  lemma {:induction false} BackIsTheOwner(s: string, pieces: seq<Bytes>, k: nat)
    requires |pieces| <= |s| && k < |Joined(pieces)|
    ensures Owner(pieces, k) < |pieces|
    ensures Origins(s, pieces)[k] == |Encode(s[..Owner(pieces, k)])|
    decreases |pieces|
  {
    var n := |pieces| - 1;
    if k < |Joined(pieces[..n])| {
      BackIsTheOwner(s, pieces[..n], k);
    }
  }

  lemma {:induction false} OwnersRise(pieces: seq<Bytes>, k: nat, m: nat)
    requires k <= m <= |Joined(pieces)|
    ensures Owner(pieces, k) <= Owner(pieces, m)
    decreases |pieces|
  {
    var n := |pieces| - 1;
    if m < |Joined(pieces)| && m < |Joined(pieces[..n])| {
      OwnersRise(pieces[..n], k, m);
    } else if m < |Joined(pieces)| && k < |Joined(pieces[..n])| {
      assert Owner(pieces[..n], k) <= n;
    }
  }

  lemma BackIsABoundary(s: string, pieces: seq<Bytes>, k: nat)
    requires |pieces| == |s| && k <= |Joined(pieces)|
    ensures Back(s, pieces)[k] == |Encode(s[..Owner(pieces, k)])| <= |Encode(s)|
    ensures IsBoundary(Encode(s), Back(s, pieces)[k])
  {
    var i := Owner(pieces, k);
    if k == |Joined(pieces)| {
      assert s[..|s|] == s;
    } else {
      BackIsTheOwner(s, pieces, k);
    }
    assert s == s[..i] + s[i..];
    EncodeConcat(s[..i], s[i..]);
    BoundariesAreCharacters(s, |Encode(s[..i])|);
  }

  /** With the program's own map what is lit runs from the character the match begins in
      to the one it ends in, and there is always such a run. */
  lemma LitFromOwnerToOwner(s: string, pieces: seq<Bytes>, m: Span)
    requires |pieces| == |s| && m.from <= m.upTo <= |Joined(pieces)|
    ensures var i, j := Owner(pieces, m.from), Owner(pieces, m.upTo);
            && i <= j <= |s|
            && Cut(Encode(s), Back(s, pieces), Some(m)) == Parts(Encode(s[..i]), Encode(s[i..j]), Encode(s[j..]))
  {
    var name, back := Encode(s), Back(s, pieces);
    var i, j := Owner(pieces, m.from), Owner(pieces, m.upTo);
    BackIsABoundary(s, pieces, m.from);
    BackIsABoundary(s, pieces, m.upTo);
    OwnersRise(pieces, m.from, m.upTo);
    FloorOfBoundary(name, back[m.from]);
    CutInThree(s, i, j);
  }

  /// What is lit folds to what was looked for

  lemma {:induction false} JoinedConcat(a: seq<Bytes>, b: seq<Bytes>)
    ensures Joined(a + b) == Joined(a) + Joined(b)
    decreases |b|
  {
    if b == [] {
      assert a + b == a;
    } else {
      assert (a + b)[..|a + b| - 1] == a + b[..|b| - 1];
      JoinedConcat(a, b[..|b| - 1]);
    }
  }

  /** The folded byte after some characters' folding comes from a character before which
      nothing more is folded: the next, or one past some that fold to nothing. */
  lemma {:induction false} OwnerAfter(pieces: seq<Bytes>, i: nat)
    requires i <= |pieces|
    ensures var k := |Joined(pieces[..i])|;
            k <= |Joined(pieces)| && Joined(pieces[..Owner(pieces, k)]) == Joined(pieces[..i]) <= Joined(pieces)
    decreases |pieces|
  {
    assert pieces == pieces[..i] + pieces[i..];
    JoinedConcat(pieces[..i], pieces[i..]);
    var k := |Joined(pieces[..i])|;
    if k == |Joined(pieces)| {
      assert pieces[..|pieces|] == pieces;
    } else {
      var n := |pieces| - 1;
      assert i <= n && pieces[..n][..i] == pieces[..i];
      OwnerAfter(pieces[..n], i);
      if k < |Joined(pieces[..n])| {
        assert pieces[..n][..Owner(pieces[..n], k)] == pieces[..Owner(pieces[..n], k)];
      }
    }
  }

  /** Whatever each character folds to, a match of some characters' foldings lights
      characters that fold to just that match. */
  lemma LitFoldsToTheMatch(s: string, pieces: seq<Bytes>, i: nat, j: nat)
    requires |pieces| == |s| && i <= j <= |s|
    ensures var m := Span(|Joined(pieces[..i])|, |Joined(pieces[..j])|);
            && m.from <= m.upTo <= |Joined(pieces)|
            && Joined(pieces)[m.from..m.upTo] == Joined(pieces[i..j])
            && var a, b := Owner(pieces, m.from), Owner(pieces, m.upTo);
               && a <= b <= |s|
               && Joined(pieces[a..b]) == Joined(pieces[i..j])
               && Cut(Encode(s), Back(s, pieces), Some(m)).hit == Encode(s[a..b])
  {
    var m := MatchOf(pieces, i, j);
    OwnersOf(pieces, i, j, m);
    LitFromOwnerToOwner(s, pieces, m);
  }

  lemma MatchOf(pieces: seq<Bytes>, i: nat, j: nat) returns (m: Span)
    requires i <= j <= |pieces|
    ensures m == Span(|Joined(pieces[..i])|, |Joined(pieces[..j])|) && m.from <= m.upTo <= |Joined(pieces)|
    ensures Joined(pieces)[m.from..m.upTo] == Joined(pieces[i..j])
  {
    JoinedSlice(pieces, i, j);
    m := Span(|Joined(pieces[..i])|, |Joined(pieces[..j])|);
  }

  lemma OwnersOf(pieces: seq<Bytes>, i: nat, j: nat, m: Span)
    requires i <= j <= |pieces| && m == Span(|Joined(pieces[..i])|, |Joined(pieces[..j])|)
    requires m.from <= m.upTo <= |Joined(pieces)|
    ensures Owner(pieces, m.from) <= Owner(pieces, m.upTo)
    ensures Joined(pieces[Owner(pieces, m.from)..Owner(pieces, m.upTo)]) == Joined(pieces[i..j])
  {
    OwnerAfter(pieces, i);
    OwnerAfter(pieces, j);
    OwnersRise(pieces, m.from, m.upTo);
    SameSlice(pieces, i, j, Owner(pieces, m.from), Owner(pieces, m.upTo));
  }

  lemma SameSlice(pieces: seq<Bytes>, i: nat, j: nat, a: nat, b: nat)
    requires i <= j <= |pieces| && a <= b <= |pieces|
    requires Joined(pieces[..a]) == Joined(pieces[..i]) && Joined(pieces[..b]) == Joined(pieces[..j])
    ensures Joined(pieces[a..b]) == Joined(pieces[i..j])
  {
    JoinedSlice(pieces, i, j);
    JoinedSlice(pieces, a, b);
    var start := |Joined(pieces[..i])|;
    assert Joined(pieces[..j])[start..] == Joined(pieces[i..j]) && Joined(pieces[..b])[start..] == Joined(pieces[a..b]);
  }

  lemma JoinedSlice(pieces: seq<Bytes>, i: nat, j: nat)
    requires i <= j <= |pieces|
    ensures Joined(pieces[..j]) == Joined(pieces[..i]) + Joined(pieces[i..j]) && Joined(pieces[..j]) <= Joined(pieces)
  {
    assert pieces[..j] == pieces[..i] + pieces[i..j];
    JoinedConcat(pieces[..i], pieces[i..j]);
    JoinedPrefix(pieces, j);
  }

  lemma JoinedPrefix(pieces: seq<Bytes>, j: nat)
    requires j <= |pieces|
    ensures Joined(pieces[..j]) <= Joined(pieces)
  {
    assert pieces == pieces[..j] + pieces[j..];
    JoinedConcat(pieces[..j], pieces[j..]);
  }
}
