/** The list model and what it tells: its own view, the slots drawing it, and the grid
    of tiles over the same rows. */

module ListSpec {
  import opened Naturals
  import opened Options
  import opened Pages
  import opened Pictures
  import opened Views
  import opened Slots
  import WindowState

  /// Filing a page over an older one

  /** The last row of a page with each path. */
  function LastByPath(rows: seq<Kept>): map<string, Kept> {
    if rows == [] then map[]
    else LastByPath(rows[..|rows| - 1])[rows[|rows| - 1].row.path := rows[|rows| - 1]]
  }

  lemma {:induction false} LastByPathIsLast(rows: seq<Kept>, path: string)
    ensures path in LastByPath(rows) <==> exists i :: 0 <= i < |rows| && rows[i].row.path == path
    ensures path in LastByPath(rows) ==>
              exists i :: 0 <= i < |rows| && rows[i] == LastByPath(rows)[path] && rows[i].row.path == path
                          && forall j :: i < j < |rows| ==> rows[j].row.path != path
  {
    if rows != [] {
      var n := |rows| - 1;
      LastByPathIsLast(rows[..n], path);
      if rows[n].row.path != path && path in LastByPath(rows[..n]) {
        var i :| 0 <= i < n && rows[..n][i] == LastByPath(rows[..n])[path] && rows[..n][i].row.path == path
                 && forall j :: i < j < n ==> rows[..n][j].row.path != path;
        assert rows[i].row.path == path;
        assert forall j :: i < j < n ==> rows[j] == rows[..n][j];
      }
      if path !in LastByPath(rows) {
        assert forall j :: 0 <= j < n ==> rows[j] == rows[..n][j];
      }
    }
  }

  /** What is known by path of the rows seen so far: every verdict, and at least the
      pictures of the rows that are drawn. */
  ghost predicate Knows(rows: seq<Kept>, known: map<string, Pic>, drawn: map<string, Option<string>>) {
    var last := LastByPath(rows);
    && known.Keys == last.Keys
    && forall path :: path in last ==>
      known[path] == last[path].pic
      && (last[path].pic == Shown ==> path in drawn && drawn[path] == last[path].row.thumb)
  }

  lemma KnowsMore(rows: seq<Kept>, known: map<string, Pic>, drawn: map<string, Option<string>>, k: Kept)
    requires Knows(rows, known, drawn)
    ensures Knows(rows + [k], known[k.row.path := k.pic],
                  if k.pic == Shown then drawn[k.row.path := k.row.thumb] else drawn)
  {
  }

  /** What was held of a page, or nothing. */
  function Before(p: Store, page: nat): seq<Kept> {
    if !p.Holds(page) then []
    else if |p.held[page].rows| > SPAN then p.held[page].rows[..SPAN]
    else p.held[page].rows
  }

  /** A row arriving where `had` was: an arrival when the page reached this far and did
      not hold it; with the verdict, and the picture, it had here before. */
  function Merged(had: seq<Kept>, i: nat, row: Row, bytes: int): (k: Kept)
    ensures var known := LastByPath(had);
            k.pic == if row.path in known then known[row.path].pic else Unknown
  {
    var known := LastByPath(had);
    var pic := if row.path in known then known[row.path].pic else Unknown;
    var washed := if i < |had| then row.(isFresh := row.path != "" && row.path !in known) else row;
    Kept(if pic == Shown then washed.(thumb := known[row.path].row.thumb, shot := true) else washed, bytes, pic)
  }

  function MergedAll(had: seq<Kept>, rows: seq<Row>, bytes: seq<int>): (kept: seq<Kept>)
    ensures |kept| == |rows|
  {
    seq(|rows|, i requires 0 <= i < |rows| => Merged(had, i, rows[i], if i < |bytes| then bytes[i] else 0))
  }

  /** The `j`th place of the page holds a row of this path, or the last such place does. */
  predicate HeldAs(p: Store, page: nat, path: string, j: nat) {
    j < SPAN && p.At(page * SPAN + j).Some? && p.At(page * SPAN + j).value.row.path == path
  }

  ghost predicate LastHeldAs(p: Store, page: nat, path: string, j: nat) {
    HeldAs(p, page, path, j) && forall m: nat :: j < m ==> !HeldAs(p, page, path, m)
  }

  /** The last row of this path on the page is drawn with this picture. */
  ghost predicate Redraws(p: Store, page: nat, path: string, thumb: Option<string>) {
    exists j: nat :: LastHeldAs(p, page, path, j) && p.At(page * SPAN + j).value.row.thumb == thumb
  }

  /** What a row filed at a place of the page is, given what the store had: the row, with
      the verdict and the picture its path had on this page; an arrival where the page
      reached this place before and had no row of its path. */
  ghost predicate ArrivesAs(p: Store, page: nat, i: nat, row: Row, bytes: int, k: Kept) {
    && k.bytes == bytes
    && k.row.path == row.path && k.row.token == row.token && k.row.picked == row.picked
    && (if i < SPAN && p.At(page * SPAN + i).Some?
        then k.row.isFresh <==> row.path != "" && forall j: nat :: !HeldAs(p, page, row.path, j)
        else k.row.isFresh == row.isFresh)
    && (forall j: nat :: LastHeldAs(p, page, row.path, j) ==> k.pic == p.At(page * SPAN + j).value.pic)
    && ((forall j: nat :: !HeldAs(p, page, row.path, j)) ==> k.pic == Unknown)
    && (k.pic != Shown ==> k.row.thumb == row.thumb && k.row.shot == row.shot)
    && (k.pic == Shown ==> k.row.shot && Redraws(p, page, row.path, k.row.thumb))
  }

  /** The page has exactly these rows, each where it belongs and as its path and its
      place make it. */
  ghost predicate FiledAs(p: Store, q: Store, page: nat, rows: seq<Row>, bytes: seq<int>) {
    && page in q.held && |q.held[page].rows| == |rows|
    && (forall i :: 0 <= i < |rows| ==>
          ArrivesAs(p, page, i, rows[i], if i < |bytes| then bytes[i] else 0, q.held[page].rows[i]))
    && (forall i: nat :: i < |rows| && i < SPAN ==> q.At(page * SPAN + i) == Some(q.held[page].rows[i]))
  }

  lemma BeforeAt(p: Store, page: nat, j: nat)
    requires j < SPAN
    ensures var had := Before(p, page); p.At(page * SPAN + j) == if j < |had| then Some(had[j]) else None
  {
    assert PageOf(page * SPAN + j) == page;
  }

  lemma BeforeAs(p: Store, page: nat, path: string, j: nat)
    ensures HeldAs(p, page, path, j) <==> j < |Before(p, page)| && Before(p, page)[j].row.path == path
  {
    if j < SPAN {
      BeforeAt(p, page, j);
    }
  }

  lemma KnownIsHeld(p: Store, page: nat, path: string)
    ensures var last := LastByPath(Before(p, page));
            if path in last then exists j: nat :: LastHeldAs(p, page, path, j) && p.At(page * SPAN + j) == Some(last[path])
            else forall j: nat :: !HeldAs(p, page, path, j)
  {
    var had := Before(p, page);
    LastByPathIsLast(had, path);
    forall j: nat ensures HeldAs(p, page, path, j) <==> j < |had| && had[j].row.path == path {
      BeforeAs(p, page, path, j);
    }
    if path in LastByPath(had) {
      var i :| 0 <= i < |had| && had[i] == LastByPath(had)[path] && had[i].row.path == path
               && forall j :: i < j < |had| ==> had[j].row.path != path;
      BeforeAt(p, page, i);
      assert LastHeldAs(p, page, path, i);
    }
  }

  lemma OnlyLast(p: Store, page: nat, path: string, j: nat)
    requires LastHeldAs(p, page, path, j)
    ensures forall m: nat :: LastHeldAs(p, page, path, m) ==> m == j
  {
  }

  /** A merged row is what its path and its place on the page make it. */
  lemma MergedArrives(p: Store, page: nat, i: nat, row: Row, bytes: int)
    ensures ArrivesAs(p, page, i, row, bytes, Merged(Before(p, page), i, row, bytes))
  {
    var last := LastByPath(Before(p, page));
    KnownIsHeld(p, page, row.path);
    if i < SPAN {
      BeforeAt(p, page, i);
    }
    if row.path in last {
      var j: nat :| LastHeldAs(p, page, row.path, j) && p.At(page * SPAN + j) == Some(last[row.path]);
      OnlyLast(p, page, row.path, j);
      assert Redraws(p, page, row.path, last[row.path].row.thumb);
    }
  }

  lemma MergedAreFiled(p: Store, q: Store, page: nat, rows: seq<Row>, bytes: seq<int>)
    requires page in q.held && q.held[page].rows == MergedAll(Before(p, page), rows, bytes)
    ensures FiledAs(p, q, page, rows, bytes)
  {
    forall i | 0 <= i < |rows| {
      MergedArrives(p, page, i, rows[i], if i < |bytes| then bytes[i] else 0);
    }
    forall i: nat | i < |rows| && i < SPAN ensures q.At(page * SPAN + i) == Some(q.held[page].rows[i]) {
      assert PageOf(page * SPAN + i) == page;
    }
  }

  /** A page filed after merging is in hand as its rows' paths and places make it. */
  lemma PutArrives(p: Store, page: nat, rows: seq<Row>, bytes: seq<int>, total: nat)
    requires p.Valid()
    ensures FiledAs(p, p.Put(page, MergedAll(Before(p, page), rows, bytes), total).0, page, rows, bytes)
  {
    var kept := MergedAll(Before(p, page), rows, bytes);
    PutKeeps(p, page, kept, total);
    MergedAreFiled(p, p.Put(page, kept, total).0, page, rows, bytes);
  }

  /** Whether anything filed is new here. */
  ghost predicate Arrived(had: seq<Kept>, rows: seq<Row>) {
    exists i :: 0 <= i < |rows| && i < |had| && rows[i].path != "" && rows[i].path !in LastByPath(had)
  }

  /// Telling the slots

  /** The row the list draws at a place: a blank where none is in hand. */
  function RowAt(p: Store, row: nat): Row {
    match p.At(row)
    case Some(k) => k.row
    case None => BLANK
  }

  /** What each slot draws. */
  function Drawn(p: Store, ring: seq<Option<nat>>): (all: seq<Option<(nat, Row)>>)
    ensures |all| == |ring|
    ensures forall s :: 0 <= s < |ring| ==>
              all[s] == if ring[s].Some? then Some((ring[s].value, RowAt(p, ring[s].value))) else None
  {
    seq(|ring|, s requires 0 <= s < |ring| =>
      if ring[s].Some? then Some((ring[s].value, RowAt(p, ring[s].value))) else None)
  }

  function ToldSlots(ring: seq<Option<nat>>, rows: seq<nat>): seq<nat> {
    if rows == [] then []
    else ToldSlots(ring, rows[..|rows| - 1]) + Showing(ring, rows[|rows| - 1])
  }

  /** Every row in a slot is in its own: what placing leaves. */
  ghost predicate WellPlaced(ring: seq<Option<nat>>) {
    forall s :: 0 <= s < |ring| && ring[s].Some? ==> ring[s].value % |ring| == s
  }

  lemma PlacedIsWellPlaced(first: nat, count: nat, total: nat)
    requires count > 0
    ensures WellPlaced(Placed(first, count, total))
  {
    forall s | 0 <= s < count ensures RowIn(first, count, s) % count == s {
      RowsAndSlots(first, count, s);
    }
  }

  lemma {:induction false} ToldSlotsShow(ring: seq<Option<nat>>, rows: seq<nat>, s: nat)
    requires WellPlaced(ring) && s < |ring|
    ensures s in ToldSlots(ring, rows) <==> ring[s].Some? && ring[s].value in rows
  {
    if rows != [] {
      var n := |rows| - 1;
      ToldSlotsShow(ring, rows[..n], s);
      assert rows == rows[..n] + [rows[n]];
    }
  }

  /** Slots that were right and are told of these rows are right again exactly when no
      slot draws a row that changed untold. */
  lemma TellingRows(p: Store, q: Store, ring: seq<Option<nat>>, rows: seq<nat>)
    requires WellPlaced(ring)
    ensures Replayed(Drawn(p, ring), Changes(ToldSlots(ring, rows)), Drawn(q, ring)) == Drawn(q, ring)
            <==>
            forall s :: 0 <= s < |ring| && ring[s].Some? && RowAt(p, ring[s].value) != RowAt(q, ring[s].value)
                        ==> ring[s].value in rows
  {
    var told := ToldSlots(ring, rows);
    ReplayedChanges(Drawn(p, ring), told, Drawn(q, ring));
    var after := Replayed(Drawn(p, ring), Changes(told), Drawn(q, ring));
    forall s | 0 <= s < |ring|
      ensures after[s] == Drawn(q, ring)[s] <==>
              (ring[s].Some? && RowAt(p, ring[s].value) != RowAt(q, ring[s].value) ==> ring[s].value in rows)
    {
      ToldSlotsShow(ring, rows, s);
    }
    if after == Drawn(q, ring) {
      assert forall s :: 0 <= s < |ring| ==> after[s] == Drawn(q, ring)[s];
    }
  }

  function Range(from: nat, upTo: nat): (rows: seq<nat>)
    ensures forall r :: r in rows <==> from <= r < upTo
    decreases upTo - from
  {
    if from >= upTo then [] else [from] + Range(from + 1, upTo)
  }

  /** Each row after a page is filed: the page's own, none past its new end, none on a
      page let go for it, and any other as it was. */
  lemma RowAfterPut(p: Store, page: nat, rows: seq<Kept>, now: nat, row: nat)
    requires p.Valid()
    ensures var i := row - page * SPAN;
            p.Put(page, rows, now).0.At(row)
            == if PageOf(row) == page then if i < |rows| then Some(rows[i]) else None
               else if PageOf(row) in p.LetGo(page) then None else p.At(row)
  {
    PutKeeps(p, page, rows, now);
    PutLetsGo(p, page, rows, now);
  }

  /** A row with something to draw that filing `count` rows of a page takes out of hand
      untold: past the end of the page that comes, or on a page let go for it. */
  predicate Goes(p: Store, page: nat, count: nat, row: nat) {
    && p.At(row).Some? && p.At(row).value.row != BLANK
    && !(page * SPAN <= row < page * SPAN + count)
    && (PageOf(row) == page || PageOf(row) in p.LetGo(page))
  }

  ghost predicate NoneGoes(p: Store, page: nat, count: nat, ring: seq<Option<nat>>) {
    forall s :: 0 <= s < |ring| && ring[s].Some? ==> !Goes(p, page, count, ring[s].value)
  }

  /// What is told of a change

  /** What filing `count` rows of a page changes. */
  function FiledChange(page: nat, count: nat, was: nat, now: nat): Change {
    if now == was then Change.Rows(page * SPAN, page * SPAN + count)
    else Length(was, now, Some((page * SPAN, page * SPAN + count)))
  }

  function LengthNote(was: nat, now: nat): Note {
    if was == 0 then Reset
    else if now > was then Added(was, now - was)
    else Removed(now, Less(was, now))
  }

  /** What the list's own view is told. */
  function OwnNotes(change: Change): seq<Note> {
    match change
    case Nothing => []
    case Rows(from, upTo) => Changes(Range(from, upTo))
    case Length(was, now, rows) =>
      [LengthNote(was, now)]
      + if rows.Some? then Changes(Range(rows.value.0, Smaller(rows.value.1, now))) else []
  }

  /** What a ring of slots placed from a row holds after, and what it tells: the slots of
      the rows, or with a new length every slot, placed again. */
  function RingAfter(ring: seq<Option<nat>>, from: nat, change: Change): seq<Option<nat>> {
    if change.Length? && ring != [] then Placed(from, |ring|, change.now) else ring
  }

  function SlotNotes(ring: seq<Option<nat>>, from: nat, change: Change): seq<Note> {
    match change
    case Nothing => []
    case Rows(first, past) => Changes(ToldSlots(ring, Range(first, past)))
    case Length(_, now, _) => if ring == [] then [] else PlaceNotes(ring, from, |ring|, now) + Changes(Upto(|ring|))
  }

  /** Slots that were right when the store was `p` are right for `q`, once told. */
  ghost predicate SlotsRight(p: Store, q: Store, ring: seq<Option<nat>>, from: nat, change: Change) {
    var model := Drawn(q, RingAfter(ring, from, change));
    Replayed(Drawn(p, ring), SlotNotes(ring, from, change), model) == model
  }

  /** A page filed in a result of the same length leaves the slots right exactly when none
      draws a row that goes. */
  lemma PutOnScreen(p: Store, page: nat, rows: seq<Kept>, ring: seq<Option<nat>>, from: nat)
    requires p.Valid() && WellPlaced(ring)
    ensures var (q, change) := p.Put(page, rows, p.total);
            change == FiledChange(page, |rows|, p.total, p.total)
            && (SlotsRight(p, q, ring, from, change) <==> NoneGoes(p, page, |rows|, ring))
  {
    var (q, change) := p.Put(page, rows, p.total);
    TellingRows(p, q, ring, Range(change.from, change.to));
    forall s | 0 <= s < |ring| && ring[s].Some?
      ensures (RowAt(p, ring[s].value) != RowAt(q, ring[s].value) ==> ring[s].value in Range(change.from, change.to))
              <==> !Goes(p, page, |rows|, ring[s].value)
    {
      RowAfterPut(p, page, rows, p.total, ring[s].value);
    }
  }

  /// Pages that land

  /** The length the window works out for a page that lands. */
  function Landed(p: Store, page: nat, got: nat, counted: nat, asked: nat): nat {
    WindowState.ListLength(counted, page * SPAN, got, asked, p.Served())
  }

  /** Under that length a page that comes back shorter ends the list: none of its own rows
      goes, if at least as many were asked for as were held. */
  lemma LandedKeepsItsPage(p: Store, page: nat, got: nat, counted: nat, asked: nat, row: nat)
    requires p.Measured() && (page in p.held ==> |p.held[page].rows| <= asked)
    requires row < Landed(p, page, got, counted, asked) && PageOf(row) == page
    ensures !Goes(p, page, got, row)
  {
  }

  /** So a page that lands leaves the slots of a placed ring right exactly when it changes
      the length, or none of them draws a row of a page let go for it. */
  lemma LandedOnScreen(p: Store, page: nat, rows: seq<Kept>, counted: nat, asked: nat, first: nat, count: nat)
    requires p.Valid() && p.Measured() && count > 0
    requires page in p.held ==> |p.held[page].rows| <= asked
    ensures var total, ring := Landed(p, page, |rows|, counted, asked), Placed(first, count, p.total);
            var (q, change) := p.Put(page, rows, total);
            SlotsRight(p, q, ring, first, change)
            <==> total != p.total
                 || forall s :: 0 <= s < count && ring[s].Some? && PageOf(ring[s].value) in p.LetGo(page)
                                ==> !Goes(p, page, |rows|, ring[s].value)
  {
    var total, ring := Landed(p, page, |rows|, counted, asked), Placed(first, count, p.total);
    if total != p.total {
      LengthOnScreen(p, page, rows, total, first, ring);
    } else {
      PlacedIsWellPlaced(first, count, p.total);
      PutOnScreen(p, page, rows, ring, first);
      forall s | 0 <= s < count && ring[s].Some? && PageOf(ring[s].value) == page
        ensures !Goes(p, page, |rows|, ring[s].value)
      {
        LandedKeepsItsPage(p, page, |rows|, counted, asked, ring[s].value);
      }
    }
  }

  /** A change of length leaves every slot right. */
  lemma LengthOnScreen(p: Store, page: nat, rows: seq<Kept>, total: nat, from: nat, ring: seq<Option<nat>>)
    requires p.Valid() && ring != [] && total != p.total
    ensures var (q, change) := p.Put(page, rows, total); SlotsRight(p, q, ring, from, change)
  {
    PutKeeps(p, page, rows, total);
    RefreshOnScreen(p, p.Put(page, rows, total).0, from, ring);
  }

  /// The list's own view

  /** Every row of the list as it draws them, in hand or blank. */
  function Whole(p: Store): (all: seq<Row>)
    ensures |all| == p.total && forall r :: 0 <= r < p.total ==> all[r] == RowAt(p, r)
  {
    seq(p.total, r requires r >= 0 => RowAt(p, r))
  }

  lemma ReplayedLength<T>(view: seq<T>, model: seq<T>)
    requires |view| != |model|
    ensures var after := Replayed(view, [LengthNote(|view|, |model|)], model);
            |after| == |model|
            && forall r :: 0 <= r < |model| ==> after[r] == if r < |view| then view[r] else model[r]
  {
    var note := LengthNote(|view|, |model|);
    assert [note][1..] == [];
    assert Replayed(view, [note], model) == Took(view, note, model);
  }

  /** What a view of `was` rows reads again when it is told of a page filed. */
  predicate ReadAgain(page: nat, count: nat, was: nat, r: nat) {
    r >= was || page * SPAN <= r < page * SPAN + count
  }

  lemma FiledNotesTell<T>(view: seq<T>, page: nat, count: nat, model: seq<T>, notes: seq<Note>)
    requires notes == OwnNotes(FiledChange(page, count, |view|, |model|))
    ensures var after := Replayed(view, notes, model);
            |after| == |model|
            && forall r: nat :: r < |model| ==>
                 after[r] == if ReadAgain(page, count, |view|, r) then model[r] else view[r]
  {
    var first := page * SPAN;
    if |model| == |view| {
      ToldInPlace(view, first, first + count, model);
    } else {
      ResizedAndTold(view, first, first + count, model);
    }
  }

  lemma ToldInPlace<T>(view: seq<T>, first: nat, past: nat, model: seq<T>)
    requires |view| == |model|
    ensures var after := Replayed(view, Changes(Range(first, past)), model);
            |after| == |model|
            && forall r :: 0 <= r < |model| ==> after[r] == if first <= r < past then model[r] else view[r]
  {
    ReplayedChanges(view, Range(first, past), model);
  }

  lemma ResizedAndTold<T>(view: seq<T>, first: nat, past: nat, model: seq<T>)
    requires |view| != |model|
    ensures var told := Changes(Range(first, Smaller(past, |model|)));
            var after := Replayed(view, [LengthNote(|view|, |model|)] + told, model);
            |after| == |model|
            && forall r :: 0 <= r < |model| ==> after[r] == if r < |view| && !(first <= r < past) then view[r] else model[r]
  {
    var note, past' := [LengthNote(|view|, |model|)], Smaller(past, |model|);
    ReplayedInTwo(view, note, Changes(Range(first, past')), model);
    ReplayedLength(view, model);
    ToldInPlace(Replayed(view, note, model), first, past', model);
  }

  /** The list's own view is right after a page is filed exactly when no row of the part
      that stays goes. */
  lemma PutOnOwnView(p: Store, page: nat, rows: seq<Kept>, total: nat)
    requires p.Valid()
    ensures var (q, change) := p.Put(page, rows, total);
            change == FiledChange(page, |rows|, p.total, total)
            && (Replayed(Whole(p), OwnNotes(change), Whole(q)) == Whole(q)
                <==> forall r: nat :: r < Smaller(p.total, total) ==> !Goes(p, page, |rows|, r))
  {
    var (q, change) := p.Put(page, rows, total);
    PutKeeps(p, page, rows, total);
    FiledNotesTell(Whole(p), page, |rows|, Whole(q), OwnNotes(change));
    var after := Replayed(Whole(p), OwnNotes(change), Whole(q));
    forall r: nat | r < total
      ensures after[r] == Whole(q)[r] <==> r >= p.total || !Goes(p, page, |rows|, r)
    {
      RowAfterPut(p, page, rows, total, r);
    }
    if after == Whole(q) {
      assert forall r: nat :: r < total ==> after[r] == Whole(q)[r];
    }
  }

  /// A page let go while it is drawn

  /** What reading a row for the view does to the order of use: a page other than the
      last one read moves to the back. */
  function Read(p: Store, last: Option<nat>, row: nat): (Store, Option<nat>) {
    if p.At(row).None? || last == Some(PageOf(row)) then (p, last)
    else (p.Touch(PageOf(row)), Some(PageOf(row)))
  }

  /** The first page, and then `n` pages from the third on that land after the bar was
      dragged past them: none of their rows is ever read. */
  function DraggedPast(full: seq<Kept>, total: nat, n: nat): Store {
    if n == 0 then Read(Pages(map[], [], total, None, 0, 0).Put(0, full, total).0, None, 0).0
    else DraggedPast(full, total, n - 1).Asking(n + 1).Put(n + 1, full, total).0
  }

  /** A page more, while there is room for it. */
  lemma PutBeside(p: Store, page: nat, rows: seq<Kept>, total: nat)
    requires p.Valid() && page !in p.order && |p.order| < KEPT && p.IsAsked(page)
    ensures var q := p.Put(page, rows, total).0;
            && q.order == p.order + [page] && q.asked == None
            && q.held == p.held[page := Held(rows, p.asked.value.1, false)]
            && q.total == total && q.revision == p.revision && q.served == Larger(p.served, |rows|)
  {
    AbsentAddsNothing(p.held, p.order, page);
  }

  lemma PutBesideKeeps(p: Store, page: nat, rows: seq<Kept>, total: nat)
    requires p.Valid() && p.Measured()
    ensures p.Put(page, rows, total).0.Valid() && p.Put(page, rows, total).0.Measured()
  {
    PutKeeps(p, page, rows, total);
    PutMeasures(p, page, rows, total);
  }

  ghost predicate PastPages(p: Store, full: seq<Kept>, total: nat, n: nat) {
    && p.Valid() && p.Measured()
    && p.asked == None && p.total == total && p.served == SPAN && p.revision == 0
    && |p.order| == n + 1 && p.order[0] == 0
    && (forall page :: page in p.order ==> page == 0 || 2 <= page <= n + 1)
    && 0 in p.held && p.held[0] == Held(full, 0, false)
  }

  lemma FirstPageIn(full: seq<Kept>, total: nat)
    requires |full| == SPAN
    ensures PastPages(DraggedPast(full, total, 0), full, total, 0)
  {
    assert Without([0], 0) == [];
  }

  lemma OnePagePast(p: Store, full: seq<Kept>, total: nat, n: nat)
    requires |full| == SPAN && 0 < n < KEPT && PastPages(p, full, total, n - 1)
    ensures PastPages(p.Asking(n + 1).Put(n + 1, full, total).0, full, total, n)
  {
    var a := p.Asking(n + 1);
    PutBeside(a, n + 1, full, total);
    PutBesideKeeps(a, n + 1, full, total);
    OneMorePast(p, a.Put(n + 1, full, total).0, full, total, n);
  }

  lemma OneMorePast(p: Store, q: Store, full: seq<Kept>, total: nat, n: nat)
    requires 0 < n && PastPages(p, full, total, n - 1) && q.Valid() && q.Measured()
    requires q.order == p.order + [n + 1] && q.asked == None && q.held == p.held[n + 1 := Held(full, 0, false)]
    requires q.total == total && q.revision == 0 && q.served == SPAN
    ensures PastPages(q, full, total, n)
  {
    forall page | page in q.order ensures page == 0 || 2 <= page <= n + 1 {
      assert page in p.order || page == n + 1;
    }
  }

  lemma {:induction false} DraggedPastIs(full: seq<Kept>, total: nat, n: nat)
    requires |full| == SPAN && n < KEPT
    ensures PastPages(DraggedPast(full, total, n), full, total, n)
  {
    if n == 0 {
      FirstPageIn(full, total);
    } else {
      DraggedPastIs(full, total, n - 1);
      OnePagePast(DraggedPast(full, total, n - 1), full, total, n);
    }
  }

  /** Each of those pages is the one asked for while its rows are in sight. */
  lemma EachIsAskedFor(full: seq<Kept>, total: nat, n: nat)
    requires |full| == SPAN && 0 < n < KEPT && total == 33 * SPAN
    ensures var first := (n + 1) * SPAN;
            DraggedPast(full, total, n - 1).NextPage(first, first + 9, true, false) == Some(n + 1)
  {
    DraggedPastIs(full, total, n - 1);
    NextIsInSight(DraggedPast(full, total, n - 1), full, total, n);
  }

  lemma NextIsInSight(p: Store, full: seq<Kept>, total: nat, n: nat)
    requires 0 < n < KEPT && total == 33 * SPAN && PastPages(p, full, total, n - 1)
    ensures p.NextPage((n + 1) * SPAN, (n + 1) * SPAN + 9, true, false) == Some(n + 1)
  {
    var first := (n + 1) * SPAN;
    SightComesFirst(p, first, first + 9, true, false, first);
  }

  /** The first page, read last, is the one let go for the page beside it. */
  lemma FirstIsLetGo(p: Store, full: seq<Kept>, total: nat)
    requires PastPages(p, full, total, KEPT - 1)
    ensures 1 !in p.held && p.Asking(1).LetGo(1) == [0]
  {
    AbsentAddsNothing(p.held, p.order, 1);
    var a := p.Asking(1);
    assert p.order[..1] == [0];
    assert a.BeforeAsked([0]) == [0] + a.BeforeAsked([0][1..]);
  }

  lemma NextIsBeside(p: Store, full: seq<Kept>, total: nat)
    requires |full| == SPAN && PastPages(p, full, total, KEPT - 1) && total == 33 * SPAN
    ensures p.NextPage(0, 9, true, false) == Some(1)
  {
    FirstIsLetGo(p, full, total);
    assert !p.Wants(0, 9, false);
    assert p.FirstWanted(0, 0, 9, false) == p.FirstWanted(1, 0, 9, false) == None;
  }

  /** The bar is dragged past thirty-one pages and back to the first, whose rows are still
      the last ones read: reading them again does not note the page, the page beside it is
      fetched ahead, and filing that lets go the page on screen. */
  lemma LetGoWhileDrawn(full: seq<Kept>, ahead: seq<Kept>)
    requires |full| == |ahead| == SPAN && full[0].row != BLANK
    ensures var total := 33 * SPAN;
            var p := DraggedPast(full, total, 31);
            var landed := Landed(p, 1, SPAN, total, SPAN);
            var (q, change) := p.Asking(1).Put(1, ahead, landed);
            && (forall row: nat :: row < SPAN ==> Read(p, Some(0), row) == (p, Some(0)))
            && p.NextPage(0, 9, true, false) == Some(1)
            && landed == p.total
            && !SlotsRight(p.Asking(1), q, Placed(0, 10, total), 0, change)
  {
    var total := 33 * SPAN;
    DraggedPastIs(full, total, KEPT - 1);
    var p := DraggedPast(full, total, KEPT - 1);
    NextIsBeside(p, full, total);
    FirstReadsStay(p, full, total);
    FirstRowGoes(p, full, ahead, total);
  }

  lemma FirstReadsStay(p: Store, full: seq<Kept>, total: nat)
    requires PastPages(p, full, total, KEPT - 1) && total == 33 * SPAN
    ensures forall row: nat :: row < SPAN ==> Read(p, Some(0), row) == (p, Some(0))
    ensures Landed(p, 1, SPAN, total, SPAN) == total
  {
  }

  lemma FirstRowGoes(p: Store, full: seq<Kept>, ahead: seq<Kept>, total: nat)
    requires |full| == |ahead| == SPAN && full[0].row != BLANK && total == 33 * SPAN
    requires PastPages(p, full, total, KEPT - 1)
    ensures var (q, change) := p.Asking(1).Put(1, ahead, total);
            !SlotsRight(p.Asking(1), q, Placed(0, 10, total), 0, change)
  {
    var a, ring := p.Asking(1), Placed(0, 10, total);
    FirstIsLetGo(p, full, total);
    PlacedIsWellPlaced(0, 10, total);
    assert a.At(0) == Some(full[0]);
    assert ring[0] == Some(0);
    assert !NoneGoes(a, 1, SPAN, ring);
    PutOnScreen(a, 1, ahead, ring, 0);
  }

  /** A result that changes length refreshes every slot: they are right whatever
      happened to the rows. */
  lemma RefreshOnScreen(p: Store, q: Store, from: nat, was: seq<Option<nat>>)
    requires was != []
    ensures var now := Placed(from, |was|, q.total);
            Replayed(Drawn(p, was), PlaceNotes(was, from, |was|, q.total) + Changes(Upto(|was|)), Drawn(q, now))
            == Drawn(q, now)
  {
    var now := Placed(from, |was|, q.total);
    var placing := PlaceNotes(was, from, |was|, q.total);
    var slots := SlotsOf(ToldRows(was, from, q.total, |was|), |was|);
    assert Resized(|was|, |was|) == [] && placing == Changes(slots);
    var model := Drawn(q, now);
    ReplayedInTwo(Drawn(p, was), placing, Changes(Upto(|was|)), model);
    ReplayedChanges(Drawn(p, was), slots, model);
    EverythingTold(Replayed(Drawn(p, was), placing, model), model);
  }

  lemma EverythingTold<T>(view: seq<T>, model: seq<T>)
    requires |view| == |model|
    ensures Replayed(view, Changes(Upto(|model|)), model) == model
  {
    ReplayedChanges(view, Upto(|model|), model);
    forall s | 0 <= s < |model| ensures s in Upto(|model|) {
      assert Upto(|model|)[s] == s;
    }
  }

  /// Rewriting rows in place

  function ChangedIn(rows: seq<Kept>, f: Kept -> Kept, base: nat, n: nat): seq<nat>
    requires n <= |rows|
  {
    if n == 0 then []
    else ChangedIn(rows, f, base, n - 1)
         + if f(rows[n - 1]).row != rows[n - 1].row then [base + n - 1] else []
  }

  /** The rows whose drawn row a rewriting changes, page by page in the order of use. */
  function ChangedOver(p: Store, order: seq<nat>, f: Kept -> Kept): seq<nat> {
    if order == [] then []
    else
      var page := order[|order| - 1];
      ChangedOver(p, order[..|order| - 1], f)
      + if page in p.held then ChangedIn(p.held[page].rows, f, page * SPAN, |p.held[page].rows|) else []
  }

  /** A row of this page that a rewriting draws differently. */
  ghost predicate Differs(rows: seq<Kept>, f: Kept -> Kept, i: nat) {
    i < |rows| && f(rows[i]).row != rows[i].row
  }

  /** The row is of this page, one of these, and a rewriting draws it differently. */
  ghost predicate DiffersOn(p: Store, order: seq<nat>, f: Kept -> Kept, page: nat, row: nat) {
    page in order && page in p.held && page * SPAN <= row && Differs(p.held[page].rows, f, row - page * SPAN)
  }

  lemma {:induction false} ChangedInIs(rows: seq<Kept>, f: Kept -> Kept, base: nat, n: nat, row: nat)
    requires n <= |rows|
    ensures row in ChangedIn(rows, f, base, n) <==> base <= row < base + n && Differs(rows, f, row - base)
  {
    if n > 0 {
      ChangedInIs(rows, f, base, n - 1, row);
    }
  }

  /** Exactly the rows that a rewriting draws differently are told. */
  lemma {:induction false} ChangedOverIs(p: Store, order: seq<nat>, f: Kept -> Kept, row: nat)
    ensures row in ChangedOver(p, order, f) <==> exists page: nat :: DiffersOn(p, order, f, page, row)
  {
    if order != [] {
      var rest, last := order[..|order| - 1], order[|order| - 1];
      assert order == rest + [last];
      ChangedOverIs(p, rest, f, row);
      if last in p.held {
        ChangedInIs(p.held[last].rows, f, last * SPAN, |p.held[last].rows|, row);
      }
      assert row in ChangedOver(p, order, f) <==> row in ChangedOver(p, rest, f) || DiffersOn(p, order, f, last, row);
      forall page: nat | page != last ensures DiffersOn(p, order, f, page, row) <==> DiffersOn(p, rest, f, page, row) {
      }
      forall page: nat | DiffersOn(p, rest, f, page, row) ensures DiffersOn(p, order, f, page, row) {
      }
    }
  }

  /** After a rewriting of the rows in hand, telling the slots of the changed rows
      leaves them right: taking the arrival marks off, painting a selection, drawing
      pictures. */
  lemma RewriteOnScreen(p: Store, f: Kept -> Kept, ring: seq<Option<nat>>)
    requires p.Valid() && WellPlaced(ring)
    ensures var q := p.Each(f);
            Replayed(Drawn(p, ring), Changes(ToldSlots(ring, ChangedOver(p, p.order, f))), Drawn(q, ring))
            == Drawn(q, ring)
  {
    var q, told := p.Each(f), ChangedOver(p, p.order, f);
    TellingRows(p, q, ring, told);
    forall s | 0 <= s < |ring| && ring[s].Some? && RowAt(p, ring[s].value) != RowAt(q, ring[s].value)
      ensures ring[s].value in told
    {
      RewrittenIsTold(p, f, ring[s].value);
    }
  }

  lemma EachAt(p: Store, f: Kept -> Kept, row: nat)
    ensures p.Each(f).At(row) == match p.At(row) case Some(k) => Some(f(k)) case None => None
  {
  }

  lemma RewrittenIsTold(p: Store, f: Kept -> Kept, row: nat)
    requires p.Valid() && RowAt(p, row) != RowAt(p.Each(f), row)
    ensures row in ChangedOver(p, p.order, f)
  {
    EachAt(p, f, row);
    assert DiffersOn(p, p.order, f, PageOf(row), row);
    ChangedOverIs(p, p.order, f, row);
  }

  /** After a sweep, telling the slots of the rows drawn leaves them right. */
  lemma SweepOnScreen(shelf: Shelf, p: Store, row: nat, upTo: nat, batch: nat, ring: seq<Option<nat>>)
    requires p.Valid() && WellPlaced(ring)
    ensures var s := Sweep(shelf, p, row, upTo, batch);
            Replayed(Drawn(p, ring), Changes(ToldSlots(ring, s.drawn)), Drawn(s.pages, ring)) == Drawn(s.pages, ring)
  {
    var s := Sweep(shelf, p, row, upTo, batch);
    SweepDoes(shelf, p, row, upTo, batch);
    SweepReports(shelf, p, row, upTo, batch);
    TellingRows(p, s.pages, ring, s.drawn);
    forall r: nat | RowAt(p, r) != RowAt(s.pages, r) ensures r in s.drawn {
      assert Became(p, s.pages, r, Shown);
    }
  }

  /// The three rewritings

  function Settled(k: Kept): (r: Kept)
    ensures r.pic == k.pic
  {
    k.(row := k.row.(isFresh := false))
  }

  function Painted(picked: set<string>): Kept -> Kept {
    (k: Kept) => k.(row := k.row.(picked := k.row.path in picked))
  }

  function Remade(made: set<string>): Kept -> Kept {
    (k: Kept) => if k.pic == Missing && k.row.path in made then k.(pic := Unknown) else k
  }

  /** Every row in hand as it was, without the mark of an arrival. */
  ghost predicate Unmarked(p: Store, q: Store) {
    forall row: nat :: q.At(row) == match p.At(row)
                                    case Some(k) => Some(k.(row := k.row.(isFresh := false)))
                                    case None => None
  }

  /** Every row in hand as it was, but picked exactly when its path is. */
  ghost predicate Picked(p: Store, q: Store, paths: set<string>) {
    forall row: nat :: q.At(row) == match p.At(row)
                                    case Some(k) => Some(k.(row := k.row.(picked := k.row.path in paths)))
                                    case None => None
  }

  /** Every row in hand as it was, but one with no picture yet of which there is one now
      has no verdict. */
  ghost predicate Forgiven(p: Store, q: Store, made: set<string>) {
    forall row: nat :: q.At(row) == match p.At(row)
                                    case Some(k) =>
                                      Some(if k.pic == Missing && k.row.path in made then k.(pic := Unknown) else k)
                                    case None => None
  }

  lemma SettledUnmarks(p: Store)
    ensures Unmarked(p, p.Each(Settled))
  {
    forall row: nat
      ensures p.Each(Settled).At(row) == match p.At(row) case Some(k) => Some(Settled(k)) case None => None
    {
      EachAt(p, Settled, row);
    }
  }

  lemma PaintedPicks(p: Store, paths: set<string>)
    ensures Picked(p, p.Each(Painted(paths)), paths)
  {
    var f := Painted(paths);
    forall row: nat ensures p.Each(f).At(row) == match p.At(row) case Some(k) => Some(f(k)) case None => None {
      EachAt(p, f, row);
    }
  }

  lemma RemadeForgives(p: Store, made: set<string>)
    ensures Forgiven(p, p.Each(Remade(made)), made)
  {
    var f := Remade(made);
    forall row: nat ensures p.Each(f).At(row) == match p.At(row) case Some(k) => Some(f(k)) case None => None {
      EachAt(p, f, row);
    }
  }
}

module Rows {
  import opened Naturals
  import opened Options
  import opened Pages
  import opened Pictures
  import opened Views
  import opened Slots
  import opened ListSpec

  class Rows {
    var pages: Store
    var want: Option<nat>
    /** The page a row was last read from. */
    var touched: Option<nat>
    var resets: nat
    /** An upper bound on the tally of rows without a verdict. */
    var unlooked: nat
    /** What this model's own view has been told. */
    var notes: seq<Note>
    const slots: Slots

    ghost predicate Valid()
      reads this
    {
      pages.Valid() && pages.Measured() && Tally(pages) <= unlooked
    }

    constructor (slots: Slots)
      ensures Valid() && this.slots == slots
      ensures pages == Pages(map[], [], 0, None, 0, 0) && touched == None && notes == [] && unlooked == 0
    {
      pages := Pages(map[], [], 0, None, 0, 0);
      want, touched, resets, unlooked, notes := None, None, 0, 0, [];
      this.slots := slots;
    }

    /** One note a row for the view, and one for the slot that shows it, if there is one. */
    method TellRows(rows: seq<nat>)
      modifies this`notes, slots`notes
      ensures notes == old(notes) + Changes(rows)
      ensures slots.notes == old(slots.notes) + Changes(ToldSlots(slots.ring, rows))
    {
      for i := 0 to |rows|
        invariant notes == old(notes) + Changes(rows[..i])
        invariant slots.notes == old(slots.notes) + Changes(ToldSlots(slots.ring, rows[..i]))
      {
        notes := notes + [Changed(rows[i])];
        slots.RowChanged(rows[i]);
        OneMoreTold(slots.ring, rows, i);
      }
      assert rows[..|rows|] == rows;
    }

    /** A change of the store becomes the notes it stands for, for the view and the slots. */
    method Tell(change: Change)
      requires change.Length? ==> pages.total == change.now && change.was != change.now
      modifies this`notes, this`resets, slots
      ensures resets == old(resets) + if change.Length? then 1 else 0
      ensures notes == old(notes) + OwnNotes(change)
      ensures slots.from == old(slots.from) && slots.ring == RingAfter(old(slots.ring), slots.from, change)
      ensures slots.notes == old(slots.notes) + SlotNotes(old(slots.ring), slots.from, change)
    {
      if change.Rows? {
        TellRows(Range(change.from, change.to));
      } else if change.Length? {
        TellNewLength(change);
      }
    }

    method TellNewLength(change: Change)
      requires change.Length? && pages.total == change.now && change.was != change.now
      modifies this`notes, this`resets, slots
      ensures resets == old(resets) + 1
      ensures notes == old(notes) + OwnNotes(change)
      ensures slots.from == old(slots.from) && slots.ring == RingAfter(old(slots.ring), slots.from, change)
      ensures slots.notes == old(slots.notes) + SlotNotes(old(slots.ring), slots.from, change)
    {
      resets := resets + 1;
      TellLength(change.was, change.now);
      if change.rows.Some? {
        notes := notes + Changes(Range(change.rows.value.0, Smaller(change.rows.value.1, change.now)));
      }
      assert notes == old(notes) + OwnNotes(change);
      slots.Refresh(pages.total);
    }

    method TellLength(was: nat, now: nat)
      requires was != now
      modifies this`notes
      ensures notes == old(notes) + [LengthNote(was, now)]
    {
      if was == 0 {
        notes := notes + [Reset];
      } else if now > was {
        notes := notes + [Added(was, now - was)];
      } else {
        notes := notes + [Removed(now, was - now)];
      }
    }

    /** The verdicts and the drawn pictures of the rows held before, keyed by path, and
        how many rows there were. */
    method Knew(page: nat) returns (known: map<string, Pic>, drawn: map<string, Option<string>>, had: nat)
      ensures had == |Before(pages, page)| && Knows(Before(pages, page), known, drawn)
    {
      known, drawn, had := map[], map[], 0;
      ghost var rows := Before(pages, page);
      if pages.Holds(page) {
        for i := 0 to SPAN
          invariant had == Smaller(i, |rows|) && Knows(rows[..had], known, drawn)
        {
          var at := pages.At(page * SPAN + i);
          assert at.Some? <==> i < |rows|;
          if at.Some? {
            var kept := at.value;
            KnowsMore(rows[..had], known, drawn, kept);
            assert rows[..had] + [kept] == rows[..had + 1];
            if kept.pic == Shown {
              drawn := drawn[kept.row.path := kept.row.thumb];
            }
            known := known[kept.row.path := kept.pic];
            had := had + 1;
          }
        }
        assert rows[..had] == rows;
      }
    }

    /** One row merged with what its path had, and whether its path had nothing. */
    static method Arriving(ghost before: seq<Kept>, had: nat, row: Row, i: nat, bytes: int,
                           known: map<string, Pic>, drawn: map<string, Option<string>>)
      returns (k: Kept, isNew: bool)
      requires had == |before| && Knows(before, known, drawn)
      ensures k == Merged(before, i, row, bytes)
      ensures k.bytes == bytes && k.row.path == row.path && k.row.token == row.token && k.row.picked == row.picked
      ensures k.pic == if row.path in known then known[row.path] else Unknown
      ensures if k.pic == Shown then row.path in drawn && k.row.thumb == drawn[row.path] && k.row.shot
              else k.row.thumb == row.thumb && k.row.shot == row.shot
      ensures k.row.isFresh == if i < had then row.path != "" && row.path !in known else row.isFresh
      ensures isNew <==> i < |before| && row.path != "" && row.path !in LastByPath(before)
    {
      var arriving := row;
      isNew := false;
      if i < had {
        isNew := row.path != "" && row.path !in known;
        arriving := row.(isFresh := isNew);
      }
      var pic := if row.path in known then known[row.path] else Unknown;
      if pic == Shown && row.path in drawn {
        arriving := arriving.(thumb := drawn[row.path], shot := true);
      }
      k := Kept.Kept(arriving, bytes, pic);
    }

    /** Every row merged, whether any is an arrival, and how many have no verdict. */
    method Merge(page: nat, rows: seq<Row>, bytes: seq<int>) returns (kept: seq<Kept>, arrived: bool, unknown: nat)
      ensures kept == MergedAll(Before(pages, page), rows, bytes)
      ensures arrived <==> Arrived(Before(pages, page), rows)
      ensures unknown == Unknowns(kept)
    {
      ghost var before := Before(pages, page);
      var known, drawn, had := Knew(page);
      kept, arrived, unknown := [], false, 0;
      for i := 0 to |rows|
        invariant kept == MergedAll(before, rows[..i], bytes) && unknown == Unknowns(kept)
        invariant arrived <==> Arrived(before, rows[..i])
      {
        var k, isNew := Arriving(before, had, rows[i], i, if i < |bytes| then bytes[i] else 0, known, drawn);
        MergedGrows(before, rows, bytes, i);
        UnknownsGrow(kept, k);
        ArrivedGrows(before, rows, i);
        arrived := arrived || isNew;
        kept := kept + [k];
        if k.pic == Unknown {
          unknown := unknown + 1;
        }
      }
      assert rows[..|rows|] == rows;
    }

    /** Merging, filing and telling in one: the store, the bound, the notes and the ring
        afterwards, and whether a row arrived. */
    method Put(page: nat, rows: seq<Row>, bytes: seq<int>, total: nat) returns (arrived: bool)
      requires Valid()
      modifies this, slots
      ensures Valid() && want == None
      ensures var kept := MergedAll(Before(old(pages), page), rows, bytes);
              && pages == old(pages).Put(page, kept, total).0
              && unlooked == old(unlooked) + Unknowns(kept)
      ensures FiledAs(old(pages), pages, page, rows, bytes)
      ensures arrived <==> Arrived(Before(old(pages), page), rows)
      ensures var change := FiledChange(page, |rows|, old(pages).total, total);
              && notes == old(notes) + OwnNotes(change)
              && slots.from == old(slots.from) && slots.ring == RingAfter(old(slots.ring), slots.from, change)
              && slots.notes == old(slots.notes) + SlotNotes(old(slots.ring), slots.from, change)
    {
      var kept, unknown;
      kept, arrived, unknown := Merge(page, rows, bytes);
      PutArrives(pages, page, rows, bytes, total);
      File(page, kept, unknown, total);
    }

    /** Merged rows are filed and the change is told. */
    method File(page: nat, kept: seq<Kept>, unknown: nat, total: nat)
      requires Valid() && unknown == Unknowns(kept)
      modifies this, slots
      ensures Valid() && want == None && touched == old(touched)
      ensures pages == old(pages).Put(page, kept, total).0 && unlooked == old(unlooked) + unknown
      ensures var change := FiledChange(page, |kept|, old(pages).total, total);
              && notes == old(notes) + OwnNotes(change)
              && slots.from == old(slots.from) && slots.ring == RingAfter(old(slots.ring), slots.from, change)
              && slots.notes == old(slots.notes) + SlotNotes(old(slots.ring), slots.from, change)
    {
      unlooked := unlooked + unknown;
      PutFiles(pages, page, kept, total);
      var (filed, change) := pages.Put(page, kept, total);
      pages := filed;
      want := None;
      Tell(change);
    }

    /** A row number that no row in hand reaches. */
    method HeldTo() returns (to: nat)
      requires pages.Valid()
      ensures to == PastHeld(pages, pages.order)
    {
      to := 0;
      for p := 0 to |pages.order|
        invariant to == PastHeld(pages, pages.order[..p])
      {
        var page, count := pages.order[p], 0;
        for i := 0 to SPAN
          invariant count == Smaller(i, HeldOf(pages, page))
        {
          if pages.At(page * SPAN + i).Some? {
            count := count + 1;
          }
        }
        to := Larger(to, page * SPAN + count);
        assert pages.order[..p + 1][..p] == pages.order[..p];
      }
      assert pages.order[..|pages.order|] == pages.order;
    }

    /** A new length, but never one that leaves a row in hand out. */
    method SetTotal(total: nat)
      requires Valid()
      modifies this, slots
      ensures Valid() && want == old(want) && touched == old(touched) && unlooked == old(unlooked)
      ensures pages == old(pages).(total := Larger(total, PastHeld(old(pages), old(pages).order)))
      ensures forall row: nat :: pages.At(row).Some? ==> row < pages.total
      ensures total <= pages.total && (pages.total == total || Reaches(old(pages), pages.order, pages.total))
      ensures var change := old(pages).SetTotal(pages.total).1;
              && notes == old(notes) + OwnNotes(change)
              && slots.from == old(slots.from) && slots.ring == RingAfter(old(slots.ring), slots.from, change)
              && slots.notes == old(slots.notes) + SlotNotes(old(slots.ring), slots.from, change)
    {
      var held := HeldTo();
      PastHeldReaches(pages, pages.order);
      forall row: nat | pages.At(row).Some? ensures row < held {
        HeldBelow(pages, pages.order, row);
      }
      var (filed, change) := pages.SetTotal(Larger(total, held));
      pages := filed;
      Tell(change);
      assert forall row: nat :: pages.At(row) == old(pages).At(row);
    }

    /** A row for the view: what is in hand, or a blank and a note of the first miss. The
        page is noted as read only when it is another than the last. */
    method RowData(row: nat) returns (drawn: Row)
      requires Valid()
      modifies this`pages, this`touched, this`want
      ensures Valid() && drawn == RowAt(old(pages), row)
      ensures drawn == match old(pages).At(row) case Some(k) => k.row case None => Row("", "", false, false, None, false)
      ensures pages.held == old(pages).held && pages.total == old(pages).total
      ensures (pages, touched) == Read(old(pages), old(touched), row)
      ensures want == if old(pages).At(row).None? && old(want).None? then Some(row) else old(want)
    {
      var at := pages.At(row);
      if at.Some? {
        var page := PageOf(row);
        if touched != Some(page) {
          touched := Some(page);
          TouchKeeps(pages, page);
          pages := pages.Touch(page);
        }
        return at.value.row;
      }
      if want.None? {
        want := Some(row);
      }
      drawn := BLANK;
    }

    /** One page's rows rewritten, which of them are drawn differently now, and how many
        have nobody's verdict any more. */
    static method RewriteRows(rows: seq<Kept>, f: Kept -> Kept, base: nat)
      returns (done: seq<Kept>, told: seq<nat>, again: nat)
      requires NeverLooks(f)
      ensures done == Mapped(rows, f)
      ensures told == ChangedIn(rows, f, base, |rows|)
      ensures Unknowns(done) == Unknowns(rows) + again
    {
      done, told, again := rows, [], 0;
      for i := 0 to |rows|
        invariant |done| == |rows| && told == ChangedIn(rows, f, base, i)
        invariant forall j :: 0 <= j < |rows| ==> done[j] == if j < i then f(rows[j]) else rows[j]
        invariant Unknowns(done) == Unknowns(rows) + again
      {
        var k := f(rows[i]);
        UnknownsUpdated(done, i, k);
        if k.row != rows[i].row {
          told := told + [base + i];
        }
        if k.pic == Unknown && rows[i].pic != Unknown {
          again := again + 1;
        }
        done := done[i := k];
      }
    }

    /** Every row in hand rewritten, page by page. */
    method Rewrite(f: Kept -> Kept) returns (told: seq<nat>, again: nat)
      requires Valid() && NeverLooks(f)
      modifies this`pages
      ensures pages == old(pages).Each(f) && pages.Valid() && pages.Measured()
      ensures told == ChangedOver(old(pages), old(pages).order, f)
      ensures Tally(pages) == Tally(old(pages)) + again
    {
      told, again := [], 0;
      var order := pages.order;
      ghost var p0 := pages;
      PartlyAll(p0, f);
      assert p0.order[..0] == [];
      for i := 0 to |order|
        invariant pages == Partly(p0, p0.order[..i], f)
        invariant told == ChangedOver(p0, p0.order[..i], f)
        invariant Tally(pages) == Tally(p0) + again
      {
        var page := order[i];
        PartlyStep(p0, i, f);
        ChangedOverStep(p0, i, f);
        var rows, more, unlookedAgain := RewriteRows(pages.held[page].rows, f, page * SPAN);
        ReplacedTallies(pages, page, rows);
        pages := pages.(held := pages.held[page := pages.held[page].(rows := rows)]);
        told := told + more;
        again := again + unlookedAgain;
      }
      PartlyAll(p0, f);
    }

    /** No row in hand is an arrival any more; the rows this changes are told. */
    method ClearFresh()
      requires Valid()
      modifies this`pages, this`notes, slots`notes
      ensures Valid() && pages == old(pages).Each(Settled)
      ensures Unmarked(old(pages), pages)
      ensures var told := ChangedOver(old(pages), old(pages).order, Settled);
              && notes == old(notes) + Changes(told)
              && slots.notes == old(slots.notes) + Changes(ToldSlots(slots.ring, told))
    {
      SettledUnmarks(pages);
      var cleared, again := Rewrite(Settled);
      SamePicSameTally(old(pages), Settled);
      TellRows(cleared);
    }

    /** A row is marked picked exactly when its path is; the rows this changes are told. */
    method MarkPicked(picked: set<string>)
      requires Valid()
      modifies this`pages, this`notes, slots`notes
      ensures Valid() && pages == old(pages).Each(Painted(picked))
      ensures Picked(old(pages), pages, picked)
      ensures var told := ChangedOver(old(pages), old(pages).order, Painted(picked));
              && notes == old(notes) + Changes(told)
              && slots.notes == old(slots.notes) + Changes(ToldSlots(slots.ring, told))
    {
      var f := Painted(picked);
      PaintedPicks(pages, picked);
      var changed, again := Rewrite(f);
      SamePicSameTally(old(pages), f);
      TellRows(changed);
    }

    /** Rows missing a picture that now exists lose their verdict, and the bound follows. */
    method MadePictures(ready: seq<string>)
      requires Valid()
      modifies this`pages, this`unlooked
      ensures Valid() && pages == old(pages).Each(Remade(set f | f in ready))
      ensures Forgiven(old(pages), pages, set f | f in ready)
      ensures unlooked - old(unlooked) == Tally(pages) - Tally(old(pages))
    {
      RemadeForgives(pages, set f | f in ready);
      if |ready| == 0 {
        NothingMade(pages, set f | f in ready);
        return;
      }
      var told, again := Rewrite(Remade(set f | f in ready));
      unlooked := unlooked + again;
    }

    /** The sweep, done only when the bound is positive: the store, the files asked for and
        the rows told are those of a sweep over every row. */
    method LookForPictures(shelf: Shelf, from: nat, upTo: nat, batch: nat) returns (count: nat, ask: seq<string>)
      requires Valid()
      modifies this`pages, this`unlooked, this`notes, slots`notes
      ensures Valid()
      ensures var s := Sweep(shelf, old(pages), from, upTo, batch);
              && pages == s.pages && ask == s.ask && count == |s.drawn|
              && (old(unlooked) > 0 ==> unlooked == old(unlooked) - s.looked)
              && notes == old(notes) + Changes(s.drawn)
              && slots.notes == old(slots.notes) + Changes(ToldSlots(slots.ring, s.drawn))
    {
      if unlooked == 0 {
        NothingToSweep(shelf, pages, from, upTo, batch);
        assert Changes([]) == [] && ToldSlots(slots.ring, []) == [];
        return 0, [];
      }
      var drawn;
      drawn, ask := LookThrough(shelf, from, upTo, batch);
      TellRows(drawn);
      count := |drawn|;
    }

    method LookThrough(shelf: Shelf, from: nat, upTo: nat, batch: nat) returns (drawn: seq<nat>, ask: seq<string>)
      requires Valid()
      modifies this`pages, this`unlooked
      ensures Valid()
      ensures var s := Sweep(shelf, old(pages), from, upTo, batch);
              pages == s.pages && ask == s.ask && drawn == s.drawn && unlooked == old(unlooked) - s.looked
    {
      drawn, ask := [], [];
      var looked := 0;
      var row := from;
      ghost var all := Sweep(shelf, pages, from, upTo, batch);
      while row < upTo && looked < batch
        invariant looked <= batch && Valid() && unlooked == old(unlooked) - looked
        invariant Remaining(shelf, all, Swept(pages, drawn, ask, looked), row, upTo, batch)
        decreases upTo - row
      {
        ghost var done := Swept(pages, drawn, ask, looked);
        var page := PageOf(row);
        if page !in pages.held {
          RemainingPage(shelf, all, done, row, upTo, batch);
          row := (page + 1) * SPAN;
          continue;
        }
        var at := pages.At(row);
        if at.None? || at.value.pic != Unknown || at.value.row.path == "" {
          RemainingRow(shelf, all, done, row, upTo, batch);
          row := row + 1;
          continue;
        }
        RemainingStep(shelf, all, done, row, upTo, batch);
        var shown, missing := LookAtRow(shelf, row);
        looked := looked + 1;
        drawn := drawn + shown;
        ask := ask + missing;
        row := row + 1;
      }
    }

    /** One row looked at: its verdict, and whether it is drawn or worth asking for. */
    method LookAtRow(shelf: Shelf, row: nat) returns (shown: seq<nat>, missing: seq<string>)
      requires Valid() && Due(pages, row)
      modifies this`pages, this`unlooked
      ensures Valid() && unlooked == old(unlooked) - 1
      ensures Swept(pages, shown, missing, 1) == LookAt(shelf, old(pages), row)
    {
      var k := Looked(shelf, pages.At(row).value);
      ZeroIsNone(pages, row);
      WithTallies(pages, row, k);
      WithMeasures(pages, row, k);
      unlooked := Less(unlooked, 1);
      pages := pages.With(row, k);
      shown := if k.pic == Shown then [row] else [];
      missing := if k.pic == Missing then [k.row.path] else [];
    }

    /** No page is held, nothing is wanted or noted as read, and no note is sent. */
    method Empty()
      requires Valid()
      modifies this
      ensures Valid()
      ensures pages == old(pages).Empty() && want == None && touched == None
      ensures pages.held == map[] && pages.order == [] && pages.asked == None && pages.total == old(pages).total
      ensures notes == old(notes) && unlooked == old(unlooked)
    {
      pages := pages.Empty();
      touched := None;
      want := None;
    }
  }

  lemma OneMoreTold(ring: seq<Option<nat>>, rows: seq<nat>, i: nat)
    requires i < |rows|
    ensures Changes(rows[..i + 1]) == Changes(rows[..i]) + [Changed(rows[i])]
    ensures Changes(ToldSlots(ring, rows[..i + 1]))
            == Changes(ToldSlots(ring, rows[..i])) + Changes(Showing(ring, rows[i]))
  {
    assert rows[..i + 1][..i] == rows[..i];
    var before, more := ToldSlots(ring, rows[..i]), Showing(ring, rows[i]);
    assert Changes(before + more) == Changes(before) + Changes(more);
  }

  lemma PutFiles(p: Store, page: nat, kept: seq<Kept>, total: nat)
    requires p.Valid() && p.Measured()
    ensures var (filed, change) := p.Put(page, kept, total);
            && filed.Valid() && filed.Measured() && filed.total == total && Tally(filed) <= Tally(p) + Unknowns(kept)
            && change == FiledChange(page, |kept|, p.total, total)
  {
    PutTallies(p, page, kept, total);
    PutKeeps(p, page, kept, total);
    PutMeasures(p, page, kept, total);
  }

  /** How many rows of a page are inside it. */
  function HeldOf(p: Store, page: nat): nat {
    if page in p.held then Smaller(SPAN, |p.held[page].rows|) else 0
  }

  function PastHeld(p: Store, order: seq<nat>): nat {
    if order == [] then 0
    else Larger(PastHeld(p, order[..|order| - 1]), order[|order| - 1] * SPAN + HeldOf(p, order[|order| - 1]))
  }

  lemma {:induction false} HeldBelow(p: Store, order: seq<nat>, row: nat)
    requires p.At(row).Some? && PageOf(row) in order
    ensures row < PastHeld(p, order)
    decreases |order|
  {
    var n := |order| - 1;
    if order[n] != PageOf(row) {
      assert order == order[..n] + [order[n]];
      HeldBelow(p, order[..n], row);
    }
  }

  /** Every page reaches no further than this, and one of them reaches it. */
  ghost predicate Reaches(p: Store, order: seq<nat>, past: nat) {
    && (forall page :: page in order ==> page * SPAN + HeldOf(p, page) <= past)
    && (order != [] ==> exists page :: page in order && page * SPAN + HeldOf(p, page) == past)
    && (order == [] ==> past == 0)
  }

  lemma {:induction false} PastHeldReaches(p: Store, order: seq<nat>)
    ensures Reaches(p, order, PastHeld(p, order))
  {
    if order != [] {
      var rest, last := order[..|order| - 1], order[|order| - 1];
      assert order == rest + [last];
      PastHeldReaches(p, rest);
      if rest != [] {
        var page :| page in rest && page * SPAN + HeldOf(p, page) == PastHeld(p, rest);
        assert page in order;
      }
      assert last in order;
    }
  }

  /** A page noted as read is the last in the order of use, and nothing else moves. */
  lemma TouchKeeps(p: Store, page: nat)
    requires p.Valid() && page in p.held
    ensures p.Touch(page).Valid() && Tally(p.Touch(page)) == Tally(p)
  {
    WithoutKeeps(p.order, page);
    OverWithout(p.held, p.order, page);
    OverConcat(p.held, Without(p.order, page), [page]);
    assert UnknownsOver(p.held, [page]) == Unknowns(p.held[page].rows) + UnknownsOver(p.held, []);
  }

  /** A rewriting that gives nobody a verdict. */
  ghost predicate NeverLooks(f: Kept -> Kept) {
    forall k: Kept :: k.pic == Unknown ==> f(k).pic == Unknown
  }

  /** The pages rewritten so far. */
  ghost function Partly(p: Store, done: seq<nat>, f: Kept -> Kept): Store {
    p.(held := map page | page in p.held ::
         if page in done then p.held[page].(rows := Mapped(p.held[page].rows, f)) else p.held[page])
  }

  lemma PartlyStep(p: Store, i: nat, f: Kept -> Kept)
    requires p.Valid() && i < |p.order|
    ensures var before, page := Partly(p, p.order[..i], f), p.order[i];
            && before.Valid() && page in before.held && before.held[page] == p.held[page]
            && Partly(p, p.order[..i + 1], f)
               == before.(held := before.held[page := before.held[page].(rows := Mapped(p.held[page].rows, f))])
  {
    var page := p.order[i];
    assert page in p.order && page !in p.order[..i];
    assert p.order[..i + 1] == p.order[..i] + [page];
    PartlyValid(p, p.order[..i], f);
    PartlyMore(p, p.order[..i], page, f);
  }

  lemma PartlyValid(p: Store, done: seq<nat>, f: Kept -> Kept)
    requires p.Valid()
    ensures Partly(p, done, f).Valid()
  {
  }

  lemma PartlyMore(p: Store, done: seq<nat>, page: nat, f: Kept -> Kept)
    requires page in p.held && page !in done
    ensures var before := Partly(p, done, f);
            && page in before.held && before.held[page] == p.held[page]
            && Partly(p, done + [page], f)
               == before.(held := before.held[page := before.held[page].(rows := Mapped(p.held[page].rows, f))])
  {
  }

  lemma ChangedOverStep(p: Store, i: nat, f: Kept -> Kept)
    requires p.Valid() && i < |p.order|
    ensures p.order[i] in p.held
    ensures ChangedOver(p, p.order[..i + 1], f)
            == ChangedOver(p, p.order[..i], f)
               + ChangedIn(p.held[p.order[i]].rows, f, p.order[i] * SPAN, |p.held[p.order[i]].rows|)
  {
    assert p.order[i] in p.order;
    assert p.order[..i + 1][..i] == p.order[..i];
  }

  lemma PartlyAll(p: Store, f: Kept -> Kept)
    requires p.Valid()
    ensures p.order[..|p.order|] == p.order
    ensures Partly(p, p.order, f) == p.Each(f) && p.Each(f).Valid() && (p.Measured() ==> p.Each(f).Measured())
    ensures Partly(p, [], f) == p
  {
  }

  lemma ReplacedTallies(p: Store, page: nat, rows: seq<Kept>)
    requires p.Valid() && page in p.held
    ensures Tally(p.(held := p.held[page := p.held[page].(rows := rows)])) + Unknowns(p.held[page].rows)
            == Tally(p) + Unknowns(rows)
  {
    var q := p.(held := p.held[page := p.held[page].(rows := rows)]);
    OverWithout(p.held, p.order, page);
    OverWithout(q.held, q.order, page);
    WithoutKeeps(p.order, page);
    OverSame(p.held, q.held, Without(p.order, page));
  }

  lemma {:induction false} SamePicSameUnknowns(rows: seq<Kept>, f: Kept -> Kept)
    requires forall k: Kept :: f(k).pic == k.pic
    ensures Unknowns(Mapped(rows, f)) == Unknowns(rows)
  {
    if rows != [] {
      var n := |rows| - 1;
      SamePicSameUnknowns(rows[..n], f);
      assert Mapped(rows, f)[..n] == Mapped(rows[..n], f);
    }
  }

  lemma {:induction false} SamePicOver(p: Store, f: Kept -> Kept, order: seq<nat>)
    requires forall k: Kept :: f(k).pic == k.pic
    ensures UnknownsOver(p.Each(f).held, order) == UnknownsOver(p.held, order)
  {
    if order != [] {
      SamePicOver(p, f, order[1..]);
      if order[0] in p.held {
        SamePicSameUnknowns(p.held[order[0]].rows, f);
      }
    }
  }

  lemma SamePicSameTally(p: Store, f: Kept -> Kept)
    requires forall k: Kept :: f(k).pic == k.pic
    ensures Tally(p.Each(f)) == Tally(p)
  {
    SamePicOver(p, f, p.order);
  }

  lemma NothingMade(p: Store, none: set<string>)
    requires none == {}
    ensures p.Each(Remade(none)) == p
  {
    var f := Remade(none);
    forall page | page in p.held ensures Mapped(p.held[page].rows, f) == p.held[page].rows {
    }
    assert p.Each(f).held == p.held;
  }

  /** What has been done and the sweep from here on make up the whole sweep. */
  ghost predicate Remaining(shelf: Shelf, all: Swept, done: Swept, row: nat, upTo: nat, batch: nat) {
    done.looked <= batch && all == Then(done, Sweep(shelf, done.pages, row, upTo, batch - done.looked))
  }

  lemma RemainingStep(shelf: Shelf, all: Swept, done: Swept, row: nat, upTo: nat, batch: nat)
    requires Remaining(shelf, all, done, row, upTo, batch)
    requires row < upTo && done.looked < batch && Due(done.pages, row)
    ensures var first := LookAt(shelf, done.pages, row);
            Remaining(shelf, all,
                      Swept(first.pages, done.drawn + first.drawn, done.ask + first.ask, done.looked + 1),
                      row + 1, upTo, batch)
  {
    var first := LookAt(shelf, done.pages, row);
    ThenThen(done, first, Sweep(shelf, first.pages, row + 1, upTo, batch - done.looked - 1));
  }

  /** A row that is not due is passed over. */
  lemma RemainingRow(shelf: Shelf, all: Swept, done: Swept, row: nat, upTo: nat, batch: nat)
    requires Remaining(shelf, all, done, row, upTo, batch) && row < upTo && !Due(done.pages, row)
    ensures Remaining(shelf, all, done, row + 1, upTo, batch)
  {
  }

  /** So is the rest of a page nobody holds. */
  lemma RemainingPage(shelf: Shelf, all: Swept, done: Swept, row: nat, upTo: nat, batch: nat)
    requires Remaining(shelf, all, done, row, upTo, batch) && PageOf(row) !in done.pages.held
    ensures row < (PageOf(row) + 1) * SPAN
    ensures Remaining(shelf, all, done, (PageOf(row) + 1) * SPAN, upTo, batch)
  {
    var next := (PageOf(row) + 1) * SPAN;
    forall r | row <= r < next ensures done.pages.At(r).None? {
      assert PageOf(r) == PageOf(row);
    }
    SkippingIsSafe(shelf, done.pages, row, next, upTo, batch - done.looked);
  }

  lemma WithMeasures(p: Store, row: nat, k: Kept)
    requires p.Measured() && p.At(row).Some?
    ensures p.With(row, k).Measured()
  {
  }

  lemma ThenThen(a: Swept, b: Swept, c: Swept)
    ensures Then(a, Then(b, c)) == Then(Then(a, b), c)
  {
  }

  ghost predicate NewAt(had: seq<Kept>, rows: seq<Row>, k: nat) {
    k < |rows| && k < |had| && rows[k].path != "" && rows[k].path !in LastByPath(had)
  }

  lemma MergedGrows(had: seq<Kept>, rows: seq<Row>, bytes: seq<int>, i: nat)
    requires i < |rows|
    ensures MergedAll(had, rows[..i + 1], bytes)
            == MergedAll(had, rows[..i], bytes) + [Merged(had, i, rows[i], if i < |bytes| then bytes[i] else 0)]
  {
  }

  lemma UnknownsGrow(rows: seq<Kept>, k: Kept)
    ensures Unknowns(rows + [k]) == Unknowns(rows) + if k.pic == Unknown then 1 else 0
  {
    assert (rows + [k])[..|rows|] == rows;
  }

  lemma ArrivedGrows(had: seq<Kept>, rows: seq<Row>, i: nat)
    requires i < |rows|
    ensures Arrived(had, rows[..i + 1]) <==> Arrived(had, rows[..i]) || NewAt(had, rows, i)
  {
    ArrivedAt(had, rows, i);
    ArrivedAt(had, rows, i + 1);
  }

  lemma ArrivedAt(had: seq<Kept>, rows: seq<Row>, n: nat)
    requires n <= |rows|
    ensures Arrived(had, rows[..n]) <==> exists k: nat :: k < n && NewAt(had, rows, k)
  {
    if Arrived(had, rows[..n]) {
      var k :| 0 <= k < n && k < |had| && rows[..n][k].path != "" && rows[..n][k].path !in LastByPath(had);
      assert NewAt(had, rows, k);
    }
    if k: nat :| k < n && NewAt(had, rows, k) {
      assert rows[..n][k] == rows[k];
    }
  }
}
