/** Where the terminal's list looks, and how it follows a file whose row moves. */

module Viewport {
  import opened Naturals
  import opened Options
  import opened Pages

  datatype Hit = Hit(path: string, bytes: int)

  type Store = Pages<Hit>

  function Apart(a: int, b: int): nat {
    if a < b then b - a else a - b
  }

  function PathAt(p: Store, row: nat): Option<string> {
    match p.At(row)
    case Some(hit) => Some(hit.path)
    case None => None
  }

  /// Keeping the cursor on screen

  /** The first row drawn, once the view has moved the least it can. */
  function SettledTop(cursor: nat, top: nat, room: nat, total: nat): nat {
    var t := if cursor < top then cursor
             else if cursor >= top + room then Less(cursor + 1, room)
             else top;
    Smaller(t, Less(total, room))
  }

  /** A view that draws the cursor and does not run past the end. */
  predicate Shows(top: nat, cursor: nat, room: nat, total: nat) {
    top <= cursor < top + room && top <= Less(total, room)
  }

  /** With the cursor inside the result, settling gives the view that draws it, does
      not run past the end, and is nearest to the one before. */
  lemma SettledIsNearest(cursor: nat, top: nat, room: nat, total: nat, other: nat)
    requires room >= 1 && cursor < total
    ensures Shows(SettledTop(cursor, top, room, total), cursor, room, total)
    ensures Shows(other, cursor, room, total) ==>
              Apart(SettledTop(cursor, top, room, total), top) <= Apart(other, top)
  {
  }

  /** A cursor left past the end of the result is drawn only in the empty rows of a
      result shorter than the screen. */
  lemma SettledPastTheEnd(cursor: nat, top: nat, room: nat, total: nat)
    requires room >= 1
    ensures Shows(SettledTop(cursor, top, room, total), cursor, room, total)
            <==> cursor < if total < room then room else total
  {
  }

  /// Dragging the scrollbar

  function DraggedTop(at: nat, high: nat, last: nat): nat
    requires high > 0
  {
    Smaller(at * last / high, last)
  }

  function Clamped(cursor: nat, lo: nat, hi: nat): nat {
    if cursor < lo then lo else if cursor > hi then hi else cursor
  }

  /** The thumb reaches both ends of the track, and never goes back as the pointer goes
      on. */
  lemma DraggedTopFollows(at: nat, more: nat, high: nat, last: nat)
    requires high > 0 && at <= more
    ensures DraggedTop(0, high, last) == 0
    ensures DraggedTop(high, high, last) == last
    ensures DraggedTop(at, high, last) <= DraggedTop(more, high, last) <= last
  {
    assert 0 * last == 0;
    Whole(high, last);
    assert more * last == at * last + (more - at) * last;
    Rises(at * last, more * last, high);
  }

  /** The view begins as far down the result as the pointer is down the track, to the row. */
  lemma DraggedTopIs(at: nat, high: nat, last: nat)
    requires high > 0
    ensures var top := DraggedTop(at, high, last);
            if at >= high then top == last else top * high <= at * last < (top + 1) * high
  {
    Quotient(at * last, high);
    Whole(high, last);
    if at < high {
      NoFurther(at, high, last);
      Rises(at * last, high * last, high);
    } else {
      NoFurther(high, at, last);
      Rises(high * last, at * last, high);
    }
  }

  lemma Quotient(n: nat, high: nat)
    requires high > 0
    ensures n / high * high <= n < (n / high + 1) * high
  {
    assert n == n / high * high + n % high;
  }

  lemma NoFurther(a: nat, b: nat, last: nat)
    requires a <= b
    ensures a * last <= b * last
  {
    assert b * last == a * last + (b - a) * last;
  }

  lemma Whole(high: nat, last: nat)
    requires high > 0
    ensures high * last / high == last
  {
    var q, r := high * last / high, high * last % high;
    assert high * last == q * high + r;
    if q < last {
      assert last * high == q * high + (last - q) * high;
      AtLeastOnce(last - q, high);
    } else if q > last {
      assert q * high == last * high + (q - last) * high;
      AtLeastOnce(q - last, high);
    }
  }

  lemma Rises(a: nat, b: nat, high: nat)
    requires high > 0 && a <= b
    ensures a / high <= b / high
  {
    var q, p := a / high, b / high;
    assert a == q * high + a % high && b == p * high + b % high;
    if q > p {
      assert q * high == p * high + (q - p) * high;
      AtLeastOnce(q - p, high);
    }
  }

  lemma AtLeastOnce(a: nat, n: nat)
    requires a >= 1
    ensures a * n >= n
  {
    assert a * n == (a - 1) * n + n;
  }

  /// Following a file

  /** The least row of a page, from its `i`th on, with this file in it. */
  function FoundOn(p: Store, page: nat, i: nat, want: string): Option<nat>
    decreases SPAN - i
  {
    if i >= SPAN then None
    else if PathAt(p, page * SPAN + i) == Some(want) then Some(page * SPAN + i)
    else FoundOn(p, page, i + 1, want)
  }

  /** The first row that holds the file, page by page. */
  function Found(p: Store, order: seq<nat>, want: string): Option<nat> {
    if order == [] then None
    else
      var here := FoundOn(p, order[0], 0, want);
      if here.Some? then here else Found(p, order[1..], want)
  }

  lemma {:induction false} FoundOnIs(p: Store, page: nat, i: nat, want: string)
    ensures var f := FoundOn(p, page, i, want);
            && (f.Some? ==> PathAt(p, f.value) == Some(want))
            && (f.None? ==> forall row: nat :: page * SPAN + i <= row < page * SPAN + SPAN ==>
                              PathAt(p, row) != Some(want))
    decreases SPAN - i
  {
    if i < SPAN && PathAt(p, page * SPAN + i) != Some(want) {
      FoundOnIs(p, page, i + 1, want);
    }
  }

  lemma {:induction false} FoundIs(p: Store, order: seq<nat>, want: string)
    ensures var f := Found(p, order, want);
            && (f.Some? ==> PathAt(p, f.value) == Some(want))
            && (f.None? ==> forall row: nat :: PageOf(row) in order ==> PathAt(p, row) != Some(want))
  {
    if order != [] {
      FoundOnIs(p, order[0], 0, want);
      FoundIs(p, order[1..], want);
      if Found(p, order, want).None? {
        forall row: nat | PageOf(row) in order ensures PathAt(p, row) != Some(want) {
          if PageOf(row) == order[0] {
            assert row == order[0] * SPAN + row % SPAN;
          } else {
            assert order == [order[0]] + order[1..];
          }
        }
      }
    }
  }

  /** No row of these pages, nor of this one before this row, holds the file. */
  ghost predicate NoneBefore(p: Store, order: seq<nat>, k: int, row: nat, want: string)
    requires 0 <= k < |order|
  {
    && order[k] * SPAN <= row < order[k] * SPAN + SPAN
    && (forall i: nat :: order[k] * SPAN <= i < row ==> PathAt(p, i) != Some(want))
    && (forall j, i: nat :: 0 <= j < k && order[j] * SPAN <= i < order[j] * SPAN + SPAN ==> PathAt(p, i) != Some(want))
  }

  lemma {:induction false} FoundOnIsFirst(p: Store, page: nat, i: nat, want: string)
    ensures var f := FoundOn(p, page, i, want);
            f.Some? ==> page * SPAN + i <= f.value < page * SPAN + SPAN
                        && forall row: nat :: page * SPAN + i <= row < f.value ==> PathAt(p, row) != Some(want)
    decreases SPAN - i
  {
    if i < SPAN && PathAt(p, page * SPAN + i) != Some(want) {
      FoundOnIsFirst(p, page, i + 1, want);
    }
  }

  /** What is found is on the first page, in the order of use, that has the file at all,
      and is its first row there. */
  lemma {:induction false} FoundIsFirst(p: Store, order: seq<nat>, want: string)
    requires Found(p, order, want).Some?
    ensures exists k :: 0 <= k < |order| && NoneBefore(p, order, k, Found(p, order, want).value, want)
  {
    var here := FoundOn(p, order[0], 0, want);
    FoundOnIsFirst(p, order[0], 0, want);
    FoundOnIs(p, order[0], 0, want);
    if here.Some? {
      assert NoneBefore(p, order, 0, here.value, want);
    } else {
      FoundIsFirst(p, order[1..], want);
      var row := Found(p, order, want).value;
      var k :| 0 <= k < |order| - 1 && NoneBefore(p, order[1..], k, row, want);
      assert forall j :: 0 < j < |order| ==> order[j] == order[1..][j - 1];
      assert NoneBefore(p, order, k + 1, row, want);
    }
  }

  /** The search over the pages in hand finds the file exactly when some row has it. */
  lemma FoundIffHeld(p: Store, want: string)
    requires p.Valid()
    ensures Found(p, p.order, want).Some? <==> exists row: nat :: PathAt(p, row) == Some(want)
    ensures Found(p, p.order, want).Some? ==> PathAt(p, Found(p, p.order, want).value) == Some(want)
  {
    FoundIs(p, p.order, want);
    if row: nat :| PathAt(p, row) == Some(want) {
      assert PageOf(row) in p.order;
    }
  }

  /** Where the cursor is, what it is on, and the first row drawn. */
  datatype Eye = Eye(cursor: nat, on: Option<string>, top: nat)

  /** Following the file the cursor was put on, over the pages in hand. */
  function Refollowed(p: Store, anchored: bool, eye: Eye, room: nat): Eye {
    if !anchored then eye
    else if eye.on.None? then eye.(on := PathAt(p, eye.cursor))
    else if PathAt(p, eye.cursor) == eye.on then eye
    else
      match Found(p, p.order, eye.on.value)
      case None => eye
      case Some(row) => Eye(row, PathAt(p, row), SettledTop(row, eye.top, room, p.total))
  }

  /** A cursor nobody put anywhere stays; one that was put on a file in hand is on that
      file, which stays remembered; and one whose file is nowhere in hand stays. */
  lemma RefollowedFinds(p: Store, anchored: bool, eye: Eye, room: nat)
    requires p.Valid()
    ensures var after := Refollowed(p, anchored, eye, room);
            && (!anchored ==> after == eye)
            && (anchored && eye.on.Some? && (exists row: nat :: PathAt(p, row) == eye.on) ==>
                  PathAt(p, after.cursor) == eye.on && after.on == eye.on)
            && (anchored && eye.on.Some? && (forall row: nat :: PathAt(p, row) != eye.on) ==> after == eye)
            && (anchored && PathAt(p, eye.cursor) == eye.on ==> after == eye)
            && (anchored && eye.on.None? ==>
                  after == eye.(on := PathAt(p, eye.cursor)))
  {
    if eye.on.Some? {
      FoundIffHeld(p, eye.on.value);
    }
  }

  /** A file found on another row is on screen after it is followed exactly when that row
      is inside the result the answer announced, or the result is shorter than the
      screen. */
  lemma RefollowedOnScreen(p: Store, eye: Eye, room: nat)
    requires p.Valid() && room >= 1 && eye.on.Some?
    requires PathAt(p, eye.cursor) != eye.on && Found(p, p.order, eye.on.value).Some?
    ensures var after, row := Refollowed(p, true, eye, room), Found(p, p.order, eye.on.value).value;
            Shows(after.top, after.cursor, room, p.total) <==> row < if p.total < room then room else p.total
  {
    SettledPastTheEnd(Found(p, p.order, eye.on.value).value, eye.top, room, p.total);
  }

  /** Two pages in hand, the second still with the file the cursor is on as well as the
      first; the first comes back short and without it. The result ends with the short
      page, and the cursor goes past its end. */
  lemma FollowedOffScreen(first: seq<Hit>, beside: seq<Hit>, short: seq<Hit>, counted: nat, room: nat)
    requires |first| == |beside| == SPAN && beside[0].path == first[0].path
    requires |short| < SPAN && counted <= |short| && 1 <= room <= SPAN
    requires forall i :: 0 <= i < |short| ==> short[i].path != first[0].path
    ensures var p := Pages(map[0 := Held(first, 0, false), 1 := Held(beside, 0, false)], [1, 0], 2 * SPAN, None, 0, SPAN);
            var length := p.LengthAfter(0, |short|, SPAN);
            var q := p.Put(0, short, Larger(counted, length)).0;
            var after := Refollowed(q, true, Eye(0, Some(first[0].path), 0), room);
            && q.total == |short| && after.cursor >= SPAN
            && PathAt(q, after.cursor) == Some(first[0].path)
            && !Shows(after.top, after.cursor, room, q.total)
  {
    var p := Pages(map[0 := Held(first, 0, false), 1 := Held(beside, 0, false)], [1, 0], 2 * SPAN, None, 0, SPAN);
    var q := p.Put(0, short, |short|).0;
    var f := first[0].path;
    assert Without([1, 0], 0) == [1] + Without([0], 0);
    assert q.held == map[0 := Held(short, 0, true), 1 := Held(beside, 0, false)] && q.order == [1, 0];
    assert q.At(SPAN) == Some(beside[0]);
    FoundIffHeld(q, f);
    assert PathAt(q, SPAN) == Some(f);
    forall r: nat | r < SPAN ensures PathAt(q, r) != Some(f) {
    }
    RefollowedOnScreen(q, Eye(0, Some(f), 0), room);
  }

  /** The store once what the eye is missing has been asked for. */
  function Followed(p: Store, top: nat, room: nat): Store {
    var next := p.NextPage(top, Less(top + room, 1), true, false);
    if next.Some? then p.Asking(next.value) else p
  }

  /** The store once an answer is filed. */
  function FiledAs(p: Store, offset: nat, limit: nat, hits: seq<Hit>, counted: nat): Store {
    var page := PageOf(offset);
    p.Put(page, hits, Larger(counted, p.LengthAfter(page, |hits|, limit))).0
  }

  /** What filing an answer comes to: the page has exactly its rows, and the result is as
      long as announced, or up to the end of a page that came back short by both measures,
      or as long as it was, whichever is more. */
  ghost predicate FiledHere(p: Store, q: Store, offset: nat, limit: nat, hits: seq<Hit>, counted: nat) {
    var page, most := offset / 200, if p.served == 0 then 1 else p.served;
    var length := if |hits| < limit && |hits| < most then page * 200 + |hits| else p.total;
    && page in q.held && q.held[page].rows == hits
    && counted <= q.total && length <= q.total && (q.total == counted || q.total == length)
    && (forall other :: other in q.held && other != page ==> other in p.held && q.held[other] == p.held[other])
  }

  lemma FiledIsHere(p: Store, offset: nat, limit: nat, hits: seq<Hit>, counted: nat)
    requires p.Valid()
    ensures FiledHere(p, FiledAs(p, offset, limit, hits, counted), offset, limit, hits, counted)
  {
    PutKeeps(p, PageOf(offset), hits, Larger(counted, p.LengthAfter(PageOf(offset), |hits|, limit)));
  }

  /// Dragging, and then a page

  /** Where a drag leaves the eye: what the cursor was on stays remembered. */
  function Dragged(eye: Eye, at: nat, high: nat, room: nat, total: nat): Eye
    requires high > 0 && room > 0
  {
    var t := DraggedTop(at, high, Less(total, room));
    Eye(Clamped(eye.cursor, t, t + room - 1), eye.on, t)
  }

  /** Settling moves nothing exactly when the view does not run past the end and the
      cursor is in it, or below it with no further to go. */
  lemma SettledWhereItIs(cursor: nat, top: nat, room: nat, total: nat)
    requires room >= 1
    ensures SettledTop(cursor, top, room, total) == top
            <==> top <= Less(total, room) && top <= cursor && (cursor < top + room || top == Less(total, room))
  {
  }

  /** Following leaves this view alone: nobody put the cursor anywhere, or it was on
      nothing, or its row holds the file it was on, or that file is nowhere in hand, or is
      found in the view, or below it with no further to go. */
  predicate LeftAlone(q: Store, anchored: bool, eye: Eye, room: nat) {
    || !anchored || eye.on.None? || PathAt(q, eye.cursor) == eye.on
    || var found, last := Found(q, q.order, eye.on.value), Less(q.total, room);
       found.None? || (eye.top <= last && eye.top <= found.value
                       && (found.value < eye.top + room || eye.top == last))
  }

  /** A page that lands after a drag keeps the dragged view exactly when following would
      leave it alone: a drag away from a file still in hand does not last. */
  lemma DragHolds(q: Store, anchored: bool, eye: Eye, at: nat, high: nat, room: nat, total: nat)
    requires q.Valid() && high > 0 && room > 0
    ensures var dragged := Dragged(eye, at, high, room, total);
            Refollowed(q, anchored, dragged, room).top == dragged.top <==> LeftAlone(q, anchored, dragged, room)
    ensures eye.on.Some? ==> (Found(q, q.order, eye.on.value).None? <==> forall r: nat :: PathAt(q, r) != eye.on)
  {
    var dragged := Dragged(eye, at, high, room, total);
    if eye.on.Some? {
      FoundIffHeld(q, eye.on.value);
      SettledWhereItIs(Found(q, q.order, eye.on.value).GetOr(0), dragged.top, room, q.total);
    }
  }

  /** Twenty files, five rows, the cursor on the first, the bar dragged to the eleventh:
      the cursor comes along under the wrong name, and the same page landing again puts
      both cursor and view at the start. */
  lemma DragIsUndone(hits: seq<Hit>)
    requires |hits| == 20 && hits[10].path != hits[0].path
    ensures var p := Pages(map[0 := Held(hits, 0, true)], [0], 20, None, 0, 20);
            var start, q := Eye(0, Some(hits[0].path), 0), p.Put(0, hits, 20).0;
            var dragged := Dragged(start, 10, 15, 5, p.total);
            && PathAt(p, start.cursor) == start.on && dragged == Eye(10, start.on, 10)
            && PathAt(p, dragged.cursor) != dragged.on
            && Refollowed(q, true, dragged, 5) == start
  {
    var p := Pages(map[0 := Held(hits, 0, true)], [0], 20, None, 0, 20);
    var q := p.Put(0, hits, 20).0;
    assert Without([0], 0) == [];
    assert q.order == [0] && q.held == map[0 := Held(hits, 0, true)];
    assert q.At(0) == Some(hits[0]) && q.At(10) == Some(hits[10]);
    assert Found(q, [0], hits[0].path) == FoundOn(q, 0, 0, hits[0].path) == Some(0);
  }
}
