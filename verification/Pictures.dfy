/** Rows and the verdicts on their pictures: how many have none, and the sweep that gives
    them one. */

module Pictures {
  import opened Options
  import opened Pages

  datatype Row = Row(path: string, token: string, isFresh: bool, picked: bool, thumb: Option<string>, shot: bool)

  const BLANK: Row := Row("", "", false, false, None, false)

  /** The verdict on a row: not looked at, no picture yet, never one, or drawn. */
  datatype Pic = Unknown | Missing | Nothing | Shown

  datatype Kept = Kept(row: Row, bytes: int, pic: Pic)

  type Store = Pages<Kept>

  /// Counting the rows nobody has looked at

  function Unknowns(rows: seq<Kept>): nat {
    if rows == [] then 0
    else Unknowns(rows[..|rows| - 1]) + if rows[|rows| - 1].pic == Unknown then 1 else 0
  }

  function UnknownsOver(held: map<nat, Held<Kept>>, order: seq<nat>): nat {
    if order == [] then 0
    else (if order[0] in held then Unknowns(held[order[0]].rows) else 0) + UnknownsOver(held, order[1..])
  }

  /** The number of rows held without a verdict. */
  function Tally(p: Store): nat {
    UnknownsOver(p.held, p.order)
  }

  lemma {:induction false} OverConcat(held: map<nat, Held<Kept>>, a: seq<nat>, b: seq<nat>)
    ensures UnknownsOver(held, a + b) == UnknownsOver(held, a) + UnknownsOver(held, b)
    decreases |a|
  {
    if a == [] {
      assert a + b == b;
    } else {
      assert (a + b)[1..] == a[1..] + b;
      OverConcat(held, a[1..], b);
    }
  }

  lemma {:induction false} OverSame(held: map<nat, Held<Kept>>, other: map<nat, Held<Kept>>, order: seq<nat>)
    requires forall page :: page in order ==>
               (page in held <==> page in other) && (page in held ==> held[page] == other[page])
    ensures UnknownsOver(held, order) == UnknownsOver(other, order)
  {
    if order != [] {
      assert forall page :: page in order[1..] ==> page in order;
      OverSame(held, other, order[1..]);
    }
  }

  lemma {:induction false} OverWithout(held: map<nat, Held<Kept>>, order: seq<nat>, page: nat)
    requires page in held && page in order
    ensures UnknownsOver(held, order) == UnknownsOver(held, Without(order, page)) + Unknowns(held[page].rows)
  {
    if order[0] != page {
      OverWithout(held, order[1..], page);
      var rest := Without(order[1..], page);
      assert ([order[0]] + rest)[1..] == rest;
    }
  }

  lemma {:induction false} AbsentAddsNothing(held: map<nat, Held<Kept>>, order: seq<nat>, page: nat)
    requires page !in order
    ensures Without(order, page) == order
  {
    if order != [] {
      AbsentAddsNothing(held, order[1..], page);
      assert order == [order[0]] + order[1..];
    }
  }

  lemma {:induction false} EvictTallies(p: Store)
    requires p.Valid()
    ensures Tally(p.Evict()) <= Tally(p)
    decreases |p.order|
  {
    if |p.order| <= KEPT {
    } else if p.IsAsked(p.order[0]) {
      OverConcat(p.held, [p.order[0]], p.order[1..]);
      OverConcat(p.held, p.order[1..], [p.order[0]]);
      assert p.order == [p.order[0]] + p.order[1..];
    } else {
      var q := p.(order := p.order[1..], held := p.held - {p.order[0]});
      assert p.order == [p.order[0]] + q.order;
      assert q.Valid();
      OverSame(p.held, q.held, q.order);
      EvictTallies(q);
    }
  }

  /** A page filed adds at most its own unlooked rows: replacing and letting go can
      only lower the tally. */
  lemma PutTallies(p: Store, page: nat, rows: seq<Kept>, total: nat)
    requires p.Valid()
    ensures Tally(p.Put(page, rows, total).0) <= Tally(p) + Unknowns(rows)
  {
    var filed := p.Filed(page, rows);
    var rest := Without(p.order, page);
    WithoutKeeps(p.order, page);
    OverConcat(filed.held, rest, [page]);
    OverSame(p.held, filed.held, rest);
    assert UnknownsOver(filed.held, [page]) == Unknowns(rows) + UnknownsOver(filed.held, []);
    if page in p.order {
      OverWithout(p.held, p.order, page);
    } else {
      AbsentAddsNothing(p.held, p.order, page);
    }
    assert filed.order[|filed.order| - 1] == page;
    assert filed.Valid();
    EvictTallies(filed);
  }

  lemma {:induction false} UnknownsUpdated(rows: seq<Kept>, i: nat, k: Kept)
    requires i < |rows|
    ensures Unknowns(rows[i := k]) + (if rows[i].pic == Unknown then 1 else 0)
            == Unknowns(rows) + (if k.pic == Unknown then 1 else 0)
  {
    var last := |rows| - 1;
    if i < last {
      UnknownsUpdated(rows[..last], i, k);
      assert rows[i := k][..last] == rows[..last][i := k];
    } else {
      assert rows[i := k][..last] == rows[..last];
    }
  }

  lemma WithTallies(p: Store, row: nat, k: Kept)
    requires p.Valid() && p.At(row).Some?
    ensures p.With(row, k).Valid()
    ensures Tally(p.With(row, k)) + (if p.At(row).value.pic == Unknown then 1 else 0)
            == Tally(p) + (if k.pic == Unknown then 1 else 0)
  {
    var page := PageOf(row);
    var q := p.With(row, k);
    UnknownsUpdated(p.held[page].rows, row - page * SPAN, k);
    OverWithout(p.held, p.order, page);
    OverWithout(q.held, q.order, page);
    WithoutKeeps(p.order, page);
    OverSame(p.held, q.held, Without(p.order, page));
  }

  lemma {:induction false} UnknownCounts(rows: seq<Kept>, i: nat)
    requires i < |rows| && rows[i].pic == Unknown
    ensures Unknowns(rows) > 0
  {
    if i < |rows| - 1 {
      UnknownCounts(rows[..|rows| - 1], i);
    }
  }

  /** Nothing left to look at is nothing unlooked in hand. */
  lemma ZeroIsNone(p: Store, row: nat)
    requires p.Valid() && p.At(row).Some? && p.At(row).value.pic == Unknown
    ensures Tally(p) > 0
  {
    var page := PageOf(row);
    UnknownCounts(p.held[page].rows, row - page * SPAN);
    OverWithout(p.held, p.order, page);
  }

  /// The picture sweep

  /** What the desktop says of a file's thumbnail: other crates' work, and the disk's. */
  datatype Shelf = Shelf(
    neverFor: string -> bool,
    existing: string -> Option<string>,
    decode: string -> Option<string>,
    may: (string, string) -> bool)

  function Looked(shelf: Shelf, k: Kept): (r: Kept)
    ensures r.pic != Unknown && r.row.path == k.row.path && r.bytes == k.bytes
    ensures var picture := shelf.existing(k.row.path);
            var drawable := !shelf.neverFor(k.row.token) && picture.Some?;
            && (r.pic == Shown <==> drawable && shelf.decode(picture.value).Some?)
            && (r.pic == Missing <==> !drawable && shelf.may(k.row.path, k.row.token))
            && r.row == if r.pic == Shown then k.row.(thumb := shelf.decode(picture.value), shot := true) else k.row
  {
    var found := if shelf.neverFor(k.row.token) then None else shelf.existing(k.row.path);
    match found
    case Some(picture) =>
      (match shelf.decode(picture)
       case Some(image) => k.(row := k.row.(thumb := Some(image), shot := true), pic := Shown)
       case None => k.(pic := Pic.Nothing))
    case None => k.(pic := if shelf.may(k.row.path, k.row.token) then Missing else Pic.Nothing)
  }

  predicate Due(p: Store, row: nat) {
    p.At(row).Some? && p.At(row).value.pic == Unknown && p.At(row).value.row.path != ""
  }

  /** What a sweep comes to: the rows in hand after it, the rows drawn, the files
      worth asking for, and how many were looked at. */
  datatype Swept = Swept(pages: Store, drawn: seq<nat>, ask: seq<string>, looked: nat)

  function Then(first: Swept, rest: Swept): Swept {
    Swept(rest.pages, first.drawn + rest.drawn, first.ask + rest.ask, first.looked + rest.looked)
  }

  /** One row of a sweep. */
  function LookAt(shelf: Shelf, p: Store, row: nat): Swept
    requires Due(p, row)
  {
    var k := Looked(shelf, p.At(row).value);
    Swept(p.With(row, k),
          if k.pic == Shown then [row] else [],
          if k.pic == Missing then [k.row.path] else [], 1)
  }

  /** Every row from `row` to `upTo`, one by one, until `batch` have been looked at. */
  function Sweep(shelf: Shelf, p: Store, row: nat, upTo: nat, batch: nat): Swept
    decreases upTo - row
  {
    if row >= upTo || batch == 0 then Swept(p, [], [], 0)
    else if Due(p, row) then
      var first := LookAt(shelf, p, row);
      Then(first, Sweep(shelf, first.pages, row + 1, upTo, batch - 1))
    else Sweep(shelf, p, row + 1, upTo, batch)
  }

  /** Skipping a page nobody holds changes nothing. */
  lemma {:induction false} SkippingIsSafe(shelf: Shelf, p: Store, row: nat, next: nat, upTo: nat, batch: nat)
    requires row <= next && (forall r :: row <= r < next ==> p.At(r).None?)
    ensures Sweep(shelf, p, row, upTo, batch) == Sweep(shelf, p, next, upTo, batch)
    decreases next - row
  {
    if row < next && row < upTo && batch > 0 {
      SkippingIsSafe(shelf, p, row + 1, next, upTo, batch);
    }
  }

  /** With nothing unlooked in hand, a sweep does nothing. */
  lemma {:induction false} NothingToSweep(shelf: Shelf, p: Store, row: nat, upTo: nat, batch: nat)
    requires p.Valid() && Tally(p) == 0
    ensures Sweep(shelf, p, row, upTo, batch) == Swept(p, [], [], 0)
    decreases upTo - row
  {
    if row < upTo && batch > 0 {
      if Due(p, row) {
        ZeroIsNone(p, row);
      }
      NothingToSweep(shelf, p, row + 1, upTo, batch);
    }
  }

  lemma WithElsewhere(p: Store, row: nat, k: Kept, r: nat)
    requires p.At(row).Some?
    ensures p.With(row, k).At(r) == if r == row then Some(k) else p.At(r)
  {
  }

  lemma LookDoes(shelf: Shelf, p: Store, row: nat)
    requires p.Valid() && Due(p, row)
    ensures var q := LookAt(shelf, p, row).pages;
            && q.Valid() && Tally(q) + 1 == Tally(p)
            && forall r: nat :: q.At(r) == if r == row then Some(Looked(shelf, p.At(row).value)) else p.At(r)
  {
    WithTallies(p, row, Looked(shelf, p.At(row).value));
    forall r: nat
      ensures LookAt(shelf, p, row).pages.At(r) == if r == row then Some(Looked(shelf, p.At(row).value)) else p.At(r)
    {
      WithElsewhere(p, row, Looked(shelf, p.At(row).value), r);
    }
  }

  lemma {:induction false} SweepCounts(shelf: Shelf, p: Store, row: nat, upTo: nat, batch: nat)
    requires p.Valid()
    ensures var s := Sweep(shelf, p, row, upTo, batch);
            s.pages.Valid() && s.looked <= batch && Tally(s.pages) + s.looked == Tally(p)
    decreases upTo - row
  {
    if row < upTo && batch > 0 && Due(p, row) {
      LookDoes(shelf, p, row);
      SweepCounts(shelf, LookAt(shelf, p, row).pages, row + 1, upTo, batch - 1);
    } else if row < upTo && batch > 0 {
      SweepCounts(shelf, p, row + 1, upTo, batch);
    }
  }

  /** A row of a sweep is as it was, or was due in its range and is looked at. */
  lemma {:induction false} SweepTouches(shelf: Shelf, p: Store, row: nat, upTo: nat, batch: nat, r: nat)
    requires p.Valid()
    ensures var at := Sweep(shelf, p, row, upTo, batch).pages.At(r);
            at == p.At(r) || (row <= r < upTo && Due(p, r) && at == Some(Looked(shelf, p.At(r).value)))
    decreases upTo - row
  {
    if row < upTo && batch > 0 && Due(p, row) {
      var k := Looked(shelf, p.At(row).value);
      WithTallies(p, row, k);
      WithElsewhere(p, row, k, r);
      SweepTouches(shelf, p.With(row, k), row + 1, upTo, batch - 1, r);
    } else if row < upTo && batch > 0 {
      SweepTouches(shelf, p, row + 1, upTo, batch, r);
    }
  }

  lemma {:induction false} SweepFinishes(shelf: Shelf, p: Store, row: nat, upTo: nat, batch: nat, r: nat)
    requires p.Valid() && row <= r < upTo && Sweep(shelf, p, row, upTo, batch).looked < batch
    ensures !Due(Sweep(shelf, p, row, upTo, batch).pages, r)
    decreases upTo - row
  {
    if Due(p, row) {
      var k := Looked(shelf, p.At(row).value);
      WithTallies(p, row, k);
      if r == row {
        WithElsewhere(p, row, k, row);
        SweepTouches(shelf, p.With(row, k), row + 1, upTo, batch - 1, row);
      } else {
        SweepFinishes(shelf, p.With(row, k), row + 1, upTo, batch - 1, r);
      }
    } else if r == row {
      SweepTouches(shelf, p, row + 1, upTo, batch, row);
    } else {
      SweepFinishes(shelf, p, row + 1, upTo, batch, r);
    }
  }

  /** A sweep looks at each due row of its range, nearest first, until its batch is
      spent. The tally falls by exactly what was looked at; nothing outside the range,
      and nothing not due, is touched; what is looked at gets the desktop's verdict; and
      when the batch is not spent, nothing due is left in the range. */
  lemma SweepDoes(shelf: Shelf, p: Store, row: nat, upTo: nat, batch: nat)
    requires p.Valid()
    ensures var s := Sweep(shelf, p, row, upTo, batch);
            && s.pages.Valid() && s.looked <= batch
            && Tally(s.pages) + s.looked == Tally(p)
            && (forall r: nat :: s.pages.At(r) == p.At(r)
                            || (row <= r < upTo && Due(p, r)
                                && s.pages.At(r) == Some(Looked(shelf, p.At(r).value))))
            && (s.looked < batch ==> forall r :: row <= r < upTo ==> !Due(s.pages, r))
  {
    SweepCounts(shelf, p, row, upTo, batch);
    var s := Sweep(shelf, p, row, upTo, batch);
    forall r: nat
      ensures s.pages.At(r) == p.At(r)
              || (row <= r < upTo && Due(p, r) && s.pages.At(r) == Some(Looked(shelf, p.At(r).value)))
    {
      SweepTouches(shelf, p, row, upTo, batch, r);
    }
    if s.looked < batch {
      forall r | row <= r < upTo ensures !Due(s.pages, r) {
        SweepFinishes(shelf, p, row, upTo, batch, r);
      }
    }
  }

  /** A row whose verdict has become `pic`. */
  predicate Became(p: Store, q: Store, r: nat, pic: Pic) {
    p.At(r).Some? && q.At(r).Some? && q.At(r) != p.At(r) && q.At(r).value.pic == pic
  }

  /** After one look and the rest of the sweep, the row looked at has its verdict from
      the look, and every other row has what the rest of the sweep gave it. */
  lemma LookThenSweep(shelf: Shelf, p: Store, row: nat, upTo: nat, batch: nat, pic: Pic)
    requires p.Valid() && row < upTo && batch > 0 && Due(p, row)
    ensures var first, s := LookAt(shelf, p, row), Sweep(shelf, p, row, upTo, batch);
            && first.pages.Valid()
            && (Became(p, s.pages, row, pic) <==> Looked(shelf, p.At(row).value).pic == pic)
            && s.pages.At(row) == Some(Looked(shelf, p.At(row).value))
            && !Became(first.pages, s.pages, row, pic)
            && forall r: nat :: r != row ==> (Became(p, s.pages, r, pic) <==> Became(first.pages, s.pages, r, pic))
  {
    var k := Looked(shelf, p.At(row).value);
    var first := LookAt(shelf, p, row);
    WithTallies(p, row, k);
    SweepDoes(shelf, first.pages, row + 1, upTo, batch - 1);
    forall r: nat ensures first.pages.At(r) == if r == row then Some(k) else p.At(r) {
      WithElsewhere(p, row, k, r);
    }
  }

  /** Strictly rising, and none below `row`. */
  ghost predicate RisingFrom(rows: seq<nat>, row: nat) {
    && (forall i, j :: 0 <= i < j < |rows| ==> rows[i] < rows[j])
    && (forall i :: 0 <= i < |rows| ==> row <= rows[i])
  }

  /** What the sweep from `p` to `s` reports is what it did. */
  ghost predicate Reports(p: Store, s: Swept, row: nat) {
    && (forall r: nat :: r in s.drawn <==> Became(p, s.pages, r, Shown))
    && RisingFrom(s.drawn, row)
    && (forall f: string :: f in s.ask <==> AskedFor(p, s.pages, f))
  }

  ghost predicate AskedFor(p: Store, q: Store, f: string) {
    exists r: nat :: Became(p, q, r, Missing) && q.At(r).value.row.path == f
  }

  /** A sweep tells of exactly the rows that came to be drawn, once each and in order,
      and asks for exactly the files whose picture could be made. */
  lemma {:induction false} SweepReports(shelf: Shelf, p: Store, row: nat, upTo: nat, batch: nat)
    requires p.Valid()
    ensures Reports(p, Sweep(shelf, p, row, upTo, batch), row)
    decreases upTo - row
  {
    var s := Sweep(shelf, p, row, upTo, batch);
    if row >= upTo || batch == 0 {
      assert s == Swept(p, [], [], 0);
    } else if Due(p, row) {
      var first := LookAt(shelf, p, row);
      var rest := Sweep(shelf, first.pages, row + 1, upTo, batch - 1);
      LookThenSweep(shelf, p, row, upTo, batch, Shown);
      LookThenSweep(shelf, p, row, upTo, batch, Missing);
      SweepReports(shelf, first.pages, row + 1, upTo, batch - 1);
      assert s == Then(first, rest);
      ReportsThen(p, first, rest, row);
    } else {
      SweepReports(shelf, p, row + 1, upTo, batch);
      assert s == Sweep(shelf, p, row + 1, upTo, batch);
    }
  }

  lemma ReportsThen(p: Store, first: Swept, rest: Swept, row: nat)
    requires Reports(first.pages, rest, row + 1)
    requires first.drawn == if Became(p, rest.pages, row, Shown) then [row] else []
    requires first.ask == if Became(p, rest.pages, row, Missing) then [rest.pages.At(row).value.row.path] else []
    requires !Became(first.pages, rest.pages, row, Shown) && !Became(first.pages, rest.pages, row, Missing)
    requires forall r: nat :: r != row ==> (Became(p, rest.pages, r, Shown) <==> Became(first.pages, rest.pages, r, Shown))
    requires forall r: nat :: r != row ==> (Became(p, rest.pages, r, Missing) <==> Became(first.pages, rest.pages, r, Missing))
    ensures Reports(p, Then(first, rest), row)
  {
  }
}
