/** The store of pages behind both lists: which pages of a result are held, in which
    order they were used, and which one is worth fetching. */

module Pages {
  import opened Naturals
  import opened Options

  const SPAN: nat := 200
  const KEPT: nat := 32

  datatype Held<+T> = Held(rows: seq<T>, revision: nat, settled: bool)

  /** The difference a call makes: rows replaced, or a new length with the rows it brought. */
  datatype Change =
    | Nothing
    | Rows(from: nat, to: nat)
    | Length(was: nat, now: nat, rows: Option<(nat, nat)>)

  function PageOf(row: nat): nat {
    row / SPAN
  }

  datatype Pages<+T> = Pages(
    held: map<nat, Held<T>>, order: seq<nat>, total: nat,
    asked: Option<(nat, nat)>, revision: nat, served: nat)
  {
    /** The order of use lists exactly the pages held, each once. */
    ghost predicate Valid() {
      && (forall page :: page in held <==> page in order)
      && (forall i, j :: 0 <= i < j < |order| ==> order[i] != order[j])
    }

    /** No page in hand is longer than the longest ever served. */
    ghost predicate Measured() {
      forall page :: page in held ==> |held[page].rows| <= served
    }

    function Served(): nat {
      if served == 0 then 1 else served
    }

    predicate Holds(page: nat) {
      page in held && held[page].rows != []
    }

    function At(row: nat): Option<T> {
      var page := PageOf(row);
      if page in held && row - page * SPAN < |held[page].rows|
      then Some(held[page].rows[row - page * SPAN])
      else None
    }

    /** No page is held or asked for; the length and the longest page stay. */
    function Empty(): Pages<T> {
      this.(held := map[], order := [], asked := None)
    }

    function Mark(now: nat): Pages<T> {
      this.(revision := now)
    }

    function Asking(page: nat): Pages<T> {
      this.(asked := Some((page, revision)))
    }

    predicate IsAsked(page: nat) {
      asked.Some? && asked.value.0 == page
    }

    function Touch(page: nat): Pages<T> {
      this.(order := Without(order, page) + [page])
    }

    /** Drop pages from the front of the order while there are too many; the page asked for,
        met at the front, moves to the back and ends it. */
    function Evict(): Pages<T>
      decreases |order|
    {
      if |order| <= KEPT then this
      else if IsAsked(order[0]) then this.(order := order[1..] + [order[0]])
      else this.(order := order[1..], held := held - {order[0]}).Evict()
    }

    /** Of some pages, those in front of the page asked for. */
    function BeforeAsked(pages: seq<nat>): seq<nat> {
      if pages == [] || IsAsked(pages[0]) then [] else [pages[0]] + BeforeAsked(pages[1..])
    }

    /** The pages that filing this one costs: the least recently used others, as many as
        are too many, up to the page asked for. */
    function LetGo(page: nat): seq<nat> {
      var others := Without(order, page);
      BeforeAsked(others[..Less(|others| + 1, KEPT)])
    }

    /** The page filed and noted as read, before anything is let go. */
    function Filed(page: nat, rows: seq<T>): Pages<T> {
      var stamp := if IsAsked(page) then asked.value.1 else revision;
      var settled := page in held && |held[page].rows| >= |rows|;
      this.(served := if served < |rows| then |rows| else served,
            held := held[page := Held(rows, stamp, settled)],
            asked := if IsAsked(page) then None else asked).Touch(page)
    }

    function Kept(page: nat, rows: seq<T>): Pages<T> {
      Filed(page, rows).Evict()
    }

    /** The store with a page filed and a length set, and the difference that makes. */
    function Put(page: nat, rows: seq<T>, now: nat): (Pages<T>, Change) {
      (Kept(page, rows).(total := now),
       if now != total
       then Length(total, now, Some((page * SPAN, page * SPAN + |rows|)))
       else Rows(page * SPAN, page * SPAN + |rows|))
    }

    function SetTotal(now: nat): (Pages<T>, Change) {
      if now == total then (this, Nothing)
      else (this.(total := now), Length(total, now, None))
    }

    /** A page in sight is missing, empty, too short for what is seen, or out of date. */
    predicate Wants(page: nat, last: nat, refresh: bool) {
      var seen := Least(Least(last, page * SPAN + SPAN - 1), total - 1);
      page !in held
      || held[page].rows == []
      || (!held[page].settled && seen >= page * SPAN + |held[page].rows|)
      || (refresh && held[page].revision != revision)
    }

    function FirstWanted(page: nat, upTo: nat, last: nat, refresh: bool): Option<nat>
      decreases upTo + 1 - page
    {
      if page > upTo then None
      else if Wants(page, last, refresh) then Some(page)
      else FirstWanted(page + 1, upTo, last, refresh)
    }

    /** The page worth fetching: the first wanted in sight, else a neighbour not held. */
    function NextPage(first: nat, last: nat, speculate: bool, refresh: bool): Option<nat> {
      if total == 0 || asked.Some? then None
      else
        var end := (total - 1) / SPAN;
        var from := PageOf(Least(first, total - 1));
        var to := PageOf(Least(last, total - 1));
        var seen := FirstWanted(from, to, last, refresh);
        if seen.Some? then seen
        else if !speculate then None
        else if to < end && !Holds(to + 1) then Some(to + 1)
        else if from > 0 && !Holds(from - 1) then Some(from - 1)
        else None
    }

    /** A page short by both measures ends the list; any other leaves its length. */
    function LengthAfter(page: nat, arrived: nat, askedFor: nat): nat {
      if arrived < askedFor && arrived < Served() then page * SPAN + arrived else total
    }

    /** Every row held, rewritten in place. */
    function Each(f: T -> T): Pages<T> {
      this.(held := map page | page in held :: held[page].(rows := Mapped(held[page].rows, f)))
    }

    /** One row rewritten in place. */
    function With(row: nat, t: T): Pages<T>
      requires At(row).Some?
    {
      var page := PageOf(row);
      this.(held := held[page := held[page].(rows := held[page].rows[row - page * SPAN := t])])
    }
  }

  function Least(a: int, b: int): int {
    if a < b then a else b
  }

  function Without(order: seq<nat>, page: nat): seq<nat> {
    if order == [] then []
    else if order[0] == page then order[1..]
    else [order[0]] + Without(order[1..], page)
  }

  function Mapped<T>(rows: seq<T>, f: T -> T): seq<T> {
    seq(|rows|, i requires 0 <= i < |rows| => f(rows[i]))
  }

  /// The store's own invariant

  ghost predicate Distinct(order: seq<nat>) {
    forall i, j :: 0 <= i < j < |order| ==> order[i] != order[j]
  }

  lemma {:induction false} WithoutKeeps(order: seq<nat>, page: nat)
    requires Distinct(order)
    ensures Distinct(Without(order, page))
    ensures forall p :: p in Without(order, page) <==> p in order && p != page
  {
    if order != [] && order[0] != page {
      WithoutKeeps(order[1..], page);
      assert order == [order[0]] + order[1..];
      assert order[0] !in order[1..];
      assert order[0] !in Without(order[1..], page);
    } else if order != [] {
      assert order == [order[0]] + order[1..];
    }
  }

  lemma {:induction false} EvictKeeps<T>(p: Pages<T>)
    requires p.Valid()
    ensures var e := p.Evict();
            && e.Valid() && e == p.(held := e.held, order := e.order)
            && (forall page :: page in e.held ==> page in p.held && e.held[page] == p.held[page])
            && (p.order != [] ==> p.order[|p.order| - 1] in e.held)
    decreases |p.order|
  {
    if |p.order| <= KEPT {
    } else if p.IsAsked(p.order[0]) {
      assert p.order == [p.order[0]] + p.order[1..];
    } else {
      var q := p.(order := p.order[1..], held := p.held - {p.order[0]});
      assert p.order == [p.order[0]] + q.order;
      assert q.order[|q.order| - 1] == p.order[|p.order| - 1];
      EvictKeeps(q);
    }
  }

  /** Filing a page keeps the store in order; the page is in hand with exactly the
      rows given, every other page in hand was, unchanged, and the room made by
      letting go never costs the page just filed. */
  lemma PutKeeps<T>(p: Pages<T>, page: nat, rows: seq<T>, now: nat)
    requires p.Valid()
    ensures var q := p.Put(page, rows, now).0;
            && q.Valid() && q.total == now
            && page in q.held && q.held[page].rows == rows
            && (forall other :: other in q.held && other != page ==>
                  other in p.held && q.held[other] == p.held[other])
  {
    WithoutKeeps(p.order, page);
    var filed := p.Filed(page, rows);
    assert filed.order[|filed.order| - 1] == page;
    assert filed.Valid();
    EvictKeeps(filed);
  }

  lemma {:induction false} BeforeAskedAre<T>(p: Pages<T>, q: Pages<T>, pages: seq<nat>)
    requires forall page :: page in pages ==> (p.IsAsked(page) <==> q.IsAsked(page))
    ensures p.BeforeAsked(pages) == q.BeforeAsked(pages)
    ensures forall page :: page in p.BeforeAsked(pages) ==> page in pages
    decreases |pages|
  {
    if pages != [] {
      assert pages == [pages[0]] + pages[1..];
      BeforeAskedAre(p, q, pages[1..]);
    }
  }

  lemma {:induction false} EvictLetsGo<T>(p: Pages<T>)
    requires p.Valid()
    ensures var gone := p.BeforeAsked(p.order[..Less(|p.order|, KEPT)]);
            forall page :: page in p.Evict().held <==> page in p.held && page !in gone
    decreases |p.order|
  {
    if |p.order| > KEPT && !p.IsAsked(p.order[0]) {
      var q := p.(order := p.order[1..], held := p.held - {p.order[0]});
      FirstOut(p, q);
      EvictLetsGo(q);
      FirstLetGo(p, q, |p.order| - KEPT);
    }
  }

  lemma FirstOut<T>(p: Pages<T>, q: Pages<T>)
    requires p.Valid() && p.order != [] && q == p.(order := p.order[1..], held := p.held - {p.order[0]})
    ensures q.Valid() && |q.order| == |p.order| - 1
    ensures forall page :: page in q.held <==> page in p.held && page != p.order[0]
  {
    assert p.order == [p.order[0]] + q.order;
  }

  lemma FirstLetGo<T>(p: Pages<T>, q: Pages<T>, n: nat)
    requires 0 < n <= |p.order| && q.order == p.order[1..] && q.asked == p.asked && !p.IsAsked(p.order[0])
    ensures p.BeforeAsked(p.order[..n]) == [p.order[0]] + q.BeforeAsked(q.order[..n - 1])
  {
    assert p.order[..n][1..] == q.order[..n - 1];
    BeforeAskedAre(p, q, q.order[..n - 1]);
  }

  /** Exactly the pages let go are out of hand, and the page filed is never one of them. */
  lemma PutLetsGo<T>(p: Pages<T>, page: nat, rows: seq<T>, now: nat)
    requires p.Valid()
    ensures var q := p.Put(page, rows, now).0;
            && page !in p.LetGo(page)
            && (forall other :: other in q.held <==> other == page || (other in p.held && other !in p.LetGo(page)))
  {
    FiledIsLast(p, page, rows);
    var filed := p.Filed(page, rows);
    var others := Without(p.order, page);
    var n := Less(|others| + 1, KEPT);
    assert filed.order[..n] == others[..n];
    EvictLetsGo(filed);
    BeforeAskedAre(p, filed, others[..n]);
  }

  lemma FiledIsLast<T>(p: Pages<T>, page: nat, rows: seq<T>)
    requires p.Valid()
    ensures var filed, others := p.Filed(page, rows), Without(p.order, page);
            && filed.Valid() && filed.order == others + [page] && page !in others
            && (forall other :: other in filed.held <==> other == page || other in p.held)
            && (forall other :: other in others ==> (p.IsAsked(other) <==> filed.IsAsked(other)))
  {
    WithoutKeeps(p.order, page);
  }

  lemma PutMeasures<T>(p: Pages<T>, page: nat, rows: seq<T>, now: nat)
    requires p.Valid() && p.Measured()
    ensures p.Put(page, rows, now).0.Measured()
  {
    PutKeeps(p, page, rows, now);
    WithoutKeeps(p.order, page);
    EvictKeeps(p.Filed(page, rows));
  }

  /** The search over a range of pages gives a wanted one of them, or none is wanted. */
  lemma {:induction false} FirstWantedIsInSight<T>(p: Pages<T>, page: nat, upTo: nat, last: nat, refresh: bool)
    ensures var wanted := p.FirstWanted(page, upTo, last, refresh);
            if wanted.Some? then page <= wanted.value <= upTo && p.Wants(wanted.value, last, refresh)
            else forall q :: page <= q <= upTo ==> !p.Wants(q, last, refresh)
    decreases upTo + 1 - page
  {
    if page <= upTo && !p.Wants(page, last, refresh) {
      FirstWantedIsInSight(p, page + 1, upTo, last, refresh);
    }
  }

  /** A page in sight that is missing, or short of what the eye reaches, is asked for
      before any page out of sight. */
  lemma SightComesFirst<T>(p: Pages<T>, first: nat, last: nat, speculate: bool, refresh: bool, row: nat)
    requires first <= row <= last && row < p.total
    requires p.asked.None?
    requires p.At(row).None? && (PageOf(row) in p.held ==> !p.held[PageOf(row)].settled)
    ensures var next := p.NextPage(first, last, speculate, refresh);
            next.Some? && PageOf(first) <= next.value <= PageOf(row) && p.Wants(next.value, last, refresh)
  {
    var from := PageOf(Least(first, p.total - 1));
    var to := PageOf(Least(last, p.total - 1));
    FirstWantedIsInSight(p, from, to, last, refresh);
    assert p.Wants(PageOf(row), last, refresh);
    FirstWantedIsFirst(p, from, to, last, refresh, PageOf(row));
  }

  lemma {:induction false} FirstWantedIsFirst<T>(p: Pages<T>, page: nat, upTo: nat, last: nat, refresh: bool, q: nat)
    requires page <= q <= upTo && p.Wants(q, last, refresh)
    ensures var wanted := p.FirstWanted(page, upTo, last, refresh); wanted.Some? && wanted.value <= q
    decreases upTo + 1 - page
  {
    if !p.Wants(page, last, refresh) {
      FirstWantedIsFirst(p, page + 1, upTo, last, refresh, q);
    }
  }

  /** With nothing wanted in sight, only a neighbour nobody holds is asked for: the page
      after what is seen, if the result has one, and else the page before. */
  lemma GuessIsBeside<T>(p: Pages<T>, first: nat, last: nat, speculate: bool, refresh: bool)
    requires p.total > 0 && p.asked.None?
    requires var from, to := PageOf(Least(first, p.total - 1)), PageOf(Least(last, p.total - 1));
             forall page: nat :: from <= page <= to ==> !p.Wants(page, last, refresh)
    ensures var from, to, end := PageOf(Least(first, p.total - 1)), PageOf(Least(last, p.total - 1)), (p.total - 1) / SPAN;
            var ahead, behind := to < end && !p.Holds(to + 1), from > 0 && !p.Holds(from - 1);
            match p.NextPage(first, last, speculate, refresh)
            case Some(page) => speculate && if ahead then page == to + 1 else behind && page == from - 1
            case None => speculate ==> !ahead && !behind
  {
    var from, to := PageOf(Least(first, p.total - 1)), PageOf(Least(last, p.total - 1));
    FirstWantedIsInSight(p, from, to, last, refresh);
  }

  /** A page asked for and filed is wanted again exactly when it brought nothing, or fewer
      rows than are seen of it and more than were held of it. */
  lemma FetchedIsWantedAgain<T>(p: Pages<T>, page: nat, rows: seq<T>, now: nat, last: nat, refresh: bool)
    requires p.Valid()
    ensures var seen := Least(Least(last, page * SPAN + SPAN - 1), now - 1);
            p.Asking(page).Put(page, rows, now).0.Wants(page, last, refresh)
            <==> rows == []
                 || (seen >= page * SPAN + |rows| && (page in p.held ==> |p.held[page].rows| < |rows|))
  {
    var a := p.Asking(page);
    FiledIsLast(a, page, rows);
    EvictKeeps(a.Filed(page, rows));
  }

  /** A page filed after the index moved under its request is out of date when it lands. */
  lemma MovedInFlightIsWanted<T>(p: Pages<T>, page: nat, rows: seq<T>, moved: nat, now: nat, last: nat)
    requires p.Valid() && moved != p.revision
    ensures p.Asking(page).Mark(moved).Put(page, rows, now).0.Wants(page, last, true)
  {
    var a := p.Asking(page).Mark(moved);
    FiledIsLast(a, page, rows);
    EvictKeeps(a.Filed(page, rows));
  }

  /** So a page that keeps coming back the same is not asked for a third time. */
  lemma AskedTwiceAtMost<T>(p: Pages<T>, page: nat, rows: seq<T>, again: seq<T>, now: nat, last: nat, refresh: bool)
    requires p.Valid() && again != [] && |again| <= |rows|
    ensures !p.Asking(page).Put(page, rows, now).0.Asking(page).Put(page, again, now).0.Wants(page, last, refresh)
  {
    PutKeeps(p.Asking(page), page, rows, now);
    FetchedIsWantedAgain(p.Asking(page).Put(page, rows, now).0, page, again, now, last, refresh);
  }
}
