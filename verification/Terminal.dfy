/** The terminal's state: a query edited by byte offset, and a list walked, dragged and
    followed. */

module Terminal {
  import opened Naturals
  import opened Options
  import opened Pages
  import opened Utf8
  import opened Viewport

  datatype Mode = Search | Move

  datatype Want = Nothing | Page(generation: nat, offset: nat, limit: nat)

  function Cleaned(text: string): (s: string)
    ensures |s| == |text|
    ensures forall i :: 0 <= i < |text| ==>
              s[i] == if text[i] == '\n' || text[i] == '\r' || text[i] == '\t' then ' ' else text[i]
  {
    seq(|text|, i requires 0 <= i < |text| =>
      if text[i] == '\n' || text[i] == '\r' || text[i] == '\t' then ' ' else text[i])
  }

  /** What is asked of the service for a view of `room` rows from `top`: the whole page
      it is missing, if one is. */
  function Missing(p: Store, top: nat, room: nat, generation: nat): Want {
    match p.NextPage(top, Less(top + room, 1), true, false)
    case Some(page) => Page(generation, page * SPAN, SPAN)
    case None => Want.Nothing
  }

  /** The bytes left when the character before the caret is taken out. */
  lemma RubOut(before: string, after: string)
    requires before != ""
    ensures var n := |before| - 1;
            var all, at := Encode(before + after), |Encode(before[..n])|;
            && at < |all| && at + Width(all[at]) <= |all|
            && all[..at] + all[at + Width(all[at])..] == Encode(before[..n] + after)
  {
    var n := |before| - 1;
    LastBegins(before);
    assert before == before[..n] + [before[n]];
    EncodeSnoc(before[..n], before[n]);
    EncodeConcat(before, after);
    EncodeConcat(before[..n], after);
    Excised(Encode(before[..n]), Encoded(before[n]), Encode(after));
  }

  class App {
    var query: seq<byte>
    /** In bytes. */
    var caret: nat
    var mode: Mode
    var generation: nat
    var pages: Store
    var cursor: nat
    var anchored: bool
    var cursorAt: Option<string>
    var top: nat
    var room: nat
    var anchor: nat
    var picked: map<string, int>

    /** The characters either side of the caret: what the bytes stand for. */
    ghost var before: string
    ghost var after: string

    ghost predicate Valid()
      reads this
    {
      && query == Encode(before + after) && caret == |Encode(before)|
      && pages.Valid() && room >= 1
    }

    constructor ()
      ensures Valid() && before == "" && after == "" && mode == Search && room == 1
      ensures pages == Pages(map[], [], 0, None, 0, 0) && cursor == 0 && top == 0 && !anchored
    {
      query, caret, mode, generation := [], 0, Search, 0;
      pages := Pages(map[], [], 0, None, 0, 0);
      cursor, anchored, cursorAt, top, room, anchor, picked := 0, false, None, 0, 1, 0, map[];
      before, after := "", "";
    }

    function View(): Eye
      reads this
    {
      Eye(cursor, cursorAt, top)
    }

    /** The cursor's file is what it is remembered as. */
    predicate Named()
      reads this
    {
      cursorAt == PathAt(pages, cursor)
    }

    /** The caret's bytes are between characters. */
    lemma CaretIsBoundary()
      requires Valid()
      ensures caret <= |query| && IsBoundary(query, caret)
      ensures query[..caret] == Encode(before) && query[caret..] == Encode(after)
    {
      EncodeConcat(before, after);
      var s := before + after;
      assert s[..|before|] == before;
      BoundariesAreCharacters(s, caret);
    }

    /// Asking

    method Ask(offset: nat, limit: nat) returns (want: Want)
      modifies this`pages
      ensures pages == old(pages).Asking(PageOf(offset))
      ensures want == Page(generation, offset, limit)
    {
      pages := pages.Asking(PageOf(offset));
      want := Page(generation, offset, limit);
    }

    /** The page the view wants next is asked for and noted as asked, if there is one. */
    method Follow() returns (want: Want)
      modifies this`pages
      ensures pages == Followed(old(pages), top, room) && want == Missing(old(pages), top, room, generation)
    {
      var next := pages.NextPage(top, Less(top + room, 1), true, false);
      want := Want.Nothing;
      if next.Some? {
        want := Ask(next.value * SPAN, SPAN);
      }
    }

    /** A new generation, no page, no length, no picks and the cursor at the top. */
    method Typed() returns (want: Want)
      modifies this`generation, this`pages, this`cursor, this`top, this`anchor, this`anchored, this`cursorAt, this`picked
      ensures StartedOver()
      ensures want == Page(generation, 0, SPAN)
    {
      generation := generation + 1;
      pages := pages.Empty();
      pages := pages.SetTotal(0).0;
      cursor := 0;
      top := 0;
      anchor := 0;
      anchored := false;
      cursorAt := None;
      picked := map[];
      want := Ask(0, SPAN);
    }

    /** The same query in another order: the rows go, the file the cursor is on does not. */
    method Reask() returns (want: Want)
      requires Valid()
      modifies this`generation, this`pages, this`cursor, this`top
      ensures Valid() && generation == old(generation) + 1
      ensures pages == old(pages).Empty().Asking(0) && View() == Eye(0, old(cursorAt), 0)
      ensures want == Page(generation, 0, SPAN)
    {
      generation := generation + 1;
      pages := pages.Empty();
      cursor := 0;
      top := 0;
      want := Ask(0, SPAN);
    }

    /** A new question: nothing in hand, nothing picked, the cursor at the top and
        belonging to nobody. */
    twostate predicate StartedOver()
      reads this
    {
      && generation == old(generation) + 1
      && pages == old(pages).Empty().(total := 0).Asking(0)
      && pages.held == map[] && pages.order == [] && pages.total == 0 && pages.asked == Some((0, pages.revision))
      && View() == Eye(0, None, 0) && !anchored && anchor == 0 && picked == map[]
    }

    /** Everything but the text and the caret is as it was. */
    twostate predicate OnlyTheCaretMoved()
      reads this
    {
      && generation == old(generation) && pages == old(pages) && View() == old(View())
      && anchored == old(anchored) && room == old(room) && mode == old(mode) && picked == old(picked)
      && query == old(query) && anchor == old(anchor)
    }

    /// Editing

    method Insert(c: char) returns (want: Want)
      requires Valid()
      modifies this
      ensures Valid() && before == old(before) + [c] && after == old(after)
      ensures StartedOver() && mode == old(mode) && room == old(room) && want == Page(generation, 0, SPAN)
    {
      CaretIsBoundary();
      query := query[..caret] + Encoded(c) + query[caret..];
      caret := caret + |Encoded(c)|;
      before := before + [c];
      EncodeSnoc(old(before), c);
      EncodeConcat(before, after);
      want := Typed();
    }

    /** Where the character before the caret begins. */
    method CharBefore() returns (at: nat)
      requires Valid()
      ensures before == "" ==> at == 0
      ensures before != "" ==> at == |Encode(before[..|before| - 1])|
    {
      at := caret;
      CaretIsBoundary();
      if caret == 0 {
        return;
      }
      NoBytesNoText(before);
      LastBegins(before);
      ghost var base := |Encode(before[..|before| - 1])|;
      assert forall i :: 0 <= i < caret ==> query[i] == Encode(before)[i];
      at := at - 1;
      while !Lead(query[at])
        invariant base <= at < caret
        decreases at
      {
        at := at - 1;
      }
    }

    method Backspace() returns (want: Want)
      requires Valid()
      modifies this
      ensures Valid() && after == old(after) && mode == old(mode) && room == old(room)
      ensures if old(before) == "" then before == "" && OnlyTheCaretMoved() && want == Want.Nothing
              else before == old(before)[..|old(before)| - 1] && StartedOver() && want == Page(generation, 0, SPAN)
    {
      if caret == 0 {
        NoBytesNoText(before);
        return Want.Nothing;
      }
      NoBytesNoText(before);
      RemoveBefore();
      want := Typed();
    }

    method RemoveBefore()
      requires Valid() && before != ""
      modifies this`query, this`caret, this`before
      ensures Valid() && before == old(before)[..|old(before)| - 1]
    {
      var at := CharBefore();
      RubOut(before, after);
      query := query[..at] + query[at + Width(query[at])..];
      caret := at;
      before := before[..|before| - 1];
    }

    method Left()
      requires Valid()
      modifies this`caret, this`before, this`after
      ensures Valid() && OnlyTheCaretMoved()
      ensures if old(before) == "" then before == "" && after == old(after)
              else var n := |old(before)| - 1;
                   before == old(before)[..n] && after == [old(before)[n]] + old(after)
    {
      CaretIsBoundary();
      caret := CharBefore();
      if before != "" {
        var n := |before| - 1;
        LastMoves(before, after);
        before, after := before[..n], [before[n]] + after;
      } else {
        assert caret == 0;
      }
    }

    method Right()
      requires Valid()
      modifies this`caret, this`before, this`after
      ensures Valid() && OnlyTheCaretMoved()
      ensures if old(after) == "" then after == "" && before == old(before)
              else before == old(before) + [old(after)[0]] && after == old(after)[1..]
    {
      CaretIsBoundary();
      if caret < |query| {
        assert after != "";
        assert query[caret] == query[caret..][0] == Encoded(after[0])[0];
        caret := caret + Width(query[caret]);
        EncodeSnoc(before, after[0]);
        assert before + after == (before + [after[0]]) + after[1..];
        before, after := before + [after[0]], after[1..];
      }
    }

    /** A query that is not empty is emptied and the mode stays; otherwise only the mode turns. */
    method Escape() returns (want: Want)
      requires Valid()
      modifies this
      ensures Valid() && room == old(room)
      ensures old(mode) == Move ==>
                mode == Search && before == old(before) && after == old(after) && want == Want.Nothing
                && generation == old(generation) && pages == old(pages) && View() == old(View())
      ensures old(mode) == Search && old(before + after) == "" ==>
                mode == Move && before == "" && after == "" && want == Want.Nothing
                && generation == old(generation) && pages == old(pages) && View() == old(View())
      ensures old(mode) == Search && old(before + after) != "" ==>
                mode == Search && before == "" && after == "" && StartedOver() && want == Page(generation, 0, SPAN)
    {
      want := Want.Nothing;
      if mode == Move {
        mode := Search;
        return;
      }
      NoBytesNoText(before + after);
      if query == [] {
        mode := Move;
      } else {
        want := Emptied();
      }
    }

    method Emptied() returns (want: Want)
      requires Valid()
      modifies this
      ensures Valid() && room == old(room) && mode == old(mode) && before == "" && after == ""
      ensures StartedOver() && want == Page(generation, 0, SPAN)
    {
      query := [];
      caret := 0;
      before, after := "", "";
      assert before + after == "" && Encode("") == [];
      want := Typed();
    }

    /** All of the text, with line breaks and tabs made spaces, comes before the caret. */
    method Pasted(text: string) returns (want: Want)
      requires Valid()
      modifies this
      ensures Valid() && mode == Search && room == old(room)
      ensures before == old(before) + Cleaned(text) && after == old(after)
      ensures generation == old(generation) + |text|
      ensures text == "" ==> want == Want.Nothing && pages == old(pages) && View() == old(View())
      ensures text != "" ==> want == Page(generation, 0, SPAN) && View() == Eye(0, None, 0) && pages.total == 0
                             && pages.held == map[] && !anchored && picked == map[]
    {
      var clean := Cleaned(text);
      want := Want.Nothing;
      for i := 0 to |clean|
        invariant Valid() && room == old(room)
        invariant before == old(before) + clean[..i] && after == old(after) && generation == old(generation) + i
        invariant i == 0 ==> want == Want.Nothing && pages == old(pages) && View() == old(View())
        invariant i > 0 ==> want == Page(generation, 0, SPAN) && View() == Eye(0, None, 0) && pages.total == 0
                            && pages.held == map[] && !anchored && picked == map[]
      {
        want := Insert(clean[i]);
        assert old(before) + clean[..i] + [clean[i]] == old(before) + clean[..i + 1];
      }
      assert clean[..|clean|] == clean;
      mode := Search;
    }

    /** A character put in and rubbed out again leaves the query and the caret exactly
        as they were, byte for byte. */
    method InsertThenBackspace(c: char)
      requires Valid()
      modifies this
      ensures Valid() && query == old(query) && caret == old(caret)
      ensures before == old(before) && after == old(after) && generation == old(generation) + 2
    {
      var typed := Insert(c);
      var rubbed := Backspace();
      assert (old(before) + [c])[..|old(before)|] == old(before);
    }

    /** Left and then right is no move at all, unless the caret was at the start. */
    method LeftThenRight()
      requires Valid() && before != ""
      modifies this`caret, this`before, this`after
      ensures Valid() && query == old(query) && caret == old(caret)
    {
      Left();
      Right();
      assert before == old(before);
    }

    /// Looking

    /** The top is the settled one; an anchored cursor remembers the file of its row. */
    method Settle()
      modifies this`top, this`cursorAt
      ensures top == SettledTop(cursor, old(top), room, pages.total)
      ensures cursorAt == if anchored then PathAt(pages, cursor) else old(cursorAt)
    {
      if anchored {
        cursorAt := PathAt(pages, cursor);
      }
      if cursor < top {
        top := cursor;
      } else if cursor >= top + room {
        top := Less(cursor + 1, room);
      }
      var most := Less(pages.total, room);
      top := Smaller(top, most);
    }

    /** After a move on a list that is not empty: the cursor is in the result and on
        screen, the view does not run past the end and moved the least it could, and
        the cursor's file is remembered. */
    twostate predicate Moved()
      reads this
    {
      && anchored && cursor < pages.total
      && Shows(top, cursor, room, pages.total)
      && (forall other: nat :: Shows(other, cursor, room, pages.total) ==>
            Apart(top, old(top)) <= Apart(other, old(top)))
      && Named()
    }

    twostate lemma SettledMoved()
      requires room >= 1 && cursor < pages.total && anchored && Named()
      requires top == SettledTop(cursor, old(top), room, pages.total)
      ensures Moved()
    {
      forall other: nat
        ensures Shows(top, cursor, room, pages.total)
        ensures Shows(other, cursor, room, pages.total) ==> Apart(top, old(top)) <= Apart(other, old(top))
      {
        SettledIsNearest(cursor, old(top), room, pages.total, other);
      }
    }

    method Walk(step: int) returns (want: Want)
      requires Valid()
      modifies this`anchored, this`cursor, this`top, this`cursorAt, this`pages
      ensures Valid() && anchored && pages == old(pages).(asked := pages.asked)
      ensures old(pages).total == 0 ==> want == Want.Nothing && View() == old(View()) && pages == old(pages)
      ensures old(pages).total > 0 ==>
                && Moved() && want == Missing(old(pages), top, room, generation)
                && cursor == if old(cursor) + step < 0 then 0
                             else if old(cursor) + step < old(pages).total then old(cursor) + step
                             else old(pages).total - 1
    {
      anchored := true;
      var total := pages.total;
      if total == 0 {
        return Want.Nothing;
      }
      cursor := Smaller(if cursor + step < 0 then 0 else cursor + step, total - 1);
      Settle();
      want := Follow();
      SettledMoved();
    }

    /** The cursor goes to the row asked for, or the last one, and the view settles. */
    method Go(row: nat) returns (want: Want)
      requires Valid()
      modifies this`anchored, this`cursor, this`top, this`cursorAt, this`pages
      ensures Valid() && anchored && pages == old(pages).(asked := pages.asked)
      ensures old(pages).total == 0 ==> want == Want.Nothing && View() == old(View()) && pages == old(pages)
      ensures old(pages).total > 0 ==>
                && Moved() && want == Missing(old(pages), top, room, generation)
                && cursor == if row < old(pages).total then row else old(pages).total - 1
    {
      anchored := true;
      var total := pages.total;
      if total == 0 {
        return Want.Nothing;
      }
      cursor := Smaller(row, total - 1);
      Settle();
      want := Follow();
      SettledMoved();
    }

    /** The view goes where the bar was dragged, and the cursor moves the least that keeps
        it there. The remembered file does not move: it is still the cursor's exactly when
        the row reached held it before. */
    method DragBar(at: nat, high: nat) returns (want: Want)
      requires Valid()
      modifies this`top, this`cursor, this`pages
      ensures Valid() && pages == old(pages).(asked := pages.asked) && cursorAt == old(cursorAt)
      ensures Less(old(pages).total, room) == 0 || high == 0 ==>
                want == Want.Nothing && View() == old(View()) && pages == old(pages)
      ensures Less(old(pages).total, room) > 0 && high > 0 ==>
                var row := Dragged(old(View()), at, high, room, old(pages).total).cursor;
                && View() == Dragged(old(View()), at, high, room, old(pages).total)
                && pages == Followed(old(pages), top, room) && want == Missing(old(pages), top, room, generation)
                && cursor < pages.total && Shows(top, cursor, room, pages.total)
                && (forall other: nat :: top <= other < top + room ==>
                      Apart(cursor, old(cursor)) <= Apart(other, old(cursor)))
                && (Named() <==> old(PathAt(pages, row)) == old(cursorAt))
    {
      var total := pages.total;
      var last := Less(total, room);
      if last == 0 || high == 0 {
        return Want.Nothing;
      }
      top := at * last / high;
      top := Smaller(top, last);
      cursor := Clamped(cursor, top, top + room - 1);
      want := Follow();
      AskingKeepsPaths(pages, old(pages));
    }

    /** A drag, and then a page of the same question: the view stays where it was dragged
        exactly when following leaves it alone. */
    method DragThenLanded(at: nat, high: nat, offset: nat, limit: nat, hits: seq<Hit>, counted: nat) returns (want: Want)
      requires Valid() && Less(pages.total, room) > 0 && high > 0
      modifies this`cursor, this`top, this`cursorAt, this`pages
      ensures Valid()
      ensures var dragged := Dragged(old(View()), at, high, room, old(pages).total);
              var q := FiledAs(Followed(old(pages), dragged.top, room), offset, limit, hits, counted);
              && View() == Refollowed(q, anchored, dragged, room)
              && (top == dragged.top <==> LeftAlone(q, anchored, dragged, room))
    {
      want := DragBar(at, high);
      ghost var q := FiledAs(pages, offset, limit, hits, counted);
      PutKeeps(pages, PageOf(offset), hits, q.total);
      want := Landed(generation, offset, limit, hits, counted);
      DragHolds(q, anchored, old(View()), at, high, room, old(pages.total));
    }

    /** The terminal changed size. */
    method Resized(now: nat) returns (want: Want)
      requires Valid()
      modifies this`room, this`top, this`cursorAt, this`pages
      ensures Valid() && pages == old(pages).(asked := pages.asked)
      ensures now == old(room) ==> want == Want.Nothing && View() == old(View()) && room == now
      ensures now != old(room) ==>
                && want == Missing(old(pages), top, room, generation)
                && room == (if now == 0 then 1 else now)
                && (Shows(top, cursor, room, pages.total) <==>
                      cursor < if pages.total < room then room else pages.total)
                && (anchored ==> Named())
    {
      if now == room {
        return Want.Nothing;
      }
      room := if now == 0 then 1 else now;
      Settle();
      SettledPastTheEnd(cursor, old(top), room, pages.total);
      want := Follow();
    }

    /// Following a file

    /** The eye becomes what `Refollowed` says, over the pages in hand. */
    method Refollow()
      requires Valid()
      modifies this`cursor, this`top, this`cursorAt
      ensures View() == Refollowed(pages, anchored, old(View()), room)
    {
      if !anchored {
        return;
      }
      if cursorAt.None? {
        cursorAt := PathAt(pages, cursor);
        return;
      }
      if PathAt(pages, cursor) == cursorAt {
        return;
      }
      var row := Find(cursorAt.value);
      if row.Some? {
        cursor := row.value;
        Settle();
      }
    }

    /** The first row in hand that holds a file, page by page. */
    method Find(want: string) returns (row: Option<nat>)
      ensures row == Found(pages, pages.order, want)
    {
      var order := pages.order;
      for p := 0 to |order|
        invariant Found(pages, order, want) == Found(pages, order[p..], want)
      {
        for i := 0 to SPAN
          invariant FoundOn(pages, order[p], 0, want) == FoundOn(pages, order[p], i, want)
        {
          if PathAt(pages, order[p] * SPAN + i) == Some(want) {
            assert order[p..][0] == order[p];
            return Some(order[p] * SPAN + i);
          }
        }
        assert order[p..][1..] == order[p + 1..];
      }
      row := None;
    }

    /** An answer of this generation is filed and the file followed; any other is dropped. */
    method Landed(of: nat, offset: nat, limit: nat, hits: seq<Hit>, counted: nat) returns (want: Want)
      requires Valid()
      modifies this`cursor, this`top, this`cursorAt, this`pages
      ensures Valid()
      ensures of != generation ==> want == Want.Nothing && pages == old(pages) && View() == old(View())
      ensures of == generation ==>
                var filed := FiledAs(old(pages), offset, limit, hits, counted);
                && pages == filed.(asked := pages.asked)
                && View() == Refollowed(filed, anchored, old(View()), room)
                && want == Missing(filed, top, room, generation)
                && FiledHere(old(pages), filed, offset, limit, hits, counted)
      ensures of == generation && !anchored ==> View() == old(View())
      ensures of == generation && anchored && old(cursorAt).Some?
              && (exists row: nat :: PathAt(pages, row) == old(cursorAt)) ==>
                PathAt(pages, cursor) == old(cursorAt) && cursorAt == old(cursorAt)
    {
      if of != generation {
        return Want.Nothing;
      }
      var page := PageOf(offset);
      var length := pages.LengthAfter(page, |hits|, limit);
      var total := Larger(counted, length);
      PutKeeps(pages, page, hits, total);
      pages := pages.Put(page, hits, total).0;
      ghost var filed := pages;
      FiledIsHere(old(pages), offset, limit, hits, counted);
      Refollow();
      RefollowedFinds(filed, anchored, old(View()), room);
      want := Follow();
      AskingKeepsPaths(filed, pages);
    }

    /** Asked again in another order, the cursor goes where its file went, if the first
        page to land has it. */
    method ReaskThenLanded(hits: seq<Hit>, counted: nat, i: nat) returns (want: Want)
      requires Valid() && anchored && cursorAt.Some?
      requires i < |hits| && i < SPAN && hits[i].path == cursorAt.value
      modifies this`generation, this`pages, this`cursor, this`top, this`cursorAt
      ensures Valid() && PathAt(pages, cursor) == Some(hits[i].path) && cursorAt == old(cursorAt)
    {
      want := Reask();
      FiledIsFound(pages, hits, pages.LengthAfter(0, |hits|, SPAN), counted, i);
      want := Landed(generation, 0, SPAN, hits, counted);
      assert PathAt(pages, i) == Some(hits[i].path);
    }
  }

  lemma FiledIsFound(p: Store, hits: seq<Hit>, length: nat, counted: nat, i: nat)
    requires p.Valid() && i < |hits| && i < SPAN
    ensures PathAt(p.Put(0, hits, Larger(counted, length)).0, i) == Some(hits[i].path)
  {
    PutKeeps(p, 0, hits, Larger(counted, length));
  }

  lemma AskingKeepsPaths(p: Store, q: Store)
    requires p == q.(asked := p.asked)
    ensures forall row: nat :: PathAt(p, row) == PathAt(q, row)
  {
  }

  lemma LastMoves(before: string, after: string)
    requires before != ""
    ensures var n := |before| - 1; before + after == before[..n] + ([before[n]] + after)
  {
  }
}
