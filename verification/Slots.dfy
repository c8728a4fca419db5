/** The ring of slots that draws the list, in which a row keeps its slot while it stays in
    the window, and the notes by which views are told. */

module Views {
  /** What a model tells a view that draws it. */
  datatype Note =
    | Changed(at: nat)
    | Added(at: nat, count: nat)
    | Removed(at: nat, count: nat)
    | Reset

  /** A view takes a note: it reads again what it was told of, and nothing else.
      Reading happens when it draws, so what it reads is the model as it ends up. */
  function Took<T>(view: seq<T>, note: Note, model: seq<T>): seq<T> {
    match note
    case Changed(at) => if at < |view| && at < |model| then view[at := model[at]] else view
    case Added(at, count) =>
      if at <= |view| && at + count <= |model| then view[..at] + model[at..at + count] + view[at..] else view
    case Removed(at, count) =>
      if at + count <= |view| then view[..at] + view[at + count..] else view
    case Reset => model
  }

  function Replayed<T>(view: seq<T>, notes: seq<Note>, model: seq<T>): seq<T>
    decreases |notes|
  {
    if notes == [] then view else Replayed(Took(view, notes[0], model), notes[1..], model)
  }

  function Changes(slots: seq<nat>): (notes: seq<Note>)
    ensures |notes| == |slots| && forall i :: 0 <= i < |slots| ==> notes[i] == Changed(slots[i])
  {
    seq(|slots|, i requires 0 <= i < |slots| => Changed(slots[i]))
  }

  lemma {:induction false} ReplayedInTwo<T>(view: seq<T>, a: seq<Note>, b: seq<Note>, model: seq<T>)
    ensures Replayed(view, a + b, model) == Replayed(Replayed(view, a, model), b, model)
    decreases |a|
  {
    if a == [] {
      assert a + b == b;
    } else {
      assert (a + b)[0] == a[0] && (a + b)[1..] == a[1..] + b;
      ReplayedInTwo(Took(view, a[0], model), a[1..], b, model);
    }
  }

  /** Told only of changes, a view ends with what it was told of read again and
      everything else as it was. */
  lemma {:induction false} ReplayedChanges<T>(view: seq<T>, slots: seq<nat>, model: seq<T>)
    ensures var after := Replayed(view, Changes(slots), model);
            |after| == |view|
            && forall s :: 0 <= s < |view| ==> after[s] == if s in slots && s < |model| then model[s] else view[s]
    decreases |slots|
  {
    if slots == [] {
      assert Changes(slots) == [];
    } else {
      var rest := slots[1..];
      assert slots == [slots[0]] + rest;
      assert Changes(slots)[1..] == Changes(rest);
      ReplayedChanges(Took(view, Changed(slots[0]), model), rest, model);
    }
  }
}

module Slots {
  import opened Naturals
  import opened Options
  import opened Views

  /** The one row of the `count` from `first` that lives in slot `s`. */
  function RowIn(first: nat, count: nat, s: nat): nat
    requires s < count
  {
    var m := first % count;
    if s >= m then first + (s - m) else first + (s + count - m)
  }

  /** What the slots show once placed. */
  function Placed(first: nat, count: nat, total: nat): (slots: seq<Option<nat>>)
    requires count > 0
    ensures |slots| == count
    ensures forall s :: 0 <= s < count ==>
              slots[s] == if RowIn(first, count, s) < total then Some(RowIn(first, count, s)) else None
  {
    seq(count, s requires 0 <= s < count =>
      if RowIn(first, count, s) < total then Some(RowIn(first, count, s)) else None)
  }

  lemma AtLeast(a: int, n: nat)
    requires a >= 1
    ensures a * n >= n
  {
    assert a * n == (a - 1) * n + n;
    assert (a - 1) * n >= 0;
  }

  lemma OneRemainder(n: nat, q: int, r: int, p: int, s: int)
    requires n > 0 && q * n + r == p * n + s && 0 <= r < n && 0 <= s < n
    ensures r == s
  {
    assert (q - p) * n == s - r;
    if q > p {
      AtLeast(q - p, n);
    } else if q < p {
      assert (p - q) * n == r - s;
      AtLeast(p - q, n);
    }
  }

  lemma ModOfSum(a: nat, count: nat, s: nat)
    requires s < count
    ensures (a * count + s) % count == s
  {
    var x := a * count + s;
    OneRemainder(count, x / count, x % count, a, s);
  }

  /** A row of the window lives in the slot its number says, and no other row of the
      window does: `RowIn` and `% count` are inverse. */
  lemma RowsAndSlots(first: nat, count: nat, s: nat)
    requires s < count
    ensures first <= RowIn(first, count, s) < first + count
    ensures RowIn(first, count, s) % count == s
  {
    var m := first % count;
    var q := first / count;
    assert first == q * count + m;
    if s >= m {
      assert RowIn(first, count, s) == q * count + s;
      ModOfSum(q, count, s);
    } else {
      assert RowIn(first, count, s) == (q + 1) * count + s;
      ModOfSum(q + 1, count, s);
    }
  }

  lemma SlotsAndRows(first: nat, count: nat, row: nat)
    requires first <= row < first + count
    ensures row % count < count && RowIn(first, count, row % count) == row
  {
    var m, q, d := first % count, first / count, row - first;
    assert first == q * count + m;
    if m + d < count {
      assert row == q * count + (m + d);
      ModOfSum(q, count, m + d);
    } else {
      assert row == (q + 1) * count + (m + d - count);
      ModOfSum(q + 1, count, m + d - count);
    }
  }

  function Base(was: seq<Option<nat>>, count: nat): (base: seq<Option<nat>>)
    ensures |base| == count
  {
    if |was| == count then was else seq(count, _ => None)
  }

  /** The rows, of the first `n` from `first`, whose slot has to be told. */
  function ToldRows(base: seq<Option<nat>>, first: nat, total: nat, n: nat): (rows: seq<nat>)
    requires n <= |base|
  {
    if n == 0 then []
    else
      var row := first + n - 1;
      ToldRows(base, first, total, n - 1)
      + if base[row % |base|] != (if row < total then Some(row) else None) then [row] else []
  }

  function SlotsOf(rows: seq<nat>, count: nat): (slots: seq<nat>)
    requires count > 0
    ensures |slots| == |rows| && forall i :: 0 <= i < |rows| ==> slots[i] == rows[i] % count
  {
    seq(|rows|, i requires 0 <= i < |rows| => rows[i] % count)
  }

  function Resized(was: nat, count: nat): seq<Note> {
    if count > was then [Added(was, count - was)]
    else if count < was then [Removed(count, was - count)]
    else []
  }

  /** Everything `place` tells the view. */
  function PlaceNotes(was: seq<Option<nat>>, first: nat, count: nat, total: nat): seq<Note>
    requires count > 0
  {
    Resized(|was|, count) + Changes(SlotsOf(ToldRows(Base(was, count), first, total, count), count))
  }

  /** The rows told are the rows of the window, in order, whose slot differed. */
  lemma {:induction false} ToldRowsAre(base: seq<Option<nat>>, first: nat, total: nat, n: nat)
    requires n <= |base|
    ensures var told := ToldRows(base, first, total, n);
            && (forall i, j :: 0 <= i < j < |told| ==> told[i] < told[j])
            && (forall row :: row in told <==>
                  first <= row < first + n
                  && base[row % |base|] != (if row < total then Some(row) else None))
  {
    if n > 0 {
      ToldRowsAre(base, first, total, n - 1);
      var before := ToldRows(base, first, total, n - 1);
      forall i | 0 <= i < |before| ensures before[i] < first + n - 1 {
        assert before[i] in before;
      }
    }
  }

  /** With the number of slots unchanged, the slots told are exactly those whose row
      changed, each of them once. */
  lemma ToldSlotsAreTheChanged(was: seq<Option<nat>>, first: nat, total: nat)
    requires was != []
    ensures var told := SlotsOf(ToldRows(was, first, total, |was|), |was|);
            && (forall s :: 0 <= s < |was| ==>
                  (s in told <==> was[s] != Placed(first, |was|, total)[s]))
            && (forall i, j :: 0 <= i < j < |told| ==> told[i] != told[j])
  {
    var count := |was|;
    var rows := ToldRows(was, first, total, count);
    var told := SlotsOf(rows, count);
    ToldRowsAre(was, first, total, count);
    forall s | 0 <= s < count ensures s in told <==> was[s] != Placed(first, count, total)[s] {
      RowsAndSlots(first, count, s);
      var row := RowIn(first, count, s);
      if row in rows {
        var i :| 0 <= i < |rows| && rows[i] == row;
        assert told[i] == s;
      }
      if s in told {
        var i :| 0 <= i < |told| && told[i] == s;
        assert rows[i] in rows;
        SlotsAndRows(first, count, rows[i]);
      }
    }
    forall i, j | 0 <= i < j < |told| ensures told[i] != told[j] {
      assert rows[i] in rows && rows[j] in rows;
      SlotsAndRows(first, count, rows[i]);
      SlotsAndRows(first, count, rows[j]);
    }
  }

  /** A strictly rising run of numbers inside an interval is no longer than it. */
  lemma {:induction false} RisingFits(rows: seq<nat>, lo: nat, hi: nat)
    requires forall i, j :: 0 <= i < j < |rows| ==> rows[i] < rows[j]
    requires forall i :: 0 <= i < |rows| ==> lo <= rows[i] < hi
    ensures |rows| <= if lo < hi then hi - lo else 0
  {
    if rows != [] {
      var last := rows[|rows| - 1];
      RisingFits(rows[..|rows| - 1], lo, last);
    }
  }

  /** Moving a placed list by k rows tells at most k slots. */
  lemma MoveTellsAtMost(from: nat, first: nat, count: nat, total: nat)
    requires count > 0
    ensures |ToldRows(Placed(from, count, total), first, total, count)|
            <= if first > from then first - from else from - first
  {
    var was := Placed(from, count, total);
    var rows := ToldRows(was, first, total, count);
    ToldRowsAre(was, first, total, count);
    var lo := if first > from then Larger(first, from + count) else first;
    var hi := if first > from then first + count else Smaller(from, first + count);
    forall i | 0 <= i < |rows| ensures lo <= rows[i] < hi {
      assert rows[i] in rows;
      if from <= rows[i] < from + count {
        SlotsAndRows(from, count, rows[i]);
        assert false;
      }
    }
    RisingFits(rows, lo, hi);
  }

  /** A slot that goes from a row to nothing when the ring is resized is not told: the
      ring was cleared first, so it looks as if it had been empty all along. */
  predicate GoesBlank(was: seq<Option<nat>>, first: nat, count: nat, total: nat, s: nat)
    requires s < |was| && s < count
  {
    was[s].Some? && RowIn(first, count, s) >= total
  }

  /** A view that was right and replays what `place` tells it is right again exactly
      when the ring kept its size or no slot that stays goes from a row to nothing. */
  lemma ReplayedPlace(was: seq<Option<nat>>, first: nat, count: nat, total: nat)
    requires count > 0
    ensures Replayed(was, PlaceNotes(was, first, count, total), Placed(first, count, total)) == Placed(first, count, total)
            <==>
            (|was| == count || forall s :: 0 <= s < |was| && s < count ==> !GoesBlank(was, first, count, total, s))
  {
    var now := Placed(first, count, total);
    var base := Base(was, count);
    var slots := SlotsOf(ToldRows(base, first, total, count), count);
    var view := Replayed(was, Resized(|was|, count), now);
    ReplayedInTwo(was, Resized(|was|, count), Changes(slots), now);
    ReplayedResize(was, now);
    ToldSlotsAreTheChanged(base, first, total);
    ReplayedChanges(view, slots, now);
    var after := Replayed(view, Changes(slots), now);
    forall s | 0 <= s < count
      ensures after[s] == now[s] <==> |was| == count || s >= |was| || !GoesBlank(was, first, count, total, s)
    {
      assert s in slots <==> base[s] != now[s];
    }
    if after == now {
      assert forall s :: 0 <= s < count ==> after[s] == now[s];
    }
  }

  /** Being resized, a view keeps what it has and reads what it gains. */
  lemma ReplayedResize<T>(was: seq<T>, now: seq<T>)
    ensures var view := Replayed(was, Resized(|was|, |now|), now);
            |view| == |now| && forall s :: 0 <= s < |now| ==> view[s] == if s < |was| then was[s] else now[s]
  {
  }

  /** Ten results, a window of two rows scrolled to the end and made one row taller: the
      fifth slot drew row nine, holds nothing now and goes on drawing it. */
  lemma ResizeCanLeaveStaleSlots(was: seq<Option<nat>>)
    requires was == Placed(7, 5, 10)
    ensures was == [None, None, Some(7), Some(8), Some(9)]
    ensures Placed(6, 6, 10) == [Some(6), Some(7), Some(8), Some(9), None, None]
    ensures Replayed(was, PlaceNotes(was, 6, 6, 10), Placed(6, 6, 10)) != Placed(6, 6, 10)
  {
    assert GoesBlank(was, 6, 6, 10, 4);
    StaleWhereBlank(was, 6, 6, 10, 4);
  }

  lemma StaleWhereBlank(was: seq<Option<nat>>, first: nat, count: nat, total: nat, s: nat)
    requires 0 < count != |was| && s < |was| && s < count && GoesBlank(was, first, count, total, s)
    ensures Replayed(was, PlaceNotes(was, first, count, total), Placed(first, count, total)) != Placed(first, count, total)
  {
    ReplayedPlace(was, first, count, total);
  }

  /** The loop of `place` after `n` rows: their slots are set, the others untouched,
      and the slots that differed are on the list to be told. */
  ghost predicate Covering(base: seq<Option<nat>>, first: nat, total: nat, n: nat,
                           ring: seq<Option<nat>>, changed: seq<nat>)
    requires base != []
  {
    && n <= |base| && |ring| == |base|
    && changed == SlotsOf(ToldRows(base, first, total, n), |base|)
    && forall s :: 0 <= s < |base| ==>
      ring[s] == if RowIn(first, |base|, s) < first + n then Placed(first, |base|, total)[s] else base[s]
  }

  lemma CoverStarts(base: seq<Option<nat>>, first: nat, total: nat)
    requires base != []
    ensures Covering(base, first, total, 0, base, [])
  {
  }

  lemma CoverEnds(base: seq<Option<nat>>, first: nat, total: nat, ring: seq<Option<nat>>, changed: seq<nat>)
    requires base != [] && Covering(base, first, total, |base|, ring, changed)
    ensures ring == Placed(first, |base|, total)
  {
  }

  lemma CoverStep(base: seq<Option<nat>>, first: nat, total: nat, row: nat, slot: nat, want: Option<nat>,
                  ring: seq<Option<nat>>, changed: seq<nat>)
    requires base != [] && first <= row < first + |base| && Covering(base, first, total, row - first, ring, changed)
    requires slot == row % |base| && want == if row < total then Some(row) else None
    ensures slot < |ring|
    ensures Covering(base, first, total, row + 1 - first, ring[slot := want],
                     changed + if ring[slot] != want then [slot] else [])
  {
    SlotsAndRows(first, |base|, row);
    OthersStay(first, |base|, row);
    var told := ToldRows(base, first, total, row - first);
    assert ring[slot] == base[slot];
    assert ToldRows(base, first, total, row + 1 - first) == told + if ring[slot] != want then [row] else [];
    SlotsOfOneMore(told, row, |base|);
    assert told + [] == told && changed + [] == changed;
  }

  lemma SlotsOfOneMore(rows: seq<nat>, row: nat, count: nat)
    requires count > 0
    ensures SlotsOf(rows + [row], count) == SlotsOf(rows, count) + [row % count]
  {}

  class Slots {
    var ring: seq<Option<nat>>
    var from: nat
    var notes: seq<Note>

    constructor ()
      ensures ring == [] && from == 0 && notes == []
    {
      ring, from, notes := [], 0, [];
    }

    /** The ring is placed on a window of the list and tells what `PlaceNotes` says. */
    method Place(first: nat, wanted: nat, total: nat)
      modifies this
      ensures var count := if wanted == 0 then 1 else wanted;
              && from == first
              && ring == Placed(first, count, total)
              && notes == old(notes) + PlaceNotes(old(ring), first, count, total)
    {
      var count := if wanted == 0 then 1 else wanted;
      from := first;
      var was := |ring|;
      if was != count {
        ring := seq(count, _ => None);
      }
      assert ring == Base(old(ring), count);
      var changed := Cover(first, total);
      TellLength(was, count);
      TellEach(changed);
    }

    method Cover(first: nat, total: nat) returns (changed: seq<nat>)
      requires ring != []
      modifies this`ring
      ensures ring == Placed(first, |old(ring)|, total)
      ensures changed == SlotsOf(ToldRows(old(ring), first, total, |old(ring)|), |old(ring)|)
    {
      changed := [];
      var count := |ring|;
      ghost var base := ring;
      CoverStarts(base, first, total);
      for row := first to first + count
        invariant Covering(base, first, total, row - first, ring, changed)
      {
        var slot := row % count;
        var want := if row < total then Some(row) else None;
        CoverStep(base, first, total, row, slot, want, ring, changed);
        ghost var next, more := ring[slot := want], changed + if ring[slot] != want then [slot] else [];
        if ring[slot] != want {
          ring := ring[slot := want];
          changed := changed + [slot];
        }
        assert ring == next && changed == more;
      }
      CoverEnds(base, first, total, ring, changed);
    }

    method TellLength(was: nat, count: nat)
      modifies this`notes
      ensures notes == old(notes) + Resized(was, count)
    {
      if count > was {
        notes := notes + [Added(was, count - was)];
      } else if count < was {
        notes := notes + [Removed(count, was - count)];
      }
    }

    method TellEach(slots: seq<nat>)
      modifies this`notes
      ensures notes == old(notes) + Changes(slots)
    {
      for i := 0 to |slots|
        invariant notes == old(notes) + Changes(slots[..i])
      {
        notes := notes + [Changed(slots[i])];
        assert Changes(slots[..i + 1]) == Changes(slots[..i]) + [Changed(slots[i])];
      }
      assert slots[..|slots|] == slots;
    }

    /** At most one note: to the slot that shows this row. */
    method RowChanged(row: nat)
      modifies this`notes
      ensures notes == old(notes) + Changes(Showing(ring, row))
    {
      if |ring| == 0 {
        return;
      }
      var slot := row % |ring|;
      if ring[slot] == Some(row) {
        notes := notes + [Changed(slot)];
      }
    }

    /** Unless the ring is empty it is placed again where it was, and every slot is told. */
    method Refresh(total: nat)
      modifies this
      ensures var count := |old(ring)|;
              if count == 0 then ring == [] && notes == old(notes) && from == old(from)
              else && from == old(from)
                   && ring == Placed(from, count, total)
                   && notes == old(notes) + PlaceNotes(old(ring), from, count, total) + Changes(Upto(count))
    {
      var len := |ring|;
      if len == 0 {
        return;
      }
      Place(from, len, total);
      TellEach(Upto(len));
    }
  }

  function Upto(n: nat): (all: seq<nat>)
    ensures |all| == n && forall i :: 0 <= i < n ==> all[i] == i
  {
    seq(n, i => i)
  }

  /** The slots, at most one, told when a row changes. */
  function Showing(slots: seq<Option<nat>>, row: nat): seq<nat> {
    if slots != [] && slots[row % |slots|] == Some(row) then [row % |slots|] else []
  }

  lemma OthersStay(first: nat, count: nat, row: nat)
    requires first <= row < first + count
    ensures forall s :: 0 <= s < count && s != row % count ==> RowIn(first, count, s) != row
  {
    forall s | 0 <= s < count && s != row % count ensures RowIn(first, count, s) != row {
      RowsAndSlots(first, count, s);
    }
  }
}
