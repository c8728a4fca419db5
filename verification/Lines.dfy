/** The grid: rows grouped into lines of so many tiles. */

module Lines {
  import opened Naturals
  import opened Views
  import opened ListSpec
  import opened Slots

  function DivCeil(total: nat, per: nat): nat
    requires per > 0
  {
    total / per + if total % per > 0 then 1 else 0
  }

  function LineCount(total: nat, per: nat): nat {
    if per == 0 then 0 else DivCeil(total, per)
  }

  /** The rows on one line. The last may be short, and past it there are none. */
  function LineRows(total: nat, per: nat, line: nat): seq<nat> {
    Range(line * per, Smaller(line * per + per, total))
  }

  function FirstLines(total: nat, per: nat, n: nat): seq<nat> {
    if n == 0 then [] else FirstLines(total, per, n - 1) + LineRows(total, per, n - 1)
  }

  lemma {:induction false} RangesJoin(a: nat, b: nat, c: nat)
    requires a <= b <= c
    ensures Range(a, b) + Range(b, c) == Range(a, c)
    decreases b - a
  {
    if a < b {
      RangesJoin(a + 1, b, c);
      assert Range(a, b) + Range(b, c) == [a] + (Range(a + 1, b) + Range(b, c));
    } else {
      assert Range(a, b) == [];
    }
  }

  lemma {:induction false} FirstLinesAre(total: nat, per: nat, n: nat)
    ensures FirstLines(total, per, n) == Range(0, Smaller(n * per, total))
  {
    if n == 0 {
      assert Range(0, Smaller(0 * per, total)) == [];
    } else {
      FirstLinesAre(total, per, n - 1);
      var from := (n - 1) * per;
      assert n * per == from + per;
      if from <= total {
        RangesJoin(0, from, Smaller(from + per, total));
      } else {
        assert LineRows(total, per, n - 1) == [];
      }
    }
  }

  lemma EnoughLines(total: nat, per: nat)
    requires per > 0
    ensures DivCeil(total, per) * per >= total
    ensures DivCeil(total, per) > 0 ==> (DivCeil(total, per) - 1) * per < total
  {
  }

  /** The grid is the list: its lines, end to end, are rows nought to the total, each
      once and in order; and no line of it is empty. */
  lemma GridIsTheList(total: nat, per: nat)
    requires per > 0
    ensures FirstLines(total, per, LineCount(total, per)) == Range(0, total)
    ensures forall line :: 0 <= line < LineCount(total, per) ==> LineRows(total, per, line) != []
  {
    var n := LineCount(total, per);
    EnoughLines(total, per);
    FirstLinesAre(total, per, n);
    forall line | 0 <= line < n ensures LineRows(total, per, line) != [] {
      LineStartsBefore(line, n - 1, per);
      assert LineRows(total, per, line)[0] == line * per;
    }
  }

  lemma LineStartsBefore(a: nat, b: nat, per: nat)
    requires a <= b
    ensures a * per <= b * per
  {
  }

  /** The lines announced when rows `from..upTo` change. */
  function TouchedLines(per: nat, from: nat, upTo: nat): seq<nat> {
    if per == 0 || upTo <= from then [] else Range(from / per, (upTo - 1) / per + 1)
  }

  lemma OneQuotient(row: nat, per: nat, line: nat)
    requires per > 0 && line * per <= row < line * per + per
    ensures row / per == line
  {
    var q, r := row / per, row % per;
    assert row == q * per + r;
    if q < line {
      assert line * per == q * per + (line - q) * per;
      AtLeast(line - q, per);
    } else if q > line {
      assert q * per == line * per + (q - line) * per;
      AtLeast(q - line, per);
    }
  }

  lemma QuotientBounds(row: nat, per: nat)
    requires per > 0
    ensures row / per * per <= row < row / per * per + per
  {
  }

  lemma QuotientsRise(a: nat, b: nat, per: nat)
    requires per > 0 && a <= b
    ensures a / per <= b / per
  {
    QuotientBounds(a, per);
    QuotientBounds(b, per);
    MultiplesRise(a / per, b / per, per);
  }

  /** A multiple below the next one up is no greater. */
  lemma MultiplesRise(x: nat, y: nat, per: nat)
    requires x * per < y * per + per
    ensures x <= y
  {
    assert x * per == y * per + (x - y) * per;
    if x > y {
      AtLeast(x - y, per);
    }
  }

  /** Between the lines of the first and the last row changed, every line holds one. */
  lemma AnnouncedHolds(per: nat, from: nat, last: nat, line: nat) returns (row: nat)
    requires per > 0 && from <= last && from / per <= line <= last / per
    ensures from <= row <= last && OnLine(row, per, line)
  {
    QuotientBounds(from, per);
    QuotientBounds(last, per);
    LineStartsBefore(line, last / per, per);
    if line == from / per {
      row := from;
    } else {
      row := line * per;
      LineStartsBefore(from / per + 1, line, per);
      assert (from / per + 1) * per == from / per * per + per;
    }
  }

  /** A line is announced exactly when it holds a row of the range. */
  lemma TouchedAreTheHolding(per: nat, from: nat, upTo: nat, line: nat)
    requires per > 0
    ensures line in TouchedLines(per, from, upTo) <==> exists row :: from <= row < upTo && OnLine(row, per, line)
  {
    if line in TouchedLines(per, from, upTo) {
      var row := AnnouncedHolds(per, from, upTo - 1, line);
      assert from <= row < upTo && OnLine(row, per, line);
    }
    if row :| from <= row < upTo && OnLine(row, per, line) {
      OneQuotient(row, per, line);
      QuotientsRise(from, row, per);
      QuotientsRise(row, upTo - 1, per);
    }
  }

  predicate OnLine(row: nat, per: nat, line: nat) {
    line * per <= row < line * per + per
  }

  function StretchNotes(was: nat, now: nat): seq<Note> {
    if was == 0 && now > 0 then [Reset]
    else if now > was then [Added(was, now - was)]
    else if now < was then [Removed(now, was - now)]
    else []
  }

  /** The rows on every line. */
  function Grid(total: nat, per: nat): (all: seq<seq<nat>>)
    ensures |all| == LineCount(total, per)
    ensures forall line :: 0 <= line < |all| ==> all[line] == LineRows(total, per, line)
  {
    seq(LineCount(total, per), line requires line >= 0 => LineRows(total, per, line))
  }

  lemma OneMoreRow(per: nat, line: nat, was: nat, now: nat)
    requires per > 0 && was < now
    ensures line < LineCount(was, per) ==>
              (LineRows(was, per, line) != LineRows(now, per, line) <==> was % per != 0 && line == was / per)
  {
    if line < LineCount(was, per) {
      var first := line * per;
      EnoughLines(was, per);
      LineStartsBefore(line, LineCount(was, per) - 1, per);
      RangeCounts(first, Smaller(first + per, was));
      RangeCounts(first, Smaller(first + per, now));
      LineOfRow(per, line, was);
    }
  }

  /** Where a line in use ends against where the rows do. */
  lemma LineOfRow(per: nat, line: nat, total: nat)
    requires per > 0 && line * per < total
    ensures line * per + per > total <==> total % per != 0 && line == total / per
  {
    var q, r := total / per, total % per;
    assert total == q * per + r;
    MultiplesRise(line, q, per);
    if line < q {
      MultipleAtLeast(q - line, per);
      assert q * per == line * per + (q - line) * per;
    }
  }

  lemma MultipleAtLeast(a: nat, per: nat)
    requires a >= 1
    ensures a * per >= per
  {
    assert a * per == (a - 1) * per + per;
  }

  /** A view that had the lines last announced has, after a stretch, exactly the lines there
      are: the new ones read, and the others as they were. */
  lemma StretchedView<T>(view: seq<T>, model: seq<T>)
    ensures var after := Replayed(view, StretchNotes(|view|, |model|), model);
            |after| == |model|
            && forall line :: 0 <= line < |model| ==> after[line] == if line < |view| then view[line] else model[line]
  {
    var notes := StretchNotes(|view|, |model|);
    if notes != [] {
      assert notes == [notes[0]] && notes[1..] == [];
      assert Replayed(view, notes, model) == Took(view, notes[0], model);
    }
  }

  /** A grid that was right, told of some lines and then stretched, is right again exactly
      when the number of rows is the same, or the shorter of the two ends with a full
      line, or the line it ends on was told. */
  lemma StretchedGrid(per: nat, was: nat, now: nat, told: seq<nat>)
    requires per > 0
    ensures var view, model := Grid(was, per), Grid(now, per);
            var s := Smaller(was, now);
            Replayed(view, Changes(told) + StretchNotes(|view|, |model|), model) == model
            <==> was == now || s % per == 0 || s / per in told
  {
    var view, model := Grid(was, per), Grid(now, per);
    var s := Smaller(was, now);
    var read := Replayed(view, Changes(told), model);
    ReplayedInTwo(view, Changes(told), StretchNotes(|view|, |model|), model);
    ReplayedChanges(view, told, model);
    StretchedView(read, model);
    var after := Replayed(read, StretchNotes(|view|, |model|), model);
    forall line: nat | line < |model|
      ensures after[line] != model[line] <==>
              line < |view| && line !in told && was != now && s % per != 0 && line == s / per
    {
      if was < now {
        OneMoreRow(per, line, was, now);
      } else if now < was {
        OneMoreRow(per, line, now, was);
      }
    }
    LastSharedLine(per, s, was, now);
    if after == model {
      assert forall line: nat :: line < |model| ==> after[line] == model[line];
    }
  }

  lemma LastSharedLine(per: nat, s: nat, was: nat, now: nat)
    requires per > 0 && s == Smaller(was, now)
    ensures s % per != 0 ==> s / per < LineCount(was, per) && s / per < LineCount(now, per)
  {
    QuotientsRise(s, was, per);
    QuotientsRise(s, now, per);
    if s % per != 0 {
      PartLine(per, s, was);
      PartLine(per, s, now);
    }
  }

  lemma PartLine(per: nat, s: nat, total: nat)
    requires per > 0 && s <= total && s % per != 0
    ensures s / per < LineCount(total, per)
  {
    QuotientsRise(s, total, per);
    if s / per == total / per {
      assert s - s / per * per == s % per && total - total / per * per == total % per;
    }
  }

  class Lines {
    var per: nat
    var shown: nat
    var notes: seq<Note>

    constructor ()
      ensures per == 0 && shown == 0 && notes == []
    {
      per, shown, notes := 0, 0, [];
    }

    /** A new width lays every line out again and resets the view; the same one does nothing. */
    method PerLine(now: nat, total: nat)
      modifies this
      ensures per == now
      ensures if now == old(per) then shown == old(shown) && notes == old(notes)
              else shown == LineCount(total, now) && notes == old(notes) + [Reset]
    {
      if now != per {
        per := now;
        shown := LineCount(total, per);
        notes := notes + [Reset];
      }
    }

    method Touched(from: nat, upTo: nat)
      modifies this`notes
      ensures notes == old(notes) + Changes(TouchedLines(per, from, upTo))
    {
      if per == 0 || upTo <= from {
        assert Changes([]) == [];
        return;
      }
      QuotientsRise(from, upTo - 1, per);
      var last := (upTo - 1) / per;
      ghost var all := TouchedLines(per, from, upTo);
      RangeCounts(from / per, last + 1);
      for line := from / per to last + 1
        invariant notes == old(notes) + Changes(all[..line - from / per])
      {
        ghost var k := line - from / per;
        assert Changes(all[..k + 1]) == Changes(all[..k]) + [Changed(line)];
        notes := notes + [Changed(line)];
      }
      assert all[..|all|] == all;
    }

    method Stretch(total: nat)
      modifies this`shown, this`notes
      ensures shown == LineCount(total, per)
      ensures notes == old(notes) + StretchNotes(old(shown), shown)
    {
      var was := shown;
      var now := LineCount(total, per);
      shown := now;
      if was == 0 && now > 0 {
        notes := notes + [Reset];
        return;
      }
      if now > was {
        notes := notes + [Added(was, now - was)];
      } else if now < was {
        notes := notes + [Removed(now, was - now)];
      }
    }
  }

  lemma {:induction false} RangeCounts(a: nat, b: nat)
    requires a <= b
    ensures |Range(a, b)| == b - a && forall i :: 0 <= i < b - a ==> Range(a, b)[i] == a + i
    decreases b - a
  {
    if a < b {
      RangeCounts(a + 1, b);
    }
  }
}
