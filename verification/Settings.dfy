/** The settings screen: where the open section's lines are drawn once the cursor is
    scrolled into view, and which of them a press takes. */

module Settings {
  import opened Naturals
  import opened Options

  const SECTIONS: nat := 7
  const SECTIONS_WIDE: nat := 26

  datatype PanelLine = PanelLine(text: string, key: string, rule: bool)

  /** The section that is open: its lines, of which the first `pressable` answer a press,
      the cursor's place among them, and the text under the title. */
  datatype Open = Open(lines: seq<PanelLine>, pressable: nat, panelAt: nat, lead: seq<string>)

  datatype Area = Area(x: nat, y: nat, width: nat, height: nat) {
    function Body(): nat { y + 2 }
    function Bottom(): nat { Body() + Less(height, 4) }
    function Right(): nat { x + SECTIONS_WIDE + 2 }
    function First(lead: seq<string>): nat { Body() + 2 + |lead| }
    function Room(lead: seq<string>): nat { Less(Bottom(), First(lead)) }
  }

  /** What one row of the section's side shows. */
  datatype Mark = Title | Lead(text: string) | Gap | Rule | Line(at: nat)

  datatype Hit = OnSection(section: nat) | OnLine(line: nat)

  /// The lines one below the other

  /** The rows a line takes: one for a rule over it, unless it is the first, and its own. */
  function RowsFor(lines: seq<PanelLine>, at: nat): seq<Mark>
    requires at < |lines|
  {
    (if lines[at].rule && at > 0 then [Rule] else []) + [Line(at)]
  }

  function Stacked(lines: seq<PanelLine>): seq<Mark> {
    if lines == [] then []
    else Stacked(lines[..|lines| - 1]) + RowsFor(lines, |lines| - 1)
  }

  /** The row a line is on. */
  function RowOf(lines: seq<PanelLine>, at: nat): nat
    requires at < |lines|
  {
    |Stacked(lines[..at])| + |RowsFor(lines, at)| - 1
  }

  lemma StackedOneMore(lines: seq<PanelLine>, at: nat)
    requires at < |lines|
    ensures Stacked(lines[..at + 1]) == Stacked(lines[..at]) + RowsFor(lines, at)
  {
    assert lines[..at + 1][..at] == lines[..at];
  }

  lemma {:induction false} StackedGrows(lines: seq<PanelLine>, at: nat)
    requires at <= |lines|
    ensures Stacked(lines[..at]) <= Stacked(lines)
    decreases |lines| - at
  {
    if at == |lines| {
      assert lines[..at] == lines;
    } else {
      StackedOneMore(lines, at);
      StackedGrows(lines, at + 1);
    }
  }

  lemma LineIsOnItsRow(lines: seq<PanelLine>, at: nat)
    requires at < |lines|
    ensures RowOf(lines, at) < |Stacked(lines)| && Stacked(lines)[RowOf(lines, at)] == Line(at)
  {
    StackedOneMore(lines, at);
    StackedGrows(lines, at + 1);
  }

  lemma {:induction false} LineIsOnNoOther(lines: seq<PanelLine>, row: nat)
    requires row < |Stacked(lines)| && Stacked(lines)[row].Line?
    ensures Stacked(lines)[row].at < |lines| && row == RowOf(lines, Stacked(lines)[row].at)
    decreases |lines|
  {
    var n := |lines| - 1;
    var before := Stacked(lines[..n]);
    if row < |before| {
      LineIsOnNoOther(lines[..n], row);
      var at := before[row].at;
      assert lines[..n][..at] == lines[..at];
    }
  }

  /** A line that asks for a rule has one over it, unless it is the first. */
  lemma LineHasItsRule(lines: seq<PanelLine>, at: nat)
    requires 0 < at < |lines| && lines[at].rule
    ensures 0 < RowOf(lines, at) < |Stacked(lines)| && Stacked(lines)[RowOf(lines, at) - 1] == Rule
  {
    StackedOneMore(lines, at);
    StackedGrows(lines, at + 1);
  }

  /** Every row is a line's or a rule's, and a rule's is over such a line. */
  lemma {:induction false} RuleIsOverItsLine(lines: seq<PanelLine>, row: nat) returns (at: nat)
    requires row < |Stacked(lines)| && !Stacked(lines)[row].Line?
    ensures Stacked(lines)[row] == Rule
    ensures 0 < at < |lines| && lines[at].rule && RowOf(lines, at) == row + 1
    decreases |lines|
  {
    at := |lines| - 1;
    if row < |Stacked(lines[..at])| {
      var n := at;
      at := RuleIsOverItsLine(lines[..n], row);
      assert lines[..n][..at] == lines[..at];
    }
  }

  /// What is drawn

  /** How far the lines are scrolled for the cursor's to be drawn. */
  function From(open: Open, room: nat): nat {
    Less(if open.panelAt < |open.lines| then RowOf(open.lines, open.panelAt) else 0, Less(room, 1))
  }

  function Window(rows: seq<Mark>, from: nat, room: nat): seq<Mark> {
    rows[Smaller(from, |rows|)..Smaller(from + room, |rows|)]
  }

  lemma WindowOneMore(rows: seq<Mark>, mark: Mark, from: nat, room: nat)
    ensures Window(rows + [mark], from, room)
            == Window(rows, from, room) + if from <= |rows| < from + room then [mark] else []
  {
  }

  function Top(lead: seq<string>): seq<Mark> {
    [Title] + seq(|lead|, i requires 0 <= i < |lead| => Lead(lead[i])) + [Gap]
  }

  function Drawn(area: Area, open: Open): seq<Mark> {
    var room := area.Room(open.lead);
    Top(open.lead) + Window(Stacked(open.lines), From(open, room), room)
  }

  /** What a row of the screen shows on the section's side. */
  function Shown(area: Area, open: Open, row: nat): Option<Mark> {
    var drawn := Drawn(area, open);
    if area.Body() <= row < area.Bottom() && row - area.Body() < |drawn| then Some(drawn[row - area.Body()]) else None
  }

  /** The section whose name a row of the screen shows. */
  function SectionShown(area: Area, row: nat): Option<nat> {
    if area.Body() <= row < area.Bottom() && row - area.Body() < SECTIONS then Some(row - area.Body()) else None
  }

  /// What a press takes

  function Pressable(mark: Option<Mark>, pressable: nat): Option<nat> {
    if mark.Some? && mark.value.Line? && mark.value.at < pressable then Some(mark.value.at) else None
  }

  /** The line a press finds on a row, wherever on the screen or past it the row is. */
  function LineUnder(area: Area, open: Open, row: nat): Option<nat> {
    var first := area.First(open.lead);
    if row < first then None
    else
      var want := row - first + From(open, area.Room(open.lead));
      var rows := Stacked(open.lines);
      if want < |rows| then Pressable(Some(rows[want]), open.pressable) else None
  }

  function SectionUnder(area: Area, row: nat): Option<nat> {
    if row >= area.Body() && row - area.Body() < SECTIONS then Some(row - area.Body()) else None
  }

  /** On every row of the body, a press takes the line drawn there if it answers presses,
      and nothing else. */
  lemma PressTakesWhatIsDrawn(area: Area, open: Open, row: nat)
    requires row < area.Bottom()
    ensures LineUnder(area, open, row) == Pressable(Shown(area, open, row), open.pressable)
  {
    var first, room := area.First(open.lead), area.Room(open.lead);
    var rows, from := Stacked(open.lines), From(open, room);
    if row >= first {
      var k := row - area.Body();
      assert |Top(open.lead)| == first - area.Body() && k - |Top(open.lead)| < room;
      if from + (row - first) < |rows| {
        assert Drawn(area, open)[k] == Window(rows, from, room)[row - first] == rows[from + (row - first)];
      }
    } else if area.Body() <= row {
      assert !Drawn(area, open)[row - area.Body()].Line?;
    }
  }

  /** Below the body nothing is drawn, but the rows there still count: pressing the foot
      takes a hidden line exactly when one that answers presses is scrolled out below. */
  lemma PressTakesOnlyWhatIsDrawn(area: Area, open: Open)
    ensures (forall row: nat :: LineUnder(area, open, row) == Pressable(Shown(area, open, row), open.pressable))
            <==> (forall at: nat | at < |open.lines| && at < open.pressable ::
                    RowOf(open.lines, at) < From(open, area.Room(open.lead)) + area.Room(open.lead))
  {
    var first, room := area.First(open.lead), area.Room(open.lead);
    var rows, from := Stacked(open.lines), From(open, room);
    if forall at: nat | at < |open.lines| && at < open.pressable :: RowOf(open.lines, at) < from + room {
      forall row: nat ensures LineUnder(area, open, row) == Pressable(Shown(area, open, row), open.pressable) {
        if row < area.Bottom() {
          PressTakesWhatIsDrawn(area, open, row);
        } else if LineUnder(area, open, row).Some? {
          LineIsOnNoOther(open.lines, row - first + from);
          assert false;
        }
      }
    } else {
      var at: nat :| at < |open.lines| && at < open.pressable && RowOf(open.lines, at) >= from + room;
      HiddenLineIsTaken(area, open, at);
    }
  }

  lemma HiddenLineIsTaken(area: Area, open: Open, at: nat)
    requires at < |open.lines| && at < open.pressable
    requires RowOf(open.lines, at) >= From(open, area.Room(open.lead)) + area.Room(open.lead)
    ensures var row := area.First(open.lead) + (RowOf(open.lines, at) - From(open, area.Room(open.lead)));
            LineUnder(area, open, row) == Some(at) && Shown(area, open, row) == None
  {
    LineIsOnItsRow(open.lines, at);
  }

  /** On a terminal of ten rows three of a section's five lines are drawn with the cursor
      on the first; a press on the rule over the foot takes the fourth. */
  lemma FootTakesAHiddenLine(line: PanelLine, lead: string)
    requires !line.rule
    ensures var area, open := Area(0, 0, 80, 10), Open([line, line, line, line, line], 5, 0, [lead]);
            area.Bottom() == 8 && LineUnder(area, open, 8) == Some(3) && Shown(area, open, 8) == None
  {
    var area, open := Area(0, 0, 80, 10), Open([line, line, line, line, line], 5, 0, [lead]);
    StackedOneMore(open.lines, 0);
    StackedOneMore(open.lines, 1);
    StackedOneMore(open.lines, 2);
    LineIsOnItsRow(open.lines, 3);
    assert open.lines[..0] == [];
  }

  /** The cursor's line is always drawn, where there is a row to draw it on, and the lines
      are not scrolled further than that takes. */
  lemma CursorIsDrawn(area: Area, open: Open)
    requires open.panelAt < |open.lines| && area.Room(open.lead) >= 1
    ensures exists row: nat :: Shown(area, open, row) == Some(Line(open.panelAt))
    ensures var room := area.Room(open.lead);
            From(open, room) > 0 ==> Shown(area, open, area.Bottom() - 1) == Some(Line(open.panelAt))
  {
    var first, room := area.First(open.lead), area.Room(open.lead);
    var rows, from, at := Stacked(open.lines), From(open, room), RowOf(open.lines, open.panelAt);
    LineIsOnItsRow(open.lines, open.panelAt);
    var row := first + (at - from);
    assert Drawn(area, open)[row - area.Body()] == Window(rows, from, room)[at - from] == rows[at];
    assert Shown(area, open, row) == Some(Line(open.panelAt));
  }

  /** The names of the sections answer where they are drawn, and on every row when the
      body holds them all. */
  lemma SectionsAnswerWhereDrawn(area: Area)
    ensures forall row: nat | row < area.Bottom() :: SectionUnder(area, row) == SectionShown(area, row)
    ensures (forall row: nat :: SectionUnder(area, row) == SectionShown(area, row)) <==> 7 <= Less(area.height, 4)
  {
    if SECTIONS > Less(area.height, 4) {
      assert SectionUnder(area, area.Bottom()).Some? && SectionShown(area, area.Bottom()).None?;
    }
  }

  /// The program's loops

  /** Each line with the row it is on, and how far they are scrolled. */
  method SettingsRows(open: Open, room: nat) returns (from: nat, rows: seq<(nat, nat)>)
    ensures from == From(open, room) && |rows| == |open.lines|
    ensures forall i :: 0 <= i < |rows| ==> rows[i] == (i, RowOf(open.lines, i))
  {
    rows := [];
    var row := 0;
    for at := 0 to |open.lines|
      invariant |rows| == at && row == |Stacked(open.lines[..at])|
      invariant forall i :: 0 <= i < at ==> rows[i] == (i, RowOf(open.lines, i))
    {
      StackedOneMore(open.lines, at);
      if open.lines[at].rule && at > 0 {
        row := row + 1;
      }
      rows := rows + [(at, row)];
      row := row + 1;
    }
    var cursorRow := if open.panelAt < |rows| then rows[open.panelAt].1 else 0;
    from := Less(cursorRow, Less(room, 1));
  }

  /** What a press at this column and row takes. */
  method SettingsHit(area: Area, open: Open, col: nat, row: nat) returns (hit: Option<Hit>)
    ensures hit == if col < area.x + Smaller(26, area.width) && row >= area.Body() then
                     match SectionUnder(area, row) { case Some(i) => Some(OnSection(i)) case None => None }
                   else if col < area.x + 28 then None
                   else match LineUnder(area, open, row) { case Some(i) => Some(OnLine(i)) case None => None }
  {
    if col < area.x + Smaller(SECTIONS_WIDE, area.width) && row >= area.Body() {
      var i := row - area.Body();
      return if i < SECTIONS then Some(OnSection(i)) else None;
    }
    var first := area.First(open.lead);
    if col < area.Right() || row < first {
      return None;
    }
    var from, rows := SettingsRows(open, area.Room(open.lead));
    var want := row - first + from;
    ghost var all := Stacked(open.lines);
    for k := 0 to |rows|
      invariant forall i :: 0 <= i < k ==> !(RowOf(open.lines, i) == want && i < open.pressable)
    {
      if rows[k].1 == want && rows[k].0 < open.pressable {
        LineIsOnItsRow(open.lines, k);
        return Some(OnLine(rows[k].0));
      }
    }
    if want < |all| && all[want].Line? {
      LineIsOnNoOther(open.lines, want);
    }
    hit := None;
  }

  /** The title, the lines under it and the gap below them. */
  method SettingsTop(lead: seq<string>) returns (drawn: seq<Mark>)
    ensures drawn == Top(lead)
  {
    drawn := [Title];
    for i := 0 to |lead|
      invariant |drawn| == i + 1 && drawn[0] == Title
      invariant forall j :: 0 <= j < i ==> drawn[j + 1] == Lead(lead[j])
    {
      drawn := drawn + [Lead(lead[i])];
    }
    drawn := drawn + [Gap];
  }

  /** What of a line and the rule over it is in the window. */
  lemma LineInWindow(lines: seq<PanelLine>, at: nat, from: nat, room: nat)
    requires at < |lines|
    ensures var row, ruled := |Stacked(lines[..at])|, lines[at].rule && at > 0;
            && |Stacked(lines[..at + 1])| == row + (if ruled then 2 else 1)
            && Window(Stacked(lines[..at + 1]), from, room)
               == Window(Stacked(lines[..at]), from, room)
                  + (if ruled && from <= row < from + room then [Rule] else [])
                  + (if from <= row + (if ruled then 1 else 0) < from + room then [Line(at)] else [])
  {
    var before := Stacked(lines[..at]);
    StackedOneMore(lines, at);
    if lines[at].rule && at > 0 {
      WindowOneMore(before, Rule, from, room);
      WindowOneMore(before + [Rule], Line(at), from, room);
      assert before + RowsFor(lines, at) == before + [Rule] + [Line(at)];
    } else {
      WindowOneMore(before, Line(at), from, room);
      assert before + RowsFor(lines, at) == before + [Line(at)];
    }
  }

  /** The lines that are in the window, under what is drawn already. */
  method SettingsLines(above: seq<Mark>, lines: seq<PanelLine>, from: nat, room: nat) returns (drawn: seq<Mark>)
    ensures drawn == above + Window(Stacked(lines), from, room)
  {
    drawn := above;
    var row := 0;
    for at := 0 to |lines|
      invariant row == |Stacked(lines[..at])|
      invariant drawn == above + Window(Stacked(lines[..at]), from, room)
    {
      LineInWindow(lines, at, from, room);
      if lines[at].rule && at > 0 {
        if from <= row < from + room {
          drawn := drawn + [Rule];
        }
        row := row + 1;
      }
      if from <= row < from + room {
        drawn := drawn + [Line(at)];
      }
      row := row + 1;
    }
    assert lines[..|lines|] == lines;
  }

  /** The rows of the section's side, from its title down. */
  method SettingsScreen(area: Area, open: Open) returns (drawn: seq<Mark>)
    ensures drawn == Drawn(area, open)
    ensures |drawn| >= 2 + |open.lead| && drawn[0] == Title && drawn[1 + |open.lead|] == Gap
    ensures forall i :: 0 <= i < |open.lead| ==> drawn[1 + i] == Lead(open.lead[i])
  {
    var room := area.Room(open.lead);
    drawn := SettingsTop(open.lead);
    var from, rows := SettingsRows(open, room);
    drawn := SettingsLines(drawn, open.lines, from, room);
  }
}
