/** The window and its three lanes together, over whole runs. */

module Protocol {
  import opened Naturals
  import opened Options
  import opened Asks
  import opened WindowState
  import opened Lanes

  /** `sent` is everything the UI thread has asked for, in order; the first `entered`
      are on their lanes and `phase` counts the notes made for the next one. `posted` is
      everything the lanes have put on the event loop, in order, of which the UI thread
      has taken the first `heard`. */
  datatype World = World(
    ui: Ui, open: bool, sent: seq<Ask>, entered: nat, phase: nat, marks: Marks,
    lanes: Three, posted: seq<Post>, heard: nat)
  {
    function Seen(): Scene {
      Scene(sent, entered, if phase >= 1 then entered + 1 else entered, if phase >= 2 then entered + 1 else entered, marks)
    }

    /** The UI thread has finished its turn. */
    predicate Quiet() {
      entered == |sent|
    }
  }

  /** `Begin` is the search a window asks for as it opens, before anything is typed. */
  datatype Act =
    | Begin(rows: nat)
    | Type(text: string, rows: nat)
    | Sort(key: string, startsDown: bool, rows: nat)
    | Fetch(page: nat)
    | Chore(ask: Ask)
    | Ring(at: nat)
    | Deliver(store: Store)
    | Close

  datatype Step =
    | Turn(act: Act)
    | NoteTheSearch
    | NoteTheQuery
    | Enqueue
    | OnLane(name: LaneName, move: Move)

  const QUIET_LANE: Lane := Lane.Lane([], Idle, false, false, [], map[], [])

  function Start(ui: Ui): World {
    World(ui, true, [], 0, 0, Marks(0, 0),
          Three(QUIET_LANE, QUIET_LANE, QUIET_LANE), [], 0)
  }

  predicate CanTurn(w: World, act: Act) {
    w.open && w.Quiet()
    && match act
       case Chore(ask) => ask.Errand? || ask.Await?
       case Ring(at) => at < |w.ui.timers|
       case Deliver(_) => w.heard < |w.posted|
       case _ => true
  }

  predicate Enabled(w: World, step: Step) {
    match step
    case Turn(act) => CanTurn(w, act)
    case NoteTheSearch => w.entered < |w.sent| && w.phase == 0
    case NoteTheQuery => w.entered < |w.sent| && w.phase == 1
    case Enqueue => w.entered < |w.sent| && w.phase == 2
    case OnLane(name, move) => Can(w.Seen(), w.lanes.Of(name), move)
  }

  function Acted(lex: Lexicon, w: World, act: Act): (Ui, seq<Ask>)
    requires CanTurn(w, act)
  {
    match act
    case Begin(rows) => Dispatch(lex, w.ui, rows)
    case Type(text, rows) => Typed(lex, w.ui, text, rows)
    case Sort(key, startsDown, rows) => SortedBy(lex, w.ui, key, startsDown, rows)
    case Fetch(page) => (w.ui, [FetchAsk(lex, w.ui, page)])
    case Chore(ask) => (w.ui, [ask])
    case Ring(at) =>
      var t := w.ui.timers[at];
      Rung(lex, w.ui.(timers := w.ui.timers[..at] + w.ui.timers[at + 1..]), t)
    case Deliver(store) => Apply(lex, w.ui, w.posted[w.heard].got, store)
    case Close => (w.ui, [Stop(Fast), Stop(Slow), Stop(Wait)])
  }

  function Do(lex: Lexicon, w: World, step: Step): World
    requires Enabled(w, step)
  {
    match step
    case Turn(act) =>
      var (ui, asks) := Acted(lex, w, act);
      w.(ui := ui, sent := w.sent + asks, open := !act.Close?,
         heard := if act.Deliver? then w.heard + 1 else w.heard)
    case NoteTheSearch =>
      w.(marks := NotedSearch(w.marks, w.sent[w.entered]), phase := 1)
    case NoteTheQuery =>
      w.(marks := NotedQuery(w.marks, w.sent[w.entered]), phase := 2)
    case Enqueue =>
      var name := Route(w.sent[w.entered]);
      var l := w.lanes.Of(name);
      w.(lanes := w.lanes.With(name, l.(queue := l.queue + [w.entered])), entered := w.entered + 1, phase := 0)
    case OnLane(name, move) =>
      var (l, posts) := Moved(w.Seen(), name, w.lanes.Of(name), move);
      w.(lanes := w.lanes.With(name, l), posted := w.posted + posts)
  }

  /** A run of the program, from the state the window opens in. */
  ghost predicate Run(lex: Lexicon, worlds: seq<World>, steps: seq<Step>) {
    && |worlds| == |steps| + 1
    && worlds[0] == Start(worlds[0].ui)
    && Opening(worlds[0].ui)
    && forall i :: 0 <= i < |steps| ==>
      Enabled(worlds[i], steps[i]) && worlds[i + 1] == Do(lex, worlds[i], steps[i])
  }

  predicate Opening(ui: Ui) {
    && ui.generation == 0 && ui.revision == 0 && ui.shown == 0
    && ui.background == None && ui.countQuery == None && ui.exact == None
    && ui.pages == map[] && ui.timers == [] && ui.scheduled == []
  }

  /// What every step keeps: the UI state

  ghost predicate UiInv(lex: Lexicon, ui: Ui) {
    && ui.shown <= ui.generation
    && (ui.pages != map[] ==> ui.shown == ui.generation && ui.lengthOf == Full(lex, ui))
    && (forall page :: page in ui.pages ==> ui.pages[page] == Asked(lex, ui))
    && (ui.exact.Some? ==> ui.exact.value.revision == ui.revision && ui.exact.value.of == Full(lex, ui))
    && (ui.background.Some? ==> ui.background.value == ui.revision)
    && (forall k :: 0 <= k < |ui.scheduled| ==>
          ui.scheduled[k] <= ui.revision
          && (ui.scheduled[k] == ui.revision ==> ui.background == Some(ui.revision)))
    && (forall j, k :: 0 <= j < k < |ui.scheduled| ==> ui.scheduled[j] < ui.scheduled[k])
    && (forall k :: 0 <= k < |ui.timers| ==> TimerOk(lex, ui, ui.timers[k]))
  }

  predicate TimerOk(lex: Lexicon, ui: Ui, t: Timer) {
    t.revision <= ui.revision && (t.revision == ui.revision ==> t.query == Full(lex, ui))
  }

  /// What every step keeps: the requests

  /** A request of the current revision is about the current query. */
  predicate Speaks(lex: Lexicon, ui: Ui, ask: Ask) {
    match ask
    case Search(_, _, question, _, _) => question.query == Full(lex, ui)
    case Explain(_, query) => query == ui.query
    case Count(_, query) => query == Full(lex, ui)
    case Facets(_, query, half) => half == Both ==> query == Full(lex, ui)
    case _ => true
  }

  predicate Known(lex: Lexicon, ui: Ui, ask: Ask) {
    && (ask.Search? ==>
          && ask.generation <= ui.generation
          && (ask.generation == ui.generation ==>
                ask.question == Asked(lex, ui) && ask.revision == ui.revision))
    && (ask.Revisioned() ==>
          && ask.revision <= ui.revision
          && (ask.revision == ui.revision ==> Speaks(lex, ui, ask)))
  }

  predicate Current(lex: Lexicon, ui: Ui, ask: Ask) {
    && Known(lex, ui, ask)
    && (ask.Search? ==> ask.generation == ui.generation)
    && (ask.Revisioned() ==> ask.revision == ui.revision)
  }

  /** An earlier request and a later one. */
  predicate Ordered(a: Ask, b: Ask) {
    && (a.Search? && b.Search? ==>
          && a.generation <= b.generation
          && (a.generation == b.generation ==> a.question == b.question && a.revision == b.revision)
          && (a.revision == b.revision ==> a.question.query == b.question.query))
    && (a.Revisioned() && b.Revisioned() ==> a.revision <= b.revision)
    && (a.Count? && b.Count? ==> a.revision < b.revision)
    && (a.Stop? ==> b.Stop? && b.lane != a.lane)
  }

  predicate CountKnown(ui: Ui, ask: Ask) {
    ask.Count? && ask.revision == ui.revision ==> ui.countQuery == Some(ui.revision)
  }

  ghost predicate SentInv(lex: Lexicon, ui: Ui, sent: seq<Ask>) {
    && (forall i :: 0 <= i < |sent| ==> Known(lex, ui, sent[i]) && CountKnown(ui, sent[i]))
    && (forall i, j :: 0 <= i < j < |sent| ==> Ordered(sent[i], sent[j]))
  }

  /** The UI state moves on and nothing has been sent for it yet. */
  lemma SentMovesOn(lex: Lexicon, ui: Ui, ui': Ui, sent: seq<Ask>)
    requires SentInv(lex, ui, sent)
    requires ui.generation <= ui'.generation && ui.revision <= ui'.revision
    requires ui.generation == ui'.generation ==>
               Asked(lex, ui) == Asked(lex, ui') && ui.revision == ui'.revision
    requires ui.revision == ui'.revision ==>
               ui.query == ui'.query
               && (ui.countQuery == Some(ui.revision) ==> ui'.countQuery == ui.countQuery)
    ensures SentInv(lex, ui', sent)
  {
  }

  /** A turn sends requests about the state it ends in. */
  lemma SentGrows(lex: Lexicon, ui: Ui, sent: seq<Ask>, ask: Ask)
    requires SentInv(lex, ui, sent)
    requires Current(lex, ui, ask) && !ask.Stop?
    requires forall i :: 0 <= i < |sent| ==> !sent[i].Stop?
    requires ask.Count? ==> ui.countQuery == Some(ui.revision)
                            && forall i :: 0 <= i < |sent| ==> sent[i].Count? ==> sent[i].revision < ui.revision
    ensures SentInv(lex, ui, sent + [ask])
  {
    forall i | 0 <= i < |sent| ensures Ordered(sent[i], ask) {
      assert Known(lex, ui, sent[i]);
    }
  }

  ghost predicate Going(sent: seq<Ask>) {
    forall i :: 0 <= i < |sent| ==> !sent[i].Stop?
  }

  /** The fallback count is asked for while nothing of its revision has been. */
  lemma CountGoesOutOnce(lex: Lexicon, ui: Ui, sent: seq<Ask>)
    requires SentInv(lex, ui, sent) && Going(sent) && ui.countQuery != Some(ui.revision)
    ensures var (ui', asks) := CountOnce(lex, ui); SentInv(lex, ui', sent + asks)
  {
    var (ui', asks) := CountOnce(lex, ui);
    SentMovesOn(lex, ui, ui', sent);
    forall i | 0 <= i < |sent| && sent[i].Count? ensures sent[i].revision < ui.revision {
      assert Known(lex, ui, sent[i]) && CountKnown(ui, sent[i]);
    }
    SentGrows(lex, ui', sent, asks[0]);
  }

  lemma DispatchKeeps(lex: Lexicon, ui: Ui, ui1: Ui, sent: seq<Ask>, rows: nat)
    requires UiInv(lex, ui) && SentInv(lex, ui, sent) && Going(sent)
    requires ui1 == AdvanceQuery(ui.(query := ui1.query))
             || ui1 == AdvanceOrder(ui.(sort := ui1.sort, descending := ui1.descending))
             || ui1 == ui
    ensures var (ui', asks) := Dispatch(lex, ui1, rows);
            UiInv(lex, ui') && SentInv(lex, ui', sent + asks)
  {
    var ui' := Dispatch(lex, ui1, rows).0;
    SentMovesOn(lex, ui, ui', sent);
    DispatchSends(lex, ui1, sent, rows);
  }

  lemma DispatchSends(lex: Lexicon, ui: Ui, sent: seq<Ask>, rows: nat)
    requires SentInv(lex, Dispatch(lex, ui, rows).0, sent) && Going(sent)
    ensures var (ui', asks) := Dispatch(lex, ui, rows); SentInv(lex, ui', sent + asks)
  {
    var (ui', asks) := Dispatch(lex, ui, rows);
    SentGrows(lex, ui', sent, asks[0]);
    SentGrows(lex, ui', sent + [asks[0]], asks[1]);
    assert sent + asks == sent + [asks[0]] + [asks[1]];
  }

  lemma RingKeeps(lex: Lexicon, ui: Ui, sent: seq<Ask>, t: Timer)
    requires UiInv(lex, ui) && SentInv(lex, ui, sent) && Going(sent) && TimerOk(lex, ui, t)
    ensures var (ui', asks) := Rung(lex, ui, t);
            UiInv(lex, ui') && SentInv(lex, ui', sent + asks)
  {
    var (ui', asks) := Rung(lex, ui, t);
    if asks == [] {
      assert sent + asks == sent;
    } else if |asks| == 1 {
      SentGrows(lex, ui, sent, asks[0]);
    } else {
      SentGrows(lex, ui, sent, asks[0]);
      SentGrows(lex, ui, sent + [asks[0]], asks[1]);
      var sent2 := sent + [asks[0]] + [asks[1]];
      if |asks| == 2 {
        assert sent + asks == sent2;
      } else {
        CountGoesOutOnce(lex, ui, sent2);
        assert sent + asks == sent2 + [asks[2]];
      }
    }
  }

  /** What an answer on the event loop may say: it answers a request that was sent,
      carries its tags, and was computed from what that request really asked. */
  predicate GotOk(sent: seq<Ask>, got: Got) {
    got.Answers() ==> got.id < |sent| && Carries(sent[got.id], got)
  }

  lemma LandKeeps(lex: Lexicon, ui: Ui, sent: seq<Ask>, got: Got, store: Store)
    requires UiInv(lex, ui) && SentInv(lex, ui, sent) && Going(sent) && GotOk(sent, got) && got.Landed?
    ensures var (ui', asks) := LandSearch(lex, ui, got, store);
            UiInv(lex, ui') && SentInv(lex, ui', sent + asks)
  {
    var (ui', asks) := LandSearch(lex, ui, got, store);
    if Stale(ui, got.generation) || !got.reply.Rows? {
      assert sent + asks == sent;
      return;
    }
    assert Known(lex, ui, sent[got.id]);
    assert got.reply.question == Asked(lex, ui);
    FiledKeeps(lex, ui, got, store);
    ScheduleKeeps(lex, Filed(ui, got, store));
    SentMovesOn(lex, ui, ui', sent);
    if asks == [] {
      assert sent + asks == sent;
    } else {
      SentGrows(lex, ui', sent, asks[0]);
    }
  }

  lemma FiledKeeps(lex: Lexicon, ui: Ui, got: Got, store: Store)
    requires UiInv(lex, ui) && got.Landed? && got.reply.Rows? && !Stale(ui, got.generation)
    requires got.reply.question == Asked(lex, ui)
    ensures UiInv(lex, Filed(ui, got, store))
  {
  }

  lemma ScheduleKeeps(lex: Lexicon, ui: Ui)
    requires UiInv(lex, ui)
    ensures UiInv(lex, ScheduleBackground(lex, ui))
  {
  }

  lemma CountedKeeps(lex: Lexicon, ui: Ui, sent: seq<Ask>, got: Got, store: Store)
    requires UiInv(lex, ui) && SentInv(lex, ui, sent) && Going(sent) && GotOk(sent, got) && got.Counted?
    ensures var (ui', asks) := Apply(lex, ui, got, store);
            UiInv(lex, ui') && SentInv(lex, ui', sent + asks)
  {
    var (ui', asks) := Apply(lex, ui, got, store);
    assert Known(lex, ui, sent[got.id]);
    assert sent + asks == sent;
    SentMovesOn(lex, ui, ui', sent);
  }

  lemma FacetedKeeps(lex: Lexicon, ui: Ui, sent: seq<Ask>, got: Got, store: Store)
    requires UiInv(lex, ui) && SentInv(lex, ui, sent) && Going(sent) && GotOk(sent, got) && got.Faceted?
    ensures var (ui', asks) := Apply(lex, ui, got, store);
            UiInv(lex, ui') && SentInv(lex, ui', sent + asks)
  {
    var (ui', asks) := Apply(lex, ui, got, store);
    assert Known(lex, ui, sent[got.id]);
    if asks == [] {
      assert sent + asks == sent;
      SentMovesOn(lex, ui, ui', sent);
    } else {
      CountGoesOutOnce(lex, ui, sent);
    }
  }

  lemma DeliverKeeps(lex: Lexicon, ui: Ui, sent: seq<Ask>, got: Got, store: Store)
    requires UiInv(lex, ui) && SentInv(lex, ui, sent) && Going(sent) && GotOk(sent, got)
    ensures var (ui', asks) := Apply(lex, ui, got, store);
            UiInv(lex, ui') && SentInv(lex, ui', sent + asks)
  {
    match got
    case Landed(_, _, _, _, _) => LandKeeps(lex, ui, sent, got, store);
    case Counted(_, _, _) => CountedKeeps(lex, ui, sent, got, store);
    case Faceted(_, _, _, _) => FacetedKeeps(lex, ui, sent, got, store);
    case _ => assert sent + [] == sent;
  }

  /// What every step keeps: the marks

  function NewestGeneration(sent: seq<Ask>): nat {
    if sent == [] then 0
    else
      var rest := NewestGeneration(sent[..|sent| - 1]);
      var last := sent[|sent| - 1];
      if last.Search? then Larger(rest, last.generation) else rest
  }

  function NewestRevision(sent: seq<Ask>): nat {
    if sent == [] then 0
    else
      var rest := NewestRevision(sent[..|sent| - 1]);
      var last := sent[|sent| - 1];
      if last.Revisioned() then Larger(rest, last.revision) else rest
  }

  ghost predicate MarksInv(w: World) {
    && w.entered <= |w.sent| && w.phase <= 2
    && (w.entered == |w.sent| ==> w.phase == 0)
    && w.marks.search == NewestGeneration(w.sent[..if w.phase >= 1 then w.entered + 1 else w.entered])
    && w.marks.query == NewestRevision(w.sent[..if w.phase >= 2 then w.entered + 1 else w.entered])
  }

  lemma {:induction false} NewestBounds(sent: seq<Ask>, i: nat)
    requires i < |sent|
    ensures sent[i].Search? ==> sent[i].generation <= NewestGeneration(sent)
    ensures sent[i].Revisioned() ==> sent[i].revision <= NewestRevision(sent)
  {
    if i < |sent| - 1 {
      NewestBounds(sent[..|sent| - 1], i);
    }
  }

  lemma {:induction false} NewestIsSent(sent: seq<Ask>)
    ensures NewestGeneration(sent) == 0
            || exists i :: 0 <= i < |sent| && sent[i].Search? && sent[i].generation == NewestGeneration(sent)
  {
    if sent != [] {
      var last := |sent| - 1;
      NewestIsSent(sent[..last]);
      if NewestGeneration(sent) != 0 && NewestGeneration(sent) == NewestGeneration(sent[..last]) {
        var i :| 0 <= i < last && sent[..last][i].Search?
                 && sent[..last][i].generation == NewestGeneration(sent[..last]);
        assert sent[i] == sent[..last][i];
      } else if NewestGeneration(sent) != 0 {
        assert sent[last].Search? && sent[last].generation == NewestGeneration(sent);
      }
    }
  }

  lemma {:induction false} NewestGrows(sent: seq<Ask>, n: nat)
    requires n < |sent|
    ensures NewestGeneration(sent[..n + 1]) == if sent[n].Search? then Larger(NewestGeneration(sent[..n]), sent[n].generation)
                                               else NewestGeneration(sent[..n])
    ensures NewestRevision(sent[..n + 1]) == if sent[n].Revisioned() then Larger(NewestRevision(sent[..n]), sent[n].revision)
                                             else NewestRevision(sent[..n])
  {
    assert sent[..n + 1][..n] == sent[..n];
  }

  lemma MarksAreBounds(w: World)
    requires MarksInv(w)
    ensures MarksBound(w.Seen())
  {
    var a := w.sent[..if w.phase >= 1 then w.entered + 1 else w.entered];
    var b := w.sent[..if w.phase >= 2 then w.entered + 1 else w.entered];
    forall j | 0 <= j < w.entered
      ensures w.sent[j].Search? ==> w.sent[j].generation <= w.marks.search
      ensures w.sent[j].Revisioned() ==> w.sent[j].revision <= w.marks.query
    {
      NewestBounds(a, j);
      NewestBounds(b, j);
    }
  }

  lemma RingAtKeeps(lex: Lexicon, ui: Ui, sent: seq<Ask>, at: nat)
    requires UiInv(lex, ui) && SentInv(lex, ui, sent) && Going(sent) && at < |ui.timers|
    ensures var (ui', asks) := Rung(lex, ui.(timers := ui.timers[..at] + ui.timers[at + 1..]), ui.timers[at]);
            UiInv(lex, ui') && SentInv(lex, ui', sent + asks)
  {
    var rest := ui.(timers := ui.timers[..at] + ui.timers[at + 1..]);
    assert TimerOk(lex, ui, ui.timers[at]);
    assert forall k :: 0 <= k < |rest.timers| ==> rest.timers[k] == ui.timers[if k < at then k else k + 1];
    SentMovesOn(lex, ui, rest, sent);
    RingKeeps(lex, rest, sent, ui.timers[at]);
  }

  /// What every step keeps: everything

  ghost predicate LanesInv(w: World) {
    forall name: LaneName :: LaneInv(w.Seen(), name, w.lanes.Of(name))
  }

  ghost predicate Inv(lex: Lexicon, w: World) {
    && UiInv(lex, w.ui)
    && SentInv(lex, w.ui, w.sent)
    && (w.open ==> Going(w.sent))
    && w.heard <= |w.posted|
    && (forall k :: 0 <= k < |w.posted| ==> GotOk(w.sent, w.posted[k].got))
    && MarksInv(w)
    && LanesInv(w)
  }

  lemma StartHolds(lex: Lexicon, ui: Ui)
    requires Opening(ui)
    ensures Inv(lex, Start(ui))
  {
    var w := Start(ui);
    forall name: LaneName ensures LaneInv(w.Seen(), name, w.lanes.Of(name)) {
      match name {
        case Fast =>
        case Slow =>
        case Wait =>
      }
    }
  }

  /** The part of a turn that is the UI thread's alone. */
  lemma ActKeeps(lex: Lexicon, w: World, act: Act)
    requires Inv(lex, w) && CanTurn(w, act)
    ensures var (ui, asks) := Acted(lex, w, act);
            UiInv(lex, ui) && SentInv(lex, ui, w.sent + asks)
  {
    match act
    case Begin(rows) =>
      DispatchKeeps(lex, w.ui, w.ui, w.sent, rows);
    case Type(text, rows) =>
      DispatchKeeps(lex, w.ui, AdvanceQuery(w.ui.(query := text)), w.sent, rows);
    case Sort(key, startsDown, rows) =>
      SortKeeps(lex, w.ui, w.sent, key, startsDown, rows);
    case Fetch(page) =>
      SentGrows(lex, w.ui, w.sent, FetchAsk(lex, w.ui, page));
    case Chore(ask) =>
      SentGrows(lex, w.ui, w.sent, ask);
    case Ring(at) =>
      RingAtKeeps(lex, w.ui, w.sent, at);
    case Deliver(store) =>
      DeliverKeeps(lex, w.ui, w.sent, w.posted[w.heard].got, store);
    case Close =>
      CloseKeeps(lex, w.ui, w.sent);
  }

  lemma CloseKeeps(lex: Lexicon, ui: Ui, sent: seq<Ask>)
    requires SentInv(lex, ui, sent) && Going(sent)
    ensures SentInv(lex, ui, sent + [Stop(Fast), Stop(Slow), Stop(Wait)])
  {
    var stops := [Stop(Fast), Stop(Slow), Stop(Wait)];
    var all := sent + stops;
    forall i, j | 0 <= i < j < |all| ensures Ordered(all[i], all[j]) {
      assert all[i] == if i < |sent| then sent[i] else stops[i - |sent|];
      assert all[j] == if j < |sent| then sent[j] else stops[j - |sent|];
    }
  }

  lemma OnlyClosingStops(lex: Lexicon, w: World, act: Act)
    requires CanTurn(w, act) && !act.Close?
    ensures Going(Acted(lex, w, act).1)
  {
  }

  lemma SortKeeps(lex: Lexicon, ui: Ui, sent: seq<Ask>, key: string, startsDown: bool, rows: nat)
    requires UiInv(lex, ui) && SentInv(lex, ui, sent) && Going(sent)
    ensures var (ui', asks) := SortedBy(lex, ui, key, startsDown, rows);
            UiInv(lex, ui') && SentInv(lex, ui', sent + asks)
  {
    var (ui', asks) := SortedBy(lex, ui, key, startsDown, rows);
    SentGrows(lex, ui, sent, Errand);
    DispatchKeeps(lex, ui, Turned(ui, key, startsDown), sent + [Errand], rows);
    assert sent + asks == sent + [Errand] + asks[1..];
  }

  lemma TurnKeeps(lex: Lexicon, w: World, act: Act)
    requires Inv(lex, w) && CanTurn(w, act)
    ensures Inv(lex, Do(lex, w, Turn(act)))
  {
    var v := Do(lex, w, Turn(act));
    ActKeeps(lex, w, act);
    if !act.Close? {
      OnlyClosingStops(lex, w, act);
    }
    assert v.sent[..v.entered] == w.sent[..w.entered];
    forall name: LaneName ensures LaneInv(v.Seen(), name, v.lanes.Of(name)) {
      SceneMovesOn(w.Seen(), v.Seen(), name, w.lanes.Of(name));
    }
    forall k | 0 <= k < |v.posted| ensures GotOk(v.sent, v.posted[k].got) {
      assert GotOk(w.sent, w.posted[k].got);
    }
  }

  lemma NoteKeeps(lex: Lexicon, w: World, step: Step)
    requires Inv(lex, w) && Enabled(w, step) && (step.NoteTheSearch? || step.NoteTheQuery?)
    ensures Inv(lex, Do(lex, w, step))
  {
    var v := Do(lex, w, step);
    NewestGrows(w.sent, w.entered);
    forall name: LaneName ensures LaneInv(v.Seen(), name, v.lanes.Of(name)) {
      SceneMovesOn(w.Seen(), v.Seen(), name, w.lanes.Of(name));
    }
  }

  lemma EnterKeeps(lex: Lexicon, w: World)
    requires Inv(lex, w) && Enabled(w, Enqueue)
    ensures Inv(lex, Do(lex, w, Enqueue))
  {
    EnteredScene(lex, w);
    EnteredLanes(w, Do(lex, w, Enqueue));
  }

  lemma EnteredScene(lex: Lexicon, w: World)
    requires Enabled(w, Enqueue)
    ensures var v := Do(lex, w, Enqueue);
            v.Seen() == w.Seen().(entered := w.entered + 1) && v.lanes == Entered(w.Seen(), w.lanes)
  {
  }

  lemma EnteredLanes(w: World, v: World)
    requires LanesInv(w) && w.entered < |w.sent|
    requires v.Seen() == w.Seen().(entered := w.entered + 1) && v.lanes == Entered(w.Seen(), w.lanes)
    ensures LanesInv(v)
  {
    forall name: LaneName ensures LaneInv(v.Seen(), name, v.lanes.Of(name)) {
      EnteredLane(w.Seen(), v.Seen(), w.lanes, v.lanes, name);
    }
  }

  ghost function Entered(s: Scene, lanes: Three): Three
    requires s.entered < |s.sent|
  {
    var name := Route(s.sent[s.entered]);
    lanes.With(name, lanes.Of(name).(queue := lanes.Of(name).queue + [s.entered]))
  }

  lemma EnteredLane(s: Scene, t: Scene, lanes: Three, after: Three, name: LaneName)
    requires s.entered < |s.sent| && LaneInv(s, name, lanes.Of(name))
    requires t == s.(entered := s.entered + 1) && after == Entered(s, lanes)
    ensures LaneInv(t, name, after.Of(name))
  {
    if name == Route(s.sent[s.entered]) {
      EnqueueKeeps(s, name, lanes.Of(name));
    } else {
      EnqueueElsewhereKeeps(s, name, lanes.Of(name));
    }
  }

  lemma LaneStepKeeps(lex: Lexicon, w: World, name: LaneName, move: Move)
    requires Inv(lex, w) && Enabled(w, OnLane(name, move))
    ensures Inv(lex, Do(lex, w, OnLane(name, move)))
  {
    var l := w.lanes.Of(name);
    var (after, posts) := Moved(w.Seen(), name, l, move);
    MarksAreBounds(w);
    MoveKeeps(w.Seen(), name, l, move);
    MovedLanes(w, w.(lanes := w.lanes.With(name, after), posted := w.posted + posts), name, after);
    AnswersAreOk(w.Seen(), name, l, move);
    PostedGrows(w.sent, w.posted, posts);
  }

  lemma MovedLanes(w: World, v: World, name: LaneName, l: Lane)
    requires LanesInv(w) && LaneInv(w.Seen(), name, l)
    requires v.Seen() == w.Seen() && v.lanes == w.lanes.With(name, l)
    ensures LanesInv(v)
  {
    forall other: LaneName ensures LaneInv(v.Seen(), other, v.lanes.Of(other)) {
      assert other != name ==> LaneInv(w.Seen(), other, w.lanes.Of(other));
    }
  }

  lemma AnswersAreOk(s: Scene, name: LaneName, l: Lane, move: Move)
    requires LaneInv(s, name, l) && Can(s, l, move)
    ensures var posts := Moved(s, name, l, move).1;
            forall k :: 0 <= k < |posts| ==> GotOk(s.sent, posts[k].got)
  {
  }

  lemma PostedGrows(sent: seq<Ask>, posted: seq<Post>, posts: seq<Post>)
    requires forall k :: 0 <= k < |posted| ==> GotOk(sent, posted[k].got)
    requires forall k :: 0 <= k < |posts| ==> GotOk(sent, posts[k].got)
    ensures forall k :: 0 <= k < |posted + posts| ==> GotOk(sent, (posted + posts)[k].got)
  {
  }

  lemma StepKeeps(lex: Lexicon, w: World, step: Step)
    requires Inv(lex, w) && Enabled(w, step)
    ensures Inv(lex, Do(lex, w, step))
  {
    match step
    case Turn(act) => TurnKeeps(lex, w, act);
    case NoteTheSearch => NoteKeeps(lex, w, step);
    case NoteTheQuery => NoteKeeps(lex, w, step);
    case Enqueue => EnterKeeps(lex, w);
    case OnLane(name, move) => LaneStepKeeps(lex, w, name, move);
  }

  lemma {:induction false} AlwaysHolds(lex: Lexicon, worlds: seq<World>, steps: seq<Step>, i: nat)
    requires Run(lex, worlds, steps) && i < |worlds|
    ensures Inv(lex, worlds[i])
  {
    if i == 0 {
      StartHolds(lex, worlds[0].ui);
    } else {
      AlwaysHolds(lex, worlds, steps, i - 1);
      StepKeeps(lex, worlds[i - 1], steps[i - 1]);
    }
  }
}
