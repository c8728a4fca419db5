/** What the search protocol promises, in every interleaving of every run. */

module Promises {
  import opened Options
  import opened Asks
  import opened WindowState
  import opened Lanes
  import opened Protocol
  import opened Answers

  /// The list

  /** Every page in hand answers the query, order and direction on screen now; while
      any is in hand, the generation shown is the newest, and the list's length was
      worked out from a count of this very query. */
  lemma ListAnswersTheQuestion(lex: Lexicon, worlds: seq<World>, steps: seq<Step>, i: nat)
    requires Run(lex, worlds, steps) && i < |worlds|
    ensures var ui := worlds[i].ui;
            && (forall page :: page in ui.pages ==> ui.pages[page] == Asked(lex, ui))
            && (ui.pages != map[] ==> ui.shown == ui.generation && ui.lengthOf == Full(lex, ui))
  {
    AlwaysHolds(lex, worlds, steps, i);
  }

  /** An exact count that is kept is a count of the current query, of the current
      revision: filing a page may use it without looking. */
  lemma ExactCountIsCurrent(lex: Lexicon, worlds: seq<World>, steps: seq<Step>, i: nat)
    requires Run(lex, worlds, steps) && i < |worlds|
    ensures var ui := worlds[i].ui;
            ui.exact.Some? ==> ui.exact.value.revision == ui.revision && ui.exact.value.of == Full(lex, ui)
  {
    AlwaysHolds(lex, worlds, steps, i);
  }

  lemma DeliverShowsNoLess(lex: Lexicon, ui: Ui, got: Got, store: Store)
    requires ui.shown <= ui.generation
    ensures var ui' := Apply(lex, ui, got, store).0;
            ui.shown <= ui'.shown && ui.generation == ui'.generation && ui.revision == ui'.revision
  {
    match got
    case Landed(_, _, _, _, _) =>
    case Counted(_, _, _) =>
    case Faceted(_, _, _, _) =>
    case _ =>
  }

  lemma TurnShowsNoLess(lex: Lexicon, w: World, act: Act)
    requires UiInv(lex, w.ui) && CanTurn(w, act)
    ensures var ui' := Acted(lex, w, act).0;
            w.ui.shown <= ui'.shown && w.ui.generation <= ui'.generation && w.ui.revision <= ui'.revision
  {
    if act.Deliver? {
      DeliverShowsNoLess(lex, w.ui, w.posted[w.heard].got, act.store);
    }
  }

  lemma StepShowsNoLess(lex: Lexicon, w: World, step: Step)
    requires UiInv(lex, w.ui) && Enabled(w, step)
    ensures var ui' := Do(lex, w, step).ui;
            w.ui.shown <= ui'.shown && w.ui.generation <= ui'.generation && w.ui.revision <= ui'.revision
  {
    if step.Turn? {
      TurnShowsNoLess(lex, w, step.act);
    }
  }

  /** The list never goes back to an older question. */
  lemma {:induction false} ShownNeverGoesBack(lex: Lexicon, worlds: seq<World>, steps: seq<Step>, i: nat, j: nat)
    requires Run(lex, worlds, steps) && i <= j < |worlds|
    ensures worlds[i].ui.shown <= worlds[j].ui.shown
    ensures worlds[i].ui.generation <= worlds[j].ui.generation
    ensures worlds[i].ui.revision <= worlds[j].ui.revision
    decreases j - i
  {
    if i < j {
      AlwaysHolds(lex, worlds, steps, i);
      StepShowsNoLess(lex, worlds[i], steps[i]);
      ShownNeverGoesBack(lex, worlds, steps, i + 1, j);
    }
  }

  /** A generation, and what it was for, never mean two things: not even among
      requests sent long ago and long forgotten. */
  lemma GenerationNamesTheQuestion(lex: Lexicon, worlds: seq<World>, steps: seq<Step>, i: nat, a: nat, b: nat)
    requires Run(lex, worlds, steps) && i < |worlds|
    requires a < |worlds[i].sent| && b < |worlds[i].sent|
    requires worlds[i].sent[a].Search? && worlds[i].sent[b].Search?
    ensures var x, y := worlds[i].sent[a], worlds[i].sent[b];
            && (x.generation == y.generation ==> x.question == y.question && x.revision == y.revision)
            && (x.revision == y.revision ==> x.question.query == y.question.query)
  {
    AlwaysHolds(lex, worlds, steps, i);
    if a < b {
      assert Ordered(worlds[i].sent[a], worlds[i].sent[b]);
    } else if b < a {
      assert Ordered(worlds[i].sent[b], worlds[i].sent[a]);
    }
  }

  /** Each matching set schedules the sidebar at most once and sends at most one
      fallback count. */
  lemma OncePerMatchingSet(lex: Lexicon, worlds: seq<World>, steps: seq<Step>, i: nat)
    requires Run(lex, worlds, steps) && i < |worlds|
    ensures var w := worlds[i];
            && (forall j, k :: 0 <= j < k < |w.ui.scheduled| ==> w.ui.scheduled[j] != w.ui.scheduled[k])
            && (forall j, k :: 0 <= j < k < |w.sent| && w.sent[j].Count? && w.sent[k].Count?
                  ==> w.sent[j].revision != w.sent[k].revision)
  {
    AlwaysHolds(lex, worlds, steps, i);
    var w := worlds[i];
    forall j, k | 0 <= j < k < |w.sent| && w.sent[j].Count? && w.sent[k].Count?
      ensures w.sent[j].revision != w.sent[k].revision
    {
      assert Ordered(w.sent[j], w.sent[k]);
    }
  }

  /** Every search ever sent is for a whole page, from where the page begins, or for the
      first rows of the first page. */
  lemma EverySearchIsAPage(lex: Lexicon, worlds: seq<World>, steps: seq<Step>, i: nat, id: nat)
    requires Run(lex, worlds, steps) && i < |worlds| && id < |worlds[i].sent| && worlds[i].sent[id].Search?
    ensures var ask := worlds[i].sent[id];
            ask.offset % 200 == 0 && (ask.limit == 200 || (ask.offset == 0 && 20 <= ask.limit < 200))
  {
    AlwaysAnswers(lex, worlds, steps, i);
  }

  /** Following the list asks for just the page it is missing, under the stamps on screen. */
  lemma FetchAsksForThePage(lex: Lexicon, worlds: seq<World>, steps: seq<Step>, i: nat, page: nat)
    requires Run(lex, worlds, steps) && i < |steps| && steps[i] == Turn(Fetch(page))
    ensures var ui := worlds[i].ui;
            var full := lex.trim(ui.query);
            && worlds[i + 1].ui == ui
            && worlds[i + 1].sent == worlds[i].sent
                 + [Search(ui.generation, ui.revision, Question(full, lex.orderFor(full, ui.sort), ui.descending),
                           page * 200, 200)]
  {
  }

  /// The lanes

  /** Every request that has been enqueued is in exactly one place: queued on its
      lane, in that lane's hands, or done with. */
  lemma EveryRequestIsAccountedFor(lex: Lexicon, worlds: seq<World>, steps: seq<Step>, i: nat, id: nat)
    requires Run(lex, worlds, steps) && i < |worlds| && id < worlds[i].entered <= |worlds[i].sent|
    ensures var name := Route(worlds[i].sent[id]);
            var l := worlds[i].lanes.Of(name);
               var queued, held, done := id in l.queue, l.at.Busy() && l.at.id == id, id in l.fates;
               (queued || held || done) && !(queued && held) && !(queued && done) && !(held && done)
  {
    AlwaysHolds(lex, worlds, steps, i);
    var w := worlds[i];
    var l := w.lanes.Of(Route(w.sent[id]));
    assert LaneInv(w.Seen(), Route(w.sent[id]), l);
    assert Mine(w.Seen(), Route(w.sent[id]), id);
  }

  /** What reaches the service was, at its lane's last look, the newest of everything
      published by then, whether on a lane yet or not; and a lane's calls go out in the
      order they were asked. */
  lemma CallsAreTheNewest(lex: Lexicon, worlds: seq<World>, steps: seq<Step>, i: nat, name: LaneName, k: nat)
    requires Run(lex, worlds, steps) && i < |worlds|
    requires k < |worlds[i].lanes.Of(name).calls|
    ensures var calls := worlds[i].lanes.Of(name).calls;
            && Newest(worlds[i].sent, calls[k].searches, calls[k].queries, calls[k].id)
            && forall j :: 0 <= j < k ==> calls[j].id < calls[k].id
  {
    AlwaysHolds(lex, worlds, steps, i);
    assert CallOk(worlds[i].Seen(), worlds[i].lanes.Of(name), worlds[i].lanes.Of(name).calls[k]);
  }

  /** The `j`th request is on its lane, or about to be and `notes` of its two marks are
      published. */
  predicate Published(w: World, j: nat, notes: nat) {
    j < |w.sent| && (j < w.entered || (j == w.entered && w.phase >= notes))
  }

  /** A search whose second check passes carries the newest generation anything has
      published, and any other request the newest revision. */
  lemma PassedCheckIsNewest(lex: Lexicon, worlds: seq<World>, steps: seq<Step>, i: nat, name: LaneName)
    requires Run(lex, worlds, steps) && i < |steps| && steps[i] == OnLane(name, Recheck)
    requires worlds[i + 1].lanes.Of(name).at.Calling?
    ensures var w, id := worlds[i], worlds[i + 1].lanes.Of(name).at.id;
            && id < |w.sent|
            && (w.sent[id].Search? ==>
                  forall j: nat :: Published(w, j, 1) && w.sent[j].Search? ==>
                    w.sent[j].generation <= w.sent[id].generation)
            && (!w.sent[id].Search? && w.sent[id].Revisioned() ==>
                  forall j: nat :: Published(w, j, 2) && w.sent[j].Revisioned() ==>
                    w.sent[j].revision <= w.sent[id].revision)
  {
    AlwaysHolds(lex, worlds, steps, i);
    var w := worlds[i];
    var l := w.lanes.Of(name);
    MarksAreBounds(w);
    assert LaneInv(w.Seen(), name, l) && Mine(w.Seen(), name, l.at.id);
    CheckedIsNewest(w.Seen(), name, l.at.id);
  }

  /** A later message that makes a dropped search unneeded. */
  predicate TakesOver(sent: seq<Ask>, id: nat, j: int)
    requires id < |sent| && sent[id].Search?
  {
    id < j < |sent| && (sent[j].Stop? || (sent[j].Search? && sent[id].generation <= sent[j].generation))
  }

  /** A generation noted above this search's belongs to a search sent after it. */
  lemma NotedIsLater(lex: Lexicon, w: World, id: nat)
    requires SentInv(lex, w.ui, w.sent) && MarksInv(w)
    requires id < |w.sent| && w.sent[id].Search? && w.sent[id].generation < w.marks.search
    ensures exists j :: TakesOver(w.sent, id, j)
  {
    var noted := w.sent[..if w.phase >= 1 then w.entered + 1 else w.entered];
    NewestIsSent(noted);
    var j :| 0 <= j < |noted| && noted[j].Search? && noted[j].generation == w.marks.search;
    assert w.sent[j] == noted[j];
    LaterIsNoOlder(lex, w.ui, w.sent, j, id);
    assert TakesOver(w.sent, id, j);
  }

  lemma LaterIsNoOlder(lex: Lexicon, ui: Ui, sent: seq<Ask>, a: nat, b: nat)
    requires SentInv(lex, ui, sent) && a < |sent| && b < |sent| && sent[a].Search? && sent[b].Search?
    ensures a <= b ==> sent[a].generation <= sent[b].generation
  {
    if a < b {
      assert Ordered(sent[a], sent[b]);
    }
  }

  /** A search the fast lane dropped without asking was dropped for a later message:
      a search no older, or the closing of the window. */
  lemma DroppedForALaterOne(lex: Lexicon, worlds: seq<World>, steps: seq<Step>, i: nat, id: nat)
    requires Run(lex, worlds, steps) && i < |worlds|
    requires id in worlds[i].lanes.Of(Fast).fates && id < |worlds[i].sent| && worlds[i].sent[id].Search?
    requires var fate := worlds[i].lanes.Of(Fast).fates[id]; fate.Swallowed? || fate.Outdated? || fate.Halted?
    ensures exists j :: TakesOver(worlds[i].sent, id, j)
  {
    AlwaysHolds(lex, worlds, steps, i);
    var w := worlds[i];
    var l := w.lanes.Of(Fast);
    assert LaneInv(w.Seen(), Fast, l);
    assert FateOk(w.Seen(), Fast, l, id);
    if l.fates[id].Swallowed? {
      var j := l.fates[id].newer;
      assert Mine(w.Seen(), Fast, j);
      assert Ordered(w.sent[id], w.sent[j]);
      assert TakesOver(w.sent, id, j);
    } else {
      NotedIsLater(lex, w, id);
    }
  }

  /** No lost last intent: with the UI thread done, the window open and the fast lane
      at rest, the last search sent has been called, or its lane could not connect. */
  lemma LastIntentIsCalled(lex: Lexicon, worlds: seq<World>, steps: seq<Step>, i: nat, last: nat)
    requires Run(lex, worlds, steps) && i < |worlds|
    requires worlds[i].open && worlds[i].Quiet()
    requires worlds[i].lanes.Of(Fast).queue == [] && worlds[i].lanes.Of(Fast).at.Idle?
    requires last < |worlds[i].sent| && worlds[i].sent[last].Search?
    requires forall j :: last < j < |worlds[i].sent| ==> !worlds[i].sent[j].Search?
    ensures var l := worlds[i].lanes.Of(Fast);
            Called(l, last) || (last in l.fates && l.fates[last].Unconnected?)
  {
    AlwaysHolds(lex, worlds, steps, i);
    EveryRequestIsAccountedFor(lex, worlds, steps, i, last);
    var w := worlds[i];
    var l := w.lanes.Of(Fast);
    assert LaneInv(w.Seen(), Fast, l) && FateOk(w.Seen(), Fast, l, last);
    if l.fates[last].Swallowed? || l.fates[last].Outdated? || l.fates[last].Halted? {
      DroppedForALaterOne(lex, worlds, steps, i, last);
    }
  }

  /** How many steps the three lanes have left in them. */
  function AllWork(w: World): nat
  {
    Work(w.lanes.Of(Fast)) + Work(w.lanes.Of(Slow)) + Work(w.lanes.Of(Wait))
  }

  lemma LaneStepUsesWork(lex: Lexicon, w: World, step: Step)
    requires LanesInv(w) && step.OnLane? && Enabled(w, step)
    ensures LanesInv(w) && var v := Do(lex, w, step);
            AllWork(v) < AllWork(w)
  {
    assert LaneInv(w.Seen(), step.name, w.lanes.Of(step.name));
    LanesRunOut(w.Seen(), step.name, w.lanes.Of(step.name));
  }

  /** Silence from the UI thread cannot last: with only lanes moving, every step uses
      up work, so the lanes come to rest within the work there was. */
  lemma {:induction false} SilenceEnds(lex: Lexicon, worlds: seq<World>, steps: seq<Step>, i: nat, j: nat)
    requires Run(lex, worlds, steps) && i <= j < |worlds|
    requires forall k :: i <= k < j ==> steps[k].OnLane?
    ensures j - i + AllWork(worlds[j]) <= AllWork(worlds[i])
    decreases j - i
  {
    if i < j {
      AlwaysHolds(lex, worlds, steps, i);
      AlwaysHolds(lex, worlds, steps, i + 1);
      LaneStepUsesWork(lex, worlds[i], steps[i]);
      SilenceEnds(lex, worlds, steps, i + 1, j);
    }
  }

  /** A world where no lane can move is one where each has stopped, or is idle with nothing
      queued; and none stops while the window is open. */
  lemma RestIsDone(lex: Lexicon, worlds: seq<World>, steps: seq<Step>, i: nat, name: LaneName)
    requires Run(lex, worlds, steps) && i < |worlds|
    ensures var l := worlds[i].lanes.Of(name);
            !l.at.Stopped? ==>
              ((exists move :: Enabled(worlds[i], OnLane(name, move))) <==> !(l.at.Idle? && l.queue == []))
    ensures worlds[i].open ==> !worlds[i].lanes.Of(name).at.Stopped?
  {
    AlwaysHolds(lex, worlds, steps, i);
    var w := worlds[i];
    var l := w.lanes.Of(name);
    assert LaneInv(w.Seen(), name, l);
    LanesRunOut(w.Seen(), name, l);
    if move :| Can(w.Seen(), l, move) {
      assert Enabled(w, OnLane(name, move));
    }
    if l.at.Stopped? {
      var id :| id in l.fates && l.fates[id].Halted?;
      assert FateOk(w.Seen(), name, l, id) && Mine(w.Seen(), name, id);
    }
  }

  /** Nothing is ever queued on a lane behind its `Stop`, so draining never loses one. */
  lemma NothingBehindStop(lex: Lexicon, worlds: seq<World>, steps: seq<Step>, i: nat, a: nat, b: nat)
    requires Run(lex, worlds, steps) && i < |worlds| && a < b < |worlds[i].sent|
    requires worlds[i].sent[a].Stop?
    ensures Route(worlds[i].sent[a]) != Route(worlds[i].sent[b])
  {
    AlwaysHolds(lex, worlds, steps, i);
    assert Ordered(worlds[i].sent[a], worlds[i].sent[b]);
  }

  lemma StopIsNeverSwallowed(lex: Lexicon, worlds: seq<World>, steps: seq<Step>, i: nat, name: LaneName, id: nat)
    requires Run(lex, worlds, steps) && i < |worlds|
    requires id in worlds[i].lanes.Of(name).fates && worlds[i].lanes.Of(name).fates[id].Swallowed?
    ensures id < |worlds[i].sent| && !worlds[i].sent[id].Stop?
  {
    AlwaysHolds(lex, worlds, steps, i);
    var w := worlds[i];
    var l := w.lanes.Of(name);
    assert LaneInv(w.Seen(), name, l) && FateOk(w.Seen(), name, l, id);
    if w.sent[id].Stop? {
      NothingBehindStop(lex, worlds, steps, i, id, l.fates[id].newer);
    }
  }

  /** With the window closed, every lane has stopped or still has something to do: none
      waits for ever. */
  lemma ClosingStopsEveryLane(lex: Lexicon, worlds: seq<World>, steps: seq<Step>, i: nat, name: LaneName)
    requires Run(lex, worlds, steps) && i < |worlds| && !worlds[i].open && worlds[i].Quiet()
    ensures var l := worlds[i].lanes.Of(name); l.at.Stopped? || l.at.Busy() || l.queue != []
  {
    AlwaysAnswers(lex, worlds, steps, i);
    var w := worlds[i];
    var l := w.lanes.Of(name);
    assert Stop(name) in w.sent;
    var id :| 0 <= id < |w.sent| && w.sent[id] == Stop(name);
    assert LaneInv(w.Seen(), name, l) && Mine(w.Seen(), name, id);
    if id in l.fates {
      assert FateOk(w.Seen(), name, l, id);
      if l.fates[id].Swallowed? {
        StopIsNeverSwallowed(lex, worlds, steps, i, name, id);
      }
    }
  }

  /** The interactive lane has searches and the closing, the waiting one waits and the
      closing, and the third all the rest. */
  lemma EachLaneHasItsOwn(lex: Lexicon, worlds: seq<World>, steps: seq<Step>, i: nat, name: LaneName, id: nat)
    requires Run(lex, worlds, steps) && i < |worlds|
    requires var l := worlds[i].lanes.Of(name); id in l.queue || id in l.fates || (l.at.Busy() && l.at.id == id)
    ensures id < |worlds[i].sent| && var ask := worlds[i].sent[id];
            match name
            case Fast => ask.Search? || ask == Stop(Fast)
            case Wait => ask.Await? || ask == Stop(Wait)
            case Slow => ask.Facets? || ask.Explain? || ask.Count? || ask.Errand? || ask == Stop(Slow)
  {
    AlwaysHolds(lex, worlds, steps, i);
    var w := worlds[i];
    assert LaneInv(w.Seen(), name, w.lanes.Of(name));
    assert Mine(w.Seen(), name, id);
  }

  /// The answers

  /** A call that was answered has been posted as the answer to its own request, one
      that was refused as the refusal, one cut off as the loss; and each of them once. */
  lemma EveryCallIsPostedOnce(lex: Lexicon, worlds: seq<World>, steps: seq<Step>, i: nat, name: LaneName, id: nat)
    requires Run(lex, worlds, steps) && i < |worlds| && id in worlds[i].lanes.Of(name).fates
    ensures var w, fate := worlds[i], worlds[i].lanes.Of(name).fates[id];
            && id < |w.sent|
            && (fate.Answered? ==> exists k :: EndsAt(w.posted, name, id, k) && Carries(w.sent[id], w.posted[k].got))
            && (fate.Refused? ==> exists k :: EndsAt(w.posted, name, id, k) && Denies(w.sent[id], w.posted[k].got))
            && (fate.CutOff? ==> exists k :: EndsAt(w.posted, name, id, k) && w.posted[k].got.Lost?)
            && (forall j, k :: EndsAt(w.posted, name, id, j) && EndsAt(w.posted, name, id, k) ==> j == k)
  {
    AlwaysAnswers(lex, worlds, steps, i);
    var w := worlds[i];
    var l := w.lanes.Of(name);
    assert LaneInv(w.Seen(), name, l) && Mine(w.Seen(), name, id);
    assert PostsOk(w.Seen(), name, l, w.posted);
    if l.fates[id].Reached() {
      var k :| EndsAt(w.posted, name, id, k);
      assert PostOk(w.Seen(), l, w.posted[k].got);
    }
  }

  /** Nothing is posted about a request but what became of it. */
  lemma OnlyWhatHappenedIsPosted(lex: Lexicon, worlds: seq<World>, steps: seq<Step>, i: nat, k: nat)
    requires Run(lex, worlds, steps) && i < |worlds| && k < |worlds[i].posted| && !worlds[i].posted[k].got.Back?
    ensures var w, got := worlds[i], worlds[i].posted[k].got;
            var l := w.lanes.Of(worlds[i].posted[k].lane);
            && got.id < |w.sent| && got.id in l.fates
            && (got.Answers() ==> l.fates[got.id].Answered? && Carries(w.sent[got.id], got))
            && (got.Denied? ==> l.fates[got.id].Refused? && Denies(w.sent[got.id], got))
            && (got.Lost? ==> l.fates[got.id].CutOff? || l.fates[got.id].Unconnected?)
  {
    AlwaysAnswers(lex, worlds, steps, i);
    var w := worlds[i];
    var name := w.posted[k].lane;
    assert PostsOk(w.Seen(), name, w.lanes.Of(name), w.posted);
    assert PostOk(w.Seen(), w.lanes.Of(name), w.posted[k].got);
  }

  /** What became of a lane's calls is posted in the order they were made. */
  lemma PostedInCallOrder(lex: Lexicon, worlds: seq<World>, steps: seq<Step>, i: nat, name: LaneName,
                          a: nat, b: nat, j: nat, k: nat)
    requires Run(lex, worlds, steps) && i < |worlds|
    requires a < |worlds[i].lanes.Of(name).calls| && b < |worlds[i].lanes.Of(name).calls|
    requires EndsAt(worlds[i].posted, name, worlds[i].lanes.Of(name).calls[a].id, j)
    requires EndsAt(worlds[i].posted, name, worlds[i].lanes.Of(name).calls[b].id, k)
    ensures a < b <==> j < k
  {
    AlwaysAnswers(lex, worlds, steps, i);
    var w := worlds[i];
    var l := w.lanes.Of(name);
    assert LaneInv(w.Seen(), name, l);
    assert PostsOk(w.Seen(), name, l, w.posted);
    LaterCallsLaterPosts(w.Seen(), name, l, w.posted, a, b, j, k);
  }

  lemma LaterCallsLaterPosts(s: Scene, name: LaneName, l: Lane, posted: seq<Post>, a: nat, b: nat, j: nat, k: nat)
    requires CallsOk(s, l) && PostsOk(s, name, l, posted) && a < |l.calls| && b < |l.calls|
    requires EndsAt(posted, name, l.calls[a].id, j) && EndsAt(posted, name, l.calls[b].id, k)
    ensures a < b <==> j < k
  {
    assert About(posted, name, j) && About(posted, name, k);
  }

  /** What a step of a lane puts on the event loop, and where it leaves the call and the
      connection. */
  lemma StepsPost(lex: Lexicon, worlds: seq<World>, steps: seq<Step>, i: nat, name: LaneName, move: Move)
    requires Run(lex, worlds, steps) && i < |steps| && steps[i] == OnLane(name, move)
    ensures var w, l, m := worlds[i], worlds[i].lanes.Of(name), worlds[i + 1].lanes.Of(name);
            w.posted <= worlds[i + 1].posted &&
            var posts := worlds[i + 1].posted[|w.posted|..];
            match move
            case Reply(reply) =>
              && l.at.Calling? && l.at.id < |w.sent| && m.fates == l.fates[l.at.id := Answered]
              && m.connected && |posts| == 1 && posts[0].lane == name && posts[0].got.Answers()
              && posts[0].got.id == l.at.id && Carries(w.sent[l.at.id], posts[0].got)
              && (w.sent[l.at.id].Search? || w.sent[l.at.id].Count? || w.sent[l.at.id].Facets?
                  ==> posts[0].got.reply == reply)
            case Refuse =>
              && l.at.Calling? && l.at.id < |w.sent| && m.fates == l.fates[l.at.id := Refused]
              && m.connected && |posts| == 1 && posts[0].lane == name
              && posts[0].got.Denied? && posts[0].got.id == l.at.id && Denies(w.sent[l.at.id], posts[0].got)
            case Cut =>
              && l.at.Calling? && m.fates == l.fates[l.at.id := CutOff]
              && !m.connected && posts == [Post(name, Lost(l.at.id))]
            case Unreachable =>
              && l.at.Connect? && m.fates == l.fates[l.at.id := Unconnected]
              && !m.connected && posts == if l.wasDown then [] else [Post(name, Lost(l.at.id))]
            case Connected => m.connected && posts == if l.wasDown then [Post(name, Back)] else []
            case _ => m.connected == l.connected && posts == []
  {
    AlwaysHolds(lex, worlds, steps, i);
    var w := worlds[i];
    assert LaneInv(w.Seen(), name, w.lanes.Of(name));
    var posts := Moved(w.Seen(), name, w.lanes.Of(name), move).1;
    assert worlds[i + 1].posted[|w.posted|..] == posts;
  }

  /** A lane tells the window that the service went away and came back in turn,
      never one of them twice, beginning with its going away. */
  lemma DownAndUpAlternate(lex: Lexicon, worlds: seq<World>, steps: seq<Step>, i: nat, name: LaneName, k: nat)
    requires Run(lex, worlds, steps) && i < |worlds|
    requires k < |SaidIn(worlds[i].posted, name)|
    ensures SaidIn(worlds[i].posted, name)[k] == if k % 2 == 0 then Down else Up
  {
    AlwaysAnswers(lex, worlds, steps, i);
    assert LaneInv(worlds[i].Seen(), name, worlds[i].lanes.Of(name));
  }

  function Deliveries(steps: seq<Step>): nat {
    if steps == [] then 0
    else
      var last := steps[|steps| - 1];
      Deliveries(steps[..|steps| - 1]) + if last.Turn? && last.act.Deliver? then 1 else 0
  }

  lemma StepHears(lex: Lexicon, w: World, step: Step)
    requires Enabled(w, step)
    ensures var v := Do(lex, w, step);
            && w.posted <= v.posted
            && v.heard == w.heard + if step.Turn? && step.act.Deliver? then 1 else 0
  {
  }

  /** Each delivery takes the next of what has been posted. */
  lemma {:induction false} HeardInOrder(lex: Lexicon, worlds: seq<World>, steps: seq<Step>, i: nat)
    requires Run(lex, worlds, steps) && i < |worlds|
    ensures worlds[i].heard == Deliveries(steps[..i])
  {
    if i > 0 {
      HeardInOrder(lex, worlds, steps, i - 1);
      StepHears(lex, worlds[i - 1], steps[i - 1]);
      assert steps[..i][..i - 1] == steps[..i - 1];
    }
  }

  /** What has been posted stays where it was posted. */
  lemma {:induction false} PostedStays(lex: Lexicon, worlds: seq<World>, steps: seq<Step>, i: nat, j: nat)
    requires Run(lex, worlds, steps) && i <= j < |worlds|
    ensures worlds[i].posted <= worlds[j].posted
    decreases j - i
  {
    if i < j {
      StepHears(lex, worlds[i], steps[i]);
      PostedStays(lex, worlds, steps, i + 1, j);
    }
  }

  /** No lost last answer: with everything at rest and everything heard, the last search
      sent was answered and its page is in hand, answering the question on screen; or
      what came back was no rows; or it was refused, cut off or never connected. */
  lemma LastIntentIsShown(lex: Lexicon, worlds: seq<World>, steps: seq<Step>, i: nat, last: nat)
    requires Run(lex, worlds, steps) && i < |worlds|
    requires worlds[i].open && worlds[i].Quiet() && worlds[i].heard == |worlds[i].posted|
    requires worlds[i].lanes.Of(Fast).queue == [] && worlds[i].lanes.Of(Fast).at.Idle?
    requires LastSearch(worlds[i].sent, last)
    ensures var w, l := worlds[i], worlds[i].lanes.Of(Fast);
            && last in l.fates
            && (if l.fates[last].Answered? then exists k :: ShownBy(lex, w, last, k)
                else l.fates[last].Refused? || l.fates[last].CutOff? || l.fates[last].Unconnected?)
  {
    LastIntentIsCalled(lex, worlds, steps, i, last);
    AlwaysAnswers(lex, worlds, steps, i);
    var w := worlds[i];
    var l := w.lanes.Of(Fast);
    assert LaneInv(w.Seen(), Fast, l) && Mine(w.Seen(), Fast, last);
    if Called(l, last) {
      var c :| 0 <= c < |l.calls| && l.calls[c].id == last;
      assert CallOk(w.Seen(), l, l.calls[c]);
    }
    if l.fates[last].Answered? {
      EveryCallIsPostedOnce(lex, worlds, steps, i, Fast, last);
      var k :| EndsAt(w.posted, Fast, last, k) && Carries(w.sent[last], w.posted[k].got);
      assert FiledOk(w.ui, w.sent, w.posted[k].got);
      assert ShownBy(lex, w, last, k);
    }
  }

  /** The answer to this search, in hand if it brought rows. */
  ghost predicate ShownBy(lex: Lexicon, w: World, id: nat, k: int)
    requires id < |w.sent| && w.sent[id].Search?
  {
    && EndsAt(w.posted, Fast, id, k) && w.posted[k].got.Landed?
    && (w.posted[k].got.reply.Rows? ==>
          var page := w.sent[id].offset / SPAN;
          && page in w.ui.pages && w.ui.pages[page] == Asked(lex, w.ui)
          && w.sent[id].generation == w.ui.generation == w.ui.shown)
  }

  /** A count of the current set that has been heard is kept, whatever came after. */
  lemma HeardCountIsKept(lex: Lexicon, worlds: seq<World>, steps: seq<Step>, i: nat, k: nat)
    requires Run(lex, worlds, steps) && i < |worlds| && k < worlds[i].heard && k < |worlds[i].posted|
    requires var got := worlds[i].posted[k].got;
             && (got.Counted? || (got.Faceted? && got.half == Both && got.reply.Tally? && !got.reply.capped))
             && got.reply.Tally? && got.revision == worlds[i].ui.revision
    ensures var ui := worlds[i].ui;
            ui.exact.Some? && ui.exact.value.revision == ui.revision && ui.exact.value.of == Full(lex, ui)
  {
    AlwaysAnswers(lex, worlds, steps, i);
    assert CountOk(worlds[i].ui, worlds[i].posted[k].got);
  }

  /** With rows on screen the sidebar has been scheduled for their set, once, and it is
      waiting for its timer or has been asked for. */
  lemma SidebarIsAskedFor(lex: Lexicon, worlds: seq<World>, steps: seq<Step>, i: nat)
    requires Run(lex, worlds, steps) && i < |worlds| && worlds[i].ui.pages != map[]
    ensures var ui, sent := worlds[i].ui, worlds[i].sent;
            && ui.revision in ui.scheduled
            && ((exists k :: 0 <= k < |ui.timers| && ui.timers[k] == Timer(ui.revision, Full(lex, ui)))
                || (exists k :: 0 <= k < |sent| && sent[k].Facets? && sent[k].revision == ui.revision))
  {
    AlwaysAnswers(lex, worlds, steps, i);
    var ui, sent := worlds[i].ui, worlds[i].sent;
    if k :| TimerFor(ui, k) {
      assert TimerOk(lex, ui, ui.timers[k]);
    } else {
      var k :| FacetsFor(ui, sent, k);
      assert sent[k].Facets?;
    }
  }

  /// Draining one step at a time

  function Contents(s: Scene, ids: seq<nat>): (asks: seq<Ask>)
    requires forall k :: 0 <= k < |ids| ==> ids[k] < |s.sent|
    ensures |asks| == |ids| && forall k :: 0 <= k < |ids| ==> asks[k] == s.sent[ids[k]]
  {
    seq(|ids|, k requires 0 <= k < |ids| => s.sent[ids[k]])
  }

  /** A lane that keeps receiving until it cannot. */
  function Drained(s: Scene, l: Lane): Lane
    decreases |l.queue|
  {
    if Can(s, l, Receive) then Drained(s, Moved(s, Fast, l, Receive).0) else l
  }

  /** Receiving one message at a time, while nothing else is enqueued, comes to what
      `NewestQueued` comes to in one go. */
  lemma {:induction false} DrainingIsCoalescing(s: Scene, l: Lane)
    requires LaneInv(s, Fast, l) && l.at.Drain? && !l.at.last
    ensures LaneInv(s, Fast, Drained(s, l)) && Drained(s, l).at.Drain?
    ensures (s.sent[Drained(s, l).at.id], Contents(s, Drained(s, l).queue))
            == Coalesced(s.sent[l.at.id], Contents(s, l.queue))
    decreases |l.queue|
  {
    var asks := Contents(s, l.queue);
    if l.queue == [] {
      assert asks == [];
    } else {
      assert Mine(s, Fast, l.queue[0]);
      var next := Moved(s, Fast, l, Receive).0;
      ReceiveKeeps(s, Fast, l);
      assert Contents(s, next.queue) == asks[1..];
      if next.at.last {
        assert Drained(s, next) == next;
      } else {
        DrainingIsCoalescing(s, next);
      }
    }
  }
}
