/** What becomes of an answer: it is posted once, heard once, in order, and filed. */

module Answers {
  import opened Options
  import opened Asks
  import opened WindowState
  import opened Lanes
  import opened Protocol

  predicate LastSearch(sent: seq<Ask>, id: nat) {
    id < |sent| && sent[id].Search? && forall j :: id < j < |sent| ==> !sent[j].Search?
  }

  /** A question on screen has been asked: the last search carries its generation. */
  ghost predicate NewestAsked(ui: Ui, sent: seq<Ask>) {
    forall id: nat :: LastSearch(sent, id) ==> sent[id].generation == ui.generation
  }

  /** A whole page, or the first rows of the first. */
  predicate PageSized(ask: Ask) {
    ask.Search? ==> ask.offset % SPAN == 0 && (ask.limit == SPAN || (ask.offset == 0 && 20 <= ask.limit < SPAN))
  }

  predicate Paged(asks: seq<Ask>) {
    forall k :: 0 <= k < |asks| ==> PageSized(asks[k])
  }

  /** The rows the last search was answered with have their page in hand. */
  ghost predicate FiledOk(ui: Ui, sent: seq<Ask>, got: Got) {
    got.Landed? && got.reply.Rows? && LastSearch(sent, got.id) ==> got.offset / SPAN in ui.pages
  }

  /** An exact count of the current set is kept. */
  predicate CountOk(ui: Ui, got: Got) {
    (got.Counted? && got.reply.Tally?) || (got.Faceted? && got.half == Both && got.reply.Tally? && !got.reply.capped)
    ==> got.revision == ui.revision ==> ui.exact.Some?
  }

  predicate TimerFor(ui: Ui, k: int) {
    0 <= k < |ui.timers| && ui.timers[k].revision == ui.revision
  }

  predicate FacetsFor(ui: Ui, sent: seq<Ask>, k: int) {
    0 <= k < |sent| && sent[k].Facets? && sent[k].revision == ui.revision
  }

  /** With rows on screen the sidebar of their set is scheduled, and what is scheduled
      is waiting for its timer or has been asked for. */
  ghost predicate SidebarOk(ui: Ui, sent: seq<Ask>) {
    && (ui.pages != map[] ==> ui.background == Some(ui.revision))
    && (ui.background == Some(ui.revision) ==>
          && ui.revision in ui.scheduled
          && ((exists k :: TimerFor(ui, k)) || (exists k :: FacetsFor(ui, sent, k))))
  }

  ghost predicate HeardInv(ui: Ui, sent: seq<Ask>, posted: seq<Post>, heard: nat)
    requires heard <= |posted|
  {
    forall k :: 0 <= k < heard ==> FiledOk(ui, sent, posted[k].got) && CountOk(ui, posted[k].got)
  }

  ghost predicate LanesPost(w: World) {
    forall name: LaneName ::
      PostsOk(w.Seen(), name, w.lanes.Of(name), w.posted) && SaidIn(w.posted, name) == w.lanes.Of(name).said
  }

  predicate ClosingStops(open: bool, sent: seq<Ask>) {
    open || (Stop(Fast) in sent && Stop(Slow) in sent && Stop(Wait) in sent)
  }

  ghost predicate AnswersInv(w: World) {
    && w.heard <= |w.posted|
    && NewestAsked(w.ui, w.sent)
    && Paged(w.sent)
    && SidebarOk(w.ui, w.sent)
    && HeardInv(w.ui, w.sent, w.posted, w.heard)
    && LanesPost(w)
    && ClosingStops(w.open, w.sent)
  }

  lemma StartAnswers(ui: Ui)
    requires Opening(ui)
    ensures AnswersInv(Start(ui))
  {
    var w := Start(ui);
    forall name: LaneName
      ensures PostsOk(w.Seen(), name, w.lanes.Of(name), w.posted) && SaidIn(w.posted, name) == w.lanes.Of(name).said
    {
      match name {
        case Fast =>
        case Slow =>
        case Wait =>
      }
    }
  }

  /// The steps of a lane

  lemma OnLanePosts(w: World, v: World, name: LaneName, move: Move)
    requires LanesInv(w) && LanesPost(w) && Can(w.Seen(), w.lanes.Of(name), move)
    requires v.Seen() == w.Seen()
    requires var (l, posts) := Moved(w.Seen(), name, w.lanes.Of(name), move);
             v.lanes == w.lanes.With(name, l) && v.posted == w.posted + posts
    ensures LanesPost(v)
  {
    var s, l := w.Seen(), w.lanes.Of(name);
    assert LaneInv(s, name, l);
    MovePosts(s, name, l, move, w.posted);
    MoveSays(s, name, l, move, w.posted);
    var posts := Moved(s, name, l, move).1;
    forall other: LaneName | other != name
      ensures PostsOk(s, other, v.lanes.Of(other), v.posted) && SaidIn(v.posted, other) == v.lanes.Of(other).said
    {
      assert v.lanes.Of(other) == w.lanes.Of(other);
      if posts == [] {
        assert v.posted == w.posted;
      } else {
        assert v.posted == w.posted + [posts[0]];
        PostElsewhere(s, other, w.lanes.Of(other), w.posted, posts[0]);
        OtherSays(other, w.posted, posts[0]);
      }
    }
  }

  /// The turns of the UI thread

  /** Where nothing is searched for, the generation stays, and only an answer moves the pages. */
  lemma SearchesInTurn(lex: Lexicon, w: World, act: Act)
    requires CanTurn(w, act)
    ensures var (ui, asks) := Acted(lex, w, act);
            && (forall k :: 0 <= k < |asks| && asks[k].Search? ==> asks[k].generation == ui.generation)
            && ((ui.generation == w.ui.generation && (act.Deliver? || ui.pages == w.ui.pages))
                || exists k :: 0 <= k < |asks| && asks[k].Search?)
  {
    var (ui, asks) := Acted(lex, w, act);
    match act
    case Begin(_) => assert asks[1].Search?;
    case Type(_, _) => assert asks[1].Search?;
    case Sort(_, _, _) => assert asks[2].Search?;
    case _ =>
  }

  lemma TurnAsksPages(lex: Lexicon, w: World, act: Act)
    requires CanTurn(w, act)
    ensures Paged(Acted(lex, w, act).1)
  {
  }

  /** The last search of a longer log is the last of the shorter one, or among the new. */
  lemma LastAmong(sent: seq<Ask>, asks: seq<Ask>, id: nat)
    requires LastSearch(sent + asks, id)
    ensures if id < |sent| then LastSearch(sent, id) && forall k :: 0 <= k < |asks| ==> !asks[k].Search?
            else id - |sent| < |asks| && asks[id - |sent|].Search?
  {
    var all := sent + asks;
    assert forall k :: 0 <= k < |asks| ==> all[|sent| + k] == asks[k];
    assert forall k :: 0 <= k < |sent| ==> all[k] == sent[k];
  }

  lemma TurnAsksNewest(lex: Lexicon, w: World, act: Act)
    requires CanTurn(w, act) && NewestAsked(w.ui, w.sent)
    ensures var (ui, asks) := Acted(lex, w, act); NewestAsked(ui, w.sent + asks)
  {
    var (ui, asks) := Acted(lex, w, act);
    SearchesInTurn(lex, w, act);
    forall id: nat | LastSearch(w.sent + asks, id) ensures (w.sent + asks)[id].generation == ui.generation {
      LastAmong(w.sent, asks, id);
    }
  }

  /** The same set, or a newer one; and a count kept of the same set stays. */
  predicate MovesOn(ui: Ui, ui': Ui) {
    ui.revision <= ui'.revision && (ui.revision == ui'.revision && ui.exact.Some? ==> ui'.exact.Some?)
  }

  lemma DeliveryMovesOn(lex: Lexicon, ui: Ui, got: Got, store: Store)
    ensures MovesOn(ui, Apply(lex, ui, got, store).0)
  {
  }

  lemma TurnMovesOn(lex: Lexicon, w: World, act: Act)
    requires CanTurn(w, act)
    ensures MovesOn(w.ui, Acted(lex, w, act).0)
  {
    if act.Deliver? {
      DeliveryMovesOn(lex, w.ui, w.posted[w.heard].got, act.store);
    }
  }

  /** Answers to searches come from the fast lane, later ones to later searches. */
  lemma LandedInOrder(w: World, j: nat, k: nat)
    requires LanesInv(w) && LanesPost(w) && j < k < |w.posted|
    requires w.posted[j].got.Landed? && w.posted[k].got.Landed?
    ensures w.posted[j].got.id < w.posted[k].got.id < |w.sent| && w.sent[w.posted[k].got.id].Search?
  {
    LandedIsFast(w, j);
    LandedIsFast(w, k);
    assert PostsOk(w.Seen(), Fast, w.lanes.Of(Fast), w.posted);
    assert About(w.posted, Fast, j) && About(w.posted, Fast, k);
  }

  lemma LandedIsFast(w: World, k: nat)
    requires LanesInv(w) && LanesPost(w) && k < |w.posted| && w.posted[k].got.Landed?
    ensures w.posted[k].lane == Fast && w.posted[k].got.id < |w.sent| && w.sent[w.posted[k].got.id].Search?
  {
    var name, id := w.posted[k].lane, w.posted[k].got.id;
    assert PostsOk(w.Seen(), name, w.lanes.Of(name), w.posted);
    assert PostOk(w.Seen(), w.lanes.Of(name), w.posted[k].got);
    assert LaneInv(w.Seen(), name, w.lanes.Of(name)) && Mine(w.Seen(), name, id);
  }

  /** Rows that answer the last search are filed when they are heard. */
  lemma HeardIsFiled(lex: Lexicon, ui: Ui, sent: seq<Ask>, got: Got, store: Store)
    requires UiInv(lex, ui) && NewestAsked(ui, sent) && GotOk(sent, got)
    requires got.Landed? && got.reply.Rows? && LastSearch(sent, got.id)
    ensures got.offset / SPAN in Apply(lex, ui, got, store).0.pages
  {
    assert sent[got.id].generation == ui.generation;
  }

  lemma HeardIsCounted(lex: Lexicon, ui: Ui, got: Got, store: Store)
    ensures CountOk(Apply(lex, ui, got, store).0, got)
  {
  }

  lemma OnlyLandedFiles(lex: Lexicon, ui: Ui, got: Got, store: Store)
    requires !got.Landed?
    ensures Apply(lex, ui, got, store).0.pages == ui.pages
  {
  }

  /** Of what was heard before this turn. */
  lemma TurnKeepsFiled(lex: Lexicon, w: World, act: Act, k: nat)
    requires Inv(lex, w) && AnswersInv(w) && CanTurn(w, act) && k < w.heard
    ensures var (ui, asks) := Acted(lex, w, act); FiledOk(ui, w.sent + asks, w.posted[k].got)
  {
    var (ui, asks) := Acted(lex, w, act);
    var got := w.posted[k].got;
    if got.Landed? && got.reply.Rows? && LastSearch(w.sent + asks, got.id) {
      LandedIsFast(w, k);
      LastAmong(w.sent, asks, got.id);
      SearchesInTurn(lex, w, act);
      assert FiledOk(w.ui, w.sent, got);
      if act.Deliver? {
        var next := w.posted[w.heard].got;
        if next.Landed? {
          LandedInOrder(w, k, w.heard);
        } else {
          OnlyLandedFiles(lex, w.ui, next, act.store);
        }
      }
    }
  }

  lemma TurnKeepsCount(lex: Lexicon, w: World, act: Act, k: nat)
    requires Inv(lex, w) && AnswersInv(w) && CanTurn(w, act) && k < w.heard
    ensures CountOk(Acted(lex, w, act).0, w.posted[k].got)
  {
    var got := w.posted[k].got;
    assert CountOk(w.ui, got) && GotOk(w.sent, got);
    TurnMovesOn(lex, w, act);
    if got.Counted? || got.Faceted? {
      assert Known(lex, w.ui, w.sent[got.id]);
    }
  }

  lemma TurnHears(lex: Lexicon, w: World, act: Act)
    requires Inv(lex, w) && AnswersInv(w) && CanTurn(w, act)
    ensures var v := Do(lex, w, Turn(act)); HeardInv(v.ui, v.sent, v.posted, v.heard)
  {
    var v := Do(lex, w, Turn(act));
    var (ui, asks) := Acted(lex, w, act);
    forall k | 0 <= k < v.heard
      ensures FiledOk(v.ui, v.sent, v.posted[k].got) && CountOk(v.ui, v.posted[k].got)
    {
      if k < w.heard {
        TurnKeepsFiled(lex, w, act, k);
        TurnKeepsCount(lex, w, act, k);
      } else {
        var got := w.posted[k].got;
        HeardIsCounted(lex, w.ui, got, act.store);
        if got.Landed? && got.reply.Rows? && LastSearch(w.sent + asks, got.id) {
          LandedIsFast(w, k);
          LastAmong(w.sent, asks, got.id);
          HeardIsFiled(lex, w.ui, w.sent, got, act.store);
        }
      }
    }
  }

  /// The sidebar

  /** The same set, with whatever was waiting for it or asked for it. */
  lemma SidebarStays(ui: Ui, ui': Ui, sent: seq<Ask>, asks: seq<Ask>)
    requires SidebarOk(ui, sent) && ui'.revision == ui.revision && ui'.background == ui.background
    requires ui'.pages != map[] ==> ui.background == Some(ui.revision)
    requires ui.timers <= ui'.timers && ui.scheduled <= ui'.scheduled
    ensures SidebarOk(ui', sent + asks)
  {
    if k :| TimerFor(ui, k) {
      assert TimerFor(ui', k);
    }
    if k :| FacetsFor(ui, sent, k) {
      assert FacetsFor(ui', sent + asks, k);
    }
  }

  /** A timer that has fired leaves the others, or its request in its place. */
  lemma RungSidebar(lex: Lexicon, ui: Ui, sent: seq<Ask>, at: nat)
    requires SidebarOk(ui, sent) && at < |ui.timers|
    ensures var (ui', asks) := Rung(lex, ui.(timers := ui.timers[..at] + ui.timers[at + 1..]), ui.timers[at]);
            SidebarOk(ui', sent + asks)
  {
    var rest := ui.timers[..at] + ui.timers[at + 1..];
    var (ui', asks) := Rung(lex, ui.(timers := rest), ui.timers[at]);
    if ui.timers[at].revision == ui.revision {
      assert FacetsFor(ui', sent + asks, |sent|);
    } else {
      if k :| TimerFor(ui, k) {
        assert TimerFor(ui', if k < at then k else k - 1);
      }
      if k :| FacetsFor(ui, sent, k) {
        assert FacetsFor(ui', sent + asks, k);
      }
    }
  }

  lemma LandedSidebar(lex: Lexicon, ui: Ui, sent: seq<Ask>, got: Got, store: Store)
    requires SidebarOk(ui, sent) && got.Landed?
    ensures var (ui', asks) := LandSearch(lex, ui, got, store); SidebarOk(ui', sent + asks)
  {
    var (ui', asks) := LandSearch(lex, ui, got, store);
    if Stale(ui, got.generation) || !got.reply.Rows? || ui.background == Some(ui.revision) {
      SidebarStays(ui, ui', sent, asks);
    } else {
      assert TimerFor(ui', |ui.timers|);
      assert ui'.scheduled[|ui.scheduled|] == ui.revision;
    }
  }

  lemma DeliveredSidebar(lex: Lexicon, ui: Ui, sent: seq<Ask>, got: Got, store: Store)
    requires SidebarOk(ui, sent)
    ensures var (ui', asks) := Apply(lex, ui, got, store); SidebarOk(ui', sent + asks)
  {
    if got.Landed? {
      LandedSidebar(lex, ui, sent, got, store);
    } else {
      var (ui', asks) := Apply(lex, ui, got, store);
      SidebarStays(ui, ui', sent, asks);
    }
  }

  lemma TurnKeepsSidebar(lex: Lexicon, w: World, act: Act)
    requires UiInv(lex, w.ui) && SidebarOk(w.ui, w.sent) && CanTurn(w, act)
    ensures var (ui, asks) := Acted(lex, w, act); SidebarOk(ui, w.sent + asks)
  {
    var (ui, asks) := Acted(lex, w, act);
    match act
    case Type(_, _) =>
    case Ring(at) => RungSidebar(lex, w.ui, w.sent, at);
    case Deliver(store) =>
      DeliveredSidebar(lex, w.ui, w.sent, w.posted[w.heard].got, store);
    case _ => SidebarStays(w.ui, ui, w.sent, asks);
  }

  /// Every step

  lemma TurnAnswers(lex: Lexicon, w: World, act: Act)
    requires Inv(lex, w) && AnswersInv(w) && CanTurn(w, act)
    ensures AnswersInv(Do(lex, w, Turn(act)))
  {
    var v := Do(lex, w, Turn(act));
    TurnAsksNewest(lex, w, act);
    TurnAsksPages(lex, w, act);
    TurnKeepsSidebar(lex, w, act);
    TurnHears(lex, w, act);
    ScenePosts(w, v);
    if act.Close? {
      ClosingSends(w.sent);
    }
  }

  lemma ClosingSends(sent: seq<Ask>)
    ensures ClosingStops(false, sent + [Stop(Fast), Stop(Slow), Stop(Wait)])
  {
    var all := sent + [Stop(Fast), Stop(Slow), Stop(Wait)];
    assert all[|sent|] == Stop(Fast) && all[|sent| + 1] == Stop(Slow) && all[|sent| + 2] == Stop(Wait);
  }

  /** A step that moves no lane and posts nothing. */
  lemma ScenePosts(w: World, v: World)
    requires LanesPost(w) && w.sent <= v.sent && v.posted == w.posted
    requires forall name: LaneName :: v.lanes.Of(name).fates == w.lanes.Of(name).fates
                                      && v.lanes.Of(name).said == w.lanes.Of(name).said
    ensures LanesPost(v)
  {
    forall name: LaneName
      ensures PostsOk(v.Seen(), name, v.lanes.Of(name), v.posted) && SaidIn(v.posted, name) == v.lanes.Of(name).said
    {
      PostsStay(w.Seen(), v.Seen(), name, w.lanes.Of(name), v.lanes.Of(name), w.posted);
    }
  }

  lemma StepAnswers(lex: Lexicon, w: World, step: Step)
    requires Inv(lex, w) && AnswersInv(w) && Enabled(w, step)
    ensures AnswersInv(Do(lex, w, step))
  {
    var v := Do(lex, w, step);
    match step
    case Turn(act) => TurnAnswers(lex, w, act);
    case NoteTheSearch => ScenePosts(w, v);
    case NoteTheQuery => ScenePosts(w, v);
    case Enqueue => ScenePosts(w, v);
    case OnLane(name, move) =>
      OnLanePosts(w, v, name, move);
      LongerLog(w, v);
  }

  lemma LongerLog(w: World, v: World)
    requires AnswersInv(w) && v.ui == w.ui && v.sent == w.sent && v.heard == w.heard && w.posted <= v.posted
    ensures HeardInv(v.ui, v.sent, v.posted, v.heard)
  {
    forall k | 0 <= k < v.heard
      ensures FiledOk(v.ui, v.sent, v.posted[k].got) && CountOk(v.ui, v.posted[k].got)
    {
      assert v.posted[k] == w.posted[k];
    }
  }

  lemma {:induction false} AlwaysAnswers(lex: Lexicon, worlds: seq<World>, steps: seq<Step>, i: nat)
    requires Run(lex, worlds, steps) && i < |worlds|
    ensures Inv(lex, worlds[i]) && AnswersInv(worlds[i])
  {
    AlwaysHolds(lex, worlds, steps, i);
    if i == 0 {
      StartAnswers(worlds[0].ui);
    } else {
      AlwaysAnswers(lex, worlds, steps, i - 1);
      StepAnswers(lex, worlds[i - 1], steps[i - 1]);
    }
  }
}
