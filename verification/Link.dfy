/** The window's connection to the service: what can be asked, how newest work is
    published to the lanes, and which lane carries what. */

module Options {
  datatype Option<+T> = None | Some(value: T) {
    function GetOr(default: T): T {
      match this
      case None => default
      case Some(v) => v
    }
  }
}

module Asks {
  import opened Naturals
  datatype Half = Both | Kinds | Ages

  datatype LaneName = Fast | Slow | Wait

  /** What a search asks of the service. */
  datatype Question = Question(query: string, sort: string, descending: bool)

  /** `Errand` stands for every request no later one makes useless (places, status,
      rules, settings, reports, previews). A `Stop` names the
      lane whose channel it is put on. */
  datatype Ask =
    | Search(generation: nat, revision: nat, question: Question, offset: nat, limit: nat)
    | Facets(revision: nat, query: string, half: Half)
    | Explain(revision: nat, query: string)
    | Count(revision: nat, query: string)
    | Await(since: nat)
    | Errand
    | Stop(lane: LaneName)
  {
    /** The kinds of request that have a revision to publish. */
    predicate Revisioned() {
      Search? || Facets? || Explain? || Count?
    }
  }

  function Route(ask: Ask): LaneName {
    match ask
    case Search(_, _, _, _, _) => Fast
    case Await(_) => Wait
    case Stop(lane) => lane
    case _ => Slow
  }

  /** The newest work the window can still use. */
  datatype Marks = Marks(search: nat, query: nat)

  /** The two `fetch_max` operations of a note, which are separate atomic steps. */
  function NotedSearch(m: Marks, ask: Ask): Marks {
    if ask.Search? then m.(search := Larger(m.search, ask.generation)) else m
  }

  function NotedQuery(m: Marks, ask: Ask): Marks {
    if ask.Revisioned() then m.(query := Larger(m.query, ask.revision)) else m
  }

  function Noted(m: Marks, ask: Ask): Marks {
    NotedQuery(NotedSearch(m, ask), ask)
  }

  predicate Fresh(m: Marks, ask: Ask) {
    match ask
    case Search(generation, _, _, _, _) => generation == m.search
    case Facets(revision, _, _) => revision == m.query
    case Explain(revision, _) => revision == m.query
    case Count(revision, _) => revision == m.query
    case _ => true
  }

  /** What draining a channel leaves in hand, and what it leaves in the channel. */
  function Coalesced(first: Ask, queue: seq<Ask>): (Ask, seq<Ask>)
    decreases |queue|
  {
    if queue == [] then (first, [])
    else if queue[0].Stop? then (queue[0], queue[1..])
    else Coalesced(queue[0], queue[1..])
  }

  predicate FirstStop(queue: seq<Ask>, k: int) {
    0 <= k < |queue| && queue[k].Stop? && forall j :: 0 <= j < k ==> !queue[j].Stop?
  }

  /** With a `Stop` waiting, draining takes the first one and nothing behind it;
      with none, it takes the last message and empties the channel. */
  lemma {:induction false} CoalescedTakesStopOrLast(first: Ask, queue: seq<Ask>)
    ensures var (kept, rest) := Coalesced(first, queue);
            || ((forall k :: 0 <= k < |queue| ==> !queue[k].Stop?)
                && rest == [] && kept == ([first] + queue)[|queue|])
            || (exists k :: FirstStop(queue, k) && kept == queue[k] && rest == queue[k + 1..])
    decreases |queue|
  {
    if queue == [] {
    } else if queue[0].Stop? {
    } else {
      CoalescedTakesStopOrLast(queue[0], queue[1..]);
      var tail := queue[1..];
      var (kept, rest) := Coalesced(queue[0], tail);
      if k :| FirstStop(tail, k) && kept == tail[k] && rest == tail[k + 1..] {
        assert forall j :: 0 < j < |queue| ==> queue[j] == tail[j - 1];
        assert FirstStop(queue, k + 1) && rest == queue[k + 2..];
      } else {
        assert [queue[0]] + tail == queue;
        assert forall j :: 0 < j < |queue| ==> queue[j] == tail[j - 1];
      }
    }
  }

  /** Draining ends on a `Stop` exactly when one is waiting, or the message in
      hand is one and nothing is behind it: the message in hand is not looked at
      before the channel is. */
  lemma StopSurvives(first: Ask, queue: seq<Ask>)
    ensures Coalesced(first, queue).0.Stop? <==>
            (exists k :: 0 <= k < |queue| && queue[k].Stop?) || (first.Stop? && queue == [])
  {
    CoalescedTakesStopOrLast(first, queue);
  }

  /** A `Stop` in hand is lost when a search has been queued behind it. No run of
      the window queues one there: see `Promises.NothingBehindStop`. */
  lemma StopInHandCanBeLost(search: Ask)
    requires search.Search?
    ensures Coalesced(Stop(Fast), [search]) == (search, [])
  {
  }
}

module Link {
  import opened Naturals
  import opened Asks

  /** One end of an unbounded channel. */
  class Channel {
    var queue: seq<Ask>

    constructor ()
      ensures queue == []
    {
      queue := [];
    }
  }

  class Freshness {
    var search: nat
    var query: nat

    function View(): Marks
      reads this
    {
      Marks(search, query)
    }

    constructor ()
      ensures View() == Marks(0, 0)
    {
      search, query := 0, 0;
    }

    method Note(ask: Ask)
      modifies this
      ensures View() == Noted(old(View()), ask)
    {
      match ask
      case Search(generation, revision, _, _, _) =>
        search := Larger(search, generation);
        query := Larger(query, revision);
      case Explain(revision, _) => query := Larger(query, revision);
      case Facets(revision, _, _) => query := Larger(query, revision);
      case Count(revision, _) => query := Larger(query, revision);
      case _ =>
    }

    method Accepts(ask: Ask) returns (ok: bool)
      ensures ok <==> Fresh(View(), ask)
    {
      match ask
      case Search(generation, _, _, _, _) => ok := generation == search;
      case Facets(revision, _, _) => ok := revision == query;
      case Count(revision, _) => ok := revision == query;
      case Explain(revision, _) => ok := revision == query;
      case _ => ok := true;
    }
  }

  /** Receiving until the channel is empty or a `Stop` comes leaves what `Coalesced` says. */
  method NewestQueued(first: Ask, rx: Channel) returns (ask: Ask)
    modifies rx
    ensures (ask, rx.queue) == Coalesced(first, old(rx.queue))
  {
    ask := first;
    var stop := false;
    while rx.queue != [] && !stop
      invariant !stop ==> Coalesced(ask, rx.queue) == Coalesced(first, old(rx.queue))
      invariant stop ==> (ask, rx.queue) == Coalesced(first, old(rx.queue))
      decreases |rx.queue|
    {
      var next := rx.queue[0];
      rx.queue := rx.queue[1..];
      stop := next.Stop?;
      ask := next;
    }
  }

  class Link {
    const fast: Channel
    const slow: Channel
    const wait: Channel
    const freshness: Freshness
    /** Everything sent so far, in order. */
    ghost var log: seq<Ask>

    ghost predicate Valid()
    {
      fast != slow && slow != wait && fast != wait
    }

    constructor ()
      ensures Valid() && log == [] && freshness.View() == Marks(0, 0)
      ensures fresh(fast) && fresh(slow) && fresh(wait) && fresh(freshness)
    {
      fast := new Channel();
      slow := new Channel();
      wait := new Channel();
      freshness := new Freshness();
      log := [];
    }

    function Lane(name: LaneName): Channel {
      match name
      case Fast => fast
      case Slow => slow
      case Wait => wait
    }

    /** The marks are moved first and the request is queued second, on its own lane and
        on no other; a `Stop` sent this way goes to the fast one. */
    method Send(ask: Ask)
      requires Valid()
      modifies this`log, freshness, fast, slow, wait
      ensures log == old(log) + [ask]
      ensures freshness.View() == Noted(old(freshness.View()), ask)
      ensures fast.queue == old(fast.queue) + if ask.Search? || ask.Stop? then [ask] else []
      ensures wait.queue == old(wait.queue) + if ask.Await? then [ask] else []
      ensures slow.queue == old(slow.queue) + if ask.Search? || ask.Stop? || ask.Await? then [] else [ask]
    {
      freshness.Note(ask);
      if ask.Await? {
        wait.queue := wait.queue + [ask];
      } else if ask.Search? || ask.Stop? {
        fast.queue := fast.queue + [ask];
      } else {
        slow.queue := slow.queue + [ask];
      }
      log := log + [ask];
    }

    /** Every lane gets a `Stop` of its own, behind what it has, and no mark moves. */
    method Drop()
      requires Valid()
      modifies this`log, fast, slow, wait
      ensures log == old(log) + [Stop(Fast), Stop(Slow), Stop(Wait)]
      ensures forall name :: Lane(name).queue == old(Lane(name).queue) + [Stop(name)]
    {
      fast.queue := fast.queue + [Stop(Fast)];
      slow.queue := slow.queue + [Stop(Slow)];
      wait.queue := wait.queue + [Stop(Wait)];
      log := log + [Stop(Fast), Stop(Slow), Stop(Wait)];
    }
  }
}
