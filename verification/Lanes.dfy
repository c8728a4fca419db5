/** One lane's thread: its dequeue, drain, check, connect, second check and call, the
    account it keeps of every request that reaches it, and what it puts on the event
    loop. */

module Lanes {
  import opened Asks
  import opened WindowState

  /** Where a lane's thread stands. Requests are named by their place in the send
      order. `Drain` is inside the draining loop; `last` says the loop is over. */
  datatype Stage =
    | Idle
    | Drain(id: nat, last: bool)
    | First(id: nat)
    | Connect(id: nat)
    | Second(id: nat)
    | Calling(id: nat)
    | Stopped
  {
    predicate Busy() {
      !Idle? && !Stopped?
    }
  }

  /** How a request that a lane is done with ended. */
  datatype Fate =
    | Swallowed(newer: nat)
    | Outdated
    | Unconnected
    | Answered
    | Refused
    | CutOff
    | Halted
  {
    predicate Reached() {
      Answered? || Refused? || CutOff?
    }
  }

  datatype Said = Down | Up

  /** A call to the service, and how many requests had published their generation, and
      how many their revision, when its second check passed. */
  datatype Call = Call(id: nat, searches: nat, queries: nat)

  datatype Lane = Lane(
    queue: seq<nat>, at: Stage, connected: bool, wasDown: bool,
    said: seq<Said>, fates: map<nat, Fate>, calls: seq<Call>)

  /** What a lane has put on the event loop. */
  datatype Post = Post(lane: LaneName, got: Got)

  /** The lane of each name. */
  datatype Three = Three(fast: Lane, slow: Lane, wait: Lane) {
    function Of(name: LaneName): Lane {
      match name
      case Fast => fast
      case Slow => slow
      case Wait => wait
    }

    function With(name: LaneName, l: Lane): (t: Three)
      ensures forall other :: t.Of(other) == if other == name then l else Of(other)
    {
      match name
      case Fast => this.(fast := l)
      case Slow => this.(slow := l)
      case Wait => this.(wait := l)
    }
  }

  /** What a lane sees of the rest of the program. Of the requests sent, the first
      `entered` are on their lanes, the first `searches` have published the generation
      they carry and the first `queries` the revision. */
  datatype Scene = Scene(sent: seq<Ask>, entered: nat, searches: nat, queries: nat, marks: Marks) {
    predicate InStep() {
      entered <= queries <= searches <= |sent|
    }
  }

  datatype Move =
    | Take | Receive | Drained | Check | Connected | Unreachable | Recheck
    | Reply(reply: Reply) | Refuse | Cut

  predicate Matches(ask: Ask, reply: Reply) {
    match reply
    case Rows(question, _, _, _) => ask.Search? && question == ask.question
    case Tally(query, _, _) => (ask.Count? || ask.Facets?) && query == ask.query
    case Unexpected => true
  }

  function Answer(ask: Ask, id: nat, reply: Reply): Got {
    match ask
    case Search(generation, _, _, offset, limit) => Landed(id, generation, offset, limit, reply)
    case Count(revision, _) => Counted(id, revision, reply)
    case Facets(revision, _, half) => Faceted(id, revision, half, reply)
    case Explain(revision, _) => Explained(id, revision)
    case _ => Done(id)
  }

  function Refusal(ask: Ask): Stamp {
    if ask.Search? then OfSearch(ask.generation)
    else OfQuery(if ask.Revisioned() then ask.revision else 0)
  }

  predicate Can(s: Scene, l: Lane, move: Move) {
    (l.at.Busy() ==> l.at.id < |s.sent|)
    && match move
       case Take => l.at.Idle? && l.queue != []
       case Receive => l.at.Drain? && !l.at.last && l.queue != [] && l.queue[0] < |s.sent|
       case Drained => l.at.Drain? && (l.at.last || l.queue == [])
       case Check => l.at.First?
       case Connected => l.at.Connect?
       case Unreachable => l.at.Connect?
       case Recheck => l.at.Second?
       case Reply(reply) => l.at.Calling? && Matches(s.sent[l.at.id], reply)
       case Refuse => l.at.Calling?
       case Cut => l.at.Calling?
  }

  function Finish(l: Lane, fate: Fate): Lane
    requires l.at.Busy()
  {
    l.(at := if fate.Halted? then Stopped else Idle, fates := l.fates[l.at.id := fate])
  }

  /** One step of a lane's thread, and what it puts on the event loop. Only the fast
      lane drains its channel. */
  function Moved(s: Scene, name: LaneName, l: Lane, move: Move): (Lane, seq<Post>)
    requires Can(s, l, move)
  {
    match move
    case Take =>
      (l.(at := Drain(l.queue[0], !name.Fast?), queue := l.queue[1..]), [])
    case Receive =>
      var next := l.queue[0];
      (Finish(l, Swallowed(next)).(at := Drain(next, s.sent[next].Stop?), queue := l.queue[1..]), [])
    case Drained =>
      if s.sent[l.at.id].Stop? then (Finish(l, Halted), [])
      else (l.(at := First(l.at.id)), [])
    case Check =>
      if !Fresh(s.marks, s.sent[l.at.id]) then (Finish(l, Outdated), [])
      else (l.(at := if l.connected then Second(l.at.id) else Connect(l.at.id)), [])
    case Connected =>
      var up := l.(at := Second(l.at.id), connected := true);
      if l.wasDown then (up.(wasDown := false, said := l.said + [Up]), [Post(name, Back)]) else (up, [])
    case Unreachable =>
      var failed := Finish(l, Unconnected);
      if !l.wasDown then (failed.(wasDown := true, said := l.said + [Down]), [Post(name, Lost(l.at.id))]) else (failed, [])
    case Recheck =>
      if !Fresh(s.marks, s.sent[l.at.id]) then (Finish(l, Outdated), [])
      else (l.(at := Calling(l.at.id), calls := l.calls + [Call(l.at.id, s.searches, s.queries)]), [])
    case Reply(reply) =>
      (Finish(l, Answered), [Post(name, Answer(s.sent[l.at.id], l.at.id, reply))])
    case Refuse =>
      (Finish(l, Refused), [Post(name, Denied(l.at.id, Refusal(s.sent[l.at.id])))])
    case Cut =>
      (Finish(l, CutOff).(connected := false, wasDown := true, said := l.said + [Down]), [Post(name, Lost(l.at.id))])
  }

  /** A request that can never be called any more. */
  predicate Superseded(m: Marks, ask: Ask) {
    if ask.Search? then ask.generation < m.search
    else ask.Revisioned() && ask.revision < m.query
  }

  /** Of the first `searches` requests none carries a newer generation than this search,
      and of the first `queries` none a newer revision than this other request. */
  ghost predicate Newest(sent: seq<Ask>, searches: nat, queries: nat, id: nat) {
    && id < queries <= searches <= |sent|
    && (forall j :: 0 <= j < searches && sent[id].Search? && sent[j].Search?
          ==> sent[j].generation <= sent[id].generation)
    && (forall j :: 0 <= j < queries && !sent[id].Search? && sent[id].Revisioned() && sent[j].Revisioned()
          ==> sent[j].revision <= sent[id].revision)
  }

  ghost predicate MarksBound(s: Scene) {
    && s.InStep()
    && (forall j :: 0 <= j < s.searches && s.sent[j].Search? ==> s.sent[j].generation <= s.marks.search)
    && (forall j :: 0 <= j < s.queries && s.sent[j].Revisioned() ==> s.sent[j].revision <= s.marks.query)
  }

  ghost predicate Mine(s: Scene, name: LaneName, id: nat) {
    id < s.entered <= |s.sent| && Route(s.sent[id]) == name
  }

  /** What the lane is done with comes before what it holds, which comes before what
      it has queued. */
  ghost predicate InOrder(s: Scene, name: LaneName, l: Lane) {
    && (forall k :: 0 <= k < |l.queue| ==> Mine(s, name, l.queue[k]))
    && (forall j, k :: 0 <= j < k < |l.queue| ==> l.queue[j] < l.queue[k])
    && (forall id :: id in l.fates ==> Mine(s, name, id))
    && (forall id, k :: id in l.fates && 0 <= k < |l.queue| ==> id < l.queue[k])
    && (l.at.Busy() ==>
          && Mine(s, name, l.at.id)
          && (forall id :: id in l.fates ==> id < l.at.id)
          && (forall k :: 0 <= k < |l.queue| ==> l.at.id < l.queue[k]))
  }

  ghost predicate Accounted(s: Scene, name: LaneName, l: Lane) {
    forall id :: Mine(s, name, id) ==>
      id in l.fates || (l.at.Busy() && l.at.id == id) || id in l.queue
  }

  ghost predicate FateOk(s: Scene, name: LaneName, l: Lane, id: nat)
    requires id in l.fates && id < |s.sent|
  {
    match l.fates[id]
    case Swallowed(newer) => name.Fast? && id < newer && Mine(s, name, newer)
    case Outdated => Superseded(s.marks, s.sent[id])
    case Halted => s.sent[id].Stop? && l.at.Stopped?
    case Unconnected => !s.sent[id].Stop?
    case _ => !s.sent[id].Stop? && Called(l, id)
  }

  ghost predicate Called(l: Lane, id: nat) {
    exists k :: 0 <= k < |l.calls| && l.calls[k].id == id
  }

  ghost predicate CallOk(s: Scene, l: Lane, c: Call) {
    && c.searches <= s.searches && c.queries <= s.queries
    && Newest(s.sent, c.searches, c.queries, c.id)
    && (if l.at == Calling(c.id) then c.id !in l.fates
        else c.id in l.fates && l.fates[c.id].Reached())
  }

  ghost predicate CallsOk(s: Scene, l: Lane) {
    && (forall k :: 0 <= k < |l.calls| ==> CallOk(s, l, l.calls[k]))
    && (forall j, k :: 0 <= j < k < |l.calls| ==> l.calls[j].id < l.calls[k].id)
  }

  /** The window hears `Down` and `Up` from a lane in turn. */
  ghost predicate SaidOk(l: Lane) {
    && (forall k :: 0 <= k < |l.said| ==> l.said[k] == if k % 2 == 0 then Down else Up)
    && (l.wasDown <==> |l.said| % 2 == 1)
    && (l.connected ==> !l.wasDown)
  }

  ghost predicate WasHalted(l: Lane) {
    exists id :: id in l.fates && l.fates[id].Halted?
  }

  ghost predicate StageOk(s: Scene, name: LaneName, l: Lane) {
    && (l.at.Drain? && !l.at.last ==> name.Fast?)
    && (l.at.Second? || l.at.Calling? ==> l.connected)
    && (l.at.Connect? ==> !l.connected)
    && (l.at.Calling? ==> Called(l, l.at.id))
    && (l.at.Stopped? ==> WasHalted(l))
    && (l.at.Busy() && !l.at.Drain? ==> l.at.id < |s.sent| && !s.sent[l.at.id].Stop?)
  }

  ghost predicate LaneInv(s: Scene, name: LaneName, l: Lane) {
    && s.entered <= |s.sent|
    && InOrder(s, name, l)
    && Accounted(s, name, l)
    && (forall id :: id in l.fates ==> FateOk(s, name, l, id))
    && CallsOk(s, l)
    && SaidOk(l)
    && StageOk(s, name, l)
  }

  lemma CheckedIsNewest(s: Scene, name: LaneName, id: nat)
    requires MarksBound(s) && Mine(s, name, id)
    ensures if Fresh(s.marks, s.sent[id]) then Newest(s.sent, s.searches, s.queries, id)
            else Superseded(s.marks, s.sent[id])
  {
  }

  lemma FinishKeeps(s: Scene, name: LaneName, l: Lane, fate: Fate)
    requires LaneInv(s, name, l) && l.at.Busy()
    requires FateOk(s, name, Finish(l, fate), l.at.id)
    requires fate.Reached() <==> l.at.Calling?
    requires !fate.Swallowed?
    ensures LaneInv(s, name, Finish(l, fate))
  {
    var f := Finish(l, fate);
    FinishKeepsCalls(s, name, l, fate);
    assert f.fates[l.at.id] == fate;
    forall id | id in f.fates ensures FateOk(s, name, f, id) {
      assert id != l.at.id ==> FateOk(s, name, l, id);
    }
  }

  lemma FinishKeepsCalls(s: Scene, name: LaneName, l: Lane, fate: Fate)
    requires LaneInv(s, name, l) && l.at.Busy() && (fate.Reached() <==> l.at.Calling?)
    ensures CallsOk(s, Finish(l, fate))
  {
    var f := Finish(l, fate);
    forall k | 0 <= k < |l.calls| ensures CallOk(s, f, l.calls[k]) {
      assert CallOk(s, l, l.calls[k]);
    }
  }

  lemma TakeKeeps(s: Scene, name: LaneName, l: Lane)
    requires LaneInv(s, name, l) && Can(s, l, Take)
    ensures LaneInv(s, name, Moved(s, name, l, Take).0)
  {
    var t := Moved(s, name, l, Take).0;
    assert forall k :: 0 <= k < |t.queue| ==> t.queue[k] == l.queue[k + 1];
    assert l.queue == [l.queue[0]] + t.queue;
    assert forall k :: 0 <= k < |l.calls| ==> CallOk(s, l, l.calls[k]);
    forall id | id in t.fates ensures FateOk(s, name, t, id) {
      assert FateOk(s, name, l, id);
    }
  }

  lemma ReceiveKeeps(s: Scene, name: LaneName, l: Lane)
    requires LaneInv(s, name, l) && Can(s, l, Receive)
    ensures LaneInv(s, name, Moved(s, name, l, Receive).0)
  {
    var t := Moved(s, name, l, Receive).0;
    ReceiveKeepsOrder(s, name, l, t);
    ReceiveKeepsAccount(s, name, l, t);
    forall id | id in t.fates ensures FateOk(s, name, t, id) {
      assert id != l.at.id ==> FateOk(s, name, l, id);
    }
    forall k | 0 <= k < |l.calls| ensures CallOk(s, t, l.calls[k]) {
      assert CallOk(s, l, l.calls[k]);
    }
  }

  lemma ReceiveKeepsOrder(s: Scene, name: LaneName, l: Lane, t: Lane)
    requires InOrder(s, name, l) && l.at.Busy() && l.queue != []
    requires t.queue == l.queue[1..] && t.at.Busy() && t.at.id == l.queue[0]
    requires t.fates.Keys == l.fates.Keys + {l.at.id}
    ensures InOrder(s, name, t)
  {
    var held, next := l.at.id, l.queue[0];
    assert Mine(s, name, held) && Mine(s, name, next) && held < next;
    forall id | id in t.fates ensures Mine(s, name, id) && id < next {
      assert id in l.fates || id == held;
    }
    assert forall k :: 0 <= k < |t.queue| ==> t.queue[k] == l.queue[k + 1];
  }

  lemma ReceiveKeepsAccount(s: Scene, name: LaneName, l: Lane, t: Lane)
    requires Accounted(s, name, l) && l.at.Busy() && l.queue != []
    requires t.queue == l.queue[1..] && t.at.Busy() && t.at.id == l.queue[0]
    requires t.fates.Keys == l.fates.Keys + {l.at.id}
    ensures Accounted(s, name, t)
  {
    assert l.queue == [l.queue[0]] + t.queue;
    forall id | Mine(s, name, id) ensures id in t.fates || t.at.id == id || id in t.queue {
      assert id in l.fates || l.at.id == id || id in l.queue;
    }
  }

  lemma OnwardKeeps(s: Scene, name: LaneName, l: Lane, t: Lane)
    requires LaneInv(s, name, l) && l.at.Busy() && !l.at.Calling?
    requires t.at.First? || t.at.Connect? || t.at.Second?
    requires t.at.id == l.at.id
    requires t.queue == l.queue && t.fates == l.fates && t.calls == l.calls
    requires SaidOk(t) && StageOk(s, name, t)
    ensures LaneInv(s, name, t)
  {
    forall id | id in t.fates ensures FateOk(s, name, t, id) {
      assert FateOk(s, name, l, id);
    }
    assert forall k :: 0 <= k < |l.calls| ==> CallOk(s, l, l.calls[k]);
  }

  lemma RecheckKeeps(s: Scene, name: LaneName, l: Lane)
    requires LaneInv(s, name, l) && MarksBound(s) && Can(s, l, Recheck)
    ensures LaneInv(s, name, Moved(s, name, l, Recheck).0)
  {
    CheckedIsNewest(s, name, l.at.id);
    if !Fresh(s.marks, s.sent[l.at.id]) {
      FinishKeeps(s, name, l, Outdated);
    } else {
      var t := Moved(s, name, l, Recheck).0;
      CallingKeepsFates(s, name, l, t);
      CallingKeepsCalls(s, name, l, t);
      assert t.calls[|l.calls|].id == l.at.id;
    }
  }

  lemma CallingKeepsFates(s: Scene, name: LaneName, l: Lane, t: Lane)
    requires LaneInv(s, name, l) && l.at.Busy() && l.calls <= t.calls && t.fates == l.fates
    ensures forall id :: id in t.fates ==> FateOk(s, name, t, id)
  {
    forall id | id in t.fates ensures FateOk(s, name, t, id) {
      assert FateOk(s, name, l, id);
      if Called(l, id) {
        var k :| 0 <= k < |l.calls| && l.calls[k].id == id;
        assert t.calls[k].id == id;
      }
    }
  }

  lemma CallingKeepsCalls(s: Scene, name: LaneName, l: Lane, t: Lane)
    requires LaneInv(s, name, l) && l.at.Second? && Newest(s.sent, s.searches, s.queries, l.at.id)
    requires t == l.(at := Calling(l.at.id), calls := l.calls + [Call(l.at.id, s.searches, s.queries)])
    ensures CallsOk(s, t)
  {
    forall k | 0 <= k < |l.calls| ensures CallOk(s, t, t.calls[k]) && t.calls[k].id < l.at.id {
      assert CallOk(s, l, l.calls[k]);
      assert l.calls[k].id in l.fates;
    }
  }

  /** A change to what is said and to the connection alone. */
  lemma SayingKeeps(s: Scene, name: LaneName, l: Lane, t: Lane)
    requires LaneInv(s, name, l) && !l.at.Busy()
    requires t == l.(connected := t.connected, wasDown := t.wasDown, said := t.said)
    requires SaidOk(t)
    ensures LaneInv(s, name, t)
  {
    forall id | id in t.fates ensures FateOk(s, name, t, id) {
      assert FateOk(s, name, l, id);
    }
    assert forall k :: 0 <= k < |l.calls| ==> CallOk(s, l, l.calls[k]);
  }

  lemma DrainedKeeps(s: Scene, name: LaneName, l: Lane)
    requires LaneInv(s, name, l) && MarksBound(s) && Can(s, l, Drained)
    ensures LaneInv(s, name, Moved(s, name, l, Drained).0)
  {
    if s.sent[l.at.id].Stop? {
      FinishKeeps(s, name, l, Halted);
    } else {
      OnwardKeeps(s, name, l, Moved(s, name, l, Drained).0);
    }
  }

  lemma CheckKeeps(s: Scene, name: LaneName, l: Lane)
    requires LaneInv(s, name, l) && MarksBound(s) && Can(s, l, Check)
    ensures LaneInv(s, name, Moved(s, name, l, Check).0)
  {
    CheckedIsNewest(s, name, l.at.id);
    if !Fresh(s.marks, s.sent[l.at.id]) {
      FinishKeeps(s, name, l, Outdated);
    } else {
      OnwardKeeps(s, name, l, Moved(s, name, l, Check).0);
    }
  }

  lemma ConnectKeeps(s: Scene, name: LaneName, l: Lane, move: Move)
    requires LaneInv(s, name, l) && Can(s, l, move) && (move.Connected? || move.Unreachable?)
    ensures LaneInv(s, name, Moved(s, name, l, move).0)
  {
    var t := Moved(s, name, l, move).0;
    if move.Connected? {
      OnwardKeeps(s, name, l, t);
    } else {
      FinishKeeps(s, name, l, Unconnected);
      SayingKeeps(s, name, Finish(l, Unconnected), t);
    }
  }

  lemma EndKeeps(s: Scene, name: LaneName, l: Lane, move: Move)
    requires LaneInv(s, name, l) && Can(s, l, move) && l.at.Calling?
    ensures LaneInv(s, name, Moved(s, name, l, move).0)
  {
    if move.Cut? {
      FinishKeeps(s, name, l, CutOff);
      SayingKeeps(s, name, Finish(l, CutOff), Moved(s, name, l, move).0);
    } else {
      FinishKeeps(s, name, l, if move.Refuse? then Refused else Answered);
    }
  }

  /** Every step of a lane keeps its invariant. */
  lemma MoveKeeps(s: Scene, name: LaneName, l: Lane, move: Move)
    requires LaneInv(s, name, l) && MarksBound(s) && Can(s, l, move)
    ensures LaneInv(s, name, Moved(s, name, l, move).0)
  {
    match move
    case Take => TakeKeeps(s, name, l);
    case Receive => ReceiveKeeps(s, name, l);
    case Drained => DrainedKeeps(s, name, l);
    case Check => CheckKeeps(s, name, l);
    case Connected => ConnectKeeps(s, name, l, move);
    case Unreachable => ConnectKeeps(s, name, l, move);
    case Recheck => RecheckKeeps(s, name, l);
    case Reply(_) => EndKeeps(s, name, l, move);
    case Refuse => EndKeeps(s, name, l, move);
    case Cut => EndKeeps(s, name, l, move);
  }

  /// What is put on the event loop

  /** The answer to this request: under its own stamp, and for the page or the half it
      asked for. */
  predicate Carries(ask: Ask, got: Got) {
    match ask
    case Search(generation, _, _, offset, limit) =>
      && got.Landed? && got.generation == generation && got.offset == offset && got.limit == limit
      && Matches(ask, got.reply)
    case Count(revision, _) => got.Counted? && got.revision == revision && Matches(ask, got.reply)
    case Facets(revision, _, half) =>
      got.Faceted? && got.revision == revision && got.half == half && Matches(ask, got.reply)
    case Explain(revision, _) => got.Explained? && got.revision == revision
    case _ => got.Done?
  }

  /** A search is refused under its generation, anything else under its revision, and
      what has none under zero. */
  predicate Denies(ask: Ask, got: Got) {
    && got.Denied?
    && (ask.Search? ==> got.of == OfSearch(ask.generation))
    && (ask.Facets? || ask.Explain? || ask.Count? ==> got.of == OfQuery(ask.revision))
    && (ask.Await? || ask.Errand? || ask.Stop? ==> got.of == OfQuery(0))
  }

  /** What a post says of a request is what became of it. */
  ghost predicate PostOk(s: Scene, l: Lane, got: Got) {
    got.Back? || (
      && got.id < |s.sent| && got.id in l.fates
      && (got.Answers() ==> l.fates[got.id].Answered? && Carries(s.sent[got.id], got))
      && (got.Denied? ==> l.fates[got.id].Refused? && Denies(s.sent[got.id], got))
      && (got.Lost? ==> l.fates[got.id].CutOff? || l.fates[got.id].Unconnected?))
  }

  /** A post of this lane about one of its requests. */
  predicate About(posted: seq<Post>, name: LaneName, k: int) {
    0 <= k < |posted| && posted[k].lane == name && !posted[k].got.Back?
  }

  /** The post that says how this request ended. */
  predicate EndsAt(posted: seq<Post>, name: LaneName, id: nat, k: int) {
    About(posted, name, k) && posted[k].got.id == id
  }

  /** Every call that ended has been posted, and of what one lane posts later posts are
      about later requests. */
  ghost predicate PostsOk(s: Scene, name: LaneName, l: Lane, posted: seq<Post>) {
    && (forall k :: 0 <= k < |posted| && posted[k].lane == name ==> PostOk(s, l, posted[k].got))
    && (forall j, k :: 0 <= j < k < |posted| && About(posted, name, j) && About(posted, name, k)
          ==> posted[j].got.id < posted[k].got.id)
    && (forall id :: id in l.fates && l.fates[id].Reached() ==> exists k :: EndsAt(posted, name, id, k))
  }

  /** What this lane has said of the service's going and coming. */
  function SaidIn(posted: seq<Post>, name: LaneName): seq<Said> {
    if posted == [] then []
    else
      var (rest, last) := (SaidIn(posted[..|posted| - 1], name), posted[|posted| - 1]);
      if last.lane != name then rest
      else if last.got.Lost? then rest + [Down]
      else if last.got.Back? then rest + [Up]
      else rest
  }

  /** A request more may be done with, as long as no call of it ended. */
  lemma PostsStay(s: Scene, t: Scene, name: LaneName, l: Lane, m: Lane, posted: seq<Post>)
    requires PostsOk(s, name, l, posted) && s.sent <= t.sent
    requires forall id :: id in l.fates ==> id in m.fates && m.fates[id] == l.fates[id]
    requires forall id :: id in m.fates && m.fates[id].Reached() ==> id in l.fates
    ensures PostsOk(t, name, m, posted)
  {
    forall k | 0 <= k < |posted| && posted[k].lane == name ensures PostOk(t, m, posted[k].got) {
      assert PostOk(s, l, posted[k].got);
    }
  }

  lemma PostAdded(s: Scene, name: LaneName, l: Lane, m: Lane, posted: seq<Post>, got: Got)
    requires PostsOk(s, name, l, posted) && PostOk(s, m, got)
    requires l.at.Busy() && l.at.id in m.fates && m.fates == l.fates[l.at.id := m.fates[l.at.id]]
    requires forall id :: id in l.fates ==> id < l.at.id
    requires !got.Back? && got.id == l.at.id
    ensures PostsOk(s, name, m, posted + [Post(name, got)])
  {
    var after := posted + [Post(name, got)];
    forall k | 0 <= k < |posted| && posted[k].lane == name
      ensures PostOk(s, m, posted[k].got) && (About(after, name, k) ==> posted[k].got.id < l.at.id)
    {
      assert PostOk(s, l, posted[k].got);
    }
    assert forall k :: 0 <= k < |posted| && About(after, name, k) ==> About(posted, name, k);
    forall id | id in m.fates && m.fates[id].Reached() ensures exists k :: EndsAt(after, name, id, k) {
      if id == l.at.id {
        assert EndsAt(after, name, id, |posted|);
      } else {
        var k :| EndsAt(posted, name, id, k);
        assert EndsAt(after, name, id, k);
      }
    }
  }

  /** A post about no request, or another lane's. */
  lemma PostElsewhere(s: Scene, name: LaneName, l: Lane, posted: seq<Post>, post: Post)
    requires PostsOk(s, name, l, posted) && (post.got.Back? || post.lane != name)
    ensures PostsOk(s, name, l, posted + [post])
  {
    assert forall k :: About(posted + [post], name, k) ==> About(posted, name, k);
    forall id | id in l.fates && l.fates[id].Reached() ensures exists k :: EndsAt(posted + [post], name, id, k) {
      var k :| EndsAt(posted, name, id, k);
      assert EndsAt(posted + [post], name, id, k);
    }
  }

  lemma EndIsTrue(s: Scene, name: LaneName, l: Lane, move: Move)
    requires LaneInv(s, name, l) && Can(s, l, move)
    ensures var (m, posts) := Moved(s, name, l, move);
            posts != [] && !posts[0].got.Back? ==>
              && l.at.Busy() && l.at.id in m.fates && m.fates == l.fates[l.at.id := m.fates[l.at.id]]
              && posts[0].got.id == l.at.id && PostOk(s, m, posts[0].got)
  {
  }

  /** Every step of a lane keeps its account of what it has posted. */
  lemma MovePosts(s: Scene, name: LaneName, l: Lane, move: Move, posted: seq<Post>)
    requires LaneInv(s, name, l) && Can(s, l, move) && PostsOk(s, name, l, posted)
    ensures var (m, posts) := Moved(s, name, l, move); PostsOk(s, name, m, posted + posts)
  {
    var (m, posts) := Moved(s, name, l, move);
    if posts == [] {
      assert posted + posts == posted;
      PostsStay(s, s, name, l, m, posted);
    } else if posts[0].got.Back? {
      PostsStay(s, s, name, l, m, posted);
      PostElsewhere(s, name, m, posted, posts[0]);
    } else {
      EndIsTrue(s, name, l, move);
      PostAdded(s, name, l, m, posted, posts[0].got);
    }
  }

  lemma MoveSays(s: Scene, name: LaneName, l: Lane, move: Move, posted: seq<Post>)
    requires Can(s, l, move) && SaidIn(posted, name) == l.said
    ensures var (m, posts) := Moved(s, name, l, move); SaidIn(posted + posts, name) == m.said
  {
    var (m, posts) := Moved(s, name, l, move);
    if posts == [] {
      assert posted + posts == posted;
    } else {
      assert (posted + posts)[..|posted|] == posted;
    }
  }

  lemma OtherSays(name: LaneName, posted: seq<Post>, post: Post)
    requires post.lane != name
    ensures SaidIn(posted + [post], name) == SaidIn(posted, name)
  {
    assert (posted + [post])[..|posted|] == posted;
  }

  /** Other requests being sent, and the marks moving on, leave a lane in order. */
  lemma SceneMovesOn(s: Scene, t: Scene, name: LaneName, l: Lane)
    requires LaneInv(s, name, l)
    requires s.entered == t.entered && s.sent <= t.sent
    requires s.searches <= t.searches && s.queries <= t.queries
    requires s.marks.search <= t.marks.search && s.marks.query <= t.marks.query
    ensures LaneInv(t, name, l)
  {
    assert forall id :: Mine(t, name, id) <==> Mine(s, name, id);
    forall id | id in l.fates ensures FateOk(t, name, l, id) {
      assert FateOk(s, name, l, id);
    }
    forall k | 0 <= k < |l.calls| ensures CallOk(t, l, l.calls[k]) {
      assert CallOk(s, l, l.calls[k]);
    }
  }

  /** One more request has been enqueued, on another lane. */
  lemma EnqueueElsewhereKeeps(s: Scene, name: LaneName, l: Lane)
    requires LaneInv(s, name, l)
    requires s.entered < |s.sent| && Route(s.sent[s.entered]) != name
    ensures LaneInv(s.(entered := s.entered + 1), name, l)
  {
    var t := s.(entered := s.entered + 1);
    assert forall id :: Mine(t, name, id) <==> Mine(s, name, id);
    forall id | id in l.fates ensures FateOk(t, name, l, id) {
      assert FateOk(s, name, l, id);
    }
    assert forall k :: 0 <= k < |l.calls| ==> CallOk(s, l, l.calls[k]);
  }

  /** The next request is enqueued on the lane it is routed to. */
  lemma EnqueueKeeps(s: Scene, name: LaneName, l: Lane)
    requires LaneInv(s, name, l)
    requires s.entered < |s.sent| && Route(s.sent[s.entered]) == name
    ensures LaneInv(s.(entered := s.entered + 1), name, l.(queue := l.queue + [s.entered]))
  {
    var t := s.(entered := s.entered + 1);
    var m := l.(queue := l.queue + [s.entered]);
    assert InOrder(t, name, m) by {
      assert forall id: nat :: Mine(s, name, id) ==> Mine(t, name, id) && id < s.entered;
    }
    assert Accounted(t, name, m) by {
      assert m.queue[|l.queue|] == s.entered;
      assert forall id :: id in l.queue ==> id in m.queue;
      assert forall id :: Mine(t, name, id) && id != s.entered ==> Mine(s, name, id);
    }
    forall id | id in m.fates ensures FateOk(t, name, m, id) {
      assert FateOk(s, name, l, id);
    }
    assert CallsOk(t, m) by {
      assert forall k :: 0 <= k < |l.calls| ==> CallOk(s, l, l.calls[k]);
    }
  }

  /** How many steps a lane can still take with nothing more sent to it. */
  function Work(l: Lane): nat {
    7 * |l.queue| + match l.at
                    case Idle => 0
                    case Stopped => 0
                    case Drain(_, _) => 6
                    case First(_) => 5
                    case Connect(_) => 4
                    case Second(_) => 3
                    case Calling(_) => 2
  }

  /** A lane that is not idle, or has something queued, can always take a step, and
      every step uses up work: left alone, a lane empties its channel. */
  lemma LanesRunOut(s: Scene, name: LaneName, l: Lane)
    requires LaneInv(s, name, l)
    ensures forall move :: Can(s, l, move) ==> Work(Moved(s, name, l, move).0) < Work(l)
    ensures !l.at.Stopped? ==>
              ((exists move :: Can(s, l, move)) <==> l.at.Busy() || l.queue != [])
  {
    if l.at.Busy() || (l.at.Idle? && l.queue != []) {
      var move := match l.at
        case Idle => Take
        case Drain(_, last) => if last || l.queue == [] then Drained else Receive
        case First(_) => Check
        case Connect(_) => Connected
        case Second(_) => Recheck
        case _ => Refuse;
      assert l.queue != [] ==> Mine(s, name, l.queue[0]);
      assert Can(s, l, move);
    }
  }
}
