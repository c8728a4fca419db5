/** The UI thread's half of the search protocol: the state it keeps, the turns it
    takes, and what each turn sends. `WindowState` gives every turn as a function of
    the state; `Window` does the same by updating fields and sending on a `Link`. */

module WindowState {
  import opened Naturals
  import opened Options
  import opened Asks

  const SPAN: nat := 200
  const I32_MAX: nat := 0x7fff_ffff

  /** The text operations of the query language, which are other crates' work. */
  datatype Lexicon = Lexicon(
    trim: string -> string,
    orderFor: (string, string) -> string,
    withoutKind: string -> Option<string>,
    withoutAge: string -> Option<string>)

  /** `of` is the query the total was counted for: the program does not keep it, the
      theorems are about it. */
  datatype Exact = Exact(revision: nat, total: nat, capped: bool, of: string)

  /** A background timer that has been armed, with what its closure captured. */
  datatype Timer = Timer(revision: nat, query: string)

  /** `pages` gives, for each page held, the question it answers; `lengthOf` the
      query the list's length was last worked out for; `scheduled` the revisions the
      sidebar was scheduled for, in order. */
  datatype Ui = Ui(
    query: string, sort: string, descending: bool,
    generation: nat, revision: nat,
    background: Option<nat>, countQuery: Option<nat>, exact: Option<Exact>,
    shown: nat, rewind: bool,
    pages: map<nat, Question>, length: nat, lengthOf: string,
    timers: seq<Timer>, scheduled: seq<nat>)

  /** What one turn hears from the store of pages: the longest page ever filed, a bound on
      the rows held, the pages dropped, and the page worth fetching, if there is one. */
  datatype Store = Store(served: nat, heldTo: nat, dropped: set<nat>, follow: Option<nat>)

  /** What a call came back with, and what it was really asked. */
  datatype Reply =
    | Rows(question: Question, total: nat, capped: bool, got: nat)
    | Tally(query: string, total: nat, capped: bool)
    | Unexpected

  /** What a refusal was a refusal of. */
  datatype Stamp = OfSearch(generation: nat) | OfQuery(revision: nat)

  /** What a lane puts on the event loop. `id` is the place in the send order of the
      request it had in hand; the first five are answers to it. */
  datatype Got =
    | Landed(id: nat, generation: nat, offset: nat, limit: nat, reply: Reply)
    | Counted(id: nat, revision: nat, reply: Reply)
    | Faceted(id: nat, revision: nat, half: Half, reply: Reply)
    | Explained(id: nat, revision: nat)
    | Done(id: nat)
    | Denied(id: nat, of: Stamp)
    | Lost(id: nat)
    | Back
  {
    predicate Answers() {
      Landed? || Counted? || Faceted? || Explained? || Done?
    }
  }

  function Full(lex: Lexicon, ui: Ui): string {
    lex.trim(ui.query)
  }

  function Asked(lex: Lexicon, ui: Ui): Question {
    Question(Full(lex, ui), lex.orderFor(Full(lex, ui), ui.sort), ui.descending)
  }

  function AdvanceQuery(ui: Ui): Ui {
    ui.(generation := ui.generation + 1, revision := ui.revision + 1,
        background := None, countQuery := None, exact := None)
  }

  function AdvanceOrder(ui: Ui): Ui {
    ui.(generation := ui.generation + 1)
  }

  /** Mark the sidebar work as scheduled and arm its timer, once per matching set. */
  function ScheduleBackground(lex: Lexicon, ui: Ui): Ui {
    if ui.background == Some(ui.revision) then ui
    else ui.(background := Some(ui.revision),
             timers := ui.timers + [Timer(ui.revision, Full(lex, ui))],
             scheduled := ui.scheduled + [ui.revision])
  }

  /** Ask for the fallback count unless this matching set already has. */
  function CountOnce(lex: Lexicon, ui: Ui): (Ui, seq<Ask>) {
    if ui.countQuery == Some(ui.revision) then (ui, [])
    else (ui.(countQuery := Some(ui.revision)), [Count(ui.revision, Full(lex, ui))])
  }

  function PageAsk(lex: Lexicon, ui: Ui, offset: nat, limit: nat): Ask {
    Search(ui.generation, ui.revision, Asked(lex, ui), offset, limit)
  }

  function FetchAsk(lex: Lexicon, ui: Ui, page: nat): Ask {
    PageAsk(lex, ui, page * SPAN, SPAN)
  }

  function Clamp(rows: nat): nat {
    if rows < 20 then 20 else Smaller(rows, SPAN)
  }

  function Dispatch(lex: Lexicon, ui: Ui, rows: nat): (Ui, seq<Ask>) {
    (ui.(rewind := true, pages := map[]),
     [Explain(ui.revision, ui.query), PageAsk(lex, ui, 0, Clamp(rows))])
  }

  function Typed(lex: Lexicon, ui: Ui, text: string, rows: nat): (Ui, seq<Ask>) {
    Dispatch(lex, AdvanceQuery(ui.(query := text)), rows)
  }

  function Turned(ui: Ui, key: string, startsDown: bool): Ui {
    AdvanceOrder(if ui.sort == key then ui.(descending := !ui.descending)
                 else ui.(descending := startsDown, sort := key))
  }

  function SortedBy(lex: Lexicon, ui: Ui, key: string, startsDown: bool, rows: nat): (Ui, seq<Ask>) {
    var (ui', asks) := Dispatch(lex, Turned(ui, key, startsDown), rows);
    (ui', [Errand] + asks)
  }

  /** A timer of an older revision does nothing. Another asks for the sidebar in one walk,
      or, where the query names a kind or an age, in two and counts apart. */
  function Rung(lex: Lexicon, ui: Ui, t: Timer): (Ui, seq<Ask>) {
    if ui.revision != t.revision then (ui, [])
    else
      var kinds, ages := lex.withoutKind(t.query), lex.withoutAge(t.query);
      if kinds.None? && ages.None? then (ui, [Facets(t.revision, t.query, Both)])
      else
        var (ui', count) := CountOnce(lex, ui);
        (ui', [Facets(t.revision, kinds.GetOr(t.query), Kinds),
               Facets(t.revision, ages.GetOr(t.query), Ages)] + count)
  }

  /** The end of a page short by both measures, or else the larger of the count and the
      end of the page. */
  function ListLength(counted: nat, offset: nat, got: nat, asked: nat, served: nat): nat {
    if got < asked && got < served then offset + got
    else Larger(counted, offset + got)
  }

  predicate Stale(ui: Ui, generation: nat) {
    generation < ui.shown || generation != ui.generation
  }

  function Pages(ui: Ui, page: nat, question: Question, store: Store): map<nat, Question> {
    ui.pages[page := question] - (store.dropped - {page})
  }

  /** A current page is filed: the list's length is worked out from the exact count
      when there is one, without looking at which revision it was for. */
  function Filed(ui: Ui, got: Got, store: Store): Ui
    requires got.Landed? && got.reply.Rows?
  {
    var r := got.reply;
    var counted := Smaller(if ui.exact.Some? then ui.exact.value.total else r.total, I32_MAX);
    ui.(length := ListLength(counted, got.offset, r.got, got.limit, store.served),
        lengthOf := if ui.exact.Some? then ui.exact.value.of else r.question.query,
        pages := Pages(ui, got.offset / SPAN, r.question, store),
        shown := got.generation,
        exact := if r.capped then ui.exact
                 else Some(Exact(ui.revision, r.total, false, r.question.query)),
        rewind := ui.rewind && got.offset != 0)
  }

  function LandSearch(lex: Lexicon, ui: Ui, got: Got, store: Store): (Ui, seq<Ask>)
    requires got.Landed?
  {
    if Stale(ui, got.generation) || !got.reply.Rows? then (ui, [])
    else
      (ScheduleBackground(lex, Filed(ui, got, store)),
       if store.follow.Some? then [FetchAsk(lex, ui, store.follow.value)] else [])
  }

  /** An exact total is kept and gives the length, or what is held does where that is more. */
  function Tightened(ui: Ui, total: nat, capped: bool, of: string, store: Store): Ui {
    ui.(exact := Some(Exact(ui.revision, total, capped, of)),
        length := Larger(Smaller(total, I32_MAX), store.heldTo), lengthOf := of)
  }

  function LandCount(ui: Ui, got: Got, store: Store): (Ui, seq<Ask>)
    requires got.Counted?
  {
    if got.revision != ui.revision || !got.reply.Tally? then (ui, [])
    else (Tightened(ui, got.reply.total, got.reply.capped, got.reply.query, store), [])
  }

  function LandFacets(lex: Lexicon, ui: Ui, got: Got, store: Store): (Ui, seq<Ask>)
    requires got.Faceted?
  {
    if got.revision != ui.revision || !got.reply.Tally? || got.half != Both then (ui, [])
    else if got.reply.capped then CountOnce(lex, ui)
    else (Tightened(ui, got.reply.total, false, got.reply.query, store), [])
  }

  function Apply(lex: Lexicon, ui: Ui, got: Got, store: Store): (Ui, seq<Ask>) {
    match got
    case Landed(_, _, _, _, _) => LandSearch(lex, ui, got, store)
    case Counted(_, _, _) => LandCount(ui, got, store)
    case Faceted(_, _, _, _) => LandFacets(lex, ui, got, store)
    case _ => (ui, [])
  }
}

module Window {
  import opened Naturals
  import opened Options
  import opened Asks
  import opened WindowState
  import opened Link

  class Window {
    const lex: Lexicon
    const link: Link
    var query: string
    var sort: string
    var descending: bool
    var generation: nat
    var revision: nat
    var background: Option<nat>
    var countQuery: Option<nat>
    var exact: Option<Exact>
    var shown: nat
    var rewind: bool
    var pages: map<nat, Question>
    var length: nat
    var lengthOf: string
    var timers: seq<Timer>
    var scheduled: seq<nat>

    function View(): Ui
      reads this
    {
      Ui(query, sort, descending, generation, revision, background, countQuery, exact,
         shown, rewind, pages, length, lengthOf, timers, scheduled)
    }

    /** What one turn does: the new state, and what went out in it. */
    twostate predicate Did(turn: (Ui, seq<Ask>))
      reads this, link
    {
      View() == turn.0 && link.log == old(link.log) + turn.1
    }

    /** The reading of the query and its first rows: as many as are on screen, if that
        is at least 20 and no more than a page. */
    ghost predicate AskedFromTheTop(before: seq<Ask>, rows: nat)
      reads this, link
    {
      var full := lex.trim(query);
      exists limit ::
        && link.log == before + [Explain(revision, query),
                                 Search(generation, revision, Question(full, lex.orderFor(full, sort), descending), 0, limit)]
        && 20 <= limit <= 200 && (20 <= rows <= 200 ==> limit == rows)
        && (rows < 20 ==> limit == 20) && (rows > 200 ==> limit == 200)
    }

    constructor (lex: Lexicon, link: Link, sort: string, descending: bool)
      ensures this.lex == lex && this.link == link
      ensures View() == Ui("", sort, descending, 0, 0, None, None, None, 0, true, map[], 0, "", [], [])
    {
      this.lex, this.link := lex, link;
      query, this.sort, this.descending := "", sort, descending;
      generation, revision, shown := 0, 0, 0;
      background, countQuery, exact := None, None, None;
      rewind, pages, length, lengthOf := true, map[], 0, "";
      timers, scheduled := [], [];
    }

    method AdvanceQuery()
      modifies this
      ensures View() == WindowState.AdvanceQuery(old(View()))
      ensures generation == old(generation) + 1 && revision == old(revision) + 1
      ensures background == None && countQuery == None && exact == None
    {
      generation := generation + 1;
      revision := revision + 1;
      background := None;
      countQuery := None;
      exact := None;
    }

    method AdvanceOrder()
      modifies this`generation
      ensures View() == WindowState.AdvanceOrder(old(View()))
      ensures generation == old(generation) + 1
    {
      generation := generation + 1;
    }

    method StartBackground() returns (start: bool)
      modifies this`background
      ensures start <==> old(background) != Some(revision)
      ensures View() == old(View()).(background := Some(revision))
    {
      if background == Some(revision) {
        return false;
      }
      background := Some(revision);
      return true;
    }

    method StartCount() returns (start: bool)
      modifies this`countQuery
      ensures start <==> old(countQuery) != Some(revision)
      ensures View() == old(View()).(countQuery := Some(revision))
    {
      if countQuery == Some(revision) {
        return false;
      }
      countQuery := Some(revision);
      return true;
    }

    method SendPage(offset: nat, limit: nat)
      requires link.Valid()
      modifies link`log, link.freshness, link.fast, link.slow, link.wait
      ensures link.log == old(link.log) + [PageAsk(lex, View(), offset, limit)]
    {
      var full := lex.trim(query);
      link.Send(Search(generation, revision, Question(full, lex.orderFor(full, sort), descending), offset, limit));
    }

    method SendSearch(offset: nat, limit: nat)
      requires link.Valid()
      modifies link`log, link.freshness, link.fast, link.slow, link.wait
      ensures link.log == old(link.log) + [Explain(revision, query), PageAsk(lex, View(), offset, limit)]
    {
      link.Send(Explain(revision, query));
      SendPage(offset, limit);
    }

    method Dispatch(rows: nat)
      requires link.Valid()
      modifies this, link`log, link.freshness, link.fast, link.slow, link.wait
      ensures Did(WindowState.Dispatch(lex, old(View()), rows))
      ensures AskedFromTheTop(old(link.log), rows)
      ensures pages == map[] && rewind && generation == old(generation) && revision == old(revision)
    {
      var limit := if rows < 20 then 20 else if rows > SPAN then SPAN else rows;
      rewind := true;
      pages := map[];
      SendSearch(0, limit);
    }

    method QueryChanged(text: string, rows: nat)
      requires link.Valid()
      modifies this, link`log, link.freshness, link.fast, link.slow, link.wait
      ensures Did(Typed(lex, old(View()), text, rows))
      ensures AskedFromTheTop(old(link.log), rows)
      ensures query == text && sort == old(sort) && descending == old(descending)
      ensures generation == old(generation) + 1 && revision == old(revision) + 1
    {
      query := text;
      AdvanceQuery();
      Dispatch(rows);
    }

    method SortBy(key: string, startsDown: bool, rows: nat)
      requires link.Valid()
      modifies this, link`log, link.freshness, link.fast, link.slow, link.wait
      ensures Did(SortedBy(lex, old(View()), key, startsDown, rows))
      ensures AskedFromTheTop(old(link.log) + [Errand], rows)
      ensures sort == key && descending == if old(sort) == key then !old(descending) else startsDown
      ensures query == old(query) && generation == old(generation) + 1 && revision == old(revision)
    {
      if sort == key {
        descending := !descending;
      } else {
        descending := startsDown;
        sort := key;
      }
      AdvanceOrder();
      link.Send(Errand);
      Dispatch(rows);
    }

    /** The timer armed by `LandSearch` fires; the timer itself is the caller's. */
    method BackgroundDue(t: Timer)
      requires link.Valid()
      modifies this, link`log, link.freshness, link.fast, link.slow, link.wait
      ensures Did(Rung(lex, old(View()), t))
      ensures revision != t.revision ==> link.log == old(link.log)
      ensures var kinds, ages := lex.withoutKind(t.query), lex.withoutAge(t.query);
              revision == t.revision ==>
                if kinds.None? && ages.None? then link.log == old(link.log) + [Facets(revision, t.query, Both)]
                else link.log == old(link.log)
                                 + [Facets(revision, if kinds.Some? then kinds.value else t.query, Kinds),
                                    Facets(revision, if ages.Some? then ages.value else t.query, Ages)]
                                 + if old(countQuery) == Some(revision) then []
                                   else [Count(revision, lex.trim(query))]
    {
      if revision != t.revision {
        return;
      }
      var forKinds := lex.withoutKind(t.query);
      var forAges := lex.withoutAge(t.query);
      if forKinds.None? && forAges.None? {
        link.Send(Facets(t.revision, t.query, Both));
        return;
      }
      link.Send(Facets(t.revision, forKinds.GetOr(t.query), Kinds));
      link.Send(Facets(t.revision, forAges.GetOr(t.query), Ages));
      var start := StartCount();
      if start {
        link.Send(Count(t.revision, lex.trim(query)));
      }
    }

    method File(got: Got, store: Store)
      requires got.Landed? && got.reply.Rows?
      modifies this
      ensures View() == Filed(old(View()), got, store)
      ensures exact == if got.reply.capped then old(exact)
                       else Some(Exact(revision, got.reply.total, false, got.reply.question.query))
      ensures rewind <==> old(rewind) && got.offset != 0
      ensures forall page :: page in pages <==>
                page == got.offset / 200 || (page in old(pages) && page !in store.dropped)
    {
      var r := got.reply;
      Measure(got, store);
      pages := pages[got.offset / SPAN := r.question] - (store.dropped - {got.offset / SPAN});
      shown := got.generation;
      if !r.capped {
        exact := Some(Exact(revision, r.total, false, r.question.query));
      }
      if rewind && got.offset == 0 {
        rewind := false;
      }
    }

    /** The length of the list a current page leaves. */
    method Measure(got: Got, store: Store)
      requires got.Landed? && got.reply.Rows?
      modifies this`length, this`lengthOf
      ensures var filed := Filed(old(View()), got, store);
              View() == old(View()).(length := filed.length, lengthOf := filed.lengthOf)
      ensures var end := got.offset + got.reply.got;
              var counted := if exact.Some? then exact.value.total else got.reply.total;
              if got.reply.got < got.limit && got.reply.got < store.served then length == end
              else end <= length && (counted <= I32_MAX ==> counted <= length)
                   && (length == end || length == counted || length == I32_MAX < counted)
    {
      var r := got.reply;
      var counted := Smaller(if exact.Some? then exact.value.total else r.total, I32_MAX);
      length := ListLength(counted, got.offset, r.got, got.limit, store.served);
      lengthOf := if exact.Some? then exact.value.of else r.question.query;
    }

    method Schedule()
      modifies this
      ensures View() == ScheduleBackground(lex, old(View()))
    {
      var start := StartBackground();
      if start {
        timers := timers + [Timer(revision, lex.trim(query))];
        scheduled := scheduled + [revision];
      }
    }

    method SearchLanded(got: Got, store: Store)
      requires link.Valid() && got.Landed?
      modifies this, link`log, link.freshness, link.fast, link.slow, link.wait
      ensures Did(LandSearch(lex, old(View()), got, store))
      ensures got.generation == old(generation) && old(shown) <= got.generation && got.reply.Rows? ==>
                && got.offset / 200 in pages && pages[got.offset / 200] == got.reply.question
                && shown == got.generation && background == Some(revision)
                && link.log == old(link.log)
                               + if store.follow.None? then []
                                 else [Search(generation, revision, Asked(lex, View()), store.follow.value * 200, 200)]
      ensures got.generation != old(generation) ==> View() == old(View()) && link.log == old(link.log)
    {
      if got.generation < shown || got.generation != generation || !got.reply.Rows? {
        return;
      }
      File(got, store);
      ghost var filed := View();
      if store.follow.Some? {
        SendPage(store.follow.value * SPAN, SPAN);
      }
      assert View() == filed;
      Schedule();
    }

    method CountLanded(got: Got, store: Store)
      requires got.Counted?
      modifies this
      ensures View() == LandCount(old(View()), got, store).0
      ensures got.revision == revision && got.reply.Tally? ==>
                && exact == Some(Exact(revision, got.reply.total, got.reply.capped, got.reply.query))
                && store.heldTo <= length && (length == store.heldTo || length == got.reply.total || length == I32_MAX)
                && (got.reply.total <= I32_MAX ==> got.reply.total <= length)
      ensures got.revision != revision ==> View() == old(View())
    {
      if got.revision != revision || !got.reply.Tally? {
        return;
      }
      exact := Some(Exact(got.revision, got.reply.total, got.reply.capped, got.reply.query));
      SetTotal(Smaller(got.reply.total, I32_MAX), got.reply.query, store);
    }

    method SetTotal(total: nat, of: string, store: Store)
      modifies this`length, this`lengthOf
      ensures View() == old(View()).(length := Larger(total, store.heldTo), lengthOf := of)
    {
      length := if total < store.heldTo then store.heldTo else total;
      lengthOf := of;
    }

    method FacetsLanded(got: Got, store: Store)
      requires link.Valid() && got.Faceted?
      modifies this, link`log, link.freshness, link.fast, link.slow, link.wait
      ensures Did(LandFacets(lex, old(View()), got, store))
      ensures var due := got.revision == revision && got.reply.Tally? && got.half == Both;
              && (!due ==> View() == old(View()) && link.log == old(link.log))
              && (due && !got.reply.capped ==>
                    exact == Some(Exact(revision, got.reply.total, false, got.reply.query)) && link.log == old(link.log))
              && (due && got.reply.capped ==>
                    exact == old(exact) && countQuery == Some(revision)
                    && link.log == old(link.log) + if old(countQuery) == Some(revision) then []
                                                   else [Count(revision, lex.trim(query))])
    {
      if got.revision != revision || !got.reply.Tally? || got.half != Both {
        return;
      }
      if got.reply.capped {
        var start := StartCount();
        if start {
          link.Send(Count(got.revision, lex.trim(query)));
        }
      } else {
        exact := Some(Exact(got.revision, got.reply.total, false, got.reply.query));
        SetTotal(Smaller(got.reply.total, I32_MAX), got.reply.query, store);
      }
    }
  }
}
