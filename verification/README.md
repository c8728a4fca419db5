# Scour, its faces, verified

A Dafny model of the parts of Scour's window and terminal that are hardest to get right,
and proofs about them.

- **The search protocol of the window.** The UI thread stamps every search with a
  generation and every matching set with a revision, publishes the newest of both, and
  puts the request on one of three lanes. A lane takes a request, may coalesce it, checks
  it, connects, checks it again and calls the service; the answer comes back through the
  event loop. `WindowState` and `Window` are the UI thread, `Link` the publishing and the
  routing, `Lanes` one lane's thread, `Protocol` all of them together as a step relation
  in which any of them may move next. `Answers` follows every answer from the call to the
  screen, and `Promises` says what holds in every run.
- **The virtual list.** `Pages` is the store of pages, `Rows` the list model over it with
  its picture sweep, `Slots` the ring of reused slots, `Lines` the grid over the same
  rows. What the view is told is a sequence of notes, and `Views.Replayed` is a view that
  obeys them, so "the view is right" is something to prove.
- **The terminal.** `Terminal.App` is the state machine of the query line, the cursor and
  the viewport; `Viewport` says where the list looks and how it follows a file; `Rail` and
  `Settings` are two screens whose drawing and whose press have to agree.
- **Arithmetic and text.** `Calendar` is the closed form from seconds to a date against
  the calendar itself; `Utf8` is section 3 of RFC 3629; `Painted`, `Matching` and
  `Wrapping` cut text; `Base64` is section 4 of RFC 4648; `Fold` is the stable top few.

Where the program updates fields the model is a class with those fields, and each method
is proved against a function of the old state; the properties are lemmas about those
functions. `dafny verify dfyconfig.toml` checks everything.

What the code does and its comments do not say:

- `newest_queued` does not look at the message in hand: a `Stop` in hand would be lost if
  anything had been queued behind it (`Asks.StopInHandCanBeLost`). No run of the window
  queues anything there (`Promises.NothingBehindStop`).
- A placed ring that changes size does not tell a slot that goes from a row to nothing
  (`Slots.ReplayedPlace`, `Slots.ResizeCanLeaveStaleSlots`).
- A page on screen can be let go for the page fetched beside it, and the view is told only
  of the rows that came: a page whose rows are read again moves up in the order of use only
  if another was read in between (`ListSpec.LetGoWhileDrawn`). With the length the window
  works out for a page that lands, that is the one way the slots end wrong
  (`ListSpec.LandedOnScreen`).
- A grid whose last line is not full and grows is not told of that line by the stretch
  alone (`Lines.StretchedGrid`).
- `split_at_match` prefers the shorter of two matches that begin together, where its
  comment says the longest (`Matching.ShortestOfTies`).
- `day` gives ten characters up to the end of the year 9999 and more after it
  (`Calendar.Day`, `Calendar.WrittenIsFullDate`).
- A dragged scrollbar moves the cursor and leaves the remembered file, so the next page to
  land takes the view back to that file while it is in hand (`Viewport.DragIsUndone`,
  `Viewport.DragHolds`).
- A file followed past the end of the announced result leaves the cursor off screen
  (`Viewport.RefollowedOnScreen`, `Viewport.FollowedOffScreen`).
- A terminal with fewer than four lines for kinds draws a rail longer than its area
  (`Rail.FitsWithTheFewestKinds`, `Rail.ShortTerminalOverflows`).
- The rows under the settings screen's body still count: a press on the foot takes a line
  that is scrolled out below (`Settings.PressTakesOnlyWhatIsDrawn`,
  `Settings.FootTakesAHiddenLine`).

## Model

| member | source | states |
|---|---|---|
| Promises.ListAnswersTheQuestion | apps/scour-gui/src/main.rs:3374-3386 | In every state of every run, each page in hand answers the query, order and direction on screen now; while any is in hand the generation shown is the newest and the length was counted for this query |
| Promises.ExactCountIsCurrent | apps/scour-gui/src/main.rs:3757-3765 | In every state of every run a kept exact count is of the current revision and query, so using it unchecked is safe |
| Promises.ShownNeverGoesBack | apps/scour-gui/src/main.rs:3708-3715 | Over any stretch of any run the generation shown, the generation and the revision never decrease |
| Promises.GenerationNamesTheQuestion | apps/scour-gui/src/main.rs:211-222 | Any two searches ever sent with one generation asked the same question, and with one revision the same query |
| Promises.OncePerMatchingSet | apps/scour-gui/src/main.rs:224-240 | In any run each revision schedules the sidebar at most once and sends at most one count |
| Promises.SidebarIsAskedFor | apps/scour-gui/src/main.rs:3822-3871 | In every state with rows on screen the sidebar has been scheduled for their set, and is waiting for its timer or has been asked for |
| Promises.HeardCountIsKept | apps/scour-gui/src/main.rs:3892-3914 | In every state a count of the current set that has been heard is kept, whatever came after it |
| Promises.EverySearchIsAPage | apps/scour-gui/src/main.rs:3374-3438 | In any run every search sent is for a whole page from where it begins, or for the first 20 or more rows of the first page |
| Promises.FetchAsksForThePage | apps/scour-gui/src/main.rs:3361-3369 | Following the list sends one search, for just the page it is missing, under the stamps and the question on screen |
| Promises.EveryRequestIsAccountedFor | apps/scour-gui/src/link.rs:427-485 | An enqueued request is in exactly one place: queued on its lane, in that lane's hands, or done with |
| Promises.CallsAreTheNewest | apps/scour-gui/src/link.rs:471-475 | Whatever was called carried, at its second check, the newest generation or revision published by then, on a lane already or not, and a lane calls in the order it was asked |
| Promises.PassedCheckIsNewest | apps/scour-gui/src/link.rs:313-316 | A second check passes only a search no published generation is above, the one about to be queued included, and any other request no published revision is above |
| Promises.NotedIsLater | apps/scour-gui/src/link.rs:214-234 | A published generation above a search's own was published by a search sent after it |
| Promises.DroppedForALaterOne | apps/scour-gui/src/link.rs:429-442 | A search dropped uncalled by the fast lane was dropped for a later search or the closing of the window |
| Promises.LastIntentIsCalled | apps/scour-gui/src/link.rs:750-761 | With the window open and the fast lane idle and empty, the last search sent was called, or its connection failed |
| Promises.LastIntentIsShown | apps/scour-gui/src/main.rs:3697-3852 | With everything at rest and everything posted heard, the last search sent was answered and, if with rows, its page is in hand and answers the question on screen; or it was refused, cut off or never connected |
| Promises.EveryCallIsPostedOnce | apps/scour-gui/src/link.rs:664-744 | In every state a call that was answered has been posted once, as the answer to its own request under its own stamps, page and half; one refused once as that refusal; one cut off once as the loss |
| Promises.OnlyWhatHappenedIsPosted | apps/scour-gui/src/link.rs:664-744 | In every state whatever is posted about a request is what became of it |
| Promises.PostedInCallOrder | apps/scour-gui/src/link.rs:664-744 | In every state the ends of one lane's calls are posted in the order the calls were made |
| Promises.StepsPost | apps/scour-gui/src/link.rs:452-744 | Over any step of a lane in any run: what it posts, how the call in hand ends, and whether the connection is kept |
| Promises.HeardInOrder | apps/scour-gui/src/main.rs:679-695 | In any run each delivery takes the next of what has been posted |
| Promises.PostedStays | apps/scour-gui/src/main.rs:679-695 | In any run what has been posted stays as it was posted |
| Promises.SilenceEnds | apps/scour-gui/src/link.rs:428-480 | While only lanes move, every step uses up work, so the lanes come to rest within the work there was |
| Promises.RestIsDone | apps/scour-gui/src/link.rs:428-480 | A lane that has not stopped can move exactly unless it is idle with nothing queued, and none stops while the window is open |
| Promises.NothingBehindStop | apps/scour-gui/src/link.rs:346-352 | In any run nothing is ever sent on a lane after its Stop |
| Promises.StopIsNeverSwallowed | apps/scour-gui/src/link.rs:750-761 | In any run coalescing never swallows a Stop |
| Promises.ClosingStopsEveryLane | apps/scour-gui/src/link.rs:346-352 | With the window closed every lane has stopped or still has something to do: none waits for ever |
| Promises.EachLaneHasItsOwn | apps/scour-gui/src/link.rs:313-343 | In every state the interactive lane has had only searches and its Stop, the waiting lane only waits and its Stop, and the third only the rest |
| Promises.DownAndUpAlternate | apps/scour-gui/src/link.rs:443-469 | What a lane has posted of the service's going and coming alternates, beginning with going |
| Promises.DrainingIsCoalescing | apps/scour-gui/src/link.rs:752-761 | Receiving one message at a time comes to the same message in hand and the same channel as coalescing in one go |
| Protocol.AlwaysHolds | apps/scour-gui/src/main.rs:3630-3934 | The joint invariant of the UI state, the requests, the marks and the lanes holds in every state of every run |
| Protocol.StepKeeps | apps/scour-gui/src/link.rs:313-343 | Every step of the UI thread, of publishing, of enqueueing and of a lane keeps the joint invariant |
| Protocol.DeliverKeeps | apps/scour-gui/src/main.rs:3697-3934 | Delivering any answer that may be waiting, stale or not, keeps the UI invariant and what was sent in order |
| Answers.AlwaysAnswers | apps/scour-gui/src/main.rs:3697-3934 | What is posted, what is heard, what is filed, counted and scheduled for it, and what closing sends hold together in every state of every run |
| Lanes.MoveKeeps | apps/scour-gui/src/link.rs:427-480 | Every move of a lane's thread keeps that lane's account of queue, hands, fates and calls; what it posts is in `Lanes.MovePosts` |
| Lanes.MovePosts | apps/scour-gui/src/link.rs:452-744 | Every move of a lane's thread keeps the posts true: each says what became of its request, every ended call has one, and they are in the order of the requests |
| Lanes.CheckedIsNewest | apps/scour-gui/src/link.rs:236-262 | The freshness check passes only what nothing published supersedes, and fails only what a published mark does |
| Lanes.LanesRunOut | apps/scour-gui/src/link.rs:427-480 | Every move of a lane uses up work, and a lane that has not stopped can move exactly while it is busy or has something queued |
| Asks.CoalescedTakesStopOrLast | apps/scour-gui/src/link.rs:752-761 | Coalescing takes the first waiting Stop and nothing behind it, or else the last message and empties the channel |
| Asks.StopSurvives | apps/scour-gui/src/link.rs:752-761 | Coalescing ends on a Stop exactly when one is waiting, or it is in hand with nothing behind it |
| Asks.StopInHandCanBeLost | apps/scour-gui/src/link.rs:752-761 | A Stop in hand is lost when a search is queued behind it |
| Link.Freshness.Note | apps/scour-gui/src/link.rs:214-234 | Moves each mark the request carries up to it, never down, and no other |
| Link.Freshness.Accepts | apps/scour-gui/src/link.rs:236-262 | Accepts exactly what is as new as the mark of its kind, and everything that has none |
| Link.NewestQueued | apps/scour-gui/src/link.rs:752-761 | The draining loop leaves in hand and in the channel what coalescing says |
| Link.Link.Send | apps/scour-gui/src/link.rs:313-343 | Publishes and puts the request on its own lane and no other: searches and a Stop on the fast one, waits on theirs, the rest on the slow one |
| Link.Link.Drop | apps/scour-gui/src/link.rs:346-352 | Every lane gets a Stop of its own behind what it has, and no mark moves |
| Window.Window.AdvanceQuery | apps/scour-gui/src/main.rs:211-218 | A new matching set: both stamps move on and everything kept about the old set is forgotten |
| Window.Window.AdvanceOrder | apps/scour-gui/src/main.rs:220-222 | A new order of the same set: the generation alone moves on |
| Window.Window.constructor | apps/scour-gui/src/main.rs:549-575 | The state a window opens in: nothing stamped, asked or held |
| Window.Window.StartBackground | apps/scour-gui/src/main.rs:224-231 | Says yes once per matching set |
| Window.Window.StartCount | apps/scour-gui/src/main.rs:233-240 | Says yes once per matching set |
| Window.Window.SendPage | apps/scour-gui/src/main.rs:3414-3438 | Sends one search carrying both stamps of the state and the question on screen |
| Window.Window.SendSearch | apps/scour-gui/src/main.rs:3399-3412 | Sends the reading of the query, with the same revision, before its search |
| Window.Window.Dispatch | apps/scour-gui/src/main.rs:3374-3386 | Empties the pages and sends the reading of the query and then a search from the top, for the rows on screen but at least 20 and at most 200 |
| Window.Window.QueryChanged | apps/scour-gui/src/main.rs:782-831 | The turn of a keystroke: the text taken, both stamps one further, and asked from the top |
| Window.Window.SortBy | apps/scour-gui/src/main.rs:1496-1537 | The turn of a heading pressed: the same heading turns the direction, another takes its own; a new generation of the same revision, asked from the top |
| Window.Window.BackgroundDue | apps/scour-gui/src/main.rs:3440-3491 | The turn of the sidebar's timer: nothing for an old set; one walk, or two, the kinds without the kind term and the ages without the age term; and a count at most once |
| Window.Window.SearchLanded | apps/scour-gui/src/main.rs:3697-3889 | The turn of an answered search: an old answer changes nothing; a current page is filed under the page that holds its offset, the sidebar scheduled, and the page followed to asked for |
| Window.Window.File | apps/scour-gui/src/main.rs:3757-3852 | Files a current page: length, page, generation shown, exact count and rewind |
| Window.Window.Measure | apps/scour-gui/src/main.rs:3758-3765 | The length a current page leaves: its end if it came back short by both measures, else the count, or its end if that is more |
| Window.Window.Schedule | apps/scour-gui/src/main.rs:3822-3871 | Arms the sidebar timer unless this revision has |
| Window.Window.SetTotal | apps/scour-gui/src/rows.rs:494-500 | The length is the exact count, or the bound on what is held that the list gives, if that is more |
| Window.Window.CountLanded | apps/scour-gui/src/main.rs:3892-3914 | The turn of an answered count: kept and the length tightened, only for the current set |
| Window.Window.FacetsLanded | apps/scour-gui/src/main.rs:4349-4474 | The turn of answered facets: an exact total from a full walk, or a count asked for at most once |
| Pages.PutKeeps | crates/scour-page/src/lib.rs:140-174 | A filed page is in hand with exactly its rows; no other page changes; making room never costs the page just filed |
| Pages.EvictKeeps | crates/scour-page/src/lib.rs:265-275 | Making room drops whole pages, never the newest, and keeps the order of use exact |
| Pages.PutLetsGo | crates/scour-page/src/lib.rs:251-275 | Filing a page takes out of hand exactly the least recently used others that are too many, up to the one asked for, and never the page itself |
| Pages.PutMeasures | crates/scour-page/src/lib.rs:140-142 | No page held is ever longer than the longest served |
| Pages.SightComesFirst | crates/scour-page/src/lib.rs:195-237 | A missing row in sight has a page in sight asked for before any guess |
| Pages.FirstWantedIsInSight | crates/scour-page/src/lib.rs:195-224 | The page asked for in sight is the first wanted one, and none is passed over |
| Pages.FirstWantedIsFirst | crates/scour-page/src/lib.rs:195-224 | A wanted page in sight is never passed over for a later one |
| Pages.GuessIsBeside | crates/scour-page/src/lib.rs:230-237 | With nothing wanted in sight only a neighbour nobody holds is asked for, ahead before behind, and none without leave to guess |
| Pages.FetchedIsWantedAgain | crates/scour-page/src/lib.rs:140-218 | A page asked for and filed is wanted again exactly when it brought nothing, or fewer rows than are seen of it and more than were held of it |
| Pages.AskedTwiceAtMost | crates/scour-page/src/lib.rs:140-218 | A page that comes back twice with no more rows is not asked for a third time |
| Pages.MovedInFlightIsWanted | crates/scour-page/src/lib.rs:140-218 | A page filed after the index moved under its request is out of date as it lands |
| Pictures.PutTallies | apps/scour-gui/src/rows.rs:389-446 | Filing a page adds at most its own unlooked rows to what is unlooked in hand |
| Pictures.WithTallies | apps/scour-gui/src/rows.rs:645-680 | One row rewritten moves the tally by exactly its own verdict |
| Pictures.NothingToSweep | apps/scour-gui/src/rows.rs:622-630 | With nothing unlooked in hand a sweep does nothing at all |
| Pictures.ZeroIsNone | apps/scour-gui/src/rows.rs:622-630 | A row nobody looked at makes the tally positive, so an early return on zero skips no picture |
| Pictures.SkippingIsSafe | apps/scour-gui/src/rows.rs:622-686 | Skipping over rows nobody holds finds and draws exactly what looking at each would |
| Pictures.SweepDoes | apps/scour-gui/src/rows.rs:622-686 | A sweep looks at most at its batch, changes only due rows in its range, lowers the tally by what it looked at, and ending early leaves nothing due in range |
| Pictures.SweepReports | apps/scour-gui/src/rows.rs:622-686 | The rows reported drawn and the files asked for are exactly, and in order, those that became drawn and missing |
| Pictures.Looked | apps/scour-gui/src/rows.rs:650-680 | The verdict by what the desktop has: drawn exactly when a picture is there and decodes, missing exactly when there is none and one may be made, never otherwise |
| Rows.Rows.Put | apps/scour-gui/src/rows.rs:389-446 | The page has the rows given, each with the verdict and the picture the last row of its path had on the page before, and new exactly where the page reached and had no row of its path; the counter stays an upper bound; and the view and the slots are told what the change stands for, in either length |
| Rows.Rows.LookForPictures | apps/scour-gui/src/rows.rs:622-686 | The sweep with its early return and its skipped pages comes to the same as looking at every row, and tells exactly the rows drawn |
| Rows.Rows.LookThrough | apps/scour-gui/src/rows.rs:631-686 | The in-place loop over rows and pages is the sweep, and takes off the counter what it looked at |
| Rows.Rows.LookAtRow | apps/scour-gui/src/rows.rs:645-680 | One due row gets its verdict in place and leaves the counter by one |
| Rows.Rows.MadePictures | apps/scour-gui/src/rows.rs:689-710 | Every row in hand is as it was but one missing a picture that was made, which has no verdict again; the counter moves by exactly that |
| Rows.Rows.ClearFresh | apps/scour-gui/src/rows.rs:517-538 | Every row in hand is as it was without the mark of an arrival, and the rows this changes are told |
| Rows.Rows.MarkPicked | apps/scour-gui/src/rows.rs:596-615 | Every row in hand is as it was but picked exactly when its path is, and the rows this changes are told |
| Rows.Rows.SetTotal | apps/scour-gui/src/rows.rs:494-500 | The new length is the one asked for, or the end of what is in hand if that is more; the rows stay, and view and slots are told of a change |
| Rows.Rows.HeldTo | apps/scour-gui/src/rows.rs:763-776 | The nested loops give one past the last place any page in hand reaches |
| Rows.Rows.RowData | apps/scour-gui/src/rows.rs:786-805 | Draws what is in hand or a blank, notes the first miss, and moves a page up in the order of use only if another was read last |
| Rows.Rows.Merge | apps/scour-gui/src/rows.rs:389-430 | Every row merged with what its path had, as `ListSpec.MergedArrives` says; whether any arrived; and how many have no verdict |
| Rows.Rows.Arriving | apps/scour-gui/src/rows.rs:413-438 | One row keeps its path, word and selection and takes its path's verdict, and its path's picture if that was drawn; it is new where the page reached and did not hold its path |
| ListSpec.MergedArrives | apps/scour-gui/src/rows.rs:389-430 | Read off the store before: the verdict and the picture are those of the last row of the path on the page, the mark of an arrival is for a path the page did not hold, and nothing else of the row changes |
| ListSpec.PutArrives | apps/scour-gui/src/rows.rs:389-446 | So a page filed after merging is in hand, row for row, as its rows' paths and places make it |
| ListSpec.ChangedOverIs | apps/scour-gui/src/rows.rs:517-615 | A rewriting tells exactly the rows it draws differently |
| Rows.PastHeldReaches | apps/scour-gui/src/rows.rs:763-776 | Every page in hand reaches no further than the bound, and one of them reaches it |
| Rows.Rows.Knew | apps/scour-gui/src/rows.rs:393-412 | Collects what the old page knew of each path, the last row of a path deciding, and how far it reached |
| Rows.Rows.Tell | apps/scour-gui/src/rows.rs:457-490 | Passes a change on: nothing, rows one by one, or the length with its own rows and every slot placed again |
| Rows.Rows.TellRows | apps/scour-gui/src/rows.rs:449-454 | Each row is told to the view and to the slot showing it, and to no other |
| Rows.Rows.File | apps/scour-gui/src/rows.rs:440-446 | The filed store, the counter, the ring and all notes end together |
| Rows.Rows.Rewrite | apps/scour-gui/src/rows.rs:517-538 | The page-by-page loop rewrites every row in hand once and reports exactly the rows drawn differently |
| Rows.Rows.RewriteRows | apps/scour-gui/src/rows.rs:596-615 | One page rewritten in place, with exactly its changed rows and its lost verdicts |
| Rows.Rows.constructor | apps/scour-gui/src/rows.rs:367-379 | Opens with nothing held and nothing unlooked |
| Rows.Rows.Empty | apps/scour-gui/src/rows.rs:503-508 | Every page goes, the counter stays too high at worst, and nobody is told |
| ListSpec.LastByPathIsLast | apps/scour-gui/src/rows.rs:389-412 | What is known by path is what the last row of that path says, for exactly the paths in hand |
| ListSpec.TellingRows | apps/scour-gui/src/rows.rs:874-883 | Slots that were right are right again after being told exactly when no slot draws a row that changed untold |
| ListSpec.RowAfterPut | crates/scour-page/src/lib.rs:140-174 | Each row after a page is filed: the page's own, none past its new end or on a page let go, any other as it was |
| ListSpec.PutOnScreen | apps/scour-gui/src/rows.rs:389-492 | After a page of the same length is filed the slots are right exactly when none draws a row past the end of the page that comes or on a page let go for it, both read off the store before |
| ListSpec.PutOnOwnView | apps/scour-gui/src/rows.rs:389-492 | The list's own view is right after a page is filed, in any length, exactly when no row that stays is such a row |
| ListSpec.LandedKeepsItsPage | apps/scour-gui/src/main.rs:3391-3397 | With the length worked out for a page that lands, asked for with at least the rows held, no row of its own below that length is lost |
| ListSpec.LandedOnScreen | apps/scour-gui/src/main.rs:3757-3768 | So the slots are right after it exactly when the length changed or none draws a row of a page let go for it |
| ListSpec.LengthOnScreen | apps/scour-gui/src/rows.rs:472-490 | A page that changes the length leaves every slot right |
| ListSpec.EachIsAskedFor | crates/scour-page/src/lib.rs:195-224 | Each page of the drag below is the one asked for while its rows are in sight |
| ListSpec.LetGoWhileDrawn | apps/scour-gui/src/rows.rs:786-805 | Dragged past thirty-one pages that land unseen and back to the first: reading it does not note it, the page beside it is asked for, and filing that leaves slots drawing rows no longer in hand |
| ListSpec.RefreshOnScreen | apps/scour-gui/src/rows.rs:886-895 | When the length changes every slot ends right, whatever happened to the rows |
| ListSpec.RewriteOnScreen | apps/scour-gui/src/rows.rs:517-615 | After any rewriting of rows in place the slots told make the drawn slots right |
| ListSpec.SweepOnScreen | apps/scour-gui/src/rows.rs:622-686 | After a picture sweep the slots told make the drawn slots right |
| Slots.RowsAndSlots | apps/scour-gui/src/rows.rs:905-922 | Every slot holds exactly one row of the window, the one its number gives |
| Slots.SlotsAndRows | apps/scour-gui/src/rows.rs:841-871 | Every row of the window is found in its slot |
| Slots.ToldSlotsAreTheChanged | apps/scour-gui/src/rows.rs:841-871 | With the ring's size unchanged the slots told are exactly those whose row changed, each once |
| Slots.MoveTellsAtMost | apps/scour-gui/src/rows.rs:841-871 | A move of k rows tells at most k slots |
| Slots.ReplayedPlace | apps/scour-gui/src/rows.rs:841-871 | A view that obeys what it is told is right again exactly when the ring kept its size or no slot went from a row to nothing |
| Slots.ResizeCanLeaveStaleSlots | apps/scour-gui/src/rows.rs:849-861 | A window of two rows at the end of ten, made one row taller, leaves a slot drawing a row it no longer holds |
| Slots.Slots.Place | apps/scour-gui/src/rows.rs:841-871 | Each slot holds its row of the window, or nothing past the end, and the notes are those of a placing |
| Slots.Slots.Cover | apps/scour-gui/src/rows.rs:850-861 | The in-place loop sets each slot to its row and lists exactly the slots that differed |
| Slots.Slots.TellLength | apps/scour-gui/src/rows.rs:862-867 | The view is told how many slots came or went |
| Slots.Slots.RowChanged | apps/scour-gui/src/rows.rs:874-883 | The slot showing the row is told, and no other |
| Slots.Slots.Refresh | apps/scour-gui/src/rows.rs:886-895 | Every slot is placed again and told, unless there are none |
| Lines.GridIsTheList | apps/scour-gui/src/rows.rs:978-1021 | The lines of the grid, one after the other, are the rows of the list once each in order, and none is empty |
| Lines.TouchedAreTheHolding | apps/scour-gui/src/rows.rs:968-976 | A line is announced exactly when it holds a row of the range |
| Lines.Lines.Touched | apps/scour-gui/src/rows.rs:968-976 | The lines told are the touched ones |
| Lines.Lines.PerLine | apps/scour-gui/src/rows.rs:952-961 | A new number of tiles lays the grid out again; the same number tells nothing |
| Lines.StretchedView | apps/scour-gui/src/rows.rs:987-1000 | A view that obeys the notes has as many lines as there are, the new ones read and the others as they were |
| Lines.StretchedGrid | apps/scour-gui/src/rows.rs:968-1021 | A grid told of some lines and then stretched is right exactly when the rows are as many, or the shorter count fills its last line, or that line was told |
| Lines.Lines.Stretch | apps/scour-gui/src/rows.rs:987-1000 | The grid has a line for every started group of tiles, and what changed is told |
| Matching.Best | apps/scour-gui/src/rows.rs:37-55 | The match lit is one no other match goes before: earliest, and among those the shortest; none exactly when nothing matches |
| Matching.FindFrom | apps/scour-gui/src/rows.rs:46 | The first place a term occurs, and none exactly when it occurs nowhere |
| Matching.ShortestOfTies | apps/scour-gui/src/rows.rs:47-51 | Of two terms that match at one place the shorter is lit |
| Matching.SplitAtMatch | apps/scour-gui/src/rows.rs:37-72 | The loops over terms and boundaries give the cut of the best match |
| Matching.PartsAreTheName | apps/scour-gui/src/rows.rs:59-72 | Whatever the offset map says, the parts are whole characters and rejoin to the name |
| Matching.FoldIndexed | crates/scour-core/src/text.rs:22-38 | The loop's map gives, for every folded byte, where its character begins |
| Matching.LitFromOwnerToOwner | apps/scour-gui/src/rows.rs:59-72 | With the program's map what is lit runs from the character the match begins in to the one it ends in |
| Matching.LitFoldsToTheMatch | apps/scour-gui/src/rows.rs:35-72 | Whatever characters fold to, nothing included, a match of whole foldings lights characters that fold to just that match |
| Painted.Paint | apps/scour-gui/src/main.rs:3551-3607 | For any spans, stale, overlapping or inside a character: the runs are the query, none is empty, each begins where it says, and every byte has the ink the spans give it |
| Painted.PaintSpan | apps/scour-gui/src/main.rs:3567-3600 | One span more: what lies before it plain, then itself, up to where it ends |
| Painted.PaintRest | apps/scour-gui/src/main.rs:3601-3605 | What no span reaches is plain |
| Painted.Add | apps/scour-gui/src/main.rs:3555-3566 | A run that is not empty, beginning at the number of characters before it |
| Painted.Colour | apps/scour-gui/src/main.rs:3571-3592 | The ink of each role |
| Painted.RunsAreTheQuery | apps/scour-gui/src/main.rs:3551-3607 | Runs in place are the query's own characters from the start, whole |
| Painted.Boundary | apps/scour-gui/src/main.rs:3609-3615 | The nearest place at or before an offset where a character begins, inside the text |
| Utf8.BoundariesAreCharacters | apps/scour-gui/src/main.rs:3609-3615 | An offset is a boundary exactly when it is the length of some first characters of the text |
| Calendar.Day | apps/scour-mcp/src/render.rs:440-454 | Writes the date that many whole days after 1970-01-01, a real date of the calendar, as year, month and day in digits with dashes between, in ten characters exactly before the year 10000; ten question marks for no time |
| Calendar.ClosedFormIsTheCalendar | apps/scour-mcp/src/render.rs:444-452 | For every day the closed form is the date reached by stepping the calendar's own next-day rule |
| Calendar.DatesAreReal | apps/scour-mcp/src/render.rs:440-454 | Every date reached is one the calendar has, none before 1970 |
| Calendar.ClosedFormIsByParts | apps/scour-mcp/src/render.rs:444-452 | The closed form takes a day apart into era, century, four years, year and day |
| Calendar.DateStep | apps/scour-mcp/src/render.rs:447-452 | The next day of the parts is the next day of the calendar, over months, leap years, centuries and eras |
| Calendar.LongYearsAreLeap | apps/scour-mcp/src/render.rs:447-449 | A year of 366 days of the parts is a leap year of the calendar |
| Calendar.YearIsRight | apps/scour-mcp/src/render.rs:446-449 | The divisions by 1460, 36524 and 146096 find the year of the era and the day of it, for every day of an era |
| Calendar.DatesRise | apps/scour-mcp/src/render.rs:440-454 | A later day is a later date |
| Calendar.PaddedReads | apps/scour-mcp/src/render.rs:453 | A padded number reads back as itself and is as wide as asked unless it needs more |
| Calendar.WrittenIsFullDate | apps/scour-mcp/src/render.rs:453 | The text is four digits of the year, or as many more as it needs, two of the month and two of the day, in this order, dashes between, and each reads back as itself |
| Wrapping.Wrapped | apps/scour-tui/src/draw.rs:178-204 | The words are the text's own, each cut only where it is longer than a line; every piece is on some line in order, no line is too wide, and no other packing of the pieces takes fewer lines |
| Wrapping.Lines | apps/scour-tui/src/draw.rs:178-204 | The two loops give the greedy packing, and one empty line for a text of white space |
| Wrapping.PutPiece | apps/scour-tui/src/draw.rs:190-197 | A piece goes onto the line in hand where it fits, or onto a new one |
| Wrapping.PackedIsBest | apps/scour-tui/src/draw.rs:190-197 | A greedy step keeps the packing ahead of every other |
| Wrapping.GreedyIsBest | apps/scour-tui/src/draw.rs:178-204 | Among all order-preserving packings that fit, greedy has the fewest lines and then the shortest last one |
| Wrapping.NothingIsLost | apps/scour-tui/src/draw.rs:178-204 | The packed pieces are the text itself, white space aside |
| Wrapping.WordsAreSplit | apps/scour-tui/src/draw.rs:182 | The words are not empty and hold no white space, and the text is these words in order with white space between each two and perhaps at the ends |
| Wrapping.ChunksAreCut | apps/scour-tui/src/draw.rs:184-189 | A word no longer than a line is one piece; a longer one is pieces as wide as the line but for the last, which together are the word |
| Wrapping.PiecesAreCut | apps/scour-tui/src/draw.rs:182-189 | The pieces are each word cut so, one after the other |
| Viewport.SettledIsNearest | apps/scour-tui/src/app.rs:1316-1330 | The settled view draws the cursor, does not run past the end, and is the nearest such view to the old one |
| Viewport.SettledPastTheEnd | apps/scour-tui/src/app.rs:1316-1330 | Settling draws the cursor exactly when it is inside the result or the result is shorter than the screen |
| Viewport.DraggedTopFollows | apps/scour-tui/src/app.rs:1245-1257 | The dragged view reaches both ends and never goes back as the pointer goes on |
| Viewport.DraggedTopIs | apps/scour-tui/src/app.rs:1245-1257 | The dragged view begins as far down the result as the pointer is down the track, to the row, and at the end from the end of the track on |
| Viewport.FoundIffHeld | apps/scour-tui/src/app.rs:1294-1313 | The search over the pages in hand finds a file exactly when some row has it |
| Viewport.FoundIsFirst | apps/scour-tui/src/app.rs:1294-1313 | What is found is on the first page, in the order of use, that has the file, and its first row there |
| Viewport.FiledIsHere | apps/scour-tui/src/app.rs:705-741 | An answer filed leaves its page with exactly its rows and the result as long as announced, or to the end of a page short by both measures, or as it was, whichever is more |
| Viewport.RefollowedFinds | apps/scour-tui/src/app.rs:1272-1313 | A cursor nobody moved stays; one on a file in hand is on that file again and remembers it; one whose file is nowhere in hand stays |
| Viewport.RefollowedOnScreen | apps/scour-tui/src/app.rs:1294-1313 | A followed file is on screen exactly when the row it is found on is inside the announced result or the screen is longer |
| Viewport.FollowedOffScreen | apps/scour-tui/src/app.rs:705-741 | A short first page that lost the file, with the file still on the second: the cursor ends past the result and off screen |
| Viewport.SettledWhereItIs | apps/scour-tui/src/app.rs:1316-1330 | Settling moves nothing exactly when the view is inside the result and has the cursor, or is at the end with the cursor below |
| Viewport.DragHolds | apps/scour-tui/src/app.rs:1245-1313 | A page that lands after a drag keeps the dragged view exactly when the cursor was put nowhere or on nothing, or the row reached holds the file, or the file is nowhere in hand or found where the view would stay |
| Viewport.DragIsUndone | apps/scour-tui/src/app.rs:1245-1313 | Twenty files, five rows, a drag to the eleventh: the cursor is under the wrong name and the page landing again undoes the drag |
| Terminal.App.Insert | apps/scour-tui/src/app.rs:1343-1348 | The character goes in at the caret, which is then after it, and everything starts over |
| Terminal.App.Backspace | apps/scour-tui/src/app.rs:1350-1364 | The character before the caret goes, if there is one |
| Terminal.App.CharBefore | apps/scour-tui/src/app.rs:1356-1360 | The byte the character before the caret begins at |
| Terminal.App.Left | apps/scour-tui/src/keys.rs:305-313 | The caret moves one whole character back, and only the caret |
| Terminal.App.Right | apps/scour-tui/src/keys.rs:314-320 | The caret moves one whole character on, and only the caret |
| Terminal.App.Escape | apps/scour-tui/src/keys.rs:321-331 | A query that is not empty goes first; only then does the mode turn |
| Terminal.App.Pasted | apps/scour-tui/src/keys.rs:429-437 | The whole cleaned text goes in at the caret, which is then after it |
| Terminal.App.InsertThenBackspace | apps/scour-tui/src/app.rs:1343-1364 | Inserting and rubbing out restores the query and the caret |
| Terminal.App.LeftThenRight | apps/scour-tui/src/keys.rs:305-320 | A step left and a step right bring the caret back |
| Terminal.App.constructor | apps/scour-tui/src/app.rs:410-450 | Opens with an empty query and nothing held |
| Terminal.App.CaretIsBoundary | apps/scour-tui/src/app.rs:1343-1364 | The byte caret is always between two characters, and splits the bytes as the zipper does the characters |
| Terminal.App.Walk | apps/scour-tui/src/app.rs:1230-1241 | On a result that is not empty: the cursor is on the row so many further, or the first or the last if that is outside; it is on screen, named, the view moved the least it could, and the page the view is missing is asked for |
| Terminal.App.Go | apps/scour-tui/src/app.rs:1260-1270 | The same, for a row outright |
| Terminal.App.DragBar | apps/scour-tui/src/app.rs:1245-1257 | The cursor is in the result, on screen and moved the least it could; the remembered file is its own exactly when the row the drag takes it to held that file before |
| Terminal.App.DragThenLanded | apps/scour-tui/src/app.rs:1245-1313 | A drag and then a page of the same question keep the dragged view exactly when following leaves it alone |
| Terminal.App.Resized | apps/scour-tui/src/app.rs:1333-1340 | Draws the cursor exactly when it is inside the result or the screen is longer |
| Terminal.App.Landed | apps/scour-tui/src/app.rs:705-741 | An answer to an older question changes nothing; a current page is filed, the file followed, and the page the view is then missing asked for |
| Terminal.App.Find | apps/scour-tui/src/app.rs:1294-1313 | The nested loops find the first row in hand that holds the file |
| Terminal.App.Follow | apps/scour-tui/src/app.rs:1179-1191 | Asks for the page the eye is missing, if any, and notes it as asked |
| Terminal.App.Settle | apps/scour-tui/src/app.rs:1316-1330 | Settles the view, and notes the cursor's file once somebody moved it |
| Terminal.App.Reask | apps/scour-tui/src/app.rs:612-619 | Another order of the same query: the rows go, the file the cursor is on does not |
| Terminal.App.ReaskThenLanded | apps/scour-tui/src/app.rs:612-741 | Asked again in another order, the cursor goes where its file went if the first page to land has it |
| Terminal.App.Refollow | apps/scour-tui/src/app.rs:1272-1313 | The search in place is the following of the file |
| Terminal.App.Typed | apps/scour-tui/src/app.rs:684-700 | A changed query starts a new generation with nothing in hand and asks for its first page |
| Rail.PressedIsTheOffer | apps/scour-tui/src/app.rs:953-970 | For every offer there is exactly one line of the rail whose press finds it, and that line shows it |
| Rail.PressedIsOffered | apps/scour-tui/src/app.rs:953-970 | A press that finds an offer finds one the rail has, and the line pressed shows it |
| Rail.FitsWithTheFewestKinds | apps/scour-tui/src/app.rs:914-927 | The rail fits its area exactly when the area holds its fixed lines and the fewest kinds |
| Rail.RoomIsUsed | apps/scour-tui/src/app.rs:914-927 | A rail that fits wastes no line, and places give way before the kinds above the fewest |
| Rail.ShortTerminalOverflows | apps/scour-tui/src/app.rs:914-927 | A list of nine rows beside all thirteen kinds: two lines are left for four kinds |
| Rail.App.RailLines | apps/scour-tui/src/app.rs:931-951 | The kinds, the places and the three sizes, each with the term it adds to the query |
| Rail.App.Side | apps/scour-tui/src/draw.rs:1905-1988 | The lines drawn are the layout of the offers: three headings, two blank lines, and each offer on its line |
| Rail.App.DrawSection | apps/scour-tui/src/draw.rs:1906-1936 | The loop draws the offers of a section one below the other, counted on from the last |
| Rail.App.RailHit | apps/scour-tui/src/app.rs:953-970 | The loop over the sections finds the offer on the drawn line, if the line is one |
| Settings.PressTakesWhatIsDrawn | apps/scour-tui/src/draw.rs:453-469 | On every row of the body a press takes the line drawn there if it answers, and nothing else |
| Settings.PressTakesOnlyWhatIsDrawn | apps/scour-tui/src/draw.rs:453-469 | On all rows, exactly when no line that answers is scrolled out below |
| Settings.FootTakesAHiddenLine | apps/scour-tui/src/draw.rs:463-468 | Ten rows and five lines: a press on the rule above the foot takes the fourth, which is not drawn |
| Settings.CursorIsDrawn | apps/scour-tui/src/draw.rs:430-445 | The cursor's line is always drawn, and the lines are scrolled no further than that takes |
| Settings.SectionsAnswerWhereDrawn | apps/scour-tui/src/draw.rs:453-458 | Section names answer where they are drawn, and on every row exactly when the body holds them all |
| Settings.LineIsOnItsRow | apps/scour-tui/src/draw.rs:432-441 | Each line is on the row counted for it, rules included |
| Settings.LineIsOnNoOther | apps/scour-tui/src/draw.rs:432-441 | And on no other row |
| Settings.LineHasItsRule | apps/scour-tui/src/draw.rs:432-441 | A line that asks for a rule has one over it, unless it is the first |
| Settings.RuleIsOverItsLine | apps/scour-tui/src/draw.rs:432-441 | Every row that is no line's is a rule over such a line |
| Settings.SettingsRows | apps/scour-tui/src/draw.rs:430-445 | The counting loop gives each line its row and the scroll for the cursor |
| Settings.SettingsHit | apps/scour-tui/src/draw.rs:453-469 | What a press at a column and row takes: a section's name, a line, or nothing |
| Settings.SettingsScreen | apps/scour-tui/src/draw.rs:527-598 | The drawing loop shows the title, the text under it and the lines of the window |
| Settings.SettingsLines | apps/scour-tui/src/draw.rs:547-597 | The loop over lines and rules pushes exactly those in the window |
| Base64.Base64 | apps/scour-tui/src/app.rs:2670-2688 | The text written is the one and only text a strict reader takes for these bytes, four letters for every started group of three |
| Base64.Spelled | apps/scour-tui/src/app.rs:2675-2687 | The loop over groups of three bytes writes each group in turn |
| Base64.BitsAreBack | apps/scour-tui/src/app.rs:2678-2681 | The four groups of six bits give the three bytes back |
| Base64.WrittenIsRead | apps/scour-tui/src/app.rs:2670-2688 | What is written reads back as it was |
| Base64.ReadIsWritten | apps/scour-tui/src/app.rs:2670-2688 | Only what is written for some bytes reads as them |
| Base64.TheTableIsTheAlphabet | apps/scour-tui/src/app.rs:2673 | The table holds each value's letter at its place |
| Fold.KeptByRank | crates/scour-chart/src/fold.rs:18-36 | An item is kept exactly when fewer than the wanted number go before it, by value and then by arrival, and at that place |
| Fold.SortedByRank | crates/scour-chart/src/fold.rs:21 | The stable sort puts every item at the place of its rank |
| Fold.RankIsItsOwn | crates/scour-chart/src/fold.rs:18-20 | No two items have one rank, and of two the earlier goes first exactly when it is worth at least as much |
| Fold.KeptAreTheLargest | crates/scour-chart/src/fold.rs:20-36 | Kept and folded are together the items there were, descending throughout; there is a rest exactly when something was left out |
| Fold.FoldingConserves | crates/scour-chart/src/fold.rs:20-36 | Folding conserves the count and the total |
| Fold.FoldItems | crates/scour-chart/src/fold.rs:20-36 | The sort, the split and the sum give the folding |
| Fold.KindsHoldEveryFile | apps/scour-tui/src/report.rs:226-235 | The kinds shown and the rest hold every file there is, and no empty kind is shown or counted |
| Fold.KindsByRank | apps/scour-tui/src/report.rs:226-235 | A kind with files is shown exactly when fewer than the wanted number go before it, and at that place: those with more files, and those with as many that come before it in the counts |
| Fold.Kinds | apps/scour-tui/src/report.rs:226-235 | Empty kinds dropped, the rest folded |

## Left out

- Memory ordering: the two marks are atomics; their operations are separate steps here, each seen by every thread at once.
- Time: a timer may fire at any moment after it is armed; dozing, debounce (its constant is zero), the pause before a refresh and double-clicks are not modelled.
- Calls to the service: a call comes back with any answer to the question it was asked, with a refusal, or with the connection cut; that an answer is to its own question is assumed of the service.
- Connecting: starting the service and the second try are one step that succeeds or fails; the note that a service is being started, which no lane sends, is not modelled.
- Lanes: a lane's loop is a state machine over its steps rather than a method with a loop, because other threads move between them; `Link.NewestQueued` is the draining loop as a loop, with nobody else sending, and `Promises.DrainingIsCoalescing` ties the two.
- Requests no later one makes useless are one kind, `Errand`: their replies carry no generation or revision.
- Promises.LastIntentIsCalled: a lane that could not connect has dropped the request, so the promise names that case beside the call.
- Pages and Pictures: the page store's and the sweep's rules are on values; `Rows.Rows` is the object that updates them in place. The window's own protocol keeps of each page only the question it answers.
- Widths: stamps, counts, offsets and sums are unbounded; the wrap-around of 64-bit sums and the truncation of a 16-bit row are not modelled. The cap of counts at 2147483647 is.
- ListSpec.LandedOnScreen: for answers to requests of at least as many rows as were held, which holds of the window because only the first request of a question asks for less than a whole page.
- Window.Window.SetTotal: the bound on what is held is handed in, because this half of the model keeps of a page only the question it answers; `Rows.Rows.SetTotal` works it out from the pages and proves it.
- Terminal.App: the columns, the weighing of folders, the panels, picking and moving with `frozen_atime`; each is a few branches with no state beyond its own field.
- Base64 as shifts of a 32-bit number: written as divisions by 64, which are the same on numbers below 2 to the 24th.
- Fold over any type with any value function: items here carry a name and a number.
- Settings and Rail: what the lines say and how they are coloured, and the columns past the right edge of the text, where a press still takes the row's line.
- Text operations of other crates (trimming and reading the query, folding a character, the orders and filters it names) are arbitrary functions or data.
- The menu's, the ribbon's and the tool bar's hit tests, whose arithmetic differs from the drawing's; `toggle_column`, `panel_walk`, `Table::toggle`, `peek_head`, `query_encoded`, `fit`, `named` and the column widths of the report: single-branch or padding code.
- Drawing, colours, translated words, files, hotkeys, the clipboard, trash, export and installation.
