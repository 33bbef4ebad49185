# Trace viewer: a verified model of its logic

The site shows recorded runs of a desktop-automation agent. Each run is a
trace: ordered steps, each with a screenshot, a video, the agent's thought
and action, and a half-open playback interval `[start, end)`. The page runs
the traces through four small pieces of logic, and this project models each
one in Dafny and proves properties of the model:

- **Page** (`page.dfy`). The landing page rewrites every screenshot and
  video path under the deployment base path. It hands the seven bundled
  traces and seven fixed viewer ids to the carousel.
- **Carousel** (`carousel.dfy`). The carousel shows one trace at a time.
  `prev`, `next` and `goTo` are debounced by the `isTransitioning` guard and
  take effect when a 300 ms timer fires. The arrow keys navigate and the
  space bar toggles autoplay. The autoplay interval advances unless a video
  plays. Request and commit are separate events. The pending timers are a
  FIFO queue. The class `TraceCarousel` holds the mutable state. Its methods
  are proved against the pure transition functions `Request`, `Commit`,
  `Toggle`, `OnKey` and `Tick`; the lemmas are about those functions.
- **Viewer** (`viewer.dfy`). The synchroniser finds the first step whose
  interval contains the playback time and makes it the active step. It
  mirrors play, pause and seek, and takes row clicks as selections. The
  class `TraceViewer` is proved against `TimeUpdate`, `Select` and `Seeked`.
- **Timeline** (`timeline.dfy`). Each row is drawn active, selected or
  plain. A per-timestamp map of image-load failures picks the textual
  fallback. A scroll offset centres the active row. The class
  `TimelineView` holds the error map and the scroll commands it issued.

`trace_types.dfy` holds the shared records. Times are `real`; the source
compares them only with `<=` and `<`.

## Behaviour of note

- An `http` URL is prefixed like any relative path
  (`Page.AbsoluteUrlIsPrefixed`).
- A seek sets only the current time. It does not re-run the step search
  (`Viewer.SeekDoesNotResync`).
- A row click changes only the selection. It does not seek the video.
- `Timeline` does not declare the six video props that `TraceViewer`
  passes to it (src/components/Timeline.tsx:4-9 against
  src/components/TraceViewer.tsx:103-108). The viewer's handlers are
  event methods of `Viewer.TraceViewer`.
- The page imports a fixed list of seven traces (app/page.tsx:7-13,39-47).

## Model

| member | source | states |
|---|---|---|
| Page.FixPath | app/page.tsx:24-25 | The result begins with `basePath` followed by `/` and ends with the path. It equals `basePath + path` exactly when the path starts with `/`, otherwise `basePath + "/" + path`. |
| Page.FixPathIgnoresLeadingSlash | app/page.tsx:24-25 | `a` and `/a` are rewritten to the same path. |
| Page.FixPathIdempotentOnEmptyBase | app/page.tsx:16-25 | With the empty base path a rooted path is unchanged, so rewriting twice equals rewriting once. |
| Page.AbsoluteUrlIsPrefixed | app/page.tsx:24-25 | `http://h/a.png` is not passed through; it becomes `/prefix/http://h/a.png`. |
| Page.RelativePathIsRooted | app/page.tsx:24-25 | `screenshots/a.png` becomes `/prefix/screenshots/a.png`. |
| Page.RootedPathIsAppended | app/page.tsx:24-25 | `/screenshots/a.png` becomes `/prefix/screenshots/a.png`. |
| Page.FixItem | app/page.tsx:23-25 | Only screenshot and video are rewritten. Timestamp, thought, action, time range and agent are unchanged. |
| Page.FixItems | app/page.tsx:22-26 | Same length; output item i is input item i rewritten (order preserved). |
| Page.FixAssetPaths | app/page.tsx:19-28 | The task is unchanged. The item count is preserved, and item i is the rewrite of input item i. |
| Page.FixItemIdempotentOnEmptyBase | app/page.tsx:23-25 | With the empty base path, rewriting an item twice equals rewriting it once. |
| Page.FixAssetPathsIdempotentOnEmptyBase | app/page.tsx:16-28 | With the empty base path, rewriting a trace twice equals rewriting it once. |
| Page.AllTraceData | app/page.tsx:31-47 | One processed trace per bundled trace, in import order. |
| Page.TraceIds | app/page.tsx:50 | Seven ids, `viewer1` to `viewer7` in order, pairwise distinct. |
| Page.PageViewerIdsAreTraceIds | app/page.tsx:39-50 | With seven traces the carousel uses the page's seven ids unchanged, and they are pairwise distinct. |
| Carousel.Decimal | src/components/TraceCarousel.tsx:28 | The decimal rendering of an index is a non-empty string of digits with no leading zero (except for 0 itself). |
| Carousel.DecimalRoundTrip | src/components/TraceCarousel.tsx:28 | Reading the decimal rendering of k back gives k. |
| Carousel.GeneratedId | src/components/TraceCarousel.tsx:28 | The id is `viewer-` followed by the decimal rendering of k, and that suffix reads back as k. |
| Carousel.GeneratedIdInjective | src/components/TraceCarousel.tsx:28 | `viewer-${j}` equals `viewer-${k}` only when j equals k. |
| Carousel.ViewerIds | src/components/TraceCarousel.tsx:26-28 | Always N ids. They are the caller's ids when there are exactly N of them, otherwise `viewer-0` … `viewer-(N-1)`. |
| Carousel.ViewerIdsDistinct | src/components/TraceCarousel.tsx:26-28 | The ids used as row keys are pairwise distinct when the caller's ids are, or when they are generated. |
| Carousel.JsRem | src/components/TraceCarousel.tsx:57 | JavaScript's truncating `%`: the dividend is the truncating quotient times b plus the result. The result is in `[0,b)` for a non-negative dividend and in `(-b,0]` for a negative one. |
| Carousel.Apply | src/components/TraceCarousel.tsx:43-69 | A committed `next` from `N-1` gives 0, otherwise `i+1`. A committed `prev` from 0 gives `N-1`, otherwise `i-1`. `goTo(k)` gives k. A valid index with an in-range target stays in `[0,N)`. |
| Carousel.PrevUndoesNext | src/components/TraceCarousel.tsx:43-58 | On a valid index, committed `prev` and `next` undo each other. |
| Carousel.AdvanceCompose | src/components/TraceCarousel.tsx:56-58 | Advancing k and then m times equals advancing k+m times. |
| Carousel.AdvanceSteps | src/components/TraceCarousel.tsx:56-58 | Before the wrap, k advances from i reach i+k. |
| Carousel.AdvanceWraps | src/components/TraceCarousel.tsx:56-58 | From index i, n - i advances reach trace 0. |
| Carousel.AdvanceCycle | src/components/TraceCarousel.tsx:56-58 | N advances return to the start, and every trace is reached within N-1 advances. |
| Carousel.Initial | src/components/TraceCarousel.tsx:20-22 | Index 0, no transition, nothing scheduled, autoplay as configured. The autoplay callback installed at mount captured a clear guard. |
| Carousel.InitialInv | src/components/TraceCarousel.tsx:20-22 | The initial state satisfies the invariant: valid index, at most one scheduled commit, guard set exactly while one is scheduled. |
| Carousel.RequestSeeing | src/components/TraceCarousel.tsx:38-72 | A request whose closure sees the guard set, or a `goTo` of the shown index, changes nothing. Otherwise it sets the guard and appends one commit. The index never moves. |
| Carousel.Request | src/components/TraceCarousel.tsx:38-72 | While transitioning, `prev`, `next` and `goTo` are no-ops, and so is `goTo` of the shown index. Otherwise the guard is set and exactly that transition is scheduled. The index, the autoplay flag and the autoplay callback's captured guard are unchanged. |
| Carousel.RequestInv | src/components/TraceCarousel.tsx:38-72 | Requests with in-range targets preserve the invariant. |
| Carousel.Commit | src/components/TraceCarousel.tsx:42-71 | The index becomes the committed transition's result and the guard clears. When the index moves, the reinstalled autoplay callback captures the cleared guard; otherwise it keeps the old one. From an invariant state, the invariant holds again and nothing remains scheduled. |
| Carousel.Toggle | src/components/TraceCarousel.tsx:75-77 | Flips autoplay. Index, guard and schedule are unchanged. |
| Carousel.OnKey | src/components/TraceCarousel.tsx:81-89 | ArrowLeft is a `prev` request and ArrowRight a `next` request. `Space` and `' '` toggle autoplay. Any other key changes nothing. No key moves the index by itself. |
| Carousel.OnKeyInv | src/components/TraceCarousel.tsx:81-89 | Every key preserves the invariant. |
| Carousel.Tick | src/components/TraceCarousel.tsx:98-116 | Corrected autoplay tick: a no-op unless autoplay is on and N > 1. It is also a no-op while a video plays or a transition is pending. Otherwise it is a `next` request. |
| Carousel.TickInv | src/components/TraceCarousel.tsx:101-110 | The corrected tick preserves the invariant. |
| Carousel.TickAsWritten | src/components/TraceCarousel.tsx:98-116 | As written, the tick's `next` request tests the guard captured when the interval was installed, not the live one. |
| Carousel.StaleTickDoubleAdvance | src/components/TraceCarousel.tsx:98-116 | As written: `next` at trace 0 of 3, then a tick inside the window, queue two commits, and the index ends at 2. |
| Carousel.StaleTickBreaksDebounce | src/components/TraceCarousel.tsx:98-116 | As written, a user `next` followed by a tick schedules two commits. This holds from any state that satisfies the invariant, has more than one trace, autoplay on, no transition pending, and an autoplay callback that captured a clear guard. |
| Carousel.TickRespectsDebounce | src/components/TraceCarousel.tsx:101-110 | With the live guard, a tick inside a pending window changes nothing. |
| Carousel.EventsScheduleAtMostOne | src/components/TraceCarousel.tsx:38-110 | Any interleaving of requests and corrected autoplay ticks keeps the invariant: at most one commit is scheduled and the index does not move. Once a transition is pending, the whole interleaving changes nothing. |
| Carousel.FirstEffective | src/components/TraceCarousel.tsx:65 | At most one element. It is empty exactly when every request of the burst is a `goTo` of the shown index. Otherwise its element is the burst's k-th request, which is not such a `goTo`, while every request before position k is one. |
| Carousel.RequestsWhileTransitioningIgnored | src/components/TraceCarousel.tsx:38-72 | Any number of requests while transitioning leave the state unchanged. |
| Carousel.RequestsCoalesce | src/components/TraceCarousel.tsx:38-72 | A burst of requests from a settled state schedules exactly its first effective request and leaves the index unchanged. |
| Carousel.BurstCommitsOnce | src/components/TraceCarousel.tsx:38-72 | A burst followed by the commit changes the index exactly once, to the first effective request's result. Nothing remains scheduled and the guard is clear. |
| Carousel.TraceCarousel.constructor | src/components/TraceCarousel.tsx:13-22 | The state is `Initial(autoplay)` and valid. |
| Carousel.TraceCarousel.Schedule | src/components/TraceCarousel.tsx:38-72 | The new state is `RequestSeeing` of the old one. |
| Carousel.TraceCarousel.PrevTrace | src/components/TraceCarousel.tsx:38-48 | The new state is `Request(old, Prev)`; validity is kept. |
| Carousel.TraceCarousel.NextTrace | src/components/TraceCarousel.tsx:51-61 | The new state is `Request(old, Next)`; validity is kept. |
| Carousel.TraceCarousel.GoToTrace | src/components/TraceCarousel.tsx:64-72 | The new state is `Request(old, GoTo(index))`. Validity is kept when the target is in range. |
| Carousel.TraceCarousel.CommitTransition | src/components/TraceCarousel.tsx:42-71 | The new state is `Commit(old)`. Validity is kept and the guard is clear. |
| Carousel.TraceCarousel.ToggleAutoplay | src/components/TraceCarousel.tsx:75-77 | The new state is `Toggle(old)`. |
| Carousel.TraceCarousel.HandleKeyDown | src/components/TraceCarousel.tsx:81-89 | The new state is `OnKey(old, key)`. |
| Carousel.TraceCarousel.AutoplayTick | src/components/TraceCarousel.tsx:98-116 | The new state is `Tick(old, anyVideoPlaying)`; validity is kept. |
| Carousel.TraceCarousel.AutoplayTickAsWritten | src/components/TraceCarousel.tsx:98-116 | The new state is `TickAsWritten(old, anyVideoPlaying)`. |
| Viewer.FindFrom | src/components/TraceViewer.tsx:80-82 | It returns -1 exactly when no interval from position `from` on contains t. Otherwise it returns the least such index. |
| Viewer.FindActive | src/components/TraceViewer.tsx:80-82 | It returns -1 exactly when no `[start,end)` contains t. Otherwise it returns the least index whose interval contains t, so the first index wins on overlap. |
| Viewer.FindActiveSelectsCoveringStep | src/components/TraceViewer.tsx:80-82 | With disjoint intervals, every t in `[start_i,end_i)` selects i. |
| Viewer.FindActiveOutsideAllSteps | src/components/TraceViewer.tsx:80-84 | With steps sorted by start, a time before the first start or at or after every end selects nothing. |
| Viewer.OverlapFirstWins | src/components/TraceViewer.tsx:80-82 | On overlapping intervals `[0,30)` and `[10,40)`, time 15 selects the first. |
| Viewer.SampleBoundaries | src/app/page.tsx:7-43 | On the three steps `[0,20)`, `[20,40)` and `[40,60)`: a boundary belongs to the later step, and times 60 and -1 select nothing. |
| Viewer.InitialState | src/components/TraceViewer.tsx:12-22 | With steps, the first step is selected and active. Without steps, there is no selection and no active step. Time is 0 and playback is paused. |
| Viewer.TimeUpdate | src/components/TraceViewer.tsx:76-89 | The time is always set and the valid-index invariant is kept. When some step covers t, the first covering step becomes active. It becomes the selection only if it was not already active. When no step covers t, the active index and the selection are unchanged. |
| Viewer.Select | src/components/TraceViewer.tsx:101 | A click sets only the selection. |
| Viewer.Seeked | src/components/TraceViewer.tsx:94 | A seek sets only the time and does not recompute the active index. |
| Viewer.SelectionPersistsWithinActiveStep | src/components/TraceViewer.tsx:84-88 | With disjoint steps, a clicked selection survives time updates that stay inside the active step. |
| Viewer.AutoFollowOverridesSelection | src/components/TraceViewer.tsx:84-88 | When playback enters another step, that step becomes active and selected, replacing a clicked selection. |
| Viewer.SeekDoesNotResync | src/components/TraceViewer.tsx:94 | After seeking to 45 the stale active step 0 remains. Only the next time update moves it to 2. |
| Viewer.TraceViewer.constructor | src/components/TraceViewer.tsx:11-22 | The state is `InitialState(items)` and valid. |
| Viewer.TraceViewer.HandleVideoTimeUpdate | src/components/TraceViewer.tsx:76-89 | The new state is `TimeUpdate(old, time)`; validity is kept. |
| Viewer.TraceViewer.HandlePlay | src/components/TraceViewer.tsx:92 | Playing is set; everything else is unchanged. |
| Viewer.TraceViewer.HandlePause | src/components/TraceViewer.tsx:93 | Playing is cleared; everything else is unchanged. |
| Viewer.TraceViewer.HandleSeeked | src/components/TraceViewer.tsx:94 | The new state is `Seeked(old, time)`. |
| Viewer.TraceViewer.OnItemSelect | src/components/TraceViewer.tsx:101 | The new state is `Select(old, item)`. |
| Viewer.TraceViewer.ClickRow | src/components/Timeline.tsx:59 | A click on row i selects `items[i]`. |
| Timeline.RowHighlight | src/components/Timeline.tsx:52-58 | A row is Active exactly when its index is the active index. It is Selected exactly when it is not active and the selected item has its timestamp. Otherwise it is Plain. |
| Timeline.RowHighlights | src/components/Timeline.tsx:48-58 | One highlight per row and at most one Active row. An Active row exists exactly when the active index names a row. |
| Timeline.MarkImageError | src/components/Timeline.tsx:16-18 | The flag of `ts` is set and the keys grow by `ts` only. Every other key keeps its value. |
| Timeline.MarkImageErrorIdempotent | src/components/Timeline.tsx:16-18 | Marking twice equals marking once. |
| Timeline.Fallback | src/components/Timeline.tsx:69-83 | A row shows the fallback exactly when its timestamp is flagged, and the fallback names its screenshot path. This covers timestamps that do not name an inherited `Object.prototype` property. |
| Timeline.FailedRowShowsFallback | src/components/Timeline.tsx:69-81 | After a failure of `ts`, rows with that timestamp show the fallback and all other rows are unchanged. |
| Timeline.ScrollTarget | src/components/Timeline.tsx:21-35 | A target exists exactly when the active index is defined and in range and the row and container exist. The target plus half the container height is the row's centre. |
| Timeline.ScrollTargetShowsRow | src/components/Timeline.tsx:32-35 | A row no taller than the container is fully inside the view at the target. |
| Timeline.TimelineView.constructor | src/components/Timeline.tsx:12-14 | No image errors, no scrolls issued. |
| Timeline.TimelineView.HandleImageError | src/components/Timeline.tsx:16-18 | The map becomes `MarkImageError(old, ts)`; nothing else changes. |
| Timeline.TimelineView.ScrollToActive | src/components/Timeline.tsx:20-44 | Appends the target of `ScrollTarget` exactly when one exists; nothing else changes. |

## Left out

- Page markup, Tailwind classes, the architecture diagram, the theme toggle and the citation copy button (app/page.tsx:52-659): presentation and browser API.
- The environment variable read for the base path (app/page.tsx:16) and the bundler-resolved JSON imports (app/page.tsx:7-13): the base path and the parsed traces are parameters.
- Timer durations (the 300 ms commit delay, the autoplay interval and the re-arming of the interval on every index change): a timer firing is an explicit event (`CommitTransition`, `AutoplayTick`), and the order of events is the caller's.
- Unmount cleanup of timers, the `onActiveIndexChange` notification effect and the unused `autoplayTimerRef` cleanup (src/components/TraceCarousel.tsx:31-35,113-126): effect plumbing with no state of its own.
- The DOM query for playing videos (src/components/TraceCarousel.tsx:104-105) is the boolean input `anyVideoPlaying`. The `scrollTo` smooth animation and the `offsetTop`/`offsetHeight` measurements (src/components/Timeline.tsx:32-41) are inputs too, and the scroll is recorded as an issued target.
- The default props `autoplay = true` and `ids = []` (src/components/TraceCarousel.tsx:15-16): `TraceCarousel.constructor` takes `autoplay` and `ViewerIds` takes `ids` as explicit arguments, so callers that omit them are not modelled.
- Carousel.Apply: the carousel is modelled for at least one trace (type `Positive`). With zero traces JavaScript would compute `NaN` for `next` and -1 for `prev`, and that case is not modelled.
- The drag-to-resize split position and the other unused viewer state (src/components/TraceViewer.tsx:25-73): never rendered and mouse-event plumbing.
- src/components/VideoPlayer.tsx (loading and the error string of the video element), the locale formatting of timestamps, the layouts, app/not-found.tsx and next.config.js: browser and build concerns.
- React's rendering is not modelled. Each handler is one atomic step on the state fields, and the only closure staleness modelled is the autoplay callback's captured guard.
- Timeline.Fallback: the error record is a plain object (src/components/Timeline.tsx:12,69), and the model reads it as a map. A timestamp that names an inherited `Object.prototype` property (`constructor`, `toString`, `__proto__`) reads as truthy in the source, so that row shows the fallback before any load fails. Such timestamps are not modelled; the bundled traces use ISO dates.
- Time values are `real`; `NaN` and infinities are not modelled.

## Findings

| source | as written | input that shows it | evidently intended | confidence | as-written member | corrected member |
|---|---|---|---|---|---|---|
| src/components/TraceCarousel.tsx:98-116 | The autoplay interval calls the `nextTrace` of the render that installed it. The effect's dependencies omit `isTransitioning`, so the tick tests a stale guard. | Three traces at index 0 with autoplay on and no video playing. ArrowRight starts a transition, and the interval fires inside the 300 ms window. Two commits are queued and the carousel lands on trace 2. | A tick inside a pending transition is ignored, so each debounce window gives exactly one index change. | medium; not executed | Carousel.TickAsWritten, Carousel.StaleTickDoubleAdvance | Carousel.Tick, Carousel.TickRespectsDebounce |
