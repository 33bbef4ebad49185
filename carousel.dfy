/** The multi-trace carousel: one trace shown at a time, navigation that is
    debounced by a transition guard and committed by a later timer, keyboard
    bindings, and an autoplay interval that advances when no video plays.

    The 300 ms commit timer and the autoplay interval are not clocks here:
    each firing is an explicit event (`Commit`, `Tick`). */
module Carousel {

  /** The number of traces; the carousel is modelled for at least one. */
  type Positive = n: nat | n > 0 witness 1

  // ---------------------------------------------------------------------------
  // Viewer ids

  function DigitChar(d: nat): (c: char)
    requires d < 10
    ensures '0' <= c <= '9'
  {
    (48 + d) as char
  }

  /** The decimal rendering `${k}` of a natural number. */
  function Decimal(k: nat): (s: string)
    ensures |s| > 0
    ensures forall i :: 0 <= i < |s| ==> '0' <= s[i] <= '9'
    ensures k > 0 ==> s[0] != '0'
  {
    if k < 10 then [DigitChar(k)] else Decimal(k / 10) + [DigitChar(k % 10)]
  }

  /** Reads a string of decimal digits back as a number. */
  function DecimalValue(s: string): int
  {
    if s == [] then 0 else DecimalValue(s[..|s| - 1]) * 10 + (s[|s| - 1] as int - 48)
  }

  lemma {:induction false} DecimalRoundTrip(k: nat)
    ensures DecimalValue(Decimal(k)) == k
  {
    var s := Decimal(k);
    if k >= 10 {
      assert s[..|s| - 1] == Decimal(k / 10);
      DecimalRoundTrip(k / 10);
    }
  }

  /** The id generated for the viewer at position k: `viewer-${k}`. */
  function GeneratedId(k: nat): (id: string)
    ensures id == "viewer-" + Decimal(k)
    ensures |id| > 7 && id[..7] == "viewer-"
    ensures DecimalValue(id[7..]) == k
  {
    DecimalRoundTrip(k);
    var id := "viewer-" + Decimal(k);
    assert id[7..] == Decimal(k);
    id
  }

  /** Generated ids never collide. */
  lemma GeneratedIdInjective(j: nat, k: nat)
    requires GeneratedId(j) == GeneratedId(k)
    ensures j == k
  {
  }

  predicate Distinct(s: seq<string>) {
    forall i, j :: 0 <= i < j < |s| ==> s[i] != s[j]
  }

  /** The caller's ids when there is exactly one per trace, otherwise one
      generated id per trace. */
  function ViewerIds(ids: seq<string>, n: nat): (r: seq<string>)
    ensures |r| == n
    ensures |ids| == n ==> r == ids
    ensures |ids| != n ==> forall k :: 0 <= k < n ==> r[k] == GeneratedId(k)
  {
    if |ids| == n then ids else seq(n, (k: int) requires 0 <= k => GeneratedId(k))
  }

  /** The viewer ids are distinct keys whenever the caller's ids are (or are not used). */
  lemma ViewerIdsDistinct(ids: seq<string>, n: nat)
    requires |ids| == n ==> Distinct(ids)
    ensures Distinct(ViewerIds(ids, n))
  {
    var r := ViewerIds(ids, n);
    if |ids| != n {
      forall i, j | 0 <= i < j < n
        ensures r[i] != r[j]
      {
        assert DecimalValue(r[i][7..]) == i && DecimalValue(r[j][7..]) == j;
      }
    }
  }

  // ---------------------------------------------------------------------------
  // Index arithmetic

  datatype Transition = Prev | Next | GoTo(target: int)

  /** A `goTo` target names an existing trace; `prev` and `next` always do. */
  predicate TargetOk(n: Positive, t: Transition) {
    t.GoTo? ==> 0 <= t.target < n
  }

  /** JavaScript's integer quotient, which truncates toward zero. */
  function JsQuot(a: int, b: Positive): int {
    if a >= 0 then a / b else -((-a) / b)
  }

  /** JavaScript's `%`, which truncates toward zero: the remainder of the
      truncating quotient, carrying the dividend's sign. */
  function JsRem(a: int, b: Positive): (r: int)
    ensures a == JsQuot(a, b) * b + r
    ensures a >= 0 ==> 0 <= r < b
    ensures a < 0 ==> -(b as int) < r <= 0
  {
    if a >= 0 then a % b else -((-a) % b)
  }

  /** The index a committed transition yields from index i. The arithmetic
      runs at commit time, against the index current at that moment. */
  function Apply(n: Positive, i: int, t: Transition): (r: int)
    ensures 0 <= i < n && TargetOk(n, t) ==> 0 <= r < n
    ensures 0 <= i < n && t == Next ==> r == (if i == n - 1 then 0 else i + 1)
    ensures t == Prev ==> r == (if i == 0 then n - 1 else i - 1)
    ensures t.GoTo? ==> r == t.target
  {
    match t
    case Prev => if i == 0 then n - 1 else i - 1
    case Next => JsRem(i + 1, n)
    case GoTo(k) => k
  }

  /** On a valid index, a committed `prev` undoes a committed `next` and vice versa. */
  lemma PrevUndoesNext(n: Positive, i: int)
    requires 0 <= i < n
    ensures Apply(n, Apply(n, i, Next), Prev) == i
    ensures Apply(n, Apply(n, i, Prev), Next) == i
  {
  }

  /** The index after k committed `next` transitions. */
  function Advance(n: Positive, i: int, k: nat): int
  {
    if k == 0 then i else Apply(n, Advance(n, i, k - 1), Next)
  }

  /** Advancing k and then m times is advancing k + m times. */
  lemma {:induction false} AdvanceCompose(n: Positive, i: int, k: nat, m: nat)
    ensures Advance(n, i, k + m) == Advance(n, Advance(n, i, k), m)
    decreases m
  {
    if m > 0 {
      AdvanceCompose(n, i, k, m - 1);
    }
  }

  /** Before the wrap, each advance moves one trace forward. */
  lemma {:induction false} AdvanceSteps(n: Positive, i: int, k: nat)
    requires 0 <= i && i + k < n
    ensures Advance(n, i, k) == i + k
  {
    if k > 0 {
      AdvanceSteps(n, i, k - 1);
    }
  }

  /** From index i, n - i advances wrap around to the first trace. */
  lemma AdvanceWraps(n: Positive, i: int)
    requires 0 <= i < n
    ensures Advance(n, i, n - i) == 0
  {
    AdvanceSteps(n, i, n - 1 - i);
    assert Advance(n, i, n - i) == Apply(n, n - 1, Next);
  }

  /** Autoplay visits every trace and is back at the start after n advances. */
  lemma AdvanceCycle(n: Positive, i: int, j: int)
    requires 0 <= i < n && 0 <= j < n
    ensures Advance(n, i, n) == i
    ensures Advance(n, i, if i <= j then j - i else n - i + j) == j
  {
    AdvanceWraps(n, i);
    AdvanceSteps(n, 0, i);
    AdvanceCompose(n, i, n - i, i);
    if i <= j {
      AdvanceSteps(n, i, j - i);
    } else {
      AdvanceSteps(n, 0, j);
      AdvanceCompose(n, i, n - i, j);
    }
  }

  // ---------------------------------------------------------------------------
  // The state machine

  /** The carousel's state: the shown index, the transition guard, the
      autoplay flag, the commits scheduled by the 300 ms timers in firing
      order, and the guard value seen by the installed autoplay callback
      (the interval closure captures `isTransitioning` when it is installed,
      that is, whenever `isAutoPlaying` or `activeIndex` changes). */
  datatype View = View(
    activeIndex: int,
    isTransitioning: bool,
    isAutoPlaying: bool,
    pending: seq<Transition>,
    tickGuard: bool)

  function Initial(autoplay: bool): (v: View)
    ensures v.activeIndex == 0 && !v.isTransitioning && v.isAutoPlaying == autoplay && v.pending == []
    ensures !v.tickGuard
  {
    View(0, false, autoplay, [], false)
  }

  /** The invariant of the debounced machine: a valid index, at most one
      scheduled commit, the guard set exactly while one is scheduled, and
      scheduled targets in range. */
  predicate Inv(n: Positive, v: View) {
    && 0 <= v.activeIndex < n
    && |v.pending| <= 1
    && (v.isTransitioning <==> |v.pending| == 1)
    && (forall t :: t in v.pending ==> TargetOk(n, t))
  }

  lemma InitialInv(n: Positive, autoplay: bool)
    ensures Inv(n, Initial(autoplay))
  {
  }

  /** A `goTo` of the shown index: a request that changes nothing even from
      a settled state. */
  predicate GoesNowhere(i: int, t: Transition) {
    t.GoTo? && t.target == i
  }

  /** A request as the calling closure sees it: `guard` is the value of
      `isTransitioning` that closure read. */
  function RequestSeeing(v: View, t: Transition, guard: bool): (r: View)
    ensures r.activeIndex == v.activeIndex && r.isAutoPlaying == v.isAutoPlaying && r.tickGuard == v.tickGuard
    ensures guard ==> r == v
    ensures !guard && !GoesNowhere(v.activeIndex, t) ==> r.isTransitioning && r.pending == v.pending + [t]
    ensures GoesNowhere(v.activeIndex, t) ==> r == v
  {
    if guard || GoesNowhere(v.activeIndex, t) then v
    else v.(isTransitioning := true, pending := v.pending + [t])
  }

  /** `prevTrace`, `nextTrace`, `goToTrace(k)`: ignored while a transition is
      pending (and `goTo` of the shown index is ignored outright); otherwise
      the guard is set and one commit is scheduled. No request moves the index. */
  function Request(v: View, t: Transition): (r: View)
    ensures r.activeIndex == v.activeIndex && r.isAutoPlaying == v.isAutoPlaying
    ensures r.tickGuard == v.tickGuard
    ensures v.isTransitioning ==> r == v
    ensures GoesNowhere(v.activeIndex, t) ==> r == v
    ensures !v.isTransitioning && !GoesNowhere(v.activeIndex, t) ==>
      r.isTransitioning && r.pending == v.pending + [t]
  {
    RequestSeeing(v, t, v.isTransitioning)
  }

  lemma RequestInv(n: Positive, v: View, t: Transition)
    requires Inv(n, v) && TargetOk(n, t)
    ensures Inv(n, Request(v, t))
  {
  }

  /** The first scheduled timer fires: the index moves and the guard clears.
      A changed index reinstalls the autoplay callback, which then sees the
      cleared guard. */
  function Commit(n: Positive, v: View): (r: View)
    requires |v.pending| > 0
    ensures r.activeIndex == Apply(n, v.activeIndex, v.pending[0])
    ensures !r.isTransitioning && r.isAutoPlaying == v.isAutoPlaying && r.pending == v.pending[1..]
    ensures Inv(n, v) ==> Inv(n, r) && r.pending == []
    ensures r.tickGuard == (if r.activeIndex != v.activeIndex then false else v.tickGuard)
  {
    var i := Apply(n, v.activeIndex, v.pending[0]);
    v.(activeIndex := i, isTransitioning := false, pending := v.pending[1..],
       tickGuard := if i != v.activeIndex then false else v.tickGuard)
  }

  /** `toggleAutoplay`: flips the flag only; the autoplay callback is reinstalled. */
  function Toggle(v: View): (r: View)
    ensures r.isAutoPlaying == !v.isAutoPlaying
    ensures r.activeIndex == v.activeIndex && r.isTransitioning == v.isTransitioning && r.pending == v.pending
    ensures r.tickGuard == v.isTransitioning
  {
    v.(isAutoPlaying := !v.isAutoPlaying, tickGuard := v.isTransitioning)
  }

  /** The keyboard handler. */
  function OnKey(v: View, key: string): (r: View)
    ensures key == "ArrowLeft" ==> r == Request(v, Prev)
    ensures key == "ArrowRight" ==> r == Request(v, Next)
    ensures key == "Space" || key == " " ==> r == Toggle(v)
    ensures key != "ArrowLeft" && key != "ArrowRight" && key != "Space" && key != " " ==> r == v
    ensures r.activeIndex == v.activeIndex
  {
    if key == "ArrowLeft" then Request(v, Prev)
    else if key == "ArrowRight" then Request(v, Next)
    else if key == "Space" || key == " " then Toggle(v)
    else v
  }

  lemma OnKeyInv(n: Positive, v: View, key: string)
    requires Inv(n, v)
    ensures Inv(n, OnKey(v, key))
  {
  }

  /** One firing of the autoplay interval, as the source intends it: installed
      only when autoplay is on and there are at least two traces; skipped
      while any video plays; otherwise a `next` request against the live guard. */
  function Tick(n: Positive, v: View, anyVideoPlaying: bool): (r: View)
    ensures !v.isAutoPlaying || n <= 1 || anyVideoPlaying ==> r == v
    ensures v.isTransitioning ==> r == v
    ensures v.isAutoPlaying && n > 1 && !anyVideoPlaying ==> r == Request(v, Next)
  {
    if v.isAutoPlaying && n > 1 && !anyVideoPlaying then Request(v, Next) else v
  }

  lemma TickInv(n: Positive, v: View, anyVideoPlaying: bool)
    requires Inv(n, v)
    ensures Inv(n, Tick(n, v, anyVideoPlaying))
  {
  }

  /** One firing of the autoplay interval as written: the callback calls the
      `nextTrace` of the render that installed it, so it tests the captured
      guard `tickGuard` instead of the live one. */
  function TickAsWritten(n: Positive, v: View, anyVideoPlaying: bool): (r: View)
    ensures !v.isAutoPlaying || n <= 1 || anyVideoPlaying ==> r == v
    ensures v.isAutoPlaying && n > 1 && !anyVideoPlaying ==> r == RequestSeeing(v, Next, v.tickGuard)
  {
    if v.isAutoPlaying && n > 1 && !anyVideoPlaying then RequestSeeing(v, Next, v.tickGuard) else v
  }

  /** As written, a tick that fires inside a debounce window opened by the
      user schedules a second commit, so the window yields two index changes:
      `next` pressed at trace 0 of 3 and a tick 100 ms later end at trace 2. */
  lemma StaleTickDoubleAdvance()
    ensures var v1 := Request(Initial(true), Next);
            var v2 := TickAsWritten(3, v1, false);
            |v2.pending| == 2 && !Inv(3, v2) &&
            Commit(3, v2).activeIndex == 1 && Commit(3, Commit(3, v2)).activeIndex == 2
  {
    var v1 := Request(Initial(true), Next);
    assert v1.pending == [Next] && !v1.tickGuard;
    var v2 := TickAsWritten(3, v1, false);
    assert v2.pending == [Next, Next];
    var v3 := Commit(3, v2);
    assert v3.pending == [Next];
  }

  /** The same for every state where the user opens the window from an
      autoplay callback installed before the request. */
  lemma StaleTickBreaksDebounce(n: Positive, v: View)
    requires Inv(n, v) && v.isAutoPlaying && n > 1 && !v.isTransitioning && !v.tickGuard
    ensures |TickAsWritten(n, Request(v, Next), false).pending| == 2
  {
  }

  /** With the live guard the tick respects the debounce: a tick inside the
      window changes nothing and leaves the one scheduled commit in place
      (`EventsScheduleAtMostOne` extends this to bursts of requests and ticks). */
  lemma TickRespectsDebounce(n: Positive, v: View, anyVideoPlaying: bool)
    requires Inv(n, v) && v.isTransitioning
    ensures Tick(n, v, anyVideoPlaying) == v
    ensures |Tick(n, v, anyVideoPlaying).pending| == 1
  {
  }

  // ---------------------------------------------------------------------------
  // Bursts of requests

  /** Several requests issued before any timer fires. */
  function RequestAll(v: View, ts: seq<Transition>): View
    decreases |ts|
  {
    if ts == [] then v else RequestAll(Request(v, ts[0]), ts[1..])
  }

  /** The first request of a burst that is not a `goTo` of the shown index. */
  function FirstEffective(i: int, ts: seq<Transition>): (r: seq<Transition>)
    ensures |r| <= 1
    ensures r == [] <==> forall k :: 0 <= k < |ts| ==> GoesNowhere(i, ts[k])
    ensures r != [] ==> exists k :: 0 <= k < |ts| && r[0] == ts[k] && !GoesNowhere(i, ts[k]) &&
                                   forall j :: 0 <= j < k ==> GoesNowhere(i, ts[j])
    decreases |ts|
  {
    if ts == [] then []
    else if GoesNowhere(i, ts[0]) then FirstEffective(i, ts[1..])
    else [ts[0]]
  }

  /** While a transition is pending, every request is ignored. */
  lemma {:induction false} RequestsWhileTransitioningIgnored(v: View, ts: seq<Transition>)
    requires v.isTransitioning
    ensures RequestAll(v, ts) == v
    decreases |ts|
  {
    if ts != [] {
      RequestsWhileTransitioningIgnored(Request(v, ts[0]), ts[1..]);
    }
  }

  /** A burst of requests from a settled state schedules exactly the first
      effective one and leaves the index where it is. */
  lemma {:induction false} RequestsCoalesce(n: Positive, v: View, ts: seq<Transition>)
    requires Inv(n, v) && !v.isTransitioning
    requires forall t :: t in ts ==> TargetOk(n, t)
    ensures Inv(n, RequestAll(v, ts))
    ensures RequestAll(v, ts).activeIndex == v.activeIndex
    ensures RequestAll(v, ts).pending == FirstEffective(v.activeIndex, ts)
    decreases |ts|
  {
    if ts != [] {
      var w := Request(v, ts[0]);
      if GoesNowhere(v.activeIndex, ts[0]) {
        assert w == v;
        RequestsCoalesce(n, v, ts[1..]);
      } else {
        assert w.pending == [ts[0]];
        RequestsWhileTransitioningIgnored(w, ts[1..]);
      }
    }
  }

  /** Any burst of requests followed by the commit moves the index exactly
      once, to the first effective request's target, and leaves nothing
      scheduled, so no further index change follows. */
  lemma BurstCommitsOnce(n: Positive, v: View, ts: seq<Transition>)
    requires Inv(n, v) && !v.isTransitioning
    requires forall t :: t in ts ==> TargetOk(n, t)
    requires FirstEffective(v.activeIndex, ts) != []
    ensures var w := RequestAll(v, ts);
            |w.pending| == 1 &&
            var c := Commit(n, w);
            Inv(n, c) && !c.isTransitioning && c.pending == [] &&
            c.activeIndex == Apply(n, v.activeIndex, FirstEffective(v.activeIndex, ts)[0])
  {
    RequestsCoalesce(n, v, ts);
  }

  /** An event that can arrive before the scheduled timer fires: a user
      request or a firing of the (corrected) autoplay interval. */
  datatype Event = UserRequest(t: Transition) | AutoplayFire(anyVideoPlaying: bool)

  function Deliver(n: Positive, v: View, e: Event): View {
    match e
    case UserRequest(t) => Request(v, t)
    case AutoplayFire(p) => Tick(n, v, p)
  }

  function RunEvents(n: Positive, v: View, es: seq<Event>): View
    decreases |es|
  {
    if es == [] then v else RunEvents(n, Deliver(n, v, es[0]), es[1..])
  }

  /** Any interleaving of requests and corrected ticks keeps the invariant,
      so at most one commit is ever scheduled, and it does not move the index;
      once a transition is pending, the whole interleaving changes nothing. */
  lemma {:induction false} EventsScheduleAtMostOne(n: Positive, v: View, es: seq<Event>)
    requires Inv(n, v)
    requires forall k :: 0 <= k < |es| && es[k].UserRequest? ==> TargetOk(n, es[k].t)
    ensures Inv(n, RunEvents(n, v, es)) && |RunEvents(n, v, es).pending| <= 1
    ensures RunEvents(n, v, es).activeIndex == v.activeIndex
    ensures v.isTransitioning ==> RunEvents(n, v, es) == v
    decreases |es|
  {
    if es != [] {
      var w := Deliver(n, v, es[0]);
      match es[0] {
        case UserRequest(t) => RequestInv(n, v, t);
        case AutoplayFire(p) => TickInv(n, v, p);
      }
      assert forall k :: 0 <= k < |es[1..]| && es[1..][k].UserRequest? ==> TargetOk(n, es[1..][k].t) by {
        forall k | 0 <= k < |es[1..]| ensures es[1..][k] == es[k + 1] { }
      }
      EventsScheduleAtMostOne(n, w, es[1..]);
    }
  }

  // ---------------------------------------------------------------------------
  // The component

  class TraceCarousel {
    const n: Positive
    var activeIndex: int
    var isTransitioning: bool
    var isAutoPlaying: bool
    var pending: seq<Transition>
    var tickGuard: bool

    function State(): View
      reads this
    {
      View(activeIndex, isTransitioning, isAutoPlaying, pending, tickGuard)
    }

    ghost predicate Valid()
      reads this
    {
      Inv(n, State())
    }

    constructor (count: Positive, autoplay: bool)
      ensures n == count && State() == Initial(autoplay) && Valid()
    {
      n := count;
      activeIndex := 0;
      isTransitioning := false;
      isAutoPlaying := autoplay;
      pending := [];
      tickGuard := false;
    }

    /** Shared body of the three navigation handlers; `guard` is the
        `isTransitioning` the calling closure sees. */
    method Schedule(t: Transition, guard: bool)
      modifies this
      ensures State() == RequestSeeing(old(State()), t, guard)
    {
      if guard || GoesNowhere(activeIndex, t) {
        return;
      }
      isTransitioning := true;
      pending := pending + [t];
    }

    method PrevTrace()
      modifies this
      ensures State() == Request(old(State()), Prev)
      ensures old(Valid()) ==> Valid()
    {
      Schedule(Prev, isTransitioning);
    }

    method NextTrace()
      modifies this
      ensures State() == Request(old(State()), Next)
      ensures old(Valid()) ==> Valid()
    {
      Schedule(Next, isTransitioning);
    }

    method GoToTrace(index: int)
      modifies this
      ensures State() == Request(old(State()), GoTo(index))
      ensures old(Valid()) && 0 <= index < n ==> Valid()
    {
      Schedule(GoTo(index), isTransitioning);
    }

    /** The first scheduled 300 ms timer fires. */
    method CommitTransition()
      requires |pending| > 0
      modifies this
      ensures State() == Commit(n, old(State()))
      ensures old(Valid()) ==> Valid() && !isTransitioning
    {
      var t := pending[0];
      var next := Apply(n, activeIndex, t);
      if next != activeIndex {
        tickGuard := false;
      }
      activeIndex := next;
      isTransitioning := false;
      pending := pending[1..];
    }

    method ToggleAutoplay()
      modifies this
      ensures State() == Toggle(old(State()))
      ensures old(Valid()) ==> Valid()
    {
      isAutoPlaying := !isAutoPlaying;
      tickGuard := isTransitioning;
    }

    method HandleKeyDown(key: string)
      modifies this
      ensures State() == OnKey(old(State()), key)
      ensures old(Valid()) ==> Valid()
    {
      if key == "ArrowLeft" {
        PrevTrace();
      } else if key == "ArrowRight" {
        NextTrace();
      } else if key == "Space" || key == " " {
        ToggleAutoplay();
      }
    }

    /** The autoplay interval fires; `anyVideoPlaying` is whether some video
        element on the page is not paused. */
    method AutoplayTick(anyVideoPlaying: bool)
      modifies this
      ensures State() == Tick(n, old(State()), anyVideoPlaying)
      ensures old(Valid()) ==> Valid()
    {
      if isAutoPlaying && n > 1 && !anyVideoPlaying {
        NextTrace();
      }
    }

    /** The autoplay interval fires, with the callback's captured guard. */
    method AutoplayTickAsWritten(anyVideoPlaying: bool)
      modifies this
      ensures State() == TickAsWritten(n, old(State()), anyVideoPlaying)
    {
      if isAutoPlaying && n > 1 && !anyVideoPlaying {
        Schedule(Next, tickGuard);
      }
    }
  }
}
