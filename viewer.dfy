/** One trace viewer: it keeps the highlighted step in step with the video's
    playback position, and mirrors play, pause and seek events. */
module Viewer {
  import opened TraceTypes

  /** Playback time t lies in the item's interval: lower bound inclusive,
      upper bound exclusive. */
  predicate Covers(item: TraceItem, t: real) {
    item.timeRange.start <= t < item.timeRange.end
  }

  /** `findIndex` from position `from` on: the least covering index, or -1. */
  function FindFrom(items: seq<TraceItem>, t: real, from: nat): (r: int)
    requires from <= |items|
    ensures r == -1 || from <= r < |items|
    ensures r == -1 <==> forall j :: from <= j < |items| ==> !Covers(items[j], t)
    ensures r != -1 ==> Covers(items[r], t) && forall j :: from <= j < r ==> !Covers(items[j], t)
    decreases |items| - from
  {
    if from == |items| then -1
    else if Covers(items[from], t) then from
    else FindFrom(items, t, from + 1)
  }

  /** The candidate step for playback time t: the first item whose interval
      contains t, or -1 when none does. */
  function FindActive(items: seq<TraceItem>, t: real): (r: int)
    ensures -1 <= r < |items|
    ensures r == -1 <==> forall j :: 0 <= j < |items| ==> !Covers(items[j], t)
    ensures r != -1 ==> Covers(items[r], t) && forall j :: 0 <= j < r ==> !Covers(items[j], t)
  {
    FindFrom(items, t, 0)
  }

  /** Pairwise disjoint intervals, as recorded traces are meant to have. */
  ghost predicate NonOverlapping(items: seq<TraceItem>) {
    forall i, j :: 0 <= i < j < |items| ==> !(exists t :: Covers(items[i], t) && Covers(items[j], t))
  }

  /** With disjoint intervals, every time inside step i selects step i. */
  lemma FindActiveSelectsCoveringStep(items: seq<TraceItem>, i: int, t: real)
    requires NonOverlapping(items)
    requires 0 <= i < |items| && Covers(items[i], t)
    ensures FindActive(items, t) == i
  {
  }

  /** Steps sorted by start time: a time before the first start, or at or
      after the latest end, selects nothing. */
  lemma FindActiveOutsideAllSteps(items: seq<TraceItem>, t: real)
    requires |items| > 0
    requires forall i, j :: 0 <= i < j < |items| ==> items[i].timeRange.start <= items[j].timeRange.start
    requires t < items[0].timeRange.start || forall j :: 0 <= j < |items| ==> items[j].timeRange.end <= t
    ensures FindActive(items, t) == -1
  {
    if t < items[0].timeRange.start {
      forall j | 0 <= j < |items|
        ensures !Covers(items[j], t)
      {
        if j > 0 {
          assert items[0].timeRange.start <= items[j].timeRange.start;
        }
      }
    }
  }

  // ---------------------------------------------------------------------------
  // The synchroniser's state

  /** The synchroniser's state: the selected step (`null` as None), the
      playback position, the play flag and the active step index
      (`undefined` as None). */
  datatype ViewerState = ViewerState(
    selectedItem: Option<TraceItem>,
    currentTime: real,
    isPlaying: bool,
    activeItemIndex: Option<int>)

  /** The first step selected and active when there is one; time 0, paused. */
  function InitialState(items: seq<TraceItem>): (s: ViewerState)
    ensures s.currentTime == 0.0 && !s.isPlaying
    ensures |items| > 0 ==> s.selectedItem == Some(items[0]) && s.activeItemIndex == Some(0)
    ensures |items| == 0 ==> s.selectedItem == None && s.activeItemIndex == None
    ensures ViewerInv(items, s)
  {
    if |items| > 0 then ViewerState(Some(items[0]), 0.0, false, Some(0))
    else ViewerState(None, 0.0, false, None)
  }

  /** The active index, when defined, names a step. */
  predicate ViewerInv(items: seq<TraceItem>, s: ViewerState) {
    s.activeItemIndex.Some? ==> 0 <= s.activeItemIndex.value < |items|
  }

  /** A time update at t: the time is recorded; when some step covers t,
      the first such step becomes active, and it becomes the selection only
      if it was not already the active step. Outside every step nothing but
      the time changes. */
  function TimeUpdate(items: seq<TraceItem>, s: ViewerState, t: real): (r: ViewerState)
    ensures r.currentTime == t && r.isPlaying == s.isPlaying
    ensures ViewerInv(items, s) ==> ViewerInv(items, r)
    ensures FindActive(items, t) == -1 ==> r.activeItemIndex == s.activeItemIndex && r.selectedItem == s.selectedItem
    ensures (exists i :: 0 <= i < |items| && Covers(items[i], t)) ==>
      r.activeItemIndex == Some(FindActive(items, t)) && Covers(items[r.activeItemIndex.value], t)
    ensures FindActive(items, t) != -1 && s.activeItemIndex != Some(FindActive(items, t)) ==>
      r.selectedItem == Some(items[FindActive(items, t)])
    ensures s.activeItemIndex == Some(FindActive(items, t)) ==> r.selectedItem == s.selectedItem && r.activeItemIndex == s.activeItemIndex
  {
    var k := FindActive(items, t);
    if k != -1 && s.activeItemIndex != Some(k) then
      s.(currentTime := t, activeItemIndex := Some(k), selectedItem := Some(items[k]))
    else
      s.(currentTime := t)
  }

  /** A row click: only the selection changes. */
  function Select(s: ViewerState, item: TraceItem): (r: ViewerState)
    ensures r.selectedItem == Some(item)
    ensures r.activeItemIndex == s.activeItemIndex && r.currentTime == s.currentTime && r.isPlaying == s.isPlaying
  {
    s.(selectedItem := Some(item))
  }

  /** A seek: only the time changes; the active index is not recomputed. */
  function Seeked(s: ViewerState, t: real): (r: ViewerState)
    ensures r.currentTime == t
    ensures r.activeItemIndex == s.activeItemIndex && r.selectedItem == s.selectedItem && r.isPlaying == s.isPlaying
  {
    s.(currentTime := t)
  }

  /** A clicked selection survives time updates that stay inside the active
      step (with disjoint steps), even though a different step is selected. */
  lemma SelectionPersistsWithinActiveStep(items: seq<TraceItem>, s: ViewerState, item: TraceItem, t: real)
    requires NonOverlapping(items) && ViewerInv(items, s)
    requires s.activeItemIndex.Some? && Covers(items[s.activeItemIndex.value], t)
    ensures TimeUpdate(items, Select(s, item), t).selectedItem == Some(item)
    ensures TimeUpdate(items, Select(s, item), t).activeItemIndex == s.activeItemIndex
  {
    FindActiveSelectsCoveringStep(items, s.activeItemIndex.value, t);
  }

  /** Once the playback leaves the active step for another one, the
      auto-follow overrides a clicked selection. */
  lemma AutoFollowOverridesSelection(items: seq<TraceItem>, s: ViewerState, item: TraceItem, i: int, t: real)
    requires NonOverlapping(items)
    requires 0 <= i < |items| && Covers(items[i], t) && s.activeItemIndex != Some(i)
    ensures TimeUpdate(items, Select(s, item), t).selectedItem == Some(items[i])
    ensures TimeUpdate(items, Select(s, item), t).activeItemIndex == Some(i)
  {
    FindActiveSelectsCoveringStep(items, i, t);
  }

  // ---------------------------------------------------------------------------
  // Concrete steps: three contiguous 20-second steps

  function Step(ts: string, start: real, end: real): TraceItem {
    TraceItem(ts, "public/screenshots/image.png", "", "", "public/videos/test.mp4", TimeRange(start, end), None)
  }

  function Sample(): seq<TraceItem> {
    [Step("2024-03-20T10:00:00Z", 0.0, 20.0),
     Step("2024-03-20T10:02:30Z", 20.0, 40.0),
     Step("2024-03-20T10:05:15Z", 40.0, 60.0)]
  }

  /** Boundaries belong to the later step; the end of the last step and
      negative times select nothing. */
  lemma SampleBoundaries()
    ensures FindActive(Sample(), 0.0) == 0
    ensures FindActive(Sample(), 19.5) == 0
    ensures FindActive(Sample(), 20.0) == 1
    ensures FindActive(Sample(), 40.0) == 2
    ensures FindActive(Sample(), 60.0) == -1
    ensures FindActive(Sample(), -1.0) == -1
  {
    assert Covers(Sample()[0], 0.0) && Covers(Sample()[0], 19.5);
    assert !Covers(Sample()[0], 20.0) && Covers(Sample()[1], 20.0);
    assert !Covers(Sample()[0], 40.0) && !Covers(Sample()[1], 40.0) && Covers(Sample()[2], 40.0);
  }

  /** On overlapping steps the first one wins. */
  lemma OverlapFirstWins()
    ensures FindActive([Step("a", 0.0, 30.0), Step("b", 10.0, 40.0)], 15.0) == 0
  {
    assert Covers(Step("a", 0.0, 30.0), 15.0);
  }

  /** A seek into the third step leaves the first step active until the
      next time update. */
  lemma SeekDoesNotResync()
    ensures Seeked(InitialState(Sample()), 45.0).activeItemIndex == Some(0)
    ensures FindActive(Sample(), 45.0) == 2
    ensures TimeUpdate(Sample(), Seeked(InitialState(Sample()), 45.0), 45.0).activeItemIndex == Some(2)
  {
    assert !Covers(Sample()[0], 45.0) && !Covers(Sample()[1], 45.0) && Covers(Sample()[2], 45.0);
  }

  // ---------------------------------------------------------------------------
  // The component

  class TraceViewer {
    const items: seq<TraceItem>
    var selectedItem: Option<TraceItem>
    var currentTime: real
    var isPlaying: bool
    var activeItemIndex: Option<int>

    function State(): ViewerState
      reads this
    {
      ViewerState(selectedItem, currentTime, isPlaying, activeItemIndex)
    }

    ghost predicate Valid()
      reads this
    {
      ViewerInv(items, State())
    }

    constructor (data: TraceData)
      ensures items == data.items && State() == InitialState(data.items) && Valid()
    {
      items := data.items;
      if |data.items| > 0 {
        selectedItem := Some(data.items[0]);
        activeItemIndex := Some(0);
      } else {
        selectedItem := None;
        activeItemIndex := None;
      }
      currentTime := 0.0;
      isPlaying := false;
    }

    method HandleVideoTimeUpdate(time: real)
      modifies this
      ensures State() == TimeUpdate(items, old(State()), time)
      ensures old(Valid()) ==> Valid()
    {
      currentTime := time;
      var k := FindActive(items, time);
      if k != -1 && activeItemIndex != Some(k) {
        activeItemIndex := Some(k);
        selectedItem := Some(items[k]);
      }
    }

    method HandlePlay()
      modifies this
      ensures isPlaying
      ensures selectedItem == old(selectedItem) && currentTime == old(currentTime) && activeItemIndex == old(activeItemIndex)
    {
      isPlaying := true;
    }

    method HandlePause()
      modifies this
      ensures !isPlaying
      ensures selectedItem == old(selectedItem) && currentTime == old(currentTime) && activeItemIndex == old(activeItemIndex)
    {
      isPlaying := false;
    }

    method HandleSeeked(time: real)
      modifies this
      ensures State() == Seeked(old(State()), time)
      ensures old(Valid()) ==> Valid()
    {
      currentTime := time;
    }

    /** `onItemSelect`, wired to `setSelectedItem`. */
    method OnItemSelect(item: TraceItem)
      modifies this
      ensures State() == Select(old(State()), item)
      ensures old(Valid()) ==> Valid()
    {
      selectedItem := Some(item);
    }

    /** A click on timeline row i selects that row's item. */
    method ClickRow(i: int)
      requires 0 <= i < |items|
      modifies this
      ensures State() == Select(old(State()), items[i])
      ensures old(Valid()) ==> Valid()
    {
      OnItemSelect(items[i]);
    }
  }
}
