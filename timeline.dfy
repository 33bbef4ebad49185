/** The timeline list of one viewer: how each row is highlighted, when a row
    shows the image fallback, and the scroll offset that centres the active
    row. */
module Timeline {
  import opened TraceTypes

  // ---------------------------------------------------------------------------
  // Row highlight

  datatype Highlight = Active | Selected | Plain

  /** Row `index` is Active when it is the active step; otherwise Selected
      when the selected item has the row's timestamp; otherwise Plain. */
  function RowHighlight(index: int, activeItemIndex: Option<int>, selectedItem: Option<TraceItem>, item: TraceItem): (h: Highlight)
    ensures h == Active <==> activeItemIndex == Some(index)
    ensures h == Selected <==> activeItemIndex != Some(index) && selectedItem.Some? && selectedItem.value.timestamp == item.timestamp
  {
    if activeItemIndex == Some(index) then Active
    else if selectedItem.Some? && selectedItem.value.timestamp == item.timestamp then Selected
    else Plain
  }

  /** The highlight of every row: at most one row is Active, and one is
      exactly when the active index names a row. */
  function RowHighlights(items: seq<TraceItem>, activeItemIndex: Option<int>, selectedItem: Option<TraceItem>): (hs: seq<Highlight>)
    ensures |hs| == |items|
    ensures forall i :: 0 <= i < |items| ==> hs[i] == RowHighlight(i, activeItemIndex, selectedItem, items[i])
    ensures forall i, j :: 0 <= i < j < |hs| && hs[i] == Active ==> hs[j] != Active
    ensures (exists i :: 0 <= i < |hs| && hs[i] == Active) <==>
      activeItemIndex.Some? && 0 <= activeItemIndex.value < |items|
  {
    var hs := seq(|items|, i requires 0 <= i < |items| => RowHighlight(i, activeItemIndex, selectedItem, items[i]));
    assert activeItemIndex.Some? && 0 <= activeItemIndex.value < |items| ==> hs[activeItemIndex.value] == Active;
    hs
  }

  // ---------------------------------------------------------------------------
  // Image errors

  /** `imageError[ts]` is truthy. A key never set reads as `undefined`; this
      holds for names not inherited from `Object.prototype`, which are the
      only timestamps modelled. */
  predicate HasError(imageError: map<string, bool>, ts: string) {
    ts in imageError && imageError[ts]
  }

  /** `handleImageError(ts)`: the flag of `ts` is set; every other key keeps its value. */
  function MarkImageError(imageError: map<string, bool>, ts: string): (m: map<string, bool>)
    ensures m.Keys == imageError.Keys + {ts}
    ensures HasError(m, ts)
    ensures forall k :: k in imageError && k != ts ==> m[k] == imageError[k]
  {
    imageError[ts := true]
  }

  /** Marking the same timestamp twice is marking it once. */
  lemma MarkImageErrorIdempotent(imageError: map<string, bool>, ts: string)
    ensures MarkImageError(MarkImageError(imageError, ts), ts) == MarkImageError(imageError, ts)
  {
  }

  /** The fallback a row shows in place of its screenshot: present exactly
      when its timestamp is flagged, and it names the screenshot path. */
  function Fallback(imageError: map<string, bool>, item: TraceItem): (r: Option<string>)
    ensures r.Some? <==> HasError(imageError, item.timestamp)
    ensures r.Some? ==> r.value == item.screenshot
  {
    if HasError(imageError, item.timestamp) then Some(item.screenshot) else None
  }

  /** After a load failure of `ts`, every row with that timestamp shows the
      fallback and every other row is as before. */
  lemma FailedRowShowsFallback(imageError: map<string, bool>, ts: string, item: TraceItem)
    ensures item.timestamp == ts ==> Fallback(MarkImageError(imageError, ts), item) == Some(item.screenshot)
    ensures item.timestamp != ts ==> Fallback(MarkImageError(imageError, ts), item) == Fallback(imageError, item)
  {
  }

  // ---------------------------------------------------------------------------
  // Scroll to the active row

  /** The measured box of a rendered row. */
  datatype RowBox = RowBox(offsetTop: real, offsetHeight: real)

  /** A scroll is issued only for a defined, in-range active index whose
      row element and the scroll container both exist. `rows` holds the
      row elements registered so far (absent past its end). */
  predicate ScrollGuard(activeItemIndex: Option<int>, itemCount: nat, rows: seq<Option<RowBox>>, containerHeight: Option<real>) {
    && activeItemIndex.Some?
    && 0 <= activeItemIndex.value < itemCount
    && activeItemIndex.value < |rows|
    && rows[activeItemIndex.value].Some?
    && containerHeight.Some?
  }

  /** The scroll offset that puts the active row's centre at the
      container's centre, when a scroll is issued. */
  function ScrollTarget(activeItemIndex: Option<int>, itemCount: nat, rows: seq<Option<RowBox>>, containerHeight: Option<real>): (r: Option<real>)
    ensures r.Some? <==> ScrollGuard(activeItemIndex, itemCount, rows, containerHeight)
    ensures r.Some? ==>
      var row := rows[activeItemIndex.value].value;
      r.value + containerHeight.value / 2.0 == row.offsetTop + row.offsetHeight / 2.0
  {
    if ScrollGuard(activeItemIndex, itemCount, rows, containerHeight) then
      var row := rows[activeItemIndex.value].value;
      Some(row.offsetTop - containerHeight.value / 2.0 + row.offsetHeight / 2.0)
    else None
  }

  /** A row that fits in the container is fully visible at the target:
      the target lies in [top + height - containerHeight, top]. */
  lemma ScrollTargetShowsRow(activeItemIndex: Option<int>, itemCount: nat, rows: seq<Option<RowBox>>, containerHeight: Option<real>)
    requires ScrollGuard(activeItemIndex, itemCount, rows, containerHeight)
    requires 0.0 <= rows[activeItemIndex.value].value.offsetHeight <= containerHeight.value
    ensures var row := rows[activeItemIndex.value].value;
            var top := ScrollTarget(activeItemIndex, itemCount, rows, containerHeight).value;
            top <= row.offsetTop && row.offsetTop + row.offsetHeight <= top + containerHeight.value
  {
  }

  // ---------------------------------------------------------------------------
  // The component

  class TimelineView {
    var imageError: map<string, bool>
    /** The scroll offsets sent to the container, oldest first. */
    var scrollRequests: seq<real>

    constructor ()
      ensures imageError == map[] && scrollRequests == []
    {
      imageError := map[];
      scrollRequests := [];
    }

    method HandleImageError(timestamp: string)
      modifies this
      ensures imageError == MarkImageError(old(imageError), timestamp)
      ensures scrollRequests == old(scrollRequests)
    {
      imageError := imageError[timestamp := true];
    }

    /** The effect run when the active index or the item count changes. */
    method ScrollToActive(activeItemIndex: Option<int>, itemCount: nat, rows: seq<Option<RowBox>>, containerHeight: Option<real>)
      modifies this
      ensures var target := ScrollTarget(activeItemIndex, itemCount, rows, containerHeight);
              scrollRequests == old(scrollRequests) + (if target.Some? then [target.value] else [])
      ensures imageError == old(imageError)
    {
      if ScrollGuard(activeItemIndex, itemCount, rows, containerHeight) {
        var row := rows[activeItemIndex.value].value;
        var scrollTop := row.offsetTop - containerHeight.value / 2.0 + row.offsetHeight / 2.0;
        scrollRequests := scrollRequests + [scrollTop];
      }
    }
  }
}
