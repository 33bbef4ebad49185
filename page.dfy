/** The landing page's data preparation: every bundled trace has its asset
    paths rewritten under the deployment base path, and the carousel is
    given a fixed list of viewer ids. */
module Page {
  import opened TraceTypes
  import Carousel

  /** `path.startsWith('/')`; false for the empty path. */
  predicate StartsWithSlash(path: string) {
    |path| > 0 && path[0] == '/'
  }

  /** One asset path rewritten under `basePath`: a `/` is inserted exactly
      when the path does not already begin with one. Absolute URLs get no
      special treatment. */
  function FixPath(basePath: string, path: string): (r: string)
    ensures |r| > |basePath| && r[..|basePath|] == basePath && r[|basePath|] == '/'
    ensures |r| >= |path| && r[|r| - |path|..] == path
    ensures r == basePath + path <==> StartsWithSlash(path)
    ensures !StartsWithSlash(path) ==> r == basePath + "/" + path
  {
    basePath + (if StartsWithSlash(path) then "" else "/") + path
  }

  /** "a" and "/a" name the same asset once rewritten. */
  lemma FixPathIgnoresLeadingSlash(basePath: string, path: string)
    requires !StartsWithSlash(path)
    ensures FixPath(basePath, "/" + path) == FixPath(basePath, path)
  {
    assert StartsWithSlash("/" + path);
  }

  /** With the empty base path (the development build) the rewrite is the
      identity on already-rooted paths, hence idempotent. */
  lemma FixPathIdempotentOnEmptyBase(path: string)
    ensures StartsWithSlash(path) ==> FixPath("", path) == path
    ensures FixPath("", FixPath("", path)) == FixPath("", path)
  {
    var once := FixPath("", path);
    assert |once| > 0 && once[0] == '/';
    assert StartsWithSlash(once);
    assert "" + once == once;
    if StartsWithSlash(path) {
      assert "" + path == path;
    }
  }

  /** An `http` URL is not passed through: it is prefixed like any relative path. */
  lemma AbsoluteUrlIsPrefixed()
    ensures FixPath("/prefix", "http://h/a.png") == "/prefix/http://h/a.png"
  {
    var p := "http://h/a.png";
    assert !StartsWithSlash(p);
    assert FixPath("/prefix", p) == "/prefix/" + p;
  }

  /** A relative path gets the separator inserted. */
  lemma RelativePathIsRooted()
    ensures FixPath("/prefix", "screenshots/a.png") == "/prefix/screenshots/a.png"
  {
    var p := "screenshots/a.png";
    assert !StartsWithSlash(p);
    assert FixPath("/prefix", p) == "/prefix/" + p;
  }

  /** A rooted path is appended as it is. */
  lemma RootedPathIsAppended()
    ensures FixPath("/prefix", "/screenshots/a.png") == "/prefix/screenshots/a.png"
  {
    var p := "/screenshots/a.png";
    assert StartsWithSlash(p);
    assert FixPath("/prefix", p) == "/prefix" + p;
  }

  /** One item with its screenshot and video paths rewritten; every other
      field is carried over by the object spread. */
  function FixItem(basePath: string, item: TraceItem): (r: TraceItem)
    ensures r.screenshot == FixPath(basePath, item.screenshot)
    ensures r.video == FixPath(basePath, item.video)
    ensures r.timestamp == item.timestamp && r.thought == item.thought && r.action == item.action
    ensures r.timeRange == item.timeRange && r.agent == item.agent
  {
    item.(screenshot := FixPath(basePath, item.screenshot), video := FixPath(basePath, item.video))
  }

  /** `items.map(item => ...)`: output item i is input item i rewritten. */
  function FixItems(basePath: string, items: seq<TraceItem>): (r: seq<TraceItem>)
    ensures |r| == |items|
    ensures forall i :: 0 <= i < |items| ==> r[i] == FixItem(basePath, items[i])
    decreases |items|
  {
    if items == [] then [] else [FixItem(basePath, items[0])] + FixItems(basePath, items[1..])
  }

  /** The whole trace: the task is kept, the items are rewritten in order. */
  function FixAssetPaths(basePath: string, data: TraceData): (r: TraceData)
    ensures r.task == data.task
    ensures |r.items| == |data.items|
    ensures forall i :: 0 <= i < |data.items| ==> r.items[i] == FixItem(basePath, data.items[i])
  {
    data.(items := FixItems(basePath, data.items))
  }

  lemma FixItemIdempotentOnEmptyBase(item: TraceItem)
    ensures FixItem("", FixItem("", item)) == FixItem("", item)
  {
    FixPathIdempotentOnEmptyBase(item.screenshot);
    FixPathIdempotentOnEmptyBase(item.video);
  }

  /** With the empty base path, rewriting an already rewritten trace changes nothing. */
  lemma {:induction false} FixAssetPathsIdempotentOnEmptyBase(data: TraceData)
    ensures FixAssetPaths("", FixAssetPaths("", data)) == FixAssetPaths("", data)
  {
    var once := FixItems("", data.items);
    var twice := FixItems("", once);
    assert |twice| == |once|;
    forall i | 0 <= i < |once|
      ensures twice[i] == once[i]
    {
      assert once[i] == FixItem("", data.items[i]);
      assert twice[i] == FixItem("", once[i]);
      FixItemIdempotentOnEmptyBase(data.items[i]);
    }
  }

  /** The ids handed to the carousel: one per bundled trace, `viewer1` to
      `viewer7`, pairwise distinct. */
  function TraceIds(): (ids: seq<string>)
    ensures |ids| == 7
    ensures forall k :: 0 <= k < 7 ==> ids[k] == "viewer" + [Carousel.DigitChar(k + 1)]
    ensures Carousel.Distinct(ids)
  {
    var ids := ["viewer1", "viewer2", "viewer3", "viewer4", "viewer5", "viewer6", "viewer7"];
    forall i, j | 0 <= i < j < 7
      ensures ids[i] != ids[j]
    {
      assert ids[i][6] != ids[j][6];
    }
    ids
  }

  /** The bundled traces, each with its paths fixed, in import order. */
  function AllTraceData(basePath: string, raw: seq<TraceData>): (r: seq<TraceData>)
    ensures |r| == |raw|
    ensures forall i :: 0 <= i < |raw| ==> r[i] == FixAssetPaths(basePath, raw[i])
  {
    seq(|raw|, i requires 0 <= i < |raw| => FixAssetPaths(basePath, raw[i]))
  }

  /** With the seven bundled traces the carousel uses the page's ids as
      given (none is generated), and they are distinct keys. */
  lemma PageViewerIdsAreTraceIds(basePath: string, raw: seq<TraceData>)
    requires |raw| == |TraceIds()|
    ensures Carousel.ViewerIds(TraceIds(), |AllTraceData(basePath, raw)|) == TraceIds()
    ensures Carousel.Distinct(Carousel.ViewerIds(TraceIds(), |AllTraceData(basePath, raw)|))
  {
    Carousel.ViewerIdsDistinct(TraceIds(), |raw|);
  }
}
