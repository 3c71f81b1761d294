/** The conversion functions of `paws_tools/slp_to_csv.py`: the y-axis flip,
    the pixel-to-physical calibration and the extraction of one node's
    positions into table rows. The first two change the label set in place;
    the third only reads it. */
module SlpToCsv {
  import opened Wrappers
  import opened SleapLabels
  import opened NanMedian

  /** The exceptions the Python code raises, as values. */
  datatype LabelsError =
    | NodeNotFound(name: string)          // the skeleton has no node of that name
    | NoPredictedInstance(position: nat)  // `predicted_instances[0]` of that labelled frame

  /** One record of the DataFrame built by `node_positions_to_dataframe`. */
  datatype Row = Row(video: string, frameIdx: nat, x: Coord, y: Coord)

  /** `h - c`, where NaN stays NaN. */
  function Minus(h: real, c: Coord): Coord {
    if c.Some? then Some(h - c.value) else None
  }

  /** `c * f`, where a NaN operand gives NaN. */
  function Product(c: Coord, f: Coord): Coord {
    if c.Some? && f.Some? then Some(c.value * f.value) else None
  }

  /** The update applied to every point of a predicted instance. */
  datatype PointOp =
    | FlipY(height: real)   // y := height - y
    | ScaleBy(factor: Coord) // x := x * factor; y := y * factor

  function ApplyToPoint(op: PointOp, p: Point): Point {
    match op
    case FlipY(h) => Point(p.x, Minus(h, p.y))
    case ScaleBy(f) => Point(Product(p.x, f), Product(p.y, f))
  }

  /** Predicted instances get `op` on every point; user instances are left
      alone, as `frame.predicted_instances` skips them. */
  function ApplyToInstance(op: PointOp, inst: Instance): Instance {
    if inst.predicted then
      inst.(points := seq(|inst.points|, k requires 0 <= k < |inst.points| => ApplyToPoint(op, inst.points[k])))
    else inst
  }

  function ApplyToFrame(op: PointOp, frame: LabeledFrame): LabeledFrame {
    frame.(instances := seq(|frame.instances|, j requires 0 <= j < |frame.instances| =>
                              ApplyToInstance(op, frame.instances[j])))
  }

  /** The frames after `invert_y_axis(labels, height)`. */
  function InvertedFrames(height: real, frames: seq<LabeledFrame>): seq<LabeledFrame> {
    seq(|frames|, i requires 0 <= i < |frames| => ApplyToFrame(FlipY(height), frames[i]))
  }

  /** The frames after the scaling loop of `convert_physical_units`: each
      frame is scaled by the factor of its own video. */
  function ScaledFrames(factors: map<string, Coord>, frames: seq<LabeledFrame>): seq<LabeledFrame>
    requires forall i :: 0 <= i < |frames| ==> frames[i].video in factors
  {
    seq(|frames|, i requires 0 <= i < |frames| => ApplyToFrame(ScaleBy(factors[frames[i].video]), frames[i]))
  }

  /** Two frame sequences with the same videos, frame indices, instance
      kinds and numbers of points. */
  ghost predicate SameShape(a: seq<LabeledFrame>, b: seq<LabeledFrame>) {
    |a| == |b| &&
    forall i :: 0 <= i < |a| ==>
      a[i].video == b[i].video && a[i].frameIdx == b[i].frameIdx &&
      |a[i].instances| == |b[i].instances| &&
      forall j :: 0 <= j < |a[i].instances| ==>
        a[i].instances[j].predicted == b[i].instances[j].predicted &&
        |a[i].instances[j].points| == |b[i].instances[j].points|
  }

  lemma {:induction false} SameShapeKeepsWellFormed(skeleton: seq<string>, videos: seq<string>,
                                                    a: seq<LabeledFrame>, b: seq<LabeledFrame>)
    requires WellFormed(skeleton, videos, a) && SameShape(a, b)
    ensures WellFormed(skeleton, videos, b)
  {
    forall i, j | 0 <= i < |b| && 0 <= j < |b[i].instances|
      ensures |b[i].instances[j].points| == |skeleton|
    {
      assert |a[i].instances[j].points| == |skeleton|;
    }
  }

  // ---------------------------------------------------------------------
  // Calibration

  /** The y of node `k` in the first predicted instance of `frame`: the
      entry of `labels.numpy(video)[:, 0, k, 1]` for that frame (NaN when
      the frame has no predicted instance). */
  function CalibrationY(frame: LabeledFrame, k: nat): Coord {
    match FirstPredicted(frame.instances)
    case None => None
    case Some(j) =>
      var points := frame.instances[j].points;
      if k < |points| then points[k].y else None
  }

  /** The column of node `k`'s y-coordinates over the frames of `video`. */
  function Column(frames: seq<LabeledFrame>, video: string, k: nat): (col: seq<Coord>)
    ensures |col| <= |frames|
  {
    if frames == [] then []
    else (if frames[0].video == video then [CalibrationY(frames[0], k)] else []) + Column(frames[1..], video, k)
  }

  function Abs(r: real): real {
    if r < 0.0 then -r else r
  }

  /** `true_dist / abs(np.diff(box_median))`: the factor that turns the
      pixel distance between the two calibration medians into `trueDist`.
      NaN (`None`) when either median is NaN. */
  function ConversionFactor(trueDist: real, top: Coord, bot: Coord): (f: Coord)
    requires top.Some? && bot.Some? ==> top.value != bot.value
    ensures f.Some? <==> top.Some? && bot.Some?
  {
    if top.Some? && bot.Some? then Some(trueDist / Abs(bot.value - top.value)) else None
  }

  /** The factor turns the pixel distance between the two medians into
      `trueDist`, and it is positive when `trueDist` is. */
  lemma FactorTimesDistance(trueDist: real, top: Coord, bot: Coord)
    requires top.Some? && bot.Some? && top.value != bot.value
    ensures ConversionFactor(trueDist, top, bot).value * Abs(bot.value - top.value) == trueDist
    ensures trueDist > 0.0 ==> ConversionFactor(trueDist, top, bot).value > 0.0
  {
  }

  /** The two medians of `video` differ whenever both exist: the Python code
      divides by their distance without a guard. */
  predicate Calibratable(frames: seq<LabeledFrame>, video: string, top: nat, bot: nat) {
    var mt := NanMedianOf(Column(frames, video, top));
    var mb := NanMedianOf(Column(frames, video, bot));
    mt.Some? && mb.Some? ==> mt.value != mb.value
  }

  /** `conv_factors[video.filename]`. */
  function VideoFactor(frames: seq<LabeledFrame>, video: string, top: nat, bot: nat, trueDist: real): Coord
    requires Calibratable(frames, video, top, bot)
  {
    ConversionFactor(trueDist, NanMedianOf(Column(frames, video, top)), NanMedianOf(Column(frames, video, bot)))
  }

  /** The whole `conv_factors` dictionary. */
  function Factors(frames: seq<LabeledFrame>, videos: seq<string>, top: nat, bot: nat, trueDist: real): map<string, Coord>
    requires forall v {:trigger Calibratable(frames, v, top, bot)} :: v in videos ==> Calibratable(frames, v, top, bot)
  {
    map v | v in videos :: VideoFactor(frames, v, top, bot, trueDist)
  }

  /** What `convert_physical_units` needs of its inputs: when both node names
      resolve, no video has two equal calibration medians. */
  ghost predicate CalibrationDefined(skeleton: seq<string>, videos: seq<string>, frames: seq<LabeledFrame>,
                                     topNode: string, botNode: string) {
    topNode in skeleton && botNode in skeleton ==>
      forall v :: v in videos ==>
        Calibratable(frames, v, NodeIndex(skeleton, topNode).value, NodeIndex(skeleton, botNode).value)
  }

  // ---------------------------------------------------------------------
  // The loops

  /** `for key, val in instance.points.items(): instance.points[key] = op(val)` */
  method ApplyToPoints(op: PointOp, points: seq<Point>) returns (r: seq<Point>)
    ensures |r| == |points|
    ensures forall k :: 0 <= k < |points| ==> r[k] == ApplyToPoint(op, points[k])
  {
    r := points;
    var k := 0;
    while k < |r|
      invariant 0 <= k <= |r| == |points|
      invariant forall m :: 0 <= m < k ==> r[m] == ApplyToPoint(op, points[m])
      invariant forall m :: k <= m < |r| ==> r[m] == points[m]
    {
      r := r[k := ApplyToPoint(op, r[k])];
      k := k + 1;
    }
  }

  /** `for instance in frame.predicted_instances: ...` over one frame. */
  method ApplyToInstances(op: PointOp, instances: seq<Instance>) returns (r: seq<Instance>)
    ensures |r| == |instances|
    ensures forall j :: 0 <= j < |instances| ==> r[j] == ApplyToInstance(op, instances[j])
  {
    r := instances;
    var j := 0;
    while j < |r|
      invariant 0 <= j <= |r| == |instances|
      invariant forall m :: 0 <= m < j ==> r[m] == ApplyToInstance(op, instances[m])
      invariant forall m :: j <= m < |r| ==> r[m] == instances[m]
    {
      if r[j].predicted {
        var points := ApplyToPoints(op, r[j].points);
        r := r[j := r[j].(points := points)];
      }
      j := j + 1;
    }
  }

  /** `invert_y_axis`: every point of every predicted instance gets
      `y := frameHeight - y`, in place. */
  method InvertYAxis(labels: Labels, frameHeight: int)
    requires labels.Valid()
    modifies labels
    ensures labels.Valid()
    ensures labels.skeleton == old(labels.skeleton) && labels.videos == old(labels.videos)
    ensures labels.frames == InvertedFrames(frameHeight as real, old(labels.frames))
  {
    var op := FlipY(frameHeight as real);
    var i := 0;
    while i < |labels.frames|
      invariant 0 <= i <= |labels.frames| == |old(labels.frames)|
      invariant labels.skeleton == old(labels.skeleton) && labels.videos == old(labels.videos)
      invariant forall m :: 0 <= m < i ==> labels.frames[m] == ApplyToFrame(op, old(labels.frames)[m])
      invariant forall m :: i <= m < |labels.frames| ==> labels.frames[m] == old(labels.frames)[m]
    {
      var frame := labels.frames[i];
      var instances := ApplyToInstances(op, frame.instances);
      labels.frames := labels.frames[i := frame.(instances := instances)];
      i := i + 1;
    }
    assert SameShape(old(labels.frames), labels.frames);
    SameShapeKeepsWellFormed(labels.skeleton, labels.videos, old(labels.frames), labels.frames);
  }

  /** The first loop of `convert_physical_units`: one factor per video,
      computed from the calibration columns before anything is scaled. */
  method ConversionFactors(labels: Labels, top: nat, bot: nat, trueDist: real) returns (factors: map<string, Coord>)
    requires forall v {:trigger Calibratable(labels.frames, v, top, bot)} ::
      v in labels.videos ==> Calibratable(labels.frames, v, top, bot)
    ensures factors == Factors(labels.frames, labels.videos, top, bot, trueDist)
  {
    factors := map[];
    var videos := labels.videos;
    ghost var all := Factors(labels.frames, videos, top, bot, trueDist);
    var n := 0;
    while n < |videos|
      invariant 0 <= n <= |videos|
      invariant StoredPrefix(factors, all, videos, n)
    {
      var video := videos[n];
      var topMedian := NanMedianOf(Column(labels.frames, video, top));
      var botMedian := NanMedianOf(Column(labels.frames, video, bot));
      assert Calibratable(labels.frames, video, top, bot);
      var f := ConversionFactor(trueDist, topMedian, botMedian);
      assert video in all && f == all[video];
      StorePrefix(factors, all, videos, n, f);
      factors := factors[video := f];
      n := n + 1;
    }
    SameMap(factors, all, videos);
  }

  /** After `n` passes of a loop that stores `all[keys[i]]` under `keys[i]`:
      the first `n` keys are stored, and every stored key holds its value in
      `all`. */
  ghost predicate StoredPrefix<K, V>(m: map<K, V>, all: map<K, V>, keys: seq<K>, n: nat) {
    n <= |keys| &&
    (forall j :: 0 <= j < n ==> keys[j] in m) &&
    (forall k :: k in m ==> k in keys && k in all && m[k] == all[k])
  }

  /** One pass of such a loop stores one more key. */
  lemma StorePrefix<K, V>(m: map<K, V>, all: map<K, V>, keys: seq<K>, n: nat, x: V)
    requires StoredPrefix(m, all, keys, n) && n < |keys|
    requires keys[n] in all && x == all[keys[n]]
    ensures StoredPrefix(m[keys[n] := x], all, keys, n + 1)
  {
  }

  /** After the last pass the dictionary is `all`, when `all` has exactly the
      keys. */
  lemma SameMap<K, V>(m: map<K, V>, all: map<K, V>, keys: seq<K>)
    requires forall k :: k in all <==> k in keys
    requires StoredPrefix(m, all, keys, |keys|)
    ensures m == all
  {
    assert m.Keys == all.Keys;
  }

  /** `convert_physical_units`: resolve the two calibration nodes (failing
      before anything changes), compute every video's factor, then multiply
      `x` and `y` of every point of every predicted instance by the factor
      of its frame's video. */
  method ConvertPhysicalUnits(labels: Labels, topNode: string, botNode: string, trueDist: real)
    returns (r: Result<(), LabelsError>)
    requires labels.Valid()
    requires CalibrationDefined(labels.skeleton, labels.videos, labels.frames, topNode, botNode)
    modifies labels
    ensures labels.Valid()
    ensures labels.skeleton == old(labels.skeleton) && labels.videos == old(labels.videos)
    ensures r.Failure? <==> topNode !in labels.skeleton || botNode !in labels.skeleton
    ensures r.Failure? ==>
      r.error == NodeNotFound(if topNode !in labels.skeleton then topNode else botNode) &&
      labels.frames == old(labels.frames)
    ensures r.Success? ==>
      var top, bot := NodeIndex(labels.skeleton, topNode).value, NodeIndex(labels.skeleton, botNode).value;
      labels.frames == ScaledFrames(Factors(old(labels.frames), labels.videos, top, bot, trueDist), old(labels.frames))
  {
    var topIndex := NodeIndex(labels.skeleton, topNode);
    if topIndex.None? {
      return Failure(NodeNotFound(topNode));
    }
    var botIndex := NodeIndex(labels.skeleton, botNode);
    if botIndex.None? {
      return Failure(NodeNotFound(botNode));
    }
    var factors := ConversionFactors(labels, topIndex.value, botIndex.value, trueDist);
    ScaleFrames(labels, factors);
    return Success(());
  }

  /** The second loop of `convert_physical_units`: every point of every
      predicted instance gets `x := x * f` and `y := y * f`, where `f` is
      the factor of the frame's video. */
  method ScaleFrames(labels: Labels, factors: map<string, Coord>)
    requires labels.Valid()
    requires forall v :: v in labels.videos ==> v in factors
    modifies labels
    ensures labels.Valid()
    ensures labels.skeleton == old(labels.skeleton) && labels.videos == old(labels.videos)
    ensures labels.frames == ScaledFrames(factors, old(labels.frames))
  {
    var i := 0;
    while i < |labels.frames|
      invariant 0 <= i <= |labels.frames| == |old(labels.frames)|
      invariant labels.skeleton == old(labels.skeleton) && labels.videos == old(labels.videos)
      invariant forall m :: 0 <= m < i ==>
        labels.frames[m] == ApplyToFrame(ScaleBy(factors[old(labels.frames)[m].video]), old(labels.frames)[m])
      invariant forall m :: i <= m < |labels.frames| ==> labels.frames[m] == old(labels.frames)[m]
    {
      var frame := labels.frames[i];
      var factor := factors[frame.video];
      var instances := ApplyToInstances(ScaleBy(factor), frame.instances);
      labels.frames := labels.frames[i := frame.(instances := instances)];
      i := i + 1;
    }
    assert SameShape(old(labels.frames), labels.frames);
    SameShapeKeepsWellFormed(labels.skeleton, labels.videos, old(labels.frames), labels.frames);
  }

  /** The point of node `k` in the first predicted instance of `frame`. */
  function NodePoint(frame: LabeledFrame, k: nat): Point
    requires FirstPredicted(frame.instances).Some?
    requires k < |frame.instances[FirstPredicted(frame.instances).value].points|
  {
    frame.instances[FirstPredicted(frame.instances).value].points[k]
  }

  /** `node_positions_to_dataframe`: one row per labelled frame, in order,
      with the node's position in the frame's first predicted instance. The
      labels are only read. */
  method NodePositionsToDataframe(labels: Labels, nodeName: string) returns (r: Result<seq<Row>, LabelsError>)
    requires labels.Valid()
    ensures r.Success? <==>
      nodeName in labels.skeleton &&
      forall i :: 0 <= i < |labels.frames| ==> FirstPredicted(labels.frames[i].instances).Some?
    ensures r.Failure? && nodeName !in labels.skeleton ==> r.error == NodeNotFound(nodeName)
    ensures r.Failure? && nodeName in labels.skeleton ==>
      r.error.NoPredictedInstance? && r.error.position < |labels.frames| &&
      FirstPredicted(labels.frames[r.error.position].instances).None? &&
      forall i :: 0 <= i < r.error.position ==> FirstPredicted(labels.frames[i].instances).Some?
    ensures r.Success? ==>
      var k := NodeIndex(labels.skeleton, nodeName).value;
      |r.value| == |labels.frames| &&
      forall i :: 0 <= i < |labels.frames| ==>
        r.value[i].video == labels.frames[i].video &&
        r.value[i].frameIdx == labels.frames[i].frameIdx &&
        r.value[i].x == NodePoint(labels.frames[i], k).x &&
        r.value[i].y == NodePoint(labels.frames[i], k).y
  {
    var node := NodeIndex(labels.skeleton, nodeName);
    if node.None? {
      return Failure(NodeNotFound(nodeName));
    }
    var k := node.value;
    var data: seq<Row> := [];
    var i := 0;
    while i < |labels.frames|
      invariant 0 <= i <= |labels.frames|
      invariant |data| == i
      invariant forall m :: 0 <= m < i ==> FirstPredicted(labels.frames[m].instances).Some?
      invariant forall m :: 0 <= m < i ==>
        data[m].video == labels.frames[m].video &&
        data[m].frameIdx == labels.frames[m].frameIdx &&
        data[m].x == NodePoint(labels.frames[m], k).x &&
        data[m].y == NodePoint(labels.frames[m], k).y
    {
      var frame := labels.frames[i];
      var first := FirstPredicted(frame.instances);
      if first.None? {
        return Failure(NoPredictedInstance(i));
      }
      var point := frame.instances[first.value].points[k];
      data := data + [Row(frame.video, frame.frameIdx, point.x, point.y)];
      i := i + 1;
    }
    return Success(data);
  }
}
