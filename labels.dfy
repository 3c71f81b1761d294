/** The part of `sleap_io.Labels` that the conversion code reads and writes:
    a skeleton of node names, the videos (identified by file name), and the
    labelled frames, each holding user and predicted instances. */
module SleapLabels {
  import opened Wrappers

  /** A coordinate; `None` stands for NaN, numpy's missing value. */
  type Coord = Option<real>

  datatype Point = Point(x: Coord, y: Coord)

  /** An instance maps every skeleton node to a point: `points[k]` is the
      point of node `k`. A node that was not located has NaN coordinates.
      `predicted` separates a `PredictedInstance` from a user-labelled
      `Instance`. */
  datatype Instance = Instance(predicted: bool, points: seq<Point>)

  datatype LabeledFrame = LabeledFrame(video: string, frameIdx: nat, instances: seq<Instance>)

  /** What the callers of the conversion code may rely on about a label set:
      node names are unique, every frame belongs to one of the videos, and
      every instance has one point per node. */
  ghost predicate WellFormed(skeleton: seq<string>, videos: seq<string>, frames: seq<LabeledFrame>) {
    (forall i, j :: 0 <= i < j < |skeleton| ==> skeleton[i] != skeleton[j]) &&
    (forall i :: 0 <= i < |frames| ==> frames[i].video in videos) &&
    (forall i, j :: 0 <= i < |frames| && 0 <= j < |frames[i].instances| ==>
       |frames[i].instances[j].points| == |skeleton|)
  }

  class Labels {
    var skeleton: seq<string>
    var videos: seq<string>
    var frames: seq<LabeledFrame>

    ghost predicate Valid()
      reads this
    {
      WellFormed(skeleton, videos, frames)
    }

    constructor (skeleton: seq<string>, videos: seq<string>, frames: seq<LabeledFrame>)
      requires WellFormed(skeleton, videos, frames)
      ensures Valid()
      ensures this.skeleton == skeleton && this.videos == videos && this.frames == frames
    {
      this.skeleton := skeleton;
      this.videos := videos;
      this.frames := frames;
    }
  }

  /** `skeleton.index(name)`: the position of the first node called `name`,
      or `None` where Python raises. */
  function NodeIndex(skeleton: seq<string>, name: string): (r: Option<nat>)
    ensures r.None? <==> name !in skeleton
    ensures r.Some? ==> r.value < |skeleton| && skeleton[r.value] == name
    ensures r.Some? ==> forall i :: 0 <= i < r.value ==> skeleton[i] != name
  {
    if skeleton == [] then None
    else if skeleton[0] == name then Some(0)
    else
      match NodeIndex(skeleton[1..], name)
      case None => None
      case Some(i) => Some(i + 1)
  }

  /** The position of `frame.predicted_instances[0]` among the frame's
      instances, or `None` when the frame has no predicted instance. */
  function FirstPredicted(instances: seq<Instance>): (r: Option<nat>)
    ensures r.None? <==> forall j :: 0 <= j < |instances| ==> !instances[j].predicted
    ensures r.Some? ==> r.value < |instances| && instances[r.value].predicted
    ensures r.Some? ==> forall j :: 0 <= j < r.value ==> !instances[j].predicted
  {
    if instances == [] then None
    else if instances[0].predicted then Some(0)
    else
      match FirstPredicted(instances[1..])
      case None => None
      case Some(j) => Some(j + 1)
  }
}
