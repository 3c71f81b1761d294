/** What the conversion functions promise, stated over the frame sequences
    they produce. */
module SlpToCsvProperties {
  import opened Wrappers
  import opened SleapLabels
  import opened NanMedian
  import opened SlpToCsv

  // ---------------------------------------------------------------------
  // invert_y_axis

  /** Each point after `invert_y_axis`: `x` is kept, `y` becomes
      `height - y` in predicted instances, user instances are untouched, and
      no frame, instance or point is added or removed. */
  lemma InvertedPoint(height: real, frames: seq<LabeledFrame>, i: nat, j: nat, k: nat)
    requires i < |frames| && j < |frames[i].instances| && k < |frames[i].instances[j].points|
    ensures SameShape(frames, InvertedFrames(height, frames))
    ensures var before := frames[i].instances[j];
            var after := InvertedFrames(height, frames)[i].instances[j];
            after.points[k].x == before.points[k].x &&
            after.points[k].y == (if before.predicted then Minus(height, before.points[k].y) else before.points[k].y)
  {
  }

  lemma InstanceFlippedTwice(height: real, inst: Instance)
    ensures ApplyToInstance(FlipY(height), ApplyToInstance(FlipY(height), inst)) == inst
  {
    if inst.predicted {
      var twice := ApplyToInstance(FlipY(height), ApplyToInstance(FlipY(height), inst));
      assert |twice.points| == |inst.points|;
      forall k | 0 <= k < |inst.points| ensures twice.points[k] == inst.points[k] {
        var p := inst.points[k];
        assert Minus(height, Minus(height, p.y)) == p.y;
      }
    }
  }

  lemma FrameFlippedTwice(height: real, frame: LabeledFrame)
    ensures ApplyToFrame(FlipY(height), ApplyToFrame(FlipY(height), frame)) == frame
  {
    var twice := ApplyToFrame(FlipY(height), ApplyToFrame(FlipY(height), frame));
    forall j | 0 <= j < |frame.instances| ensures twice.instances[j] == frame.instances[j] {
      InstanceFlippedTwice(height, frame.instances[j]);
    }
    assert twice.instances == frame.instances;
  }

  /** Inverting twice with the same height gives back every coordinate: the
      flip swaps the origin between top-left and bottom-left in either
      direction. */
  lemma {:induction false} InvertTwiceRestores(height: real, frames: seq<LabeledFrame>)
    ensures InvertedFrames(height, InvertedFrames(height, frames)) == frames
  {
    var twice := InvertedFrames(height, InvertedFrames(height, frames));
    forall i | 0 <= i < |frames| ensures twice[i] == frames[i] {
      FrameFlippedTwice(height, frames[i]);
    }
  }

  // ---------------------------------------------------------------------
  // convert_physical_units: the scaling

  /** Each point after the scaling loop: in a predicted instance both `x` and
      `y` are multiplied by the factor of the frame's video (so every frame of
      one video shares one factor); user instances are untouched. */
  lemma ScaledPoint(factors: map<string, Coord>, frames: seq<LabeledFrame>, i: nat, j: nat, k: nat)
    requires forall m :: 0 <= m < |frames| ==> frames[m].video in factors
    requires i < |frames| && j < |frames[i].instances| && k < |frames[i].instances[j].points|
    ensures SameShape(frames, ScaledFrames(factors, frames))
    ensures var before := frames[i].instances[j];
            var after := ScaledFrames(factors, frames)[i].instances[j];
            var f := factors[frames[i].video];
            after.points[k] ==
              if before.predicted then Point(Product(before.points[k].x, f), Product(before.points[k].y, f))
              else before.points[k]
  {
  }

  // ---------------------------------------------------------------------
  // convert_physical_units: the factors

  /** A calibration column with every entry multiplied by `f`. */
  function ScaleColumn(f: Coord, col: seq<Coord>): seq<Coord> {
    if col == [] then [] else [Product(col[0], f)] + ScaleColumn(f, col[1..])
  }

  lemma ScaleColumnCons(f: Coord, c: Coord, rest: seq<Coord>)
    ensures ScaleColumn(f, [c] + rest) == [Product(c, f)] + ScaleColumn(f, rest)
  {
    assert ([c] + rest)[1..] == rest;
  }


  lemma {:induction false} FirstPredictedKept(op: PointOp, frame: LabeledFrame)
    ensures FirstPredicted(ApplyToFrame(op, frame).instances) == FirstPredicted(frame.instances)
  {
    var before := frame.instances;
    var after := ApplyToFrame(op, frame).instances;
    assert forall j :: 0 <= j < |after| ==> after[j].predicted == before[j].predicted;
  }

  lemma {:induction false} CalibrationYScaled(f: Coord, frame: LabeledFrame, k: nat)
    ensures CalibrationY(ApplyToFrame(ScaleBy(f), frame), k) == Product(CalibrationY(frame, k), f)
  {
    FirstPredictedKept(ScaleBy(f), frame);
  }

  /** The calibration column of a scaled video is its old column scaled by
      that video's factor. */
  lemma {:induction false} ColumnOfScaled(factors: map<string, Coord>, frames: seq<LabeledFrame>, video: string, k: nat)
    requires forall i :: 0 <= i < |frames| ==> frames[i].video in factors
    requires video in factors
    ensures Column(ScaledFrames(factors, frames), video, k) == ScaleColumn(factors[video], Column(frames, video, k))
  {
    var scaled := ScaledFrames(factors, frames);
    if frames != [] {
      assert scaled[1..] == ScaledFrames(factors, frames[1..]);
      ColumnOfScaled(factors, frames[1..], video, k);
      if frames[0].video == video {
        CalibrationYScaled(factors[video], frames[0], k);
        var rest := Column(frames[1..], video, k);
        assert Column(frames, video, k) == [CalibrationY(frames[0], k)] + rest;
        ScaleColumnCons(factors[video], CalibrationY(frames[0], k), rest);
      } else {
        assert Column(frames, video, k) == Column(frames[1..], video, k);
      }
    }
  }

  lemma PresentCons(col: seq<Coord>)
    requires col != []
    ensures Present(col) == (if col[0].Some? then [col[0].value] else []) + Present(col[1..])
  {
  }

  /** A column with `g` applied to every present value. */
  function MapPresent(g: real -> real, col: seq<Coord>): seq<Coord> {
    seq(|col|, i requires 0 <= i < |col| => if col[i].Some? then Some(g(col[i].value)) else None)
  }

  lemma {:induction false} PresentMapped(g: real -> real, col: seq<Coord>)
    ensures Present(MapPresent(g, col)) == Apply(g, Present(col))
  {
    var mapped := MapPresent(g, col);
    if col == [] {
      assert Apply(g, []) == [];
    } else {
      assert mapped[1..] == MapPresent(g, col[1..]);
      PresentCons(col);
      PresentCons(mapped);
      PresentMapped(g, col[1..]);
      if col[0].Some? {
        ApplyCons(g, col[0].value, Present(col[1..]));
      }
    }
  }

  lemma ProductIsMapped(c: Coord, f: real)
    ensures Product(c, Some(f)) == if c.Some? then Some(Times(f)(c.value)) else None
  {
    if c.Some? {
      assert Times(f)(c.value) == c.value * f;
      var p := Product(c, Some(f));
      assert p.Some? && p.value == c.value * f;
    }
  }

  lemma {:induction false} ScaleColumnIsMap(f: real, col: seq<Coord>)
    ensures ScaleColumn(Some(f), col) == MapPresent(Times(f), col)
  {
    if col != [] {
      ScaleColumnIsMap(f, col[1..]);
      ProductIsMapped(col[0], f);
      var mapped := MapPresent(Times(f), col);
      assert mapped == [mapped[0]] + mapped[1..];
      assert mapped[1..] == MapPresent(Times(f), col[1..]);
    }
  }

  lemma NanMedianTimes(c: real, col: seq<Coord>)
    requires c > 0.0
    ensures var m := NanMedianOf(col);
            NanMedianOf(MapPresent(Times(c), col)) == if m.Some? then Some(Times(c)(m.value)) else None
  {
    var vs := Present(col);
    PresentMapped(Times(c), col);
    if vs != [] {
      MedianScaled(c, vs);
    } else {
      assert Apply(Times(c), vs) == [];
    }
  }

  /** A NaN factor leaves nothing present. */
  lemma {:induction false} PresentNaNScaled(col: seq<Coord>)
    ensures Present(ScaleColumn(None, col)) == []
  {
    if col != [] {
      var scaled := ScaleColumn(None, col);
      assert scaled[1..] == ScaleColumn(None, col[1..]);
      PresentCons(scaled);
      assert scaled[0].None?;
      PresentNaNScaled(col[1..]);
    }
  }

  /** `np.nanmedian` of a column scaled by a positive factor is the old
      median scaled by it; scaled by NaN, it is NaN. */
  lemma NanMedianScaled(f: Coord, col: seq<Coord>)
    requires f.Some? ==> f.value > 0.0
    ensures NanMedianOf(ScaleColumn(f, col)) == Product(NanMedianOf(col), f)
  {
    if f.Some? {
      ScaleColumnIsMap(f.value, col);
      NanMedianTimes(f.value, col);
      ProductIsMapped(NanMedianOf(col), f.value);
    } else {
      PresentNaNScaled(col);
    }
  }

  /** Scaling two calibration medians by the conversion factor computed
      from them puts them exactly `trueDist` apart; with either median NaN,
      both scaled medians are NaN. */
  lemma FactorSetsDistance(trueDist: real, t: Coord, b: Coord)
    requires trueDist > 0.0
    requires t.Some? && b.Some? ==> t.value != b.value
    ensures var f := ConversionFactor(trueDist, t, b);
            var mt, mb := Product(t, f), Product(b, f);
            (mt.Some? && mb.Some? <==> t.Some? && b.Some?) &&
            (t.None? || b.None? ==> mt.None? && mb.None?) &&
            (mt.Some? && mb.Some? ==> Abs(mb.value - mt.value) == trueDist)
  {
    var f := ConversionFactor(trueDist, t, b);
    if f.Some? {
      FactorTimesDistance(trueDist, t, b);
      assert Product(b, f).value - Product(t, f).value == (b.value - t.value) * f.value;
    }
  }

  /** What the conversion does to the calibration medians of one video: each
      becomes the old median times the video's factor, and that factor is
      the one computed from the old medians. With `FactorSetsDistance`, the
      new medians are `trueDist` apart whenever both exist. */
  lemma CalibratedMedians(frames: seq<LabeledFrame>, videos: seq<string>, video: string,
                          top: nat, bot: nat, trueDist: real)
    requires forall i :: 0 <= i < |frames| ==> frames[i].video in videos
    requires forall v :: v in videos ==> Calibratable(frames, v, top, bot)
    requires video in videos && trueDist > 0.0
    ensures var factors := Factors(frames, videos, top, bot, trueDist);
            var after := ScaledFrames(factors, frames);
            var t, b := NanMedianOf(Column(frames, video, top)), NanMedianOf(Column(frames, video, bot));
            factors[video] == ConversionFactor(trueDist, t, b) &&
            NanMedianOf(Column(after, video, top)) == Product(t, factors[video]) &&
            NanMedianOf(Column(after, video, bot)) == Product(b, factors[video])
  {
    var factors := Factors(frames, videos, top, bot, trueDist);
    var colT, colB := Column(frames, video, top), Column(frames, video, bot);
    assert Calibratable(frames, video, top, bot);
    assert factors[video] == ConversionFactor(trueDist, NanMedianOf(colT), NanMedianOf(colB));
    if factors[video].Some? {
      FactorTimesDistance(trueDist, NanMedianOf(colT), NanMedianOf(colB));
    }
    ColumnOfScaled(factors, frames, video, top);
    ColumnOfScaled(factors, frames, video, bot);
    NanMedianScaled(factors[video], colT);
    NanMedianScaled(factors[video], colB);
  }

  /** Frames of other videos never enter a video's calibration column. */
  lemma {:induction false} ColumnSeesOnlyItsVideo(a: seq<LabeledFrame>, b: seq<LabeledFrame>, video: string, k: nat)
    requires |a| == |b|
    requires forall i :: 0 <= i < |a| && (a[i].video == video || b[i].video == video) ==> a[i] == b[i]
    ensures Column(a, video, k) == Column(b, video, k)
  {
    if a != [] {
      ColumnSeesOnlyItsVideo(a[1..], b[1..], video, k);
    }
  }

  /** Factors are independent per video: changing the frames of other videos
      (their coordinates, or even which video they belong to) leaves this
      video's factor as it was. */
  lemma FactorIndependentOfOtherVideos(a: seq<LabeledFrame>, b: seq<LabeledFrame>, video: string,
                                       top: nat, bot: nat, trueDist: real)
    requires |a| == |b|
    requires forall i :: 0 <= i < |a| && (a[i].video == video || b[i].video == video) ==> a[i] == b[i]
    requires Calibratable(a, video, top, bot)
    ensures Calibratable(b, video, top, bot)
    ensures VideoFactor(a, video, top, bot, trueDist) == VideoFactor(b, video, top, bot, trueDist)
  {
    ColumnSeesOnlyItsVideo(a, b, video, top);
    ColumnSeesOnlyItsVideo(a, b, video, bot);
  }

  lemma SingleValueMedian(x: real)
    ensures NanMedianOf([Some(x)]) == Some(x)
  {
    assert [Some(x)][1..] == [];
    assert Present([Some(x)]) == [x];
    assert Sort([x]) == [x] by {
      assert [x][1..] == [];
    }
  }

  lemma ExampleFactor()
    ensures ConversionFactor(50.0, Some(100.0), Some(300.0)) == Some(0.25)
  {
    var f := ConversionFactor(50.0, Some(100.0), Some(300.0));
    assert f.Some? && f.value == 50.0 / 200.0;
  }

  lemma ExampleProduct(c: real, f: real, r: real)
    requires c * f == r
    ensures Product(Some(c), Some(f)) == Some(r)
  {
    var p := Product(Some(c), Some(f));
    assert p.Some? && p.value == r;
  }

  /** A worked example: calibration y-values 100 and 300 with a true
      distance of 50 give the factor 0.25, which takes the point (40, 120)
      to (10, 30). */
  lemma CalibrationExample(frames: seq<LabeledFrame>)
    requires frames == [LabeledFrame("trial.mp4", 0, [Instance(true, [
                          Point(Some(40.0), Some(120.0)),
                          Point(Some(5.0), Some(100.0)),
                          Point(Some(5.0), Some(300.0))])])]
    ensures Calibratable(frames, "trial.mp4", 1, 2) &&
            var factors := Factors(frames, ["trial.mp4"], 1, 2, 50.0);
            factors["trial.mp4"] == Some(0.25) &&
            ScaledFrames(factors, frames)[0].instances[0].points[0] == Point(Some(10.0), Some(30.0))
  {
    assert frames[1..] == [];
    assert CalibrationY(frames[0], 1) == Some(100.0);
    assert CalibrationY(frames[0], 2) == Some(300.0);
    assert Column(frames, "trial.mp4", 1) == [Some(100.0)];
    assert Column(frames, "trial.mp4", 2) == [Some(300.0)];
    SingleValueMedian(100.0);
    SingleValueMedian(300.0);
    var factors := Factors(frames, ["trial.mp4"], 1, 2, 50.0);
    ExampleFactor();
    assert factors["trial.mp4"] == Some(0.25);
    var p := frames[0].instances[0].points[0];
    assert ScaledFrames(factors, frames)[0].instances[0].points[0] == ApplyToPoint(ScaleBy(Some(0.25)), p);
    ExampleProduct(40.0, 0.25, 10.0);
    ExampleProduct(120.0, 0.25, 30.0);
  }
}
