# paws-tools coordinate conversion, in Dafny

A model of `paws_tools/slp_to_csv.py`. This code works on SLEAP pose labels: each labelled video frame holds instances, and each instance has one `(x, y)` point per skeleton node.

Three operations are modelled:

* `invert_y_axis` flips every predicted point vertically, in place: `y := frame_height - y`. This moves the origin between the top-left and bottom-left corners of the frame.
* `convert_physical_units` turns pixel coordinates into physical units, using two calibration nodes at a known distance `true_dist`.
  * For every video it takes the NaN-ignoring median `y` of each calibration node over that video's frames.
  * The video's factor is `true_dist / |median_bot - median_top|`.
  * It then multiplies `x` and `y` of every predicted point by the factor of its frame's video.
  * An unknown node name raises before anything is changed.
* `node_positions_to_dataframe` reads one node's position from the first predicted instance of every labelled frame. It produces one row per frame, holding the video, the frame index, `x` and `y`.

Layout:

* `wrappers.dfy`: `Option` and `Result`.
* `median.dfy` (`NanMedian`): `np.nanmedian` over one column.
  * The median of a non-empty sequence of reals is its sorted middle, or the mean of the two middle values.
  * It does not depend on the order of the values.
  * Multiplying every value by a positive factor multiplies the median by that factor.
* `labels.dfy` (`SleapLabels`): the label set.
  * `Labels` is a class whose `frames` field the conversions reassign.
  * A coordinate is `Option<real>`, where `None` is NaN.
  * `NodeIndex` models `skeleton.index`.
  * `FirstPredicted` models `predicted_instances[0]`.
* `slp_to_csv.dfy` (`SlpToCsv`): the three operations, written as loops.
  * Each loop method is proved equal to a function that describes its result: `InvertedFrames`, `Factors` and `ScaledFrames`.
  * The error cases are `Result` values.
* `properties.dfy` (`SlpToCsvProperties`): what those functions promise. This covers:
  * applying the flip twice restores the input;
  * which coordinates each conversion changes, and how;
  * the calibrated medians end up `true_dist` apart;
  * each video's factor is independent of the other videos;
  * a worked example.

Two behaviours of the code are worth stating, and the model keeps both.

* **Missing predicted instance.** A frame without a predicted instance makes `predicted_instances[0]` raise (`paws_tools/slp_to_csv.py:26`). `NodePositionsToDataframe` therefore fails with `NoPredictedInstance` at the first such frame.
* **Row order.** Rows keep `labeled_frames` order (`paws_tools/slp_to_csv.py:21`, `31`); nothing sorts them.

## Model

| member | source | states |
|---|---|---|
| SleapLabels.NodeIndex | paws_tools/slp_to_csv.py:67-68 | `skeleton.index(name)`: `None` (the `ValueError`) exactly when the name is not a node; otherwise the index of the first node with that name |
| SleapLabels.FirstPredicted | paws_tools/slp_to_csv.py:26-27 | `predicted_instances[0]`: `None` exactly when the frame has no predicted instance; otherwise a predicted instance with no predicted instance before it |
| NanMedian.Sort | paws_tools/slp_to_csv.py:74 | the arrangement the median is taken from is ascending and a permutation of the values |
| NanMedian.SortedUnique | paws_tools/slp_to_csv.py:74 | two ascending sequences with the same multiset of values are equal, so the median is well defined |
| NanMedian.Median | paws_tools/slp_to_csv.py:74 | the median of a non-empty collection lies between two of its values |
| NanMedian.MedianOfPermutation | paws_tools/slp_to_csv.py:74 | the median depends only on the multiset of values, not on frame order |
| NanMedian.MedianScaled | paws_tools/slp_to_csv.py:74-75 | multiplying every value by `c > 0` multiplies the median by `c` |
| NanMedian.NanMedianOf | paws_tools/slp_to_csv.py:74 | `np.nanmedian` of a column is NaN exactly when every entry is NaN |
| SlpToCsv.ConversionFactor | paws_tools/slp_to_csv.py:75 | the factor is NaN exactly when either median is NaN |
| SlpToCsv.FactorTimesDistance | paws_tools/slp_to_csv.py:75 | factor × \|median_bot − median_top\| = `true_dist`; the factor is positive for a positive `true_dist` |
| SlpToCsv.ApplyToPoints | paws_tools/slp_to_csv.py:49-50 | the loop over one instance's points applies the update to every point and to nothing else |
| SlpToCsv.ApplyToInstances | paws_tools/slp_to_csv.py:48-50 | the loop over a frame's instances updates every predicted instance and leaves user instances as they were |
| SlpToCsv.InvertYAxis | paws_tools/slp_to_csv.py:47-50 | the new frames are the old frames with every predicted point flipped; skeleton and videos unchanged; the label set stays well formed |
| SlpToCsv.ConversionFactors | paws_tools/slp_to_csv.py:70-76 | the dictionary filled over the videos has exactly the videos as keys, and each maps to the factor of that video's calibration medians |
| SlpToCsv.ScaleFrames | paws_tools/slp_to_csv.py:78-83 | every frame's predicted points are scaled by the factor of that frame's video; skeleton and videos unchanged |
| SlpToCsv.ConvertPhysicalUnits | paws_tools/slp_to_csv.py:67-83 | fails (top node reported first) exactly when a calibration node is unknown, with the frames untouched; otherwise scales the frames by factors computed from the frames as they were before any scaling |
| SlpToCsv.NodePositionsToDataframe | paws_tools/slp_to_csv.py:19-31 | succeeds exactly when the node exists and every frame has a predicted instance; otherwise `NodeNotFound`, or `NoPredictedInstance` at the first frame without one; on success one row per frame, in order, with the frame's video, frame index and the node's `x`/`y` from its first predicted instance |
| SlpToCsvProperties.InvertedPoint | paws_tools/slp_to_csv.py:47-50 | after the flip every `x` is unchanged; `y` becomes `height − y` in predicted instances only; no frame, instance or point is added or removed |
| SlpToCsvProperties.InvertTwiceRestores | paws_tools/slp_to_csv.py:35-50 | flipping twice with the same height gives back the original frames: the origin swaps in either direction |
| SlpToCsvProperties.ScaledPoint | paws_tools/slp_to_csv.py:78-83 | after scaling, each point of a predicted instance has `x` and `y` multiplied by the factor of its frame's video (one factor for all frames of a video); user instances unchanged; shape unchanged |
| SlpToCsvProperties.ColumnOfScaled | paws_tools/slp_to_csv.py:72-83 | a video's calibration column after scaling is its old column multiplied by that video's factor |
| SlpToCsvProperties.NanMedianScaled | paws_tools/slp_to_csv.py:74-83 | the NaN-ignoring median of a column scaled by a positive factor is the old median times that factor; scaled by NaN it is NaN |
| SlpToCsvProperties.CalibratedMedians | paws_tools/slp_to_csv.py:70-83 | after the conversion, each calibration median of a video is its old median times the video's factor, and that factor is the one computed from the old medians |
| SlpToCsvProperties.FactorSetsDistance | paws_tools/slp_to_csv.py:75 | scaling the two calibration medians by the factor computed from them puts them exactly `true_dist` apart; if either is NaN, both scaled medians are NaN |
| SlpToCsvProperties.ColumnSeesOnlyItsVideo | paws_tools/slp_to_csv.py:72 | a video's calibration column depends only on the frames of that video |
| SlpToCsvProperties.FactorIndependentOfOtherVideos | paws_tools/slp_to_csv.py:71-76 | changing or relabelling the frames of other videos leaves a video's factor as it was |
| SlpToCsvProperties.CalibrationExample | paws_tools/slp_to_csv.py:70-83 | calibration `y` values 100 and 300 with `true_dist` 50 give the factor 0.25, which takes the point (40, 120) to (10, 30) |

## Left out

- `paws_tools/cli.py` is not part of this model. It covers click wiring, `load_slp`, `copy.deepcopy`, progress bars and printing. Its call on line 111 passes a list of nodes; the model takes the function as written, with one node name.
- `paws_tools/util.py` is not part of this model. It is a cosmetic patch of the CLI library.
- `get_nodes_for_bodyparts`, `save_dataframe_to_grouped_csv` and `plot_bodyparts_y_pos_over_time` are not part of this model. They are imported by the CLI, but their source is not among the modelled files.
- `labels.numpy(video)` is not part of this model. Its array layout covers tracks, padding rows for frames without labels, and how it orders user and predicted instances. `Column` stands in for `labels.numpy(video)[:, 0, k, 1]` and assumes the input has this layout:
  - the data is untracked, or has one predicted instance per frame, so that instance slot 0 of a row is the frame's first predicted instance (with tracks it is the track-0 instance, which the model does not capture);
  - no two labelled frames of one video share a frame index (`labels.numpy` would merge them into one row; the model keeps one entry per labelled frame);
  - a frame without a predicted instance, like a padding row, contributes NaN, which `np.nanmedian` ignores;
  - row order does not matter, because the median depends only on the multiset of values (`MedianOfPermutation`).
- NodePositionsToDataframe takes the node name as an argument; the default `node_name="Toe"` of `paws_tools/slp_to_csv.py:9` is not modelled, so a caller always supplies the name explicitly.
- Only `labels.skeletons[0]` is modelled, as `Labels.skeleton`.
- Videos are identified by their file name, as the `conv_factors` keys are. Two video objects that share a file name are one video in the model: `Column` merges their frames into one column and they get one factor, whereas the code computes a factor per object from `labels.numpy(video)` and the later one overwrites the earlier at `conv_factors[video.filename]`. The model does not capture that case.
- Points are values. The model does not capture that sleap_io's point objects can be shared between instances and updated through either one.
- Arithmetic is exact over reals. IEEE-754 rounding and infinities are not modelled. NaN is `None`, and it propagates through subtraction and multiplication.
- ConversionFactor, ConversionFactors and ConvertPhysicalUnits require the two calibration medians of every video to differ. The code divides by their distance without a guard; numpy would produce an infinite factor and a warning, and the model does not cover that case.
- InvertYAxis takes `frame_height` as an integer and uses it as a real, as Python's `int - float` does.
- NodePositionsToDataframe returns a sequence of `Row` records in place of a pandas DataFrame.
- CalibratedMedians states the calibration result through the scaled medians and the factor. The distance property follows by applying FactorSetsDistance to the old medians; no single lemma states the two combined.
