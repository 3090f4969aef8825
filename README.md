# GazeAPP segmentation and gaze-warping core, in Dafny

This project models the logic at the heart of GazeAPP, an eye-tracking tool.
GazeAPP cuts a screen recording into experiment epochs using two on-screen
ArUco markers, normalises the epochs to fixed lengths, and reprojects every
raw gaze sample into screen coordinates through a homography. The homography
is fitted to the four calibration tags that span the largest well-shaped
quadrilateral. The computer-vision and file calls are parameters of the
model: per-frame id lists, detection maps, a read function for frames and an
abstract projection.

Modules, one per source file (plus two shared ones):

- `Common` (`common.dfy`): `Option`/`Result`, the `Segment` record, Python's
  `int()` truncation, ASCII `lower()`, substring search and `endswith`.
- `VideoSegment` (`video_segment.dfy`), for `backend/app/utils/videoSegment.py`:
  - the presence rule: more than two detections of an id in a frame;
  - `merge_intervals`, imperative, proved against the position-wise
    specification `Merged`;
  - edge extraction;
  - the label product of `assign_labels`. The product functions take the
    label builder as a parameter `f` and the source's f-string is `Label`,
    so the position lemmas hold for any builder.
- `Combinations` (`combinations.dfy`): `itertools.combinations` order, with
  proofs that it is sound, complete, free of repeats and lexicographic.
- `VideoConfigFrame` (`video_config_frame.dfy`), for
  `backend/app/utils/videoConfigFrame.py`:
  - tag matching;
  - doubled shoelace areas over the integer tag centres;
  - the collinearity test;
  - the first-largest quad search;
  - the warp correspondence;
  - the sentinel-emitting frame loop of `gaze_process`, with the
    `IndexError` and `ValueError` it can stop on.
- `ApiMain` (`api_main.dfy`), for `backend/app/api/main.py` and the identical
  copy of `submit_segments` in `backend/app/routes/main.py`:
  - `adjust_interval` and the label dispatch;
  - the `upload_user_result` checks;
  - the 8-point check of `frame_config`.
- `ExtractRawGaze` (`extract_raw_gaze.dfy`): `find_closest_indices` as
  an argmin with an earliest-index tie-break.
- `VideoSegmentation` (`video_segmentation.dfy`), for
  `frontend/src/components/VideoSegmentation.jsx`:
  - `convertToTimestamp`;
  - the three list edits, with JavaScript `splice` and past-the-end
    assignment semantics;
  - `parseInt`;
  - the submit checks.

Notes on the code's behaviour, which the model follows:

- Quads are scored on the tags' integer image centres (`tag["center"]`), not
  on the reference-space points.
- `adjust_interval` divides the centre by the declared fps even after
  rescaling to 25 fps. It uses `int()`, which truncates toward zero, so a
  negative value such as -2.5 becomes -2, not -3.
- `gaze_process` handles only the segments from position 13 on.
- Presence counts how often an id occurs in the frame's detection list.
- The comment beside the call of `find_closest_indices` in `gaze2npy`
  (backend/app/utils/extractRawGaze.py:95) says the selected rows keep their
  order and hold no repeats. The order half holds on sorted timestamps
  (`ClosestIndicesNonDecreasing`); the no-repeats half fails when samples
  are sparser than the interval (`SparseSamplesRepeat`: timestamps 0 and
  100 at a 40 ms interval give positions 0, 0, 1).

## Model

| member | source | states |
|---|---|---|
| VideoSegment.PresenceBit | backend/app/utils/videoSegment.py:26-27 | the bit is 1 exactly when the id occurs more than two times in the frame's list |
| VideoSegment.Count | backend/app/utils/videoSegment.py:26 | `ids_list.count(x)` is the multiplicity of `x` |
| VideoSegment.DetectMarkers | backend/app/utils/videoSegment.py:14-27 | one bit per frame for each marker, so both signals have the frame count as length; each bit is 1 iff id 0 (resp. 1) occurs more than twice |
| VideoSegment.ZeroRunStart | backend/app/utils/videoSegment.py:36-42 | the first position of the maximal run of 0s holding `p` |
| VideoSegment.ZeroRunEnd | backend/app/utils/videoSegment.py:40-42 | one past the end of that run; it is the list length or a 1 |
| VideoSegment.ZeroRunStartIs | backend/app/utils/videoSegment.py:36-42 | any left border of a 0-run is the one `ZeroRunStart` finds |
| VideoSegment.ZeroRunEndIs | backend/app/utils/videoSegment.py:40-42 | any right border of a 0-run is the one `ZeroRunEnd` finds, as the scan of `j` does |
| VideoSegment.Merged | backend/app/utils/videoSegment.py:32-49 | the merged signal has the input's length |
| VideoSegment.MergeIntervals | backend/app/utils/videoSegment.py:32-49 | the nested scan over a copy returns exactly `Merged(binary, gap)`; the argument is a value and is not changed |
| VideoSegment.MergedRun | backend/app/utils/videoSegment.py:36-46 | a position of a maximal 0-run becomes 1 iff the run has a 1 before it, a 1 after it (`j < len`) and length at most `gap` |
| VideoSegment.MergedKeepsOnes | backend/app/utils/videoSegment.py:44-45 | every 1 of the input stays 1 |
| VideoSegment.MergedKeepsBorders | backend/app/utils/videoSegment.py:36-46 | leading zeros and zeros after the last 1 are never filled |
| VideoSegment.MergedStableAt | backend/app/utils/videoSegment.py:32-49 | a 0 that survives one merge survives a second one |
| VideoSegment.MergedIdempotent | backend/app/utils/videoSegment.py:32-49 | merging twice with the same gap equals merging once |
| VideoSegment.Transitions | backend/app/utils/videoSegment.py:54-55 | the result holds exactly the positions `k >= 1` where the signal steps away from `from`, in strictly increasing order |
| VideoSegment.EdgesPrefix | backend/app/utils/videoSegment.py:54-57 | truncating an edge list to its first `n` entries keeps it strictly increasing and keeps every entry an edge away from `from` |
| VideoSegment.ComputeSegmentIndices | backend/app/utils/videoSegment.py:51-57 | both signals are merged with gap 50; starts are falling edges of m0 and ends rising edges of m1, both strictly increasing, both the first `min` of their edge lists |
| VideoSegment.NoFallingEdge | backend/app/utils/videoSegment.py:54 | an all-ones signal has no falling edge |
| VideoSegment.BridgedGapExample | backend/app/utils/videoSegment.py:32-57 | marker 0 present on `[0,40)` and `[45,100)` merges to all 100 frames present, with no start |
| VideoSegment.MediaRow | backend/app/utils/videoSegment.py:68-69 | the inner loop's labels are `Label(l, h, media[k])` in order |
| VideoSegment.HeadBlockLength | backend/app/utils/videoSegment.py:67-69 | one light code yields `|head|·|media|` labels |
| VideoSegment.HeadBlockPrefix | backend/app/utils/videoSegment.py:67-69 | the labels of the first `a` head codes are a prefix of a light block |
| VideoSegment.HeadBlockAtPrefix | backend/app/utils/videoSegment.py:67-69 | label `k` of head code `j` directly follows the labels of the head codes before `j` |
| VideoSegment.HeadBlockAt | backend/app/utils/videoSegment.py:67-69 | the head codes before `j` fill `j·|media|` positions, and label `j·|media| + k` of a light block is the label of `(l, head[j], media[k])` |
| VideoSegment.ProductLabelsLength | backend/app/utils/videoSegment.py:66-69 | the product has `|light|·|head|·|media|` labels |
| VideoSegment.ProductLabelsPrefix | backend/app/utils/videoSegment.py:66-69 | the labels of the first `a` light codes are a prefix of the product |
| VideoSegment.BlockAtOffset | backend/app/utils/videoSegment.py:66-69 | light code `i`'s block directly follows the labels of the light codes before `i` |
| VideoSegment.BlockAt | backend/app/utils/videoSegment.py:66-69 | light code `i`'s block starts at position `i·|head|·|media|` |
| VideoSegment.ProductLabels | backend/app/utils/videoSegment.py:60-69 | the labels of the three nested loops, outer loop first; its length and positions are stated by `ProductLabelsLength` and `ProductLabelsAt` |
| VideoSegment.ProductLabelsAt | backend/app/utils/videoSegment.py:60-69 | label `i·|head|·|media| + j·|media| + k` is `light_map[light[i]]-head_map[head[j]]-media_map[media[k]]` |
| VideoSegment.LabelKnown | backend/app/utils/videoSegment.py:60-69 | for known codes the label is built from the three map values |
| VideoSegment.AppendMediaRow | backend/app/utils/videoSegment.py:68-69 | the innermost loop appends the media row, or fails when a looked-up code is not a key |
| VideoSegment.AppendHeadBlock | backend/app/utils/videoSegment.py:67-69 | the middle loop appends one light code's block, or fails on an unknown code |
| VideoSegment.AssignLabels | backend/app/utils/videoSegment.py:59-71 | the result is "cali" followed by the product in nested order, so `1 + |light|·|head|·|media|` labels; an unknown code that gets looked up is a KeyError; `start_indices` plays no part |
| VideoSegment.LabelExample | backend/app/utils/videoSegment.py:60-69 | codes A,B / A / A,B give On-Center-Image, On-Center-Video, Off-Center-Image, Off-Center-Video |
| Combinations.PrependAll | backend/app/utils/videoConfigFrame.py:87 | prefixes every combination with one position, keeping order |
| Combinations.ChooseSound | backend/app/utils/videoConfigFrame.py:87 | every enumerated item is a strictly increasing choice of `k` positions |
| Combinations.ChooseComplete | backend/app/utils/videoConfigFrame.py:87 | every such choice is enumerated |
| Combinations.ChooseDistinct | backend/app/utils/videoConfigFrame.py:87 | no choice is enumerated twice |
| Combinations.ChooseSorted | backend/app/utils/videoConfigFrame.py:87 | the enumeration is in increasing lexicographic (Python tuple) order |
| Combinations.ChooseOrdered | backend/app/utils/videoConfigFrame.py:87 | an earlier position holds the lexicographically smaller choice |
| VideoConfigFrame.Matches | backend/app/utils/videoConfigFrame.py:32-55 | at most one match per reference entry; each has the family and a detected key |
| VideoConfigFrame.MatchesAppend | backend/app/utils/videoConfigFrame.py:32-55 | matching distributes over the reference list, so matches keep reference order |
| VideoConfigFrame.MatchesSingle | backend/app/utils/videoConfigFrame.py:33-42 | one entry matches iff its `(family, id)` key was detected; the match has the reference centre as `ref`, the corner mean as `img` and the truncated centre |
| VideoConfigFrame.MatchesAllDetected | backend/app/utils/videoConfigFrame.py:32-55 | when every key is detected, match `t` comes from reference entry `t` |
| VideoConfigFrame.MatchTagsFromJson | backend/app/utils/videoConfigFrame.py:28-57 | the two loops return the AprilTag matches, then the ArUco ones, each in reference order |
| VideoConfigFrame.PolygonArea | backend/app/utils/videoConfigFrame.py:60-63 | the area is non-negative and half the absolute shoelace sum over the points in cyclic order |
| VideoConfigFrame.ShoelaceRotate | backend/app/utils/videoConfigFrame.py:60-63 | rotating the point list leaves the area unchanged |
| VideoConfigFrame.TriangleIsShoelace | backend/app/utils/videoConfigFrame.py:72-76 | the triangle formula of the collinearity test is the shoelace area of the three points |
| VideoConfigFrame.AreThreePointsAlmostCollinear | backend/app/utils/videoConfigFrame.py:66-79 | true iff some triple among the first four points has area below `tol`; the loops return at the first one |
| VideoConfigFrame.Centers | backend/app/utils/videoConfigFrame.py:88 | a quad is scored on its tags' `center`s |
| VideoConfigFrame.QuadsWellFormed | backend/app/utils/videoConfigFrame.py:87 | every enumerated quad has four positions into the tag list |
| VideoConfigFrame.Kept | backend/app/utils/videoConfigFrame.py:84-93 | the kept quad is one of those scanned |
| VideoConfigFrame.FirstMaxIsFirstLargest | backend/app/utils/videoConfigFrame.py:84-93 | a scan from 0 that moves only on a strictly larger value finds nothing iff every value is 0, and otherwise the first position of the largest value |
| VideoConfigFrame.KeptIsFirstMax | backend/app/utils/videoConfigFrame.py:84-93 | the loop's test `area > best_area and not collinear` is that scan over the scores |
| VideoConfigFrame.KeptIsFirstLargest | backend/app/utils/videoConfigFrame.py:84-93 | nothing is kept iff no quad has positive area and no thin triangle; otherwise the kept quad passes, is at least as large as every passing quad, and is strictly larger than every earlier passing one |
| VideoConfigFrame.BestCombination | backend/app/utils/videoConfigFrame.py:82-94 | the kept quad's positions are four positions into the tag list |
| VideoConfigFrame.BestQuad | backend/app/utils/videoConfigFrame.py:82-94 | the returned quad is four of the matched tags |
| VideoConfigFrame.BestQuadFromKept | backend/app/utils/videoConfigFrame.py:82-94 | the returned quad is the tags of the combination the scan keeps, or None when it keeps none |
| VideoConfigFrame.KeptBeatsOthers | backend/app/utils/videoConfigFrame.py:87-92 | any other passing quad in the list is smaller than the kept one, or equal in area and later |
| VideoConfigFrame.SelectedQuadIsLexFirst | backend/app/utils/videoConfigFrame.py:82-94 | any other passing 4-subset is smaller than the kept one, or of equal area and lexicographically after it |
| VideoConfigFrame.SelectedQuadIsLargest | backend/app/utils/videoConfigFrame.py:82-94 | the same over all 4-subsets of the tags: None iff no 4-subset passes; otherwise the first largest passing 4-subset |
| VideoConfigFrame.ScanQuads | backend/app/utils/videoConfigFrame.py:84-93 | the loop with strict `>` from best area 0 keeps exactly the position `Kept` names and returns its tags |
| VideoConfigFrame.SelectLargestQuad | backend/app/utils/videoConfigFrame.py:82-94 | the scan over `combinations(detected_tags, 4)` returns `BestQuad` |
| VideoConfigFrame.WarpFor | backend/app/utils/videoConfigFrame.py:96-117 | a transform needs at least four matched tags and pairs four image points with four reference points |
| VideoConfigFrame.WarpForSpec | backend/app/utils/videoConfigFrame.py:105-117 | no transform iff fewer than 4 matches or no quad passes; otherwise sources are the chosen tags' `img` and destinations their `ref`, pair by pair |
| VideoConfigFrame.DetectTagsAndGetWarp | backend/app/utils/videoConfigFrame.py:96-117 | the control flow returns the correspondence described by `WarpFor` |
| VideoConfigFrame.Processed | backend/app/utils/videoConfigFrame.py:138 | `segments[13:]`: empty for 13 or fewer segments, otherwise 13 fewer |
| VideoConfigFrame.GazeAt | backend/app/utils/videoConfigFrame.py:151 | `gaze[frame_idx]`, with negative positions from the end; an `IndexError` exactly outside `[-len, len)` |
| VideoConfigFrame.FramePoint | backend/app/utils/videoConfigFrame.py:144-169 | one frame's outcome, raising only for a frame that was read: (-1,-1) for a failed read, a NaN x or no transform; `IndexError` without a gaze row; `ValueError` for a NaN y once a transform is found; otherwise the projection |
| VideoConfigFrame.FrameRaisesIff | backend/app/utils/videoConfigFrame.py:144-167 | a frame raises `IndexError` iff it was read and has no gaze row, and `ValueError` iff it was read, has a numeric x, a NaN y and a transform |
| VideoConfigFrame.MissingGazeIgnoresDetection | backend/app/utils/videoConfigFrame.py:151-154 | a NaN gaze x gives (-1,-1) whatever the frame's detections and the y coordinate |
| VideoConfigFrame.NonSentinelIsProjection | backend/app/utils/videoConfigFrame.py:145-169 | a point other than (-1,-1) comes from a read frame, a numeric gaze sample and a transform; it is the truncated projection minus `boundary` |
| VideoConfigFrame.Collected | backend/app/utils/videoConfigFrame.py:140-169 | when no frame raises: one point per frame of `[start, end)`, in frame order (none when `end <= start`) |
| VideoConfigFrame.CollectedStep | backend/app/utils/videoConfigFrame.py:143-169 | one more frame appends that frame's point |
| VideoConfigFrame.SegmentPoints | backend/app/utils/videoConfigFrame.py:140-169 | a segment's saved points: frame `start + i` gives point `i` |
| VideoConfigFrame.ProcessFrame | backend/app/utils/videoConfigFrame.py:144-169 | one frame's outcome, in the order: read failure, missing row, NaN x, no transform, NaN y, then projection |
| VideoConfigFrame.ProcessSegment | backend/app/utils/videoConfigFrame.py:139-169 | the frame loop succeeds iff no frame raises, then with exactly `SegmentPoints`; otherwise it fails with the error of the first raising frame |
| VideoConfigFrame.GazeProcess | backend/app/utils/videoConfigFrame.py:127-179 | one save per segment from position 13 on, in order, under the segment's label, holding its frame points; on an error the saves stop before the segment that raised, and the error is that of its first raising frame |
| ApiMain.AdjustInterval | backend/app/api/main.py:181-188 | the adjusted interval spans exactly `target_frames` |
| ApiMain.AdjustAtBaseFps | backend/app/api/main.py:185-187 | at 25 fps `new_start = trunc((start + end - target) / 2)` |
| ApiMain.AdjustRescaled | backend/app/routes/main.py:133-138 | at other rates the bounds first become `int(v / fps * 25)`; the new start is then `int(mid · 25 / fps − target / 2)` for the midpoint `mid` of the rescaled bounds |
| ApiMain.AdjustCentreAt50Fps | backend/app/api/main.py:182-187 | at 50 fps `[1000,1500)` with target 250 becomes `[187,437)`, while the same interval at 25 fps, `[500,750)`, stays put |
| ApiMain.TargetFrames | backend/app/api/main.py:193-204 | the chosen target is 675, 250 or 750 frames |
| ApiMain.TargetFramesByOccurrence | backend/app/routes/main.py:149-155 | by first match on the lower-cased label: "cali" gives 675 whatever else occurs, else "image" 250, else "video" 750, else no change |
| ApiMain.TargetFramesIgnoresCase | backend/app/api/main.py:193-198 | "CALI" is a calibration label |
| ApiMain.AdjustedSegment | backend/app/api/main.py:192-211 | the label keeps its case; unmatched segments are unchanged; matched ones span their target |
| ApiMain.Submitted | backend/app/routes/main.py:129-162 | the response of `submit_segments` as a value: a length mismatch exactly when the lengths differ, then a zero fps once some label asks for an adjustment, otherwise one adjusted segment per input |
| ApiMain.SubmittedSpec | backend/app/routes/main.py:129-162 | the length mismatch error happens iff the lengths differ; otherwise one segment per input in order, with its label, spanning its target or unchanged, and centred at 25 fps |
| ApiMain.ZeroFpsFailsOnlyWhenAdjusting | backend/app/api/main.py:181-204 | at fps 0 the request fails (division by zero) iff some label needs adjusting |
| ApiMain.SubmitSegments | backend/app/api/main.py:167-220 | defaults for absent fields; the length check; then the loop's result, equal to `Submitted` |
| ApiMain.UploadUserResult | backend/app/api/main.py:249-269 | refuses an index outside `[0,4)`, a missing file and a lower-cased name without `RESULT_EXT[index]`, each exactly; otherwise stores as `RESULT_FILENAME[index]` |
| ApiMain.StoredNameHasExtension | backend/app/api/main.py:249-250 | each `RESULT_FILENAME[i]` ends with `RESULT_EXT[i]` |
| ApiMain.UploadKeepsExtension | backend/app/api/main.py:249-269 | an accepted file has the checked extension and is stored under a name with that extension |
| ApiMain.UploadNamesDistinct | backend/app/api/main.py:250 | the four slots are stored under four different names |
| ApiMain.UploadIgnoresCase | backend/app/api/main.py:264 | "A.MP4" is accepted as the video |
| ApiMain.UploadWrongSlot | backend/app/api/main.py:264-265 | an .mp4 offered for the gaze slot is refused with ".npy" |
| ApiMain.FrameConfig | backend/app/api/main.py:44-62 | accepted iff an image is present and readable and the points evaluate to exactly 8 entries; otherwise no image, unreadable image, unevaluable points, wrong count, in that order |
| ExtractRawGaze.FloorDiv | backend/app/utils/extractRawGaze.py:55 | Python's `//` rounds down, for either sign of the divisor |
| ExtractRawGaze.ClosestIndex | backend/app/utils/extractRawGaze.py:58-64 | the chosen position has the least distance to the target and no earlier position does as well |
| ExtractRawGaze.FindClosestIndices | backend/app/utils/extractRawGaze.py:48-67 | one entry per tick `0 .. last // interval`, each the earliest nearest position |
| ExtractRawGaze.ClosestUnique | backend/app/utils/extractRawGaze.py:60-64 | the tie-break determines the position |
| ExtractRawGaze.ClosestIndicesUnique | backend/app/utils/extractRawGaze.py:48-67 | the result is determined by the timestamps and the interval |
| ExtractRawGaze.ClosestIndicesShape | backend/app/utils/extractRawGaze.py:53-65 | `floor(last / interval) + 1` entries, all valid positions |
| ExtractRawGaze.ClosestMonotone | backend/app/utils/extractRawGaze.py:83-95 | on ascending timestamps a later target never picks an earlier position |
| ExtractRawGaze.ClosestIndicesNonDecreasing | backend/app/utils/extractRawGaze.py:83-96 | on ascending timestamps the result never decreases |
| ExtractRawGaze.SparseSamplesRepeat | backend/app/utils/extractRawGaze.py:93-96 | stamps `[0,100]` at tick 40 give `[0,0,1]`: positions can repeat |
| VideoSegmentation.NatToStringValue | frontend/src/components/VideoSegmentation.jsx:24 | the decimal text of `n` has value `n` |
| VideoSegmentation.ParseIntToString | frontend/src/components/VideoSegmentation.jsx:76 | `parseInt` reads back what `toString` writes |
| VideoSegmentation.ParseIntNegative | frontend/src/components/VideoSegmentation.jsx:76 | a minus sign before a run of digits gives the negated value of the digits |
| VideoSegmentation.ParseIntMinus | frontend/src/components/VideoSegmentation.jsx:76 | text that starts with a minus sign reads as the negation of the number its digits give |
| VideoSegmentation.ParseDigitsAll | frontend/src/components/VideoSegmentation.jsx:76 | a run made only of digits is read whole, as its decimal value |
| VideoSegmentation.ParseDigits | frontend/src/components/VideoSegmentation.jsx:76 | no number exactly when the text does not start with a digit |
| VideoSegmentation.ParseIntStopsAtNonDigit | frontend/src/components/VideoSegmentation.jsx:76 | `parseInt` keeps the leading digits and drops the rest |
| VideoSegmentation.ParseIntNaN | frontend/src/components/VideoSegmentation.jsx:76 | empty text, and text whose first character is neither white space, a sign nor a digit, is NaN |
| VideoSegmentation.ParseInt | frontend/src/components/VideoSegmentation.jsx:76 | NaN exactly when no digit follows the blanks and sign |
| VideoSegmentation.TrimStart | frontend/src/components/VideoSegmentation.jsx:76 | leaves text no longer than its input that does not start with white space |
| VideoSegmentation.TrimStartSuffix | frontend/src/components/VideoSegmentation.jsx:76 | what is left is a suffix of the input, and every character dropped is white space |
| VideoSegmentation.PadStart2 | frontend/src/components/VideoSegmentation.jsx:24 | pads with zeros on the left to two characters, keeping longer text |
| VideoSegmentation.ConvertToTimestamp | frontend/src/components/VideoSegmentation.jsx:20-25 | the minutes text, a colon and the seconds padded to two characters; the colon is always present, and `TimestampFields` states the fields |
| VideoSegmentation.TimestampFields | frontend/src/components/VideoSegmentation.jsx:20-25 | for frames `>= 0`: seconds in `[0,60)`, minutes·60 + seconds is the whole seconds elapsed, and the text is `m:ss` with two digits of seconds |
| VideoSegmentation.NegativeTimestamp | frontend/src/components/VideoSegmentation.jsx:20-25 | frame -25 at 25 fps shows as "-1:-1" |
| VideoSegmentation.AddItem | frontend/src/components/VideoSegmentation.jsx:53-57 | one longer; "" inserted after `index` (at the end when `index` is past it); earlier entries kept, later ones shifted by one |
| VideoSegmentation.RemoveItem | frontend/src/components/VideoSegmentation.jsx:59-63 | removes exactly the entry at `index`, keeping the rest in order; nothing past the end |
| VideoSegmentation.ChangeItem | frontend/src/components/VideoSegmentation.jsx:65-69 | sets `index` and nothing else; keeps the length inside the list and grows it with holes past the end |
| VideoSegmentation.RemoveUndoesAdd | frontend/src/components/VideoSegmentation.jsx:53-63 | deleting the inserted row restores the list |
| VideoSegmentation.ChangeOverrides | frontend/src/components/VideoSegmentation.jsx:65-69 | a second change of an entry overrides the first |
| VideoSegmentation.RowCount | frontend/src/components/VideoSegmentation.jsx:138 | the editor shows as many rows as the longest list |
| VideoSegmentation.ChangeWithinRows | frontend/src/components/VideoSegmentation.jsx:138-152 | editing a shown row adds no row, but extends a shorter list to that row |
| VideoSegmentation.HandleSubmit | frontend/src/components/VideoSegmentation.jsx:71-79 | the checks of `handleSubmit`: lengths first, then a parsed start above its end; only equal lengths are accepted, and `HandleSubmitSpec` gives the full condition |
| VideoSegmentation.HandleSubmitSpec | frontend/src/components/VideoSegmentation.jsx:71-79 | submitted iff the three lengths agree and each start is at most its end where both parse; the submit button's `disabled` test is true iff the lengths differ |
| VideoSegmentation.EditPastEndRefused | frontend/src/components/VideoSegmentation.jsx:65-75 | typing a start into a shown row that only the labels list reaches makes submission refuse on length |
| VideoSegmentation.UnparsedPairsPass | frontend/src/components/VideoSegmentation.jsx:76-79 | holes and empty text never block submission |
| Common.Trunc | backend/app/utils/videoConfigFrame.py:41 | `int()` of a float truncates toward zero |
| Common.Lower | backend/app/api/main.py:193 | `lower()` keeps the length and lower-cases A-Z |
| Common.ContainsIff | backend/app/api/main.py:198 | `sub in s` holds iff `sub` occurs at some position |

## Left out

- Video decoding, ArUco/AprilTag detection and frame seeking. These are the
  parameters `frames` (per-frame id lists), `Detections` maps and
  `video: int -> Option<Detections>`. The early stop of `detect_markers` on a
  failed read is the length of `frames`.
- `cv2.getPerspectiveTransform` and the projection `warp_matrix @ gp_homo`
  are foreign float code. The model hands the four `img`/`ref` pairs to an
  abstract `project` function. `warp_and_crop` is left out.
- File and network I/O are left out: `np.load`/`np.save`, JSON files, the
  session folders, storing the upload, `extractFrame`, plotting
  (`generate_plot`), Flask responses, `fetch` and React state.
- `gaze2npy` is left out beyond its constant 40: it is spreadsheet
  ingestion.
- Float rounding is abstracted away: `adjust_interval` and
  `convertToTimestamp` use exact reals, and `int()`/`Math.floor` are exact.
- AdjustInterval: starts and ends are integers. JSON floats, NaN and
  infinities are not modelled.
- FindClosestIndices: timestamps are whole numbers. The empty guard of the
  caller is the precondition `|ts| > 0`. A zero interval is excluded: on a
  numpy scalar `// 0` gives 0 with a warning (int64) or infinity, which
  `int()` rejects with OverflowError (float64); the only caller passes 40.
- GazeProcess: the projection of a numeric sample is assumed finite. A
  point at infinity (a zero third homogeneous component), for which `int()`
  raises OverflowError, is not modelled. The exception itself is modelled
  as the run stopping with the error; the saves made before it are kept.
- ConvertToTimestamp: requires `fps != 0`. JavaScript would print
  "Infinity"/"NaN" text. A non-numeric frame string coerced by `/` is not
  modelled.
- ParseInt: the "0x" hexadecimal prefix of JavaScript's `parseInt` is not
  modelled, nor is white space beyond the listed code points.
- Lower: only ASCII letters are lower-cased, where Python's `lower()` is
  Unicode-aware.
- FrameConfig: `eval` of the points text is not modelled. Its outcome is
  given as "a sequence" or "raised".
- The payload conversion `starts.map(Number)` in `handleSubmit` is not
  modelled.
