/** Request checks and segment normalisation of the Flask API
    (backend/app/api/main.py; `submit_segments` and `adjust_interval` are
    repeated unchanged in backend/app/routes/main.py and modelled once).
    Requests are given as their decoded fields; file storage, sessions and
    JSON responses are outside the model. */
module ApiMain {
  import opened Common

  // ---------------------------------------------------------------------
  // submit_segments / adjust_interval
  // ---------------------------------------------------------------------

  /** The frame rate the normalised segments are expressed in. */
  const BaseFps: real := 25.0

  /** `data.get("fps", 25)`. */
  const DefaultFps: real := 25.0

  const CalibrationFrames: nat := 27 * 25
  const ImageFrames: nat := 10 * 25
  const VideoFrames: nat := 30 * 25

  /** `int(v / fps * 25)`: a frame number carried over to 25 fps. */
  function Rescale(v: int, fps: real): int
    requires fps != 0.0
  {
    Trunc(v as real / fps * BaseFps)
  }

  /** `new_start`: the interval's midpoint divided by `fps`, less half the
      target in seconds at 25 fps, back in frames and truncated. */
  function CentredStart(s: int, e: int, target: int, fps: real): int
    requires fps != 0.0
  {
    var centerTime := ((s + e) as real / 2.0) / fps;
    Trunc((centerTime - (target as real / 2.0) / BaseFps) * BaseFps)
  }

  /** `adjust_interval`: rescale the bounds to 25 fps when the rate differs,
      then centre a window of `target` frames. As in the source, the centre
      is divided by the original `fps` even after the bounds were rescaled;
      `int()` truncates toward zero. The result is `(new_start, new_end)`. */
  function AdjustInterval(start: int, end: int, target: int, fps: real): (r: (int, int))
    requires fps != 0.0
    ensures r.1 - r.0 == target
  {
    var s := if fps != BaseFps then Rescale(start, fps) else start;
    var e := if fps != BaseFps then Rescale(end, fps) else end;
    var newStart := CentredStart(s, e, target, fps);
    (newStart, newStart + target)
  }

  /** At 25 fps the window is centred on the interval's midpoint:
      `new_start = trunc((start + end - target) / 2)`. */
  lemma AdjustAtBaseFps(start: int, end: int, target: int)
    ensures AdjustInterval(start, end, target, BaseFps).0 == Trunc((start + end - target) as real / 2.0)
  {
    var centerTime := ((start + end) as real / 2.0) / BaseFps;
    assert (centerTime - (target as real / 2.0) / BaseFps) * BaseFps == (start + end - target) as real / 2.0;
  }

  /** The start `adjust_interval` computes from already rescaled bounds
      `s`, `e` at rate `fps`: their midpoint scaled by `25 / fps`, less half
      the window, truncated. */
  function RescaledStart(s: int, e: int, target: int, fps: real): int
    requires fps != 0.0
  {
    Trunc((s + e) as real / 2.0 * (BaseFps / fps) - target as real / 2.0)
  }

  /** At any other rate the bounds are first replaced by `int(v / fps * 25)`,
      and the midpoint of those rescaled bounds is then scaled once more by
      `25 / fps` before the half window is subtracted. */
  lemma AdjustRescaled(start: int, end: int, target: int, fps: real)
    requires fps != 0.0 && fps != BaseFps
    ensures AdjustInterval(start, end, target, fps).0
      == RescaledStart(Rescale(start, fps), Rescale(end, fps), target, fps)
  {
    AdjustRescaledBounds(start, end, target, fps);
    CentredStartScaled(Rescale(start, fps), Rescale(end, fps), target, fps);
  }

  lemma AdjustRescaledBounds(start: int, end: int, target: int, fps: real)
    requires fps != 0.0 && fps != BaseFps
    ensures AdjustInterval(start, end, target, fps).0 == CentredStart(Rescale(start, fps), Rescale(end, fps), target, fps)
  {
  }

  lemma CentredStartScaled(s: int, e: int, target: int, fps: real)
    requires fps != 0.0
    ensures CentredStart(s, e, target, fps) == RescaledStart(s, e, target, fps)
  {
    CentreAlgebra((s + e) as real / 2.0, fps, target as real);
  }

  lemma CentreAlgebra(mid: real, fps: real, target: real)
    requires fps != 0.0
    ensures (mid / fps - (target / 2.0) / BaseFps) * BaseFps == mid * (BaseFps / fps) - target / 2.0
  {
    var x := mid / fps;
    assert x * fps == mid;
    assert (BaseFps / fps) * fps == BaseFps;
    assert mid * (BaseFps / fps) == x * BaseFps by {
      calc {
        mid * (BaseFps / fps);
        (x * fps) * (BaseFps / fps);
        x * ((BaseFps / fps) * fps);
        x * BaseFps;
      }
    }
  }

  /** The extra `25 / fps` factor moves the window: at 50 fps the interval
      `[1000, 1500)` becomes `[187, 437)`, while the same interval already
      at 25 fps, `[500, 750)`, stays `[500, 750)`. */
  lemma AdjustCentreAt50Fps()
    ensures AdjustInterval(1000, 1500, ImageFrames, 50.0) == (187, 437)
    ensures AdjustInterval(500, 750, ImageFrames, BaseFps) == (500, 750)
  {
    assert Rescale(1000, 50.0) == 500;
    assert Rescale(1500, 50.0) == 750;
    assert CentredStart(500, 750, ImageFrames, 50.0) == 187;
    assert CentredStart(500, 750, ImageFrames, BaseFps) == 500;
  }

  /** The window length chosen from the lower-cased label by first match:
      "cali", then "image", then "video"; `None` leaves the segment as is. */
  function TargetFrames(name: string): (t: Option<nat>)
    ensures t.Some? ==> t.value in {CalibrationFrames, ImageFrames, VideoFrames}
  {
    var l := Lower(name);
    if Contains(l, "cali") then Some(CalibrationFrames)
    else if Contains(l, "image") then Some(ImageFrames)
    else if Contains(l, "video") then Some(VideoFrames)
    else None
  }

  /** The dispatch in terms of occurrences in the lower-cased label. */
  lemma TargetFramesByOccurrence(name: string)
    ensures TargetFrames(name) == Some(CalibrationFrames) <==> exists i :: OccursAt(Lower(name), "cali", i)
    ensures TargetFrames(name) == Some(ImageFrames) <==>
      (!exists i :: OccursAt(Lower(name), "cali", i)) && (exists i :: OccursAt(Lower(name), "image", i))
    ensures TargetFrames(name) == Some(VideoFrames) <==>
      (!exists i :: OccursAt(Lower(name), "cali", i)) && (!exists i :: OccursAt(Lower(name), "image", i))
      && (exists i :: OccursAt(Lower(name), "video", i))
    ensures TargetFrames(name) == None <==>
      (!exists i :: OccursAt(Lower(name), "cali", i)) && (!exists i :: OccursAt(Lower(name), "image", i))
      && (!exists i :: OccursAt(Lower(name), "video", i))
  {
    ContainsIff(Lower(name), "cali");
    ContainsIff(Lower(name), "image");
    ContainsIff(Lower(name), "video");
  }

  /** Upper-case labels dispatch like lower-case ones. */
  lemma TargetFramesIgnoresCase()
    ensures TargetFrames("CALI") == Some(CalibrationFrames)
  {
    assert Lower("CALI") == "cali";
  }

  datatype SubmitError = LengthMismatch | ZeroDivision

  /** The decoded JSON body; an absent field is `None`. */
  datatype SubmitRequest = SubmitRequest(starts: Option<seq<int>>, ends: Option<seq<int>>,
                                         labels: Option<seq<string>>, fps: Option<real>)

  function OrEmpty<T>(o: Option<seq<T>>): seq<T>
  {
    if o.Some? then o.value else []
  }

  /** `float(data.get("fps", 25))`. */
  function FpsOf(req: SubmitRequest): real
  {
    if req.fps.Some? then req.fps.value else DefaultFps
  }

  /** The output entry for one input segment; the label keeps its case. */
  function AdjustedSegment(start: int, end: int, name: string, fps: real): (seg: Segment)
    requires TargetFrames(name).Some? ==> fps != 0.0
    ensures seg.name == name
    ensures TargetFrames(name).None? ==> seg.start == start && seg.end == end
    ensures TargetFrames(name).Some? ==> seg.end - seg.start == TargetFrames(name).value
  {
    match TargetFrames(name)
    case None => Segment(start, end, name)
    case Some(t) =>
      var r := AdjustInterval(start, end, t, fps);
      Segment(r.0, r.1, name)
  }

  /** Some label needs `adjust_interval`, which divides by `fps`. */
  predicate SomeTarget(labels: seq<string>)
  {
    exists i :: 0 <= i < |labels| && TargetFrames(labels[i]).Some?
  }

  /** What `submit_segments` produces for its three lists and rate. */
  function Submitted(starts: seq<int>, ends: seq<int>, labels: seq<string>, fps: real): (r: Result<seq<Segment>, SubmitError>)
    ensures r == Failure(LengthMismatch) <==> !(|starts| == |ends| == |labels|)
    ensures r.Success? ==> |r.value| == |starts|
  {
    if !(|starts| == |ends| == |labels|) then Failure(LengthMismatch)
    else if fps == 0.0 && SomeTarget(labels) then Failure(ZeroDivision)
    else Success(seq(|starts|, i requires 0 <= i < |starts| =>
      AdjustedSegment(starts[i], ends[i], labels[i], fps)))
  }

  /** A length mismatch is refused before anything is adjusted; otherwise
      there is one output per input, in input order, with its original
      name, and each matched segment spans exactly its target. */
  lemma {:induction false} SubmittedSpec(starts: seq<int>, ends: seq<int>, labels: seq<string>, fps: real)
    ensures Submitted(starts, ends, labels, fps) == Failure(LengthMismatch) <==> !(|starts| == |ends| == |labels|)
    ensures Submitted(starts, ends, labels, fps).Success? ==>
      var out := Submitted(starts, ends, labels, fps).value;
      |out| == |labels|
      && forall i :: 0 <= i < |out| ==>
        out[i].name == labels[i]
        && (TargetFrames(labels[i]).None? ==> out[i].start == starts[i] && out[i].end == ends[i])
        && (TargetFrames(labels[i]).Some? ==> out[i].end - out[i].start == TargetFrames(labels[i]).value)
        && (TargetFrames(labels[i]).Some? && fps == BaseFps ==>
              out[i].start == Trunc((starts[i] + ends[i] - TargetFrames(labels[i]).value) as real / 2.0))
  {
    if Submitted(starts, ends, labels, fps).Success? {
      var out := Submitted(starts, ends, labels, fps).value;
      forall i | 0 <= i < |out| && TargetFrames(labels[i]).Some? && fps == BaseFps
        ensures out[i].start == Trunc((starts[i] + ends[i] - TargetFrames(labels[i]).value) as real / 2.0)
      {
        AdjustAtBaseFps(starts[i], ends[i], TargetFrames(labels[i]).value);
      }
    }
  }

  /** A zero rate fails only when some name needs adjusting. */
  lemma ZeroFpsFailsOnlyWhenAdjusting(starts: seq<int>, ends: seq<int>, labels: seq<string>)
    requires |starts| == |ends| == |labels|
    ensures Submitted(starts, ends, labels, 0.0).Failure? <==> SomeTarget(labels)
  {
  }

  /** `submit_segments`: the length check, then the loop appending one
      adjusted segment per input. A `ZeroDivisionError` raised by
      `adjust_interval` at rate 0 is the `ZeroDivision` failure. */
  method SubmitSegments(req: SubmitRequest) returns (r: Result<seq<Segment>, SubmitError>)
    ensures r == Submitted(OrEmpty(req.starts), OrEmpty(req.ends), OrEmpty(req.labels), FpsOf(req))
  {
    var starts := OrEmpty(req.starts);
    var ends := OrEmpty(req.ends);
    var labels := OrEmpty(req.labels);
    var fps := FpsOf(req);
    if !(|starts| == |ends| == |labels|) {
      return Failure(LengthMismatch);
    }
    var adjusted: seq<Segment> := [];
    for i := 0 to |starts|
      invariant |adjusted| == i
      invariant forall q :: 0 <= q < i ==> TargetFrames(labels[q]).None? || fps != 0.0
      invariant forall q :: 0 <= q < i ==> adjusted[q] == AdjustedSegment(starts[q], ends[q], labels[q], fps)
    {
      var name := labels[i];
      var start, end := starts[i], ends[i];
      var target := TargetFrames(name);
      if target.Some? {
        if fps == 0.0 {
          return Failure(ZeroDivision);
        }
        var r := AdjustInterval(start, end, target.value, fps);
        start, end := r.0, r.1;
      }
      adjusted := adjusted + [Segment(start, end, labels[i])];
    }
    assert !(fps == 0.0 && SomeTarget(labels));
    assert adjusted == seq(|starts|, i requires 0 <= i < |starts| => AdjustedSegment(starts[i], ends[i], labels[i], fps));
    return Success(adjusted);
  }

  // ---------------------------------------------------------------------
  // upload_user_result
  // ---------------------------------------------------------------------

  const ResultExt: seq<string> := [".mp4", ".npy", ".json", ".json"]
  const ResultFilename: seq<string> := ["video.mp4", "gaze.npy", "segments_25fps.json", "tags.json"]

  datatype UploadError = InvalidIndex | NoFile | WrongExtension(expected: string)

  /** `upload_user_result(index)` with the uploaded file's name, `None`
      when the request has no `file` part; the result is the name the file
      is stored under. */
  function UploadUserResult(index: int, filename: Option<string>): (r: Result<string, UploadError>)
    ensures r == Failure(InvalidIndex) <==> !(0 <= index < |ResultExt|)
    ensures r == Failure(NoFile) <==> 0 <= index < |ResultExt| && filename.None?
    ensures r.Failure? && r.error.WrongExtension? <==>
      0 <= index < |ResultExt| && filename.Some? && !EndsWith(Lower(filename.value), ResultExt[index])
    ensures r.Success? ==> 0 <= index < |ResultFilename| && r.value == ResultFilename[index]
  {
    if index < 0 || index >= |ResultExt| then Failure(InvalidIndex)
    else if filename.None? then Failure(NoFile)
    else if !EndsWith(Lower(filename.value), ResultExt[index]) then Failure(WrongExtension(ResultExt[index]))
    else Success(ResultFilename[index])
  }

  /** Each slot's stored name ends with the extension that slot checks. */
  lemma StoredNameHasExtension(index: int)
    requires 0 <= index < |ResultFilename|
    ensures EndsWith(ResultFilename[index], ResultExt[index])
  {
    if index == 0 {
      assert "video.mp4"[5..] == ".mp4";
    } else if index == 1 {
      assert "gaze.npy"[4..] == ".npy";
    } else if index == 2 {
      assert "segments_25fps.json"[14..] == ".json";
    } else {
      assert "tags.json"[4..] == ".json";
    }
  }

  /** An accepted upload has the checked extension and is stored under a
      name with that extension. */
  lemma UploadKeepsExtension(index: int, filename: Option<string>)
    ensures UploadUserResult(index, filename).Success? ==>
      EndsWith(Lower(filename.value), ResultExt[index])
      && EndsWith(UploadUserResult(index, filename).value, ResultExt[index])
  {
    if UploadUserResult(index, filename).Success? {
      StoredNameHasExtension(index);
    }
  }

  /** The four slots are stored under four different names. */
  lemma UploadNamesDistinct()
    ensures forall i, j :: 0 <= i < j < |ResultFilename| ==> ResultFilename[i] != ResultFilename[j]
  {
    assert ResultFilename[0][0] == 'v' && ResultFilename[1][0] == 'g';
    assert ResultFilename[2][0] == 's' && ResultFilename[3][0] == 't';
  }

  /** The extension check ignores case. */
  lemma UploadIgnoresCase()
    ensures UploadUserResult(0, Some("A.MP4")) == Success("video.mp4")
  {
    assert Lower("A.MP4") == "a.mp4";
    assert EndsWith("a.mp4", ".mp4");
  }

  /** A file of another slot's type is refused with the expected extension. */
  lemma UploadWrongSlot()
    ensures UploadUserResult(1, Some("a.mp4")) == Failure(WrongExtension(".npy"))
  {
    assert Lower("a.mp4") == "a.mp4";
    assert "a.mp4"[1..] != ".npy";
  }

  // ---------------------------------------------------------------------
  // frame_config
  // ---------------------------------------------------------------------

  datatype FrameConfigError = NoImage | UnreadableImage | InvalidPoints | WrongPointCount

  /** The number of clicked points `frame_config` requires. */
  const ConfigPointCount: nat := 8

  /** The checks of `frame_config` before `extractFrame` runs: an image part
      must be present and decode, and the `points` field must evaluate to a
      sized value (`None` when evaluating it or taking its length raises)
      of exactly eight entries, which are passed on. */
  function FrameConfig<T>(hasImage: bool, readable: bool, points: Option<seq<T>>): (r: Result<seq<T>, FrameConfigError>)
    ensures r.Success? <==> hasImage && readable && points.Some? && |points.value| == ConfigPointCount
    ensures r.Success? ==> r.value == points.value
    ensures !hasImage ==> r == Failure(NoImage)
    ensures hasImage && !readable ==> r == Failure(UnreadableImage)
    ensures hasImage && readable && points.None? ==> r == Failure(InvalidPoints)
    ensures hasImage && readable && points.Some? && |points.value| != ConfigPointCount ==> r == Failure(WrongPointCount)
  {
    if !hasImage then Failure(NoImage)
    else if !readable then Failure(UnreadableImage)
    else if points.None? then Failure(InvalidPoints)
    else if |points.value| != ConfigPointCount then Failure(WrongPointCount)
    else Success(points.value)
  }
}
