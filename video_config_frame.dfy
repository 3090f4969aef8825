/** Tag matching, quad selection and per-frame gaze reprojection
    (backend/app/utils/videoConfigFrame.py). The AprilTag and ArUco
    detectors, video seeking and OpenCV's perspective solver are outside the
    model: a frame is given as its detection maps, a read that fails as
    `None`, and the projective transform as the function `project`. */
module VideoConfigFrame {
  import opened Common
  import opened Combinations

  // ---------------------------------------------------------------------
  // Data model
  // ---------------------------------------------------------------------

  datatype Family = AprilTag | Aruco

  /** The `(family, id)` key of the detection maps. */
  datatype TagKey = TagKey(family: Family, id: int)

  /** An integer image position: `tuple(int(c) for c in ...)`. */
  datatype Point = Point(x: int, y: int)

  /** A position with fractional coordinates (image or reference space). */
  datatype RPoint = RPoint(x: real, y: real)

  datatype Corners = Corners(c0: RPoint, c1: RPoint, c2: RPoint, c3: RPoint)

  /** What a detector reports for one tag: an AprilTag has corners and its
      own centre, an ArUco marker only its four corners. */
  datatype Detection = AprilDetection(corners: Corners, center: RPoint) | ArucoDetection(corners: Corners)

  /** The two detection maps of one frame. */
  datatype DetectionMaps = DetectionMaps(apriltags: map<TagKey, Detection>, arucos: map<TagKey, Detection>)

  /** Each map holds what its own detector returns: `detect_apriltags` keys
      AprilTag detections by `("apriltag", id)`, `detect_arucos` keys corner
      sets by `("aruco", id)`. */
  predicate FromDetectors(d: DetectionMaps)
  {
    && (forall k :: k in d.apriltags ==> k.family == AprilTag && d.apriltags[k].AprilDetection?)
    && (forall k :: k in d.arucos ==> k.family == Aruco && d.arucos[k].ArucoDetection?)
  }

  /** One frame's detections, as `detect_apriltags` and `detect_arucos` return them. */
  type Detections = d: DetectionMaps | FromDetectors(d) witness DetectionMaps(map[], map[])

  /** One entry of the reference file's `apriltags` or `arucos` list. */
  datatype RefTag = RefTag(id: int, center: RPoint)

  /** The calibration reference (`tags.json`); a missing list reads as empty. */
  datatype Reference = Reference(boundary: int, screenWidth: int, screenHeight: int,
                                 apriltags: seq<RefTag>, arucos: seq<RefTag>)

  /** A matched tag: reference centre `ref`, image point `img` (corner mean)
      and integer image `center`. */
  datatype Matched = Matched(family: Family, id: int, ref: RPoint, img: RPoint, center: Point)

  /** The four point pairs handed to the perspective solver. */
  datatype Correspondence = Correspondence(src: seq<RPoint>, dst: seq<RPoint>)

  // ---------------------------------------------------------------------
  // match_tags_from_json
  // ---------------------------------------------------------------------

  /** `np.mean(corners, axis=0)`. */
  function CornerMean(c: Corners): RPoint
  {
    RPoint((c.c0.x + c.c1.x + c.c2.x + c.c3.x) / 4.0, (c.c0.y + c.c1.y + c.c2.y + c.c3.y) / 4.0)
  }

  function TruncPoint(p: RPoint): Point
  {
    Point(Trunc(p.x), Trunc(p.y))
  }

  /** The integer centre: the detector's centre for an AprilTag, the corner
      mean for an ArUco marker, each truncated. */
  function CenterOf(d: Detection): Point
  {
    match d
    case AprilDetection(_, center) => TruncPoint(center)
    case ArucoDetection(corners) => TruncPoint(CornerMean(corners))
  }

  function MatchOf(family: Family, tag: RefTag, d: Detection): Matched
  {
    Matched(family, tag.id, tag.center, CornerMean(d.corners), CenterOf(d))
  }

  /** The matches of one reference list against one detection map, in
      reference order; entries whose key is not detected are dropped. */
  function Matches(family: Family, refs: seq<RefTag>, m: map<TagKey, Detection>): (r: seq<Matched>)
    ensures |r| <= |refs|
    ensures forall t :: 0 <= t < |r| ==> r[t].family == family && TagKey(family, r[t].id) in m
  {
    if refs == [] then []
    else
      var n := |refs| - 1;
      var key := TagKey(family, refs[n].id);
      Matches(family, refs[..n], m) + (if key in m then [MatchOf(family, refs[n], m[key])] else [])
  }

  /** Matching distributes over concatenation of the reference list, so the
      matches keep the reference order. */
  lemma {:induction false} MatchesAppend(family: Family, a: seq<RefTag>, b: seq<RefTag>, m: map<TagKey, Detection>)
    ensures Matches(family, a + b, m) == Matches(family, a, m) + Matches(family, b, m)
    decreases |b|
  {
    if b != [] {
      var n := |b| - 1;
      assert (a + b)[..|a + b| - 1] == a + b[..n];
      MatchesAppend(family, a, b[..n], m);
    } else {
      assert a + b == a;
    }
  }

  /** A single reference entry yields its match exactly when its key was detected. */
  lemma MatchesSingle(family: Family, tag: RefTag, m: map<TagKey, Detection>)
    ensures Matches(family, [tag], m) ==
      if TagKey(family, tag.id) in m then [MatchOf(family, tag, m[TagKey(family, tag.id)])] else []
  {
    assert [tag][..0] == [];
  }

  /** When every key is detected, match `t` belongs to reference entry `t`. */
  lemma {:induction false} MatchesAllDetected(family: Family, refs: seq<RefTag>, m: map<TagKey, Detection>, t: nat)
    requires forall q :: 0 <= q < |refs| ==> TagKey(family, refs[q].id) in m
    requires t < |refs|
    ensures |Matches(family, refs, m)| == |refs|
    ensures Matches(family, refs, m)[t] == MatchOf(family, refs[t], m[TagKey(family, refs[t].id)])
  {
    var n := |refs| - 1;
    if t < n {
      MatchesAllDetected(family, refs[..n], m, t);
    } else if n > 0 {
      MatchesAllDetected(family, refs[..n], m, 0);
    }
  }

  /** All matches of a frame: AprilTags first, then ArUco markers. */
  function MatchedTags(ref: Reference, det: Detections): seq<Matched>
  {
    Matches(AprilTag, ref.apriltags, det.apriltags) + Matches(Aruco, ref.arucos, det.arucos)
  }

  /** `match_tags_from_json`: two loops appending to `matched`. */
  method MatchTagsFromJson(ref: Reference, det: Detections) returns (matched: seq<Matched>)
    ensures matched == MatchedTags(ref, det)
  {
    matched := [];
    for i := 0 to |ref.apriltags|
      invariant matched == Matches(AprilTag, ref.apriltags[..i], det.apriltags)
    {
      var tag := ref.apriltags[i];
      var key := TagKey(AprilTag, tag.id);
      assert ref.apriltags[..i + 1][..i] == ref.apriltags[..i];
      if key in det.apriltags {
        matched := matched + [MatchOf(AprilTag, tag, det.apriltags[key])];
      }
    }
    assert ref.apriltags[..|ref.apriltags|] == ref.apriltags;
    ghost var april := matched;
    for i := 0 to |ref.arucos|
      invariant matched == april + Matches(Aruco, ref.arucos[..i], det.arucos)
    {
      var tag := ref.arucos[i];
      var key := TagKey(Aruco, tag.id);
      assert ref.arucos[..i + 1][..i] == ref.arucos[..i];
      if key in det.arucos {
        matched := matched + [MatchOf(Aruco, tag, det.arucos[key])];
      }
    }
    assert ref.arucos[..|ref.arucos|] == ref.arucos;
  }

  // ---------------------------------------------------------------------
  // calculate_polygon_area, on doubled areas
  // ---------------------------------------------------------------------

  function Abs(v: int): nat { if v < 0 then -v else v }

  /** The term `x[i]·y[i-1] - y[i]·x[i-1]` of the shoelace sum. */
  function Cross(p: Point, q: Point): int
  {
    p.x * q.y - p.y * q.x
  }

  /** `Σ_{i=1}^{n-1} Cross(pts[i], pts[i-1])`. */
  function ChainSum(pts: seq<Point>): int
  {
    if |pts| < 2 then 0
    else ChainSum(pts[..|pts| - 1]) + Cross(pts[|pts| - 1], pts[|pts| - 2])
  }

  /** `np.dot(x, np.roll(y, 1)) - np.dot(y, np.roll(x, 1))`: the rolled
      arrays pair `pts[0]` with `pts[n-1]` and every other `pts[i]` with
      `pts[i-1]`. */
  function ShoelaceSum(pts: seq<Point>): int
  {
    if pts == [] then 0 else Cross(pts[0], pts[|pts| - 1]) + ChainSum(pts)
  }

  /** Twice `calculate_polygon_area(pts)`; never negative. */
  function DoubledArea(pts: seq<Point>): nat
  {
    Abs(ShoelaceSum(pts))
  }

  /** `calculate_polygon_area(pts)` itself. */
  function PolygonArea(pts: seq<Point>): (a: real)
    ensures a >= 0.0
    ensures 2.0 * a == DoubledArea(pts) as real
  {
    DoubledArea(pts) as real / 2.0
  }

  lemma {:induction false} ChainSumFront(pts: seq<Point>)
    requires |pts| >= 2
    ensures ChainSum(pts) == Cross(pts[1], pts[0]) + ChainSum(pts[1..])
    decreases |pts|
  {
    if |pts| > 2 {
      var n := |pts| - 1;
      ChainSumFront(pts[..n]);
      assert pts[..n][1..] == pts[1..][..n - 1];
    }
  }

  /** Moving the first point to the end, `np.roll(points, -1)`, leaves the
      area unchanged: only the cyclic order of the points matters. */
  lemma {:induction false} ShoelaceRotate(pts: seq<Point>)
    requires pts != []
    ensures ShoelaceSum(pts[1..] + [pts[0]]) == ShoelaceSum(pts)
    ensures DoubledArea(pts[1..] + [pts[0]]) == DoubledArea(pts)
  {
    var r := pts[1..] + [pts[0]];
    if |pts| >= 2 {
      ChainSumFront(pts);
      assert r[..|r| - 1] == pts[1..];
    }
  }

  /** The doubled triangle area of `are_three_points_almost_collinear`. */
  function TriangleDoubledArea(p1: Point, p2: Point, p3: Point): nat
  {
    Abs(p1.x * (p2.y - p3.y) + p2.x * (p3.y - p1.y) + p3.x * (p1.y - p2.y))
  }

  /** The triangle formula is the shoelace area of the three points. */
  lemma TriangleIsShoelace(p1: Point, p2: Point, p3: Point)
    ensures TriangleDoubledArea(p1, p2, p3) == DoubledArea([p1, p2, p3])
  {
    assert [p1, p2, p3][..2] == [p1, p2];
    assert [p1, p2][..1] == [p1];
    assert ChainSum([p1, p2]) == Cross(p2, p1);
    assert ChainSum([p1, p2, p3]) == Cross(p2, p1) + Cross(p3, p2);
    assert ShoelaceSum([p1, p2, p3]) == -(p1.x * (p2.y - p3.y) + p2.x * (p3.y - p1.y) + p3.x * (p1.y - p2.y));
  }

  // ---------------------------------------------------------------------
  // are_three_points_almost_collinear
  // ---------------------------------------------------------------------

  /** Default `tol` of `are_three_points_almost_collinear`. */
  const CollinearTolerance: int := 1000

  /** Triangle `(i, j, k)` of the first four points has area below `tol`,
      that is doubled area below `2·tol`. */
  predicate ThinTriangle(pts: seq<Point>, tol: int, i: nat, j: nat, k: nat)
    requires i < j < k < 4 <= |pts|
  {
    TriangleDoubledArea(pts[i], pts[j], pts[k]) < 2 * tol
  }

  predicate NearlyCollinear(pts: seq<Point>, tol: int)
    requires |pts| >= 4
  {
    exists i: nat, j: nat, k: nat :: i < j < k < 4 && ThinTriangle(pts, tol, i, j, k)
  }

  /** `are_three_points_almost_collinear`: the nested loops return at the
      first thin triangle. */
  method AreThreePointsAlmostCollinear(pts: seq<Point>, tol: int) returns (b: bool)
    requires |pts| >= 4
    ensures b <==> NearlyCollinear(pts, tol)
  {
    for i := 0 to 4
      invariant forall a: nat, b: nat, c: nat :: a < i && a < b < c < 4 ==> !ThinTriangle(pts, tol, a, b, c)
    {
      for j := i + 1 to 4
        invariant forall b: nat, c: nat :: i < b < j && b < c < 4 ==> !ThinTriangle(pts, tol, i, b, c)
      {
        for k := j + 1 to 4
          invariant forall c: nat :: j < c < k ==> !ThinTriangle(pts, tol, i, j, c)
        {
          var area2 := TriangleDoubledArea(pts[i], pts[j], pts[k]);
          if area2 < 2 * tol {
            assert ThinTriangle(pts, tol, i, j, k);
            return true;
          }
        }
      }
    }
    return false;
  }

  // ---------------------------------------------------------------------
  // select_largest_quad
  // ---------------------------------------------------------------------

  /** `combinations(detected_tags, 4)` as position lists. */
  function Quads(n: nat): seq<seq<nat>>
  {
    Choose(4, 0, n)
  }

  predicate IndexesInto(tags: seq<Matched>, c: seq<nat>)
  {
    forall i :: 0 <= i < |c| ==> c[i] < |tags|
  }

  /** The `center`s of the tags a combination picks. */
  function Centers(tags: seq<Matched>, c: seq<nat>): (pts: seq<Point>)
    requires IndexesInto(tags, c)
    ensures |pts| == |c|
  {
    seq(|c|, i requires 0 <= i < |c| => tags[c[i]].center)
  }

  function ComboTags(tags: seq<Matched>, c: seq<nat>): (q: seq<Matched>)
    requires IndexesInto(tags, c)
    ensures |q| == |c|
  {
    seq(|c|, i requires 0 <= i < |c| => tags[c[i]])
  }

  /** Every listed combination has four positions into `tags`. */
  predicate WellFormed(tags: seq<Matched>, cs: seq<seq<nat>>)
  {
    forall t :: 0 <= t < |cs| ==> |cs[t]| == 4 && IndexesInto(tags, cs[t])
  }

  lemma QuadsWellFormed(tags: seq<Matched>)
    ensures WellFormed(tags, Quads(|tags|))
  {
    forall t | 0 <= t < |Quads(|tags|)|
      ensures |Quads(|tags|)[t]| == 4 && IndexesInto(tags, Quads(|tags|)[t])
    {
      ChooseSound(4, 0, |tags|, t);
    }
  }

  function QuadArea2(tags: seq<Matched>, c: seq<nat>): nat
    requires |c| == 4 && IndexesInto(tags, c)
  {
    DoubledArea(Centers(tags, c))
  }

  /** A quad the loop may keep: positive area and no thin triangle. */
  predicate Admissible(tags: seq<Matched>, c: seq<nat>)
    requires |c| == 4 && IndexesInto(tags, c)
  {
    QuadArea2(tags, c) > 0 && !NearlyCollinear(Centers(tags, c), CollinearTolerance)
  }

  /** The loop's state after scanning `cs`: the position in `cs` of the kept
      quad, replaced only by a strictly larger admissible one. */
  function Kept(tags: seq<Matched>, cs: seq<seq<nat>>): (w: Option<nat>)
    requires WellFormed(tags, cs)
    ensures w.Some? ==> w.value < |cs|
  {
    if cs == [] then None
    else
      var n := |cs| - 1;
      var prev := Kept(tags, cs[..n]);
      var best := if prev.Some? then QuadArea2(tags, cs[prev.value]) else 0;
      if QuadArea2(tags, cs[n]) > best && !NearlyCollinear(Centers(tags, cs[n]), CollinearTolerance)
      then Some(n) else prev
  }

  /** The loop's measure of a quad: its doubled area when admissible, 0
      otherwise. */
  function Score(tags: seq<Matched>, c: seq<nat>): nat
    requires |c| == 4 && IndexesInto(tags, c)
  {
    if Admissible(tags, c) then QuadArea2(tags, c) else 0
  }

  function Scores(tags: seq<Matched>, cs: seq<seq<nat>>): (r: seq<nat>)
    requires WellFormed(tags, cs)
    ensures |r| == |cs| && forall t :: 0 <= t < |cs| ==> r[t] == Score(tags, cs[t])
  {
    seq(|cs|, t requires 0 <= t < |cs| => Score(tags, cs[t]))
  }

  /** A scan that moves to a position only on a strictly larger value,
      starting from 0. */
  function FirstMax(s: seq<nat>): (w: Option<nat>)
    ensures w.Some? ==> w.value < |s|
  {
    if s == [] then None
    else
      var n := |s| - 1;
      var prev := FirstMax(s[..n]);
      var best := if prev.Some? then s[prev.value] else 0;
      if s[n] > best then Some(n) else prev
  }

  /** The scan finds the first position of the largest value, and nothing
      when every value is 0. */
  lemma {:induction false} FirstMaxIsFirstLargest(s: seq<nat>)
    ensures FirstMax(s).None? <==> forall v :: 0 <= v < |s| ==> s[v] == 0
    ensures FirstMax(s).Some? ==>
      var w := FirstMax(s).value;
      s[w] > 0 && (forall v :: 0 <= v < |s| ==> s[v] <= s[w]) && (forall v :: 0 <= v < w ==> s[v] < s[w])
  {
    if s != [] {
      var n := |s| - 1;
      FirstMaxIsFirstLargest(s[..n]);
      assert forall v :: 0 <= v < n ==> s[..n][v] == s[v];
    }
  }

  /** The loop's test `area > best_area and not collinear` is the scan of
      the scores. */
  lemma {:induction false} KeptIsFirstMax(tags: seq<Matched>, cs: seq<seq<nat>>)
    requires WellFormed(tags, cs)
    ensures Kept(tags, cs) == FirstMax(Scores(tags, cs))
  {
    if cs != [] {
      var n := |cs| - 1;
      var prefix := cs[..n];
      assert WellFormed(tags, prefix);
      KeptIsFirstMax(tags, prefix);
      assert Scores(tags, cs)[..n] == Scores(tags, prefix);
      FirstMaxIsFirstLargest(Scores(tags, prefix));
    }
  }

  /** The kept quad is admissible, no admissible quad is larger, every
      earlier admissible quad is strictly smaller (the first maximum wins),
      and nothing is kept exactly when no quad is admissible. */
  lemma KeptIsFirstLargest(tags: seq<Matched>, cs: seq<seq<nat>>)
    requires WellFormed(tags, cs)
    ensures Kept(tags, cs).None? <==> forall v :: 0 <= v < |cs| ==> !Admissible(tags, cs[v])
    ensures Kept(tags, cs).Some? ==>
      var w := Kept(tags, cs).value;
      Admissible(tags, cs[w])
      && (forall v :: 0 <= v < |cs| && Admissible(tags, cs[v]) ==> QuadArea2(tags, cs[v]) <= QuadArea2(tags, cs[w]))
      && (forall v :: 0 <= v < w && Admissible(tags, cs[v]) ==> QuadArea2(tags, cs[v]) < QuadArea2(tags, cs[w]))
  {
    KeptIsFirstMax(tags, cs);
    FirstMaxIsFirstLargest(Scores(tags, cs));
  }

  /** The positions of the quad `select_largest_quad` keeps. */
  function BestCombination(tags: seq<Matched>): (r: Option<seq<nat>>)
    ensures r.Some? ==> |r.value| == 4 && IndexesInto(tags, r.value)
  {
    QuadsWellFormed(tags);
    var w := Kept(tags, Quads(|tags|));
    if w.None? then None else Some(Quads(|tags|)[w.value])
  }

  /** The quad `select_largest_quad` returns, as a function of the tags. */
  function BestQuad(tags: seq<Matched>): (r: Option<seq<Matched>>)
    ensures r.Some? ==> |r.value| == 4 && forall i :: 0 <= i < 4 ==> r.value[i] in tags
  {
    match BestCombination(tags)
    case None => None
    case Some(c) => Some(ComboTags(tags, c))
  }

  /** Over all 4-subsets of the tags: `BestQuad` is `None` exactly when none
      is admissible; otherwise it is an admissible 4-subset, at least as
      large as every admissible 4-subset, and strictly larger than every
      admissible one that comes before it in `combinations` order. */
  lemma SelectedQuadIsLargest(tags: seq<Matched>)
    ensures BestQuad(tags).None? <==>
      forall c :: IsCombination(c, 4, 0, |tags|) ==> !Admissible(tags, c)
    ensures BestQuad(tags).Some? ==>
      exists w :: 0 <= w < |Quads(|tags|)| && IsCombination(Quads(|tags|)[w], 4, 0, |tags|)
        && BestQuad(tags).value == ComboTags(tags, Quads(|tags|)[w])
        && Admissible(tags, Quads(|tags|)[w])
        && (forall c :: IsCombination(c, 4, 0, |tags|) && Admissible(tags, c) ==>
              QuadArea2(tags, c) <= QuadArea2(tags, Quads(|tags|)[w]))
        && (forall v :: (0 <= v < w && IsCombination(Quads(|tags|)[v], 4, 0, |tags|)
              && Admissible(tags, Quads(|tags|)[v])) ==>
              QuadArea2(tags, Quads(|tags|)[v]) < QuadArea2(tags, Quads(|tags|)[w]))
  {
    var cs := Quads(|tags|);
    QuadsWellFormed(tags);
    KeptIsFirstLargest(tags, cs);
    forall c | IsCombination(c, 4, 0, |tags|)
      ensures exists v :: 0 <= v < |cs| && cs[v] == c
    {
      ChooseComplete(4, 0, |tags|, c);
    }
    if Kept(tags, cs).Some? {
      var w := Kept(tags, cs).value;
      ChooseSound(4, 0, |tags|, w);
      assert 0 <= w < |cs| && BestQuad(tags).value == ComboTags(tags, cs[w]);
    }
  }

  /** `BestQuad` is the quad at the position the scan keeps. */
  lemma BestQuadFromKept(tags: seq<Matched>, w: Option<nat>)
    requires WellFormed(tags, Quads(|tags|)) && w == Kept(tags, Quads(|tags|))
    ensures BestQuad(tags) == if w.None? then None else Some(ComboTags(tags, Quads(|tags|)[w.value]))
  {
  }

  /** Among admissible quads of the largest area the kept one is the
      lexicographically least, since `combinations` yields them in
      lexicographic order and only a strictly larger area replaces it:
      any other admissible quad is smaller or comes after it. */
  lemma SelectedQuadIsLexFirst(tags: seq<Matched>, c: seq<nat>)
    requires BestCombination(tags).Some?
    requires IsCombination(c, 4, 0, |tags|) && Admissible(tags, c)
    requires c != BestCombination(tags).value
    ensures QuadArea2(tags, c) < QuadArea2(tags, BestCombination(tags).value)
      || (QuadArea2(tags, c) == QuadArea2(tags, BestCombination(tags).value)
          && LexLess(BestCombination(tags).value, c))
  {
    var cs := Quads(|tags|);
    QuadsWellFormed(tags);
    var w := Kept(tags, cs).value;
    assert BestCombination(tags).value == cs[w];
    ChooseComplete(4, 0, |tags|, c);
    var v :| 0 <= v < |cs| && cs[v] == c;
    KeptBeatsOthers(tags, cs, v);
    if w < v {
      ChooseOrdered(4, 0, |tags|, w, v);
    }
  }

  /** Any other admissible position holds a smaller quad, or one of the
      same area that comes later. */
  lemma KeptBeatsOthers(tags: seq<Matched>, cs: seq<seq<nat>>, v: nat)
    requires WellFormed(tags, cs) && Kept(tags, cs).Some?
    requires v < |cs| && v != Kept(tags, cs).value && Admissible(tags, cs[v])
    ensures var w := Kept(tags, cs).value;
      QuadArea2(tags, cs[v]) < QuadArea2(tags, cs[w])
      || (QuadArea2(tags, cs[v]) == QuadArea2(tags, cs[w]) && w < v)
  {
    KeptIsFirstLargest(tags, cs);
  }

  /** The loop of `select_largest_quad` over a list of combinations: a
      quad replaces the kept one only when its area is strictly larger and
      it passes the collinearity test. */
  method ScanQuads(tags: seq<Matched>, cs: seq<seq<nat>>) returns (kept: Option<nat>, best: Option<seq<Matched>>)
    requires WellFormed(tags, cs)
    ensures kept == Kept(tags, cs)
    ensures best == if kept.None? then None else Some(ComboTags(tags, cs[kept.value]))
  {
    kept := None;
    var bestArea2 := 0;
    best := None;
    for t := 0 to |cs|
      invariant WellFormed(tags, cs[..t])
      invariant kept == Kept(tags, cs[..t])
      invariant bestArea2 == if kept.Some? then QuadArea2(tags, cs[kept.value]) else 0
      invariant best == if kept.None? then None else Some(ComboTags(tags, cs[kept.value]))
    {
      assert cs[..t + 1][..t] == cs[..t];
      var quad := cs[t];
      var pts := Centers(tags, quad);
      var area2 := DoubledArea(pts);
      if area2 > bestArea2 {
        var collinear := AreThreePointsAlmostCollinear(pts, CollinearTolerance);
        if !collinear {
          best := Some(ComboTags(tags, quad));
          kept := Some(t);
          bestArea2 := area2;
        }
      }
    }
    assert cs[..|cs|] == cs;
  }

  /** `select_largest_quad`: one pass over `combinations(detected_tags, 4)`
      keeping the first quad of largest area that passes the collinearity
      test. */
  method SelectLargestQuad(tags: seq<Matched>) returns (best: Option<seq<Matched>>)
    ensures best == BestQuad(tags)
  {
    var cs := Quads(|tags|);
    QuadsWellFormed(tags);
    var kept;
    kept, best := ScanQuads(tags, cs);
    BestQuadFromKept(tags, kept);
  }

  // ---------------------------------------------------------------------
  // detect_tags_and_get_warp
  // ---------------------------------------------------------------------

  /** The correspondence `detect_tags_and_get_warp` hands to the solver for
      one frame, or `None` when no transform is computed. */
  function WarpFor(ref: Reference, det: Detections): (r: Option<Correspondence>)
    ensures r.Some? ==> |MatchedTags(ref, det)| >= 4 && |r.value.src| == 4 && |r.value.dst| == 4
  {
    var tags := MatchedTags(ref, det);
    if |tags| < 4 then None
    else
      match BestQuad(tags)
      case None => None
      case Some(q) => Some(Correspondence(seq(|q|, i requires 0 <= i < |q| => q[i].img),
                                          seq(|q|, i requires 0 <= i < |q| => q[i].ref)))
  }

  /** A transform exists exactly when at least four tags match and some
      4-subset is admissible; its sources are the chosen tags' image points
      and its destinations their reference centres, pair by pair. */
  lemma WarpForSpec(ref: Reference, det: Detections)
    ensures WarpFor(ref, det).None? <==>
      |MatchedTags(ref, det)| < 4 || BestQuad(MatchedTags(ref, det)).None?
    ensures WarpFor(ref, det).Some? ==>
      var q := BestQuad(MatchedTags(ref, det)).value;
      var corr := WarpFor(ref, det).value;
      |q| == 4 && |corr.src| == 4 && |corr.dst| == 4
      && forall i :: 0 <= i < 4 ==> corr.src[i] == q[i].img && corr.dst[i] == q[i].ref
  {
    var tags := MatchedTags(ref, det);
    if |tags| >= 4 && BestQuad(tags).Some? {
      QuadsWellFormed(tags);
      KeptIsFirstLargest(tags, Quads(|tags|));
    }
  }

  /** `detect_tags_and_get_warp`, up to the call of the perspective solver. */
  method DetectTagsAndGetWarp(ref: Reference, det: Detections) returns (corr: Option<Correspondence>)
    ensures corr == WarpFor(ref, det)
  {
    var detected := MatchTagsFromJson(ref, det);
    if |detected| < 4 {
      return None;
    }
    var bestQuad := SelectLargestQuad(detected);
    if bestQuad.None? {
      return None;
    }
    var q := bestQuad.value;
    var src := seq(|q|, i requires 0 <= i < |q| => q[i].img);
    var dst := seq(|q|, i requires 0 <= i < |q| => q[i].ref);
    return Some(Correspondence(src, dst));
  }

  // ---------------------------------------------------------------------
  // gaze_process
  // ---------------------------------------------------------------------

  /** One coordinate of a raw gaze sample: a number or NaN. */
  datatype Coord = NaN | Num(v: real)

  /** A raw gaze sample `gaze[frame_idx]`: its x and y coordinates. */
  datatype GazeSample = GazeSample(x: Coord, y: Coord)

  /** What a frame of `gaze_process` can raise: `IndexError` when the gaze
      array has no row for the frame, `ValueError` when `int()` meets the
      NaN that a NaN y (with a numeric x) makes of the projected point. */
  datatype FrameError = IndexError | ValueError

  /** The point emitted for a frame that has no reprojected gaze. */
  const Sentinel: Point := Point(-1, -1)

  /** `gaze_process` skips the segments before this position. */
  const FirstProcessedSegment: nat := 13

  /** `segments[13:]`. */
  function Processed(segments: seq<Segment>): (r: seq<Segment>)
    ensures |segments| <= FirstProcessedSegment ==> r == []
    ensures |segments| > FirstProcessedSegment ==> |r| == |segments| - FirstProcessedSegment
  {
    if |segments| <= FirstProcessedSegment then [] else segments[FirstProcessedSegment..]
  }

  /** Python indexing of the gaze array, negative positions counting from
      the end; `None` is an `IndexError`. */
  function GazeAt(gaze: seq<GazeSample>, f: int): (r: Option<GazeSample>)
    ensures r.None? <==> f < -|gaze| || f >= |gaze|
  {
    if 0 <= f < |gaze| then Some(gaze[f])
    else if -|gaze| <= f < 0 then Some(gaze[|gaze| + f])
    else None
  }

  /** The outcome of frame `f`: the sentinel when the read fails, else when
      the gaze x is NaN, else when no transform is found; otherwise the
      truncated projection minus the boundary. */
  function FramePoint(video: int -> Option<Detections>, gaze: seq<GazeSample>, ref: Reference,
                      project: (Correspondence, RPoint) -> RPoint, f: int): (r: Result<Point, FrameError>)
  {
    match video(f)
    case None => Success(Sentinel)
    case Some(det) =>
      match GazeAt(gaze, f)
      case None => Failure(IndexError)
      case Some(g) =>
        if g.x.NaN? then Success(Sentinel)
        else
          match WarpFor(ref, det)
          case None => Success(Sentinel)
          case Some(corr) =>
            if g.y.NaN? then Failure(ValueError)
            else
              var w := project(corr, RPoint(g.x.v, g.y.v));
              Success(Point(Trunc(w.x) - ref.boundary, Trunc(w.y) - ref.boundary))
  }

  /** A frame raises exactly when it was read and either has no gaze row
      (`IndexError`) or has a numeric x, a NaN y and a transform
      (`ValueError`). */
  lemma FrameRaisesIff(video: int -> Option<Detections>, gaze: seq<GazeSample>, ref: Reference,
                       project: (Correspondence, RPoint) -> RPoint, f: int)
    ensures FramePoint(video, gaze, ref, project, f) == Failure(IndexError) <==>
      video(f).Some? && GazeAt(gaze, f).None?
    ensures FramePoint(video, gaze, ref, project, f) == Failure(ValueError) <==>
      video(f).Some? && GazeAt(gaze, f).Some? && GazeAt(gaze, f).value.x.Num?
      && GazeAt(gaze, f).value.y.NaN? && WarpFor(ref, video(f).value).Some?
  {
  }

  /** A NaN gaze x gives the sentinel whatever the two frames' detections
      and the y coordinate are. */
  lemma MissingGazeIgnoresDetection(video1: int -> Option<Detections>, video2: int -> Option<Detections>,
                                    gaze: seq<GazeSample>, ref: Reference,
                                    project: (Correspondence, RPoint) -> RPoint, f: int)
    requires GazeAt(gaze, f).Some? && GazeAt(gaze, f).value.x.NaN?
    requires video1(f).Some? && video2(f).Some?
    ensures FramePoint(video1, gaze, ref, project, f) == FramePoint(video2, gaze, ref, project, f) == Success(Sentinel)
  {
  }

  /** A frame whose point is not the sentinel was read, had a numeric gaze
      sample and a transform, and its point is the projection of that
      sample. */
  lemma NonSentinelIsProjection(video: int -> Option<Detections>, gaze: seq<GazeSample>, ref: Reference,
                                project: (Correspondence, RPoint) -> RPoint, f: int, p: Point)
    requires FramePoint(video, gaze, ref, project, f) == Success(p) && p != Sentinel
    ensures video(f).Some? && GazeAt(gaze, f).Some?
    ensures var g := GazeAt(gaze, f).value;
      g.x.Num? && g.y.Num? && WarpFor(ref, video(f).value).Some?
      && var w := project(WarpFor(ref, video(f).value).value, RPoint(g.x.v, g.y.v));
      p == Point(Trunc(w.x) - ref.boundary, Trunc(w.y) - ref.boundary)
  {
  }

  /** The frame outcomes of one run, as a function of the frame number. */
  function Outcomes(video: int -> Option<Detections>, gaze: seq<GazeSample>, ref: Reference,
                    project: (Correspondence, RPoint) -> RPoint): (run: int -> Result<Point, FrameError>)
    ensures forall f :: run(f) == FramePoint(video, gaze, ref, project, f)
  {
    f => FramePoint(video, gaze, ref, project, f)
  }

  /** No frame of `[start, end)` raises. */
  predicate Completes(run: int -> Result<Point, FrameError>, start: int, end: int)
  {
    forall f :: start <= f < end ==> run(f).Success?
  }

  /** The points a run of frames `[start, end)` collects when none raises:
      one per frame, in frame order. */
  function Collected(run: int -> Result<Point, FrameError>, start: int, end: int): (r: seq<Point>)
    requires Completes(run, start, end)
    ensures |r| == Max(end - start, 0)
    ensures forall i :: 0 <= i < |r| ==> run(start + i) == Success(r[i])
  {
    seq(Max(end - start, 0), i requires 0 <= i < Max(end - start, 0) => run(start + i).value)
  }

  /** One more frame appends its point. */
  lemma CollectedStep(run: int -> Result<Point, FrameError>, start: int, end: int)
    requires start <= end && Completes(run, start, end + 1)
    ensures Collected(run, start, end + 1) == Collected(run, start, end) + [run(end).value]
  {
    var longer := Collected(run, start, end + 1);
    var shorter := Collected(run, start, end);
    assert forall i :: 0 <= i < |shorter| ==> longer[i] == shorter[i];
  }

  /** The points saved for a segment none of whose frames raises. */
  function SegmentPoints(video: int -> Option<Detections>, gaze: seq<GazeSample>, ref: Reference,
                         project: (Correspondence, RPoint) -> RPoint, seg: Segment): (r: seq<Point>)
    requires Completes(Outcomes(video, gaze, ref, project), seg.start, seg.end)
    ensures |r| == Max(seg.end - seg.start, 0)
    ensures forall i :: 0 <= i < |r| ==> FramePoint(video, gaze, ref, project, seg.start + i) == Success(r[i])
  {
    Collected(Outcomes(video, gaze, ref, project), seg.start, seg.end)
  }

  /** One iteration of the frame loop of `gaze_process`: read the frame,
      look up the gaze sample, estimate the transform and reproject. */
  method ProcessFrame(video: int -> Option<Detections>, gaze: seq<GazeSample>, ref: Reference,
                      project: (Correspondence, RPoint) -> RPoint, f: int) returns (p: Result<Point, FrameError>)
    ensures p == FramePoint(video, gaze, ref, project, f)
  {
    var frame := video(f);
    if frame.None? {
      return Success(Sentinel);
    }
    var gp := GazeAt(gaze, f);
    if gp.None? {
      return Failure(IndexError);
    }
    if gp.value.x.NaN? {
      return Success(Sentinel);
    }
    var warp := DetectTagsAndGetWarp(ref, frame.value);
    if warp.None? {
      return Success(Sentinel);
    }
    if gp.value.y.NaN? {
      return Failure(ValueError);
    }
    var w := project(warp.value, RPoint(gp.value.x.v, gp.value.y.v));
    var b := ref.boundary;
    return Success(Point(Trunc(w.x) - b, Trunc(w.y) - b));
  }

  /** `start <= f < end` is the first frame of `[start, end)` that raises,
      and it raises `e`. */
  predicate FirstRaise(run: int -> Result<Point, FrameError>, start: int, end: int, f: int, e: FrameError)
  {
    start <= f < end && Completes(run, start, f) && run(f) == Failure(e)
  }

  /** The frame loop of `gaze_process` for one segment: the error of its
      first raising frame, otherwise the segment's points. */
  method ProcessSegment(video: int -> Option<Detections>, gaze: seq<GazeSample>, ref: Reference,
                        project: (Correspondence, RPoint) -> RPoint, seg: Segment)
    returns (r: Result<seq<Point>, FrameError>)
    ensures var run := Outcomes(video, gaze, ref, project);
      (r.Success? <==> Completes(run, seg.start, seg.end))
      && (r.Success? ==> r.value == SegmentPoints(video, gaze, ref, project, seg))
      && (r.Failure? ==> exists f :: FirstRaise(run, seg.start, seg.end, f, r.error))
  {
    ghost var run := Outcomes(video, gaze, ref, project);
    var start, end := seg.start, seg.end;
    var warpedPoints := [];
    var f := start;
    while f < end
      invariant start <= f && (f <= end || f == start)
      invariant Completes(run, start, f)
      invariant warpedPoints == Collected(run, start, f)
    {
      var p := ProcessFrame(video, gaze, ref, project, f);
      if p.Failure? {
        assert FirstRaise(run, start, end, f, p.error);
        return Failure(p.error);
      }
      CollectedStep(run, start, f);
      warpedPoints := warpedPoints + [p.value];
      f := f + 1;
    }
    if start >= end {
      assert |Collected(run, start, end)| == 0;
    }
    return Success(warpedPoints);
  }

  /** `gaze_process`: for every segment from position 13 on, one point per
      frame of `[start, end)` in frame order, saved under the segment's
      label. `saved` lists the saves in the order they happen; `error` is
      what the segment after the last save raised, if any. */
  method GazeProcess(video: int -> Option<Detections>, gaze: seq<GazeSample>, segments: seq<Segment>,
                     ref: Reference, project: (Correspondence, RPoint) -> RPoint)
    returns (saved: seq<(string, seq<Point>)>, error: Option<FrameError>)
    ensures var todo := Processed(segments);
      var run := Outcomes(video, gaze, ref, project);
      |saved| <= |todo|
      && (error.None? <==> |saved| == |todo|)
      && (error.Some? ==> exists f :: FirstRaise(run, todo[|saved|].start, todo[|saved|].end, f, error.value))
    ensures var todo := Processed(segments);
      var run := Outcomes(video, gaze, ref, project);
      forall s :: 0 <= s < |saved| ==>
        Completes(run, todo[s].start, todo[s].end)
        && saved[s] == (todo[s].name, SegmentPoints(video, gaze, ref, project, todo[s]))
  {
    var todo := Processed(segments);
    ghost var run := Outcomes(video, gaze, ref, project);
    saved := [];
    for s := 0 to |todo|
      invariant |saved| == s
      invariant forall s' :: 0 <= s' < s ==>
        Completes(run, todo[s'].start, todo[s'].end)
        && saved[s'] == (todo[s'].name, SegmentPoints(video, gaze, ref, project, todo[s']))
    {
      var seg := todo[s];
      var warpedPoints := ProcessSegment(video, gaze, ref, project, seg);
      if warpedPoints.Failure? {
        return saved, Some(warpedPoints.error);
      }
      saved := saved + [(seg.name, warpedPoints.value)];
    }
    error := None;
  }
}
