/** Presence timelines, gap-bridging and segment extraction
    (backend/app/utils/videoSegment.py). Video decoding and ArUco detection
    are outside the model: each frame is given as the list of marker ids the
    detector returned for it. */
module VideoSegment {
  import opened Common

  /** One sample of a presence signal. */
  type Bit = b: int | 0 <= b <= 1

  /** Default `gap` of `merge_intervals`, used by `compute_segment_indices`. */
  const DefaultGap: int := 50

  /** A marker counts as present in a frame when its id is reported more than this often. */
  const PresenceThreshold: nat := 2

  // ---------------------------------------------------------------------
  // Presence rule (detect_markers)
  // ---------------------------------------------------------------------

  /** Python's `ids.count(x)`. */
  function Count(ids: seq<int>, x: int): (c: nat)
    ensures c == multiset(ids)[x]
  {
    if ids == [] then 0
    else
      assert ids == [ids[0]] + ids[1..];
      (if ids[0] == x then 1 else 0) + Count(ids[1..], x)
  }

  /** The bit appended for one frame and one marker id. */
  function PresenceBit(ids: seq<int>, marker: int): (b: Bit)
    ensures b == 1 <==> multiset(ids)[marker] > PresenceThreshold
  {
    if Count(ids, marker) > PresenceThreshold then 1 else 0
  }

  /** The per-frame loop of `detect_markers`: one bit per frame read for
      marker 0 and one for marker 1. `frames[f]` is the id list of frame f;
      the first failed read ends `frames`. */
  method DetectMarkers(frames: seq<seq<int>>) returns (marker0: seq<Bit>, marker1: seq<Bit>)
    ensures |marker0| == |frames| && |marker1| == |frames|
    ensures forall f :: 0 <= f < |frames| ==>
      (marker0[f] == 1 <==> multiset(frames[f])[0] > PresenceThreshold)
    ensures forall f :: 0 <= f < |frames| ==>
      (marker1[f] == 1 <==> multiset(frames[f])[1] > PresenceThreshold)
  {
    marker0, marker1 := [], [];
    var f := 0;
    while f < |frames|
      invariant 0 <= f <= |frames|
      invariant |marker0| == f && |marker1| == f
      invariant forall g :: 0 <= g < f ==> marker0[g] == PresenceBit(frames[g], 0)
      invariant forall g :: 0 <= g < f ==> marker1[g] == PresenceBit(frames[g], 1)
    {
      var ids := frames[f];
      marker0 := marker0 + [PresenceBit(ids, 0)];
      marker1 := marker1 + [PresenceBit(ids, 1)];
      f := f + 1;
    }
  }

  // ---------------------------------------------------------------------
  // Gap bridging (merge_intervals)
  // ---------------------------------------------------------------------

  /** First position of the maximal run of 0s that contains `p`. */
  function ZeroRunStart(s: seq<Bit>, p: nat): (lo: nat)
    requires p < |s| && s[p] == 0
    ensures lo <= p
    ensures forall q :: lo <= q <= p ==> s[q] == 0
    ensures lo == 0 || s[lo - 1] == 1
  {
    if p == 0 || s[p - 1] == 1 then p else ZeroRunStart(s, p - 1)
  }

  /** One past the last position of the run of 0s that begins at or covers `p`. */
  function ZeroRunEnd(s: seq<Bit>, p: nat): (hi: nat)
    requires p <= |s|
    ensures p <= hi <= |s|
    ensures forall q :: p <= q < hi ==> s[q] == 0
    ensures hi == |s| || s[hi] == 1
    decreases |s| - p
  {
    if p == |s| || s[p] == 1 then p else ZeroRunEnd(s, p + 1)
  }

  /** `[lo, hi)` is a maximal run of 0s of `s`. */
  predicate IsZeroRun(s: seq<Bit>, lo: nat, hi: nat)
  {
    lo < hi <= |s|
    && (forall q :: lo <= q < hi ==> s[q] == 0)
    && (lo == 0 || s[lo - 1] == 1)
    && (hi == |s| || s[hi] == 1)
  }

  lemma {:induction false} ZeroRunStartIs(s: seq<Bit>, p: nat, lo: nat)
    requires p < |s| && lo <= p
    requires forall q :: lo <= q <= p ==> s[q] == 0
    requires lo == 0 || s[lo - 1] == 1
    ensures ZeroRunStart(s, p) == lo
    decreases p - lo
  {
    if p > lo {
      ZeroRunStartIs(s, p - 1, lo);
    }
  }

  lemma {:induction false} ZeroRunEndIs(s: seq<Bit>, p: nat, hi: nat)
    requires p <= hi <= |s|
    requires forall q :: p <= q < hi ==> s[q] == 0
    requires hi == |s| || s[hi] == 1
    ensures ZeroRunEnd(s, p) == hi
    decreases hi - p
  {
    if p < hi {
      ZeroRunEndIs(s, p + 1, hi);
    }
  }

  /** Position `p` lies in a run of 0s that has a 1 on both sides and is at
      most `gap` long: exactly the runs `merge_intervals` fills. */
  predicate Bridged(s: seq<Bit>, gap: int, p: nat)
    requires p < |s|
  {
    s[p] == 0 &&
    var lo, hi := ZeroRunStart(s, p), ZeroRunEnd(s, p);
    lo > 0 && hi < |s| && hi - lo <= gap
  }

  /** The signal `merge_intervals(s, gap)` returns, defined position by position. */
  function Merged(s: seq<Bit>, gap: int): (r: seq<Bit>)
    ensures |r| == |s|
  {
    seq<Bit>(|s|, p requires 0 <= p < |s| => if s[p] == 1 || Bridged(s, gap, p) then 1 else 0)
  }

  /** `merge_intervals`: scans a copy of the signal; after each run of 1s it
      measures the following run of 0s and fills it when a 1 follows and the
      run is at most `gap` long. The argument itself is a value and so is
      never changed. */
  method MergeIntervals(binary: seq<Bit>, gap: int) returns (merged: seq<Bit>)
    ensures merged == Merged(binary, gap)
  {
    merged := binary;
    var i := 0;
    while i < |merged|
      invariant 0 <= i <= |merged| == |binary|
      invariant forall q :: 0 <= q < i ==> merged[q] == Merged(binary, gap)[q]
      invariant forall q :: i <= q < |binary| ==> merged[q] == binary[q]
      invariant i < |binary| && binary[i] == 0 ==> forall q :: 0 <= q < i ==> binary[q] == 0
      decreases |merged| - i
    {
      if merged[i] == 1 {
        var j := i + 1;
        while j < |merged| && merged[j] == 1
          invariant i < j <= |merged|
          invariant forall q :: i <= q < j ==> binary[q] == 1
        {
          j := j + 1;
        }
        var gapStart := j;
        while j < |merged| && merged[j] == 0
          invariant gapStart <= j <= |merged|
          invariant forall q :: gapStart <= q < j ==> binary[q] == 0
        {
          j := j + 1;
        }
        assert j == |binary| || binary[j] == 1;
        if j < |merged| && j - gapStart <= gap {
          for k := gapStart to j
            invariant |merged| == |binary|
            invariant forall q :: 0 <= q < i ==> merged[q] == Merged(binary, gap)[q]
            invariant forall q :: gapStart <= q < k ==> merged[q] == 1
            invariant forall q :: i <= q < gapStart || k <= q < |binary| ==> merged[q] == binary[q]
          {
            merged := merged[k := 1];
          }
        }
        forall q | gapStart <= q < j
          ensures Merged(binary, gap)[q] == merged[q]
        {
          ZeroRunStartIs(binary, q, gapStart);
          ZeroRunEndIs(binary, q, j);
        }
        i := j;
      } else {
        ZeroRunStartIs(binary, i, 0);
        i := i + 1;
      }
    }
  }

  /** Every 1 of the input is still 1, and a 0 becomes 1 exactly when its
      maximal run of 0s is interior and at most `gap` long. */
  lemma {:induction false} MergedRun(s: seq<Bit>, gap: int, lo: nat, hi: nat, q: nat)
    requires IsZeroRun(s, lo, hi) && lo <= q < hi
    ensures Merged(s, gap)[q] == if lo > 0 && hi < |s| && hi - lo <= gap then 1 else 0
  {
    ZeroRunStartIs(s, q, lo);
    ZeroRunEndIs(s, q, hi);
  }

  lemma MergedKeepsOnes(s: seq<Bit>, gap: int, p: nat)
    requires p < |s| && s[p] == 1
    ensures Merged(s, gap)[p] == 1
  {
  }

  /** Zeros before the first 1 and after the last 1 are never filled. */
  lemma {:induction false} MergedKeepsBorders(s: seq<Bit>, gap: int, p: nat)
    requires p < |s|
    requires (forall q :: 0 <= q <= p ==> s[q] == 0) || (forall q :: p <= q < |s| ==> s[q] == 0)
    ensures Merged(s, gap)[p] == 0
  {
    if forall q :: 0 <= q <= p ==> s[q] == 0 {
      ZeroRunStartIs(s, p, 0);
    } else {
      ZeroRunEndIs(s, p, |s|);
    }
  }

  /** A 0 that survives merging sits in a run that survives whole, with
      the same borders, so merging again leaves it 0. */
  lemma {:induction false} MergedStableAt(s: seq<Bit>, gap: int, p: nat)
    requires p < |s| && Merged(s, gap)[p] == 0
    ensures Merged(Merged(s, gap), gap)[p] == 0
  {
    var m := Merged(s, gap);
    var lo, hi := ZeroRunStart(s, p), ZeroRunEnd(s, p);
    forall q | lo <= q < hi
      ensures m[q] == 0
    {
      ZeroRunStartIs(s, q, lo);
      ZeroRunEndIs(s, q, hi);
    }
    ZeroRunStartIs(m, p, lo);
    ZeroRunEndIs(m, p, hi);
  }

  /** Merging an already merged signal with the same gap changes nothing. */
  lemma {:induction false} MergedIdempotent(s: seq<Bit>, gap: int)
    ensures Merged(Merged(s, gap), gap) == Merged(s, gap)
  {
    var m := Merged(s, gap);
    forall p | 0 <= p < |s|
      ensures Merged(m, gap)[p] == m[p]
    {
      if m[p] == 0 {
        MergedStableAt(s, gap, p);
      }
    }
  }

  // ---------------------------------------------------------------------
  // Edges (compute_segment_indices)
  // ---------------------------------------------------------------------

  predicate StrictlyIncreasing(r: seq<nat>)
  {
    forall a, b :: 0 <= a < b < |r| ==> r[a] < r[b]
  }

  /** The positions `k >= 1` where `s` steps from `from` to the other value:
      `np.where(np.diff(s) < 0)[0] + 1` for `from == 1` and
      `np.where(np.diff(s) > 0)[0] + 1` for `from == 0`. */
  function Transitions(s: seq<Bit>, from: Bit): (r: seq<nat>)
    ensures forall t :: 0 <= t < |r| ==> 1 <= r[t] < |s| && s[r[t] - 1] == from && s[r[t]] != from
    ensures forall k :: 1 <= k < |s| && s[k - 1] == from && s[k] != from ==> k in r
    ensures StrictlyIncreasing(r)
    decreases |s|
  {
    if |s| < 2 then []
    else
      var n := |s| - 1;
      Transitions(s[..n], from) + (if s[n - 1] == from && s[n] != from then [n] else [])
  }

  /** The first `n` edges are still increasing edges of `s`. */
  lemma EdgesPrefix(s: seq<Bit>, from: Bit, n: nat)
    requires n <= |Transitions(s, from)|
    ensures var r := Transitions(s, from)[..n];
      StrictlyIncreasing(r)
      && forall t :: 0 <= t < n ==> 1 <= r[t] < |s| && s[r[t] - 1] == from && s[r[t]] == 1 - from
  {
    var full := Transitions(s, from);
    assert forall t :: 0 <= t < n ==> full[..n][t] == full[t];
  }

  /** `compute_segment_indices`: merge both signals with the default gap,
      take marker 0's falling edges as starts and marker 1's rising edges as
      ends, and keep the first `min` of each. */
  method ComputeSegmentIndices(marker0: seq<Bit>, marker1: seq<Bit>)
    returns (m0: seq<Bit>, m1: seq<Bit>, starts: seq<nat>, ends: seq<nat>)
    ensures m0 == Merged(marker0, DefaultGap) && m1 == Merged(marker1, DefaultGap)
    ensures |starts| == |ends| == Min(|Transitions(m0, 1)|, |Transitions(m1, 0)|)
    ensures starts == Transitions(m0, 1)[..|starts|]
    ensures ends == Transitions(m1, 0)[..|ends|]
    ensures StrictlyIncreasing(starts) && StrictlyIncreasing(ends)
    ensures forall t :: 0 <= t < |starts| ==> 1 <= starts[t] < |m0| && m0[starts[t] - 1] == 1 && m0[starts[t]] == 0
    ensures forall t :: 0 <= t < |ends| ==> 1 <= ends[t] < |m1| && m1[ends[t] - 1] == 0 && m1[ends[t]] == 1
  {
    m0 := MergeIntervals(marker0, DefaultGap);
    m1 := MergeIntervals(marker1, DefaultGap);
    var allStarts := Transitions(m0, 1);
    var allEnds := Transitions(m1, 0);
    var n := Min(|allStarts|, |allEnds|);
    starts := allStarts[..n];
    ends := allEnds[..n];
    PairedEdges(m0, m1, starts, ends);
  }

  /** The first `n` falling edges of one signal and rising edges of the
      other, where `n` is the smaller of the two edge counts. */
  lemma PairedEdges(m0: seq<Bit>, m1: seq<Bit>, starts: seq<nat>, ends: seq<nat>)
    requires |starts| == |ends| == Min(|Transitions(m0, 1)|, |Transitions(m1, 0)|)
    requires starts == Transitions(m0, 1)[..|starts|] && ends == Transitions(m1, 0)[..|ends|]
    ensures StrictlyIncreasing(starts) && StrictlyIncreasing(ends)
    ensures forall t :: 0 <= t < |starts| ==> 1 <= starts[t] < |m0| && m0[starts[t] - 1] == 1 && m0[starts[t]] == 0
    ensures forall t :: 0 <= t < |ends| ==> 1 <= ends[t] < |m1| && m1[ends[t] - 1] == 0 && m1[ends[t]] == 1
  {
    EdgesPrefix(m0, 1, |starts|);
    EdgesPrefix(m1, 0, |ends|);
  }

  // ---------------------------------------------------------------------
  // Labels (assign_labels)
  // ---------------------------------------------------------------------

  const LightNames: map<char, string> := map['A' := "On", 'B' := "Off", 'C' := "Dim"]
  const HeadNames: map<char, string> := map['A' := "Center", 'B' := "Below", 'C' := "Free"]
  const MediaNames: map<char, string> := map['A' := "Image", 'B' := "Video"]

  /** Label of the first (calibration) segment. */
  const CalibrationLabel: string := "cali"

  datatype LabelError = UnknownCode

  function Name(names: map<char, string>, code: char): string
  {
    if code in names then names[code] else ""
  }

  function Label(l: char, h: char, m: char): string
  {
    Name(LightNames, l) + "-" + Name(HeadNames, h) + "-" + Name(MediaNames, m)
  }

  /** Every code of `codes` is a key of `names`. */
  predicate AllKnown(codes: string, names: map<char, string>)
  {
    forall i :: 0 <= i < |codes| ==> codes[i] in names
  }

  /** All codes are keys of their maps. */
  predicate KnownCodes(light: string, head: string, media: string)
  {
    AllKnown(light, LightNames) && AllKnown(head, HeadNames) && AllKnown(media, MediaNames)
  }

  /** The codes one run of the innermost loop looks up are known. */
  predicate RowKnown(l: char, h: char, media: string)
  {
    l in LightNames && h in HeadNames && AllKnown(media, MediaNames)
  }

  /** The codes one run of the middle loop looks up are known. */
  predicate BlockKnown(l: char, head: string, media: string)
  {
    l in LightNames && AllKnown(head, HeadNames) && AllKnown(media, MediaNames)
  }

  /** A block is known exactly when each of its rows is (for a non-empty
      head list). */
  lemma RowUnknown(l: char, head: string, media: string, j: nat)
    requires j < |head| && !RowKnown(l, head[j], media)
    ensures !BlockKnown(l, head, media)
  {
  }

  lemma RowsKnown(l: char, head: string, media: string)
    requires |head| > 0 && forall b :: 0 <= b < |head| ==> RowKnown(l, head[b], media)
    ensures BlockKnown(l, head, media)
  {
    assert RowKnown(l, head[0], media);
  }

  /** The codes are known exactly when each light block is (for a non-empty
      light list). */
  lemma BlockUnknown(light: string, head: string, media: string, i: nat)
    requires i < |light| && !BlockKnown(light[i], head, media)
    ensures !KnownCodes(light, head, media)
  {
  }

  lemma BlocksKnown(light: string, head: string, media: string)
    requires |light| > 0 && forall a :: 0 <= a < |light| ==> BlockKnown(light[a], head, media)
    ensures KnownCodes(light, head, media)
  {
    assert BlockKnown(light[0], head, media);
  }

  /** Appending the next piece to an accumulated prefix. */
  lemma ExtendBy<T>(base: seq<T>, prefix: seq<T>, next: seq<T>, longer: seq<T>)
    requires longer == prefix + next
    ensures (base + prefix) + next == base + longer
  {
  }

  /** The nested loops look up every code of every list exactly when none
      of the three lists is empty, so that is when an unknown code raises. */
  predicate LookupFails(light: string, head: string, media: string)
  {
    |light| > 0 && |head| > 0 && |media| > 0 && !KnownCodes(light, head, media)
  }

  /** The labels of the innermost loop (over `media`). */
  function MediaRow<T>(f: (char, char, char) -> T, l: char, h: char, media: string): (r: seq<T>)
    ensures |r| == |media|
    ensures forall k :: 0 <= k < |media| ==> r[k] == f(l, h, media[k])
  {
    seq(|media|, k requires 0 <= k < |media| => f(l, h, media[k]))
  }

  /** The labels of the middle loop (over `head`) for one light code. */
  function HeadBlock<T>(f: (char, char, char) -> T, l: char, head: string, media: string): seq<T>
  {
    if head == [] then [] else HeadBlock(f, l, head[..|head| - 1], media) + MediaRow(f, l, head[|head| - 1], media)
  }

  /** The labels of the outer loop (over `light`). */
  function ProductLabels<T>(f: (char, char, char) -> T, light: string, head: string, media: string): seq<T>
  {
    if light == [] then [] else ProductLabels(f, light[..|light| - 1], head, media) + HeadBlock(f, light[|light| - 1], head, media)
  }

  /** `a · b` by repeated addition, the shape in which the block lengths
      grow. */
  function Times(a: nat, b: nat): nat
  {
    if a == 0 then 0 else Times(a - 1, b) + b
  }

  lemma {:induction false} TimesIsProduct(a: nat, b: nat)
    ensures Times(a, b) == a * b
  {
    if a > 0 {
      TimesIsProduct(a - 1, b);
    }
  }

  lemma TimesNested(a: nat, b: nat, c: nat)
    ensures Times(a, Times(b, c)) == a * (b * c)
  {
    TimesIsProduct(b, c);
    TimesIsProduct(a, Times(b, c));
  }

  lemma {:induction false} HeadBlockLengthTimes<T>(f: (char, char, char) -> T, l: char, head: string, media: string)
    ensures |HeadBlock(f, l, head, media)| == Times(|head|, |media|)
  {
    if head != [] {
      HeadBlockLengthTimes(f, l, head[..|head| - 1], media);
    }
  }

  /** One light code yields `|head| · |media|` labels. */
  lemma HeadBlockLength<T>(f: (char, char, char) -> T, l: char, head: string, media: string)
    ensures |HeadBlock(f, l, head, media)| == |head| * |media|
  {
    HeadBlockLengthTimes(f, l, head, media);
    TimesIsProduct(|head|, |media|);
  }

  lemma {:induction false} ProductLabelsLengthTimes<T>(f: (char, char, char) -> T, light: string, head: string, media: string)
    ensures |ProductLabels(f, light, head, media)| == Times(|light|, Times(|head|, |media|))
  {
    if light != [] {
      ProductLabelsLengthTimes(f, light[..|light| - 1], head, media);
      HeadBlockLengthTimes(f, light[|light| - 1], head, media);
    }
  }

  /** The product holds `|light| · |head| · |media|` labels. */
  lemma ProductLabelsLength<T>(f: (char, char, char) -> T, light: string, head: string, media: string)
    ensures |ProductLabels(f, light, head, media)| == |light| * (|head| * |media|)
  {
    ProductLabelsLengthTimes(f, light, head, media);
    TimesNested(|light|, |head|, |media|);
  }

  lemma HeadPrefixLength<T>(f: (char, char, char) -> T, l: char, head: string, media: string, j: nat)
    requires j <= |head|
    ensures |HeadBlock(f, l, head[..j], media)| == j * |media|
  {
    HeadBlockLength(f, l, head[..j], media);
    assert |head[..j]| == j;
  }

  lemma ProductPrefixLength<T>(f: (char, char, char) -> T, light: string, head: string, media: string, i: nat)
    requires i <= |light|
    ensures |ProductLabels(f, light[..i], head, media)| == i * (|head| * |media|)
  {
    ProductLabelsLength(f, light[..i], head, media);
    assert |light[..i]| == i;
  }

  /** The labels of the first `a` head codes come first in a block. */
  lemma {:induction false} HeadBlockPrefix<T>(f: (char, char, char) -> T, l: char, head: string, media: string, a: nat)
    requires a <= |head|
    ensures HeadBlock(f, l, head[..a], media) <= HeadBlock(f, l, head, media)
    decreases |head|
  {
    if a < |head| {
      var shorter := head[..|head| - 1];
      HeadBlockPrefix(f, l, shorter, media, a);
      assert shorter[..a] == head[..a];
    } else {
      assert head[..a] == head;
    }
  }

  /** The labels of the first `a` light codes come first in the product. */
  lemma {:induction false} ProductLabelsPrefix<T>(f: (char, char, char) -> T, light: string, head: string, media: string, a: nat)
    requires a <= |light|
    ensures ProductLabels(f, light[..a], head, media) <= ProductLabels(f, light, head, media)
    decreases |light|
  {
    if a < |light| {
      var shorter := light[..|light| - 1];
      ProductLabelsPrefix(f, shorter, head, media, a);
      assert shorter[..a] == light[..a];
    } else {
      assert light[..a] == light;
    }
  }

  /** Indexing past a prefix of a concatenation. */
  lemma ConcatIndex<T>(a: seq<T>, b: seq<T>, c: nat)
    requires c < |b|
    ensures |a| + c < |a + b| && (a + b)[|a| + c] == b[c]
  {
  }

  /** A prefix agrees with the whole on its own positions. */
  lemma PrefixIndex<T>(whole: seq<T>, part: seq<T>, x: nat)
    requires part <= whole && x < |part|
    ensures x < |whole| && whole[x] == part[x]
  {
  }

  /** Within a block, label `k` of head code `j` follows the labels of the
      head codes before `j`. */
  lemma HeadBlockAtPrefix<T>(f: (char, char, char) -> T, l: char, head: string, media: string, j: nat, k: nat)
    requires j < |head| && k < |media|
    ensures |HeadBlock(f, l, head[..j], media)| + k < |HeadBlock(f, l, head, media)|
    ensures HeadBlock(f, l, head, media)[|HeadBlock(f, l, head[..j], media)| + k] == f(l, head[j], media[k])
  {
    var before, row := HeadBlock(f, l, head[..j], media), MediaRow(f, l, head[j], media);
    HeadBlockStep(f, l, head, media, j);
    ConcatIndex(before, row, k);
    HeadBlockPrefix(f, l, head, media, j + 1);
    PrefixIndex(HeadBlock(f, l, head, media), before + row, |before| + k);
  }

  /** Label `j·|media| + k` of light code `l`'s block is `l-head[j]-media[k]`. */
  lemma HeadBlockAt<T>(f: (char, char, char) -> T, l: char, head: string, media: string, j: nat, k: nat)
    requires j < |head| && k < |media|
    ensures |HeadBlock(f, l, head[..j], media)| == j * |media|
    ensures j * |media| + k < |HeadBlock(f, l, head, media)|
    ensures HeadBlock(f, l, head, media)[j * |media| + k] == f(l, head[j], media[k])
  {
    HeadBlockAtPrefix(f, l, head, media, j, k);
    HeadPrefixLength(f, l, head, media, j);
  }

  /** Light code `i`'s block follows the blocks of the codes before it. */
  lemma BlockAtOffset<T>(f: (char, char, char) -> T, light: string, head: string, media: string, i: nat, c: nat)
    requires i < |light| && c < |HeadBlock(f, light[i], head, media)|
    ensures |ProductLabels(f, light[..i], head, media)| + c < |ProductLabels(f, light, head, media)|
    ensures ProductLabels(f, light, head, media)[|ProductLabels(f, light[..i], head, media)| + c]
      == HeadBlock(f, light[i], head, media)[c]
  {
    var before, block := ProductLabels(f, light[..i], head, media), HeadBlock(f, light[i], head, media);
    ProductLabelsStep(f, light, head, media, i);
    ProductLabelsPrefix(f, light, head, media, i + 1);
    BlockIndex(ProductLabels(f, light, head, media), before, block, c);
  }

  /** Light code `i`'s block starts at `i·|head|·|media|`. */
  lemma BlockAt<T>(f: (char, char, char) -> T, light: string, head: string, media: string, i: nat, c: nat)
    requires i < |light| && c < |HeadBlock(f, light[i], head, media)|
    ensures i * (|head| * |media|) + c < |ProductLabels(f, light, head, media)|
    ensures ProductLabels(f, light, head, media)[i * (|head| * |media|) + c] == HeadBlock(f, light[i], head, media)[c]
  {
    BlockAtOffset(f, light, head, media, i, c);
    ProductPrefixLength(f, light, head, media, i);
  }

  /** Indexing into a piece that follows `before` in a longer sequence. */
  lemma BlockIndex<T>(whole: seq<T>, before: seq<T>, block: seq<T>, c: nat)
    requires before + block <= whole && c < |block|
    ensures |before| + c < |whole| && whole[|before| + c] == block[c]
  {
    assert (before + block)[|before| + c] == block[c];
  }

  /** Label `i·|head|·|media| + j·|media| + k` of the product is
      `light[i]-head[j]-media[k]`. */
  lemma ProductLabelsAt<T>(f: (char, char, char) -> T, light: string, head: string, media: string, i: nat, j: nat, k: nat)
    requires i < |light| && j < |head| && k < |media|
    ensures i * (|head| * |media|) + (j * |media| + k) < |ProductLabels(f, light, head, media)|
    ensures ProductLabels(f, light, head, media)[i * (|head| * |media|) + (j * |media| + k)]
      == f(light[i], head[j], media[k])
  {
    HeadBlockAt(f, light[i], head, media, j, k);
    BlockAt(f, light, head, media, i, j * |media| + k);
  }

  /** With known codes every label is built from the three maps. */
  lemma LabelKnown(l: char, h: char, m: char)
    requires l in LightNames && h in HeadNames && m in MediaNames
    ensures Label(l, h, m) == LightNames[l] + "-" + HeadNames[h] + "-" + MediaNames[m]
  {
  }

  lemma MediaRowStep<T>(f: (char, char, char) -> T, l: char, h: char, media: string, k: nat)
    requires k < |media|
    ensures MediaRow(f, l, h, media[..k + 1]) == MediaRow(f, l, h, media[..k]) + [f(l, h, media[k])]
  {
  }

  lemma HeadBlockStep<T>(f: (char, char, char) -> T, l: char, head: string, media: string, j: nat)
    requires j < |head|
    ensures HeadBlock(f, l, head[..j + 1], media) == HeadBlock(f, l, head[..j], media) + MediaRow(f, l, head[j], media)
  {
    assert head[..j + 1][..j] == head[..j];
  }

  lemma ProductLabelsStep<T>(f: (char, char, char) -> T, light: string, head: string, media: string, i: nat)
    requires i < |light|
    ensures ProductLabels(f, light[..i + 1], head, media) == ProductLabels(f, light[..i], head, media) + HeadBlock(f, light[i], head, media)
  {
    assert light[..i + 1][..i] == light[..i];
  }

  /** The innermost loop of `assign_labels`: appends one label per media
      code, or fails at the first lookup of an unknown code. */
  method AppendMediaRow(labels: seq<string>, l: char, h: char, media: string)
    returns (r: Result<seq<string>, LabelError>)
    ensures r.Failure? <==> (|media| > 0 && !RowKnown(l, h, media))
    ensures r.Success? ==> r.value == labels + MediaRow(Label, l, h, media)
  {
    var out := labels;
    for k := 0 to |media|
      invariant out == labels + MediaRow(Label, l, h, media[..k])
      invariant k > 0 ==> l in LightNames && h in HeadNames
      invariant forall c :: 0 <= c < k ==> media[c] in MediaNames
    {
      if l !in LightNames || h !in HeadNames || media[k] !in MediaNames {
        return Failure(UnknownCode);
      }
      MediaRowStep(Label, l, h, media, k);
      out := out + [Label(l, h, media[k])];
    }
    assert media[..|media|] == media;
    return Success(out);
  }

  /** The middle loop of `assign_labels`, for one light code. */
  method AppendHeadBlock(labels: seq<string>, l: char, head: string, media: string)
    returns (r: Result<seq<string>, LabelError>)
    ensures r.Failure? <==> (|head| > 0 && |media| > 0 && !BlockKnown(l, head, media))
    ensures r.Success? ==> r.value == labels + HeadBlock(Label, l, head, media)
  {
    var out := labels;
    for j := 0 to |head|
      invariant out == labels + HeadBlock(Label, l, head[..j], media)
      invariant |media| > 0 ==> forall b :: 0 <= b < j ==> RowKnown(l, head[b], media)
    {
      var row := AppendMediaRow(out, l, head[j], media);
      if row.Failure? {
        RowUnknown(l, head, media, j);
        return Failure(UnknownCode);
      }
      HeadBlockStep(Label, l, head, media, j);
      ExtendBy(labels, HeadBlock(Label, l, head[..j], media), MediaRow(Label, l, head[j], media),
        HeadBlock(Label, l, head[..j + 1], media));
      out := row.value;
    }
    if |head| > 0 && |media| > 0 {
      RowsKnown(l, head, media);
    }
    assert head[..|head|] == head;
    return Success(out);
  }

  /** `assign_labels`: "cali" followed by the light × head × media product in
      nested loop order. An unknown code raises a KeyError (here `Failure`).
      `startIndices` is accepted and not used, as in the source. */
  method AssignLabels(startIndices: seq<nat>, light: string, head: string, media: string)
    returns (r: Result<seq<string>, LabelError>)
    ensures LookupFails(light, head, media) ==> r == Failure(UnknownCode)
    ensures !LookupFails(light, head, media) ==>
      r == Success([CalibrationLabel] + ProductLabels(Label, light, head, media))
  {
    var labels := [CalibrationLabel];
    for i := 0 to |light|
      invariant labels == [CalibrationLabel] + ProductLabels(Label, light[..i], head, media)
      invariant |head| > 0 && |media| > 0 ==> forall a :: 0 <= a < i ==> BlockKnown(light[a], head, media)
    {
      var block := AppendHeadBlock(labels, light[i], head, media);
      if block.Failure? {
        BlockUnknown(light, head, media, i);
        assert LookupFails(light, head, media);
        return Failure(UnknownCode);
      }
      ProductLabelsStep(Label, light, head, media, i);
      ExtendBy([CalibrationLabel], ProductLabels(Label, light[..i], head, media), HeadBlock(Label, light[i], head, media),
        ProductLabels(Label, light[..i + 1], head, media));
      labels := block.value;
    }
    if |light| > 0 && |head| > 0 && |media| > 0 {
      BlocksKnown(light, head, media);
    }
    assert !LookupFails(light, head, media);
    assert light[..|light|] == light;
    return Success(labels);
  }

  // ---------------------------------------------------------------------
  // Worked examples
  // ---------------------------------------------------------------------

  /** Marker 0 seen on frames `[0, 40)` and `[45, 100)`: the 5-frame gap is
      bridged with the default gap of 50, so the merged signal is present
      on all 100 frames and has no falling edge, hence no starts. */
  lemma BridgedGapExample()
    ensures var s := seq<Bit>(100, p => if 40 <= p < 45 then 0 else 1);
      Merged(s, DefaultGap) == seq<Bit>(100, _ => 1)
      && Transitions(Merged(s, DefaultGap), 1) == []
  {
    var s := seq<Bit>(100, p => if 40 <= p < 45 then 0 else 1);
    assert IsZeroRun(s, 40, 45);
    forall q | 0 <= q < 100
      ensures Merged(s, DefaultGap)[q] == 1
    {
      if 40 <= q < 45 {
        MergedRun(s, DefaultGap, 40, 45, q);
      }
    }
    var m := Merged(s, DefaultGap);
    assert m == seq<Bit>(100, _ => 1);
    NoFallingEdge(m);
  }

  /** A signal that is 1 everywhere has no falling edge. */
  lemma {:induction false} NoFallingEdge(s: seq<Bit>)
    requires forall p :: 0 <= p < |s| ==> s[p] == 1
    ensures Transitions(s, 1) == []
    decreases |s|
  {
    if |s| >= 2 {
      NoFallingEdge(s[..|s| - 1]);
    }
  }

  /** Light codes A, B, head code A and media codes A, B give, after
      "cali", the four labels in nested loop order. */
  lemma LabelExample()
    ensures ProductLabels(Label, "AB", "A", "AB")
      == ["On-Center-Image", "On-Center-Video", "Off-Center-Image", "Off-Center-Video"]
  {
    var p := ProductLabels(Label, "AB", "A", "AB");
    ProductLabelsLength(Label, "AB", "A", "AB");
    ProductLabelsAt(Label, "AB", "A", "AB", 0, 0, 0);
    ProductLabelsAt(Label, "AB", "A", "AB", 0, 0, 1);
    ProductLabelsAt(Label, "AB", "A", "AB", 1, 0, 0);
    ProductLabelsAt(Label, "AB", "A", "AB", 1, 0, 1);
    OnCenterLabels();
    OffCenterLabels();
    assert p[0] == "On-Center-Image" && p[1] == "On-Center-Video";
    assert p[2] == "Off-Center-Image" && p[3] == "Off-Center-Video";
  }

  lemma OnCenterLabels()
    ensures Label('A', 'A', 'A') == "On-Center-Image" && Label('A', 'A', 'B') == "On-Center-Video"
  {
    assert Name(LightNames, 'A') == "On" && Name(HeadNames, 'A') == "Center";
    assert Name(MediaNames, 'A') == "Image" && Name(MediaNames, 'B') == "Video";
  }

  lemma OffCenterLabels()
    ensures Label('B', 'A', 'A') == "Off-Center-Image" && Label('B', 'A', 'B') == "Off-Center-Video"
  {
    assert Name(LightNames, 'B') == "Off" && Name(HeadNames, 'A') == "Center";
    assert Name(MediaNames, 'A') == "Image" && Name(MediaNames, 'B') == "Video";
  }
}
