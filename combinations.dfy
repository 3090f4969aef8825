/** `itertools.combinations(range(n), k)`, used by `select_largest_quad`
    (backend/app/utils/videoConfigFrame.py) to enumerate 4-subsets of the
    matched tags. A combination is the increasing list of chosen positions. */
module Combinations {

  /** `[x] + c` for every `c` of `cs`, in order. */
  function PrependAll(x: nat, cs: seq<seq<nat>>): (r: seq<seq<nat>>)
    ensures |r| == |cs|
    ensures forall t :: 0 <= t < |cs| ==> r[t] == [x] + cs[t]
  {
    seq(|cs|, t requires 0 <= t < |cs| => [x] + cs[t])
  }

  /** The `k`-combinations of `lo, lo+1, …, n-1` in the order `itertools`
      yields them: all those starting with `lo` first, then the rest. */
  function Choose(k: nat, lo: nat, n: nat): seq<seq<nat>>
    decreases k, n - lo
  {
    if k == 0 then [[]]
    else if lo >= n then []
    else PrependAll(lo, Choose(k - 1, lo + 1, n)) + Choose(k, lo + 1, n)
  }

  /** `c` is a strictly increasing list of `k` positions from `[lo, n)`. */
  predicate IsCombination(c: seq<nat>, k: nat, lo: nat, n: nat)
  {
    |c| == k
    && (forall i :: 0 <= i < |c| ==> lo <= c[i] < n)
    && (forall i, j :: 0 <= i < j < |c| ==> c[i] < c[j])
  }

  /** Everything `Choose` yields is a combination. */
  lemma {:induction false} ChooseSound(k: nat, lo: nat, n: nat, t: nat)
    requires t < |Choose(k, lo, n)|
    ensures IsCombination(Choose(k, lo, n)[t], k, lo, n)
    decreases k, n - lo
  {
    if k > 0 && lo < n {
      var first := Choose(k - 1, lo + 1, n);
      if t < |first| {
        ChooseSound(k - 1, lo + 1, n, t);
        assert Choose(k, lo, n)[t] == [lo] + first[t];
      } else {
        ChooseSound(k, lo + 1, n, t - |first|);
        assert Choose(k, lo, n)[t] == Choose(k, lo + 1, n)[t - |first|];
      }
    }
  }

  /** Prepending keeps membership. */
  lemma PrependAllHas(x: nat, cs: seq<seq<nat>>, c: seq<nat>)
    requires c in cs
    ensures [x] + c in PrependAll(x, cs)
  {
    var t :| 0 <= t < |cs| && cs[t] == c;
    assert PrependAll(x, cs)[t] == [x] + c;
  }

  /** Every combination is yielded by `Choose`. */
  lemma {:induction false} ChooseComplete(k: nat, lo: nat, n: nat, c: seq<nat>)
    requires IsCombination(c, k, lo, n)
    ensures c in Choose(k, lo, n)
    decreases k, n - lo
  {
    if k == 0 {
      assert c == [];
    } else {
      assert lo <= c[0] < n;
      var first := Choose(k - 1, lo + 1, n);
      var rest := Choose(k, lo + 1, n);
      assert Choose(k, lo, n) == PrependAll(lo, first) + rest;
      if c[0] == lo {
        var tail := c[1..];
        assert IsCombination(tail, k - 1, lo + 1, n);
        ChooseComplete(k - 1, lo + 1, n, tail);
        PrependAllHas(lo, first, tail);
        assert [lo] + tail == c;
      } else {
        assert IsCombination(c, k, lo + 1, n);
        ChooseComplete(k, lo + 1, n, c);
      }
    }
  }

  /** Each combination is yielded once: positions in `Choose` are distinct. */
  lemma {:induction false} ChooseDistinct(k: nat, lo: nat, n: nat, t1: nat, t2: nat)
    requires t1 < t2 < |Choose(k, lo, n)|
    ensures Choose(k, lo, n)[t1] != Choose(k, lo, n)[t2]
    decreases k, n - lo
  {
    if k > 0 && lo < n {
      var first := Choose(k - 1, lo + 1, n);
      var rest := Choose(k, lo + 1, n);
      if t2 < |first| {
        ChooseDistinct(k - 1, lo + 1, n, t1, t2);
        assert Choose(k, lo, n)[t1][1..] == first[t1];
        assert Choose(k, lo, n)[t2][1..] == first[t2];
      } else if t1 >= |first| {
        ChooseDistinct(k, lo + 1, n, t1 - |first|, t2 - |first|);
      } else {
        ChooseSound(k, lo + 1, n, t2 - |first|);
        assert Choose(k, lo, n)[t1][0] == lo;
        assert Choose(k, lo, n)[t2] == rest[t2 - |first|];
      }
    }
  }

  /** Python's `<` on tuples of positions: lexicographic, a proper prefix
      coming first. */
  predicate LexLess(a: seq<nat>, b: seq<nat>)
    decreases |a|
  {
    if a == [] then b != []
    else b != [] && (a[0] < b[0] || (a[0] == b[0] && LexLess(a[1..], b[1..])))
  }

  /** A common first element keeps the order of the tails. */
  lemma LexPrepend(x: nat, a: seq<nat>, b: seq<nat>)
    requires LexLess(a, b)
    ensures LexLess([x] + a, [x] + b)
  {
    assert ([x] + a)[1..] == a && ([x] + b)[1..] == b;
  }

  /** Every list of `cs` is lexicographically before every later one. */
  predicate SortedLex(cs: seq<seq<nat>>)
  {
    forall t1, t2 :: 0 <= t1 < t2 < |cs| ==> LexLess(cs[t1], cs[t2])
  }

  lemma PrependAllSorted(x: nat, cs: seq<seq<nat>>)
    requires SortedLex(cs)
    ensures SortedLex(PrependAll(x, cs))
  {
    forall t1, t2 | 0 <= t1 < t2 < |cs|
      ensures LexLess(PrependAll(x, cs)[t1], PrependAll(x, cs)[t2])
    {
      LexPrepend(x, cs[t1], cs[t2]);
    }
  }

  lemma ConcatSorted(a: seq<seq<nat>>, b: seq<seq<nat>>)
    requires SortedLex(a) && SortedLex(b)
    requires forall i, j :: 0 <= i < |a| && 0 <= j < |b| ==> LexLess(a[i], b[j])
    ensures SortedLex(a + b)
  {
    forall t1, t2 | 0 <= t1 < t2 < |a + b|
      ensures LexLess((a + b)[t1], (a + b)[t2])
    {
      if t2 < |a| {
        assert (a + b)[t1] == a[t1] && (a + b)[t2] == a[t2];
      } else if t1 >= |a| {
        assert (a + b)[t1] == b[t1 - |a|] && (a + b)[t2] == b[t2 - |a|];
      } else {
        assert (a + b)[t1] == a[t1] && (a + b)[t2] == b[t2 - |a|];
      }
    }
  }

  /** Lists starting with `x` come before lists starting with more. */
  lemma HeadsBefore(x: nat, cs: seq<seq<nat>>, rest: seq<seq<nat>>)
    requires forall j :: 0 <= j < |rest| ==> rest[j] != [] && rest[j][0] > x
    ensures forall i, j :: 0 <= i < |cs| && 0 <= j < |rest| ==> LexLess(PrependAll(x, cs)[i], rest[j])
  {
    forall i, j | 0 <= i < |cs| && 0 <= j < |rest|
      ensures LexLess(PrependAll(x, cs)[i], rest[j])
    {
      assert PrependAll(x, cs)[i] == [x] + cs[i];
    }
  }

  /** For `k > 0` every yielded list starts at `lo` or later. */
  lemma ChooseHeads(k: nat, lo: nat, n: nat)
    requires k > 0
    ensures forall j :: 0 <= j < |Choose(k, lo, n)| ==> Choose(k, lo, n)[j] != [] && Choose(k, lo, n)[j][0] >= lo
  {
    forall j | 0 <= j < |Choose(k, lo, n)|
      ensures Choose(k, lo, n)[j] != [] && Choose(k, lo, n)[j][0] >= lo
    {
      ChooseSound(k, lo, n, j);
    }
  }

  /** `Choose` yields its combinations in increasing lexicographic order,
      as `itertools.combinations` does. */
  lemma {:induction false} ChooseSorted(k: nat, lo: nat, n: nat)
    ensures SortedLex(Choose(k, lo, n))
    decreases k, n - lo
  {
    if k > 0 && lo < n {
      var first := Choose(k - 1, lo + 1, n);
      var rest := Choose(k, lo + 1, n);
      ChooseSorted(k - 1, lo + 1, n);
      ChooseSorted(k, lo + 1, n);
      PrependAllSorted(lo, first);
      ChooseHeads(k, lo + 1, n);
      HeadsBefore(lo, first, rest);
      ConcatSorted(PrependAll(lo, first), rest);
      assert Choose(k, lo, n) == PrependAll(lo, first) + rest;
    }
  }

  /** So an earlier position holds the lexicographically smaller list. */
  lemma ChooseOrdered(k: nat, lo: nat, n: nat, t1: nat, t2: nat)
    requires t1 < t2 < |Choose(k, lo, n)|
    ensures LexLess(Choose(k, lo, n)[t1], Choose(k, lo, n)[t2])
  {
    ChooseSorted(k, lo, n);
  }
}
