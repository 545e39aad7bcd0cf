/**
 * Batcher's bitonic sorting network as the three sort kernels run it.
 *
 * A stage (k, j) pairs every index i with i ^ j. The lower index of each pair
 * acts: it orders the pair ascending when its own bit k is clear and
 * descending otherwise. Phase k runs the stages j = k/2, k/4, ..., 1.
 * The whole network runs the phases k = 2, 4, ..., n.
 *
 * `base` is the global index of a[0]. It is 0 for the storage buffer and
 * w*T for the copy of workgroup w in shared memory. The direction bit is
 * always read from the global index, as the kernels read it from
 * GlobalInvocationID.x.
 *
 * The main result is NetSorts. It is proved with the 0-1 principle.
 */
module BitonicNetwork {
  import opened PowersOfTwo

  function Min(x: int, y: int): int { if x <= y then x else y }
  function Max(x: int, y: int): (m: int) { if x <= y then y else x }

  /** `i & k == 0` for a power-of-two mask k. */
  predicate BitClear(i: nat, k: nat)
    requires k > 0
  {
    (i / k) % 2 == 0
  }

  /** Bit j of i is clear exactly when i lies in the lower half of its block of 2j. */
  lemma BitClearInBlock(i: nat, j: nat)
    requires j > 0
    ensures BitClear(i, j) <==> i % (2 * j) < j
    ensures i % (2 * j) < j ==> i >= 0
    ensures i % (2 * j) >= j ==> i >= j
  {
    var q, r := i / (2 * j), i % (2 * j);
    if r < j {
      DivUnique(i, j, 2 * q, r);
    } else {
      DivUnique(i, j, 2 * q + 1, r - j);
    }
  }

  /** `i ^ j` for a power-of-two j: bit j of i flipped. */
  function FlipBit(i: nat, j: nat): (l: nat)
    requires j > 0
  {
    BitClearInBlock(i, j);
    if BitClear(i, j) then i + j else i - j
  }

  /**
   * In an array whose length is a multiple of 2j, the partner i ^ j of an
   * index is again an index. Flipping swaps lower and upper, and flipping
   * twice gives i back, so the stage's pairs are disjoint.
   */
  lemma PartnerInRange(i: nat, j: nat, n: nat)
    requires j > 0 && n % (2 * j) == 0 && i < n
    ensures FlipBit(i, j) < n
    ensures BitClear(FlipBit(i, j), j) == !BitClear(i, j)
    ensures FlipBit(FlipBit(i, j), j) == i
  {
    var q, r := i / (2 * j), i % (2 * j);
    var m := n / (2 * j);
    BitClearInBlock(i, j);
    if q >= m {
      MulMonotone(2 * j, m, q);
      assert false;
    }
    MulMonotone(2 * j, q + 1, m);
    if r < j {
      DivShift(i, 2 * j, j);
      BitClearInBlock(i + j, j);
    } else {
      DivUnique(i - j, 2 * j, q, r - j);
      BitClearInBlock(i - j, j);
    }
  }

  /** Value at index i after stage (k, j). */
  function StageAt(a: seq<int>, base: nat, k: nat, j: nat, i: nat): int
    requires 0 < j && 0 < k && |a| % (2 * j) == 0 && i < |a|
  {
    PartnerInRange(i, j, |a|);
    var l := FlipBit(i, j);
    if BitClear(i, j) then
      (if BitClear(base + i, k) then Min(a[i], a[l]) else Max(a[i], a[l]))
    else
      (if BitClear(base + l, k) then Max(a[l], a[i]) else Min(a[l], a[i]))
  }

  /** One barrier-delimited compare-exchange stage (k, j). */
  function Stage(a: seq<int>, base: nat, k: nat, j: nat): (r: seq<int>)
    requires 0 < j && 0 < k && |a| % (2 * j) == 0
    ensures |r| == |a|
  {
    seq(|a|, i requires 0 <= i < |a| => StageAt(a, base, k, j, i))
  }

  /** Stages (k, j), (k, j/2), ..., (k, 1): phase k from compare distance j down. */
  function Merge(a: seq<int>, base: nat, k: nat, j: nat): (r: seq<int>)
    requires 0 < k && (j == 0 || (IsPow2(j) && |a| % (2 * j) == 0))
    ensures |r| == |a|
    decreases j
  {
    if j == 0 then a
    else
      HalvePow2(|a|, j);
      Merge(Stage(a, base, k, j), base, k, j / 2)
  }

  /** A merge from distance j is stage (k, j) followed by the merge from j/2. */
  lemma MergeUnfold(a: seq<int>, base: nat, k: nat, j: nat)
    requires 0 < k && IsPow2(j) && |a| % (2 * j) == 0
    ensures j / 2 == 0 || (IsPow2(j / 2) && |a| % (2 * (j / 2)) == 0)
    ensures Merge(Stage(a, base, k, j), base, k, j / 2) == Merge(a, base, k, j)
  {
    HalvePow2(|a|, j);
  }

  /** Phases 2, 4, ..., k: the bitonic sort of every aligned block of k elements. */
  function Net(a: seq<int>, base: nat, k: nat): (r: seq<int>)
    requires IsPow2(k) && |a| % k == 0
    ensures |r| == |a|
    decreases k
  {
    if k == 1 then a
    else
      ModHalf(|a|, k / 2);
      Merge(Net(a, base, k / 2), base, k, k / 2)
  }

  /** Halving a power of two keeps the divisibility that the next stage needs. */
  lemma HalvePow2(n: nat, j: nat)
    requires IsPow2(j) && n % (2 * j) == 0
    ensures j / 2 == 0 || (IsPow2(j / 2) && n % (2 * (j / 2)) == 0)
  {
    if j > 1 {
      ModHalf(n, j);
    }
  }

  predicate Sorted(s: seq<int>)
  {
    forall p, q :: 0 <= p < q < |s| ==> s[p] <= s[q]
  }

  predicate SortedDir(s: seq<int>, ascending: bool)
  {
    if ascending then Sorted(s) else forall p, q :: 0 <= p < q < |s| ==> s[p] >= s[q]
  }

  // ---------------------------------------------------------------------
  // Splitting: stages with 2j dividing the block size act on each block alone.

  /** A sum of multiples of d is a multiple of d. */
  lemma SumOfMultiples(x: nat, y: nat, d: nat)
    requires d > 0 && x % d == 0 && y % d == 0
    ensures (x + y) % d == 0
  {
    DivAddMul(y, d, x / d);
  }

  /** Moving an index by whole blocks of 2j keeps its bit j and moves its partner along. */
  lemma FlipShift(i: nat, j: nat, c: nat)
    requires j > 0
    ensures BitClear(i + 2 * j * c, j) == BitClear(i, j)
    ensures FlipBit(i + 2 * j * c, j) == FlipBit(i, j) + 2 * j * c
  {
    assert 2 * j * c == j * (2 * c);
    DivAddMul(i, j, 2 * c);
    DivAddMul(i / j, 2, c);
  }

  lemma StageAtLeft(x: seq<int>, y: seq<int>, base: nat, k: nat, j: nat, i: nat)
    requires 0 < j && 0 < k && |x| % (2 * j) == 0 && (|x| + |y|) % (2 * j) == 0 && i < |x|
    ensures StageAt(x + y, base, k, j, i) == StageAt(x, base, k, j, i)
  {
    PartnerInRange(i, j, |x|);
  }

  lemma StageAtRight(x: seq<int>, y: seq<int>, base: nat, k: nat, j: nat, i: nat)
    requires 0 < j && 0 < k && |x| % (2 * j) == 0 && |y| % (2 * j) == 0
    requires (|x| + |y|) % (2 * j) == 0 && i < |y|
    ensures StageAt(x + y, base, k, j, |x| + i) == StageAt(y, base + |x|, k, j, i)
  {
    var c := |x| / (2 * j);
    assert |x| == 2 * j * c;
    FlipShift(i, j, c);
    PartnerInRange(i, j, |y|);
    PartnerInRange(|x| + i, j, |x| + |y|);
  }

  lemma StageSplit(x: seq<int>, y: seq<int>, base: nat, k: nat, j: nat)
    requires 0 < j && 0 < k && |x| % (2 * j) == 0 && |y| % (2 * j) == 0
    ensures (|x| + |y|) % (2 * j) == 0
    ensures Stage(x + y, base, k, j) == Stage(x, base, k, j) + Stage(y, base + |x|, k, j)
  {
    SumOfMultiples(|x|, |y|, 2 * j);
    var lhs, rhs := Stage(x + y, base, k, j), Stage(x, base, k, j) + Stage(y, base + |x|, k, j);
    forall i | 0 <= i < |lhs|
      ensures lhs[i] == rhs[i]
    {
      if i < |x| {
        StageAtLeft(x, y, base, k, j, i);
      } else {
        StageAtRight(x, y, base, k, j, i - |x|);
      }
    }
  }

  lemma {:induction false} MergeSplit(x: seq<int>, y: seq<int>, base: nat, k: nat, j: nat)
    requires 0 < k && (j == 0 || (IsPow2(j) && |x| % (2 * j) == 0 && |y| % (2 * j) == 0))
    ensures j > 0 ==> (|x| + |y|) % (2 * j) == 0
    ensures Merge(x + y, base, k, j) == Merge(x, base, k, j) + Merge(y, base + |x|, k, j)
    decreases j
  {
    if j > 0 {
      SumOfMultiples(|x|, |y|, 2 * j);
      StageSplit(x, y, base, k, j);
      if j > 1 {
        ModHalf(|x|, j);
        ModHalf(|y|, j);
      }
      MergeSplit(Stage(x, base, k, j), Stage(y, base + |x|, k, j), base, k, j / 2);
    }
  }

  lemma {:induction false} NetSplit(x: seq<int>, y: seq<int>, base: nat, k: nat)
    requires IsPow2(k) && |x| % k == 0 && |y| % k == 0
    ensures (|x| + |y|) % k == 0
    ensures Net(x + y, base, k) == Net(x, base, k) + Net(y, base + |x|, k)
    decreases k
  {
    SumOfMultiples(|x|, |y|, k);
    if k > 1 {
      var h := k / 2;
      assert IsPow2(h) && 2 * h == k && |x| % h == 0 && |y| % h == 0 by {
        ModHalf(|x|, h);
        ModHalf(|y|, h);
      }
      NetSplit(x, y, base, h);
      var nx, ny := Net(x, base, h), Net(y, base + |x|, h);
      MergeSplit(nx, ny, base, k, h);
      assert Net(x + y, base, k) == Merge(nx + ny, base, k, h);
    }
  }

  // ---------------------------------------------------------------------
  // Values: a stage only moves values, so 0-1 inputs and constant runs stay so.

  predicate Is01(s: seq<int>)
  {
    forall i :: 0 <= i < |s| ==> s[i] == 0 || s[i] == 1
  }

  predicate AllEq(s: seq<int>, v: int)
  {
    forall i :: 0 <= i < |s| ==> s[i] == v
  }

  lemma StageKeeps(a: seq<int>, base: nat, k: nat, j: nat)
    requires 0 < j && 0 < k && |a| % (2 * j) == 0
    ensures Is01(a) ==> Is01(Stage(a, base, k, j))
    ensures forall v :: AllEq(a, v) ==> AllEq(Stage(a, base, k, j), v)
  {
    forall i | 0 <= i < |a| {
      PartnerInRange(i, j, |a|);
    }
  }

  lemma {:induction false} MergeKeeps(a: seq<int>, base: nat, k: nat, j: nat)
    requires 0 < k && (j == 0 || (IsPow2(j) && |a| % (2 * j) == 0))
    ensures Is01(a) ==> Is01(Merge(a, base, k, j))
    ensures forall v :: AllEq(a, v) ==> AllEq(Merge(a, base, k, j), v)
    decreases j
  {
    if j > 0 {
      HalvePow2(|a|, j);
      StageKeeps(a, base, k, j);
      MergeKeeps(Stage(a, base, k, j), base, k, j / 2);
    }
  }

  lemma {:induction false} NetKeeps01(a: seq<int>, base: nat, k: nat)
    requires IsPow2(k) && |a| % k == 0 && Is01(a)
    ensures Is01(Net(a, base, k))
    decreases k
  {
    if k > 1 {
      ModHalf(|a|, k / 2);
      NetKeeps01(a, base, k / 2);
      MergeKeeps(Net(a, base, k / 2), base, k, k / 2);
    }
  }

  // ---------------------------------------------------------------------
  // Thresholds commute with the network (the 0-1 principle).

  /** 1 where a[i] >= t, 0 elsewhere. */
  function Threshold(a: seq<int>, t: int): (r: seq<int>)
    ensures |r| == |a| && Is01(r)
    ensures forall i :: 0 <= i < |a| ==> (r[i] == 1 <==> a[i] >= t)
  {
    seq(|a|, i requires 0 <= i < |a| => if a[i] >= t then 1 else 0)
  }

  lemma StageThreshold(a: seq<int>, base: nat, k: nat, j: nat, t: int)
    requires 0 < j && 0 < k && |a| % (2 * j) == 0
    ensures Threshold(Stage(a, base, k, j), t) == Stage(Threshold(a, t), base, k, j)
  {
    var l, r := Threshold(Stage(a, base, k, j), t), Stage(Threshold(a, t), base, k, j);
    forall i | 0 <= i < |a|
      ensures l[i] == r[i]
    {
      PartnerInRange(i, j, |a|);
    }
  }

  lemma {:induction false} MergeThreshold(a: seq<int>, base: nat, k: nat, j: nat, t: int)
    requires 0 < k && (j == 0 || (IsPow2(j) && |a| % (2 * j) == 0))
    ensures Threshold(Merge(a, base, k, j), t) == Merge(Threshold(a, t), base, k, j)
    decreases j
  {
    if j > 0 {
      HalvePow2(|a|, j);
      StageThreshold(a, base, k, j, t);
      MergeThreshold(Stage(a, base, k, j), base, k, j / 2, t);
    }
  }

  lemma {:induction false} NetThreshold(a: seq<int>, base: nat, k: nat, t: int)
    requires IsPow2(k) && |a| % k == 0
    ensures Threshold(Net(a, base, k), t) == Net(Threshold(a, t), base, k)
    decreases k
  {
    if k > 1 {
      ModHalf(|a|, k / 2);
      NetThreshold(a, base, k / 2, t);
      MergeThreshold(Net(a, base, k / 2), base, k, k / 2, t);
    }
  }

  // ---------------------------------------------------------------------
  // 0-1 bitonic sequences and the half-cleaner.

  /** Ones exactly on the index range [lo, hi). */
  predicate OnesIn(s: seq<int>, lo: int, hi: int)
  {
    forall i :: 0 <= i < |s| ==> s[i] == (if lo <= i < hi then 1 else 0)
  }

  /** Zeros exactly on the index range [lo, hi). */
  predicate ZerosIn(s: seq<int>, lo: int, hi: int)
  {
    forall i :: 0 <= i < |s| ==> s[i] == (if lo <= i < hi then 0 else 1)
  }

  /** A 0-1 bitonic sequence: one run of ones among zeros, or one run of zeros among ones. */
  ghost predicate Bitonic01(s: seq<int>)
  {
    exists lo: int, hi: int :: OnesIn(s, lo, hi) || ZerosIn(s, lo, hi)
  }

  lemma Bitonic01Is01(s: seq<int>)
    requires Bitonic01(s)
    ensures Is01(s)
  {
    var lo, hi :| OnesIn(s, lo, hi) || ZerosIn(s, lo, hi);
  }

  /** The run's bounds can be taken inside the sequence. */
  lemma Clamp(s: seq<int>, lo: int, hi: int) returns (l: int, h: int)
    ensures 0 <= l <= h <= |s|
    ensures OnesIn(s, lo, hi) ==> OnesIn(s, l, h)
    ensures ZerosIn(s, lo, hi) ==> ZerosIn(s, l, h)
  {
    var n := |s|;
    l := if lo < 0 then 0 else if lo > n then n else lo;
    h := if hi < l then l else if hi > n then n else hi;
  }

  function MinHalf(u: seq<int>, j: nat): (r: seq<int>)
    requires |u| == 2 * j
    ensures |r| == j && forall i :: 0 <= i < j ==> r[i] <= u[i] && r[i] <= u[i + j]
  {
    seq(j, i requires 0 <= i < j => Min(u[i], u[i + j]))
  }

  function MaxHalf(u: seq<int>, j: nat): (r: seq<int>)
    requires |u| == 2 * j
    ensures |r| == j && forall i :: 0 <= i < j ==> r[i] >= u[i] && r[i] >= u[i + j]
  {
    seq(j, i requires 0 <= i < j => Max(u[i], u[i + j]))
  }

  /** Minima and maxima of the halves of a block with ones on [l, h). */
  lemma HalvesOfOnes(u: seq<int>, j: nat, l: int, h: int)
    requires 0 < j && |u| == 2 * j && 0 <= l <= h <= 2 * j && OnesIn(u, l, h)
    ensures OnesIn(MinHalf(u, j), l, h - j)
    ensures h - j >= l ==> OnesIn(MaxHalf(u, j), l - j, h)
    ensures h - j < l && l >= j ==> OnesIn(MaxHalf(u, j), l - j, h - j)
    ensures h - j < l && h <= j ==> OnesIn(MaxHalf(u, j), l, h)
    ensures h - j < l < j < h ==> ZerosIn(MaxHalf(u, j), h - j, l)
  {
    var A, O := MinHalf(u, j), MaxHalf(u, j);
    forall i | 0 <= i < j
      ensures A[i] == (if l <= i && i + j < h then 1 else 0)
      ensures O[i] == (if (l <= i < h) || (l <= i + j < h) then 1 else 0)
    {
      assert u[i] == (if l <= i < h then 1 else 0);
      assert u[i + j] == (if l <= i + j < h then 1 else 0);
    }
  }

  /** Minima and maxima of the halves of a block with zeros on [l, h). */
  lemma HalvesOfZeros(u: seq<int>, j: nat, l: int, h: int)
    requires 0 < j && |u| == 2 * j && 0 <= l <= h <= 2 * j && ZerosIn(u, l, h)
    ensures ZerosIn(MaxHalf(u, j), l, h - j)
    ensures h - j >= l ==> ZerosIn(MinHalf(u, j), l - j, h)
    ensures h - j < l && l >= j ==> ZerosIn(MinHalf(u, j), l - j, h - j)
    ensures h - j < l && h <= j ==> ZerosIn(MinHalf(u, j), l, h)
    ensures h - j < l < j < h ==> OnesIn(MinHalf(u, j), h - j, l)
  {
    var A, O := MinHalf(u, j), MaxHalf(u, j);
    forall i | 0 <= i < j
      ensures O[i] == (if l <= i && i + j < h then 0 else 1)
      ensures A[i] == (if (l <= i < h) || (l <= i + j < h) then 0 else 1)
    {
      assert u[i] == (if l <= i < h then 0 else 1);
      assert u[i + j] == (if l <= i + j < h then 0 else 1);
    }
  }

  lemma OnesAll(s: seq<int>, l: int, h: int)
    requires OnesIn(s, l, h)
    ensures h <= l ==> AllEq(s, 0)
    ensures l <= 0 && |s| <= h ==> AllEq(s, 1)
  {
  }

  lemma ZerosAll(s: seq<int>, l: int, h: int)
    requires ZerosIn(s, l, h)
    ensures h <= l ==> AllEq(s, 1)
    ensures l <= 0 && |s| <= h ==> AllEq(s, 0)
  {
  }

  /**
   * Half-cleaner on a 0-1 bitonic block of 2j: both halves of minima and
   * maxima are again bitonic, and either the minima are all 0 or the maxima
   * are all 1.
   */
  lemma HalfClean01(u: seq<int>, j: nat)
    requires 0 < j && |u| == 2 * j && Bitonic01(u)
    ensures Bitonic01(MinHalf(u, j)) && Bitonic01(MaxHalf(u, j))
    ensures AllEq(MinHalf(u, j), 0) || AllEq(MaxHalf(u, j), 1)
  {
    var lo, hi :| OnesIn(u, lo, hi) || ZerosIn(u, lo, hi);
    var L, H := Clamp(u, lo, hi);
    var A, O := MinHalf(u, j), MaxHalf(u, j);
    if OnesIn(u, L, H) {
      HalvesOfOnes(u, j, L, H);
      OnesAll(A, L, H - j);
      if H - j >= L {
        OnesAll(O, L - j, H);
      } else if L < j < H {
        assert ZerosIn(O, H - j, L);
      }
    } else {
      HalvesOfZeros(u, j, L, H);
      ZerosAll(O, L, H - j);
      if H - j >= L {
        ZerosAll(A, L - j, H);
      } else if L < j < H {
        assert OnesIn(A, H - j, L);
      }
    }
  }

  /**
   * On one block of 2j whose phase direction is constant, stage (k, j) puts
   * the pairwise minima in the lower half when ascending and in the upper
   * half when descending.
   */
  lemma StageOnBlock(u: seq<int>, base: nat, k: nat, j: nat)
    requires 0 < j && 0 < k && |u| == 2 * j && base % k + 2 * j <= k
    ensures |u| % (2 * j) == 0
    ensures Stage(u, base, k, j) ==
      if BitClear(base, k) then MinHalf(u, j) + MaxHalf(u, j) else MaxHalf(u, j) + MinHalf(u, j)
  {
    DivUnique(2 * j, 2 * j, 1, 0);
    var c := Stage(u, base, k, j);
    var r := if BitClear(base, k) then MinHalf(u, j) + MaxHalf(u, j) else MaxHalf(u, j) + MinHalf(u, j);
    forall i | 0 <= i < 2 * j
      ensures c[i] == r[i]
    {
      if i < j {
        DivUnique(i, j, 0, i);
        DivShift(base, k, i);
      } else {
        DivUnique(i, j, 1, i - j);
        DivShift(base, k, i - j);
      }
    }
  }

  /** Two sorted 0-1 runs in the same direction whose meeting point is clean. */
  lemma ConcatSorted01(x: seq<int>, y: seq<int>, ascending: bool)
    requires Is01(x) && Is01(y) && SortedDir(x, ascending) && SortedDir(y, ascending)
    requires ascending ==> AllEq(x, 0) || AllEq(y, 1)
    requires !ascending ==> AllEq(x, 1) || AllEq(y, 0)
    ensures SortedDir(x + y, ascending)
  {
    var s := x + y;
    if ascending {
      forall p, q | 0 <= p < q < |s|
        ensures s[p] <= s[q]
      {
        if q < |x| {
        } else if p >= |x| {
          assert s[p] == y[p - |x|] && s[q] == y[q - |x|];
        } else {
          assert s[p] == x[p] && s[q] == y[q - |x|];
        }
      }
    } else {
      forall p, q | 0 <= p < q < |s|
        ensures s[p] >= s[q]
      {
        if q < |x| {
        } else if p >= |x| {
          assert s[p] == y[p - |x|] && s[q] == y[q - |x|];
        } else {
          assert s[p] == x[p] && s[q] == y[q - |x|];
        }
      }
    }
  }

  /** After the first stage of a merge the two halves of a 0-1 bitonic block are clean. */
  lemma CleanHalves(s: seq<int>, base: nat, k: nat, j: nat)
    requires 0 < j && |s| == 2 * j && 0 < k && base % k + 2 * j <= k && Bitonic01(s)
    ensures |s| % (2 * j) == 0
    ensures Bitonic01(Stage(s, base, k, j)[..j]) && Bitonic01(Stage(s, base, k, j)[j..])
    ensures BitClear(base, k) ==>
      AllEq(Stage(s, base, k, j)[..j], 0) || AllEq(Stage(s, base, k, j)[j..], 1)
    ensures !BitClear(base, k) ==>
      AllEq(Stage(s, base, k, j)[..j], 1) || AllEq(Stage(s, base, k, j)[j..], 0)
  {
    StageOnBlock(s, base, k, j);
    HalfClean01(s, j);
    var c, a, o := Stage(s, base, k, j), MinHalf(s, j), MaxHalf(s, j);
    if BitClear(base, k) {
      assert c[..j] == a && c[j..] == o;
    } else {
      assert c[..j] == o && c[j..] == a;
    }
  }

  /** A merge with compare distance 1 orders the pair. */
  lemma MergePair(s: seq<int>, base: nat, k: nat)
    requires |s| == 2 && 0 < k && base % k + 2 <= k
    ensures SortedDir(Merge(s, base, k, 1), BitClear(base, k))
  {
    StageOnBlock(s, base, k, 1);
    assert Merge(s, base, k, 1) == Stage(s, base, k, 1);
  }

  /** Phase k's merge of a block of 2j is its first stage followed by the merges of both halves. */
  lemma MergeHalves(s: seq<int>, base: nat, k: nat, j: nat)
    requires IsPow2(j) && j > 1 && |s| == 2 * j && 0 < k
    ensures |s| % (2 * j) == 0 && IsPow2(j / 2) && 2 * (j / 2) == j
    ensures Merge(s, base, k, j) ==
      Merge(Stage(s, base, k, j)[..j], base, k, j / 2) + Merge(Stage(s, base, k, j)[j..], base + j, k, j / 2)
  {
    DivUnique(2 * j, 2 * j, 1, 0);
    var h := j / 2;
    var c := Stage(s, base, k, j);
    var x, y := c[..j], c[j..];
    assert c == x + y;
    DivUnique(j, j, 1, 0);
    MergeSplit(x, y, base, k, h);
  }

  /**
   * Two halves merged in the same direction join into one sorted block
   * when the first stage left them clean at the meeting point.
   */
  lemma JoinSorted01(x: seq<int>, y: seq<int>, base: nat, base': nat, k: nat, h: nat, ascending: bool)
    requires 0 < k && IsPow2(h) && |x| == |y| == 2 * h && Is01(x) && Is01(y)
    requires SortedDir(Merge(x, base, k, h), ascending) && SortedDir(Merge(y, base', k, h), ascending)
    requires ascending ==> AllEq(x, 0) || AllEq(y, 1)
    requires !ascending ==> AllEq(x, 1) || AllEq(y, 0)
    ensures SortedDir(Merge(x, base, k, h) + Merge(y, base', k, h), ascending)
  {
    DivUnique(2 * h, 2 * h, 1, 0);
    MergeKeeps(x, base, k, h);
    MergeKeeps(y, base', k, h);
    ConcatSorted01(Merge(x, base, k, h), Merge(y, base', k, h), ascending);
  }

  /** The bitonic merge of phase k sorts a 0-1 bitonic block in the phase's direction. */
  lemma {:induction false} MergeSorts01(s: seq<int>, base: nat, k: nat, j: nat)
    requires IsPow2(j) && |s| == 2 * j && 0 < k && base % k + 2 * j <= k && Bitonic01(s)
    ensures |s| % (2 * j) == 0
    ensures SortedDir(Merge(s, base, k, j), BitClear(base, k))
    decreases j
  {
    CleanHalves(s, base, k, j);
    if j == 1 {
      MergePair(s, base, k);
    } else {
      MergeHalves(s, base, k, j);
      var h := j / 2;
      var x, y := Stage(s, base, k, j)[..j], Stage(s, base, k, j)[j..];
      assert BitClear(base + j, k) == BitClear(base, k) && (base + j) % k + 2 * h <= k by {
        DivShift(base, k, j);
      }
      MergeSorts01(x, base, k, h);
      MergeSorts01(y, base + j, k, h);
      Bitonic01Is01(x);
      Bitonic01Is01(y);
      JoinSorted01(x, y, base, base + j, k, h, BitClear(base, k));
    }
  }

  /** Index of the first v in s, or |s| when there is none. */
  function FirstIndexOf(s: seq<int>, v: int): (r: nat)
    ensures r <= |s| && (r < |s| ==> s[r] == v)
    ensures forall i :: 0 <= i < r ==> s[i] != v
  {
    if |s| == 0 then 0
    else if s[0] == v then 0
    else 1 + FirstIndexOf(s[1..], v)
  }

  /** An ascending 0-1 run followed by a descending one is bitonic. */
  lemma AscDesc01(p: seq<int>, q: seq<int>)
    requires Is01(p) && Is01(q) && Sorted(p) && SortedDir(q, false)
    ensures Bitonic01(p + q)
  {
    var a, c := FirstIndexOf(p, 1), FirstIndexOf(q, 0);
    var s := p + q;
    forall i | 0 <= i < |s|
      ensures s[i] == (if a <= i < |p| + c then 1 else 0)
    {
      if i < |p| {
        if i >= a {
          assert p[a] <= p[i];
        }
      } else {
        var i' := i - |p|;
        assert s[i] == q[i'];
        if i' >= c {
          assert q[c] >= q[i'];
        }
      }
    }
    assert OnesIn(s, a, |p| + c);
  }

  /** The network on a block of k is the merge of the networks on its two halves. */
  lemma NetHalves(s: seq<int>, base: nat, k: nat)
    requires IsPow2(k) && k > 1 && |s| == k
    ensures IsPow2(k / 2) && 2 * (k / 2) == k && |s| % k == 0
    ensures Net(s, base, k) == Merge(Net(s[..k / 2], base, k / 2) + Net(s[k / 2..], base + k / 2, k / 2), base, k, k / 2)
  {
    var h := k / 2;
    DivUnique(k, k, 1, 0);
    DivUnique(h, h, 1, 0);
    assert s == s[..h] + s[h..];
    NetSplit(s[..h], s[h..], base, h);
  }

  /** The halves of a block aligned to k = 2h are aligned to h; phase h sorts the lower one ascending and the upper one descending. */
  lemma HalfBases(base: nat, k: nat, h: nat)
    requires h > 0 && k == 2 * h && base % k == 0
    ensures base % h == 0 && (base + h) % h == 0
    ensures BitClear(base, h) && !BitClear(base + h, h)
  {
    var m := base / k;
    assert base == h * (2 * m);
    DivUnique(base, h, 2 * m, 0);
    DivUnique(base + h, h, 2 * m + 1, 0);
  }

  /** The network sorts every 0-1 block of k in its phase direction. */
  lemma {:induction false} Net01Sorted(s: seq<int>, base: nat, k: nat)
    requires IsPow2(k) && |s| == k && base % k == 0 && Is01(s)
    ensures SortedDir(Net(s, base, k), BitClear(base, k))
    decreases k
  {
    if k > 1 {
      NetHalves(s, base, k);
      var h := k / 2;
      var p0, q0 := s[..h], s[h..];
      var p, q := Net(p0, base, h), Net(q0, base + h, h);
      assert Bitonic01(p + q) by {
        HalfBases(base, k, h);
        Net01Sorted(p0, base, h);
        Net01Sorted(q0, base + h, h);
        NetKeeps01(p0, base, h);
        NetKeeps01(q0, base + h, h);
        AscDesc01(p, q);
      }
      MergeSorts01(p + q, base, k, h);
    }
  }

  /**
   * The bitonic network sorts any block of k values: ascending when bit k of
   * the block's global start is clear, descending otherwise.
   */
  lemma NetSorts(a: seq<int>, base: nat, k: nat)
    requires IsPow2(k) && |a| == k && base % k == 0
    ensures SortedDir(Net(a, base, k), BitClear(base, k))
  {
    var b := Net(a, base, k);
    var asc := BitClear(base, k);
    forall p, q | 0 <= p < q < |b|
      ensures if asc then b[p] <= b[q] else b[p] >= b[q]
    {
      var t := if asc then b[p] else b[q];
      NetThreshold(a, base, k, t);
      Net01Sorted(Threshold(a, t), base, k);
    }
  }

  // ---------------------------------------------------------------------
  // Permutation: a stage orders disjoint pairs one after the other.

  /** Whether the pair of index p has been handled once the indices below i have acted. */
  predicate Acted(p: nat, j: nat, i: nat)
    requires j > 0
  {
    if BitClear(p, j) then p < i else p < i + j
  }

  /** Adding j flips bit j. */
  lemma FlipAdd(i: nat, j: nat)
    requires j > 0
    ensures BitClear(i + j, j) == !BitClear(i, j)
  {
    DivAddMul(i, j, 1);
  }

  /** Stage (k, j) after the invocations of the indices below i have run, in index order. */
  ghost function StagePrefix(a: seq<int>, base: nat, k: nat, j: nat, i: nat): (r: seq<int>)
    requires 0 < j && 0 < k && |a| % (2 * j) == 0
    ensures |r| == |a|
  {
    seq(|a|, p requires 0 <= p < |a| => if Acted(p, j, i) then StageAt(a, base, k, j, p) else a[p])
  }

  lemma StagePrefixStart(a: seq<int>, base: nat, k: nat, j: nat)
    requires 0 < j && 0 < k && |a| % (2 * j) == 0
    ensures StagePrefix(a, base, k, j, 0) == a
  {
    forall p | 0 <= p < |a|
      ensures !Acted(p, j, 0)
    {
      BitClearInBlock(p, j);
    }
  }

  lemma StagePrefixDone(a: seq<int>, base: nat, k: nat, j: nat)
    requires 0 < j && 0 < k && |a| % (2 * j) == 0
    ensures StagePrefix(a, base, k, j, |a|) == Stage(a, base, k, j)
  {
    forall p | 0 <= p < |a|
      ensures Acted(p, j, |a|)
    {
    }
  }

  /**
   * The lower index i of a pair finds both of its elements untouched and
   * orders them: ascending when bit k of its global index is clear,
   * descending otherwise.
   */
  lemma StagePrefixLower(a: seq<int>, base: nat, k: nat, j: nat, i: nat)
    requires 0 < j && 0 < k && |a| % (2 * j) == 0 && i < |a| && BitClear(i, j)
    ensures i + j < |a| && FlipBit(i, j) == i + j
    ensures StagePrefix(a, base, k, j, i)[i] == a[i] && StagePrefix(a, base, k, j, i)[i + j] == a[i + j]
    ensures StagePrefix(a, base, k, j, i + 1) == StagePrefix(a, base, k, j, i)
      [i := if BitClear(base + i, k) then Min(a[i], a[i + j]) else Max(a[i], a[i + j])]
      [i + j := if BitClear(base + i, k) then Max(a[i], a[i + j]) else Min(a[i], a[i + j])]
  {
    PartnerInRange(i, j, |a|);
    PartnerInRange(i + j, j, |a|);
    FlipAdd(i, j);
    var cur, next := StagePrefix(a, base, k, j, i), StagePrefix(a, base, k, j, i + 1);
    forall p | 0 <= p < |a| && p != i && p != i + j
      ensures next[p] == cur[p]
    {
      assert Acted(p, j, i + 1) == Acted(p, j, i);
    }
  }

  /** An upper index has nothing to do: its pair was handled by its lower partner. */
  lemma StagePrefixUpper(a: seq<int>, base: nat, k: nat, j: nat, i: nat)
    requires 0 < j && 0 < k && |a| % (2 * j) == 0 && !BitClear(i, j)
    ensures StagePrefix(a, base, k, j, i + 1) == StagePrefix(a, base, k, j, i)
  {
    FlipAdd(i, j);
    forall p | 0 <= p < |a|
      ensures Acted(p, j, i + 1) == Acted(p, j, i)
    {
    }
  }

  /** Ordering two positions of a sequence keeps its multiset. */
  lemma OrderKeepsMultiset(s: seq<int>, i: nat, l: nat, ascending: bool)
    requires i < l < |s|
    ensures multiset(s[i := if ascending then Min(s[i], s[l]) else Max(s[i], s[l])]
                      [l := if ascending then Max(s[i], s[l]) else Min(s[i], s[l])]) == multiset(s)
  {
    var t := s[i := if ascending then Min(s[i], s[l]) else Max(s[i], s[l])]
              [l := if ascending then Max(s[i], s[l]) else Min(s[i], s[l])];
    if t != s {
      assert t == s[i := s[l]][l := s[i]];
    }
  }

  /** One invocation of a stage keeps the multiset. */
  lemma StagePrefixStep(a: seq<int>, base: nat, k: nat, j: nat, i: nat)
    requires 0 < j && 0 < k && |a| % (2 * j) == 0 && i < |a|
    ensures multiset(StagePrefix(a, base, k, j, i + 1)) == multiset(StagePrefix(a, base, k, j, i))
  {
    if BitClear(i, j) {
      StagePrefixLower(a, base, k, j, i);
      OrderKeepsMultiset(StagePrefix(a, base, k, j, i), i, i + j, BitClear(base + i, k));
    } else {
      StagePrefixUpper(a, base, k, j, i);
    }
  }

  lemma {:induction false} StagePrefixPermutes(a: seq<int>, base: nat, k: nat, j: nat, i: nat)
    requires 0 < j && 0 < k && |a| % (2 * j) == 0 && i <= |a|
    ensures multiset(StagePrefix(a, base, k, j, i)) == multiset(a)
  {
    if i == 0 {
      StagePrefixStart(a, base, k, j);
    } else {
      StagePrefixPermutes(a, base, k, j, i - 1);
      StagePrefixStep(a, base, k, j, i - 1);
    }
  }

  /** A stage only exchanges elements. */
  lemma StagePermutes(a: seq<int>, base: nat, k: nat, j: nat)
    requires 0 < j && 0 < k && |a| % (2 * j) == 0
    ensures multiset(Stage(a, base, k, j)) == multiset(a)
  {
    StagePrefixPermutes(a, base, k, j, |a|);
    StagePrefixDone(a, base, k, j);
  }

  lemma {:induction false} MergePermutes(a: seq<int>, base: nat, k: nat, j: nat)
    requires 0 < k && (j == 0 || (IsPow2(j) && |a| % (2 * j) == 0))
    ensures multiset(Merge(a, base, k, j)) == multiset(a)
    decreases j
  {
    if j > 0 {
      HalvePow2(|a|, j);
      StagePermutes(a, base, k, j);
      MergePermutes(Stage(a, base, k, j), base, k, j / 2);
    }
  }

  /** The network's output is a permutation of its input. */
  lemma {:induction false} NetPermutes(a: seq<int>, base: nat, k: nat)
    requires IsPow2(k) && |a| % k == 0
    ensures multiset(Net(a, base, k)) == multiset(a)
    decreases k
  {
    if k > 1 {
      ModHalf(|a|, k / 2);
      NetPermutes(a, base, k / 2);
      MergePermutes(Net(a, base, k / 2), base, k, k / 2);
    }
  }

  /** The full network over the whole input, from base 0, sorts it ascending and keeps its elements. */
  lemma NetSortsWhole(a: seq<int>)
    requires IsPow2(|a|)
    ensures (ModSelf(|a|); Sorted(Net(a, 0, |a|)) && multiset(Net(a, 0, |a|)) == multiset(a))
  {
    ModSelf(|a|);
    DivUnique(0, |a|, 0, 0);
    NetSorts(a, 0, |a|);
    NetPermutes(a, 0, |a|);
  }
}
