/**
 * The three WGSL compute kernels of the bitonic sort, each run as one
 * sequential pass per barrier-delimited stage.
 *
 * Within a stage every invocation owns the pair (i, i ^ j) whose lower index
 * it is, and the pairs are disjoint, so executing the invocations one after
 * the other gives the same result as executing them in parallel.
 *
 * - LocalSortKernel: each workgroup loads its T elements into shared memory,
 *   runs phases k = 2 .. T with all their stages, and writes them back.
 * - GlobalStageKernel: one stage (k, j) over the whole storage buffer, with
 *   k and j read from the bound uniform slot.
 * - LocalMergeKernel: each workgroup runs stages j = T/2 .. 1 of phase k in
 *   shared memory, k read from the bound uniform slot.
 */
module BitonicKernels {
  import opened PowersOfTwo
  import opened BitonicNetwork

  /** A multiple of a multiple of d is a multiple of d. */
  lemma MultipleOfMultiple(x: nat, t: nat, d: nat)
    requires d > 0 && t > 0 && x % t == 0 && t % d == 0
    ensures x % d == 0
  {
    var a, c := x / t, t / d;
    assert x == t * a && t == d * c;
    assert x == d * (c * a);
    DivAddMul(0, d, c * a);
  }

  /** The next block of t after a block start below n still fits when n is a multiple of t. */
  lemma NextBlockFits(offset: nat, t: nat, n: nat)
    requires t > 0 && offset % t == 0 && n % t == 0 && offset < n
    ensures offset + t <= n && (offset + t) % t == 0
  {
    var a, b := offset / t, n / t;
    assert offset == t * a && n == t * b;
    if a >= b {
      MulMonotone(t, b, a);
      assert false;
    }
    MulMonotone(t, a + 1, b);
    DivAddMul(offset, t, 1);
  }

  /** Invocation i of a block aligned to 2j finds its partner inside the array. */
  lemma PartnerIndex(base: nat, i: nat, j: nat, n: nat)
    requires 0 < j && n % (2 * j) == 0 && base % (2 * j) == 0 && i < n
    ensures base <= FlipBit(base + i, j) < base + n
    ensures FlipBit(base + i, j) - base == FlipBit(i, j)
    ensures FlipBit(i, j) > i <==> BitClear(i, j)
  {
    var c := base / (2 * j);
    assert base == 2 * j * c;
    FlipShift(i, j, c);
    PartnerInRange(i, j, n);
    BitClearInBlock(i, j);
  }

  /**
   * One invocation's compare-exchange: swap s[i] and s[l] when they are out
   * of the requested order.
   */
  method OrderPair(s: array<int>, i: nat, l: nat, ascending: bool)
    requires i < l < s.Length
    modifies s
    ensures s[..] == old(s[..])
      [i := if ascending then Min(old(s[i]), old(s[l])) else Max(old(s[i]), old(s[l]))]
      [l := if ascending then Max(old(s[i]), old(s[l])) else Min(old(s[i]), old(s[l]))]
  {
    if ascending {
      if s[i] > s[l] {
        s[i], s[l] := s[l], s[i];
      }
    } else {
      if s[i] < s[l] {
        s[i], s[l] := s[l], s[i];
      }
    }
  }

  /**
   * All invocations of one stage (k, j) over `s`, whose element 0 has global
   * index `base`. Invocation i computes its partner as (base + i) ^ j, shifted
   * back by base; when that lies above i it orders the pair ascending if bit
   * k of its global index is clear and descending otherwise. k and j are
   * powers of two, so `^ j` flips one bit and `& k` tests one.
   */
  method StagePass(s: array<int>, base: nat, k: nat, j: nat)
    requires 0 < j && 0 < k && IsPow2(j) && IsPow2(k)
    requires s.Length % (2 * j) == 0 && base % (2 * j) == 0
    modifies s
    ensures s[..] == Stage(old(s[..]), base, k, j)
  {
    ghost var a := s[..];
    StagePrefixStart(a, base, k, j);
    var n := s.Length;
    var i := 0;
    while i < n
      invariant 0 <= i <= n
      invariant s[..] == StagePrefix(a, base, k, j, i)
    {
      PartnerIndex(base, i, j, n);
      var ixj := FlipBit(base + i, j) - base;
      if ixj > i {
        StagePrefixLower(a, base, k, j, i);
        OrderPair(s, i, ixj, BitClear(base + i, k));
      } else {
        StagePrefixUpper(a, base, k, j, i);
      }
      i := i + 1;
    }
    StagePrefixDone(a, base, k, j);
  }

  /** `shared` and the storage buffer are distinct, so copying between them is a plain block move. */
  lemma BlockWrite(before: seq<int>, after: seq<int>, offset: nat, block: seq<int>)
    requires offset + |block| <= |before| && |after| == |before|
    requires forall l :: 0 <= l < |block| ==> after[offset + l] == block[l]
    requires forall p :: 0 <= p < |before| && !(offset <= p < offset + |block|) ==> after[p] == before[p]
    ensures after == before[..offset] + block + before[offset + |block|..]
  {
    var r := before[..offset] + block + before[offset + |block|..];
    forall p | 0 <= p < |after|
      ensures after[p] == r[p]
    {
      if offset <= p < offset + |block| {
        assert after[offset + (p - offset)] == block[p - offset];
      }
    }
  }

  /** Every invocation copies its element of the workgroup's block into shared memory. */
  method LoadBlock(data: array<int>, offset: nat, T: nat) returns (shared: array<int>)
    requires offset + T <= data.Length
    ensures fresh(shared) && shared[..] == data[offset..offset + T]
  {
    shared := new int[T];
    forall l | 0 <= l < T {
      shared[l] := data[offset + l];
    }
  }

  /** Every invocation copies its element of shared memory back into the storage buffer. */
  method StoreBlock(data: array<int>, offset: nat, shared: array<int>)
    requires offset + shared.Length <= data.Length && shared != data
    modifies data
    ensures data[..] == old(data[..offset]) + shared[..] + old(data[offset + shared.Length..])
  {
    forall l | 0 <= l < shared.Length {
      data[offset + l] := shared[l];
    }
    BlockWrite(old(data[..]), data[..], offset, shared[..]);
  }

  /**
   * The barrier-separated stages j = j0, j0/2, ..., 1 of phase k, run by
   * one workgroup on its copy in shared memory, whose element 0 has global
   * index `base`.
   */
  method SharedMerge(shared: array<int>, base: nat, k: nat, j0: nat)
    requires 0 < k && IsPow2(k) && (j0 == 0 || (IsPow2(j0) && shared.Length % (2 * j0) == 0 && base % (2 * j0) == 0))
    modifies shared
    ensures shared[..] == Merge(old(shared[..]), base, k, j0)
  {
    var j := j0;
    while j > 0
      invariant j == 0 || (IsPow2(j) && shared.Length % (2 * j) == 0 && base % (2 * j) == 0)
      invariant Merge(shared[..], base, k, j) == Merge(old(shared[..]), base, k, j0)
    {
      StagePass(shared, base, k, j);
      HalvePow2(shared.Length, j);
      HalvePow2(base, j);
      j := j / 2;
    }
  }

  /**
   * Kernel 1 for the workgroup whose elements start at `offset` (WorkgroupID.x * T):
   * load its T elements into shared memory, run phases k = 2, 4, ..., T, each
   * with stages j = k/2, ..., 1, and store the result back.
   */
  method LocalSortWorkgroup(data: array<int>, T: nat, offset: nat)
    requires IsPow2(T) && offset % T == 0 && offset + T <= data.Length
    modifies data
    ensures (ModSelf(T); data[..] == old(data[..offset]) + Net(old(data[offset..offset + T]), offset, T) + old(data[offset + T..]))
  {
    var shared := LoadBlock(data, offset, T);
    ghost var block := shared[..];
    var k: nat := 2;
    while k <= T
      invariant IsPow2(k) && 2 <= k <= 2 * T && T % (k / 2) == 0
      invariant shared[..] == Net(block, offset, k / 2)
      invariant data[..] == old(data[..])
      decreases 2 * T - k
    {
      assert IsPow2(k / 2) && T % k == 0 && offset % k == 0 by {
        Pow2Divides(k, T);
        MultipleOfMultiple(offset, T, k);
      }
      SharedMerge(shared, offset, k, k / 2);
      Pow2Double(k);
      k := 2 * k;
    }
    Pow2Between(k / 2, T);
    StoreBlock(data, offset, shared);
  }

  /** The three parts of a sequence made of a finished prefix and the untouched rest of a. */
  lemma PrefixSlices(a: seq<int>, offset: nat, T: nat, done: seq<int>, before: seq<int>)
    requires offset + T <= |a| && |done| == offset && before == done + a[offset..]
    ensures before[..offset] == done
    ensures before[offset..offset + T] == a[offset..offset + T]
    ensures before[offset + T..] == a[offset + T..]
  {
  }

  lemma SliceConcat(a: seq<int>, i: nat, j: nat)
    requires i <= j <= |a|
    ensures a[..i] + a[i..j] == a[..j]
  {
  }

  /** Sorting the next workgroup's block extends the sorted prefix by one block. */
  lemma SortedBlockStep(a: seq<int>, offset: nat, T: nat, before: seq<int>, after: seq<int>)
    requires IsPow2(T) && offset % T == 0 && offset + T <= |a| && (offset + T) % T == 0
    requires before == Net(a[..offset], 0, T) + a[offset..]
    requires (ModSelf(T); after == before[..offset] + Net(before[offset..offset + T], offset, T) + before[offset + T..])
    ensures after == Net(a[..offset + T], 0, T) + a[offset + T..]
  {
    var x, y := a[..offset], a[offset..offset + T];
    ModSelf(T);
    PrefixSlices(a, offset, T, Net(x, 0, T), before);
    NetSplit(x, y, 0, T);
    SliceConcat(a, offset, offset + T);
  }

  /** Kernel 1 over all workgroups: every aligned block of T elements is bitonic-sorted. */
  method LocalSortKernel(data: array<int>, T: nat)
    requires IsPow2(T) && data.Length % T == 0
    modifies data
    ensures data[..] == Net(old(data[..]), 0, T)
  {
    ghost var a := data[..];
    ModSelf(T);
    var offset: nat := 0;
    while offset < data.Length
      invariant offset <= data.Length && offset % T == 0
      invariant data[..] == Net(a[..offset], 0, T) + a[offset..]
      decreases data.Length - offset
    {
      NextBlockFits(offset, T, data.Length);
      ghost var before := data[..];
      LocalSortWorkgroup(data, T, offset);
      SortedBlockStep(a, offset, T, before, data[..]);
      offset := offset + T;
    }
    assert a[..offset] == a;
  }

  /** A power of two T above 1 splits into two halves of T/2; T == 1 has no stage below it. */
  lemma HalfBlock(T: nat)
    requires IsPow2(T)
    ensures T / 2 == 0 || (IsPow2(T / 2) && T == 2 * (T / 2) && T % (2 * (T / 2)) == 0)
  {
    Pow2Half(T);
    ModSelf(T);
  }

  /**
   * Kernel 3 for the workgroup whose elements start at `offset`: load its T
   * elements into shared memory, run stages j = T/2, ..., 1 of phase k, and
   * store the result back.
   */
  method LocalMergeWorkgroup(data: array<int>, T: nat, k: nat, offset: nat)
    requires IsPow2(T) && 0 < k && IsPow2(k) && offset % T == 0 && offset + T <= data.Length
    modifies data
    ensures (HalfBlock(T); data[..] == old(data[..offset]) + Merge(old(data[offset..offset + T]), offset, k, T / 2) + old(data[offset + T..]))
  {
    var shared := LoadBlock(data, offset, T);
    ghost var block := shared[..];
    HalfBlock(T);
    SharedMerge(shared, offset, k, T / 2);
    StoreBlock(data, offset, shared);
  }

  /** Merging the next workgroup's block extends the merged prefix by one block. */
  lemma MergedBlockStep(a: seq<int>, offset: nat, T: nat, k: nat, before: seq<int>, after: seq<int>)
    requires IsPow2(T) && 0 < k && offset % T == 0 && offset + T <= |a| && (offset + T) % T == 0
    requires (HalfBlock(T); before == Merge(a[..offset], 0, k, T / 2) + a[offset..])
    requires (HalfBlock(T); after == before[..offset] + Merge(before[offset..offset + T], offset, k, T / 2) + before[offset + T..])
    ensures (HalfBlock(T); after == Merge(a[..offset + T], 0, k, T / 2) + a[offset + T..])
  {
    var x, y := a[..offset], a[offset..offset + T];
    HalfBlock(T);
    PrefixSlices(a, offset, T, Merge(x, 0, k, T / 2), before);
    MergeSplit(x, y, 0, k, T / 2);
    SliceConcat(a, offset, offset + T);
  }

  /**
   * Kernel 2: one stage (k, j) over the whole storage buffer, with k and j
   * read from the bound uniform window (numElements.x and numElements.y).
   */
  method GlobalStageKernel(data: array<int>, window: seq<int>)
    requires |window| == 4 && window[0] > 0 && window[1] > 0 && IsPow2(window[0]) && IsPow2(window[1])
    requires data.Length % (2 * window[1]) == 0
    modifies data
    ensures data[..] == Stage(old(data[..]), 0, window[0], window[1])
  {
    StagePass(data, 0, window[0], window[1]);
  }

  /**
   * Kernel 3 over all workgroups: the stages of phase k below distance T,
   * with k read from the bound uniform window (numElements.x).
   */
  method LocalMergeKernel(data: array<int>, T: nat, window: seq<int>)
    requires IsPow2(T) && |window| == 4 && window[0] > 0 && IsPow2(window[0]) && data.Length % T == 0
    modifies data
    ensures (HalfBlock(T); data[..] == Merge(old(data[..]), 0, window[0], T / 2))
  {
    var k := window[0];
    ghost var a := data[..];
    HalfBlock(T);
    ModSelf(T);
    var offset: nat := 0;
    while offset < data.Length
      invariant offset <= data.Length && offset % T == 0
      invariant data[..] == Merge(a[..offset], 0, k, T / 2) + a[offset..]
      decreases data.Length - offset
    {
      NextBlockFits(offset, T, data.Length);
      ghost var before := data[..];
      LocalMergeWorkgroup(data, T, k, offset);
      MergedBlockStep(a, offset, T, k, before, data[..]);
      offset := offset + T;
    }
    assert a[..offset] == a;
  }
}
