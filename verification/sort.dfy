/**
 * computeGPU end to end: copy the input into the storage buffer, run the
 * local sort, pack the uniform buffer, then for each round r issue r + 1
 * global stages (each with its own dynamic uniform offset) followed by one
 * local merge, and finally check the read-back result with validateSorted.
 */
module BitonicSort {
  import opened PowersOfTwo
  import opened BitonicNetwork
  import opened BitonicKernels
  import opened BitonicPlan
  import Readback

  // ---------------------------------------------------------------------
  // validateSorted

  lemma {:induction false} AdjacentChain(s: seq<int>, p: nat, q: nat)
    requires forall i :: 0 <= i < |s| - 1 ==> s[i] <= s[i + 1]
    requires p <= q < |s|
    ensures s[p] <= s[q]
    decreases q - p
  {
    if p < q {
      AdjacentChain(s, p + 1, q);
    }
  }

  /** Ordered neighbours make an ordered sequence. */
  lemma AdjacentSorted(s: seq<int>)
    requires forall i :: 0 <= i < |s| - 1 ==> s[i] <= s[i + 1]
    ensures Sorted(s)
  {
    forall p, q | 0 <= p < q < |s|
      ensures s[p] <= s[q]
    {
      AdjacentChain(s, p, q);
    }
  }

  /**
   * validateSorted: scan the neighbours and give up at the first pair that
   * is out of order; the last index has no successor and is skipped.
   */
  method ValidateSorted(arr: seq<int>) returns (ok: bool)
    ensures ok <==> Sorted(arr)
  {
    var length := |arr|;
    var i := 0;
    while i < length
      invariant 0 <= i <= length
      invariant forall p :: 0 <= p < i && p != length - 1 ==> arr[p] <= arr[p + 1]
    {
      if i != length - 1 && arr[i] > arr[i + 1] {
        return false;
      }
      i := i + 1;
    }
    AdjacentSorted(arr);
    return true;
  }

  // ---------------------------------------------------------------------
  // The dispatch loop

  lemma Pow2DividesExp(a: nat, b: nat)
    requires a <= b
    ensures IsPow2(Pow2(a)) && Pow2(b) % Pow2(a) == 0
  {
    Pow2IsPow2(a);
    Pow2IsPow2(b);
    Pow2Monotone(a, b);
    Pow2Divides(Pow2(a), Pow2(b));
  }

  /**
   * For 2^n elements and e < n: phase 2^(e+1) of the network is the merge,
   * from distance 2^e, of the network up to phase 2^e.
   */
  lemma NetStep(a: seq<int>, e: nat, n: nat)
    requires |a| == Pow2(n) && e < n
    ensures IsPow2(Pow2(e)) && IsPow2(Pow2(e + 1)) && |a| % Pow2(e) == 0 && |a| % Pow2(e + 1) == 0
    ensures |a| % (2 * Pow2(e)) == 0
    ensures Merge(Net(a, 0, Pow2(e)), 0, Pow2(e + 1), Pow2(e)) == Net(a, 0, Pow2(e + 1))
  {
    Pow2DividesExp(e + 1, n);
    Pow2IsPow2(e);
    ModHalf(|a|, Pow2(e));
  }

  /** The slot of round r, step q, read through the byte offset 256 * (Tri(r) + q). */
  lemma WindowOfSlot(words: seq<int>, t: nat, r: nat, q: nat, offset: nat)
    requires q <= r && SlotHolds(words, t, r, q) && offset == MinUniformOffsetAlignment * (Tri(r) + q)
    ensures offset / BytesPerU32 + BindingBytes / BytesPerU32 <= |words|
    ensures words[offset / BytesPerU32] == Pow2(t + r + 1)
    ensures words[offset / BytesPerU32 + 1] == Pow2(t + r - q)
  {
    DivUnique(offset, BytesPerU32, ElementsPerDispatch * (Tri(r) + q), 0);
  }

  /**
   * One global dispatch of round r, step q: bind the uniform window at the
   * dynamic offset 256 * (Tri(r) + q) and run kernel 2 with the (k, j) it
   * holds.
   */
  method GlobalDispatch(data: array<int>, words: seq<int>, offset: nat, ghost t: nat, ghost r: nat, ghost q: nat)
    returns (window: seq<int>)
    requires q <= r && SlotHolds(words, t, r, q) && offset == MinUniformOffsetAlignment * (Tri(r) + q)
    requires data.Length % (2 * Pow2(t + r - q)) == 0
    modifies data
    ensures |window| == 4 && window[0] == Pow2(t + r + 1) && window[1] == Pow2(t + r - q)
    ensures data[..] == Stage(old(data[..]), 0, Pow2(t + r + 1), Pow2(t + r - q))
  {
    WindowOfSlot(words, t, r, q, offset);
    window := words[offset / BytesPerU32 .. offset / BytesPerU32 + BindingBytes / BytesPerU32];
    Pow2IsPow2(t + r + 1);
    Pow2IsPow2(t + r - q);
    GlobalStageKernel(data, window);
  }

  /** The distance after j = 2^(t+r-q) in round r: the next step's, or T/2 once the round's global steps are done. */
  lemma NextDistance(t: nat, r: nat, q: nat, n: nat, j: nat)
    requires q <= r && t + r < n && j == Pow2(t + r - q)
    ensures q < r ==> j / 2 == Pow2(t + r - (q + 1))
    ensures q == r ==> j / 2 == Pow2(t) / 2
    ensures j / 2 == 0 || (IsPow2(j / 2) && Pow2(n) % (2 * (j / 2)) == 0)
  {
    if q < r {
      Pow2DividesExp(t + r - q, n);
    } else {
      Pow2DividesExp(t, n);
      Pow2Half(Pow2(t));
    }
  }

  /** The dynamic offsets bound so far: 256 * 0, 256 * 1, ..., one per dispatch. */
  predicate DynamicOffsets(offsets: seq<nat>)
  {
    forall i :: 0 <= i < |offsets| ==> offsets[i] == MinUniformOffsetAlignment * i
  }

  /**
   * The global stages of round r, for phase k = 2^(t+r+1): j = k/2, ..., T,
   * each reading its own slot through the dynamic offset 256 * dynamicIndex.
   * Leaves what the local merge from T/2 completes, and the window bound
   * last, whose k the local merge reads.
   */
  method GlobalSteps(data: array<int>, words: seq<int>, r: nat, dynamicIndex0: nat, offsets0: seq<nat>,
                     ghost t: nat, ghost n: nat, ghost target: seq<int>)
    returns (dynamicIndex: nat, offsets: seq<nat>, window: seq<int>)
    requires data.Length == Pow2(n) && t + r < n
    requires forall q: nat :: q <= r ==> SlotHolds(words, t, r, q)
    requires dynamicIndex0 == Tri(r) && |offsets0| == dynamicIndex0 && DynamicOffsets(offsets0)
    requires IsPow2(Pow2(t + r)) && data.Length % (2 * Pow2(t + r)) == 0
    requires Merge(data[..], 0, Pow2(t + r + 1), Pow2(t + r)) == target
    modifies data
    ensures dynamicIndex == Tri(r + 1) && |offsets| == dynamicIndex && DynamicOffsets(offsets)
    ensures |window| == 4 && window[0] == Pow2(t + r + 1)
    ensures Pow2(t) / 2 == 0 || (IsPow2(Pow2(t) / 2) && data.Length % (2 * (Pow2(t) / 2)) == 0)
    ensures Merge(data[..], 0, Pow2(t + r + 1), Pow2(t) / 2) == target
  {
    ghost var k := Pow2(t + r + 1);
    ghost var j: nat := Pow2(t + r);
    dynamicIndex, offsets := dynamicIndex0, offsets0;
    window := [];
    var q: nat := 0;
    while q <= r
      invariant q <= r + 1 && dynamicIndex == Tri(r) + q && |offsets| == dynamicIndex && DynamicOffsets(offsets)
      invariant q <= r ==> j == Pow2(t + r - q)
      invariant q == r + 1 ==> j == Pow2(t) / 2 && |window| == 4 && window[0] == k
      invariant j == 0 || (IsPow2(j) && data.Length % (2 * j) == 0)
      invariant Merge(data[..], 0, k, j) == target
    {
      var offset: nat := MinUniformOffsetAlignment * dynamicIndex;
      offsets := offsets + [offset];
      ghost var before := data[..];
      window := GlobalDispatch(data, words, offset, t, r, q);
      NextDistance(t, r, q, n, j);
      MergeUnfold(before, 0, k, j);
      j := j / 2;
      dynamicIndex := dynamicIndex + 1;
      q := q + 1;
    }
  }

  /**
   * Round r of the dispatch loop, for phase k = T * 2^(r+1): the global
   * stages, then the local merge, which reads k from the slot bound last.
   * Records the offsets it binds.
   */
  method MergeRound(data: array<int>, words: seq<int>, T: nat, r: nat, dynamicIndex0: nat, offsets0: seq<nat>,
                    ghost t: nat, ghost n: nat, ghost a0: seq<int>)
    returns (dynamicIndex: nat, offsets: seq<nat>)
    requires T == Pow2(t) && data.Length == Pow2(n) == |a0| && t + r < n
    requires forall q: nat :: q <= r ==> SlotHolds(words, t, r, q)
    requires dynamicIndex0 == Tri(r) && |offsets0| == dynamicIndex0 && DynamicOffsets(offsets0)
    requires IsPow2(Pow2(t + r)) && |a0| % Pow2(t + r) == 0 && data[..] == Net(a0, 0, Pow2(t + r))
    modifies data
    ensures dynamicIndex == Tri(r + 1) && |offsets| == dynamicIndex && DynamicOffsets(offsets)
    ensures IsPow2(Pow2(t + r + 1)) && |a0| % Pow2(t + r + 1) == 0 && data[..] == Net(a0, 0, Pow2(t + r + 1))
  {
    NetStep(a0, t + r, n);
    var window;
    dynamicIndex, offsets, window := GlobalSteps(data, words, r, dynamicIndex0, offsets0, t, n, Net(a0, 0, Pow2(t + r + 1)));
    Pow2IsPow2(t);
    Pow2IsPow2(t + r + 1);
    LocalMergeKernel(data, T, window);
  }

  /**
   * The dispatch loop of computeGPU's `threadgroupsPerGrid > 1` branch:
   * rounds 0 .. numK3 - 1 over the packed uniform buffer, for 2^n elements
   * in workgroups of T = 2^t. Turns the locally sorted buffer into the
   * fully sorted one.
   */
  method GlobalRounds(data: array<int>, T: nat, numK3: nat, words: seq<int>, ghost t: nat, ghost n: nat, ghost a0: seq<int>)
    returns (offsets: seq<nat>)
    requires T == Pow2(t) && data.Length == Pow2(n) && t + numK3 == n && |a0| == data.Length
    requires forall r: nat, q: nat :: q <= r < numK3 ==> SlotHolds(words, t, r, q)
    requires IsPow2(T) && IsPow2(data.Length) && data.Length % T == 0 && data[..] == Net(a0, 0, T)
    modifies data
    ensures (ModSelf(data.Length); data[..] == Net(a0, 0, data.Length))
    ensures |offsets| == Tri(numK3)
    ensures DynamicOffsets(offsets)
  {
    offsets := [];
    var dynamicIndex: nat := 0;
    var r: nat := 0;
    while r < numK3
      invariant r <= numK3 && dynamicIndex == Tri(r) && |offsets| == dynamicIndex
      invariant DynamicOffsets(offsets)
      invariant IsPow2(Pow2(t + r)) && data.Length % Pow2(t + r) == 0 && data[..] == Net(a0, 0, Pow2(t + r))
    {
      dynamicIndex, offsets := MergeRound(data, words, T, r, dynamicIndex, offsets, t, n, a0);
      r := r + 1;
    }
  }

  /**
   * The `threadgroupsPerGrid > 1` branch of computeGPU: the round and slot
   * counts, the packed uniform buffer, and the dispatch loop.
   */
  method GlobalPhase(data: array<int>, T: nat, groups: nat, ghost a0: seq<int>) returns (offsets: seq<nat>)
    requires IsPow2(T) && IsPow2(data.Length) && T < data.Length < 0x4000_0000 && |a0| == data.Length
    requires groups == Workgroups(data.Length, T) && IsPow2(groups)
    requires data.Length % T == 0 && data[..] == Net(a0, 0, T)
    modifies data
    ensures (ModSelf(data.Length); data[..] == Net(a0, 0, data.Length))
    ensures |offsets| == NumK2(groups)
    ensures DynamicOffsets(offsets)
  {
    var length := data.Length;
    var numK3 := NumK3(groups);
    var numK2 := (1 + numK3) * numK3 / 2;
    assert numK2 == NumK2(groups);
    ghost var t, n := Log2(T), Log2(length);
    SlotTotal(T, length);
    var words, _ := PackUniforms(length, T, numK2, t, n);
    offsets := GlobalRounds(data, T, numK3, words, t, n, a0);
    NumK2IsTri(groups);
  }

  /** Offsets 256 * i for i below the slot count are aligned and their 16-byte windows fit the buffer. */
  lemma OffsetsInBuffer(offsets: seq<nat>)
    requires DynamicOffsets(offsets)
    ensures forall i :: 0 <= i < |offsets| ==>
      offsets[i] % MinUniformOffsetAlignment == 0 &&
      offsets[i] + BindingBytes <= MinUniformOffsetAlignment * |offsets|
  {
    forall i | 0 <= i < |offsets|
      ensures offsets[i] % MinUniformOffsetAlignment == 0
      ensures offsets[i] + BindingBytes <= MinUniformOffsetAlignment * |offsets|
    {
      DivAddMul(0, MinUniformOffsetAlignment, i);
      MulMonotone(MinUniformOffsetAlignment, i + 1, |offsets|);
    }
  }

  /** The workgroup count of a power-of-two input: a power of two, above 1 exactly when the input exceeds one block. */
  lemma GroupCount(T: nat, length: nat)
    requires IsPow2(T) && IsPow2(length) && T <= length
    ensures IsPow2(Workgroups(length, T)) && (Workgroups(length, T) > 1 <==> length > T) && length % T == 0
  {
    var t, n := Log2(T), Log2(length);
    if n < t {
      Pow2Monotone(n + 1, t);
      assert false;
    }
    WorkgroupsWithin(t, n - t, n);
    Pow2DividesExp(t, n);
  }

  /**
   * computeGPU for `arr` with MAX_THREAD_NUM = T: the storage buffer ends
   * up ascending and a permutation of the input; read back through a
   * ReadbackBuffer into a Float32Array of the same length, whose buffers
   * are all destroyed afterwards, it is what validateSorted accepts; and
   * the dynamic offsets bound are 256 * 0, 256 * 1, ..., one per slot of
   * the uniform buffer, each window of 16 bytes inside that buffer.
   */
  method ComputeGpu(arr: seq<int>, T: nat)
    returns (result: seq<int>, valid: bool, offsets: seq<nat>, released: seq<Readback.UnitBuffer>)
    requires IsPow2(T) && IsPow2(|arr|) && T <= |arr| < 0x4000_0000
    ensures Sorted(result) && multiset(result) == multiset(arr)
    ensures valid
    ensures |released| == Readback.CeilDiv(4 * |arr|, Readback.MaxReadBytes)
    ensures forall i :: 0 <= i < |released| ==> released[i].destroyed
    ensures IsPow2(Workgroups(|arr|, T)) && |offsets| == NumK2(Workgroups(|arr|, T))
    ensures forall i :: 0 <= i < |offsets| ==> offsets[i] == MinUniformOffsetAlignment * i
    ensures forall i :: 0 <= i < |offsets| ==>
      offsets[i] % MinUniformOffsetAlignment == 0 &&
      offsets[i] + BindingBytes <= MinUniformOffsetAlignment * |offsets|
  {
    var length := |arr|;
    var groups := Workgroups(length, T);
    GroupCount(T, length);

    var data := new int[length](i requires 0 <= i < length => arr[i]);
    assert data[..] == arr;
    LocalSortKernel(data, T);

    offsets := [];
    if groups > 1 {
      offsets := GlobalPhase(data, T, groups, arr);
    } else {
      assert NumK2(groups) == 0 by {
        Log2OfPow2(0);
      }
    }
    result, released := Readback.ReadBackFloat32(data[..]);
    NetSortsWhole(arr);
    valid := ValidateSorted(result);
    OffsetsInBuffer(offsets);
  }
}
