/**
 * The host-side plan of the bitonic sort: the device-derived size limits,
 * the input lengths the page offers, the workgroup and round counts, and the
 * uniform buffer that carries one (k, j) pair per 256-byte slot.
 *
 * JavaScript's `<<` works on 32-bit two's-complement integers; that is
 * written out as ToInt32 wherever the source shifts.
 */
module BitonicPlan {
  import opened PowersOfTwo

  const Two31: int := 0x8000_0000
  const Two32: int := 0x1_0000_0000

  /** WebGPU's default minUniformBufferOffsetAlignment, in bytes. */
  const MinUniformOffsetAlignment: nat := 256
  /** Uint32Array.BYTES_PER_ELEMENT */
  const BytesPerU32: nat := 4
  /** u32 words per dynamic-offset slot: 256 / 4. */
  const ElementsPerDispatch: nat := 64
  /** The byte size of the uniform binding: one vec4<u32>. */
  const BindingBytes: nat := 16

  /** ECMAScript ToInt32 of an integral value: the value modulo 2^32, read as two's complement. */
  function ToInt32(v: int): (r: int)
    ensures -Two31 <= r < Two31
    ensures -Two31 <= v < Two31 ==> r == v
  {
    ToInt32Small(v);
    var m := v % Two32;
    if m >= Two31 then m - Two32 else m
  }

  lemma ToInt32Small(v: int)
    ensures -Two31 <= v < 0 ==> v % Two32 == v + Two32
    ensures 0 <= v < Two31 ==> v % Two32 == v
  {
    if -Two31 <= v < 0 {
      DivUnique(v, Two32, -1, v + Two32);
    }
    if 0 <= v < Two31 {
      DivUnique(v, Two32, 0, v);
    }
  }

  /** `1 << s`: the shift count is taken modulo 32 and the result wraps to int32. */
  function ShiftOne(s: nat): (r: int)
  {
    ToInt32(Pow2(s % 32))
  }

  lemma Pow2Of31()
    ensures Pow2(31) == Two31 && Pow2(32) == Two32
  {
    assert Pow2(8) == 256;
    Pow2Add(8, 8);
    Pow2Add(16, 8);
    Pow2Add(24, 7);
    assert Pow2(7) == 128;
  }

  lemma ShiftOneSmall(s: nat)
    requires s < 31
    ensures ShiftOne(s) == Pow2(s) && IsPow2(ShiftOne(s))
  {
    assert Pow2(s) < Two31 by {
      Pow2Monotone(s + 1, 31);
      Pow2Of31();
    }
    Pow2IsPow2(s);
    assert s % 32 == s;
  }

  /** `getLength(index)`: the number of elements offered as option `index`. */
  function GetLength(index: nat): (len: int)
  {
    ShiftOne(index + 8)
  }

  /**
   * `Math.log2(g) << 0`: the logarithm truncated to an integer. For g == 0
   * the logarithm is -Infinity, which ToInt32 turns into 0.
   */
  function TruncLog2(g: nat): (e: nat)
    ensures g >= 1 ==> Pow2(e) <= g < 2 * Pow2(e)
  {
    if g == 0 then 0 else Log2Floor(g)
  }

  /** MAX_GROUP_NUM from maxComputeWorkgroupsPerDimension. */
  function MaxGroupNum(g: nat): (m: int)
  {
    ShiftOne(TruncLog2(g))
  }

  /** The group limit is the largest power of two not above the device limit. */
  lemma MaxGroupNumIsFloorPow2(g: nat)
    requires 1 <= g < Two31
    ensures MaxGroupNum(g) >= 1 && IsPow2(MaxGroupNum(g))
    ensures MaxGroupNum(g) <= g < 2 * MaxGroupNum(g)
  {
    var e := TruncLog2(g);
    Pow2Of31();
    if e >= 31 {
      Pow2Monotone(31, e);
      assert false;
    }
    ShiftOneSmall(e);
  }

  /** A device limit of 2^31 or more makes the 32-bit shift produce a negative limit. */
  lemma MaxGroupNumWrapsAbove31(g: nat)
    requires Two31 <= g < Two32
    ensures MaxGroupNum(g) == -Two31
  {
    var e := TruncLog2(g);
    Pow2Of31();
    if e < 31 {
      Pow2Monotone(e + 1, 31);
      assert false;
    }
    if e > 31 {
      Pow2Monotone(32, e);
      assert false;
    }
  }

  /** `Math.max(1, length / T)`: the number of workgroups every dispatch launches. */
  function Workgroups(length: nat, T: nat): (g: nat)
    requires T > 0
    ensures g >= 1
  {
    if length / T >= 1 then length / T else 1
  }

  /** numK3Dispatches: the number of rounds of global merging. */
  function NumK3(groups: nat): nat
    requires IsPow2(groups)
  {
    Log2(groups)
  }

  /** numK2Dispatches: the number of (k, j) slots in the uniform buffer. */
  function NumK2(groups: nat): nat
    requires IsPow2(groups)
  {
    (1 + NumK3(groups)) * NumK3(groups) / 2
  }

  /** 0 + 1 + ... + r: the slots used by rounds 0 .. r-1. */
  function Tri(r: nat): nat
  {
    if r == 0 then 0 else Tri(r - 1) + r
  }

  lemma {:induction false} TriClosed(r: nat)
    ensures 2 * Tri(r) == r * (r + 1)
  {
    if r > 0 {
      TriClosed(r - 1);
    }
  }

  lemma {:induction false} TriMonotone(r: nat, m: nat)
    requires r <= m
    ensures Tri(r) <= Tri(m)
    decreases m
  {
    if r < m {
      TriMonotone(r, m - 1);
    }
  }

  /** The slot count formula is the triangular number of the round count. */
  lemma NumK2IsTri(groups: nat)
    requires IsPow2(groups)
    ensures NumK2(groups) == Tri(NumK3(groups))
  {
    var m := NumK3(groups);
    TriClosed(m);
    assert (1 + m) * m == 2 * Tri(m);
    DivUnique((1 + m) * m, 2, Tri(m), 0);
  }

  lemma Pow2Strict(a: nat, b: nat)
    requires a < b
    ensures 2 * Pow2(a) <= Pow2(b)
  {
    Pow2Monotone(a + 1, b);
  }

  /**
   * Every option the select box offers is a power of two of at least 256
   * elements and at most MAX_THREAD_NUM * MAX_GROUP_NUM.
   */
  lemma SelectableLength(t: nat, gExp: nat, index: nat)
    requires index + 7 < t + gExp <= 30
    ensures GetLength(index) == Pow2(index + 8) && IsPow2(GetLength(index))
    ensures 256 <= GetLength(index) <= Pow2(t) * Pow2(gExp)
  {
    var e := index + 8;
    ShiftOneSmall(e);
    Pow2Add(t, gExp);
    Pow2Monotone(e, t + gExp);
    Pow2Monotone(8, e);
  }

  /** The workgroup count for 2^e elements in workgroups of 2^t. */
  lemma WorkgroupsOfPow2(t: nat, e: nat)
    ensures e >= t ==> Workgroups(Pow2(e), Pow2(t)) == Pow2(e - t)
    ensures e >= t ==> Workgroups(Pow2(e), Pow2(t)) * Pow2(t) == Pow2(e)
    ensures e <= t ==> Workgroups(Pow2(e), Pow2(t)) == 1
  {
    if e >= t {
      Pow2Add(t, e - t);
      DivUnique(Pow2(e), Pow2(t), Pow2(e - t), 0);
    } else {
      Pow2Strict(e, t);
      DivUnique(Pow2(e), Pow2(t), 0, Pow2(e));
    }
  }

  /**
   * For 2^e elements with e <= t + gExp (every selectable length, by
   * SelectableLength), the workgroup count is a power of two between 1 and
   * MAX_GROUP_NUM = 2^gExp, and the global phase runs exactly when it is
   * above 1.
   */
  lemma WorkgroupsWithin(t: nat, gExp: nat, e: nat)
    requires e <= t + gExp
    ensures IsPow2(Workgroups(Pow2(e), Pow2(t)))
    ensures Workgroups(Pow2(e), Pow2(t)) <= Pow2(gExp)
    ensures Workgroups(Pow2(e), Pow2(t)) > 1 <==> Pow2(e) > Pow2(t)
  {
    WorkgroupsOfPow2(t, e);
    QuotientBounds(t, gExp, e);
  }

  /** The facts about 2^(e-t) that WorkgroupsWithin needs, apart from the division. */
  lemma QuotientBounds(t: nat, gExp: nat, e: nat)
    requires e <= t + gExp
    ensures e >= t ==> IsPow2(Pow2(e - t)) && Pow2(e - t) <= Pow2(gExp)
    ensures e >= t ==> (Pow2(e - t) > 1 <==> Pow2(e) > Pow2(t))
    ensures e < t ==> Pow2(e) < Pow2(t) && 1 <= Pow2(gExp)
  {
    if e >= t {
      Pow2IsPow2(e - t);
      Pow2Monotone(e - t, gExp);
      if e > t {
        Pow2Strict(t, e);
        Pow2Strict(0, e - t);
      }
    } else {
      Pow2Strict(e, t);
    }
  }

  // ---------------------------------------------------------------------
  // The uniform buffer: one slot of 64 u32 per global dispatch.

  /** Slot Tri(r) + q of `words` (round r, step q) holds k = 2^(t+r+1) and j = 2^(t+r-q). */
  predicate SlotHolds(words: seq<int>, t: nat, r: nat, q: nat)
    requires q <= r
  {
    ElementsPerDispatch * (Tri(r) + q + 1) <= |words| &&
    words[ElementsPerDispatch * (Tri(r) + q)] == Pow2(t + r + 1) &&
    words[ElementsPerDispatch * (Tri(r) + q) + 1] == Pow2(t + r - q)
  }

  /** Every slot packed before round r, step q holds its pair. */
  ghost predicate SlotsBefore(words: seq<int>, t: nat, r: nat, q: nat)
  {
    forall r': nat, q': nat :: q' <= r' && (r' < r || (r' == r && q' < q)) ==> SlotHolds(words, t, r', q')
  }

  /** Words from `offset` on, and words 2 .. 63 of every slot, are zero. */
  predicate ZeroPadded(words: seq<int>, offset: nat)
  {
    forall p :: 0 <= p < |words| && (offset <= p || p % ElementsPerDispatch >= 2) ==> words[p] == 0
  }

  /** Writing k and j into the first two words of slot Tri(r) + q packs that slot and keeps the earlier ones. */
  lemma SlotsBeforeStep(before: seq<int>, after: seq<int>, t: nat, r: nat, q: nat)
    requires q <= r && ElementsPerDispatch * (Tri(r) + q + 1) <= |before| && SlotsBefore(before, t, r, q)
    requires after == before[ElementsPerDispatch * (Tri(r) + q) := Pow2(t + r + 1)]
                            [ElementsPerDispatch * (Tri(r) + q) + 1 := Pow2(t + r - q)]
    ensures SlotsBefore(after, t, r, q + 1)
  {
    forall r': nat, q': nat | q' <= r' && (r' < r || (r' == r && q' < q + 1))
      ensures SlotHolds(after, t, r', q')
    {
      if r' < r || q' < q {
        assert ElementsPerDispatch * (Tri(r') + q') + 1 < ElementsPerDispatch * (Tri(r) + q) by {
          if r' < r {
            TriMonotone(r' + 1, r);
          }
        }
        assert SlotHolds(before, t, r', q');
      }
    }
  }

  /** The same write leaves the rest of the slot and everything after it zero. */
  lemma ZeroPaddedStep(before: seq<int>, after: seq<int>, slot: nat, k: int, j: int)
    requires ElementsPerDispatch * (slot + 1) <= |before| && ZeroPadded(before, ElementsPerDispatch * slot)
    requires after == before[ElementsPerDispatch * slot := k][ElementsPerDispatch * slot + 1 := j]
    ensures ZeroPadded(after, ElementsPerDispatch * (slot + 1))
  {
    var o := ElementsPerDispatch * slot;
    DivUnique(o, ElementsPerDispatch, slot, 0);
    DivUnique(o + 1, ElementsPerDispatch, slot, 1);
  }

  /** For 2^n elements in workgroups of 2^t the buffer has Tri(n - t) slots, one per (round, step). */
  lemma SlotTotal(T: nat, length: nat)
    requires IsPow2(T) && IsPow2(length) && T < length
    ensures Log2(T) < Log2(length)
    ensures IsPow2(Workgroups(length, T)) && NumK3(Workgroups(length, T)) == Log2(length) - Log2(T)
    ensures NumK2(Workgroups(length, T)) == Tri(Log2(length) - Log2(T))
  {
    var t, n := Log2(T), Log2(length);
    if n <= t {
      Pow2Monotone(n, t);
      assert false;
    }
    WorkgroupsOfPow2(t, n);
    Log2OfPow2(n - t);
    NumK2IsTri(Workgroups(length, T));
  }

  /** The two writes of one packing step: k and j at the start of slot Tri(r) + q. */
  method WriteSlot(data: array<int>, offset: nat, k: int, j: int, ghost t: nat, ghost r: nat, ghost q: nat)
    requires q <= r && k == Pow2(t + r + 1) && j == Pow2(t + r - q)
    requires offset == ElementsPerDispatch * (Tri(r) + q) && offset + ElementsPerDispatch <= data.Length
    requires SlotsBefore(data[..], t, r, q) && ZeroPadded(data[..], offset)
    modifies data
    ensures data[..] == old(data[..])[offset := k][offset + 1 := j]
    ensures SlotsBefore(data[..], t, r, q + 1) && ZeroPadded(data[..], offset + ElementsPerDispatch)
  {
    ghost var before := data[..];
    data[offset] := k;
    data[offset + 1] := j;
    SlotsBeforeStep(before, data[..], t, r, q);
    ZeroPaddedStep(before, data[..], Tri(r) + q, k, j);
  }

  /**
   * The inner packing loop for phase k = 2^(t+r+1): one slot (k, j) for
   * j = k/2, k/4, ..., T, each written at the running offset, which moves
   * on by 64 words.
   */
  method PackPhase(data: array<int>, offset0: nat, k: int, T: nat, ghost t: nat, ghost r: nat)
    returns (offset: nat)
    requires T == Pow2(t) && k == Pow2(t + r + 1) && offset0 == ElementsPerDispatch * Tri(r)
    requires ElementsPerDispatch * Tri(r + 1) <= data.Length
    requires SlotsBefore(data[..], t, r, 0) && ZeroPadded(data[..], offset0)
    modifies data
    ensures offset == ElementsPerDispatch * Tri(r + 1)
    ensures SlotsBefore(data[..], t, r + 1, 0) && ZeroPadded(data[..], offset)
  {
    offset := offset0;
    var j: int := k / 2;
    ghost var q: nat := 0;
    while j >= T
      invariant q <= r + 1 && offset == ElementsPerDispatch * (Tri(r) + q)
      invariant q <= r ==> j == Pow2(t + r - q)
      invariant q == r + 1 ==> j < T
      invariant SlotsBefore(data[..], t, r, q) && ZeroPadded(data[..], offset)
      decreases j
    {
      if q == r + 1 {
        assert false;
      }
      WriteSlot(data, offset, k, j, t, r, q);
      assert (q < r ==> j / 2 == Pow2(t + r - (q + 1))) && (q == r ==> j / 2 < T) by {
        if q < r {
          assert Pow2(t + r - q) == 2 * Pow2(t + r - (q + 1));
        }
      }
      offset := offset + ElementsPerDispatch;
      j := j / 2;
      q := q + 1;
    }
    if q <= r {
      Pow2Monotone(t, t + r - q);
      assert false;
    }
  }

  /**
   * The packing loop of computeGPU: phases k = 2T, 4T, ..., length, and in
   * each the distances j = k/2, ..., T, one 64-word slot per pair, in a
   * zero-initialised Uint32Array of numK2 slots. Every (round, step) slot
   * holds its pair, all other words stay zero, and the final write offset
   * is the end of the buffer.
   */
  method PackUniforms(length: nat, T: nat, numK2: nat, ghost t: nat, ghost n: nat) returns (words: seq<int>, offset: nat)
    requires T == Pow2(t) && length == Pow2(n) && t < n && length < 0x4000_0000
    requires numK2 == Tri(n - t)
    ensures |words| == ElementsPerDispatch * numK2 && offset == |words|
    ensures forall r: nat, q: nat :: q <= r < n - t ==> SlotHolds(words, t, r, q)
    ensures forall p :: 0 <= p < |words| && p % ElementsPerDispatch >= 2 ==> words[p] == 0
  {
    var data := new int[numK2 * ElementsPerDispatch](_ => 0);
    offset := 0;
    var k: int := T * 2;
    ghost var r: nat := 0;
    while k <= length
      invariant r <= n - t && k == Pow2(t + r + 1) && offset == ElementsPerDispatch * Tri(r)
      invariant SlotsBefore(data[..], t, r, 0) && ZeroPadded(data[..], offset)
      decreases length - k
    {
      if r == n - t {
        assert false;
      }
      TriMonotone(r + 1, n - t);
      offset := PackPhase(data, offset, k, T, t, r);
      Pow2Monotone(t + r + 1, n);
      k := ToInt32(k * 2);
      r := r + 1;
    }
    if r < n - t {
      Pow2Monotone(t + r + 1, n);
      assert false;
    }
    words := data[..];
    forall r': nat, q': nat | q' <= r' < n - t
      ensures SlotHolds(words, t, r', q')
    {
      assert SlotsBefore(words, t, r, 0);
    }
  }
}
