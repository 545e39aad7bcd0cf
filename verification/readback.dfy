/**
 * ReadbackBuffer: reading a large GPU buffer back into a host typed array
 * through several map-readable buffers of at most MAX_READ_BYTES each.
 *
 * A typed array is modelled by the bytes of its backing store, an
 * `array<int>` with one entry per byte, together with its element size
 * (BYTES_PER_ELEMENT); a GPU buffer by a `UnitBuffer` value holding its
 * size, its bytes and whether it has been destroyed. Typed-array `set` from
 * a view of the same type copies bytes, so the model copies bytes.
 */
module Readback {
  import opened PowersOfTwo
  import opened Multiples

  datatype Option<T> = None | Some(value: T)

  /** MAX_READ_BYTES = 2 << 18. */
  const MaxReadBytes: nat := 524288

  /** Math.ceil(n / d) for non-negative integers. */
  function CeilDiv(n: nat, d: nat): nat
    requires d > 0
  {
    (n + d - 1) / d
  }

  /** CeilDiv is the least count of d-sized pieces that reaches n. */
  lemma CeilDivLeast(n: nat, d: nat)
    requires d > 0
    ensures CeilDiv(n, d) * d >= n
    ensures CeilDiv(n, d) > 0 ==> (CeilDiv(n, d) - 1) * d < n
    ensures CeilDiv(n, d) == 0 <==> n == 0
  {
    var c, r := (n + d - 1) / d, (n + d - 1) % d;
    assert n + d - 1 == d * c + r;
    assert c * d == d * c;
    if c > 0 {
      assert (c - 1) * d == d * c - d;
    }
    if n == 0 {
      DivUnique(d - 1, d, 0, d - 1);
    }
  }

  /**
   * The split is exact: the byte length divides by the number of pieces
   * and each piece holds whole elements. Float32ChunksEven shows both for
   * the power-of-two Float32Array lengths the sort reads back.
   */
  predicate EvenChunks(byteLength: nat, elementBytes: nat)
    requires elementBytes > 0
  {
    var n := CeilDiv(byteLength, MaxReadBytes);
    n == 0 || (byteLength % n == 0 && (byteLength / n) % elementBytes == 0)
  }

  /** MAX_READ_BYTES is 2^19. */
  lemma MaxReadBytesPow2()
    ensures Pow2(19) == MaxReadBytes
  {
    Pow2Add(4, 4);
    Pow2Add(8, 8);
    Pow2Add(16, 3);
  }

  /**
   * A Float32Array of n = 2^e elements splits exactly: up to 2^17
   * elements it is one piece, above that 2^(e-17) pieces of
   * MAX_READ_BYTES each.
   */
  lemma Float32ChunksEven(n: nat)
    requires IsPow2(n)
    ensures EvenChunks(4 * n, 4)
  {
    var e := Log2(n);
    var bytes := Pow2(e + 2);
    assert bytes == 4 * Pow2(e) by {
      assert Pow2(e + 2) == 2 * Pow2(e + 1);
      assert Pow2(e + 1) == 2 * Pow2(e);
    }
    MaxReadBytesPow2();
    if e + 2 <= 19 {
      Pow2Monotone(e + 2, 19);
      OnePiece(bytes, Pow2(e));
    } else {
      Pow2Add(e + 2 - 19, 19);
      FullPieces(bytes, Pow2(e + 2 - 19));
    }
  }

  /** Up to MAX_READ_BYTES of whole four-byte elements make one piece. */
  lemma OnePiece(bytes: nat, m: nat)
    requires 0 < bytes <= MaxReadBytes && bytes == 4 * m
    ensures EvenChunks(bytes, 4)
  {
    DivUnique(bytes + MaxReadBytes - 1, MaxReadBytes, 1, bytes - 1);
    DivUnique(bytes, 4, m, 0);
  }

  /** c times MAX_READ_BYTES make c pieces of MAX_READ_BYTES. */
  lemma FullPieces(bytes: nat, c: nat)
    requires c > 0 && bytes == c * MaxReadBytes
    ensures EvenChunks(bytes, 4)
  {
    DivUnique(bytes + MaxReadBytes - 1, MaxReadBytes, c, MaxReadBytes - 1);
    DivUnique(bytes, c, MaxReadBytes, 0);
  }

  /**
   * The backing store of a Float32Array holding s, four bytes per element.
   * The model does not encode floats: an element's four bytes are the
   * element itself followed by three zero bytes.
   */
  function Float32Bytes(s: seq<int>): (b: seq<int>)
    ensures |b| == 4 * |s|
  {
    if |s| == 0 then [] else Float32Bytes(s[..|s| - 1]) + [s[|s| - 1], 0, 0, 0]
  }

  /** The elements a Float32Array view reads from a backing store: the first byte of every four. */
  function Float32Values(b: seq<int>): (s: seq<int>)
    requires |b| % 4 == 0
    ensures |s| == |b| / 4
  {
    seq(|b| / 4, i requires 0 <= i < |b| / 4 => b[4 * i])
  }

  /** Element i of s sits at byte 4i of its backing store. */
  lemma {:induction false} Float32BytesAt(s: seq<int>, i: nat)
    requires i < |s|
    ensures Float32Bytes(s)[4 * i] == s[i]
  {
    if i < |s| - 1 {
      Float32BytesAt(s[..|s| - 1], i);
    }
  }

  /** Viewing the bytes of a Float32Array as floats gives back its elements. */
  lemma Float32RoundTrip(s: seq<int>)
    ensures Float32Values(Float32Bytes(s)) == s
  {
    forall i | 0 <= i < |s|
      ensures Float32Values(Float32Bytes(s))[i] == s[i]
    {
      Float32BytesAt(s, i);
    }
  }

  /** The concatenation of a list of byte chunks. */
  function Flatten(chunks: seq<seq<int>>): seq<int>
  {
    if |chunks| == 0 then [] else Flatten(chunks[..|chunks| - 1]) + chunks[|chunks| - 1]
  }

  /** `chunk` is piece i of equal pieces of `unit` bytes cut from `s` at `offset`. */
  predicate IsPiece(chunk: seq<int>, s: seq<int>, offset: nat, unit: nat, i: nat)
  {
    offset + Stride(unit, i) + unit <= |s| && chunk == s[offset + Stride(unit, i) .. offset + Stride(unit, i) + unit]
  }

  /** Gluing pieces 0 .. n - 1 back together gives the whole range they were cut from. */
  lemma {:induction false} FlattenPieces(s: seq<int>, offset: nat, unit: nat, chunks: seq<seq<int>>)
    requires offset + Stride(unit, |chunks|) <= |s|
    requires forall i :: 0 <= i < |chunks| ==> IsPiece(chunks[i], s, offset, unit, i)
    ensures Flatten(chunks) == s[offset .. offset + Stride(unit, |chunks|)]
  {
    var n := |chunks|;
    if n > 0 {
      var m := n - 1;
      var mid, end := offset + Stride(unit, m), offset + Stride(unit, n);
      PrefixPieces(s, offset, unit, chunks, m);
      FlattenPieces(s, offset, unit, chunks[..m]);
      assert chunks[m] == s[mid..end] by {
        assert IsPiece(chunks[m], s, offset, unit, m);
      }
      assert Flatten(chunks) == Flatten(chunks[..m]) + chunks[m];
      SliceSplit(s, offset, mid, end);
    }
  }

  /** The first m pieces are pieces of the same source. */
  lemma PrefixPieces(s: seq<int>, offset: nat, unit: nat, chunks: seq<seq<int>>, m: nat)
    requires m < |chunks| && offset + Stride(unit, |chunks|) <= |s|
    requires forall i :: 0 <= i < |chunks| ==> IsPiece(chunks[i], s, offset, unit, i)
    ensures offset + Stride(unit, m) <= |s| && |chunks[..m]| == m
    ensures forall i :: 0 <= i < m ==> IsPiece(chunks[..m][i], s, offset, unit, i)
  {
    StrideFits(unit, m, |chunks|);
  }

  lemma SliceSplit(s: seq<int>, a: nat, b: nat, c: nat)
    requires a <= b <= c <= |s|
    ensures s[a..c] == s[a..b] + s[b..c]
  {
  }

  /** The element offset o * i scaled by the element size e is the byte offset of piece i. */
  lemma ElementOffset(o: nat, e: nat, i: nat)
    ensures (o * i) * e == Stride(o * e, i)
  {
    assert (o * i) * e == (o * e) * i;
    StrideIsProduct(o * e, i);
  }

  /**
   * Every byte below unit * n lies in exactly one piece: the one with
   * index p / unit.
   */
  lemma PieceOfByte(unit: nat, n: nat, p: nat, i: nat)
    requires unit > 0 && i < n && unit * i <= p < unit * (i + 1)
    ensures p / unit == i && p < unit * n
  {
    DivUnique(p, unit, i, p - unit * i);
    MulMonotone(unit, i + 1, n);
  }

  /**
   * A map-readable GPU buffer: its size, its bytes, and whether it was
   * destroyed. Only the ReadbackBuffer holds its buffers, so they are kept
   * as values in its list.
   */
  datatype UnitBuffer = UnitBuffer(size: nat, contents: seq<int>, destroyed: bool)

  /** device.createBuffer: a live buffer of `size` zero bytes. */
  function NewBuffer(size: nat): UnitBuffer
  {
    UnitBuffer(size, seq(size, _ => 0), false)
  }

  /** The byte contents of a list of buffers, in order. */
  function Contents(list: seq<UnitBuffer>): (r: seq<seq<int>>)
    ensures |r| == |list| && forall i :: 0 <= i < |list| ==> r[i] == list[i].contents
  {
    if |list| == 0 then [] else Contents(list[..|list| - 1]) + [list[|list| - 1].contents]
  }

  /** Pieces 0 .. n - 1 of the list, cut from `src` at `offset`, glue back into the range they came from. */
  lemma CoverSource(list: seq<UnitBuffer>, n: nat, src: seq<int>, offset: nat, unit: nat)
    requires n <= |list| && offset + Stride(unit, n) <= |src|
    requires forall i :: 0 <= i < n ==> IsPiece(list[i].contents, src, offset, unit, i)
    ensures Flatten(Contents(list[..n])) == src[offset .. offset + Stride(unit, n)]
  {
    var chunks := Contents(list[..n]);
    assert forall i :: 0 <= i < n ==> IsPiece(chunks[i], src, offset, unit, i);
    FlattenPieces(src, offset, unit, chunks);
  }

  /** One more chunk adds its bytes at the end. */
  lemma FlattenStep(chunks: seq<seq<int>>, i: nat)
    requires i < |chunks|
    ensures Flatten(chunks[..i + 1]) == Flatten(chunks[..i]) + chunks[i]
  {
    assert chunks[..i + 1][..i] == chunks[..i];
  }

  /** Typed-array `set(source, elementOffset)`, on the bytes of the target. */
  method SetBytes(target: array<int>, source: seq<int>, byteOffset: nat)
    requires byteOffset + |source| <= target.Length
    modifies target
    ensures target[..byteOffset] == old(target[..byteOffset])
    ensures target[byteOffset..byteOffset + |source|] == source
    ensures target[byteOffset + |source|..] == old(target[byteOffset + |source|..])
  {
    var p := 0;
    while p < |source|
      invariant 0 <= p <= |source|
      invariant target[..byteOffset] == old(target[..byteOffset])
      invariant target[byteOffset..byteOffset + p] == source[..p]
      invariant target[byteOffset + p..] == old(target[byteOffset + p..])
    {
      target[byteOffset + p] := source[p];
      p := p + 1;
    }
  }

  /** Setting the next piece right after the bytes already read extends them by that piece. */
  method ReadPiece(target: array<int>, piece: seq<int>, byteOffset: nat, ghost read: seq<int>)
    requires byteOffset + |piece| <= target.Length && target[..byteOffset] == read
    modifies target
    ensures target[..byteOffset + |piece|] == read + piece
  {
    SetBytes(target, piece, byteOffset);
    assert target[..byteOffset + |piece|] == target[..byteOffset] + target[byteOffset..byteOffset + |piece|];
  }

  /**
   * The loop of mapReadAsync: chunk i is set at element offset
   * offsetElementLength * i, that is at byte offset unit * i.
   */
  method ReadPieces(buffer: array<int>, chunks: seq<seq<int>>, unit: nat, offsetElementLength: nat, elementBytes: nat)
    requires |chunks| * unit == buffer.Length && offsetElementLength * elementBytes == unit
    requires forall i :: 0 <= i < |chunks| ==> |chunks[i]| == unit
    modifies buffer
    ensures buffer[..] == Flatten(chunks)
  {
    var n := |chunks|;
    assert buffer.Length == Stride(unit, n) by {
      StrideIsProduct(unit, n);
    }
    var i := 0;
    while i < n
      invariant i <= n && Stride(unit, i) <= buffer.Length
      invariant buffer[..Stride(unit, i)] == Flatten(chunks[..i])
    {
      var elementOffset := offsetElementLength * i;
      assert elementOffset * elementBytes == Stride(unit, i) by {
        ElementOffset(offsetElementLength, elementBytes, i);
      }
      StrideFits(unit, i, n);
      ReadPiece(buffer, chunks[i], elementOffset * elementBytes, Flatten(chunks[..i]));
      FlattenStep(chunks, i);
      i := i + 1;
    }
    assert buffer[..] == buffer[..Stride(unit, n)];
    assert chunks[..n] == chunks;
  }

  /** The loop of copyBufferToBuffer: buffer i receives `unit` bytes of `src` from srcOffset + unit * i. */
  method CutPieces(list0: seq<UnitBuffer>, n: nat, src: seq<int>, srcOffset: nat, unit: nat) returns (list: seq<UnitBuffer>)
    requires n <= |list0| && srcOffset + Stride(unit, n) <= |src|
    ensures |list| == |list0|
    ensures forall i :: 0 <= i < n ==> list[i].size == list0[i].size && list[i].destroyed == list0[i].destroyed
    ensures forall i :: 0 <= i < n ==> IsPiece(list[i].contents, src, srcOffset, unit, i)
    ensures forall i :: n <= i < |list| ==> list[i] == list0[i]
  {
    list := list0;
    var i := 0;
    while i < n
      invariant i <= n && |list| == |list0|
      invariant forall i' :: 0 <= i' < n ==> list[i'].size == list0[i'].size && list[i'].destroyed == list0[i'].destroyed
      invariant forall i' :: 0 <= i' < i ==> IsPiece(list[i'].contents, src, srcOffset, unit, i')
      invariant forall i' :: i <= i' < |list| ==> list[i'] == list0[i']
    {
      assert unit * i == Stride(unit, i) by {
        StrideIsProduct(unit, i);
      }
      StrideFits(unit, i, n);
      list := list[i := list[i].(contents := src[srcOffset + unit * i .. srcOffset + unit * i + unit])];
      i := i + 1;
    }
  }

  class ReadbackBuffer {
    /** The host typed array's bytes; null once destroyed. */
    var buffer: array?<int>
    /** BYTES_PER_ELEMENT of the host typed array. */
    const elementBytes: nat
    var numBuffers: nat
    var unitByteLength: nat
    var offsetElementLength: nat
    /** The map-readable buffers; None stands for null once destroyed. */
    var unitBufferList: Option<seq<UnitBuffer>>

    /**
     * Splits the host array's bytes into numBuffers pieces of
     * unitByteLength bytes, the fewest pieces of at most MAX_READ_BYTES.
     * For an empty array the quotient 0 / 0 is NaN in the source; no loop
     * runs then, and the model stores 0.
     */
    constructor(buffer: array<int>, elementBytes: nat)
      requires elementBytes > 0 && EvenChunks(buffer.Length, elementBytes)
      ensures this.buffer == buffer && this.elementBytes == elementBytes
      ensures numBuffers == CeilDiv(buffer.Length, MaxReadBytes)
      ensures numBuffers * unitByteLength == buffer.Length && unitByteLength <= MaxReadBytes
      ensures offsetElementLength * elementBytes == unitByteLength
      ensures unitBufferList == Some([])
    {
      var n := CeilDiv(buffer.Length, MaxReadBytes);
      var unit := if n == 0 then 0 else buffer.Length / n;
      this.buffer := buffer;
      this.elementBytes := elementBytes;
      numBuffers := n;
      unitByteLength := unit;
      offsetElementLength := unit / elementBytes;
      unitBufferList := Some([]);
      new;
      CeilDivLeast(buffer.Length, MaxReadBytes);
      if n > 0 {
        DivUnique(buffer.Length, n, unit, 0);
        DivUnique(unit, elementBytes, unit / elementBytes, 0);
        if unit > MaxReadBytes {
          MulMonotone(n, MaxReadBytes + 1, unit);
          assert false;
        }
      }
    }

    /**
     * createBuffer: entries 0 .. numBuffers - 1 of the list become new
     * zeroed buffers of unitByteLength bytes; entries beyond stay.
     */
    method CreateBuffer()
      requires unitBufferList.Some?
      modifies this
      ensures unitBufferList.Some? && |unitBufferList.value| == Max(|old(unitBufferList.value)|, numBuffers)
      ensures forall i :: 0 <= i < numBuffers ==> unitBufferList.value[i] == NewBuffer(unitByteLength)
      ensures forall i :: numBuffers <= i < |unitBufferList.value| ==> unitBufferList.value[i] == old(unitBufferList.value[i])
      ensures buffer == old(buffer) && numBuffers == old(numBuffers) && unitByteLength == old(unitByteLength)
      ensures offsetElementLength == old(offsetElementLength)
    {
      var list := unitBufferList.value;
      var i := 0;
      while i < numBuffers
        invariant i <= numBuffers && |list| == Max(|old(unitBufferList.value)|, i) && unchanged(this)
        invariant forall i' :: 0 <= i' < i ==> list[i'] == NewBuffer(unitByteLength)
        invariant forall i' :: i <= i' < |list| ==> list[i'] == old(unitBufferList.value[i'])
      {
        list := if i < |list| then list[i := NewBuffer(unitByteLength)] else list + [NewBuffer(unitByteLength)];
        i := i + 1;
      }
      unitBufferList := Some(list);
    }

    /** The first numBuffers buffers exist, are live and have unitByteLength bytes each. */
    predicate UnitsReady()
      reads this
    {
      unitBufferList.Some? && numBuffers <= |unitBufferList.value| &&
      forall i :: 0 <= i < numBuffers ==>
        unitBufferList.value[i].size == unitByteLength && !unitBufferList.value[i].destroyed
    }

    /**
     * copyBufferToBuffer(src, srcOffset): piece i of the source, from
     * srcOffset + unitByteLength * i, lands in buffer i. The pieces are laid
     * end to end and together cover unitByteLength * numBuffers bytes from
     * srcOffset. The copy takes effect when the encoder's commands are
     * submitted; the model applies it at once.
     */
    method CopyBufferToBuffer(src: seq<int>, srcOffset: nat)
      requires UnitsReady()
      requires srcOffset + unitByteLength * numBuffers <= |src|
      modifies this
      ensures buffer == old(buffer) && numBuffers == old(numBuffers) && unitByteLength == old(unitByteLength)
      ensures offsetElementLength == old(offsetElementLength)
      ensures UnitsReady() && |unitBufferList.value| == |old(unitBufferList.value)|
      ensures forall i :: 0 <= i < numBuffers ==> IsPiece(unitBufferList.value[i].contents, src, srcOffset, unitByteLength, i)
      ensures forall i :: numBuffers <= i < |unitBufferList.value| ==> unitBufferList.value[i] == old(unitBufferList.value[i])
      ensures Flatten(Contents(unitBufferList.value[..numBuffers])) == src[srcOffset .. srcOffset + unitByteLength * numBuffers]
    {
      var n, unit := numBuffers, unitByteLength;
      assert unit * n == Stride(unit, n) by {
        StrideIsProduct(unit, n);
      }
      var list := CutPieces(unitBufferList.value, n, src, srcOffset, unit);
      unitBufferList := Some(list);
      CoverSource(list, n, src, srcOffset, unit);
    }

    /**
     * mapReadAsync: buffer i's bytes are set into the host array at element
     * offset offsetElementLength * i. Afterwards the host array is the
     * buffers' bytes laid end to end.
     */
    method MapReadAsync()
      requires buffer != null && UnitsReady()
      requires numBuffers * unitByteLength == buffer.Length && offsetElementLength * elementBytes == unitByteLength
      requires forall i :: 0 <= i < numBuffers ==> |unitBufferList.value[i].contents| == unitByteLength
      modifies buffer
      ensures buffer[..] == Flatten(Contents(unitBufferList.value[..numBuffers]))
    {
      ReadPieces(buffer, Contents(unitBufferList.value[..numBuffers]), unitByteLength, offsetElementLength, elementBytes);
    }

    /**
     * destroy: every buffer is destroyed, then the list and the host array
     * are released. The destroyed buffers are handed back, so that the model
     * can say each of them was destroyed.
     */
    method Destroy() returns (released: seq<UnitBuffer>)
      requires unitBufferList.Some? && numBuffers <= |unitBufferList.value|
      modifies this
      ensures |released| == old(numBuffers)
      ensures forall i :: 0 <= i < |released| ==> released[i] == old(unitBufferList.value[i]).(destroyed := true)
      ensures unitBufferList == None && buffer == null
    {
      var list := unitBufferList.value;
      released := [];
      var i := 0;
      while i < numBuffers
        invariant i <= numBuffers && |released| == i && unchanged(this)
        invariant forall i' :: 0 <= i' < i ==> released[i'] == list[i'].(destroyed := true)
      {
        released := released + [list[i].(destroyed := true)];
        i := i + 1;
      }
      unitBufferList := None;
      buffer := null;
    }
  }

  function Max(a: nat, b: nat): (m: nat)
  {
    if a < b then b else a
  }

  /**
   * The readback in computeGPU: a ReadbackBuffer over the result array,
   * its buffers created, the storage buffer copied into them, mapped back,
   * and released. The host array ends up holding the storage buffer's bytes.
   */
  method ReadBackStorage(result: array<int>, elementBytes: nat, storage: seq<int>) returns (released: seq<UnitBuffer>)
    requires elementBytes > 0 && EvenChunks(result.Length, elementBytes)
    requires |storage| == result.Length
    modifies result
    ensures result[..] == storage
    ensures |released| == CeilDiv(result.Length, MaxReadBytes)
    ensures forall i :: 0 <= i < |released| ==> released[i].destroyed
  {
    var rb := new ReadbackBuffer(result, elementBytes);
    rb.CreateBuffer();
    rb.CopyBufferToBuffer(storage, 0);
    assert storage[0 .. rb.unitByteLength * rb.numBuffers] == storage;
    rb.MapReadAsync();
    released := rb.Destroy();
  }

  /**
   * computeGPU's readback into `new Float32Array(length)` for a
   * power-of-two length: the host array ends up holding the storage
   * buffer's elements, and every buffer it went through is destroyed.
   */
  method ReadBackFloat32(storage: seq<int>) returns (result: seq<int>, released: seq<UnitBuffer>)
    requires IsPow2(|storage|)
    ensures result == storage
    ensures |released| == CeilDiv(4 * |storage|, MaxReadBytes)
    ensures forall i :: 0 <= i < |released| ==> released[i].destroyed
  {
    var bytes := Float32Bytes(storage);
    var host := new int[|bytes|];
    Float32ChunksEven(|storage|);
    released := ReadBackStorage(host, 4, bytes);
    var view := host[..];
    assert view == bytes && |view| % 4 == 0 by {
      DivAddMul(0, 4, |storage|);
    }
    result := Float32Values(view);
    Float32RoundTrip(storage);
  }
}
