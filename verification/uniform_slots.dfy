/**
 * Uniform data laid out in equal slots, one per object, each slot rounded
 * up to 256 bytes so that it can be bound with a dynamic or fixed offset;
 * and the Float32Array writes that fill pieces of those slots.
 */
module UniformSlots {
  import opened PowersOfTwo

  /** Uniform binding offsets must be multiples of this many bytes. */
  const BufferAlignment: nat := 256
  /** Float32Array.BYTES_PER_ELEMENT. */
  const BytesPerElement: nat := 4
  /** Floats per alignment unit: 256 / 4. */
  const FloatElementsAlignment: nat := BufferAlignment / BytesPerElement

  /** Math.ceil(n / m) * m for a whole number n: n rounded up to a multiple of m. */
  function CeilTo(n: nat, m: nat): (r: nat)
    requires m > 0
    ensures r % m == 0 && n <= r < n + m
  {
    var q := (n + m - 1) / m;
    DivUnique(q * m, m, q, 0);
    q * m
  }

  /** CeilTo gives the least multiple of m that is at least n. */
  lemma CeilToLeast(n: nat, m: nat, x: nat)
    requires m > 0 && x % m == 0 && n <= x
    ensures CeilTo(n, m) <= x
  {
    var r := CeilTo(n, m);
    var a, b := r / m, x / m;
    assert r == m * a && x == m * b;
    assert m * (b + 1) == m * b + m;
    if a > b {
      MulMonotone(m, b + 1, a);
      assert false;
    }
    MulMonotone(m, a, b);
  }

  /** A slot of `floats` floats rounded up to the alignment unit spans a multiple of 256 bytes. */
  lemma AlignedSlotBytes(floats: nat)
    ensures var aligned := CeilTo(floats, FloatElementsAlignment);
      (aligned * BytesPerElement) % BufferAlignment == 0 &&
      aligned * BytesPerElement >= floats * BytesPerElement
  {
    var aligned := CeilTo(floats, FloatElementsAlignment);
    var c := aligned / FloatElementsAlignment;
    assert aligned == 64 * c;
    DivUnique(aligned * 4, 256, c, 0);
  }

  /**
   * Window [unit * i, unit * i + width) of slot i among num slots of `unit`
   * elements each: it ends inside the num slots, windows of distinct slots
   * do not overlap, and it starts on a 256-multiple when unit is one.
   */
  lemma SlotWindows(unit: nat, width: nat, num: nat, i: nat, j: nat)
    requires width <= unit && i < num && j < num
    ensures unit * i + width <= unit * num
    ensures i != j ==> unit * i + width <= unit * j || unit * j + width <= unit * i
    ensures unit % BufferAlignment == 0 ==> (unit * i) % BufferAlignment == 0
  {
    if unit == 0 {
      return;
    }
    MulMonotone(unit, i + 1, num);
    assert unit * (i + 1) == unit * i + unit;
    if i < j {
      MulMonotone(unit, i + 1, j);
    } else if j < i {
      MulMonotone(unit, j + 1, i);
      assert unit * (j + 1) == unit * j + unit;
    }
    if unit % 256 == 0 {
      var c := unit / 256;
      assert unit * i == 256 * (c * i);
      DivUnique(unit * i, 256, c * i, 0);
    }
  }

  /** Every piece fits in its slot when written at float `at` of a slot of `unit` floats. */
  predicate Fits(unit: nat, at: nat, pieces: seq<seq<real>>)
  {
    forall i :: 0 <= i < |pieces| ==> at + |pieces[i]| <= unit
  }

  /**
   * Element p of an array of `unit`-float slots after piece i of `pieces`
   * has been written at float `at` of slot i, for every i < n; an element
   * outside those pieces keeps its previous value `prev`.
   */
  function Placed(prev: real, p: nat, unit: nat, at: nat, pieces: seq<seq<real>>, n: nat): (v: real)
    requires unit > 0 && n <= |pieces|
  {
    var i := p / unit;
    var k := p % unit;
    if i < n && at <= k && k - at < |pieces[i]| then pieces[i][k - at] else prev
  }

  /** Writing piece n of the slot after the first n changes exactly its window. */
  lemma PlacedStep(prev: real, p: nat, unit: nat, at: nat, pieces: seq<seq<real>>, n: nat)
    requires unit > 0 && n < |pieces| && at + |pieces[n]| <= unit
    ensures Placed(prev, p, unit, at, pieces, n + 1) ==
      if unit * n + at <= p < unit * n + at + |pieces[n]| then pieces[n][p - (unit * n + at)]
      else Placed(prev, p, unit, at, pieces, n)
  {
    if unit * n + at <= p < unit * n + at + |pieces[n]| {
      DivUnique(p, unit, n, p - unit * n);
    } else if p / unit == n {
      assert p == unit * n + p % unit;
    }
  }

  /** After the first n pieces are placed, float k of piece i sits at unit * i + at + k. */
  lemma PlacedWindow(prev: real, unit: nat, at: nat, pieces: seq<seq<real>>, n: nat, i: nat, k: nat)
    requires unit > 0 && i < n <= |pieces| && at + |pieces[i]| <= unit && k < |pieces[i]|
    ensures Placed(prev, unit * i + at + k, unit, at, pieces, n) == pieces[i][k]
  {
    DivUnique(unit * i + at + k, unit, i, at + k);
  }

  /** An element past the first n slots keeps its previous value. */
  lemma PlacedBeyond(prev: real, unit: nat, at: nat, pieces: seq<seq<real>>, n: nat, p: nat)
    requires unit > 0 && n <= |pieces| && p >= unit * n
    ensures Placed(prev, p, unit, at, pieces, n) == prev
  {
    var i := p / unit;
    assert unit * (i + 1) == unit * i + unit;
    if i < n {
      MulMonotone(unit, i + 1, n);
      assert false;
    }
  }

  /** Float32Array.prototype.set: copies `src` into `data` starting at index `offset`. */
  method SetAt(data: array<real>, src: seq<real>, offset: nat)
    requires offset + |src| <= data.Length
    modifies data
    ensures forall p :: 0 <= p < data.Length ==>
      data[p] == if offset <= p < offset + |src| then src[p - offset] else old(data[p])
  {
    var k := 0;
    while k < |src|
      invariant k <= |src|
      invariant forall p :: 0 <= p < data.Length ==>
        data[p] == if offset <= p < offset + k then src[p - offset] else old(data[p])
    {
      data[offset + k] := src[k];
      k := k + 1;
    }
  }

  /** The slot offset unit * i of a piece that fits, inside the first n slots. */
  lemma PieceInside(unit: nat, at: nat, width: nat, i: nat, n: nat)
    requires at + width <= unit && i < n
    ensures unit * i + at + width <= unit * n
  {
    if unit == 0 {
      return;
    }
    MulMonotone(unit, i + 1, n);
    assert unit * (i + 1) == unit * i + unit;
  }

  /**
   * One step of a loop that fills slots in order: with the first i pieces
   * placed over the contents `original`, writing piece i places the first
   * i + 1.
   */
  method WriteSlot(data: array<real>, unit: nat, at: nat, pieces: seq<seq<real>>, i: nat, ghost original: seq<real>)
    requires unit > 0 && i < |pieces| && at + |pieces[i]| <= unit && unit * |pieces| <= data.Length
    requires |original| == data.Length
    requires forall p :: 0 <= p < data.Length ==> data[p] == Placed(original[p], p, unit, at, pieces, i)
    modifies data
    ensures forall p :: 0 <= p < data.Length ==> data[p] == Placed(original[p], p, unit, at, pieces, i + 1)
  {
    PieceInside(unit, at, |pieces[i]|, i, |pieces|);
    SetAt(data, pieces[i], unit * i + at);
    forall p | 0 <= p < data.Length
      ensures data[p] == Placed(original[p], p, unit, at, pieces, i + 1)
    {
      PlacedStep(original[p], p, unit, at, pieces, i);
    }
  }

  /** Writes piece i at float `at` of slot i, for each piece in order. */
  method WritePieces(data: array<real>, unit: nat, at: nat, pieces: seq<seq<real>>)
    requires unit > 0 && Fits(unit, at, pieces) && unit * |pieces| <= data.Length
    modifies data
    ensures forall p :: 0 <= p < data.Length ==>
      data[p] == Placed(old(data[p]), p, unit, at, pieces, |pieces|)
  {
    ghost var original := data[..];
    var i := 0;
    while i < |pieces|
      invariant i <= |pieces|
      invariant forall p :: 0 <= p < data.Length ==> data[p] == Placed(original[p], p, unit, at, pieces, i)
    {
      WriteSlot(data, unit, at, pieces, i, original);
      i := i + 1;
    }
  }
}
