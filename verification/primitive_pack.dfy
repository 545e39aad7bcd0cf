/**
 * Packing per-vertex positions, normals and uvs into one float array per
 * vertex buffer, interleaved along a parsed attribute layout.
 *
 * Float32 rounding of the stored values is not modelled: values are `real`
 * and are copied as they are.
 */
module PrimitivePack {
  import opened PrimitiveLayout
  import opened Multiples

  /** The source lists hold an entry for each of the first `n` vertices of every attribute the layout uses. */
  predicate ListsCover(layout: Layout, n: nat, positions: seq<real>, normals: seq<real>, uvs: seq<real>) {
    (layout.positionBufferIndex >= 0 ==> 3 * n <= |positions|) &&
    (layout.normalBufferIndex >= 0 ==> 3 * n <= |normals|) &&
    (layout.uvBufferIndex >= 0 ==> 2 * n <= |uvs|)
  }

  /**
   * Element `q` of vertex `j` in buffer `i`: the matching component of the
   * attribute whose range in that buffer holds `q`, or 0 if none does.
   */
  function VertexElement(layout: Layout, i: nat, positions: seq<real>, normals: seq<real>, uvs: seq<real>, j: nat, q: int): real
    requires ListsCover(layout, j + 1, positions, normals, uvs)
  {
    if layout.positionBufferIndex == i && layout.positionBufferOffset <= q < layout.positionBufferOffset + 3 then
      positions[3 * j + (q - layout.positionBufferOffset)]
    else if layout.normalBufferIndex == i && layout.normalBufferOffset <= q < layout.normalBufferOffset + 3 then
      normals[3 * j + (q - layout.normalBufferOffset)]
    else if layout.uvBufferIndex == i && layout.uvBufferOffset <= q < layout.uvBufferOffset + 2 then
      uvs[2 * j + (q - layout.uvBufferOffset)]
    else
      0.0
  }

  /** The `e` elements of vertex `j` in buffer `i`. */
  function VertexRow(layout: Layout, i: nat, positions: seq<real>, normals: seq<real>, uvs: seq<real>, j: nat, e: nat): (row: seq<real>)
    requires ListsCover(layout, j + 1, positions, normals, uvs)
    ensures |row| == e
  {
    seq(e, q requires 0 <= q < e => VertexElement(layout, i, positions, normals, uvs, j, q))
  }

  /** Buffer `i` of `n` vertices of `e` elements each, vertex after vertex. */
  function Interleaved(layout: Layout, i: nat, positions: seq<real>, normals: seq<real>, uvs: seq<real>, n: nat, e: nat): seq<real>
    requires ListsCover(layout, n, positions, normals, uvs)
  {
    if n == 0 then []
    else Interleaved(layout, i, positions, normals, uvs, n - 1, e) + VertexRow(layout, i, positions, normals, uvs, n - 1, e)
  }

  lemma {:induction false} InterleavedLength(layout: Layout, i: nat, positions: seq<real>, normals: seq<real>, uvs: seq<real>, n: nat, e: nat)
    requires ListsCover(layout, n, positions, normals, uvs)
    ensures |Interleaved(layout, i, positions, normals, uvs, n, e)| == Stride(e, n)
  {
    if n > 0 {
      InterleavedLength(layout, i, positions, normals, uvs, n - 1, e);
    }
  }

  /** Element `q` of vertex `j` sits at index `j * e + q` of the packed buffer. */
  lemma {:induction false} InterleavedAt(layout: Layout, i: nat, positions: seq<real>, normals: seq<real>, uvs: seq<real>, n: nat, e: nat, j: nat, q: nat)
    requires ListsCover(layout, n, positions, normals, uvs) && j < n && q < e
    ensures |Interleaved(layout, i, positions, normals, uvs, n, e)| == n * e
    ensures j * e + q < n * e
    ensures Interleaved(layout, i, positions, normals, uvs, n, e)[j * e + q] == VertexElement(layout, i, positions, normals, uvs, j, q)
    decreases n
  {
    InterleavedLength(layout, i, positions, normals, uvs, n, e);
    StrideIsProduct(e, n);
    StrideIsProduct(e, j);
    StrideFits(e, j, n);
    if j < n - 1 {
      InterleavedAt(layout, i, positions, normals, uvs, n - 1, e, j, q);
      InterleavedLength(layout, i, positions, normals, uvs, n - 1, e);
      StrideIsProduct(e, n - 1);
    } else {
      InterleavedLength(layout, i, positions, normals, uvs, n - 1, e);
    }
  }

  /**
   * In a fitting layout, vertex `j`'s position, normal and uv land at
   * `j * e` plus their offsets in the buffer that holds them, equal to the
   * source triples and pairs, and every other element of the buffer is 0.
   */
  lemma PackedVertex(layout: Layout, i: nat, positions: seq<real>, normals: seq<real>, uvs: seq<real>, n: nat, j: nat, q: nat)
    requires LayoutFits(layout) && 0 <= i < |layout.attributeBufferElementsList|
    requires ListsCover(layout, n, positions, normals, uvs) && j < n
    requires q < layout.attributeBufferElementsList[i]
    ensures var e := layout.attributeBufferElementsList[i];
      var data := Interleaved(layout, i, positions, normals, uvs, n, e);
      var L := layout;
      |data| == n * e && j * e + q < |data| &&
      (L.positionBufferIndex == i && L.positionBufferOffset <= q < L.positionBufferOffset + 3 ==>
         data[j * e + q] == positions[3 * j + (q - L.positionBufferOffset)]) &&
      (L.normalBufferIndex == i && L.normalBufferOffset <= q < L.normalBufferOffset + 3 ==>
         data[j * e + q] == normals[3 * j + (q - L.normalBufferOffset)]) &&
      (L.uvBufferIndex == i && L.uvBufferOffset <= q < L.uvBufferOffset + 2 ==>
         data[j * e + q] == uvs[2 * j + (q - L.uvBufferOffset)]) &&
      (!(L.positionBufferIndex == i && L.positionBufferOffset <= q < L.positionBufferOffset + 3) &&
       !(L.normalBufferIndex == i && L.normalBufferOffset <= q < L.normalBufferOffset + 3) &&
       !(L.uvBufferIndex == i && L.uvBufferOffset <= q < L.uvBufferOffset + 2) ==>
         data[j * e + q] == 0.0)
  {
    var e := layout.attributeBufferElementsList[i];
    InterleavedAt(layout, i, positions, normals, uvs, n, e, j, q);
  }

  /** The body of the vertex loop: writes vertex `j`'s attributes into its row of `data`. */
  method WriteVertex(data: array<real>, layout: Layout, i: nat, positions: seq<real>, normals: seq<real>, uvs: seq<real>, j: nat, offset: nat)
    requires LayoutFits(layout) && 0 <= i < |layout.attributeBufferElementsList|
    requires ListsCover(layout, j + 1, positions, normals, uvs)
    requires offset + layout.attributeBufferElementsList[i] <= data.Length
    requires forall p :: offset <= p < offset + layout.attributeBufferElementsList[i] ==> data[p] == 0.0
    modifies data
    ensures var e := layout.attributeBufferElementsList[i];
      data[..offset] == old(data[..offset]) && data[offset + e..] == old(data[offset + e..]) &&
      data[offset..offset + e] == VertexRow(layout, i, positions, normals, uvs, j, e)
  {
    var e := layout.attributeBufferElementsList[i];
    ghost var row0 := data[..];
    if layout.positionBufferIndex == i {
      var positionBufferOffset := offset + layout.positionBufferOffset;
      var positionListOffset := j * 3;
      CopyTriple(data, positionBufferOffset, positions, positionListOffset);
    }
    ghost var row1 := data[..];
    assert Written(row0, row1, layout.positionBufferIndex == i, offset + layout.positionBufferOffset, positions, 3 * j, 3);
    if layout.normalBufferIndex == i {
      var normalBufferOffset := offset + layout.normalBufferOffset;
      var normalListOffset := j * 3;
      CopyTriple(data, normalBufferOffset, normals, normalListOffset);
    }
    ghost var row2 := data[..];
    assert Written(row1, row2, layout.normalBufferIndex == i, offset + layout.normalBufferOffset, normals, 3 * j, 3);
    if layout.uvBufferIndex == i {
      var uvBufferOffset := offset + layout.uvBufferOffset;
      var uvListOffset := j * 2;
      CopyPair(data, uvBufferOffset, uvs, uvListOffset);
    }
    ghost var row3 := data[..];
    assert Written(row2, row3, layout.uvBufferIndex == i, offset + layout.uvBufferOffset, uvs, 2 * j, 2);
    RowWritten(row0, row1, row2, row3, layout, i, positions, normals, uvs, j, offset);
  }

  /** The three element writes of a position or normal: source[from..from + 3] to data[at..at + 3]. */
  method CopyTriple(data: array<real>, at: nat, source: seq<real>, from: nat)
    requires at + 3 <= data.Length && from + 3 <= |source|
    modifies data
    ensures Written(old(data[..]), data[..], true, at, source, from, 3)
  {
    data[at] := source[from];
    data[at + 1] := source[from + 1];
    data[at + 2] := source[from + 2];
  }

  /** The two element writes of a uv: source[from..from + 2] to data[at..at + 2]. */
  method CopyPair(data: array<real>, at: nat, source: seq<real>, from: nat)
    requires at + 2 <= data.Length && from + 2 <= |source|
    modifies data
    ensures Written(old(data[..]), data[..], true, at, source, from, 2)
  {
    data[at] := source[from];
    data[at + 1] := source[from + 1];
  }

  /**
   * `after` is `before` with `width` values copied from `source` at `from`
   * to position `at` when `write` holds, and `before` unchanged otherwise.
   */
  ghost predicate Written(before: seq<real>, after: seq<real>, write: bool, at: int, source: seq<real>, from: int, width: nat) {
    |after| == |before| &&
    (forall p :: 0 <= p < |before| && !(write && at <= p < at + width) ==> after[p] == before[p]) &&
    (write ==>
       0 <= at && at + width <= |before| && 0 <= from && from + width <= |source| &&
       (forall p :: at <= p < at + width ==> after[p] == source[from + (p - at)]))
  }

  /** The three attribute writes of a vertex into a zeroed row leave exactly that vertex's row. */
  lemma RowWritten(row0: seq<real>, row1: seq<real>, row2: seq<real>, row3: seq<real>, layout: Layout, i: nat,
                   positions: seq<real>, normals: seq<real>, uvs: seq<real>, j: nat, offset: nat)
    requires LayoutFits(layout) && 0 <= i < |layout.attributeBufferElementsList|
    requires ListsCover(layout, j + 1, positions, normals, uvs)
    requires offset + layout.attributeBufferElementsList[i] <= |row0|
    requires forall p :: offset <= p < offset + layout.attributeBufferElementsList[i] ==> row0[p] == 0.0
    requires Written(row0, row1, layout.positionBufferIndex == i, offset + layout.positionBufferOffset, positions, 3 * j, 3)
    requires Written(row1, row2, layout.normalBufferIndex == i, offset + layout.normalBufferOffset, normals, 3 * j, 3)
    requires Written(row2, row3, layout.uvBufferIndex == i, offset + layout.uvBufferOffset, uvs, 2 * j, 2)
    ensures var e := layout.attributeBufferElementsList[i];
      |row3| == |row0| && row3[..offset] == row0[..offset] && row3[offset + e..] == row0[offset + e..] &&
      row3[offset..offset + e] == VertexRow(layout, i, positions, normals, uvs, j, e)
  {
    var e := layout.attributeBufferElementsList[i];
    var L := layout;
    forall q | 0 <= q < e
      ensures row3[offset + q] == VertexElement(layout, i, positions, normals, uvs, j, q)
    {
      var p := offset + q;
      if L.positionBufferIndex == i && L.positionBufferOffset <= q < L.positionBufferOffset + 3 {
        assert row1[p] == positions[3 * j + (q - L.positionBufferOffset)];
      } else if L.normalBufferIndex == i && L.normalBufferOffset <= q < L.normalBufferOffset + 3 {
        assert row2[p] == normals[3 * j + (q - L.normalBufferOffset)];
      } else if L.uvBufferIndex == i && L.uvBufferOffset <= q < L.uvBufferOffset + 2 {
        assert row3[p] == uvs[2 * j + (q - L.uvBufferOffset)];
      } else {
        assert row3[p] == row0[p];
      }
    }
    assert row3[offset..offset + e] == VertexRow(layout, i, positions, normals, uvs, j, e);
    assert row3[..offset] == row0[..offset];
    assert row3[offset + e..] == row0[offset + e..];
  }

  /** The first `j` rows of `data` are packed and the rest is still zero. */
  ghost predicate PackedUpTo(data: seq<real>, layout: Layout, i: nat, positions: seq<real>, normals: seq<real>, uvs: seq<real>, j: nat, e: nat)
    requires ListsCover(layout, j, positions, normals, uvs)
  {
    Stride(e, j) <= |data| &&
    data[..Stride(e, j)] == Interleaved(layout, i, positions, normals, uvs, j, e) &&
    (forall p :: Stride(e, j) <= p < |data| ==> data[p] == 0.0)
  }

  /** One iteration of the vertex loop of packBufferData: packs row `j`. */
  method PackVertex(bufferData: array<real>, numVertices: nat, layout: Layout, i: nat,
                    positions: seq<real>, normals: seq<real>, uvs: seq<real>, j: nat)
    requires LayoutFits(layout) && 0 <= i < |layout.attributeBufferElementsList|
    requires ListsCover(layout, numVertices, positions, normals, uvs) && j < numVertices
    requires bufferData.Length == Stride(layout.attributeBufferElementsList[i], numVertices)
    requires PackedUpTo(bufferData[..], layout, i, positions, normals, uvs, j, layout.attributeBufferElementsList[i])
    modifies bufferData
    ensures PackedUpTo(bufferData[..], layout, i, positions, normals, uvs, j + 1, layout.attributeBufferElementsList[i])
  {
    var numElements: nat := layout.attributeBufferElementsList[i];
    var offset := j * numElements;
    assert offset == Stride(numElements, j) && offset + numElements <= bufferData.Length by {
      StrideIsProduct(numElements, j);
      StrideFits(numElements, j, numVertices);
    }
    ghost var before := bufferData[..offset];
    WriteVertex(bufferData, layout, i, positions, normals, uvs, j, offset);
    assert bufferData[..offset + numElements] == before + bufferData[offset..offset + numElements];
  }

  /** Packs buffer `i`: a zero-filled array of `numVertices * e` floats, filled vertex by vertex. */
  method PackBuffer(numVertices: nat, layout: Layout, i: nat, positions: seq<real>, normals: seq<real>, uvs: seq<real>)
    returns (bufferData: array<real>)
    requires LayoutFits(layout) && 0 <= i < |layout.attributeBufferElementsList|
    requires ListsCover(layout, numVertices, positions, normals, uvs)
    ensures bufferData[..] == Interleaved(layout, i, positions, normals, uvs, numVertices, layout.attributeBufferElementsList[i])
  {
    var numElements: nat := layout.attributeBufferElementsList[i];
    bufferData := new real[numVertices * numElements](_ => 0.0);
    assert bufferData.Length == Stride(numElements, numVertices) by {
      StrideIsProduct(numElements, numVertices);
    }
    assert bufferData[..0] == [];
    var j := 0;
    while j < numVertices
      invariant j <= numVertices && PackedUpTo(bufferData[..], layout, i, positions, normals, uvs, j, numElements)
    {
      PackVertex(bufferData, numVertices, layout, i, positions, normals, uvs, j);
      j := j + 1;
    }
    assert bufferData[..] == bufferData[..Stride(numElements, numVertices)];
  }

  /**
   * Packs one array per buffer of the layout. Each is `numVertices` rows of
   * the buffer's element count, with the layout's attributes interleaved.
   */
  method PackBufferData(numVertices: nat, layout: Layout, positions: seq<real>, normals: seq<real>, uvs: seq<real>)
    returns (dataList: seq<seq<real>>)
    requires LayoutFits(layout)
    requires ListsCover(layout, numVertices, positions, normals, uvs)
    ensures |dataList| == |layout.attributeBufferElementsList|
    ensures forall i :: 0 <= i < |dataList| ==>
      dataList[i] == Interleaved(layout, i, positions, normals, uvs, numVertices, layout.attributeBufferElementsList[i])
  {
    dataList := [];
    var bufferNum := |layout.attributeBufferElementsList|;
    var i := 0;
    while i < bufferNum
      invariant i <= bufferNum && |dataList| == i
      invariant forall k :: 0 <= k < i ==>
        dataList[k] == Interleaved(layout, k, positions, normals, uvs, numVertices, layout.attributeBufferElementsList[k])
    {
      var bufferData := PackBuffer(numVertices, layout, i, positions, normals, uvs);
      dataList := dataList + [bufferData[..]];
      i := i + 1;
    }
  }
}
