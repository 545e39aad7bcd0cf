/**
 * The instanced-drawing demo's uniform data: one 256-byte-aligned slot per
 * object in a "variable" buffer (model matrix, 16 floats) and a "fixed"
 * buffer (color, 4 floats), bound per object at offset i * slot size; the
 * 28-float common uniform; and the padding of a 16-bit index list to a
 * whole number of 4-byte words.
 */
module WorldUniforms {
  import opened PowersOfTwo
  import opened UniformSlots

  /** The largest number of instances the buffers are sized for. */
  const MaxNum: nat := 20000

  /** The record createOffsetUniform returns; bufferLength is the length of its Float32Array. */
  datatype OffsetUniform = OffsetUniform(
    alignedFloatElementsPerObj: nat,
    bufferSizePerObj: nat,
    bufferByteSize: nat,
    bufferLength: nat)

  /**
   * Slot arithmetic for `num` objects of `floatElementsPerObj` floats each:
   * the slot is the least multiple of 64 floats that holds the object, it
   * spans a multiple of 256 bytes, and the GPU buffer is exactly as long, in
   * bytes, as the Float32Array that mirrors it.
   */
  function CreateOffsetUniform(floatElementsPerObj: nat, num: nat): (u: OffsetUniform)
    ensures u.alignedFloatElementsPerObj % FloatElementsAlignment == 0
    ensures floatElementsPerObj <= u.alignedFloatElementsPerObj < floatElementsPerObj + FloatElementsAlignment
    ensures u.bufferSizePerObj % BufferAlignment == 0
    ensures u.bufferSizePerObj == BytesPerElement * u.alignedFloatElementsPerObj
    ensures u.bufferLength == u.alignedFloatElementsPerObj * num
    ensures u.bufferByteSize == BytesPerElement * u.bufferLength
  {
    var aligned := CeilTo(floatElementsPerObj, FloatElementsAlignment);
    AlignedSlotBytes(floatElementsPerObj);
    var bufferSizePerObj := aligned * BytesPerElement;
    assert bufferSizePerObj * num == BytesPerElement * (aligned * num);
    OffsetUniform(aligned, bufferSizePerObj, bufferSizePerObj * num, aligned * num)
  }

  /** Model matrices, one 4x4 matrix per instance. */
  const VariableInstanceUniform: OffsetUniform := CreateOffsetUniform(16, MaxNum)
  /** Colors, one vec4 per instance. */
  const FixedInstanceUniform: OffsetUniform := CreateOffsetUniform(4, MaxNum)

  /**
   * Bind group i binds bytes [i * bufferSizePerObj, (i + 1) * bufferSizePerObj)
   * of an instance buffer of MaxNum slots: the offset is 256-byte aligned,
   * the range holds the object's floats, lies inside the buffer, and does
   * not overlap the range of any other bind group.
   */
  lemma BindGroupRanges(floatElementsPerObj: nat, i: nat, j: nat)
    requires i < MaxNum && j < MaxNum
    ensures var u := CreateOffsetUniform(floatElementsPerObj, MaxNum);
      var offset := i * u.bufferSizePerObj;
      offset % BufferAlignment == 0 &&
      BytesPerElement * floatElementsPerObj <= u.bufferSizePerObj &&
      offset + u.bufferSizePerObj <= u.bufferByteSize &&
      (i != j ==> offset + u.bufferSizePerObj <= j * u.bufferSizePerObj ||
                  j * u.bufferSizePerObj + u.bufferSizePerObj <= offset)
  {
    var u := CreateOffsetUniform(floatElementsPerObj, MaxNum);
    var size := u.bufferSizePerObj;
    SlotWindows(size, size, MaxNum, i, j);
    assert i * size == size * i && j * size == size * j;
    assert u.bufferByteSize == size * MaxNum;
  }

  /**
   * The upload of bufferSizePerObj * num bytes for num <= MaxNum instances
   * stays inside the buffer and covers the first `width` floats of every
   * slot i < num, which is where the loops write.
   */
  lemma UploadCoversWrites(floatElementsPerObj: nat, width: nat, num: nat, i: nat)
    requires width <= floatElementsPerObj && i < num <= MaxNum
    ensures var u := CreateOffsetUniform(floatElementsPerObj, MaxNum);
      u.bufferSizePerObj * num <= u.bufferByteSize &&
      BytesPerElement * (u.alignedFloatElementsPerObj * i + width) <= u.bufferSizePerObj * num
  {
    var u := CreateOffsetUniform(floatElementsPerObj, MaxNum);
    var aligned := u.alignedFloatElementsPerObj;
    PieceInside(aligned, 0, width, i, num);
    if aligned > 0 {
      MulMonotone(aligned, num, MaxNum);
    }
    assert u.bufferSizePerObj * num == BytesPerElement * (aligned * num);
  }

  /**
   * resetInstance: for each instance i < num, writes its color into slot i
   * of the fixed uniform data and its model matrix into slot i of the
   * variable uniform data; everything else keeps its value. The random
   * placement of the instances is an input: colors[i] and modelMatrices[i].
   */
  method ResetInstance(fixedData: array<real>, variableData: array<real>,
                       colors: seq<seq<real>>, modelMatrices: seq<seq<real>>)
    requires fixedData != variableData
    requires fixedData.Length == FixedInstanceUniform.bufferLength
    requires variableData.Length == VariableInstanceUniform.bufferLength
    requires |colors| == |modelMatrices| <= MaxNum
    requires forall i :: 0 <= i < |colors| ==> |colors[i]| == 4 && |modelMatrices[i]| == 16
    modifies fixedData, variableData
    ensures forall p :: 0 <= p < fixedData.Length ==>
      fixedData[p] == Placed(old(fixedData[p]), p, FixedInstanceUniform.alignedFloatElementsPerObj, 0, colors, |colors|)
    ensures forall p :: 0 <= p < variableData.Length ==>
      variableData[p] == Placed(old(variableData[p]), p, VariableInstanceUniform.alignedFloatElementsPerObj, 0, modelMatrices, |modelMatrices|)
  {
    var fixedAligned := FixedInstanceUniform.alignedFloatElementsPerObj;
    var variableAligned := VariableInstanceUniform.alignedFloatElementsPerObj;
    var num := |colors|;
    MulMonotone(fixedAligned, num, MaxNum);
    MulMonotone(variableAligned, num, MaxNum);
    ghost var fixedOriginal := fixedData[..];
    ghost var variableOriginal := variableData[..];
    var i := 0;
    while i < num
      invariant i <= num
      invariant forall p :: 0 <= p < fixedData.Length ==>
        fixedData[p] == Placed(fixedOriginal[p], p, fixedAligned, 0, colors, i)
      invariant forall p :: 0 <= p < variableData.Length ==>
        variableData[p] == Placed(variableOriginal[p], p, variableAligned, 0, modelMatrices, i)
    {
      WriteSlot(fixedData, fixedAligned, 0, colors, i, fixedOriginal);
      WriteSlot(variableData, variableAligned, 0, modelMatrices, i, variableOriginal);
      i := i + 1;
    }
  }

  /** The per-frame update: writes the model matrix of each instance i < num into slot i. */
  method UpdateModelMatrices(variableData: array<real>, modelMatrices: seq<seq<real>>)
    requires variableData.Length == VariableInstanceUniform.bufferLength
    requires |modelMatrices| <= MaxNum
    requires forall i :: 0 <= i < |modelMatrices| ==> |modelMatrices[i]| == 16
    modifies variableData
    ensures forall p :: 0 <= p < variableData.Length ==>
      variableData[p] == Placed(old(variableData[p]), p, VariableInstanceUniform.alignedFloatElementsPerObj, 0, modelMatrices, |modelMatrices|)
  {
    var aligned := VariableInstanceUniform.alignedFloatElementsPerObj;
    MulMonotone(aligned, |modelMatrices|, MaxNum);
    WritePieces(variableData, aligned, 0, modelMatrices);
  }

  /** Floats in the common uniform: view-projection matrix, two colors, light direction, rounded up to a vec4. */
  const NumUniformElements: nat := CeilTo(16 + 4 + 4 + 3, 4)
  const ColorAmbientLight: seq<real> := [0.2, 0.2, 0.2, 1.0]
  const ColorDirectionalLight: seq<real> := [0.8, 0.8, 0.8, 1.0]

  /**
   * The common uniform data as set up once: 28 floats, the ambient light
   * color at float 16 and the directional light color at float 20, zero
   * elsewhere.
   */
  method CreateCommonUniformData() returns (data: array<real>)
    ensures data.Length == 28
    ensures data[..] == seq(16, _ => 0.0) + ColorAmbientLight + ColorDirectionalLight + seq(4, _ => 0.0)
  {
    data := new real[NumUniformElements](_ => 0.0);
    SetAt(data, ColorAmbientLight, 16);
    SetAt(data, ColorDirectionalLight, 16 + 4);
    assert data[..] == seq(16, _ => 0.0) + ColorAmbientLight + ColorDirectionalLight + seq(4, _ => 0.0);
  }

  /**
   * The per-frame update of the common uniform: the light direction goes to
   * floats 24-26 and the view-projection matrix to floats 0-15; the two
   * light colors at 16-23 and the padding float 27 are kept.
   */
  method UpdateCommonUniformData(data: array<real>, lightDirection: seq<real>, vpMatrix: seq<real>)
    requires data.Length == NumUniformElements
    requires |lightDirection| == 3 && |vpMatrix| == 16
    modifies data
    ensures data[..] == vpMatrix + old(data[16..24]) + lightDirection + [old(data[27])]
  {
    SetAt(data, lightDirection, 16 + 4 + 4);
    SetAt(data, vpMatrix, 0);
    assert data[..] == vpMatrix + old(data[16..24]) + lightDirection + [old(data[27])];
  }

  /** A Uint16Array element. */
  newtype Uint16 = x: int | 0 <= x < 0x1_0000

  /**
   * Index data whose byte length is not a multiple of 4 (an odd number of
   * 16-bit indices) is copied into an array one element longer whose last
   * element is 0; otherwise it is used as it is. Either way the result's
   * byte length is a multiple of 4 and it starts with the original indices.
   */
  method PadIndexData(indexData: array<Uint16>) returns (padded: array<Uint16>)
    ensures (2 * padded.Length) % 4 == 0
    ensures padded.Length >= indexData.Length && padded[..indexData.Length] == indexData[..]
    ensures (2 * indexData.Length) % 4 == 0 ==> padded == indexData
    ensures (2 * indexData.Length) % 4 != 0 ==>
      padded.Length == indexData.Length + 1 && padded[indexData.Length] == 0
  {
    var needOffset := (2 * indexData.Length) % 4;
    padded := indexData;
    if needOffset != 0 {
      var newData := new Uint16[indexData.Length + 1](_ => 0);
      var k := 0;
      while k < indexData.Length
        invariant k <= indexData.Length
        invariant forall q :: 0 <= q < k ==> newData[q] == indexData[q]
        invariant newData[indexData.Length] == 0
      {
        newData[k] := indexData[k];
        k := k + 1;
      }
      assert newData[..indexData.Length] == indexData[..];
      padded := newData;
    }
  }
}
