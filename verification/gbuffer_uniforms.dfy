/**
 * The deferred-shading demo's uniform data: per-object slots bound with a
 * dynamic offset (tori, point lights and their helpers), the point-light
 * slot layout written by createPointLightList and by each frame, and the
 * 36-float common uniform.
 */
module GBufferUniforms {
  import opened PowersOfTwo
  import opened UniformSlots

  /** The largest number of point lights the buffers are sized for. */
  const MaxLightNum: nat := 2000
  /** The number of tori in the scene. */
  const TorusNum: nat := 30

  /** The `uniform` record createUniformList returns; bufferLength is the length of its Float32Array. */
  datatype UniformList = UniformList(
    dynamicElements: nat,
    dynamicBufferSize: nat,
    bufferByteSize: nat,
    bufferLength: nat,
    bindingSize: nat)

  /**
   * Slot arithmetic for `num` objects of `floatElementsPerObj` floats each:
   * the slot is the least multiple of 64 floats that holds the object, it
   * spans a multiple of 256 bytes, the GPU buffer is exactly as long, in
   * bytes, as its Float32Array, and the bind group's range (the object's
   * own floats) fits in one slot.
   */
  function CreateUniformList(num: nat, floatElementsPerObj: nat): (u: UniformList)
    ensures u.dynamicElements % FloatElementsAlignment == 0
    ensures floatElementsPerObj <= u.dynamicElements < floatElementsPerObj + FloatElementsAlignment
    ensures u.dynamicBufferSize % BufferAlignment == 0
    ensures u.dynamicBufferSize == BytesPerElement * u.dynamicElements
    ensures u.bufferLength == u.dynamicElements * num
    ensures u.bufferByteSize == BytesPerElement * u.bufferLength
    ensures u.bindingSize == BytesPerElement * floatElementsPerObj <= u.dynamicBufferSize
  {
    var aligned := CeilTo(floatElementsPerObj, FloatElementsAlignment);
    AlignedSlotBytes(floatElementsPerObj);
    var sizePerObj := aligned * BytesPerElement;
    assert sizePerObj * num == BytesPerElement * (aligned * num);
    UniformList(aligned, sizePerObj, sizePerObj * num, aligned * num, floatElementsPerObj * BytesPerElement)
  }

  /** Model matrix and color of each torus. */
  const TorusUniform: UniformList := CreateUniformList(TorusNum, 16 + 4)
  /** Model matrix, color, position and intensity/distance/attenuation of each point light. */
  const PointLightUniform: UniformList := CreateUniformList(MaxLightNum, 16 + 12)
  /** Model matrix and color of each light helper. */
  const HelperUniform: UniformList := CreateUniformList(MaxLightNum, 16 + 4)

  /**
   * The dynamic offset i * dynamicBufferSize used to draw object i of the
   * first `count` of `num`: it is 256-byte aligned, the bound range of
   * bindingSize bytes lies inside the buffer, and it does not overlap the
   * range bound for any other object.
   */
  lemma DynamicOffsets(num: nat, floatElementsPerObj: nat, count: nat, i: nat, j: nat)
    requires count <= num && i < count && j < count
    ensures var u := CreateUniformList(num, floatElementsPerObj);
      var offset := i * u.dynamicBufferSize;
      offset % BufferAlignment == 0 &&
      offset + u.bindingSize <= u.bufferByteSize &&
      (i != j ==> offset + u.bindingSize <= j * u.dynamicBufferSize ||
                  j * u.dynamicBufferSize + u.bindingSize <= offset)
  {
    var u := CreateUniformList(num, floatElementsPerObj);
    var size := u.dynamicBufferSize;
    SlotWindows(size, u.bindingSize, num, i, j);
    assert i * size == size * i && j * size == size * j;
    assert u.bufferByteSize == size * num;
  }

  /**
   * The frame's upload of dynamicBufferSize * count bytes, for count <= num
   * objects, stays inside the buffer and covers the first `width` floats of
   * every slot i < count.
   */
  lemma PartialUpload(num: nat, floatElementsPerObj: nat, width: nat, count: nat, i: nat)
    requires width <= floatElementsPerObj && i < count <= num
    ensures var u := CreateUniformList(num, floatElementsPerObj);
      u.dynamicBufferSize * count <= u.bufferByteSize &&
      BytesPerElement * (u.dynamicElements * i + width) <= u.dynamicBufferSize * count
  {
    var u := CreateUniformList(num, floatElementsPerObj);
    var aligned := u.dynamicElements;
    PieceInside(aligned, 0, width, i, count);
    if aligned > 0 {
      MulMonotone(aligned, count, num);
    }
    assert u.dynamicBufferSize * count == BytesPerElement * (aligned * count);
  }

  /** The random colors of the tori go to floats 16-19 of their slots. */
  method SetTorusColors(bufferData: array<real>, colors: seq<seq<real>>)
    requires bufferData.Length == TorusUniform.bufferLength
    requires |colors| == TorusNum && forall i :: 0 <= i < |colors| ==> |colors[i]| == 4
    modifies bufferData
    ensures forall p :: 0 <= p < bufferData.Length ==>
      bufferData[p] == Placed(old(bufferData[p]), p, TorusUniform.dynamicElements, 16, colors, TorusNum)
  {
    WritePieces(bufferData, TorusUniform.dynamicElements, 16, colors);
  }

  /** Each frame, the model matrices of the tori go to floats 0-15 of their slots. */
  method UpdateTorusMatrices(bufferData: array<real>, modelMatrices: seq<seq<real>>)
    requires bufferData.Length == TorusUniform.bufferLength
    requires |modelMatrices| == TorusNum && forall i :: 0 <= i < |modelMatrices| ==> |modelMatrices[i]| == 16
    modifies bufferData
    ensures forall p :: 0 <= p < bufferData.Length ==>
      bufferData[p] == Placed(old(bufferData[p]), p, TorusUniform.dynamicElements, 0, modelMatrices, TorusNum)
  {
    WritePieces(bufferData, TorusUniform.dynamicElements, 0, modelMatrices);
  }

  /** Intensity, distance and attenuation of each of n point lights. */
  function LightParameters(n: nat): seq<seq<real>>
  {
    seq(n, _ requires n > 0 => [0.03 + 20.0 / (n as real), 3.0, 2.0])
  }

  /** Element p of a point light's uniform data after createPointLightList(n): color at 16, parameters at 24. */
  function AfterCreate(prev: real, p: nat, unit: nat, colors: seq<seq<real>>, n: nat): (v: real)
    requires unit > 0 && n <= |colors|
  {
    Placed(Placed(prev, p, unit, 16, colors, n), p, unit, 24, LightParameters(n), n)
  }

  /** Element p of a point light's uniform data after a frame: model matrix at 0, position at 20. */
  function AfterFrame(prev: real, p: nat, unit: nat, modelMatrices: seq<seq<real>>, positions: seq<seq<real>>, n: nat): (v: real)
    requires unit > 0 && n <= |modelMatrices| && n <= |positions|
  {
    Placed(Placed(prev, p, unit, 0, modelMatrices, n), p, unit, 20, positions, n)
  }

  /**
   * The four pieces of a point light's slot do not overlap and fit in its
   * 28 floats: after createPointLightList and then a frame, slot i holds
   * the model matrix at 0-15, the color at 16-19, the position at 20-22 and
   * intensity, distance and attenuation at 24-26.
   */
  lemma PointLightSlot(prev: real, unit: nat, colors: seq<seq<real>>, modelMatrices: seq<seq<real>>,
                       positions: seq<seq<real>>, n: nat, i: nat)
    requires 28 <= unit && i < n <= |colors| && n <= |modelMatrices| && n <= |positions|
    requires |colors[i]| == 4 && |modelMatrices[i]| == 16 && |positions[i]| == 3
    ensures forall q :: 0 <= q < 16 ==> SlotFloat(prev, unit, colors, modelMatrices, positions, n, i, q) == modelMatrices[i][q]
    ensures forall q :: 16 <= q < 20 ==> SlotFloat(prev, unit, colors, modelMatrices, positions, n, i, q) == colors[i][q - 16]
    ensures forall q :: 20 <= q < 23 ==> SlotFloat(prev, unit, colors, modelMatrices, positions, n, i, q) == positions[i][q - 20]
    ensures forall q :: 24 <= q < 27 ==> SlotFloat(prev, unit, colors, modelMatrices, positions, n, i, q) == [0.03 + 20.0 / (n as real), 3.0, 2.0][q - 24]
  {
    forall q | 0 <= q < 27
      ensures SlotFloat(prev, unit, colors, modelMatrices, positions, n, i, q) ==
        if q < 16 then modelMatrices[i][q]
        else if q < 20 then colors[i][q - 16]
        else if q < 23 then positions[i][q - 20]
        else if 24 <= q then [0.03 + 20.0 / (n as real), 3.0, 2.0][q - 24]
        else prev
    {
      SlotFloatAt(prev, unit, colors, modelMatrices, positions, n, i, q);
    }
  }

  lemma SlotFloatAt(prev: real, unit: nat, colors: seq<seq<real>>, modelMatrices: seq<seq<real>>,
                    positions: seq<seq<real>>, n: nat, i: nat, k: nat)
    requires 28 <= unit && i < n <= |colors| && n <= |modelMatrices| && n <= |positions| && k < 28
    requires |colors[i]| == 4 && |modelMatrices[i]| == 16 && |positions[i]| == 3
    ensures SlotFloat(prev, unit, colors, modelMatrices, positions, n, i, k) ==
      if k < 16 then modelMatrices[i][k]
      else if k < 20 then colors[i][k - 16]
      else if k < 23 then positions[i][k - 20]
      else if 24 <= k < 27 then [0.03 + 20.0 / (n as real), 3.0, 2.0][k - 24]
      else prev
  {
    DivUnique(unit * i + k, unit, i, k);
  }

  /** Float k of point light i's slot after createPointLightList(n) and then a frame. */
  function SlotFloat(prev: real, unit: nat, colors: seq<seq<real>>, modelMatrices: seq<seq<real>>,
                     positions: seq<seq<real>>, n: nat, i: nat, k: nat): (v: real)
    requires unit > 0 && n <= |colors| && n <= |modelMatrices| && n <= |positions|
  {
    AfterFrame(AfterCreate(prev, unit * i + k, unit, colors, n), unit * i + k, unit, modelMatrices, positions, n)
  }

  /** The uniform data of the point lights and of their helpers, and how many lights are in use. */
  class PointLight {
    const uniform: UniformList
    const helperUniform: UniformList
    const bufferData: array<real>
    const helperBufferData: array<real>
    var num: nat

    ghost predicate Valid()
      reads this
    {
      uniform == PointLightUniform && helperUniform == HelperUniform &&
      bufferData.Length == uniform.bufferLength &&
      helperBufferData.Length == helperUniform.bufferLength &&
      bufferData != helperBufferData &&
      num <= MaxLightNum
    }

    /** The MaxLightNum slots of both buffers, zero-filled, with no light in use yet. */
    constructor ()
      ensures Valid() && num == 0
      ensures fresh(bufferData) && fresh(helperBufferData)
      ensures forall p :: 0 <= p < bufferData.Length ==> bufferData[p] == 0.0
      ensures forall p :: 0 <= p < helperBufferData.Length ==> helperBufferData[p] == 0.0
    {
      uniform := PointLightUniform;
      helperUniform := HelperUniform;
      bufferData := new real[PointLightUniform.bufferLength](_ => 0.0);
      helperBufferData := new real[HelperUniform.bufferLength](_ => 0.0);
      num := 0;
    }

    /**
     * createPointLightList(n): for each light i < n, writes its color at
     * float 16 and its intensity 0.03 + 20 / n, distance 3 and attenuation 2
     * at float 24 of its slot, and its helper's color at float 16 of the
     * helper's slot; then n lights are in use. The colors, derived from the
     * hue 360 / n * i, are inputs.
     */
    method CreatePointLightList(numPointLights: nat, colors: seq<seq<real>>, helperColors: seq<seq<real>>)
      requires Valid()
      requires numPointLights <= MaxLightNum && |colors| == numPointLights && |helperColors| == numPointLights
      requires forall i :: 0 <= i < numPointLights ==> |colors[i]| == 4 && |helperColors[i]| == 4
      modifies this, bufferData, helperBufferData
      ensures Valid() && num == numPointLights
      ensures forall p :: 0 <= p < bufferData.Length ==>
        bufferData[p] == AfterCreate(old(bufferData[p]), p, uniform.dynamicElements, colors, numPointLights)
      ensures forall p :: 0 <= p < helperBufferData.Length ==>
        helperBufferData[p] == Placed(old(helperBufferData[p]), p, helperUniform.dynamicElements, 16, helperColors, numPointLights)
    {
      var unit := uniform.dynamicElements;
      var helperUnit := helperUniform.dynamicElements;
      ghost var params := LightParameters(numPointLights);
      ghost var original := bufferData[..];
      ghost var helperOriginal := helperBufferData[..];
      var i := 0;
      while i < numPointLights
        invariant i <= numPointLights
        invariant forall p :: 0 <= p < bufferData.Length ==>
          bufferData[p] == Placed(Placed(original[p], p, unit, 16, colors, i), p, unit, 24, params, i)
        invariant forall p :: 0 <= p < helperBufferData.Length ==>
          helperBufferData[p] == Placed(helperOriginal[p], p, helperUnit, 16, helperColors, i)
      {
        var intensity := 0.03 + 20.0 / (numPointLights as real);
        var distance := 3.0;
        var attenuation := 2.0;
        assert [intensity, distance, attenuation] == params[i];
        WriteSlotPair(bufferData, unit, 16, colors, 16 + 4 + 4, [intensity, distance, attenuation], params, i, original);
        WriteSlot(helperBufferData, helperUnit, 16, helperColors, i, helperOriginal);
        i := i + 1;
      }
      num := numPointLights;
    }

    /**
     * A frame: for each light i < num, writes its model matrix at float 0
     * and its position at float 20 of its slot, and its helper's model
     * matrix at float 0 of the helper's slot. The moved transforms are
     * inputs.
     */
    method UpdatePointLights(modelMatrices: seq<seq<real>>, positions: seq<seq<real>>, helperMatrices: seq<seq<real>>)
      requires Valid()
      requires |modelMatrices| == num && |positions| == num && |helperMatrices| == num
      requires forall i :: 0 <= i < num ==> |modelMatrices[i]| == 16 && |positions[i]| == 3 && |helperMatrices[i]| == 16
      modifies bufferData, helperBufferData
      ensures forall p :: 0 <= p < bufferData.Length ==>
        bufferData[p] == AfterFrame(old(bufferData[p]), p, uniform.dynamicElements, modelMatrices, positions, num)
      ensures forall p :: 0 <= p < helperBufferData.Length ==>
        helperBufferData[p] == Placed(old(helperBufferData[p]), p, helperUniform.dynamicElements, 0, helperMatrices, num)
    {
      var unit := uniform.dynamicElements;
      var helperUnit := helperUniform.dynamicElements;
      ghost var original := bufferData[..];
      ghost var helperOriginal := helperBufferData[..];
      var lightLength := num;
      var i := 0;
      while i < lightLength
        invariant i <= lightLength
        invariant forall p :: 0 <= p < bufferData.Length ==>
          bufferData[p] == Placed(Placed(original[p], p, unit, 0, modelMatrices, i), p, unit, 20, positions, i)
        invariant forall p :: 0 <= p < helperBufferData.Length ==>
          helperBufferData[p] == Placed(helperOriginal[p], p, helperUnit, 0, helperMatrices, i)
      {
        WriteSlotPair(bufferData, unit, 0, modelMatrices, 16 + 4, positions[i], positions, i, original);
        WriteSlot(helperBufferData, helperUnit, 0, helperMatrices, i, helperOriginal);
        i := i + 1;
      }
    }
  }

  /**
   * One step of a loop that writes two pieces into each slot in order: with
   * the first i of both placed over the contents `original`, writing piece
   * i of `first` at float `at` and then `value`, piece i of `second`, at
   * float `at2` places the first i + 1 of both.
   */
  method WriteSlotPair(data: array<real>, unit: nat, at: nat, first: seq<seq<real>>,
                       at2: nat, value: seq<real>, ghost second: seq<seq<real>>, i: nat, ghost original: seq<real>)
    requires unit > 0 && i < |first| <= MaxLightNum && i < |second| && value == second[i]
    requires at + |first[i]| <= unit && at2 + |second[i]| <= unit && unit * MaxLightNum <= data.Length
    requires |original| == data.Length
    requires forall p :: 0 <= p < data.Length ==>
      data[p] == Placed(Placed(original[p], p, unit, at, first, i), p, unit, at2, second, i)
    modifies data
    ensures forall p :: 0 <= p < data.Length ==>
      data[p] == Placed(Placed(original[p], p, unit, at, first, i + 1), p, unit, at2, second, i + 1)
  {
    PieceInside(unit, at, |first[i]|, i, MaxLightNum);
    PieceInside(unit, at2, |second[i]|, i, MaxLightNum);
    ghost var before := data[..];
    var offset := unit * i;
    SetAt(data, first[i], offset + at);
    SetAt(data, value, offset + at2);
    forall p | 0 <= p < data.Length
      ensures data[p] == Placed(Placed(original[p], p, unit, at, first, i + 1), p, unit, at2, second, i + 1)
    {
      TwoPiecesStep(original[p], before[p], p, unit, at, first, at2, second, i);
    }
  }

  /**
   * One loop step that writes piece n of `first` at float `at` and then
   * piece n of `second` at float `at2` of slot n: an element that held the
   * first n pieces of both now holds the first n + 1.
   */
  lemma TwoPiecesStep(prev: real, before: real, p: nat, unit: nat,
                      at: nat, first: seq<seq<real>>, at2: nat, second: seq<seq<real>>, n: nat)
    requires unit > 0 && n < |first| && n < |second|
    requires at + |first[n]| <= unit && at2 + |second[n]| <= unit
    requires before == Placed(Placed(prev, p, unit, at, first, n), p, unit, at2, second, n)
    ensures Placed(Placed(prev, p, unit, at, first, n + 1), p, unit, at2, second, n + 1) ==
      if unit * n + at2 <= p < unit * n + at2 + |second[n]| then second[n][p - (unit * n + at2)]
      else if unit * n + at <= p < unit * n + at + |first[n]| then first[n][p - (unit * n + at)]
      else before
  {
    var inner := Placed(prev, p, unit, at, first, n);
    var inner' := Placed(prev, p, unit, at, first, n + 1);
    PlacedStep(prev, p, unit, at, first, n);
    PlacedStep(inner', p, unit, at2, second, n);
    if p >= unit * n {
      PlacedBeyond(inner, unit, at2, second, n, p);
      PlacedBeyond(inner', unit, at2, second, n, p);
    }
  }

  /** Floats in the common uniform: two 4x4 matrices and a vec4. */
  const CommonUniformElements: nat := 2 * 16 + 4

  /**
   * resizeCommonUniform(w, h): floats 32-35 become w, h, 1 / w and 1 / h;
   * the two matrices are kept.
   */
  method ResizeCommonUniform(bufferData: array<real>, w: real, h: real)
    requires bufferData.Length == CommonUniformElements
    requires w != 0.0 && h != 0.0
    modifies bufferData
    ensures bufferData[..] == old(bufferData[..32]) + [w, h, 1.0 / w, 1.0 / h]
  {
    bufferData[32] := w;
    bufferData[33] := h;
    bufferData[34] := 1.0 / w;
    bufferData[35] := 1.0 / h;
    assert bufferData[..] == old(bufferData[..32]) + [w, h, 1.0 / w, 1.0 / h];
  }

  /**
   * A frame's camera update: the view-projection matrix goes to floats
   * 0-15 and its inverse to floats 16-31; the screen size at 32-35 is kept.
   */
  method UpdateCameraMatrices(bufferData: array<real>, vpMatrix: seq<real>, inverseVpMatrix: seq<real>)
    requires bufferData.Length == CommonUniformElements
    requires |vpMatrix| == 16 && |inverseVpMatrix| == 16
    modifies bufferData
    ensures bufferData[..] == vpMatrix + inverseVpMatrix + old(bufferData[32..])
  {
    SetAt(bufferData, vpMatrix, 0);
    SetAt(bufferData, inverseVpMatrix, 16);
    assert bufferData[..] == vpMatrix + inverseVpMatrix + old(bufferData[32..]);
  }
}
