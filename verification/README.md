# WebGPU demo core: bitonic sort planner, readback chunking, mesh layout and aligned uniform slots

This project models, in Dafny, the discrete core of a set of WebGPU demos:

- **Bitonic sort on the GPU** (`compute-bitonicSort/script.js`). The host derives two limits from the device:
  - `MAX_THREAD_NUM`, the workgroup size T;
  - `MAX_GROUP_NUM`, the largest power of two that is at most `maxComputeWorkgroupsPerDimension`.

  `getLength(i) = 1 << (i + 8)` gives the selectable input lengths. `computeGPU` then works in four steps:
  1. It plans the dispatches: the workgroup count, `numK3 = log2(workgroups)` global rounds and `numK2 = numK3 (numK3 + 1) / 2` global dispatches.
  2. It packs one `(k, j)` pair per 256-byte slot of a uniform buffer.
  3. It dispatches three compute kernels:
     - a local bitonic sort of each block of T elements;
     - a global compare-exchange stage;
     - a local merge.

     Round r binds slots with dynamic offsets `256 * dynamicIndex`.
  4. It reads the buffer back into a Float32Array through a `ReadbackBuffer` and checks the result with `validateSorted`.

  Each kernel stage pairs element i with `i ^ j`. Only the lower index acts: it orders the pair ascending when `i & k == 0` and descending otherwise. Stages are barrier-separated and touch disjoint pairs, so each one is modelled as a sequential in-place pass over an array. Batcher's bitonic network is defined as functions (`Stage`, `Merge`, `Net`). The dispatch sequence is proved to compute the whole network, and the network is proved to yield an ascending permutation of its input. The 0-1 principle is proved inside the model, not assumed.
- **Readback chunking** (`libs/webgpu/ReadbackBuffer.js`). The `ReadbackBuffer` class splits a byte length into `ceil(len / 524288)` equal chunks. It copies chunk i from `srcOffset + unitByteLength * i`, and refills the host array in place at element offset `offsetElementLength * i`. It is modelled as a class whose GPU chunk buffers are values in a list field.
- **Mesh utilities** (`libs/webgpu/primitive/Primitive.js`):
  - `parseAttributeSet` validates an attribute set and computes the interleaved layout;
  - `packBufferData` interleaves positions, normals and uvs into one array per buffer;
  - `createWireframeIndices` turns a triangle list into a deduplicated line list;
  - the index loops of `createPlane`, `createSphere` and `createTorus` generate the triangle lists.
- **Aligned uniform slots** in the instanced-drawing demo (`webgpu-world/script.js`) and the deferred-shading demo (`mrt-gbuffer/script.js`):
  - per-object slots are rounded up to 64 floats (256 bytes) and bound at `i * slotSize`;
  - fields are written at fixed float offsets inside each slot;
  - a 16-bit index list is padded to a whole number of 4-byte words;
  - the common uniforms have a fixed layout.

  `Float32Array.set` is modelled on an `array<real>` (`SetAt`). The state after a run of slot writes is given pointwise by `Placed`.

Modules:
- `PowersOfTwo` (pow2.dfy) and `Multiples` (multiples.dfy) hold arithmetic helpers.
- `BitonicNetwork` (network.dfy), `BitonicKernels` (kernels.dfy), `BitonicPlan` (plan.dfy) and `BitonicSort` (sort.dfy) model the sort.
- `Readback` (readback.dfy) models the readback buffer.
- `PrimitiveLayout`, `PrimitivePack`, `Wireframe` and `MeshIndices` (primitive_*.dfy) model the mesh utilities.
- `UniformSlots`, `WorldUniforms` and `GBufferUniforms` model the uniform slots.

## Model

| member | source | states |
|---|---|---|
| BitonicPlan.SelectableLength | compute-bitonicSort/script.js:37-42 | every index the select box offers (`index + 7 < log2(T * MAX_GROUP_NUM)`) gives `getLength(index) = 2^(index+8)`, a power of two between 256 and `T * MAX_GROUP_NUM` |
| BitonicPlan.MaxGroupNumIsFloorPow2 | compute-bitonicSort/script.js:35 | for a device limit g with 1 <= g < 2^31, `MAX_GROUP_NUM` is a power of two with `MAX_GROUP_NUM <= g < 2 * MAX_GROUP_NUM`: the logarithm is truncated, never rounded up |
| BitonicPlan.MaxGroupNumWrapsAbove31 | compute-bitonicSort/script.js:35 | for limits in [2^31, 2^32), the 32-bit shift `1 << 31` yields -2^31 |
| BitonicPlan.WorkgroupsWithin | compute-bitonicSort/script.js:92 | for a selectable power-of-two length, `max(1, length / T)` is a power of two, at most `MAX_GROUP_NUM`, and exceeds 1 exactly when length > T (the condition for the global phase, line 125) |
| BitonicPlan.SlotTotal | compute-bitonicSort/script.js:126-127 | for T < length, both powers of two, `numK3 = log2(length) - log2(T)` and `numK2` is the triangular number of numK3 |
| BitonicPlan.NumK2IsTri | compute-bitonicSort/script.js:127 | the closed form `(1 + numK3) * numK3 / 2` equals the number of (k, j) pairs the packing loop visits |
| BitonicPlan.WriteSlot | compute-bitonicSort/script.js:136-138 | writing one pair changes exactly elements offset and offset + 1, keeps every earlier slot's pair, and leaves the slot's padding zero |
| BitonicPlan.PackPhase | compute-bitonicSort/script.js:135-141 | the inner `j` loop for one k fills slots Tri(r) .. Tri(r+1)-1 with (k, k/2), (k, k/4), ..., (k, T) and advances the offset by 64 per slot |
| BitonicPlan.PackUniforms | compute-bitonicSort/script.js:130-142 | the packing loop produces `64 * numK2` words. Slot `Tri(r) + q` holds `k = T * 2^(r+1)` and `j = k >> (q+1)`. Every other word is 0, and the final offset equals the array length |
| BitonicKernels.OrderPair | compute-bitonicSort/script.js:235-249 | one compare-exchange: the lower index gets the min (ascending) or max (descending) of the pair, the upper the other, nothing else changes |
| BitonicKernels.StagePass | compute-bitonicSort/script.js:232-251 | for power-of-two k and j, one barrier-separated stage over a block, pairing i with `i ^ j` and choosing the direction by `i & k`, is exactly the network stage `Stage(a, base, k, j)` |
| BitonicKernels.LoadBlock | compute-bitonicSort/script.js:225 | the workgroup's shared array is a fresh copy of its block of T elements |
| BitonicKernels.StoreBlock | compute-bitonicSort/script.js:254 | the shared array is written back over its block and the rest of the buffer is unchanged |
| BitonicKernels.SharedMerge | compute-bitonicSort/script.js:232-253 | for a power-of-two k and j0, the stages j = j0, j0/2, ..., 1 compute `Merge(a, base, k, j0)` |
| BitonicKernels.LocalSortWorkgroup | compute-bitonicSort/script.js:220-255 | one workgroup of the local sort kernel replaces its block by `Net(block, offset, T)` and keeps the rest |
| BitonicKernels.LocalSortKernel | compute-bitonicSort/script.js:219-255 | the dispatch of the local sort kernel over all workgroups computes `Net(a, 0, T)` |
| BitonicKernels.GlobalStageKernel | compute-bitonicSort/script.js:294-319 | the global kernel with a power-of-two uniform (k, j) computes the stage `Stage(a, 0, k, j)` over the whole buffer |
| BitonicKernels.LocalMergeWorkgroup | compute-bitonicSort/script.js:364-398 | for a power-of-two k, one workgroup of the local merge kernel replaces its block by `Merge(block, offset, k, T/2)` |
| BitonicKernels.LocalMergeKernel | compute-bitonicSort/script.js:363-398 | the dispatch of the local merge kernel, with a power-of-two k taken from the bound uniform, computes `Merge(a, 0, k, T/2)` |
| BitonicNetwork.NetSorts | compute-bitonicSort/script.js:231-253 | the bitonic network on a power-of-two block sorts it ascending when bit k of its base is clear and descending otherwise |
| BitonicNetwork.NetPermutes | compute-bitonicSort/script.js:235-248 | the network only exchanges elements: its result is a permutation (same multiset) of its input |
| BitonicNetwork.NetSortsWhole | compute-bitonicSort/script.js:120-172 | the whole network over a power-of-two array is an ascending permutation of the array |
| BitonicSort.ValidateSorted | compute-bitonicSort/script.js:197-207 | validateSorted returns true if and only if every adjacent pair is in order, i.e. the array is sorted |
| BitonicSort.WindowOfSlot | compute-bitonicSort/script.js:149-165 | the 16-byte window bound at offset `256 * (Tri(r) + q)` lies inside the packed words and reads k = `T * 2^(r+1)` and j = `T * 2^(r-q)`: consumption order matches packing order |
| BitonicSort.GlobalDispatch | compute-bitonicSort/script.js:164-165 | one global dispatch reads its (k, j) from the bound slot and applies `Stage(a, 0, k, j)` |
| BitonicSort.GlobalSteps | compute-bitonicSort/script.js:162-167 | the r + 1 global dispatches of round r advance dynamicIndex from Tri(r) to Tri(r+1), record offsets `256 * index`, and compute the merge down to distance T |
| BitonicSort.MergeRound | compute-bitonicSort/script.js:162-171 | round r (r + 1 global dispatches, then the local merge) takes `Net(a, 0, T * 2^r)` to `Net(a, 0, T * 2^(r+1))` |
| BitonicSort.GlobalRounds | compute-bitonicSort/script.js:161-172 | the numK3 rounds take `Net(a, 0, T)` to `Net(a, 0, length)` and bind exactly Tri(numK3) offsets |
| BitonicSort.GlobalPhase | compute-bitonicSort/script.js:125-172 | the global phase binds numK2 offsets, each `256 * index`, and leaves the whole network's result |
| BitonicSort.OffsetsInBuffer | compute-bitonicSort/script.js:130-165 | every bound dynamic offset is a multiple of 256 and its 16-byte window lies inside the uniform buffer |
| BitonicSort.GroupCount | compute-bitonicSort/script.js:92-125 | for power-of-two T <= length, the workgroup count is a power of two, above 1 exactly when length > T, and T divides the length |
| BitonicSort.ComputeGpu | compute-bitonicSort/script.js:88-189 | plan, pack, local sort and all global rounds, then the readback through a ReadbackBuffer into `result`, leave `result` a sorted permutation of the input; validateSorted reports success; all ceil(4 length / 524288) readback buffers are destroyed; all numK2 offsets are aligned and in bounds |
| Readback.CeilDivLeast | libs/webgpu/ReadbackBuffer.js:6 | `numBuffers = ceil(n / 524288)` is the least count whose chunks cover n bytes, and is 0 only for n = 0 |
| Readback.ReadbackBuffer.constructor | libs/webgpu/ReadbackBuffer.js:4-10 | numBuffers chunks of unitByteLength bytes exactly cover the buffer, unitByteLength <= 524288, offsetElementLength is unitByteLength in elements, and the list starts empty |
| Readback.ReadbackBuffer.CreateBuffer | libs/webgpu/ReadbackBuffer.js:12-20 | entries 0 .. numBuffers-1 become fresh chunk buffers of unitByteLength bytes, later entries and other fields are kept |
| Readback.ReadbackBuffer.CopyBufferToBuffer | libs/webgpu/ReadbackBuffer.js:22-26 | chunk i receives bytes `[srcOffset + unitByteLength * i, + unitByteLength)` of the source, and the chunks concatenated are exactly `[srcOffset, srcOffset + byteLength)` |
| Readback.ReadbackBuffer.MapReadAsync | libs/webgpu/ReadbackBuffer.js:28-35 | after placing chunk i at element offset `offsetElementLength * i` for every i, the host array equals the chunks concatenated |
| Readback.ReadbackBuffer.Destroy | libs/webgpu/ReadbackBuffer.js:37-43 | every chunk buffer is released, then the list and the host buffer are null |
| Readback.FlattenPieces | libs/webgpu/ReadbackBuffer.js:22-26 | equal consecutive pieces of a source range, concatenated, give back the range |
| Readback.PieceOfByte | libs/webgpu/ReadbackBuffer.js:22-26 | each byte of the covered range lies in exactly one chunk, chunk `p / unitByteLength` |
| Readback.ReadPieces | libs/webgpu/ReadbackBuffer.js:28-35 | the placement loop leaves the host array equal to the chunks concatenated |
| Readback.Float32ChunksEven | libs/webgpu/ReadbackBuffer.js:6-8 | for every Float32Array of a power-of-two length the chunk count divides the byte length and each chunk holds whole elements, so `unitByteLength` and `offsetElementLength` are integers |
| Readback.Float32RoundTrip | libs/webgpu/ReadbackBuffer.js:32 | viewing the bytes of a Float32Array through a new Float32Array gives back its elements |
| Readback.ReadBackFloat32 | compute-bitonicSort/script.js:94-96 | the readback into `new Float32Array(length)` for a power-of-two length leaves the host array equal to the storage buffer's elements and releases all ceil(4 length / 524288) buffers |
| Readback.ReadBackStorage | libs/webgpu/ReadbackBuffer.js:4-43 | construct, create, copy, map and destroy: the host array ends equal to the storage contents and all ceil(n / 524288) chunk buffers are released |
| PrimitiveLayout.ParseAttributeSet | libs/webgpu/primitive/Primitive.js:179-254 | it succeeds exactly on valid sets: an array of arrays, accepted entries, one POSITION, at most one NORMAL and UV. The layout then describes the set. Each error implies its violation; NotAnArray holds exactly when the set is not an array, and PositionMissing only when POSITION is absent |
| PrimitiveLayout.ScanBuffer | libs/webgpu/primitive/Primitive.js:194-239 | one buffer's scan yields the sum of its entry widths and tracks each named attribute's first buffer and offset, or fails with a repeated attribute or a non-positive count that really occurs |
| PrimitiveLayout.ScanEntry | libs/webgpu/primitive/Primitive.js:202-237 | one entry: a named attribute records the current offset and adds 3, 3 or 2; a positive count adds itself; a repeat or a count <= 0 throws |
| PrimitiveLayout.AtFits | libs/webgpu/primitive/Primitive.js:199-239 | a recorded attribute offset plus its width fits inside its buffer's element count |
| PrimitiveLayout.AtApart | libs/webgpu/primitive/Primitive.js:199-239 | two different attributes in one buffer occupy disjoint element ranges |
| PrimitiveLayout.ParsedLayoutFits | libs/webgpu/primitive/Primitive.js:245-253 | the layout returned for a valid set has every attribute inside its buffer and pairwise disjoint ranges |
| PrimitivePack.InterleavedAt | libs/webgpu/primitive/Primitive.js:261-263 | element `j * e + q` of buffer data is the element q of vertex j |
| PrimitivePack.PackedVertex | libs/webgpu/primitive/Primitive.js:262-284 | vertex j's position, normal and uv land at `j * e + offset` and equal the source triples/pairs; every other element is 0 |
| PrimitivePack.WriteVertex | libs/webgpu/primitive/Primitive.js:263-283 | the three attribute writes of one vertex fill exactly its row with that vertex's row |
| PrimitivePack.PackVertex | libs/webgpu/primitive/Primitive.js:262-284 | one iteration of the vertex loop extends the packed prefix by one vertex row |
| PrimitivePack.PackBuffer | libs/webgpu/primitive/Primitive.js:260-285 | buffer i's data is the interleaving of all numVertices rows, of length `numVertices * elements[i]` |
| PrimitivePack.PackBufferData | libs/webgpu/primitive/Primitive.js:256-288 | one array per buffer, each the interleaved vertex data |
| Wireframe.EdgeOf | libs/webgpu/primitive/Primitive.js:304-306 | the key pair is (min, max) of the two vertices |
| Wireframe.AddEdge | libs/webgpu/primitive/Primitive.js:304-310 | an edge is pushed and remembered only when the hash does not hold it, keeping the list equal to the first occurrences so far |
| Wireframe.CreateWireframeIndices | libs/webgpu/primitive/Primitive.js:290-332 | the result is the line list of first occurrences of all triangle edges |
| Wireframe.WireframeEdges | libs/webgpu/primitive/Primitive.js:290-332 | the line list holds pairs with min <= max, no pair twice, every edge of every triangle, and nothing else |
| MeshIndices.CreatePlaneIndices | libs/webgpu/primitive/Primitive.js:34-46 | the plane's index list is the grid of two triangles (i0, i1, i3), (i1, i2, i3) per cell |
| MeshIndices.PlaneCell | libs/webgpu/primitive/Primitive.js:39-44 | one cell pushes its two triangles |
| MeshIndices.SphereGrid | libs/webgpu/primitive/Primitive.js:70-91 | the vertex grid has segmentsH + 1 rows of segmentsW + 1 consecutive indices, row j starting at `(segmentsW + 1) * j` |
| MeshIndices.CreateSphereIndices | libs/webgpu/primitive/Primitive.js:93-108 | the sphere's index list is the grid with the first triangle dropped in row 0 and the second in the last row |
| MeshIndices.SphereRow | libs/webgpu/primitive/Primitive.js:94-107 | one row of cells appends that row's triangles |
| MeshIndices.SphereCell | libs/webgpu/primitive/Primitive.js:97-106 | one cell pushes (i0, i1, i3) unless j = 0 and (i1, i2, i3) unless j = segmentsH - 1 |
| MeshIndices.CreateTorusIndices | libs/webgpu/primitive/Primitive.js:158-168 | the torus's index list is the grid with segmentsT cells per row and segmentsR rows |
| MeshIndices.TorusCell | libs/webgpu/primitive/Primitive.js:160-166 | one cell pushes its two triangles |
| MeshIndices.FullGridLength | libs/webgpu/primitive/Primitive.js:34-46 | plane and torus emit `6 * segW * segH` indices |
| MeshIndices.GridBounds | libs/webgpu/primitive/Primitive.js:158-168 | every index of a plane, sphere or torus lies below the vertex count `(w + 1) * (h + 1)` |
| MeshIndices.SphereLength | libs/webgpu/primitive/Primitive.js:93-108 | the sphere emits `6 * segmentsW * (segmentsH - 1)` indices |
| MeshIndices.SpherePoles | libs/webgpu/primitive/Primitive.js:102-107 | no sphere triangle has two corners in the top vertex row or two in the bottom vertex row |
| UniformSlots.CeilTo | webgpu-world/script.js:305 | `Math.ceil(n / m) * m` is a multiple of m in [n, n + m) |
| UniformSlots.CeilToLeast | webgpu-world/script.js:305 | it is the least multiple of m that is at least n |
| UniformSlots.AlignedSlotBytes | webgpu-world/script.js:306 | a slot rounded to 64 floats spans a multiple of 256 bytes and holds the object |
| UniformSlots.SlotWindows | webgpu-world/script.js:324-347 | a window of width <= slot size in slot i ends inside the slots, windows of distinct slots are disjoint, and 256-multiple slot sizes give aligned starts |
| UniformSlots.SetAt | webgpu-world/script.js:391 | `Float32Array.set(src, offset)` writes src at [offset, offset + len) and keeps the rest |
| UniformSlots.PlacedWindow | webgpu-world/script.js:391-392 | after the slot writes, float k of piece i sits at `unit * i + at + k` |
| UniformSlots.PlacedBeyond | webgpu-world/script.js:394-395 | elements past the first n slots keep their previous value |
| UniformSlots.WritePieces | webgpu-world/script.js:454-462 | writing piece i at float `at` of slot i for each i leaves exactly the `Placed` contents |
| WorldUniforms.CreateOffsetUniform | webgpu-world/script.js:300-310 | alignedFloatElementsPerObj is a multiple of 64 in [floats, floats + 64); bufferSizePerObj is 4 times that and a multiple of 256; the byte size equals 4 times the Float32Array length `aligned * num` |
| WorldUniforms.BindGroupRanges | webgpu-world/script.js:324-347 | for i < MAX_NUM, bind group i's range is 256-aligned, holds the object's floats, lies in the buffer, and is disjoint from every other bind group's |
| WorldUniforms.UploadCoversWrites | webgpu-world/script.js:394-395 | for num <= MAX_NUM, the upload of `bufferSizePerObj * num` bytes stays in the buffer and covers every write of instances i < num |
| WorldUniforms.ResetInstance | webgpu-world/script.js:379-396 | instance i's color lands in slot i of the fixed data and its model matrix in slot i of the variable data, everything else is kept |
| WorldUniforms.UpdateModelMatrices | webgpu-world/script.js:454-463 | the frame loop writes each instance's matrix into its slot, everything else is kept |
| WorldUniforms.CreateCommonUniformData | webgpu-world/script.js:349-367 | the common uniform has `ceil(27 / 4) * 4 = 28` floats: zeros, the ambient color at 16-19, the directional color at 20-23, zeros |
| WorldUniforms.UpdateCommonUniformData | webgpu-world/script.js:441-450 | the light direction goes to 24-26 and the matrix to 0-15; the colors at 16-23 and float 27 are kept |
| WorldUniforms.PadIndexData | webgpu-world/script.js:166-173 | an index list with a byte length not a multiple of 4 is replaced by a copy one longer ending in 0; otherwise it is kept; the result's byte length is a multiple of 4 and starts with the original |
| GBufferUniforms.CreateUniformList | mrt-gbuffer/script.js:480-518 | dynamicElements is a multiple of 64 in [floats, floats + 64); dynamicBufferSize is 4 times that and a multiple of 256; the byte size is 4 times the Float32Array length; the bound size `4 * floats` fits in one slot |
| GBufferUniforms.DynamicOffsets | mrt-gbuffer/script.js:273-274 | each dynamic offset `i * dynamicBufferSize` with i < num is 256-aligned, its bound window lies in the buffer, and windows of distinct objects are disjoint (also lines 308-309, 322-323) |
| GBufferUniforms.PartialUpload | mrt-gbuffer/script.js:241-242 | for lightLength <= MAX_LIGHT_NUM slots, the upload `dynamicBufferSize * lightLength` stays in the buffer and covers every written slot |
| GBufferUniforms.SetTorusColors | mrt-gbuffer/script.js:1555-1577 | each torus's color lands at floats 16-19 of its slot, everything else is kept |
| GBufferUniforms.UpdateTorusMatrices | mrt-gbuffer/script.js:195-203 | each torus's model matrix lands at floats 0-15 of its slot, everything else is kept |
| GBufferUniforms.PointLightSlot | mrt-gbuffer/script.js:346-355 | after createPointLightList(n) and a frame, slot i holds the matrix at 0-15, the color at 16-19, the position at 20-22, and intensity `0.03 + 20 / n`, distance 3 and attenuation 2 at 24-26: the four writes are disjoint and fit in the 28-float payload |
| GBufferUniforms.PointLight.constructor | mrt-gbuffer/script.js:1604-1612 | MAX_LIGHT_NUM zero-filled slots for the lights and their helpers, no light in use |
| GBufferUniforms.PointLight.CreatePointLightList | mrt-gbuffer/script.js:338-363 | each light's color and parameters land at floats 16 and 24 of its slot, each helper's color at 16 of its slot, the rest is kept, and num becomes n |
| GBufferUniforms.PointLight.UpdatePointLights | mrt-gbuffer/script.js:224-243 | each of the num lights gets its matrix at 0 and position at 20, each helper its matrix at 0, the rest is kept |
| GBufferUniforms.ResizeCommonUniform | mrt-gbuffer/script.js:86-91 | floats 32-35 become w, h, 1/w, 1/h and the two matrices at 0-31 are kept |
| GBufferUniforms.UpdateCameraMatrices | mrt-gbuffer/script.js:188-191 | the view-projection matrix goes to 0-15 and its inverse to 16-31, the screen size at 32-35 is kept |

## Left out

- Sorted elements are `int`. The kernels only compare them, and `Math.random` never yields NaN. Float32 rounding and NaN ordering are not modelled.
- Uniform floats (colors, matrices, light parameters) are `real`, so Float32 rounding of `0.03 + 20 / n` and similar values is not modelled.
- Parallelism is not modelled:
  - each barrier-separated kernel stage is a sequential pass over disjoint pairs;
  - invocation scheduling and `workgroupBarrier` are not modelled.
- GPU plumbing is not modelled:
  - adapter, device, pipelines, bind-group objects and command encoding;
  - `queue.submit`, `writeBuffer`;
  - WebGPU validation.

  Where a property needs their effect, it appears as an array copy. Bind-group offsets appear as numbers recorded in a list.
- `mapAsync`/`getMappedRange` are not modelled. The asynchronous readback is applied immediately, so the deferred copy is applied at once.
- Timing (`performance.now`), `log`, the CPU reference `arr.sort`, `resetData`, the DOM and the select-box widgets are not modelled.
- BitonicPlan.MaxGroupNum: `Math.log2` of the device limit is taken as an exact truncated logarithm. Floating-point error of `Math.log2` on non-powers of two is not modelled.
- BitonicSort.ComputeGpu requires T <= length. With length < T the kernels read past the array, where WGSL's robust access behaviour cannot be modelled. It also requires both to be powers of two (all selectable lengths are) and length < 2^30.
- BitonicSort.ComputeGpu at length = 2^30: `k <<= 1` wraps in 32-bit arithmetic, k goes 2^30, -2^31, 0, 0, ..., `k <= length` stays true, and the packing loop at compute-bitonicSort/script.js:135 never ends. That length is offered only when log2(T * MAX_GROUP_NUM) >= 30, which default device limits do not reach.
- BitonicKernels.StagePass, BitonicKernels.SharedMerge, BitonicKernels.LocalMergeWorkgroup, BitonicKernels.GlobalStageKernel and BitonicKernels.LocalMergeKernel require power-of-two k and j, because `^ j` and `& k` are modelled as flipping and testing a single bit. Every (k, j) the packing loop writes is a power of two (BitonicPlan.PackUniforms).
- Readback.ReadbackBuffer.constructor requires the byte length to divide evenly into the chunk count and the chunk into elements. Otherwise `unitByteLength` is fractional. Readback.Float32ChunksEven proves this for every power-of-two Float32Array length, which covers every length the sort uses.
- Readback.ReadbackBuffer.constructor: for an empty array the model stores unitByteLength = 0, where JavaScript computes 0 / 0 = NaN. No chunk loop runs in that case, so nothing reads the value.
- Readback.Float32Bytes: a typed array is modelled by its backing-store bytes, but the IEEE 754 encoding of a float is not. An element's four bytes are the element followed by three zero bytes. The readback copies bytes without looking at them, so only the round trip (Readback.Float32RoundTrip) matters.
- PrimitiveLayout.ParseAttributeSet: when several violations are present, the model states that the reported error is one that really occurs. It does not state which one the scan order reports first.
- `Math.floor` of a numeric attribute entry is represented as an `Elements(n)` entry. A NaN is represented as `NotANumber`, and both string constants as named attributes. The POSITION constant's spelling is irrelevant to the model.
- PrimitivePack.PackBufferData requires a layout whose attributes fit inside their buffers, and source lists long enough for numVertices. JavaScript silently drops out-of-range typed-array writes and reads `undefined`. Every layout `parseAttributeSet` returns fits (ParsedLayoutFits).
- Wireframe.CreateWireframeIndices requires a whole number of triangles; a partial triangle would read `undefined`. The string key `imin:imax` is modelled as the pair (imin, imax), which is injective for integers.
- The positions, normals and uvs of the generators are not modelled, because they are trigonometric float values. Segment counts are naturals.
- Random scene setup, HSV colors and camera, model and inverse matrices are inputs to the methods that write them.
- The light motion functions (wave, spiral, random) are not modelled.
- WorldUniforms.ResetInstance and WorldUniforms.UpdateModelMatrices require num <= MAX_NUM, the slider's upper bound.
- GBufferUniforms.PointLight.CreatePointLightList requires n <= MAX_LIGHT_NUM, the slider's upper bound (mrt-gbuffer/script.js:126).
- GBufferUniforms.ResizeCommonUniform requires nonzero w and h. JavaScript would store Infinity, which real arithmetic does not have.
- GBufferUniforms.PointLight.constructor starts `num` at 0, where JavaScript leaves it undefined until the first `createPointLightList`.
- The light helper's own uniform writes outside the point-light loop are not modelled. This covers `lightHelper` in the instanced demo (webgpu-world/script.js:398-400, 466).
- UniformSlots.CeilTo models `Math.ceil(n / m) * m` for whole n; the floating-point division is not modelled.
