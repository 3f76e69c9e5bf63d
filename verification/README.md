# Castle demo frame bookkeeping, in Dafny

This project models the integer bookkeeping of `ShapesApp`, the Direct3D 12
castle demo in `Solution/Project/week3-1-BoxApp.cpp`, and proves properties
of it. Everything that goes to the GPU or goes through DirectXMath is
abstracted away. What is left is natural-number arithmetic and a small state
machine:

- **Frame-resource ring and fence handshake** (`Update`, `Draw`):
  - `mCurrFrameResourceIndex` cycles over `gNumFrameResources = 3` slots.
  - Before a slot is reused, the CPU waits until the GPU's completed fence
    value reaches that slot's `Fence`.
  - `Draw` stamps the slot with `++mCurrentFence`.
  - `mCurrBackBuffer` is a second ring, over `SwapChainBufferCount` buffers.
- **Dirty countdown** (`UpdateObjectCBs`): an item copies its constants into
  the current frame resource's object buffer while `NumFramesDirty > 0`, and
  the counter goes down by one on each such copy.
- **Descriptor heap layout** (`BuildDescriptorHeaps`,
  `BuildConstantBufferViews`, and the lookups in `Draw` and
  `DrawRenderItems`):
  - object views live at `frame * objCount + i`;
  - pass views live at `objCount * 3 + frame`;
  - the heap has `(objCount + 1) * 3` slots.
- **Render items and geometry** (`BuildRenderItems`, `BuildShapeGeometry`):
  - every render item gets an `ObjCBIndex`;
  - eleven generated meshes are concatenated into one vertex buffer and one
    16-bit index buffer;
  - each piece gets a submesh record giving its place in those buffers.

Modules, one file each:

| module | file | contents |
|---|---|---|
| `Ring` | `ring.dfy` | circular indices (`Next`, `Advance`, `Back`) and their period, range and coverage lemmas |
| `FrameSync` | `frame_sync.dfy` | ring index, per-slot fences, `mCurrentFence`, back buffer; the wait; the stamp; the fence-history invariant |
| `ObjectConstants` | `object_constants.dfy` | `UpdateObjectCBs` as a function returning the new counts and the copies made; which copies are current |
| `DescriptorHeap` | `descriptor_heap.dfy` | heap size and offsets, the view stored in each slot, `BuildConstantBufferViews` |
| `Scene` | `scene.dfy` | render items (piece, `ObjCBIndex`, `NumFramesDirty`) and `BuildRenderItems` |
| `ShapeGeometry` | `shape_geometry.dfy` | offset tables as intended and as written, the vertex fill loops, the index buffer, what a draw reads |
| `ShapesApp` | `shapes_app.dfy` | `Update`, `Draw` and `DrawRenderItems` assembled from the above; scene-level lemmas |

Modelling choices:

- **The GPU's completed fence value** is a non-empty, non-decreasing sequence
  of the readings `GetCompletedValue` would return. The wait in `Update`
  goes on with the first reading that reaches the fence. If the sequence
  ends first, the result is `Blocked`/`Stalled`, meaning the CPU is still
  waiting.
- **`CopyData` and `CreateConstantBufferView`** are abstract records.
  - A copy is `CbWrite(frame, element)`.
  - A descriptor is the `View` it describes.
- **Mesh contents** come from `GeometryGenerator`, which is not part of this
  model. Meshes have an abstract position type and arbitrary sizes.
- **A piece's vertex and index offsets** are indexed by its position in the
  concatenation order: box, cylinder, grid, rooftop, door, cone, wedge,
  torus, pyramid, diamond, diamond1.

## Model

| member | source | states |
|---|---|---|
| `Ring.Next` | Solution/Project/week3-1-BoxApp.cpp:241 | the next ring index is below the ring size; from inside the ring it is the successor, or 0 at the end |
| `Ring.AdvanceInRange` | Solution/Project/week3-1-BoxApp.cpp:241 | once inside [0, n), any number of ring steps stays inside |
| `Ring.AdvancePeriodic` | Solution/Project/week3-1-BoxApp.cpp:241 | every n updates the ring revisits the same slot |
| `Ring.AdvanceDistinct` | Solution/Project/week3-1-BoxApp.cpp:241 | within fewer than n steps the ring never visits a slot twice |
| `Ring.BackCovers` | Solution/Project/week3-1-BoxApp.cpp:241 | every slot was current at some point within the last n steps |
| `FrameSync.AwaitSlot` | Solution/Project/week3-1-BoxApp.cpp:247-256 | the CPU goes on only with a completed value at which the slot is reusable (fence 0 or reached); it waits exactly when the first reading is short of the fence; without a wait it goes on with that first reading, and after a wait with the first reading that reaches the fence; it stays blocked exactly when no reading reaches the fence |
| `FrameSync.EndFrame` | Solution/Project/week3-1-BoxApp.cpp:340-351 | the stamp is exactly one above the previous mCurrentFence; the submitted slot holds it, the largest fence of all slots; the other slots are unchanged; the back buffer moves one step around its ring |
| `FrameSync.InitialState` | Solution/Project/week3-1-BoxApp.cpp:113 | the starting state (ring at 0, no slot submitted) is valid and satisfies the fence history |
| `FrameSync.FrameKeepsHistory` | Solution/Project/week3-1-BoxApp.cpp:241-351 | one Update/Draw cycle keeps the invariant: the slot used j frames ago holds 0 or the fence issued j frames ago |
| `FrameSync.InFlightBound` | Solution/Project/week3-1-BoxApp.cpp:241-256 | once the wait lets Update go on, at most two submitted frames can still be unfinished on the GPU |
| `ObjectConstants.UpdateObjectCBs` | Solution/Project/week3-1-BoxApp.cpp:434-453 | every count goes down by one only while positive; every copy goes to the current frame resource; each dirty item's element is copied, and every copy comes from a dirty item |
| `ObjectConstants.WrittenIffDirty` | Solution/Project/week3-1-BoxApp.cpp:441-451 | with distinct indices, an item's element is copied exactly when its count was positive |
| `ObjectConstants.NewItemCopiesCurrent` | Solution/Project/week3-1-BoxApp.cpp:52 | an item starting at gNumFrameResources satisfies the copy invariant with no copies made |
| `ObjectConstants.UpdateKeepsCopiesCurrent` | Solution/Project/week3-1-BoxApp.cpp:437-453 | advancing the ring and updating keeps the invariant: the counter stays in [0, 3] and the item's element is copied in each of the last 3 - NumFramesDirty slots |
| `ObjectConstants.CleanItemCopiedEverywhere` | Solution/Project/week3-1-BoxApp.cpp:437-453 | once the count reaches 0, the item's element has been copied into every frame resource |
| `ObjectConstants.UpdatedItemCopyInCurrentFrame` | Solution/Project/week3-1-BoxApp.cpp:437-453 | after an update, the current frame resource holds the item's copy |
| `ObjectConstants.CountdownSpreadsOverRing` | Solution/Project/week3-1-BoxApp.cpp:437-453 | three updates of a new item over successive slots copy it into three distinct frame resources and leave it at 0, after which nothing more is copied |
| `DescriptorHeap.ObjectCbvInRange` | Solution/Project/week3-1-BoxApp.cpp:486-491 | an object view's index lies below the pass offset, which lies below the heap size |
| `DescriptorHeap.LayoutRoundTrip` | Solution/Project/week3-1-BoxApp.cpp:509-550 | slots and built views are in bijection: a built view's slot is inside the heap and holds that view, and every heap slot holds a built view stored at that slot |
| `DescriptorHeap.SlotsDistinct` | Solution/Project/week3-1-BoxApp.cpp:509-550 | two different views never share a slot |
| `DescriptorHeap.BuildObjectViews` | Solution/Project/week3-1-BoxApp.cpp:512-529 | one frame resource's inner loop extends the filled prefix by objCount slots holding the layout's views |
| `DescriptorHeap.BuildConstantBufferViews` | Solution/Project/week3-1-BoxApp.cpp:502-550 | the heap has (objCount + 1) * 3 slots, none left empty; each object view of each frame is at frame * objCount + i; each pass view is at the pass offset plus its frame |
| `Scene.BuildRenderItems` | Solution/Project/week3-1-BoxApp.cpp:936-1215 | 23 items, all starting dirty for every frame resource; ObjCBIndex values pairwise distinct and below the item count; the grid last, with index equal to the item count before it; mOpaqueRitems lists every item |
| `ShapeGeometry.SubmeshesTile` | Solution/Project/week3-1-BoxApp.cpp:666-752 | with running-sum offsets, each piece's index and vertex ranges start where the previous one ends, stay inside the totals, and never overlap |
| `ShapeGeometry.VertexOffsetsAsWrittenDeviation` | Solution/Project/week3-1-BoxApp.cpp:666-676 | the vertex offsets as written are the running sums up to the pyramid; the diamond's is right only when it and the pyramid have equal vertex counts, and likewise diamond1's |
| `ShapeGeometry.IndexOffsetsAsWrittenDeviation` | Solution/Project/week3-1-BoxApp.cpp:682-692 | the index offsets as written are the running sums except the rooftop's (right only when the grid's vertex and index counts agree) and the two diamonds' (right only when their index counts equal the pyramid's) |
| `ShapeGeometry.SubmeshesAsWrittenDeviation` | Solution/Project/week3-1-BoxApp.cpp:696-752 | the submesh table as written matches the intended one except for the rooftop and the diamonds; the rooftop's start is right only when the first three pieces' vertex and index totals agree |
| `ShapeGeometry.SubmeshesAsWrittenCounterexample` | Solution/Project/week3-1-BoxApp.cpp:713-752 | concrete mesh sizes under which the rooftop starts at index 1666 instead of 9402 and both diamonds' submeshes are shifted |
| `ShapeGeometry.IndexBufferLayout` | Solution/Project/week3-1-BoxApp.cpp:827-838 | the combined index buffer has the summed length, and piece p's j-th index sits at its running-sum offset plus j, narrowed to 16 bits |
| `ShapeGeometry.FillRun` | Solution/Project/week3-1-BoxApp.cpp:766-770 | one fill loop writes count vertices of the given colour from k on and leaves the prefix alone; it fails exactly when the source mesh is shorter than count |
| `ShapeGeometry.FillVertices` | Solution/Project/week3-1-BoxApp.cpp:755-825 | the fill completes exactly when no loop reads past its source mesh; then k ends at totalVertexCount, which is the buffer's length, and the buffer is the pieces' coloured runs in order; otherwise the failing piece is the first that reads out of range |
| `ShapeGeometry.IntendedFillPlacesPieces` | Solution/Project/week3-1-BoxApp.cpp:764-825 | with each loop reading its own mesh, piece p's i-th vertex lands at its running-sum offset plus i, with p's colour |
| `ShapeGeometry.AsWrittenFillDeviation` | Solution/Project/week3-1-BoxApp.cpp:821-825 | as written, the fill reads out of range exactly when diamond1 has more vertices than diamond, and otherwise gives diamond1 the diamond's positions |
| `ShapeGeometry.DrawReadsOwnPiece` | Solution/Project/week3-1-BoxApp.cpp:1239 | a draw of piece p through the intended submesh reads index StartIndexLocation + j and then p's own vertex in p's colour, whenever the index fits in 16 bits |
| `ShapesApp.ItemDescriptor` | Solution/Project/week3-1-BoxApp.cpp:1233 | the descriptor an item binds is inside the heap and holds that item's view in the current frame resource exactly when ObjCBIndex is below the object count |
| `ShapesApp.DrawRenderItems` | Solution/Project/week3-1-BoxApp.cpp:1217-1241 | one draw per item, in item order, drawing the item's piece; each draw binds the item's own object view of the current frame exactly when its ObjCBIndex is below the size of mOpaqueRitems |
| `ShapesApp.PassDescriptor` | Solution/Project/week3-1-BoxApp.cpp:317 | the pass descriptor is inside the heap, holds the current frame's pass view, and is no object view's slot |
| `ShapesApp.Update` | Solution/Project/week3-1-BoxApp.cpp:235-264 | the ring advances; constants are updated only after the GPU is done with the new slot, judged by the guard's single reading when no wait is needed; all copies go to that slot; each item keeps its piece and index while its count drops by one only while positive; dirty items are copied, and every copy comes from a dirty item; Update stalls exactly when the GPU never reaches the slot's fence |
| `ShapesApp.Draw` | Solution/Project/week3-1-BoxApp.cpp:266-352 | binds the current frame's pass view; each item with an in-range ObjCBIndex binds its own view of the current frame; stamps the current slot with mCurrentFence + 1 and leaves the other slots' fences alone; advances the back buffer |
| `ShapesApp.Frame` | Solution/Project/week3-1-BoxApp.cpp:235-352 | one Update followed by Draw keeps the state valid and the fence history, so the in-flight bound carries to the next frame; the fence rises by one; items keep their pieces and indices and are drawn in order; it stalls exactly when the GPU never reaches the slot's fence |
| `ShapesApp.ObjectWritesInCapacity` | Solution/Project/week3-1-BoxApp.cpp:927-933 | when indices are below the item count, every element UpdateObjectCBs copies fits in the per-frame ObjectCB sized by mAllRitems.size() |
| `ShapesApp.SceneDrawsOwnViews` | Solution/Project/week3-1-BoxApp.cpp:1211-1241 | for the scene's items, each draw binds its own item's view of the current frame, and no two items bind the same descriptor |

## Left out

- Direct3D 12 and DXGI calls are foreign API calls with no visible semantics:
  - device, command lists, allocators and the queue;
  - barriers and clears;
  - root signature, PSOs and shaders;
  - descriptor handle arithmetic and byte sizes;
  - `Present`.
  Only what they are given (slot indices, view targets, submesh ranges) is
  modelled.
- The GPU timeline and the Win32 event wait are concurrency. Only the CPU-side
  guard on a sequence of completed-fence readings is modelled.
- `OutputDebugString` in the wait branch is I/O.
- Floating-point content is out of scope:
  - world, view and projection matrices;
  - the camera;
  - the pass constants written by `UpdateMainPassCB`;
  - the castle's transforms in `BuildRenderItems`.
- `UpdateMainPassCB`: its one copy into the current frame resource's `PassCB`
  element 0 is not recorded, because its content is all floating point.
- Win32 input (`OnKeyboardInput`, the mouse handlers), `OnResize` and the
  `D3DApp` base class are window boilerplate.
- `d3dApp.h`, `FrameResource.h`, `UploadBuffer.h` and `GeometryGenerator` are
  not part of this model. So:
  - `SwapChainBufferCount` is a parameter;
  - the value `mCurrentFence` has after initialisation is a parameter;
  - an ObjectCB's capacity is the item count passed to the `FrameResource`
    constructor;
  - mesh sizes and positions are abstract.
- 32-bit `UINT` wrap-around is not modelled. This affects heap indices,
  `cbvIndex`, offsets, and `mCurrentFence` (`UINT64`). Every value here is
  small except the fence, which would need 2^64 frames to wrap.
- `DrawArgs` map lookups are not modelled. A render item carries its piece,
  and the submesh it draws is that piece's entry in the submesh table. The
  vertex/index buffer views, the topology, and the uploads of the
  concatenated buffers are left out as well.
- `mAllRitems` and `mOpaqueRitems` hold pointers to the same items. The model
  passes them as separate sequences: `Update` takes the items it counts down,
  and `Draw` takes the opaque list. `ShapesApp.Frame` passes `Update`'s
  result to `Draw`. This is harmless because `Draw` reads only `piece` and
  `objCBIndex`, which `Update` leaves unchanged.
- `ShapesApp.Update`: the infinite wait becomes `Stalled` when the reading
  sequence ends before the fence is reached. The model does not claim the
  GPU eventually gets there.
- `ShapesApp.Draw`: when an item's `ObjCBIndex` is out of range it states
  nothing about that item's descriptor. `ShapesApp.DrawRenderItems` gives
  the full if-and-only-if.

## Findings

The offset tables and the fill loops of `BuildShapeGeometry` depart from the
running-sum layout in five places. The intended table (`Submeshes`, running
sums in concatenation order) and the intended fill (`IntendedSource`, each
loop reading its own mesh) are what the rest of the model uses.

| source | as written | input that shows it | evidently intended | confidence | as-written member | corrected member |
|---|---|---|---|---|---|---|
| Solution/Project/week3-1-BoxApp.cpp:675-676 | the diamond's vertex offset adds the diamond's own vertex count to the pyramid's offset, and diamond1's adds its own count to the diamond's | a 5-vertex pyramid and a 6-vertex diamond (`SubmeshesAsWrittenCounterexample`): the diamond's BaseVertexLocation is one too high | add the preceding piece's count: pyramid's for the diamond, diamond's for diamond1 | high; not executed | `ShapeGeometry.VertexOffsetsAsWrittenDeviation` | `ShapeGeometry.SubmeshesTile` |
| Solution/Project/week3-1-BoxApp.cpp:691-692 | the same slip in the index offsets of the two diamonds | an 18-index pyramid and a 24-index diamond (`SubmeshesAsWrittenCounterexample`): diamond1's StartIndexLocation is six too high | add the preceding piece's index count | high; not executed | `ShapeGeometry.IndexOffsetsAsWrittenDeviation` | `ShapeGeometry.SubmeshesTile` |
| Solution/Project/week3-1-BoxApp.cpp:685 | the rooftop's index offset adds the grid's vertex count instead of its index count | any grid whose vertex and index counts differ (1600 against 9126 in `SubmeshesAsWrittenCounterexample`); the value is never read, because of the next row | add the grid's index count | high; not executed | `ShapeGeometry.IndexOffsetsAsWrittenDeviation` | `ShapeGeometry.SubmeshesTile` |
| Solution/Project/week3-1-BoxApp.cpp:714 | the rooftop's StartIndexLocation is set to its vertex offset | vertex counts 24, 42, 1600 and index counts 36, 240, 9126 for box, cylinder and grid (`SubmeshesAsWrittenCounterexample`): the rooftop starts at index 1666 instead of 9402, inside the grid's indices. No visible effect in this program: `DrawArgs["rooftop"]` (line 873) is never read, because no render item draws the rooftop | the rooftop's index offset | high; not executed | `ShapeGeometry.SubmeshesAsWrittenDeviation` | `ShapeGeometry.DrawReadsOwnPiece` |
| Solution/Project/week3-1-BoxApp.cpp:823 | the diamond1 fill loop reads positions from the diamond's vertices | a diamond1 with more vertices than the diamond reads out of range; otherwise diamond1 is drawn with the diamond's positions (`AsWrittenFillDeviation`) | read diamond1's own vertices | high; not executed | `ShapeGeometry.AsWrittenFillDeviation` | `ShapeGeometry.IntendedFillPlacesPieces` |
