/**
  One frame of ShapesApp, put together from the pieces: Update advances the
  frame-resource ring, waits for the GPU to finish with the slot, and
  refreshes the dirty object constants; Draw binds the pass view and one
  object view per render item from the CBV heap, then stamps the slot with a
  new fence value and advances the back buffer. Command recording itself
  (barriers, clears, pipeline state) is not modelled; a draw is recorded by
  the submesh it draws and the descriptor it binds.
 */
module ShapesApp {
  import opened Ring
  import opened FrameSync
  import opened ShapeGeometry
  import opened Scene
  import opened ObjectConstants
  import opened DescriptorHeap

  /** A DrawIndexedInstanced call: the piece drawn and the heap slot of the view bound at root slot 0. */
  datatype DrawCall = DrawCall(piece: Piece, cbvIndex: nat)

  /**
    The object view bound for an item is the item's own element of the
    current frame resource's ObjectCB exactly when the item's index is below
    the number of objects the heap was laid out for.
   */
  lemma ItemDescriptor(objCount: nat, currFrame: nat, element: nat)
    requires currFrame < NumFrameResources
    ensures (ObjectCbvIndex(objCount, currFrame, element) < HeapSize(objCount) &&
             ViewAt(objCount, ObjectCbvIndex(objCount, currFrame, element)) == ObjectCbv(currFrame, element))
            <==> element < objCount
  {
    LayoutRoundTrip(objCount, ObjectCbv(currFrame, element), ObjectCbvIndex(objCount, currFrame, element));
  }

  /**
    DrawRenderItems: one draw per item, in order, binding the descriptor at
    mCurrFrameResourceIndex * objCount + ObjCBIndex, where objCount is the
    size of mOpaqueRitems.
   */
  method DrawRenderItems(ritems: seq<RenderItem>, objCount: nat, currFrame: nat) returns (calls: seq<DrawCall>)
    requires currFrame < NumFrameResources
    ensures |calls| == |ritems|
    ensures forall i :: 0 <= i < |calls| ==> calls[i].piece == ritems[i].piece
    ensures forall i :: 0 <= i < |calls| ==>
              ((calls[i].cbvIndex < HeapSize(objCount) &&
                ViewAt(objCount, calls[i].cbvIndex) == ObjectCbv(currFrame, ritems[i].objCBIndex))
               <==> ritems[i].objCBIndex < objCount)
  {
    calls := [];
    for i := 0 to |ritems|
      invariant |calls| == i
      invariant forall k :: 0 <= k < i ==> calls[k].piece == ritems[k].piece
      invariant forall k :: 0 <= k < i ==>
                  ((calls[k].cbvIndex < HeapSize(objCount) &&
                    ViewAt(objCount, calls[k].cbvIndex) == ObjectCbv(currFrame, ritems[k].objCBIndex))
                   <==> ritems[k].objCBIndex < objCount)
    {
      var ri := ritems[i];
      var cbvIndex := currFrame * objCount + ri.objCBIndex;
      ItemDescriptor(objCount, currFrame, ri.objCBIndex);
      calls := calls + [DrawCall(ri.piece, cbvIndex)];
    }
  }

  /**
    Draw's pass descriptor, mPassCbvOffset + mCurrFrameResourceIndex, is the
    current frame resource's pass view, and no object view shares its slot.
   */
  lemma PassDescriptor(objCount: nat, currFrame: nat)
    requires currFrame < NumFrameResources
    ensures PassCbvIndex(objCount, currFrame) < HeapSize(objCount)
    ensures ViewAt(objCount, PassCbvIndex(objCount, currFrame)) == PassCbv(currFrame)
    ensures forall f, i :: 0 <= f < NumFrameResources && 0 <= i < objCount ==>
              ObjectCbvIndex(objCount, f, i) != PassCbvIndex(objCount, currFrame)
  {
    LayoutRoundTrip(objCount, PassCbv(currFrame), 0);
    forall f, i | 0 <= f < NumFrameResources && 0 <= i < objCount
      ensures ObjectCbvIndex(objCount, f, i) != PassCbvIndex(objCount, currFrame)
    {
      SlotsDistinct(objCount, ObjectCbv(f, i), PassCbv(currFrame));
    }
  }

  /** What Update leaves behind, or the wait it is still stuck in when the GPU trace ends. */
  datatype UpdateResult =
    | Updated(sync: Sync, items: seq<RenderItem>, writes: seq<CbWrite>, completed: nat, waited: bool)
    | Stalled(fence: nat)

  /**
    Update: advance to the next frame resource, wait until the GPU has
    passed that slot's fence, then run UpdateObjectCBs on it. The GPU's
    completed value is read from the trace `gpu`; the wait stalls only if
    the trace ends before reaching the fence.
   */
  method Update(s: Sync, items: seq<RenderItem>, gpu: seq<nat>) returns (r: UpdateResult)
    requires |s.fences| == NumFrameResources && s.currFrame < NumFrameResources
    requires |gpu| > 0 && NonDecreasing(gpu)
    ensures r.Updated? ==> r.sync == BeginFrame(s) && r.completed in gpu
    ensures r.Updated? ==> SlotReady(CurrentSlotFence(r.sync), r.completed)
    ensures r.Updated? ==> (r.waited <==> !SlotReady(CurrentSlotFence(r.sync), gpu[0]))
    ensures r.Updated? && !r.waited ==> r.completed == gpu[0]
    ensures r.Updated? ==> forall w :: w in r.writes ==> w.frame == r.sync.currFrame
    ensures r.Updated? ==> |r.items| == |items|
    ensures r.Updated? ==> forall i :: 0 <= i < |items| ==>
              r.items[i] == items[i].(numFramesDirty := CountDown(items[i].numFramesDirty))
    ensures r.Updated? ==> forall i :: 0 <= i < |items| && items[i].numFramesDirty > 0 ==>
              CbWrite(r.sync.currFrame, items[i].objCBIndex) in r.writes
    ensures r.Updated? ==> forall w :: w in r.writes ==>
              exists i :: 0 <= i < |items| && items[i].numFramesDirty > 0 && w.element == items[i].objCBIndex
    ensures r.Stalled? <==> !SlotReady(CurrentSlotFence(BeginFrame(s)), gpu[|gpu| - 1])
  {
    var s' := BeginFrame(s);
    var w := AwaitSlot(CurrentSlotFence(s'), gpu);
    if w.Blocked? {
      return Stalled(CurrentSlotFence(s'));
    }
    var u := UpdateObjectCBs(items, s'.currFrame);
    r := Updated(s', u.items, u.writes, w.completed, w.waited);
  }

  /** What Draw records and the synchronisation state it leaves. */
  datatype DrawResult = DrawResult(passCbvIndex: nat, calls: seq<DrawCall>, sync: Sync)

  /**
    Draw: bind the pass view of the current frame resource, draw the opaque
    items, present, advance the back buffer and stamp the current frame
    resource with the next fence value.
   */
  method Draw(s: Sync, bufferCount: nat, opaqueItems: seq<RenderItem>) returns (r: DrawResult)
    requires Valid(s, bufferCount)
    ensures r.passCbvIndex < HeapSize(|opaqueItems|)
    ensures ViewAt(|opaqueItems|, r.passCbvIndex) == PassCbv(s.currFrame)
    ensures |r.calls| == |opaqueItems|
    ensures forall i :: 0 <= i < |r.calls| ==> r.calls[i].piece == opaqueItems[i].piece
    ensures forall i :: 0 <= i < |r.calls| && opaqueItems[i].objCBIndex < |opaqueItems| ==>
              r.calls[i].cbvIndex < HeapSize(|opaqueItems|) &&
              ViewAt(|opaqueItems|, r.calls[i].cbvIndex) == ObjectCbv(s.currFrame, opaqueItems[i].objCBIndex)
    ensures Valid(r.sync, bufferCount) && r.sync.currFrame == s.currFrame
    ensures r.sync.currentFence == s.currentFence + 1
    ensures r.sync.fences[s.currFrame] == r.sync.currentFence
    ensures forall j :: 0 <= j < NumFrameResources && j != s.currFrame ==> r.sync.fences[j] == s.fences[j]
    ensures r.sync.backBuffer == Next(s.backBuffer, bufferCount)
  {
    var objCount := |opaqueItems|;
    var passCbvIndex := PassCbvOffset(objCount) + s.currFrame;
    PassDescriptor(objCount, s.currFrame);
    var calls := DrawRenderItems(opaqueItems, objCount, s.currFrame);
    r := DrawResult(passCbvIndex, calls, EndFrame(s, bufferCount));
  }

  /** One pass of the render loop, or the wait Update is still stuck in. */
  datatype FrameResult =
    | Rendered(sync: Sync, items: seq<RenderItem>, writes: seq<CbWrite>, draw: DrawResult)
    | FrameStalled

  /**
    Update followed by Draw. The render items of mAllRitems and
    mOpaqueRitems are the same objects; Draw reads only their pieces and
    indices, which Update leaves alone. The cycle keeps the state valid and
    keeps the fence history, so the in-flight bound holds on every frame.
   */
  method Frame(s: Sync, bufferCount: nat, items: seq<RenderItem>, gpu: seq<nat>) returns (r: FrameResult)
    requires Valid(s, bufferCount) && History(s)
    requires |gpu| > 0 && NonDecreasing(gpu)
    ensures r.Rendered? ==> Valid(r.sync, bufferCount) && History(r.sync)
    ensures r.Rendered? ==> r.sync.currFrame == Next(s.currFrame, NumFrameResources)
    ensures r.Rendered? ==> r.sync.currentFence == s.currentFence + 1
    ensures r.Rendered? ==> |r.items| == |items| && |r.draw.calls| == |items|
    ensures r.Rendered? ==> forall i :: 0 <= i < |items| ==>
              r.items[i].piece == items[i].piece && r.items[i].objCBIndex == items[i].objCBIndex &&
              r.draw.calls[i].piece == items[i].piece
    ensures r.Rendered? ==> forall w :: w in r.writes ==> w.frame == r.sync.currFrame
    ensures r.FrameStalled? <==> !SlotReady(CurrentSlotFence(BeginFrame(s)), gpu[|gpu| - 1])
  {
    var u := Update(s, items, gpu);
    if u.Stalled? {
      return FrameStalled;
    }
    var d := Draw(u.sync, bufferCount, u.items);
    FrameKeepsHistory(s, bufferCount);
    assert d.sync == EndFrame(BeginFrame(s), bufferCount);
    r := Rendered(d.sync, u.items, u.writes, d);
  }

  /**
    For the items BuildRenderItems makes, every element UpdateObjectCBs
    copies lies inside the per-frame ObjectCB, which BuildFrameResources
    sizes for mAllRitems.size() objects.
   */
  lemma ObjectWritesInCapacity(items: seq<RenderItem>, frame: nat)
    requires IndicesBelow(items, |items|)
    ensures forall w :: w in UpdateObjectCBs(items, frame).writes ==> w.frame == frame && w.element < |items|
  {
    var u := UpdateObjectCBs(items, frame);
    forall w | w in u.writes
      ensures w.element < |items|
    {
      var i :| 0 <= i < |items| && items[i].numFramesDirty > 0 && w.element == items[i].objCBIndex;
    }
  }

  /**
    For the scene BuildRenderItems makes (drawn through mOpaqueRitems, which
    lists the same items), each draw binds its own item's view in the current
    frame resource, and no two items bind the same descriptor.
   */
  lemma SceneDrawsOwnViews(all: seq<RenderItem>, currFrame: nat)
    requires DistinctIndices(all) && IndicesBelow(all, |all|) && currFrame < NumFrameResources
    ensures forall i :: 0 <= i < |all| ==>
              ObjectCbvIndex(|all|, currFrame, all[i].objCBIndex) < HeapSize(|all|) &&
              ViewAt(|all|, ObjectCbvIndex(|all|, currFrame, all[i].objCBIndex)) == ObjectCbv(currFrame, all[i].objCBIndex)
    ensures forall i, j :: 0 <= i < j < |all| ==>
              ObjectCbvIndex(|all|, currFrame, all[i].objCBIndex) != ObjectCbvIndex(|all|, currFrame, all[j].objCBIndex)
  {
    forall i | 0 <= i < |all|
      ensures ObjectCbvIndex(|all|, currFrame, all[i].objCBIndex) < HeapSize(|all|) &&
              ViewAt(|all|, ObjectCbvIndex(|all|, currFrame, all[i].objCBIndex)) == ObjectCbv(currFrame, all[i].objCBIndex)
    {
      ItemDescriptor(|all|, currFrame, all[i].objCBIndex);
    }
    forall i, j | 0 <= i < j < |all|
      ensures ObjectCbvIndex(|all|, currFrame, all[i].objCBIndex) != ObjectCbvIndex(|all|, currFrame, all[j].objCBIndex)
    {
      SlotsDistinct(|all|, ObjectCbv(currFrame, all[i].objCBIndex), ObjectCbv(currFrame, all[j].objCBIndex));
    }
  }
}
