/**
  The layout of the shader-visible CBV heap built by
  ShapesApp::BuildDescriptorHeaps and ShapesApp::BuildConstantBufferViews:
  NumFrameResources blocks of objCount object views (frame resource f's
  block starts at f * objCount), followed by one pass view per frame
  resource starting at mPassCbvOffset. A descriptor is recorded by the view
  it describes; descriptor handles, byte sizes and GPU addresses are not
  modelled.
 */
module DescriptorHeap {
  import opened Ring

  /** What a constant-buffer view points at. */
  datatype View =
    | ObjectCbv(frame: nat, element: nat)  // element `element` of frame resource `frame`'s ObjectCB
    | PassCbv(frame: nat)                  // frame resource `frame`'s PassCB

  datatype Descriptor = Empty | Cbv(view: View)

  /** numDescriptors: a view per object per frame resource, plus a pass view per frame resource. */
  function HeapSize(objCount: nat): nat {
    (objCount + 1) * NumFrameResources
  }

  /** mPassCbvOffset: the pass views are the last NumFrameResources descriptors. */
  function PassCbvOffset(objCount: nat): nat {
    objCount * NumFrameResources
  }

  /** heapIndex of the object view of element i of frame resource `frame`. */
  function ObjectCbvIndex(objCount: nat, frame: nat, i: nat): nat {
    frame * objCount + i
  }

  /** heapIndex of frame resource `frame`'s pass view. */
  function PassCbvIndex(objCount: nat, frame: nat): nat {
    PassCbvOffset(objCount) + frame
  }

  /** The descriptor slot a view is created in. */
  function SlotOf(objCount: nat, v: View): nat {
    match v
    case ObjectCbv(f, i) => ObjectCbvIndex(objCount, f, i)
    case PassCbv(f) => PassCbvIndex(objCount, f)
  }

  /** The views BuildConstantBufferViews creates. */
  predicate Built(objCount: nat, v: View) {
    match v
    case ObjectCbv(f, i) => f < NumFrameResources && i < objCount
    case PassCbv(f) => f < NumFrameResources
  }

  /** The view in an object-view slot, found by peeling off one frame resource's block at a time. */
  function ObjectViewAt(objCount: nat, k: nat, frame: nat): View
    requires 0 < objCount
    decreases k
  {
    if k < objCount then ObjectCbv(frame, k) else ObjectViewAt(objCount, k - objCount, frame + 1)
  }

  /** The view the layout puts in slot k. */
  function ViewAt(objCount: nat, k: nat): View {
    if k < PassCbvOffset(objCount) then ObjectViewAt(objCount, k, 0)
    else PassCbv(k - PassCbvOffset(objCount))
  }

  lemma {:induction false} ObjectViewAtSlot(objCount: nat, f: nat, i: nat, base: nat)
    requires 0 < objCount && i < objCount
    ensures ObjectViewAt(objCount, f * objCount + i, base) == ObjectCbv(base + f, i)
  {
    if f > 0 {
      assert f * objCount + i - objCount == (f - 1) * objCount + i;
      ObjectViewAtSlot(objCount, f - 1, i, base + 1);
    }
  }

  lemma {:induction false} ObjectViewAtInverse(objCount: nat, k: nat, base: nat)
    requires 0 < objCount
    ensures var v := ObjectViewAt(objCount, k, base);
            v.ObjectCbv? && base <= v.frame && v.element < objCount &&
            (v.frame - base) * objCount + v.element == k
    decreases k
  {
    if k >= objCount {
      ObjectViewAtInverse(objCount, k - objCount, base + 1);
      var v := ObjectViewAt(objCount, k, base);
      assert (v.frame - base) * objCount == (v.frame - (base + 1)) * objCount + objCount;
    }
  }

  /** Slots of object views: below the pass offset, hence inside the heap. */
  lemma ObjectCbvInRange(objCount: nat, frame: nat, i: nat)
    requires frame < NumFrameResources && i < objCount
    ensures ObjectCbvIndex(objCount, frame, i) < PassCbvOffset(objCount) < HeapSize(objCount)
  {
    if frame == 0 {
    } else if frame == 1 {
    } else {
      assert frame == 2;
    }
  }

  /**
    The layout is a bijection between the views built and the heap slots:
    each built view's slot is inside the heap and reads back as that view,
    and every slot of the heap holds a built view that is stored there.
   */
  lemma LayoutRoundTrip(objCount: nat, v: View, k: nat)
    ensures Built(objCount, v) ==>
              SlotOf(objCount, v) < HeapSize(objCount) && ViewAt(objCount, SlotOf(objCount, v)) == v
    ensures k < HeapSize(objCount) ==>
              Built(objCount, ViewAt(objCount, k)) && SlotOf(objCount, ViewAt(objCount, k)) == k
  {
    if Built(objCount, v) {
      match v
      case ObjectCbv(f, i) =>
        ObjectCbvInRange(objCount, f, i);
        ObjectViewAtSlot(objCount, f, i, 0);
      case PassCbv(f) =>
    }
    if k < HeapSize(objCount) && k < PassCbvOffset(objCount) {
      assert 0 < objCount;
      ObjectViewAtInverse(objCount, k, 0);
    }
  }

  /** Different views built never share a descriptor slot. */
  lemma SlotsDistinct(objCount: nat, v1: View, v2: View)
    requires Built(objCount, v1) && Built(objCount, v2) && v1 != v2
    ensures SlotOf(objCount, v1) != SlotOf(objCount, v2)
  {
    LayoutRoundTrip(objCount, v1, 0);
    LayoutRoundTrip(objCount, v2, 0);
  }

  /** The first `filled` slots hold the views the layout puts there; the rest are still empty. */
  predicate FilledUpTo(heap: seq<Descriptor>, objCount: nat, filled: nat) {
    forall k :: 0 <= k < |heap| ==>
      (heap[k] != Empty <==> k < filled) && (heap[k] != Empty ==> heap[k] == Cbv(ViewAt(objCount, k)))
  }

  lemma FillStep(heap: seq<Descriptor>, objCount: nat, filled: nat, v: View)
    requires FilledUpTo(heap, objCount, filled) && filled < |heap| && ViewAt(objCount, filled) == v
    ensures FilledUpTo(heap[filled := Cbv(v)], objCount, filled + 1)
  {
  }

  /** A heap filled to its end holds every built view in the view's own slot. */
  lemma FullHeapHoldsLayout(heap: seq<Descriptor>, objCount: nat)
    requires |heap| == HeapSize(objCount) && FilledUpTo(heap, objCount, PassCbvOffset(objCount) + NumFrameResources)
    ensures forall k :: 0 <= k < |heap| ==> heap[k] != Empty
    ensures forall f, i :: 0 <= f < NumFrameResources && 0 <= i < objCount ==>
              heap[ObjectCbvIndex(objCount, f, i)] == Cbv(ObjectCbv(f, i))
    ensures forall f :: 0 <= f < NumFrameResources ==>
              heap[PassCbvIndex(objCount, f)] == Cbv(PassCbv(f))
  {
    assert PassCbvOffset(objCount) + NumFrameResources == |heap|;
    forall f, i | 0 <= f < NumFrameResources && 0 <= i < objCount
      ensures heap[ObjectCbvIndex(objCount, f, i)] == Cbv(ObjectCbv(f, i))
    {
      LayoutRoundTrip(objCount, ObjectCbv(f, i), 0);
    }
    forall f | 0 <= f < NumFrameResources
      ensures heap[PassCbvIndex(objCount, f)] == Cbv(PassCbv(f))
    {
      LayoutRoundTrip(objCount, PassCbv(f), 0);
    }
  }

  /** The inner loop of BuildConstantBufferViews: the object views of one frame resource. */
  method BuildObjectViews(heap: seq<Descriptor>, objCount: nat, frameIndex: nat) returns (heap': seq<Descriptor>)
    requires frameIndex < NumFrameResources && |heap| == HeapSize(objCount)
    requires FilledUpTo(heap, objCount, frameIndex * objCount)
    ensures |heap'| == |heap| && FilledUpTo(heap', objCount, (frameIndex + 1) * objCount)
  {
    heap' := heap;
    for i := 0 to objCount
      invariant |heap'| == |heap|
      invariant FilledUpTo(heap', objCount, frameIndex * objCount + i)
    {
      var heapIndex := frameIndex * objCount + i;
      LayoutRoundTrip(objCount, ObjectCbv(frameIndex, i), 0);
      FillStep(heap', objCount, heapIndex, ObjectCbv(frameIndex, i));
      heap' := heap'[heapIndex := Cbv(ObjectCbv(frameIndex, i))];
    }
    assert frameIndex * objCount + objCount == (frameIndex + 1) * objCount;
  }

  /**
    BuildConstantBufferViews: for each frame resource, one object view per
    object at frameIndex * objCount + i; then one pass view per frame
    resource at mPassCbvOffset + frameIndex.
   */
  method BuildConstantBufferViews(objCount: nat) returns (heap: seq<Descriptor>)
    ensures |heap| == HeapSize(objCount)
    ensures forall k :: 0 <= k < |heap| ==> heap[k] != Empty
    ensures forall f, i :: 0 <= f < NumFrameResources && 0 <= i < objCount ==>
              heap[ObjectCbvIndex(objCount, f, i)] == Cbv(ObjectCbv(f, i))
    ensures forall f :: 0 <= f < NumFrameResources ==>
              heap[PassCbvIndex(objCount, f)] == Cbv(PassCbv(f))
  {
    heap := seq(HeapSize(objCount), _ => Empty);
    for frameIndex := 0 to NumFrameResources
      invariant |heap| == HeapSize(objCount)
      invariant FilledUpTo(heap, objCount, frameIndex * objCount)
    {
      heap := BuildObjectViews(heap, objCount, frameIndex);
    }
    assert NumFrameResources * objCount == PassCbvOffset(objCount);
    for frameIndex := 0 to NumFrameResources
      invariant |heap| == HeapSize(objCount)
      invariant FilledUpTo(heap, objCount, PassCbvOffset(objCount) + frameIndex)
    {
      var heapIndex := PassCbvOffset(objCount) + frameIndex;
      FillStep(heap, objCount, heapIndex, PassCbv(frameIndex));
      heap := heap[heapIndex := Cbv(PassCbv(frameIndex))];
    }
    FullHeapHoldsLayout(heap, objCount);
  }
}
