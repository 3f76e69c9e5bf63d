/**
  The render items of ShapesApp::BuildRenderItems, reduced to what the frame
  bookkeeping uses: the submesh an item draws, its element in the per-frame
  object constant buffer (ObjCBIndex), and its dirty count. World matrices
  are floating-point transforms and are not part of this model.
 */
module Scene {
  import opened Ring
  import opened ShapeGeometry

  datatype RenderItem = RenderItem(piece: Piece, objCBIndex: nat, numFramesDirty: int)

  /** A freshly made item: dirty for every frame resource. */
  function NewItem(piece: Piece, objCBIndex: nat): RenderItem {
    RenderItem(piece, objCBIndex, NumFrameResources)
  }

  predicate DistinctIndices(items: seq<RenderItem>) {
    forall i, j :: 0 <= i < j < |items| ==> items[i].objCBIndex != items[j].objCBIndex
  }

  /** Every item owns an element of an object buffer sized for count items. */
  predicate IndicesBelow(items: seq<RenderItem>, count: nat) {
    forall i :: 0 <= i < |items| ==> items[i].objCBIndex < count
  }

  predicate AllDirty(items: seq<RenderItem>) {
    forall i :: 0 <= i < |items| ==> items[i].numFramesDirty == NumFrameResources
  }

  /** Append an item whose index no earlier item uses. */
  function Append(items: seq<RenderItem>, piece: Piece, objCBIndex: nat): (r: seq<RenderItem>)
    requires DistinctIndices(items)
    requires forall i :: 0 <= i < |items| ==> items[i].objCBIndex != objCBIndex
    ensures DistinctIndices(r) && |r| == |items| + 1
  {
    items + [NewItem(piece, objCBIndex)]
  }

  /** The number of render items the castle scene builds. */
  const SceneItemCount: nat := 23

  /**
    BuildRenderItems: four walls take indices from a counter starting at 4;
    four towers take their loop index 0..3, each followed by a cone from the
    counter; door, two wedges, four tori, the pyramid and the two diamonds
    take further counter values; the grid takes the item count so far.
    mOpaqueRitems then lists every item.
   */
  method BuildRenderItems() returns (all: seq<RenderItem>, opaqueItems: seq<RenderItem>)
    ensures |all| == SceneItemCount
    ensures DistinctIndices(all)
    ensures IndicesBelow(all, |all|)
    ensures AllDirty(all)
    ensures all[|all| - 1] == NewItem(Grid, |all| - 1)
    ensures opaqueItems == all
  {
    all := [];
    var wallIndex := 4;
    for i := 0 to 4
      invariant |all| == i && wallIndex == 4 + i
      invariant DistinctIndices(all) && AllDirty(all)
      invariant forall k :: 0 <= k < |all| ==> 4 <= all[k].objCBIndex < wallIndex
    {
      all := Append(all, Box, wallIndex);
      wallIndex := wallIndex + 1;
    }
    for i := 0 to 4
      invariant |all| == 4 + 2 * i && wallIndex == 8 + i
      invariant DistinctIndices(all) && AllDirty(all)
      invariant forall k :: 0 <= k < |all| ==>
                  all[k].objCBIndex < i || 4 <= all[k].objCBIndex < wallIndex
    {
      all := Append(all, Cylinder, i);
      all := Append(all, Cone, wallIndex);
      wallIndex := wallIndex + 1;
    }
    assert |all| == wallIndex == 12;
    all := Append(all, Door, wallIndex);
    wallIndex := wallIndex + 1;
    all := Append(all, Wedge, wallIndex);
    wallIndex := wallIndex + 1;
    all := Append(all, Wedge, wallIndex);
    wallIndex := wallIndex + 1;
    for i := 0 to 2
      invariant |all| == wallIndex == 15 + i
      invariant DistinctIndices(all) && AllDirty(all)
      invariant IndicesBelow(all, wallIndex)
    {
      all := Append(all, Torus, wallIndex);
      wallIndex := wallIndex + 1;
    }
    for i := 0 to 2
      invariant |all| == wallIndex == 17 + i
      invariant DistinctIndices(all) && AllDirty(all)
      invariant IndicesBelow(all, wallIndex)
    {
      all := Append(all, Torus, wallIndex);
      wallIndex := wallIndex + 1;
    }
    all := Append(all, Pyramid, wallIndex);
    wallIndex := wallIndex + 1;
    all := Append(all, Diamond, wallIndex);
    wallIndex := wallIndex + 1;
    all := Append(all, Diamond1, wallIndex);
    wallIndex := wallIndex + 1;
    all := Append(all, Grid, |all|);
    opaqueItems := [];
    for i := 0 to |all|
      invariant opaqueItems == all[..i]
    {
      opaqueItems := opaqueItems + [all[i]];
    }
  }
}
