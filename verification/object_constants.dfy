/**
  ShapesApp::UpdateObjectCBs: every item whose dirty count is positive has
  its constants copied into its element of the current frame resource's
  object constant buffer, and its count goes down by one. Starting from
  gNumFrameResources, the countdown makes the copy reach every frame
  resource exactly once. The copied data (a transposed world matrix) is not
  modelled; a copy is recorded by the frame resource and element it writes.
 */
module ObjectConstants {
  import opened Ring
  import opened Scene

  /** CopyData of one element of one frame resource's object constant buffer. */
  datatype CbWrite = CbWrite(frame: nat, element: nat)

  datatype CbUpdate = CbUpdate(items: seq<RenderItem>, writes: seq<CbWrite>)

  /** One item's count after an update: decremented only while positive. */
  function CountDown(dirty: int): int {
    if dirty > 0 then dirty - 1 else dirty
  }

  /** UpdateObjectCBs over the items, in order, for frame resource `frame`. */
  function UpdateObjectCBs(items: seq<RenderItem>, frame: nat): (r: CbUpdate)
    ensures |r.items| == |items|
    ensures forall i :: 0 <= i < |items| ==>
              r.items[i] == items[i].(numFramesDirty := CountDown(items[i].numFramesDirty))
    ensures forall w :: w in r.writes ==> w.frame == frame
    ensures forall i :: 0 <= i < |items| && items[i].numFramesDirty > 0 ==>
              CbWrite(frame, items[i].objCBIndex) in r.writes
    ensures forall w :: w in r.writes ==>
              exists i :: 0 <= i < |items| && items[i].numFramesDirty > 0 && w.element == items[i].objCBIndex
    ensures |r.writes| <= |items|
  {
    if items == [] then CbUpdate([], [])
    else
      var rest := UpdateObjectCBs(items[1..], frame);
      var e := items[0];
      var copy := if e.numFramesDirty > 0 then [CbWrite(frame, e.objCBIndex)] else [];
      CbUpdate([e.(numFramesDirty := CountDown(e.numFramesDirty))] + rest.items, copy + rest.writes)
  }

  /** With distinct indices, an item's element is written exactly when its count was positive. */
  lemma WrittenIffDirty(items: seq<RenderItem>, frame: nat, i: nat)
    requires DistinctIndices(items) && i < |items|
    ensures CbWrite(frame, items[i].objCBIndex) in UpdateObjectCBs(items, frame).writes <==>
            items[i].numFramesDirty > 0
  {
    var r := UpdateObjectCBs(items, frame);
    if CbWrite(frame, items[i].objCBIndex) in r.writes {
      var k :| 0 <= k < |items| && items[k].numFramesDirty > 0 && items[k].objCBIndex == items[i].objCBIndex;
      assert k == i;
    }
  }

  /**
    The item's copies that are known to be current: for an item with d frames
    still dirty, its element in each of the frame resources used by the last
    NumFrameResources - d updates (the current one first) has been written.
   */
  predicate CopiesCurrent(item: RenderItem, c: nat, written: set<CbWrite>)
    requires c < NumFrameResources
  {
    && 0 <= item.numFramesDirty <= NumFrameResources
    && forall j :: 0 <= j < NumFrameResources - item.numFramesDirty ==>
         CbWrite(Back(c, j, NumFrameResources), item.objCBIndex) in written
  }

  /** A freshly built item has no current copy and needs none. */
  lemma NewItemCopiesCurrent(item: RenderItem, c: nat)
    requires item.numFramesDirty == NumFrameResources && c < NumFrameResources
    ensures CopiesCurrent(item, c, {})
  {
  }

  /**
    Advancing the ring and running UpdateObjectCBs for the new frame resource
    keeps every item's copies current: a dirty item gets its copy in the new
    frame resource now, and a clean one already had it from the update that
    last used that slot.
   */
  lemma UpdateKeepsCopiesCurrent(items: seq<RenderItem>, c: nat, written: set<CbWrite>)
    requires c < NumFrameResources
    requires forall i :: 0 <= i < |items| ==> CopiesCurrent(items[i], c, written)
    ensures var c' := Next(c, NumFrameResources);
            var r := UpdateObjectCBs(items, c');
            forall i :: 0 <= i < |items| ==>
              CopiesCurrent(r.items[i], c', written + set w | w in r.writes)
  {
    var n := NumFrameResources;
    var c' := Next(c, n);
    var r := UpdateObjectCBs(items, c');
    var written' := written + set w | w in r.writes;
    forall i | 0 <= i < |items|
      ensures CopiesCurrent(r.items[i], c', written')
    {
      var d := items[i].numFramesDirty;
      forall j | 0 <= j < n - r.items[i].numFramesDirty
        ensures CbWrite(Back(c', j, n), items[i].objCBIndex) in written'
      {
        if j == 0 {
          BackEnds(c', n);
          if d == 0 {
            BackOfNext(c, n - 1, n);
            BackEnds(c', n);
            assert Back(c, n - 1, n) == Back(c', n, n) == c';
          }
        } else {
          BackOfNext(c, j - 1, n);
        }
      }
    }
  }

  /** Once an item is clean, its element holds a current copy in every frame resource. */
  lemma CleanItemCopiedEverywhere(item: RenderItem, c: nat, written: set<CbWrite>, f: nat)
    requires c < NumFrameResources && f < NumFrameResources
    requires CopiesCurrent(item, c, written) && item.numFramesDirty == 0
    ensures CbWrite(f, item.objCBIndex) in written
  {
    var j := BackCovers(c, f, NumFrameResources);
  }

  /** After an update the item's element in the current frame resource holds a current copy. */
  lemma UpdatedItemCopyInCurrentFrame(item: RenderItem, c: nat, written: set<CbWrite>)
    requires c < NumFrameResources
    requires CopiesCurrent(item, c, written) && item.numFramesDirty < NumFrameResources
    ensures CbWrite(c, item.objCBIndex) in written
  {
    BackEnds(c, NumFrameResources);
  }

  /**
    Three updates of a new item, over three successive ring slots, copy it
    into three distinct frame resources and leave it clean; later updates
    copy nothing more.
   */
  lemma CountdownSpreadsOverRing(item: RenderItem, c: nat)
    requires item.numFramesDirty == NumFrameResources && c < NumFrameResources
    ensures var n := NumFrameResources;
            var f1 := Next(c, n);
            var f2 := Next(f1, n);
            var f3 := Next(f2, n);
            var u1 := UpdateObjectCBs([item], f1);
            var u2 := UpdateObjectCBs(u1.items, f2);
            var u3 := UpdateObjectCBs(u2.items, f3);
            && u1.writes == [CbWrite(f1, item.objCBIndex)]
            && u2.writes == [CbWrite(f2, item.objCBIndex)]
            && u3.writes == [CbWrite(f3, item.objCBIndex)]
            && {f1, f2, f3} == {0, 1, 2}
            && u3.items == [item.(numFramesDirty := 0)]
            && UpdateObjectCBs(u3.items, Next(f3, n)).writes == []
  {
  }
}
