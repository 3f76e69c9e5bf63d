/**
  The CPU side of the frame-resource handshake in ShapesApp::Update and
  ShapesApp::Draw: advance the ring, wait until the GPU has finished with the
  chosen frame resource, and stamp the slot with a fresh fence value once its
  commands are submitted. The GPU is not modelled; its completed fence value
  is an input (a sequence of successive readings of GetCompletedValue).
 */
module FrameSync {
  import opened Ring

  /** The fence bookkeeping fields of ShapesApp and its frame resources. */
  datatype Sync = Sync(
    currFrame: nat,      // mCurrFrameResourceIndex
    fences: seq<nat>,    // FrameResource::Fence, one per frame resource
    currentFence: nat,   // mCurrentFence
    backBuffer: nat)     // mCurrBackBuffer

  predicate Valid(s: Sync, bufferCount: nat) {
    && |s.fences| == NumFrameResources
    && s.currFrame < NumFrameResources
    && s.backBuffer < bufferCount
    && forall j :: 0 <= j < |s.fences| ==> s.fences[j] <= s.currentFence
  }

  /**
    The state after Initialize: no frame resource has been submitted yet (all
    fences 0), ring and back buffer at slot 0, and mCurrentFence at whatever
    value the initial queue flushes left it.
   */
  function Initial(flushed: nat): Sync {
    Sync(0, [0, 0, 0], flushed, 0)
  }

  /** A frame resource may be reused once it was never submitted or the GPU has passed its fence. */
  predicate SlotReady(fence: nat, completed: nat) {
    fence == 0 || completed >= fence
  }

  /** The first step of Update: move to the next frame resource. */
  function BeginFrame(s: Sync): Sync {
    s.(currFrame := Next(s.currFrame, NumFrameResources))
  }

  /** The fence of the frame resource that is current in s. */
  function CurrentSlotFence(s: Sync): nat
    requires |s.fences| == NumFrameResources && s.currFrame < NumFrameResources
  {
    s.fences[s.currFrame]
  }

  predicate NonDecreasing(gpu: seq<nat>) {
    forall t, u :: 0 <= t <= u < |gpu| ==> gpu[t] <= gpu[u]
  }

  /** How the wait in Update ended. */
  datatype WaitOutcome =
    | Ready(completed: nat, waited: bool)  // the CPU may go on; `completed` is the reading it went on with
    | Blocked                              // the GPU never reached the fence: the CPU is still waiting

  /**
    The guard and wait of Update. `gpu` holds the successive values the
    GPU's completed fence takes, the first being the one the guard reads; the
    event fires at the first value that reaches the fence.
   */
  method AwaitSlot(fence: nat, gpu: seq<nat>) returns (w: WaitOutcome)
    requires |gpu| > 0
    requires NonDecreasing(gpu)
    ensures w.Ready? ==> SlotReady(fence, w.completed) && w.completed in gpu
    ensures w.Ready? ==> (w.waited <==> !SlotReady(fence, gpu[0]))
    ensures w.Ready? ==> forall t :: 0 <= t < |gpu| && gpu[t] < w.completed ==> gpu[t] < fence
    ensures w.Ready? && !w.waited ==> w.completed == gpu[0]
    ensures w.Blocked? <==> !SlotReady(fence, gpu[|gpu| - 1])
  {
    if SlotReady(fence, gpu[0]) {
      return Ready(gpu[0], false);
    }
    var t := 1;
    while t < |gpu| && gpu[t] < fence
      invariant 1 <= t <= |gpu|
      invariant forall u :: 0 <= u < t ==> gpu[u] < fence
    {
      t := t + 1;
    }
    if t == |gpu| {
      w := Blocked;
    } else {
      w := Ready(gpu[t], true);
    }
  }

  /**
    The bookkeeping at the end of Draw: the back buffer moves on, and the
    frame resource just submitted is stamped with `++mCurrentFence`.
   */
  function EndFrame(s: Sync, bufferCount: nat): (r: Sync)
    requires Valid(s, bufferCount)
    ensures Valid(r, bufferCount)
    ensures r.currFrame == s.currFrame
    ensures r.currentFence == s.currentFence + 1
    ensures r.fences[s.currFrame] == r.currentFence
    ensures forall j :: 0 <= j < NumFrameResources && j != s.currFrame ==>
              r.fences[j] == s.fences[j] && r.fences[j] < r.fences[s.currFrame]
    ensures r.backBuffer == Next(s.backBuffer, bufferCount)
  {
    var stamp := s.currentFence + 1;
    s.(backBuffer := Next(s.backBuffer, bufferCount),
       currentFence := stamp,
       fences := s.fences[s.currFrame := stamp])
  }

  /**
    The fence history the ring keeps: the slot used j frames ago holds either
    0 (never submitted) or the fence issued j frames ago.
   */
  predicate History(s: Sync)
    requires |s.fences| == NumFrameResources && s.currFrame < NumFrameResources
  {
    forall j :: 0 <= j < NumFrameResources ==> HistoryAt(s, j)
  }

  predicate HistoryAt(s: Sync, j: nat)
    requires |s.fences| == NumFrameResources && s.currFrame < NumFrameResources
    requires j < NumFrameResources
  {
    AdvanceInRange(s.currFrame, NumFrameResources, NumFrameResources - j);
    var f := s.fences[Back(s.currFrame, j, NumFrameResources)];
    f == 0 || f + j == s.currentFence
  }

  /** The initial state is valid and trivially carries the fence history. */
  lemma InitialState(flushed: nat, bufferCount: nat)
    requires 0 < bufferCount
    ensures Valid(Initial(flushed), bufferCount)
    ensures History(Initial(flushed))
  {
    var s := Initial(flushed);
    forall j | 0 <= j < NumFrameResources
      ensures HistoryAt(s, j)
    {
      AdvanceInRange(0, NumFrameResources, NumFrameResources - j);
    }
  }

  /** One Update/Draw cycle keeps the state valid and keeps the fence history. */
  lemma FrameKeepsHistory(s: Sync, bufferCount: nat)
    requires Valid(s, bufferCount) && History(s)
    ensures Valid(EndFrame(BeginFrame(s), bufferCount), bufferCount)
    ensures History(EndFrame(BeginFrame(s), bufferCount))
  {
    var n := NumFrameResources;
    var b := BeginFrame(s);
    var r := EndFrame(b, bufferCount);
    var c, c' := s.currFrame, b.currFrame;
    forall j | 0 <= j < n
      ensures HistoryAt(r, j)
    {
      if j == 0 {
        BackEnds(c', n);
      } else {
        BackOfNext(c, j - 1, n);
        assert Back(c', j, n) == Back(c, j - 1, n);
        LeavesSlot(c', n, n - j);
        assert HistoryAt(s, j - 1);
        AdvanceInRange(c, n, n - (j - 1));
      }
    }
  }

  /**
    The slot Update moves to is the one used two frames ago, so once the
    guard lets Update go on, at most NumFrameResources - 1 submitted frames
    can still be unfinished on the GPU.
   */
  lemma InFlightBound(s: Sync, bufferCount: nat, completed: nat)
    requires Valid(s, bufferCount) && History(s)
    requires SlotReady(CurrentSlotFence(BeginFrame(s)), completed)
    ensures CurrentSlotFence(BeginFrame(s)) == 0 ||
            s.currentFence <= completed + (NumFrameResources - 1)
  {
    var n := NumFrameResources;
    assert Next(s.currFrame, n) == Advance(s.currFrame, n, 1);
    assert Back(s.currFrame, n - 1, n) == BeginFrame(s).currFrame;
    assert HistoryAt(s, n - 1);
  }
}
