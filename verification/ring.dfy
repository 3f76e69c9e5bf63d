/**
  Circular indices: the frame-resource ring (mCurrFrameResourceIndex, cycled
  modulo gNumFrameResources in ShapesApp::Update) and the swap-chain ring
  (mCurrBackBuffer, cycled modulo SwapChainBufferCount in ShapesApp::Draw).
 */
module Ring {

  /** gNumFrameResources: how many frame resources the application cycles through. */
  const NumFrameResources: nat := 3

  /** One step of a circular index over n slots: `(i + 1) % n`. */
  function Next(i: nat, n: nat): (r: nat)
    requires 0 < n
    ensures r < n
    ensures i < n ==> (i + 1 < n ==> r == i + 1) && (i + 1 == n ==> r == 0)
  {
    (i + 1) % n
  }

  /** The index reached from i after k steps of Next. */
  function Advance(i: nat, n: nat, k: nat): nat
    requires 0 < n
  {
    if k == 0 then i else Next(Advance(i, n, k - 1), n)
  }

  /** The slot that was current j steps before c. */
  function Back(c: nat, j: nat, n: nat): nat
    requires 0 < n && j <= n
  {
    Advance(c, n, n - j)
  }

  /** The ring index never leaves [0, n) once it is in it. */
  lemma {:induction false} AdvanceInRange(i: nat, n: nat, k: nat)
    requires i < n
    ensures Advance(i, n, k) < n
  {
    if k > 0 {
      AdvanceInRange(i, n, k - 1);
    }
  }

  /** Steps compose: a steps then b steps is a + b steps. */
  lemma {:induction false} AdvanceAdd(i: nat, n: nat, a: nat, b: nat)
    requires 0 < n
    ensures Advance(i, n, a + b) == Advance(Advance(i, n, a), n, b)
  {
    if b > 0 {
      AdvanceAdd(i, n, a, b - 1);
    }
  }

  /** Before wrapping, k steps from i reach i + k. */
  lemma {:induction false} AdvanceBelowWrap(i: nat, n: nat, k: nat)
    requires i + k < n
    ensures Advance(i, n, k) == i + k
  {
    if k > 0 {
      AdvanceBelowWrap(i, n, k - 1);
    }
  }

  /** From slot i, n - i steps wrap exactly to slot 0. */
  lemma AdvanceWraps(i: nat, n: nat)
    requires i < n
    ensures Advance(i, n, n - i) == 0
  {
    AdvanceBelowWrap(i, n, n - i - 1);
  }

  /** Every n steps the ring revisits the slot it started from. */
  lemma AdvancePeriodic(i: nat, n: nat, k: nat)
    requires i < n
    ensures Advance(i, n, k + n) == Advance(i, n, k)
  {
    AdvanceAdd(i, n, n - i, i);
    AdvanceWraps(i, n);
    AdvanceBelowWrap(0, n, i);
    assert Advance(i, n, n) == i;
    AdvanceAdd(i, n, n, k);
  }

  /** Fewer than n steps (but at least one) never return to the starting slot. */
  lemma LeavesSlot(x: nat, n: nat, d: nat)
    requires x < n && 0 < d < n
    ensures Advance(x, n, d) != x
  {
    if x + d < n {
      AdvanceBelowWrap(x, n, d);
    } else {
      AdvanceAdd(x, n, n - x, d - (n - x));
      AdvanceWraps(x, n);
      AdvanceBelowWrap(0, n, d - (n - x));
    }
  }

  /** Within one period the ring never visits a slot twice. */
  lemma AdvanceDistinct(i: nat, n: nat, j1: nat, j2: nat)
    requires i < n && j1 < j2 < j1 + n
    ensures Advance(i, n, j1) != Advance(i, n, j2)
  {
    AdvanceAdd(i, n, j1, j2 - j1);
    AdvanceInRange(i, n, j1);
    LeavesSlot(Advance(i, n, j1), n, j2 - j1);
  }

  /** Looking one step further back from the next slot gives the slot j steps back from here. */
  lemma BackOfNext(c: nat, j: nat, n: nat)
    requires c < n && j < n
    ensures Back(Next(c, n), j + 1, n) == Back(c, j, n)
  {
    assert Next(c, n) == Advance(c, n, 1);
    AdvanceAdd(c, n, 1, n - (j + 1));
  }

  /** The current slot is zero steps back, and n steps back is the current slot again. */
  lemma BackEnds(c: nat, n: nat)
    requires c < n
    ensures Back(c, 0, n) == c && Back(c, n, n) == c
  {
    AdvancePeriodic(c, n, 0);
  }

  /** Every slot of the ring was current at some point in the last n steps. */
  lemma BackCovers(c: nat, f: nat, n: nat) returns (j: nat)
    requires c < n && f < n
    ensures j < n && Back(c, j, n) == f
  {
    if f <= c {
      j := c - f;
      AdvanceAdd(c, n, n - c, f);
      AdvanceWraps(c, n);
      AdvanceBelowWrap(0, n, f);
    } else {
      j := c + n - f;
      AdvanceBelowWrap(c, n, f - c);
    }
  }
}
