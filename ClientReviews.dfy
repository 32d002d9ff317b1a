/** The client success-stories carousel: one review at a time, wrapping at both ends, with
    an animation lock that ignores the arrows until the 600 ms transition timer fires. The
    index is always non-negative, so JavaScript's `%` agrees with Dafny's here. */
module ClientReviews {

  /** `(prev + 1) % reviews.length`. */
  function NextIndex(i: nat, n: nat): (j: nat)
    requires n > 0
    ensures j < n
    ensures i < n ==> j == if i == n - 1 then 0 else i + 1
  {
    var j := (i + 1) % n;
    assert i < n ==> j == if i == n - 1 then 0 else i + 1 by {
      if i < n { WrapOnce(i + 1, n); }
    }
    j
  }

  /** `(prev - 1 + reviews.length) % reviews.length`. */
  function PreviousIndex(i: nat, n: nat): (j: nat)
    requires n > 0
    ensures j < n
    ensures i < n ==> j == if i == 0 then n - 1 else i - 1
  {
    var j := (i - 1 + n) % n;
    assert i < n ==> j == if i == 0 then n - 1 else i - 1 by {
      if i < n { WrapOnce(i - 1 + n, n); }
    }
    j
  }

  /** A value in `[0, 2n)` reduces modulo `n` by at most one subtraction. */
  lemma WrapOnce(x: int, n: nat)
    requires n > 0 && 0 <= x < 2 * n
    ensures x % n == if x < n then x else x - n
  {
    if x >= n {
      assert x == 1 * n + (x - n);
    }
  }

  /** Next and previous undo each other. */
  lemma NextPreviousRoundTrip(i: nat, n: nat)
    requires n > 0 && i < n
    ensures PreviousIndex(NextIndex(i, n), n) == i
    ensures NextIndex(PreviousIndex(i, n), n) == i
  {
  }

  /** The index after `k` presses of next. */
  function Advance(i: nat, n: nat, k: nat): nat
    requires n > 0
  {
    if k == 0 then i else NextIndex(Advance(i, n, k - 1), n)
  }

  /** Up to `n` presses of next move the index forward by `k`, wrapping past the last
      review once. */
  lemma {:induction false} AdvanceWraps(i: nat, n: nat, k: nat)
    requires n > 0 && i < n && k <= n
    ensures Advance(i, n, k) == if i + k < n then i + k else i + k - n
  {
    if k > 0 {
      AdvanceWraps(i, n, k - 1);
    }
  }

  /** `n` presses of next bring back the review shown at the start. */
  lemma FullCycle(i: nat, n: nat)
    requires n > 0 && i < n
    ensures Advance(i, n, n) == i
  {
    AdvanceWraps(i, n, n);
  }

  /** The component's state over a fixed, non-empty list of `count` reviews. */
  class Carousel {
    const count: nat
    var index: nat
    var isAnimating: bool

    /** The list must not be empty: the modulo and `reviews[currentReviewIndex]` rely on it. */
    ghost predicate Valid()
      reads this
    {
      count > 0 && index < count
    }

    constructor (n: nat)
      requires n > 0
      ensures Valid() && count == n && index == 0 && !isAnimating
    {
      count := n;
      index := 0;
      isAnimating := false;
    }

    /** Both arrows are disabled while a transition runs. */
    predicate ButtonsDisabled()
      reads this
    {
      isAnimating
    }

    /** The review on screen. */
    function Shown<T(==)>(reviews: seq<T>): (r: T)
      reads this
      requires Valid() && |reviews| == count
      ensures r in reviews
    {
      reviews[index]
    }

    /** `handleNext`: ignored while animating; otherwise locks and moves forward, wrapping. */
    method HandleNext()
      requires Valid()
      modifies this`index, this`isAnimating
      ensures Valid() && isAnimating
      ensures old(isAnimating) ==> index == old(index)
      ensures !old(isAnimating) ==> index == NextIndex(old(index), count)
    {
      if isAnimating {
        return;
      }
      isAnimating := true;
      index := NextIndex(index, count);
    }

    /** `handlePrevious`: ignored while animating; otherwise locks and moves back, wrapping. */
    method HandlePrevious()
      requires Valid()
      modifies this`index, this`isAnimating
      ensures Valid() && isAnimating
      ensures old(isAnimating) ==> index == old(index)
      ensures !old(isAnimating) ==> index == PreviousIndex(old(index), count)
    {
      if isAnimating {
        return;
      }
      isAnimating := true;
      index := PreviousIndex(index, count);
    }

    /** The 600 ms timer: the lock is released. */
    method AnimationTimerFires()
      requires Valid()
      modifies this`isAnimating
      ensures Valid() && !isAnimating
    {
      isAnimating := false;
    }
  }

  /** Next, the timer, then previous, shows the review shown before. */
  method NextThenPrevious(c: Carousel)
    requires c.Valid() && !c.isAnimating
    modifies c
    ensures c.Valid() && c.index == old(c.index) && c.isAnimating
  {
    c.HandleNext();
    c.AnimationTimerFires();
    c.HandlePrevious();
    NextPreviousRoundTrip(old(c.index), c.count);
  }

  /** Pressing next `count` times, waiting for the timer each time, comes back to the start. */
  method CycleThrough(c: Carousel)
    requires c.Valid() && !c.isAnimating
    modifies c
    ensures c.Valid() && c.index == old(c.index) && !c.isAnimating
  {
    var k := 0;
    while k < c.count
      invariant k <= c.count && c.Valid() && !c.isAnimating
      invariant c.index == Advance(old(c.index), c.count, k)
    {
      c.HandleNext();
      c.AnimationTimerFires();
      k := k + 1;
    }
    FullCycle(old(c.index), c.count);
  }
}
