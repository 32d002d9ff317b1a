/** The video-review slider: page-wise previous/next over `n` cards (one card per view on a
    narrow screen, four otherwise), the bullet row, and the press/drag/release gesture that
    tells a drag from a click. */
module ReviewSlider {

  /** Cards shown at once on a wide screen. */
  const DesktopCardsPerView: nat := 4

  /** Pixels a pressed pointer must travel before the press becomes a drag. */
  const ClickThreshold: nat := 8

  /** Viewports narrower than this count as mobile. */
  const MobileBreakpoint: int := 1000

  predicate IsMobile(innerWidth: int)
  {
    innerWidth < MobileBreakpoint
  }

  function CardsPerView(isMobile: bool): (cpv: nat)
    ensures cpv >= 1
  {
    if isMobile then 1 else DesktopCardsPerView
  }

  /** The last index a page can start at: `Math.max(0, n - cardsPerView)`. */
  function MaxIndex(n: nat, cpv: nat): nat
  {
    if n > cpv then n - cpv else 0
  }

  predicate InRange(i: nat, n: nat, cpv: nat)
  {
    i <= MaxIndex(n, cpv)
  }

  /** `handlePrev`: back one page, not below 0; nothing happens at the start. */
  function Prev(i: nat, cpv: nat): (j: nat)
    ensures j <= i
    ensures i > 0 ==> j == if i > cpv then i - cpv else 0
  {
    if i > 0 then (if i > cpv then i - cpv else 0) else i
  }

  /** `handleNext`: forward one page, not past the last page start; nothing happens there. */
  function Next(i: nat, n: nat, cpv: nat): (j: nat)
    ensures j >= i
    ensures i < MaxIndex(n, cpv) ==> j == if i + cpv < MaxIndex(n, cpv) then i + cpv else MaxIndex(n, cpv)
  {
    var maxIndex := MaxIndex(n, cpv);
    if i < maxIndex then (if i + cpv < maxIndex then i + cpv else maxIndex) else i
  }

  /** `canGoPrev`. */
  predicate CanGoPrev(i: nat)
  {
    i > 0
  }

  /** `canGoNext`: `currentIndex < reviews.length - cardsPerView`. */
  predicate CanGoNext(i: nat, n: nat, cpv: nat)
  {
    i < n - cpv
  }

  /** The arrows are enabled exactly when pressing them would move the slider. */
  lemma ArrowsEnabledIffMove(i: nat, n: nat, cpv: nat)
    requires cpv >= 1
    ensures CanGoPrev(i) <==> Prev(i, cpv) != i
    ensures CanGoNext(i, n, cpv) <==> Next(i, n, cpv) != i
  {
  }

  /** With the view mode fixed, the arrows keep the index between 0 and the last page start. */
  lemma ArrowsKeepRange(i: nat, n: nat, cpv: nat)
    requires InRange(i, n, cpv)
    ensures InRange(Prev(i, cpv), n, cpv) && InRange(Next(i, n, cpv), n, cpv)
  {
  }

  /** Previous then next, from a page start that is a whole number of pages from the start
      and not at the last page, returns to it. */
  lemma PrevUndoesNext(i: nat, n: nat, cpv: nat)
    requires cpv >= 1 && i + cpv < MaxIndex(n, cpv)
    ensures Prev(Next(i, n, cpv), cpv) == i
  {
  }

  /** `shouldShowNavigation`: the arrows appear only when the cards do not all fit. */
  predicate ShouldShowNavigation(n: nat, cpv: nat)
  {
    n > cpv
  }

  /** The bullet row needs the arrows and more than two cards. */
  predicate BulletsShown(n: nat, cpv: nat)
  {
    ShouldShowNavigation(n, cpv) && n > 2
  }

  /** One bullet per card on mobile, one per page of four (rounded up) otherwise. */
  function BulletCount(n: nat, isMobile: bool): (c: nat)
    ensures isMobile ==> c == n
    ensures !isMobile ==> 4 * (c - 1) < n <= 4 * c || (n == 0 && c == 0)
  {
    if isMobile then n else (n + DesktopCardsPerView - 1) / DesktopCardsPerView
  }

  /** The highlighted bullet as written: the index itself, or its page. */
  function ActiveBullet(i: nat, isMobile: bool): nat
  {
    if isMobile then i else i / DesktopCardsPerView
  }

  /** Where bullet `k` jumps: card `k`, or the start of page `k` clamped to the last page
      start (unclamped when there are no cards). */
  function BulletTarget(k: nat, n: nat, isMobile: bool): nat
  {
    if isMobile then k
    else if n > 0 then
      (if k * DesktopCardsPerView < MaxIndex(n, DesktopCardsPerView) then k * DesktopCardsPerView
       else MaxIndex(n, DesktopCardsPerView))
    else k * DesktopCardsPerView
  }

  /** Bullets keep the index in range, and the highlighted bullet is always one that
      exists. */
  lemma BulletsKeepRange(k: nat, i: nat, n: nat, isMobile: bool)
    requires n > 0 && k < BulletCount(n, isMobile) && InRange(i, n, CardsPerView(isMobile))
    ensures InRange(BulletTarget(k, n, isMobile), n, CardsPerView(isMobile))
    ensures ActiveBullet(i, isMobile) < BulletCount(n, isMobile)
  {
  }

  /** Ten cards on a wide screen: the third bullet jumps to card 6, the last page start, and
      the second bullet is the one highlighted. */
  lemma LastBulletNotHighlighted()
    ensures BulletCount(10, false) == 3
    ensures BulletTarget(2, 10, false) == 6
    ensures ActiveBullet(BulletTarget(2, 10, false), false) == 1
  {
  }

  /** The highlighted bullet the row evidently intends: the last one when the slider is at
      the last page start. */
  function IntendedActiveBullet(i: nat, n: nat, isMobile: bool): nat
  {
    if isMobile then i
    else if n > 0 && i == MaxIndex(n, DesktopCardsPerView) then BulletCount(n, false) - 1
    else i / DesktopCardsPerView
  }

  /** With the intended rule, the bullet clicked is the bullet highlighted, and the
      highlighted bullet always exists. */
  lemma IntendedBulletHighlightsClicked(k: nat, i: nat, n: nat, isMobile: bool)
    requires n > 0 && k < BulletCount(n, isMobile)
    ensures IntendedActiveBullet(BulletTarget(k, n, isMobile), n, isMobile) == k
    ensures InRange(i, n, CardsPerView(isMobile)) ==> IntendedActiveBullet(i, n, isMobile) < BulletCount(n, isMobile)
  {
  }

  // ---------------------------------------------------------------------------
  // Drag gesture
  // ---------------------------------------------------------------------------

  /** Whether a pointer displaced by `(dx, dy)` has travelled at least the threshold:
      `sqrt(dx² + dy²) >= 8`, stated on squares. */
  predicate ExceedsThreshold(dx: int, dy: int)
  {
    dx * dx + dy * dy >= ClickThreshold * ClickThreshold
  }

  /** The threshold is a disc: a move of 8 pixels along either axis exceeds it, and anything
      that exceeds it has moved at least 6 pixels along some axis. */
  lemma ThresholdBounds(dx: int, dy: int)
    ensures (dx >= 8 || dx <= -8 || dy >= 8 || dy <= -8) ==> ExceedsThreshold(dx, dy)
    ensures ExceedsThreshold(dx, dy) ==> dx >= 6 || dx <= -6 || dy >= 6 || dy <= -6
  {
    if dx >= 8 || dx <= -8 {
      assert dx * dx >= 64;
    } else if dy >= 8 || dy <= -8 {
      assert dy * dy >= 64;
    }
    if -6 < dx < 6 && -6 < dy < 6 {
      assert dx * dx <= 25 && dy * dy <= 25;
    }
  }

  /** The slider's gesture refs and whether the document-level move/up listeners are
      attached. */
  class DragGesture {
    var isDragging: bool
    var hasExceededThreshold: bool
    var initialX: int
    var initialY: int
    var listening: bool

    constructor ()
      ensures !isDragging && !hasExceededThreshold && !listening
      ensures initialX == 0 && initialY == 0
    {
      isDragging := false;
      hasExceededThreshold := false;
      initialX, initialY := 0, 0;
      listening := false;
    }

    /** A mouse press: any drag stops, the press point is recorded, the threshold is armed
        and the document listeners are attached. */
    method MouseDown(x: int, y: int)
      modifies this
      ensures !isDragging && !hasExceededThreshold && listening
      ensures initialX == x && initialY == y
    {
      if isDragging {
        isDragging := false;
      }
      initialX, initialY := x, y;
      hasExceededThreshold := false;
      listening := true;
    }

    /** A mouse move on the document. Below the threshold nothing changes; the first move
        beyond it starts the drag; later moves only scroll. */
    method MouseMove(x: int, y: int)
      modifies this`isDragging, this`hasExceededThreshold
      ensures !listening ==> isDragging == old(isDragging) && hasExceededThreshold == old(hasExceededThreshold)
      ensures listening && !old(hasExceededThreshold) ==>
        if ExceedsThreshold(x - initialX, y - initialY) then isDragging && hasExceededThreshold
        else isDragging == old(isDragging) && !hasExceededThreshold
      ensures old(hasExceededThreshold) ==> isDragging == old(isDragging) && hasExceededThreshold
    {
      if !listening {
        return;
      }
      if !hasExceededThreshold {
        var dx := if x >= initialX then x - initialX else initialX - x;
        var dy := if y >= initialY then y - initialY else initialY - y;
        assert dx * dx == (x - initialX) * (x - initialX);
        assert dy * dy == (y - initialY) * (y - initialY);
        if dx * dx + dy * dy < ClickThreshold * ClickThreshold {
          return;
        }
        hasExceededThreshold := true;
        isDragging := true;
        return;
      }
    }

    /** Mouse up (or the pointer leaving the document): both flags clear whether or not the
        press became a drag, and the listeners detach. */
    method MouseUp()
      modifies this`isDragging, this`hasExceededThreshold, this`listening
      ensures old(listening) ==> !isDragging && !hasExceededThreshold && !listening
      ensures !old(listening) ==> isDragging == old(isDragging) && hasExceededThreshold == old(hasExceededThreshold) && !listening
    {
      if !listening {
        return;
      }
      // The handler's click branch and drag branch reset the same two flags.
      isDragging := false;
      hasExceededThreshold := false;
      listening := false;
    }

    method TouchStart()
      modifies this`isDragging
      ensures isDragging
    {
      isDragging := true;
    }

    method TouchEnd()
      modifies this`isDragging
      ensures !isDragging
    {
      isDragging := false;
    }
  }

  /** A press followed by moves that all stay inside the threshold never becomes a drag:
      after every move both flags are still clear and the listeners still attached, so the
      release that follows (`MouseUp`) takes the click branch. */
  method ClickIsNotDrag(g: DragGesture, x: int, y: int, moves: seq<(int, int)>) returns (ghost everDragged: bool)
    requires forall m | 0 <= m < |moves| :: !ExceedsThreshold(moves[m].0 - x, moves[m].1 - y)
    modifies g
    ensures !everDragged
    ensures g.listening && !g.isDragging && !g.hasExceededThreshold
    ensures g.initialX == x && g.initialY == y
  {
    g.MouseDown(x, y);
    everDragged := false;
    var k := 0;
    while k < |moves|
      invariant k <= |moves|
      invariant !g.isDragging && !g.hasExceededThreshold && g.listening
      invariant g.initialX == x && g.initialY == y
      invariant !everDragged
    {
      g.MouseMove(moves[k].0, moves[k].1);
      everDragged := everDragged || g.isDragging;
      k := k + 1;
    }
  }
}
