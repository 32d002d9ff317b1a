/** The home page's sticky header and hero video. The sticky header appears once the page
    header scrolls out of view; a click on its logo or buttons first plays the header's exit
    animation and only navigates when the 600 ms exit timer fires. A click handled by the
    current state during the exit is not intercepted. */
module HomePage {
  import opened Common

  /** The home page's state, with the navigation the exit timer will perform. */
  class Home {
    var showStickyHeader: bool
    var isExitingStickyHeader: bool
    var pendingPath: Option<string>
    var location: string
    var videoLoaded: bool

    /** A navigation is pending exactly while the header is exiting. */
    ghost predicate Valid()
      reads this
    {
      isExitingStickyHeader <==> pendingPath.Some?
    }

    constructor ()
      ensures Valid()
      ensures !showStickyHeader && !isExitingStickyHeader && !videoLoaded && location == "/"
    {
      showStickyHeader := false;
      isExitingStickyHeader := false;
      pendingPath := None;
      location := "/";
      videoLoaded := false;
    }

    /** The intersection observer's callback for the watched header. */
    method Observe(isIntersecting: bool)
      modifies this`showStickyHeader
      ensures showStickyHeader == !isIntersecting
    {
      showStickyHeader := !isIntersecting;
    }

    /** `handleStickyHeaderLinkClick`: the click is intercepted exactly when the sticky header
        is shown and not already exiting; then the header starts exiting and the navigation
        waits for the timer. Otherwise nothing changes and the link behaves as a link. */
    method StickyLinkClick(path: string) returns (intercepted: bool)
      requires Valid()
      modifies this`showStickyHeader, this`isExitingStickyHeader, this`pendingPath
      ensures Valid()
      ensures intercepted <==> old(showStickyHeader) && !old(isExitingStickyHeader)
      ensures intercepted ==> isExitingStickyHeader && !showStickyHeader && pendingPath == Some(path)
      ensures !intercepted ==>
        showStickyHeader == old(showStickyHeader) && isExitingStickyHeader == old(isExitingStickyHeader)
        && pendingPath == old(pendingPath)
    {
      intercepted := showStickyHeader && !isExitingStickyHeader;
      if intercepted {
        isExitingStickyHeader := true;
        showStickyHeader := false;
        pendingPath := Some(path);
      }
    }

    /** The sticky logo: the same rule, towards the home page. */
    method LogoClick() returns (intercepted: bool)
      requires Valid()
      modifies this`showStickyHeader, this`isExitingStickyHeader, this`pendingPath
      ensures Valid()
      ensures intercepted <==> old(showStickyHeader) && !old(isExitingStickyHeader)
      ensures intercepted ==> isExitingStickyHeader && !showStickyHeader && pendingPath == Some("/")
      ensures !intercepted ==>
        showStickyHeader == old(showStickyHeader) && isExitingStickyHeader == old(isExitingStickyHeader)
        && pendingPath == old(pendingPath)
    {
      intercepted := StickyLinkClick("/");
    }

    /** The exit timer of an intercepted click: navigate to the clicked path, exit over. */
    method ExitTimerFires()
      requires Valid() && pendingPath.Some?
      modifies this`location, this`isExitingStickyHeader, this`pendingPath
      ensures Valid() && !isExitingStickyHeader
      ensures location == old(pendingPath).value
    {
      location := pendingPath.value;
      isExitingStickyHeader := false;
      pendingPath := None;
    }

    /** The hero video's `loadeddata` event. */
    method VideoLoadedData()
      modifies this`videoLoaded
      ensures videoLoaded
    {
      videoLoaded := true;
    }

    /** The 5000 ms fallback timer, in case `loadeddata` never fires. */
    method VideoFallbackFires()
      modifies this`videoLoaded
      ensures videoLoaded
    {
      videoLoaded := true;
    }
  }

  /** Two clicks in a row on a shown sticky header, both handled against the current state:
      only the first is intercepted, and the timer navigates to the first click's path. */
  method DoubleClickNavigatesOnce(h: Home, first: string, second: string)
    requires h.Valid() && h.showStickyHeader && !h.isExitingStickyHeader
    modifies h
    ensures h.Valid() && h.location == first && !h.isExitingStickyHeader && !h.showStickyHeader
  {
    var a := h.StickyLinkClick(first);
    assert a;
    var b := h.StickyLinkClick(second);
    assert !b;
    h.ExitTimerFires();
  }

  /** One event the home page reacts to. */
  datatype PageEvent =
    | Intersection(isIntersecting: bool)
    | StickyClick(path: string)
    | StickyLogoClick
    | ExitTimer
    | LoadedData
    | FallbackTimer

  /** Once loaded, the video stays loaded through any sequence of page events. An exit timer
      exists only while a navigation is pending, so `ExitTimer` is a no-op otherwise. */
  method VideoStaysLoaded(h: Home, events: seq<PageEvent>)
    requires h.Valid() && h.videoLoaded
    modifies h
    ensures h.Valid() && h.videoLoaded
  {
    var k := 0;
    while k < |events|
      invariant k <= |events|
      invariant h.Valid() && h.videoLoaded
    {
      match events[k] {
        case Intersection(isIntersecting) => h.Observe(isIntersecting);
        case StickyClick(path) => var _ := h.StickyLinkClick(path);
        case StickyLogoClick => var _ := h.LogoClick();
        case ExitTimer => if h.pendingPath.Some? { h.ExitTimerFires(); }
        case LoadedData => h.VideoLoadedData();
        case FallbackTimer => h.VideoFallbackFires();
      }
      k := k + 1;
    }
  }
}
