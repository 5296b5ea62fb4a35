/** The sticky site header of site.js: the scrolled and auto-hide classes that
    `initHeaderState` keeps in step with the scroll position, and the mobile
    menu of `initMobileNav` that shares the header element. */
module SiteHeader {
  import opened KeyEvents

  /** Past this offset the header carries `is-scrolled`. */
  const ScrolledAfter := 12
  /** At or above this offset the header is always shown. */
  const ShowNearTop := 24
  /** The header may only start hiding below this offset. */
  const HideAfter := 220
  /** How far the page must move between frames to count as a scroll. */
  const ScrollDeltaThreshold := 8

  /** The `.site-header` element's three classes. */
  class HeaderElement {
    var isScrolled: bool
    var isHidden: bool
    var menuOpen: bool

    constructor (isScrolled: bool, isHidden: bool, menuOpen: bool)
      ensures this.isScrolled == isScrolled && this.isHidden == isHidden && this.menuOpen == menuOpen
    {
      this.isScrolled := isScrolled;
      this.isHidden := isHidden;
      this.menuOpen := menuOpen;
    }
  }

  // ---------------------------------------------------------------------------
  // Auto-hide

  /** The hidden flag `updateHeader` computes from the previous flag, the
      menu class, the new offset and the offset of the previous frame. */
  function NextHidden(wasHidden: bool, menuOpen: bool, currentY: int, lastY: int): (r: bool)
    ensures r ==> !menuOpen && currentY > ShowNearTop
    ensures r && !wasHidden ==> currentY > HideAfter && currentY > lastY + ScrollDeltaThreshold
    ensures wasHidden && !r ==> menuOpen || currentY <= ShowNearTop || currentY < lastY - ScrollDeltaThreshold
  {
    if menuOpen then false
    else if currentY <= ShowNearTop then false
    else if currentY > HideAfter && currentY > lastY + ScrollDeltaThreshold then true
    else if currentY < lastY - ScrollDeltaThreshold then false
    else wasHidden
  }

  /** The header is hidden exactly when the menu is closed, the page is below
      the top band, and either it has just scrolled down past the hiding
      offset or it was already hidden and has not scrolled up. */
  lemma NextHiddenIff(wasHidden: bool, menuOpen: bool, currentY: int, lastY: int)
    ensures NextHidden(wasHidden, menuOpen, currentY, lastY) <==>
              && !menuOpen
              && currentY > ShowNearTop
              && ((currentY > HideAfter && currentY > lastY + ScrollDeltaThreshold)
                  || (wasHidden && currentY >= lastY - ScrollDeltaThreshold))
  {
  }

  /** An open menu or a position near the top always shows the header. */
  lemma ShownWhenMenuOpenOrNearTop(wasHidden: bool, menuOpen: bool, currentY: int, lastY: int)
    requires menuOpen || currentY <= ShowNearTop
    ensures !NextHidden(wasHidden, menuOpen, currentY, lastY)
  {
  }

  /** A shown header only starts hiding on a downward scroll below the hiding
      offset. */
  lemma HidesOnlyScrollingDownDeep(menuOpen: bool, currentY: int, lastY: int)
    requires NextHidden(false, menuOpen, currentY, lastY)
    ensures currentY > HideAfter && currentY > lastY + ScrollDeltaThreshold
  {
  }

  /** Movements of at most the threshold never change the flag away from the
      top band with the menu closed: the hysteresis that stops flicker. */
  lemma SmallMovesKeepState(wasHidden: bool, currentY: int, lastY: int)
    requires currentY > ShowNearTop
    requires lastY - ScrollDeltaThreshold <= currentY <= lastY + ScrollDeltaThreshold
    ensures NextHidden(wasHidden, false, currentY, lastY) == wasHidden
  {
  }

  /** An upward scroll beyond the threshold shows the header. */
  lemma ScrollingUpShows(wasHidden: bool, menuOpen: bool, currentY: int, lastY: int)
    requires currentY < lastY - ScrollDeltaThreshold
    ensures !NextHidden(wasHidden, menuOpen, currentY, lastY)
  {
  }

  /** The closure `initHeaderState` sets up: its three captured variables and
      the header it updates. The scroll offset is passed in (`window.scrollY`,
      0 when unset). */
  class ScrollWatcher {
    const header: HeaderElement
    var ticking: bool
    var lastScrollY: int
    var isHidden: bool

    /** The captured variables are initialised and `updateHeader` runs once. */
    constructor (header: HeaderElement, scrollY: int)
      modifies header
      ensures this.header == header
      ensures lastScrollY == scrollY && !ticking
      ensures isHidden == NextHidden(false, old(header.menuOpen), scrollY, scrollY)
      ensures header.isScrolled == (scrollY > ScrolledAfter) && header.isHidden == isHidden
      ensures header.menuOpen == old(header.menuOpen)
    {
      this.header := header;
      ticking := false;
      lastScrollY := scrollY;
      isHidden := false;
      new;
      Update(scrollY);
    }

    /** `updateHeader` at offset `currentY`. */
    method Update(currentY: int)
      modifies this, header
      ensures header.isScrolled == (currentY > ScrolledAfter)
      ensures isHidden == NextHidden(old(isHidden), old(header.menuOpen), currentY, old(lastScrollY))
      ensures header.isHidden == isHidden && header.menuOpen == old(header.menuOpen)
      ensures lastScrollY == currentY && !ticking
    {
      var scrollingDown := currentY > lastScrollY + ScrollDeltaThreshold;
      var scrollingUp := currentY < lastScrollY - ScrollDeltaThreshold;
      header.isScrolled := currentY > ScrolledAfter;
      if header.menuOpen {
        isHidden := false;
      } else if currentY <= ShowNearTop {
        isHidden := false;
      } else if currentY > HideAfter && scrollingDown {
        isHidden := true;
      } else if scrollingUp {
        isHidden := false;
      }
      header.isHidden := isHidden;
      lastScrollY := currentY;
      ticking := false;
    }

    /** The scroll listener: it asks for one animation frame at a time, and
      `scheduled` says whether it asked (the frame then runs `Update`). */
    method OnScroll() returns (scheduled: bool)
      modifies this
      ensures scheduled <==> !old(ticking)
      ensures ticking
      ensures lastScrollY == old(lastScrollY) && isHidden == old(isHidden)
    {
      if ticking {
        return false;
      }
      ticking := true;
      scheduled := true;
    }
  }

  // ---------------------------------------------------------------------------
  // Mobile menu

  /** `initMobileNav`: the header's `menu-open` class, the toggle's
      `aria-expanded` and the body's `mobile-menu-open` class. The breakpoint
      query and the click target are passed to the handlers. */
  class MobileNav {
    const header: HeaderElement
    var toggleExpanded: bool
    var bodyMenuOpen: bool

    /** The three markers agree. */
    predicate Valid()
      reads this, header
    {
      header.menuOpen == toggleExpanded && bodyMenuOpen == toggleExpanded
    }

    /** Set-up marks the toggle collapsed and leaves both classes as the page
        loaded them. */
    constructor (header: HeaderElement, bodyMenuOpen: bool)
      ensures this.header == header && !toggleExpanded && this.bodyMenuOpen == bodyMenuOpen
    {
      this.header := header;
      toggleExpanded := false;
      this.bodyMenuOpen := bodyMenuOpen;
    }

    /** `setMenuState`: all three markers take `expanded`; the header's other
        classes are untouched. */
    method SetMenuState(expanded: bool)
      modifies this, header
      ensures Valid() && toggleExpanded == expanded
      ensures header.isScrolled == old(header.isScrolled) && header.isHidden == old(header.isHidden)
    {
      header.menuOpen := expanded;
      toggleExpanded := expanded;
      bodyMenuOpen := expanded;
    }

    /** A click on the toggle opens the menu unless the toggle says it is
        expanded. */
    method ToggleClick()
      modifies this, header
      ensures Valid() && toggleExpanded == !old(toggleExpanded)
      ensures header.isScrolled == old(header.isScrolled) && header.isHidden == old(header.isHidden)
    {
      var willOpen := !toggleExpanded;
      SetMenuState(willOpen);
    }

    /** `closeMenu`, run by a click on a menu link or on the call to action. */
    method CloseMenu()
      modifies this, header
      ensures Valid() && !toggleExpanded
      ensures header.isScrolled == old(header.isScrolled) && header.isHidden == old(header.isHidden)
    {
      SetMenuState(false);
    }

    /** A key press anywhere: Escape closes the menu, other keys do nothing. */
    method KeyDown(key: Key)
      modifies this, header
      ensures key == Escape ==> Valid() && !toggleExpanded
      ensures key != Escape ==> toggleExpanded == old(toggleExpanded) && bodyMenuOpen == old(bodyMenuOpen)
                                && header.menuOpen == old(header.menuOpen)
      ensures header.isScrolled == old(header.isScrolled) && header.isHidden == old(header.isHidden)
    {
      if key == Escape {
        CloseMenu();
      }
    }

    /** A click anywhere in the document: at the mobile breakpoint with the
        menu open, a click outside the navigation closes it. */
    method DocumentClick(breakpointMatches: bool, insideNav: bool)
      modifies this, header
      ensures breakpointMatches && old(header.menuOpen) && !insideNav ==> Valid() && !toggleExpanded
      ensures !(breakpointMatches && old(header.menuOpen) && !insideNav) ==>
                toggleExpanded == old(toggleExpanded) && bodyMenuOpen == old(bodyMenuOpen)
                && header.menuOpen == old(header.menuOpen)
      ensures header.isScrolled == old(header.isScrolled) && header.isHidden == old(header.isHidden)
    {
      if !breakpointMatches || !header.menuOpen {
        return;
      }
      if !insideNav {
        CloseMenu();
      }
    }

    /** Leaving the mobile breakpoint closes the menu. */
    method BreakpointChange(matches: bool)
      modifies this, header
      ensures !matches ==> Valid() && !toggleExpanded
      ensures matches ==> toggleExpanded == old(toggleExpanded) && bodyMenuOpen == old(bodyMenuOpen)
                          && header.menuOpen == old(header.menuOpen)
      ensures header.isScrolled == old(header.isScrolled) && header.isHidden == old(header.isHidden)
    {
      if !matches {
        CloseMenu();
      }
    }
  }
}
