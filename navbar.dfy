/**
 * The Navbar component's state: the mobile menu flag, the "scrolled" flag and
 * the scroll-direction hook that decides whether the header slides away.
 */
module Navbar {
  import opened ScrollDirection

  /** The header gets its shadow once the page is more than this many pixels down. */
  const ScrolledThreshold: int := 50

  /** The header is translated out of view exactly while the hook reports downward scrolling. */
  predicate HeaderHidden(direction: Direction) {
    direction == Down
  }

  /** After scrolling down by more than the noise threshold the header hides; after scrolling up by as much it shows. */
  lemma HeaderFollowsLargeMoves(s: ScrollState, scrollY: int)
    ensures scrollY - s.lastScrollY > NoiseThreshold ==> HeaderHidden(Step(s, scrollY).direction)
    ensures scrollY - s.lastScrollY < -NoiseThreshold ==> !HeaderHidden(Step(s, scrollY).direction)
    ensures Abs(scrollY - s.lastScrollY) <= NoiseThreshold ==>
              HeaderHidden(Step(s, scrollY).direction) == HeaderHidden(s.direction)
  {
  }

  class NavbarState {
    var isOpen: bool
    var scrolled: bool
    const tracker: ScrollTracker

    ghost predicate Valid()
      reads this, tracker
    {
      tracker.Valid()
    }

    /** Whether the header is currently slid out of view. */
    predicate Hidden()
      reads this, tracker
    {
      HeaderHidden(tracker.scrollDirection)
    }

    constructor ()
      ensures Valid() && fresh(tracker)
      ensures !isOpen && !scrolled && tracker.State() == Initial
    {
      isOpen := false;
      scrolled := false;
      tracker := new ScrollTracker();
    }

    /** The menu button flips the mobile menu. */
    method ToggleMenu()
      requires Valid()
      modifies this
      ensures Valid()
      ensures isOpen == !old(isOpen) && scrolled == old(scrolled)
    {
      isOpen := !isOpen;
    }

    /** Following a link (or the contact button) inside the mobile menu closes it. */
    method FollowMenuLink()
      requires Valid()
      modifies this
      ensures Valid()
      ensures !isOpen && scrolled == old(scrolled)
    {
      isOpen := false;
    }

    /** One scroll event reaches both listeners: the navbar's own and the direction hook's. */
    method OnScroll(scrollY: int)
      requires Valid()
      modifies this, tracker
      ensures Valid()
      ensures scrolled == (scrollY > ScrolledThreshold) && isOpen == old(isOpen)
      ensures tracker.State() == Step(old(tracker.State()), scrollY)
      ensures scrollY - old(tracker.lastScrollY) > NoiseThreshold ==> Hidden()
      ensures scrollY - old(tracker.lastScrollY) < -NoiseThreshold ==> !Hidden()
      ensures Abs(scrollY - old(tracker.lastScrollY)) <= NoiseThreshold ==> Hidden() == old(Hidden())
    {
      scrolled := scrollY > ScrolledThreshold;
      tracker.OnScroll(scrollY);
    }
  }
}
