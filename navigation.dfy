/**
 * The mobile navigation: the `active` class on the menu and on the hamburger
 * button, and the three events that change them.
 */
module Navigation {
  /** Widths above this close the mobile menu. */
  const DesktopWidth := 768

  /** A hamburger click, a click on a menu link, or a window resize to
      `innerWidth` = `width`. */
  datatype NavEvent = HamburgerClick | LinkClick | Resize(width: int)

  /** Whether the menu and the hamburger carry the `active` class. */
  datatype NavFlags = NavFlags(menuActive: bool, hamburgerActive: bool) {
    /** The menu is shown exactly when the hamburger shows as pressed. */
    predicate InStep() {
      menuActive == hamburgerActive
    }
  }

  /** Both classes removed. */
  const Closed := NavFlags(false, false)

  /** The effect of one event: a hamburger click toggles both classes; a
      link click, or a resize wider than the breakpoint, removes both. */
  function Next(s: NavFlags, e: NavEvent): (r: NavFlags)
    ensures s.InStep() ==> r.InStep()
    ensures e.LinkClick? || (e.Resize? && e.width > DesktopWidth) ==> r == Closed
    ensures e.Resize? && e.width <= DesktopWidth ==> r == s
    ensures e.HamburgerClick? ==> r.menuActive != s.menuActive && r.hamburgerActive != s.hamburgerActive
  {
    match e
    case HamburgerClick => NavFlags(!s.menuActive, !s.hamburgerActive)
    case LinkClick => Closed
    case Resize(width) => if width > DesktopWidth then Closed else s
  }

  /** The state after a sequence of events, in order. */
  function Run(s: NavFlags, events: seq<NavEvent>): NavFlags
    decreases |events|
  {
    if events == [] then s else Run(Next(s, events[0]), events[1..])
  }

  /** Starting in step, the two classes stay in step whatever happens. */
  lemma {:induction false} RunKeepsInStep(s: NavFlags, events: seq<NavEvent>)
    requires s.InStep()
    ensures Run(s, events).InStep()
    decreases |events|
  {
    if events != [] {
      RunKeepsInStep(Next(s, events[0]), events[1..]);
    }
  }

  /** A sequence ending with a link click or a wide resize leaves the menu
      closed. */
  lemma {:induction false} ClosingEventCloses(s: NavFlags, events: seq<NavEvent>, last: NavEvent)
    requires last.LinkClick? || (last.Resize? && last.width > DesktopWidth)
    ensures Run(s, events + [last]) == Closed
    decreases |events|
  {
    if events == [] {
      assert events + [last] == [last];
    } else {
      assert (events + [last])[1..] == events[1..] + [last];
      ClosingEventCloses(Next(s, events[0]), events[1..], last);
    }
  }

  /** Two hamburger clicks cancel out. */
  lemma HamburgerTwiceRestores(s: NavFlags)
    ensures Next(Next(s, HamburgerClick), HamburgerClick) == s
  {
  }

  /** The DOM state of the two elements. */
  class MobileNav {
    var menuActive: bool
    var hamburgerActive: bool

    /** The abstract value of the two class lists. */
    function Flags(): NavFlags
      reads this
    {
      NavFlags(menuActive, hamburgerActive)
    }

    /** The page loads with the menu closed. */
    constructor()
      ensures Flags() == Closed
    {
      menuActive := false;
      hamburgerActive := false;
    }

    /** The hamburger's click listener: toggles both classes. */
    method OnHamburgerClick()
      modifies this
      ensures Flags() == Next(old(Flags()), HamburgerClick)
    {
      menuActive := !menuActive;
      hamburgerActive := !hamburgerActive;
    }

    /** A menu link's click listener: removes both classes. */
    method OnLinkClick()
      modifies this
      ensures Flags() == Next(old(Flags()), LinkClick)
    {
      menuActive := false;
      hamburgerActive := false;
    }

    /** The window's resize listener. */
    method OnResize(innerWidth: int)
      modifies this
      ensures Flags() == Next(old(Flags()), Resize(innerWidth))
    {
      if innerWidth > DesktopWidth {
        menuActive := false;
        hamburgerActive := false;
      }
    }
  }
}
