/**
 * The mobile navigation menu. Its state is three independent pieces of DOM
 * state: the `active` class of the hamburger button, the `active` class of the
 * menu, and the hamburger's `aria-expanded` attribute. The hamburger is part of
 * the navbar, so clicking it never counts as a click outside the navbar.
 */
module MobileMenu {

  /** Width above which a resize closes the menu. */
  const DesktopWidth := 768

  datatype MenuState = MenuState(hamburgerActive: bool, menuActive: bool, ariaExpanded: bool)

  datatype MenuEvent =
    | HamburgerClick
      /** A click anywhere on the document; `insideNavbar` when the navbar contains its target. */
    | DocumentClick(insideNavbar: bool)
    | Resize(innerWidth: int)
      /** A click on a navigation link; `targetFound` when its section exists. */
    | NavLinkClick(targetFound: bool)

  /** After setup: nothing active and `aria-expanded` set to "false". */
  const Initial := MenuState(false, false, false)

  /** Both `active` classes removed; `aria-expanded` untouched. */
  function Closed(s: MenuState): MenuState {
    s.(hamburgerActive := false, menuActive := false)
  }

  /** The effect of one event on the menu, as the listeners produce it. */
  function Step(s: MenuState, e: MenuEvent): (r: MenuState)
    ensures e.HamburgerClick? <==> r.ariaExpanded != s.ariaExpanded
    ensures IsClosing(e) ==> !r.hamburgerActive && !r.menuActive
    ensures !e.HamburgerClick? && !IsClosing(e) ==> r == s
  {
    match e
    case HamburgerClick =>
      MenuState(!s.hamburgerActive, !s.menuActive, !s.ariaExpanded)
    case DocumentClick(inside) =>
      if inside then s else Closed(s)
    case Resize(width) =>
      if width > DesktopWidth then Closed(s) else s
    case NavLinkClick(found) =>
      if found then Closed(s) else s
  }

  /** The state after a sequence of events. */
  function Run(s: MenuState, events: seq<MenuEvent>): (r: MenuState)
    ensures (forall k :: 0 <= k < |events| ==> !events[k].HamburgerClick? && !IsClosing(events[k])) ==> r == s
    decreases |events|
  {
    if events == [] then s else Run(Step(s, events[0]), events[1..])
  }

  predicate IsClosing(e: MenuEvent) {
    match e
    case HamburgerClick => false
    case DocumentClick(inside) => !inside
    case Resize(width) => width > DesktopWidth
    case NavLinkClick(found) => found
  }

  function HamburgerClicks(events: seq<MenuEvent>): nat {
    if events == [] then 0 else (if events[0].HamburgerClick? then 1 else 0) + HamburgerClicks(events[1..])
  }

  /** A hamburger click toggles both classes and the attribute. */
  lemma HamburgerToggles(s: MenuState)
    ensures var t := Step(s, HamburgerClick);
      t.hamburgerActive == !s.hamburgerActive && t.menuActive == !s.menuActive && t.ariaExpanded == !s.ariaExpanded
    ensures Step(Step(s, HamburgerClick), HamburgerClick) == s
  {
  }

  /**
   * An outside click, a resize wider than the desktop width and a click on a
   * link with an existing target clear both classes and nothing else; any
   * other event of those kinds changes nothing; repeating one changes nothing more.
   */
  lemma ClosingEvents(s: MenuState, e: MenuEvent)
    requires !e.HamburgerClick?
    ensures Step(s, e) == (if IsClosing(e) then Closed(s) else s)
    ensures Step(Step(s, e), e) == Step(s, e)
  {
  }

  /** The two classes stay equal when they start equal, whatever happens. */
  lemma {:induction false} ClassesStayInStep(s: MenuState, events: seq<MenuEvent>)
    requires s.hamburgerActive == s.menuActive
    ensures Run(s, events).hamburgerActive == Run(s, events).menuActive
    decreases |events|
  {
    if events != [] {
      ClassesStayInStep(Step(s, events[0]), events[1..]);
    }
  }

  /** `aria-expanded` flips on each hamburger click and on nothing else. */
  lemma {:induction false} AriaCountsHamburgerClicks(s: MenuState, events: seq<MenuEvent>)
    ensures Run(s, events).ariaExpanded == (if HamburgerClicks(events) % 2 == 0 then s.ariaExpanded else !s.ariaExpanded)
    decreases |events|
  {
    if events != [] {
      AriaCountsHamburgerClicks(Step(s, events[0]), events[1..]);
    }
  }

  /**
   * Without a closing event, attribute and menu class move together; a
   * single closing event is enough to make them disagree for good.
   */
  lemma {:induction false} AriaTracksMenuWithoutClosing(s: MenuState, events: seq<MenuEvent>)
    requires s.ariaExpanded == s.menuActive
    requires forall k :: 0 <= k < |events| ==> !IsClosing(events[k])
    ensures Run(s, events).ariaExpanded == Run(s, events).menuActive
    decreases |events|
  {
    if events != [] {
      assert !IsClosing(events[0]);
      AriaTracksMenuWithoutClosing(Step(s, events[0]), events[1..]);
    }
  }

  /** Open the menu, then click outside it: the menu is closed but `aria-expanded` still says "true". */
  lemma AriaDriftsAfterOutsideClick()
    ensures Run(Initial, [HamburgerClick, DocumentClick(false)]) == MenuState(false, false, true)
  {
    assert [HamburgerClick, DocumentClick(false)][1..] == [DocumentClick(false)];
  }

  /** The menu's DOM state, updated in place by its listeners. */
  class Menu {
    var hamburgerActive: bool
    var menuActive: bool
    var ariaExpanded: bool

    function State(): MenuState
      reads this
    {
      MenuState(hamburgerActive, menuActive, ariaExpanded)
    }

    /** The state once the page is set up. */
    constructor ()
      ensures State() == Initial
    {
      hamburgerActive, menuActive, ariaExpanded := false, false, false;
    }

    /** Both hamburger listeners: toggle the classes, and flip `aria-expanded`. */
    method OnHamburgerClick()
      modifies this
      ensures State() == Step(old(State()), HamburgerClick)
    {
      hamburgerActive := !hamburgerActive;
      menuActive := !menuActive;
      var isExpanded := ariaExpanded;
      ariaExpanded := !isExpanded;
    }

    /** Remove the `active` class from menu and hamburger. */
    method Close()
      modifies this
      ensures State() == Closed(old(State()))
    {
      menuActive := false;
      hamburgerActive := false;
    }

    /** The document click listener. */
    method OnDocumentClick(insideNavbar: bool)
      modifies this
      ensures State() == Step(old(State()), DocumentClick(insideNavbar))
    {
      if !insideNavbar {
        Close();
      }
    }

    /** The window resize listener. */
    method OnResize(innerWidth: int)
      modifies this
      ensures State() == Step(old(State()), Resize(innerWidth))
    {
      if innerWidth > DesktopWidth {
        Close();
      }
    }
  }
}
