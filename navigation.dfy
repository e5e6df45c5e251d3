/**
 * Navigation: the in-page link click (scroll target and menu close), and the
 * scroll-tick decisions (navbar style, scroll-to-top button, active link).
 * Geometry is in whole pixels.
 */
module Navigation {
  import opened Wrappers
  import opened MobileMenu

  /** Scroll offset beyond which the navbar gets its `scrolled` class. */
  const NavbarScrollThreshold := 100
  /** Scroll offset beyond which the scroll-to-top button gets its `visible` class. */
  const ScrollTopThreshold := 300
  /** Extra lead, above the navbar, with which a section becomes current. */
  const SectionLead := 100

  /** A page element with an `id`, its `offsetTop` and `offsetHeight`. */
  datatype Section = Section(id: string, offsetTop: int, offsetHeight: int)

  // ---------------------------------------------------------------------------
  // Link click

  /** A code point that may start a CSS identifier: a letter, `_`, or any non-ASCII code point. */
  predicate IsIdentStart(c: char) {
    ('a' <= c <= 'z') || ('A' <= c <= 'Z') || c == '_' || c as int >= 0x80
  }

  /** A CSS ident code point: an ident-start code point, a digit or `-`. */
  predicate IsIdentChar(c: char) {
    IsIdentStart(c) || ('0' <= c <= '9') || c == '-'
  }

  /**
   * A CSS identifier written without escapes (section 4.3.9 of CSS Syntax
   * Module Level 3): ident code points only, starting with an ident-start
   * code point, or with `-` followed by one of those or by a second `-`.
   */
  predicate IsIdent(s: string) {
    && |s| > 0
    && (IsIdentStart(s[0]) || (s[0] == '-' && |s| > 1 && (IsIdentStart(s[1]) || s[1] == '-')))
    && forall k :: 0 <= k < |s| ==> IsIdentChar(s[k])
  }

  /**
   * An `href` that `querySelector` parses as one id selector: `#` and an
   * identifier. Any other `#...` value is either a compound selector or, like
   * `#`, `#1a` or `#-1`, not a selector at all, and then `querySelector` throws.
   */
  predicate IsIdSelector(href: string) {
    |href| > 0 && href[0] == '#' && IsIdent(href[1..])
  }

  /** The index of the first element whose id is `id`, or none. */
  function FirstWithId(elements: seq<Section>, id: string): (r: Option<nat>)
    ensures r.Some? ==> r.value < |elements| && elements[r.value].id == id
    ensures r.Some? ==> forall j :: 0 <= j < r.value ==> elements[j].id != id
    ensures r.None? ==> forall j :: 0 <= j < |elements| ==> elements[j].id != id
  {
    if elements == [] then None
    else if elements[0].id == id then Some(0)
    else match FirstWithId(elements[1..], id)
      case None => None
      case Some(k) => Some(k + 1)
  }

  /**
   * `document.querySelector(href)` on a link's `href`: for an id selector, the
   * first element with that id; otherwise no target (the call throws, or the
   * selector is a compound one, which is not modelled).
   */
  function FindTarget(elements: seq<Section>, href: string): (r: Option<nat>)
    ensures r.Some? ==> IsIdSelector(href) && r.value < |elements| && elements[r.value].id == href[1..]
    ensures r.Some? ==> forall j :: 0 <= j < r.value ==> elements[j].id != href[1..]
    ensures r.None? ==> !IsIdSelector(href) || forall j :: 0 <= j < |elements| ==> elements[j].id != href[1..]
  {
    if IsIdSelector(href) then FirstWithId(elements, href[1..]) else None
  }

  /** An `href` that names no id (here `#1a`, whose id would start with a digit) never finds a target, even when an element has exactly that id. */
  lemma DigitLeadingHrefFindsNothing(elements: seq<Section>, href: string)
    requires href == "#1a"
    ensures FindTarget(elements, href).None?
  {
    assert !IsIdentStart(href[1]);
  }

  /** Where a link click scrolls to: the target's top less the navbar height, or nowhere without a target. */
  function ClickScrollTarget(elements: seq<Section>, href: string, navHeight: int): (r: Option<int>)
    ensures r.Some? ==> IsIdSelector(href) && exists k :: 0 <= k < |elements| && elements[k].id == href[1..] && r.value == elements[k].offsetTop - navHeight
  {
    match FindTarget(elements, href)
    case None => None
    case Some(k) => Some(elements[k].offsetTop - navHeight)
  }

  /** Scrolling to the click target puts the section's top exactly `navHeight` below the viewport top. */
  lemma ClickAlignsTargetBelowNavbar(elements: seq<Section>, href: string, navHeight: int)
    ensures var t := ClickScrollTarget(elements, href, navHeight);
      (t.Some? <==> FindTarget(elements, href).Some?) &&
      (t.Some? ==> elements[FindTarget(elements, href).value].offsetTop - t.value == navHeight)
  {
  }

  /**
   * The link click listener: scroll to the target (returned here) and close
   * the mobile menu; a link whose target does not exist does nothing.
   */
  method OnNavLinkClick(menu: Menu, elements: seq<Section>, href: string, navHeight: int)
    returns (scrollTo: Option<int>)
    modifies menu
    ensures scrollTo == ClickScrollTarget(elements, href, navHeight)
    ensures menu.State() == Step(old(menu.State()), NavLinkClick(scrollTo.Some?))
  {
    var target := FindTarget(elements, href);
    scrollTo := None;
    if target.Some? {
      scrollTo := Some(elements[target.value].offsetTop - navHeight);
      menu.Close();
    }
  }

  // ---------------------------------------------------------------------------
  // Active section

  /** `scrollY` lies in the section's span, shifted up by the navbar height and the lead. */
  predicate InSpan(s: Section, navHeight: int, scrollY: int) {
    var top := s.offsetTop - navHeight - SectionLead;
    top <= scrollY < top + s.offsetHeight
  }

  /** The current section id: the last section in document order whose span holds `scrollY`, or "". */
  function CurrentSection(sections: seq<Section>, navHeight: int, scrollY: int): (r: string)
    ensures r != "" ==> exists k :: 0 <= k < |sections| && sections[k].id == r && InSpan(sections[k], navHeight, scrollY)
    decreases |sections|
  {
    if sections == [] then ""
    else if InSpan(sections[|sections| - 1], navHeight, scrollY) then sections[|sections| - 1].id
    else CurrentSection(sections[..|sections| - 1], navHeight, scrollY)
  }

  /** When some section's span holds `scrollY`, the last such section is current. */
  lemma {:induction false} CurrentIsLastMatch(sections: seq<Section>, navHeight: int, scrollY: int, k: nat)
    requires k < |sections| && InSpan(sections[k], navHeight, scrollY)
    requires forall j :: k < j < |sections| ==> !InSpan(sections[j], navHeight, scrollY)
    ensures CurrentSection(sections, navHeight, scrollY) == sections[k].id
    decreases |sections|
  {
    if k < |sections| - 1 {
      var init := sections[..|sections| - 1];
      assert forall j :: k < j < |init| ==> init[j] == sections[j];
      CurrentIsLastMatch(init, navHeight, scrollY, k);
    }
  }

  /** When no span holds `scrollY`, nothing is current. */
  lemma {:induction false} CurrentEmptyWithoutMatch(sections: seq<Section>, navHeight: int, scrollY: int)
    requires forall j :: 0 <= j < |sections| ==> !InSpan(sections[j], navHeight, scrollY)
    ensures CurrentSection(sections, navHeight, scrollY) == ""
    decreases |sections|
  {
    if sections != [] {
      var init := sections[..|sections| - 1];
      assert forall j :: 0 <= j < |init| ==> init[j] == sections[j];
      CurrentEmptyWithoutMatch(init, navHeight, scrollY);
    }
  }

  /** The first loop of `updateActiveNavLink`: the last matching section wins. */
  method FindCurrentSection(sections: seq<Section>, navHeight: int, scrollY: int) returns (current: string)
    ensures current == CurrentSection(sections, navHeight, scrollY)
  {
    current := "";
    var i := 0;
    while i < |sections|
      invariant 0 <= i <= |sections|
      invariant current == CurrentSection(sections[..i], navHeight, scrollY)
    {
      var top := sections[i].offsetTop - navHeight - SectionLead;
      if scrollY >= top && scrollY < top + sections[i].offsetHeight {
        current := sections[i].id;
      }
      assert sections[..i + 1][..i] == sections[..i];
      i := i + 1;
    }
    assert sections[..i] == sections;
  }

  /** A navigation link: its `href` and its `active` class. */
  class NavLink {
    const href: string
    var active: bool

    constructor (href: string)
      ensures this.href == href && !active
    {
      this.href := href;
      active := false;
    }
  }

  /**
   * `updateActiveNavLink`: every link loses `active`, and a link regains it
   * exactly when its href is `#` followed by the current section id (with no
   * current section, only a bare `#` link matches).
   */
  method UpdateActiveNavLink(sections: seq<Section>, navHeight: int, scrollY: int, links: seq<NavLink>)
    returns (current: string)
    modifies set l | l in links
    ensures current == CurrentSection(sections, navHeight, scrollY)
    ensures forall k :: 0 <= k < |links| ==> links[k].active == (links[k].href == "#" + current)
  {
    current := FindCurrentSection(sections, navHeight, scrollY);
    var i := 0;
    while i < |links|
      invariant 0 <= i <= |links|
      invariant forall k :: 0 <= k < i ==> links[k].active == (links[k].href == "#" + current)
    {
      links[i].active := false;
      if links[i].href == "#" + current {
        links[i].active := true;
      }
      i := i + 1;
    }
  }

  // ---------------------------------------------------------------------------
  // Scroll tick

  /** The navbar's `scrolled` class and the scroll-to-top button's `visible` class. */
  class ScrollIndicators {
    var navbarScrolled: bool
    var scrollTopVisible: bool

    constructor ()
      ensures !navbarScrolled && !scrollTopVisible
    {
      navbarScrolled, scrollTopVisible := false, false;
    }

    /** `handleNavbarScroll`. */
    method HandleNavbarScroll(scrollY: int)
      modifies this
      ensures navbarScrolled == (scrollY > NavbarScrollThreshold) && scrollTopVisible == old(scrollTopVisible)
    {
      if scrollY > NavbarScrollThreshold {
        navbarScrolled := true;
      } else {
        navbarScrolled := false;
      }
    }

    /** `handleScrollToTopButton`. */
    method HandleScrollToTopButton(scrollY: int)
      modifies this
      ensures scrollTopVisible == (scrollY > ScrollTopThreshold) && navbarScrolled == old(navbarScrolled)
    {
      if scrollY > ScrollTopThreshold {
        scrollTopVisible := true;
      } else {
        scrollTopVisible := false;
      }
    }
  }

  /**
   * One scroll tick: navbar style, active link, scroll-to-top button. After it
   * the button is visible only while the navbar is in its scrolled style.
   */
  method OnScroll(indicators: ScrollIndicators, sections: seq<Section>, navHeight: int, scrollY: int, links: seq<NavLink>)
    modifies indicators, set l | l in links
    ensures indicators.navbarScrolled == (scrollY > NavbarScrollThreshold)
    ensures indicators.scrollTopVisible == (scrollY > ScrollTopThreshold)
    ensures indicators.scrollTopVisible ==> indicators.navbarScrolled
    ensures var current := CurrentSection(sections, navHeight, scrollY);
      forall k :: 0 <= k < |links| ==> links[k].active == (links[k].href == "#" + current)
  {
    indicators.HandleNavbarScroll(scrollY);
    var _ := UpdateActiveNavLink(sections, navHeight, scrollY, links);
    indicators.HandleScrollToTopButton(scrollY);
  }
}
