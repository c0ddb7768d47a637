/**
 * Navigation behaviour of js/main.js: the mobile menu handlers
 * (initializeMobileNavigation), the page-navigation click handler
 * (initializeSmoothScrolling), `updateActiveNavLink` and
 * `updateActiveNavOnScroll`.
 */
module Navigation {
  import opened Wrappers
  import opened Dom
  import Throttling

  const Active: string := "active"
  /** Height allowed for the sticky navbar when scrolling to a section. */
  const NavbarOffset: int := 100
  /** How far ahead of a section's top it already counts as in view. */
  const LookAhead: int := 150
  /** Rate limit of the scroll handler, in ms. */
  const ScrollThrottleMs: int := 100

  // ---------------------------------------------------------------- mobile menu

  /** The hamburger button and the menu it opens; both were found on the page. */
  class MobileNav {
    const hamburger: Element
    const navMenu: Element

    constructor (hamburger: Element, navMenu: Element)
      ensures this.hamburger == hamburger && this.navMenu == navMenu
    {
      this.hamburger := hamburger;
      this.navMenu := navMenu;
    }

    /** Clicking the hamburger toggles `active` on both elements. If one
        element carries both selectors' classes it is toggled twice. */
    method OnHamburgerClick()
      modifies hamburger, navMenu
      ensures hamburger != navMenu ==>
        hamburger.classes == Toggled(old(hamburger.classes), Active) &&
        navMenu.classes == Toggled(old(navMenu.classes), Active)
      ensures hamburger == navMenu ==> hamburger.classes == old(hamburger.classes)
      ensures old(hamburger.Has(Active)) == old(navMenu.Has(Active)) ==>
        hamburger.Has(Active) == navMenu.Has(Active)
      ensures unchanged(hamburger`text, hamburger`borderColor, hamburger`boxShadow)
      ensures unchanged(navMenu`text, navMenu`borderColor, navMenu`boxShadow)
    {
      hamburger.Toggle(Active);
      navMenu.Toggle(Active);
      ToggledTwice(old(hamburger.classes), Active);
    }

    /** Clicking any `.nav-link` closes the menu, whatever its state was. */
    method OnNavLinkClick()
      modifies hamburger, navMenu
      ensures hamburger.classes == old(hamburger.classes) - {Active}
      ensures navMenu.classes == old(navMenu.classes) - {Active}
      ensures !hamburger.Has(Active) && !navMenu.Has(Active)
      ensures unchanged(hamburger`text, hamburger`borderColor, hamburger`boxShadow)
      ensures unchanged(navMenu`text, navMenu`borderColor, navMenu`boxShadow)
    {
      hamburger.Remove(Active);
      navMenu.Remove(Active);
    }
  }

  /** The handlers are installed only when both elements exist. */
  method InitializeMobileNavigation(hamburger: Element?, navMenu: Element?) returns (nav: MobileNav?)
    ensures (nav != null) <==> (hamburger != null && navMenu != null)
    ensures nav != null ==> fresh(nav) && nav.hamburger == hamburger && nav.navMenu == navMenu
  {
    if hamburger != null && navMenu != null {
      nav := new MobileNav(hamburger, navMenu);
    } else {
      nav := null;
    }
  }

  // ---------------------------------------------------------- active nav link

  /** A link's class list once `updateActiveNavLink` has visited it. */
  function MarkedActive(classes: set<string>, isTarget: bool): (r: set<string>)
    ensures Active in r <==> isTarget
    ensures r - {Active} == classes - {Active}
  {
    if isTarget then classes + {Active} else classes - {Active}
  }

  /** `updateActiveNavLink(targetId)` over the links matched by `.page-nav a`:
      exactly the links whose href is `target` end up active; nothing else changes. */
  method UpdateActiveNavLink(links: seq<Element>, target: string)
    modifies set l | l in links
    ensures forall l :: l in links ==>
      l.classes == MarkedActive(old(l.classes), l.href == Some(target))
    ensures forall l :: l in links ==> (l.Has(Active) <==> l.href == Some(target))
    ensures (forall a, b :: 0 <= a < b < |links| ==> links[a].href != links[b].href) ==>
      forall a, b :: 0 <= a < b < |links| ==> !(links[a].Has(Active) && links[b].Has(Active))
    ensures forall l :: l in links ==>
      l.text == old(l.text) && l.borderColor == old(l.borderColor) && l.boxShadow == old(l.boxShadow)
  {
    var i := 0;
    while i < |links|
      invariant 0 <= i <= |links|
      invariant forall l :: l in links[..i] ==>
        l.classes == MarkedActive(old(l.classes), l.href == Some(target))
      invariant forall l :: l in links && l !in links[..i] ==> l.classes == old(l.classes)
      invariant forall l :: l in links ==>
        l.text == old(l.text) && l.borderColor == old(l.borderColor) && l.boxShadow == old(l.boxShadow)
    {
      var link := links[i];
      link.Remove(Active);
      if link.href == Some(target) {
        link.Add(Active);
      }
      assert links[..i + 1] == links[..i] + [link];
      i := i + 1;
    }
    assert links[..|links|] == links;
  }

  /** A click on a `.page-nav a[href^="#"]` link whose href is `href`.
      `targetTop` is the offsetTop of the element `href` selects, None when
      there is none. The result is the scroll position requested from the
      browser, if any. */
  method OnPageNavClick(href: string, targetTop: Option<int>, links: seq<Element>)
      returns (scrollTo: Option<int>)
    modifies set l | l in links
    ensures targetTop.None? ==> scrollTo.None?
    ensures targetTop.None? ==> forall l :: l in links ==> l.classes == old(l.classes)
    ensures targetTop.Some? ==> scrollTo == Some(targetTop.value - NavbarOffset)
    ensures targetTop.Some? ==>
      forall l :: l in links ==> l.classes == MarkedActive(old(l.classes), l.href == Some(href))
    ensures forall l :: l in links ==>
      l.text == old(l.text) && l.borderColor == old(l.borderColor) && l.boxShadow == old(l.boxShadow)
  {
    if targetTop.Some? {
      scrollTo := Some(targetTop.value - NavbarOffset);
      UpdateActiveNavLink(links, href);
    } else {
      scrollTo := None;
    }
  }

  // ----------------------------------------------------------------- scroll spy

  /** A `.content-section[id]` element: its id, offsetTop and offsetHeight. */
  datatype Section = Section(id: string, offsetTop: int, offsetHeight: int)

  /** The range of scroll positions at which `s` counts as the current section. */
  predicate InView(s: Section, scrollY: int): (b: bool)
    ensures b ==> s.offsetHeight > 0
    ensures b ==> s.offsetTop - LookAhead <= scrollY
  {
    s.offsetTop - LookAhead <= scrollY < s.offsetTop - LookAhead + s.offsetHeight
  }

  /** The last section, in document order, that is in view. */
  function LastInView(sections: seq<Section>, scrollY: int): (r: Option<nat>)
    ensures r.Some? ==> r.value < |sections| && InView(sections[r.value], scrollY)
    ensures r.Some? ==> forall j :: r.value < j < |sections| ==> !InView(sections[j], scrollY)
    ensures r.None? <==> forall j :: 0 <= j < |sections| ==> !InView(sections[j], scrollY)
    decreases |sections|
  {
    if |sections| == 0 then None
    else if InView(sections[|sections| - 1], scrollY) then Some(|sections| - 1)
    else LastInView(sections[..|sections| - 1], scrollY)
  }

  /** The `currentSection` string the loop in `updateActiveNavOnScroll` computes. */
  function SectionHref(sections: seq<Section>, scrollY: int): (r: string)
    ensures r == "" <==> forall j :: 0 <= j < |sections| ==> !InView(sections[j], scrollY)
    ensures r != "" ==>
      exists k :: (0 <= k < |sections| && InView(sections[k], scrollY) &&
                   (forall j :: k < j < |sections| ==> !InView(sections[j], scrollY)) &&
                   r == "#" + sections[k].id)
  {
    match LastInView(sections, scrollY)
    case None => ""
    case Some(k) => if k < |sections| then "#" + sections[k].id else ""
  }

  /** The loop of `updateActiveNavOnScroll`: "#" + the id of the last section in
      view, or "" when none is. */
  method CurrentSection(sections: seq<Section>, scrollY: int) returns (current: string)
    ensures current == SectionHref(sections, scrollY)
    ensures current == "" <==> forall j :: 0 <= j < |sections| ==> !InView(sections[j], scrollY)
  {
    current := "";
    var i := 0;
    while i < |sections|
      invariant 0 <= i <= |sections|
      invariant current == SectionHref(sections[..i], scrollY)
    {
      var prefix := sections[..i + 1];
      assert prefix[..i] == sections[..i];
      if InView(sections[i], scrollY) {
        current := "#" + sections[i].id;
      }
      i := i + 1;
    }
    assert sections[..|sections|] == sections;
  }

  /** `updateActiveNavOnScroll` at scroll position `scrollY`: when a section
      is in view, the links are marked for it; otherwise nothing changes. */
  method UpdateActiveNavOnScroll(sections: seq<Section>, scrollY: int, links: seq<Element>)
    modifies set l | l in links
    ensures LastInView(sections, scrollY).None? ==>
      forall l :: l in links ==> l.classes == old(l.classes)
    ensures LastInView(sections, scrollY).Some? ==>
      var k := LastInView(sections, scrollY).value;
      forall l :: l in links ==>
        l.classes == MarkedActive(old(l.classes), l.href == Some("#" + sections[k].id))
    ensures forall l :: l in links ==>
      l.text == old(l.text) && l.borderColor == old(l.borderColor) && l.boxShadow == old(l.boxShadow)
  {
    var current := CurrentSection(sections, scrollY);
    if current != "" {
      UpdateActiveNavLink(links, current);
    }
  }

  /** The window's scroll listener: `throttle(updateActiveNavOnScroll, 100)`. */
  method OnWindowScroll(throttle: Throttling.Throttle, sections: seq<Section>, scrollY: int,
                        links: seq<Element>)
    requires throttle.Valid() && throttle.limit == ScrollThrottleMs
    modifies throttle, set l | l in links
    ensures throttle.Valid() && throttle.trace == old(throttle.trace) + [Throttling.Invoke]
    ensures throttle.inThrottle
    ensures old(throttle.inThrottle) ==> forall l :: l in links ==> l.classes == old(l.classes)
    ensures !old(throttle.inThrottle) && LastInView(sections, scrollY).Some? ==>
      var k := LastInView(sections, scrollY).value;
      forall l :: l in links ==>
        l.classes == MarkedActive(old(l.classes), l.href == Some("#" + sections[k].id))
    ensures LastInView(sections, scrollY).None? ==>
      forall l :: l in links ==> l.classes == old(l.classes)
    ensures forall l :: l in links ==>
      l.text == old(l.text) && l.borderColor == old(l.borderColor) && l.boxShadow == old(l.boxShadow)
  {
    var ran := throttle.Call();
    if ran {
      UpdateActiveNavOnScroll(sections, scrollY, links);
    }
  }
}
