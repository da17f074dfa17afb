/**
 * The fixed navigation bar: the scrolled-style flag, the mobile menu, and
 * the menu items that forward a section identifier to the page router.
 * Composing a click with the router gives the end-to-end behaviour of the
 * bar on the whole page.
 */
module Navigation {
  import opened Wrappers
  import Page

  /** The bar switches to its solid style strictly beyond this vertical offset, in CSS pixels. */
  const ScrollThreshold: real := 50.0

  function IsScrolled(scrollY: real): (scrolled: bool)
    ensures scrolled <==> ScrollThreshold < scrollY
  {
    scrollY > ScrollThreshold
  }

  /** The bar's own state hooks. */
  datatype NavState = NavState(scrolled: bool, menuOpen: bool)

  /** ASCII upper case to lower case; every label of the bar is ASCII. */
  predicate IsUpper(c: char) {
    'A' <= c <= 'Z'
  }

  function LowerChar(c: char): (d: char)
    ensures !IsUpper(d)
    ensures IsUpper(c) ==> d as int == c as int + 32 && 'a' <= d <= 'z'
    ensures !IsUpper(c) ==> d == c
  {
    if IsUpper(c) then (c as int + 32) as char else c
  }

  /** The label with each upper-case letter replaced by its lower-case one, all else kept. */
  function Lower(s: string): (t: string)
    ensures |t| == |s|
    ensures forall i :: 0 <= i < |s| ==> !IsUpper(t[i])
    ensures forall i :: 0 <= i < |s| ==> t[i] == LowerChar(s[i])
  {
    seq(|s|, i requires 0 <= i < |s| => LowerChar(s[i]))
  }

  /** Labels of the desktop links, and of the mobile menu entries, in display order. */
  const DesktopLabels: seq<string> := ["About", "Services", "Testimonials"]
  const MobileLabels: seq<string> := ["About", "Services", "Testimonials", "Contact"]

  /** The desktop call-to-action passes its identifier literally. */
  const CtaId: string := "contact"

  /** The identifiers a list of labels dispatches: each label, lower-cased. */
  function Dispatched(labels: seq<string>): (ids: seq<string>)
    ensures |ids| == |labels|
    ensures forall i :: 0 <= i < |labels| ==> ids[i] == Lower(labels[i]) && |ids[i]| == |labels[i]|
    ensures forall i :: 0 <= i < |labels| ==> forall j :: 0 <= j < |ids[i]| ==> !IsUpper(ids[i][j])
  {
    seq(|labels|, i requires 0 <= i < |labels| => Lower(labels[i]))
  }

  lemma LowerWord(s: string, t: string)
    requires |s| == |t|
    requires forall i :: 0 <= i < |s| ==> LowerChar(s[i]) == t[i]
    ensures Lower(s) == t
  {
  }

  lemma LowerLabels()
    ensures Lower("About") == "about"
    ensures Lower("Services") == "services"
    ensures Lower("Testimonials") == "testimonials"
    ensures Lower("Contact") == "contact"
  {
    LowerWord("About", "about");
    LowerWord("Services", "services");
    LowerWord("Testimonials", "testimonials");
    LowerWord("Contact", "contact");
  }

  /** The desktop links dispatch exactly these identifiers; with the call to action they reach what the mobile menu reaches. */
  lemma DesktopDispatch()
    ensures Dispatched(DesktopLabels) == ["about", "services", "testimonials"]
    ensures Dispatched(DesktopLabels) + [CtaId] == Dispatched(MobileLabels)
  {
    LowerLabels();
    MobileDispatch();
  }

  /** The mobile entries dispatch exactly these identifiers. */
  lemma MobileDispatch()
    ensures Dispatched(MobileLabels) == ["about", "services", "testimonials", "contact"]
  {
    LowerLabels();
  }

  /** The bar together with the page's modal state. */
  datatype Screen = Screen(nav: NavState, modal: Page.ModalState)

  /** A new screen and the effect requested of the browser. */
  datatype Reaction = Reaction(screen: Screen, effect: Page.Effect)

  datatype NavEvent =
    | WindowScroll(scrollY: real)  // the window's scroll listener
    | MenuButton                   // the mobile menu button
    | Item(id: string)             // a link, the call to action, or a mobile entry
    | LogoClick                    // the brand name

  /** A click on any link: the identifier goes to the router, then the mobile menu closes. */
  function NavClick(s: Screen, id: string): (r: Reaction)
    ensures !r.screen.nav.menuOpen
    ensures r.screen.nav.scrolled == s.nav.scrolled
    ensures Page.Outcome(r.screen.modal, r.effect) == Page.ScrollToSection(id, s.modal)
  {
    var routed := Page.ScrollToSection(id, s.modal);
    Reaction(Screen(s.nav.(menuOpen := false), routed.modal), routed.effect)
  }

  function NavStep(s: Screen, e: NavEvent): (r: Reaction)
    // scrolling only restyles the bar
    ensures e.WindowScroll? ==> r == Reaction(s.(nav := s.nav.(scrolled := IsScrolled(e.scrollY))), Page.NoEffect)
    // the menu button only flips the menu
    ensures e.MenuButton? ==> r == Reaction(s.(nav := s.nav.(menuOpen := !s.nav.menuOpen)), Page.NoEffect)
    ensures e.Item? ==> r == NavClick(s, e.id)
    // the brand name scrolls the window home and leaves the state alone
    ensures e.LogoClick? ==> r == Reaction(s, Page.ScrollToTop)
  {
    match e
    case WindowScroll(y) => Reaction(s.(nav := s.nav.(scrolled := IsScrolled(y))), Page.NoEffect)
    case MenuButton => Reaction(s.(nav := s.nav.(menuOpen := !s.nav.menuOpen)), Page.NoEffect)
    case Item(id) => NavClick(s, id)
    case LogoClick => Reaction(s, Page.ScrollToTop)
  }

  /** The scrolled style holds at no offset up to 50 and at every offset beyond it. */
  lemma ScrolledThreshold(y: real, y': real)
    ensures IsScrolled(y) <==> y > 50.0
    ensures !IsScrolled(50.0) && IsScrolled(50.5)
    ensures IsScrolled(y) && y <= y' ==> IsScrolled(y')
  {
  }

  /** Two presses of the menu button restore the bar. */
  lemma MenuButtonTwice(s: Screen)
    ensures NavStep(NavStep(s, MenuButton).screen, MenuButton).screen == s
  {
  }

  /** The call to action does what the hero's contact button does. */
  lemma CtaMatchesHero(s: Screen)
    ensures NavClick(s, CtaId).screen.modal == Page.Handle(s.modal, Page.ContactClick).modal
    ensures NavClick(s, CtaId).effect == Page.Handle(s.modal, Page.ContactClick).effect
  {
  }

  /**
   * End to end, for every mobile entry: the menu closes; About and Services
   * open their modal and lock the background; Testimonials and Contact
   * scroll to their section and leave the modal as it was.
   */
  lemma MobileEntryEndToEnd(s: Screen, k: nat)
    requires k < |MobileLabels|
    ensures !NavClick(s, Dispatched(MobileLabels)[k]).screen.nav.menuOpen
    ensures k < 2 ==> NavClick(s, Dispatched(MobileLabels)[k]).screen.modal == Some(Dispatched(MobileLabels)[k])
    ensures k < 2 ==> Page.BodyOverflow(NavClick(s, Dispatched(MobileLabels)[k]).screen.modal) == Page.Hidden
    ensures k == 2 ==> NavClick(s, Dispatched(MobileLabels)[k]) == Reaction(s.(nav := s.nav.(menuOpen := false)), Page.ScrollInto(Page.TestimonialsBlock))
    ensures k == 3 ==> NavClick(s, Dispatched(MobileLabels)[k]) == Reaction(s.(nav := s.nav.(menuOpen := false)), Page.ScrollInto(Page.ContactBlock))
  {
    MobileDispatch();
    Page.ScrollTargets(s.modal);
  }
}
