/**
 * The top-level page: the section router that turns a section identifier
 * into a smooth scroll or a modal, the modal controller, and the two
 * side effects tied to an open modal (the Escape listener and the
 * background scroll lock). DOM calls are returned as effect values.
 */
module Page {
  import opened Wrappers

  /** The wrappers the page keeps references to, in page order. */
  datatype Anchor = Hero | ServicesBlock | VideoBlock | TestimonialsBlock | ContactBlock

  /** What a handler asks of the browser besides a state change. */
  datatype Effect =
    | NoEffect
    | ScrollInto(anchor: Anchor)  // smooth scroll of a section wrapper to the top of the viewport
    | ScrollToTop                 // smooth scroll of the window to offset 0

  /**
   * The active-modal hook holds a nullable string. Only "about" and
   * "services" are ever stored; that is an invariant, not a type.
   */
  type ModalState = Option<string>

  const AboutId := "about"
  const ServicesId := "services"

  /** Identifiers that open a modal instead of scrolling. */
  predicate OpensModal(id: string) {
    id == AboutId || id == ServicesId
  }

  /** The identifiers the router's lookup table knows. */
  const KnownIds: set<string> := {"home", "about", "services", "testimonials", "contact", "video"}

  predicate ValidModal(m: ModalState) {
    m.Some? ==> OpensModal(m.value)
  }

  /** JavaScript truthiness of a nullable string: null and "" are falsy. */
  predicate Truthy(m: ModalState) {
    m.Some? && m.value != ""
  }

  /** The router's lookup table from identifier to section wrapper. */
  function RefFor(id: string): (a: Option<Anchor>)
    ensures a.Some? <==> id in KnownIds
  {
    if id == "home" then Some(Hero)
    else if id == AboutId then Some(Hero)
    else if id == ServicesId then Some(ServicesBlock)
    else if id == "testimonials" then Some(TestimonialsBlock)
    else if id == "contact" then Some(ContactBlock)
    else if id == "video" then Some(VideoBlock)
    else None
  }

  /** The outcome of a handler: the next modal state and the requested effect. */
  datatype Outcome = Outcome(modal: ModalState, effect: Effect)

  /** Routing of a section identifier, given the current modal. */
  function ScrollToSection(id: string, m: ModalState): (r: Outcome)
    // modal identifiers replace whatever modal is open and never scroll
    ensures OpensModal(id) ==> r == Outcome(Some(id), NoEffect)
    // every other identifier leaves the modal alone
    ensures !OpensModal(id) ==> r.modal == m
    // a scroll happens exactly for the known non-modal identifiers
    ensures r.effect.ScrollInto? <==> id in KnownIds && !OpensModal(id)
    ensures r.effect != ScrollToTop
    ensures ValidModal(m) ==> ValidModal(r.modal)
  {
    if OpensModal(id) then Outcome(Some(id), NoEffect)
    else match RefFor(id)
      case Some(a) => Outcome(m, ScrollInto(a))
      case None => Outcome(m, NoEffect)
  }

  /** User input the page itself handles. */
  datatype PageEvent =
    | Navigate(id: string)   // the navigation bar's callback
    | ContactClick           // the hero's contact call to action
    | WorkClick              // the hero's work callback
    | KeyDown(key: string)   // a key press anywhere in the document
    | CloseClick             // the modal's close button
    | BackdropClick          // the dimmed area around the modal

  /** The Escape listener is registered exactly while the modal hook is truthy. */
  predicate EscapeListening(m: ModalState) {
    Truthy(m)
  }

  /**
   * The overlay, with its close button and backdrop, is rendered while the
   * modal hook is truthy. After the hook becomes null it stays on screen
   * for its exit animation, but a close gesture there sets an already null
   * hook to null, so it is treated here as not rendered.
   */
  predicate OverlayRendered(m: ModalState) {
    Truthy(m)
  }

  function Handle(m: ModalState, e: PageEvent): (r: Outcome)
    ensures ValidModal(m) ==> ValidModal(r.modal)
    // the navigation bar's callback is the router itself
    ensures e.Navigate? ==> r == ScrollToSection(e.id, m)
    // closing: Escape while listening, the close button, the backdrop
    ensures e.KeyDown? && e.key == "Escape" && EscapeListening(m) ==> r == Outcome(None, NoEffect)
    ensures (e.CloseClick? || e.BackdropClick?) && OverlayRendered(m) ==> r == Outcome(None, NoEffect)
    // any other key, any key with no listener, and a close gesture with no overlay change nothing
    ensures e.KeyDown? && e.key != "Escape" ==> r == Outcome(m, NoEffect)
    ensures e.KeyDown? && !EscapeListening(m) ==> r == Outcome(m, NoEffect)
    ensures (e.CloseClick? || e.BackdropClick?) && !OverlayRendered(m) ==> r == Outcome(m, NoEffect)
    ensures e.WorkClick? ==> r == Outcome(Some(ServicesId), NoEffect)
    ensures e.ContactClick? ==> r == ScrollToSection("contact", m)
  {
    match e
    case Navigate(id) => ScrollToSection(id, m)
    case ContactClick => ScrollToSection("contact", m)
    case WorkClick => Outcome(Some(ServicesId), NoEffect)
    case KeyDown(k) =>
      if EscapeListening(m) && k == "Escape" then Outcome(None, NoEffect) else Outcome(m, NoEffect)
    case CloseClick => if OverlayRendered(m) then Outcome(None, NoEffect) else Outcome(m, NoEffect)
    case BackdropClick => if OverlayRendered(m) then Outcome(None, NoEffect) else Outcome(m, NoEffect)
  }

  /** The value the modal effect writes to the body's `overflow` style. */
  datatype Overflow = Hidden | Unset

  function BodyOverflow(m: ModalState): (o: Overflow)
    ensures ValidModal(m) ==> (o == Hidden <==> m.Some?)
  {
    if Truthy(m) then Hidden else Unset
  }

  /** What the overlay shows for the modal hook's value. */
  datatype ModalView = NoOverlay | AboutContent | ServicesContent | EmptyOverlay

  function View(m: ModalState): (v: ModalView)
    ensures v == AboutContent <==> m == Some(AboutId)
    ensures v == ServicesContent <==> m == Some(ServicesId)
    ensures v == NoOverlay <==> !OverlayRendered(m)
    ensures ValidModal(m) ==> v != EmptyOverlay
  {
    if !Truthy(m) then NoOverlay
    else if m.value == AboutId then AboutContent
    else if m.value == ServicesId then ServicesContent
    else EmptyOverlay
  }

  /** Events applied left to right, starting from the modal state; effects are dropped. */
  function RunModal(m: ModalState, es: seq<PageEvent>): ModalState
    decreases |es|
  {
    if es == [] then m else RunModal(Handle(m, es[0]).modal, es[1..])
  }

  /** From the closed page, no event sequence can store anything but a modal identifier. */
  lemma {:induction false} ModalAlwaysValid(m: ModalState, es: seq<PageEvent>)
    requires ValidModal(m)
    ensures ValidModal(RunModal(m, es))
    decreases |es|
  {
    if es != [] {
      ModalAlwaysValid(Handle(m, es[0]).modal, es[1..]);
    }
  }

  /** The background is locked exactly while a modal is open, in every reachable state. */
  lemma ScrollLockedIffModal(es: seq<PageEvent>)
    ensures BodyOverflow(RunModal(None, es)) == Hidden <==> RunModal(None, es).Some?
    ensures EscapeListening(RunModal(None, es)) <==> RunModal(None, es).Some?
  {
    ModalAlwaysValid(None, es);
  }

  /** Identifiers outside the lookup table neither scroll nor touch the modal. */
  lemma UnknownIdIsNoOp(id: string, m: ModalState)
    requires id !in KnownIds
    ensures ScrollToSection(id, m) == Outcome(m, NoEffect)
  {
  }

  /** The scroll targets of the non-modal identifiers. */
  lemma ScrollTargets(m: ModalState)
    ensures ScrollToSection("home", m) == Outcome(m, ScrollInto(Hero))
    ensures ScrollToSection("testimonials", m) == Outcome(m, ScrollInto(TestimonialsBlock))
    ensures ScrollToSection("contact", m) == Outcome(m, ScrollInto(ContactBlock))
    ensures ScrollToSection("video", m) == Outcome(m, ScrollInto(VideoBlock))
  {
  }

  /** Opening About and then Services leaves exactly Services open; a close from there shuts it. */
  lemma OpenReplacesThenCloses(m: ModalState, close: PageEvent)
    requires close == CloseClick || close == BackdropClick || close == KeyDown("Escape")
    ensures RunModal(m, [Navigate(AboutId), Navigate(ServicesId)]) == Some(ServicesId)
    ensures RunModal(m, [Navigate(AboutId), Navigate(ServicesId), close]) == None
  {
    var open := Some(ServicesId);
    assert Handle(m, Navigate(AboutId)).modal == Some(AboutId);
    assert Handle(Some(AboutId), Navigate(ServicesId)).modal == open;
    assert Handle(open, close).modal == None;
    assert [Navigate(AboutId), Navigate(ServicesId)][1..] == [Navigate(ServicesId)];
    assert RunModal(Some(AboutId), [Navigate(ServicesId)]) == RunModal(open, []);
    assert [Navigate(AboutId), Navigate(ServicesId), close][1..] == [Navigate(ServicesId), close];
    assert [Navigate(ServicesId), close][1..] == [close];
    assert RunModal(open, [close]) == RunModal(None, []);
  }

  /** Every close gesture returns a valid state to closed. */
  lemma CloseFromAnyState(m: ModalState, close: PageEvent)
    requires ValidModal(m)
    requires close == CloseClick || close == BackdropClick || close == KeyDown("Escape")
    ensures Handle(m, close).modal == None
  {
  }
}
