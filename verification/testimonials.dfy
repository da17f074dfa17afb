/**
 * The testimonial carousel: a slide index that auto-advances on interval
 * ticks while the mouse is outside the section, arrow and dot navigation,
 * and the typewriter that reveals the current quote one character per tick.
 * Timers are not modelled as time: each firing is an explicit event.
 */
module Testimonials {

  /** One client quote as shown on a slide (the avatar image is not modelled). */
  datatype Testimonial = Testimonial(
    id: nat,
    name: string,
    company: string,
    role: string,
    service: string,
    rating: nat,
    quote: string)

  /** The four quotes, each kept in its own constant. */
  const JohnsonQuote: string := "DigitalCraft transformed our online presence completely. Our new website not only looks stunning but has increased our conversion rate by 300%. The team's attention to detail and commitment to excellence is unmatched."
  const ChenQuote: string := "In just 6 months, our social media following grew by 500% and our engagement rates skyrocketed. The strategic approach and creative content that DigitalCraft provides is simply outstanding."
  const RodriguezQuote: string := "Working with DigitalCraft was a game-changer for our brand. They didn't just build us a website and manage our socials - they became true partners in our growth journey. Absolutely recommend!"
  const ThompsonQuote: string := "The professionalism and expertise of the DigitalCraft team exceeded all our expectations. Our new website perfectly captures our brand vision and has significantly boosted our online credibility."

  /** The fixed list the section renders, in display order. */
  const Entries: seq<Testimonial> := [
    Testimonial(1, "Sarah Johnson", "TechStart Solutions", "CEO", "Website Development", 5,
      JohnsonQuote),
    Testimonial(2, "Michael Chen", "GrowthVentures", "Marketing Director", "Social Media Management", 5,
      ChenQuote),
    Testimonial(3, "Emily Rodriguez", "Fashion Forward", "Founder", "Full Digital Package", 5,
      RodriguezQuote),
    Testimonial(4, "David Thompson", "EcoGreen Solutions", "Co-Founder", "Website Development", 5,
      ThompsonQuote)
  ]

  // ---------------------------------------------------------------------------
  // Carousel index
  // ---------------------------------------------------------------------------

  /**
   * The carousel's state hooks. `index` is an unbounded integer because
   * jumping to a slide performs no bounds check; staying in range is a
   * property of the events the page can actually produce.
   */
  datatype Carousel = Carousel(index: int, playing: bool)

  /** The state on mount: first slide, auto-advance on. */
  const Start: Carousel := Carousel(0, true)

  datatype CarouselEvent =
    | Tick               // one firing of the auto-rotate interval
    | Next               // right arrow
    | Previous           // left arrow
    | GoTo(slide: int)   // a dot indicator
    | MouseEnter         // mouse enters the section
    | MouseLeave         // mouse leaves the section

  predicate InRange(i: int, len: nat) {
    0 <= i < len
  }

  /** Events the rendered section can emit: dots only carry indices of the list. */
  predicate Admissible(e: CarouselEvent, len: nat) {
    e.GoTo? ==> InRange(e.slide, len)
  }

  /** The step shared by the interval callback and the right arrow: the last slide wraps to the first. */
  function Successor(i: int, len: nat): (r: int)
    ensures InRange(i, len) ==> r == (i + 1) % len
  {
    if i == len - 1 then 0 else i + 1
  }

  /** The left arrow: the first slide wraps to the last. */
  function Predecessor(i: int, len: nat): (r: int)
    ensures InRange(i, len) ==> r == (i + len - 1) % len
  {
    if i == 0 then len - 1 else i - 1
  }

  /** One event applied to the carousel of a list with `len` entries. */
  function Step(c: Carousel, e: CarouselEvent, len: nat): (r: Carousel)
    // the interval is cleared while paused, so a tick then changes nothing
    ensures e.Tick? && !c.playing ==> r == c
    // only the mouse moves the pause flag; it never moves the slide
    ensures e.MouseEnter? ==> r == c.(playing := false)
    ensures e.MouseLeave? ==> r == c.(playing := true)
    ensures !e.MouseEnter? && !e.MouseLeave? ==> r.playing == c.playing
    // the right arrow lands where a running interval would
    ensures e.Next? || (e.Tick? && c.playing) ==> r.index == Successor(c.index, len)
    ensures e.Previous? ==> r.index == Predecessor(c.index, len)
    // a dot jumps to its slide without any bounds check
    ensures e.GoTo? ==> r == c.(index := e.slide)
    ensures InRange(c.index, len) && Admissible(e, len) ==> InRange(r.index, len)
  {
    match e
    case Tick => if c.playing then c.(index := Successor(c.index, len)) else c
    case Next => c.(index := Successor(c.index, len))
    case Previous => c.(index := Predecessor(c.index, len))
    case GoTo(k) => c.(index := k)
    case MouseEnter => c.(playing := false)
    case MouseLeave => c.(playing := true)
  }

  /** Events applied left to right. */
  function Run(c: Carousel, es: seq<CarouselEvent>, len: nat): Carousel
    decreases |es|
  {
    if es == [] then c else Run(Step(c, es[0], len), es[1..], len)
  }

  /** `n` consecutive interval firings. */
  function Ticks(n: nat): seq<CarouselEvent> {
    seq(n, _ => Tick)
  }

  /** The dot indicators, one per entry, each jumping to its own index. */
  function Dots(len: nat): (ds: seq<CarouselEvent>)
    ensures |ds| == len
    ensures forall k :: 0 <= k < len ==> ds[k] == GoTo(k) && Admissible(ds[k], len)
  {
    seq(len, k => GoTo(k))
  }

  /** Clicking dot `k` shows slide `k` and leaves auto-advance as it was. */
  lemma DotSelects(c: Carousel, len: nat, k: nat)
    requires k < len
    ensures Run(c, [Dots(len)[k]], len) == c.(index := k)
  {
    assert [Dots(len)[k]][1..] == [];
  }

  /** Previous undoes Next and Next undoes Previous on every valid index. */
  lemma PreviousNextInverse(i: int, len: nat)
    requires InRange(i, len)
    ensures Predecessor(Successor(i, len), len) == i
    ensures Successor(Predecessor(i, len), len) == i
  {
  }

  /** The same, at the level of arrow clicks on the carousel state. */
  lemma ArrowsCancel(c: Carousel, len: nat)
    requires InRange(c.index, len)
    ensures Run(c, [Next, Previous], len) == c
    ensures Run(c, [Previous, Next], len) == c
  {
    PreviousNextInverse(c.index, len);
    assert [Next, Previous][1..] == [Previous];
    assert [Previous, Next][1..] == [Next];
  }

  lemma {:induction false} RunAppend(c: Carousel, a: seq<CarouselEvent>, b: seq<CarouselEvent>, len: nat)
    ensures Run(c, a + b, len) == Run(Run(c, a, len), b, len)
    decreases |a|
  {
    if a == [] {
      assert a + b == b;
    } else {
      assert (a + b)[0] == a[0];
      assert (a + b)[1..] == a[1..] + b;
      RunAppend(Step(c, a[0], len), a[1..], b, len);
    }
  }

  /** Every sequence of admissible events keeps the slide index inside the list. */
  lemma {:induction false} RunInRange(c: Carousel, es: seq<CarouselEvent>, len: nat)
    requires InRange(c.index, len)
    requires forall k :: 0 <= k < |es| ==> Admissible(es[k], len)
    ensures InRange(Run(c, es, len).index, len)
    decreases |es|
  {
    if es != [] {
      assert Admissible(es[0], len);
      RunInRange(Step(c, es[0], len), es[1..], len);
    }
  }

  lemma TicksTail(n: nat)
    requires n > 0
    ensures Ticks(n)[0] == Tick
    ensures Ticks(n)[1..] == Ticks(n - 1)
  {
  }

  /** While auto-advance is on, `n` ticks move the slide `n` places, modulo the length. */
  lemma {:induction false} TicksAdvance(i: int, n: nat, len: nat)
    requires InRange(i, len)
    ensures Run(Carousel(i, true), Ticks(n), len) == Carousel((i + n) % len, true)
    decreases n
  {
    if n == 0 {
      assert Ticks(0) == [];
      ModUnique(i, 0, i, len);
    } else {
      TicksTail(n);
      var j := Successor(i, len);
      assert Step(Carousel(i, true), Tick, len) == Carousel(j, true);
      assert Run(Carousel(i, true), Ticks(n), len) == Run(Carousel(j, true), Ticks(n - 1), len);
      TicksAdvance(j, n - 1, len);
      SuccessorShift(i, n, len);
    }
  }

  /** One step by the successor rule, then `n - 1` more places, is `n` places. */
  lemma SuccessorShift(i: int, n: nat, len: nat)
    requires InRange(i, len) && n > 0
    ensures (Successor(i, len) + (n - 1)) % len == (i + n) % len
  {
    if i == len - 1 {
      ModAddPeriod(n - 1, len);
    }
  }

  lemma MulAtLeastOnce(k: int, len: int)
    requires k >= 1 && len > 0
    ensures k * len >= len
  {
  }

  lemma MulAtMostMinusOnce(k: int, len: int)
    requires k <= -1 && len > 0
    ensures k * len <= -len
  {
  }

  lemma MulBoundedIsZero(d: int, len: int)
    requires len > 0 && -len < d * len < len
    ensures d == 0
  {
    if d >= 1 {
      MulAtLeastOnce(d, len);
    } else if d <= -1 {
      MulAtMostMinusOnce(d, len);
    }
  }

  /** Euclidean remainder is unique: any decomposition with a remainder in range gives `%`. */
  lemma ModUnique(y: int, q: int, r: int, len: int)
    requires len > 0 && 0 <= r < len && y == q * len + r
    ensures y % len == r
  {
    var q' := y / len;
    assert (q - q') * len == y % len - r;
    MulBoundedIsZero(q - q', len);
  }

  lemma ModAddPeriod(x: int, len: int)
    requires len > 0
    ensures (x + len) % len == x % len
  {
    var q := x / len;
    assert x + len == (q + 1) * len + x % len;
    ModUnique(x + len, q + 1, x % len, len);
  }

  /** From the mounted state, `n` uninterrupted ticks show slide `n mod len`. */
  lemma TicksFromStart(n: nat, len: nat)
    requires len > 0
    ensures Run(Start, Ticks(n), len).index == n % len
  {
    TicksAdvance(0, n, len);
  }

  /** While paused, no number of ticks changes anything. */
  lemma {:induction false} PausedTicksIgnored(c: Carousel, n: nat, len: nat)
    requires !c.playing
    ensures Run(c, Ticks(n), len) == c
    decreases n
  {
    if n == 0 {
      assert Ticks(0) == [];
    } else {
      TicksTail(n);
      PausedTicksIgnored(c, n - 1, len);
    }
  }

  /** Hovering over the section for any number of ticks leaves the slide where it was and resumes auto-advance. */
  lemma HoverHoldsSlide(c: Carousel, n: nat, len: nat)
    ensures Run(c, [MouseEnter] + Ticks(n) + [MouseLeave], len) == c.(playing := true)
  {
    var paused := c.(playing := false);
    RunAppend(c, [MouseEnter] + Ticks(n), [MouseLeave], len);
    RunAppend(c, [MouseEnter], Ticks(n), len);
    assert Run(c, [MouseEnter], len) == paused;
    PausedTicksIgnored(paused, n, len);
  }

  /** The number of slides the page cycles through. */
  const SlideCount: nat := 4

  /** The list has one slide per entry, with ids 1 to 4 in display order, each rated five stars. */
  lemma EntryFacts()
    ensures |Entries| == SlideCount
    ensures forall k :: 0 <= k < |Entries| ==> Entries[k].id == k + 1 && Entries[k].rating == 5
  {
  }

  /** With the page's own list, every reachable slide index names an entry. */
  lemma SlideAlwaysDefined(es: seq<CarouselEvent>)
    requires forall k :: 0 <= k < |es| ==> Admissible(es[k], SlideCount)
    ensures InRange(Run(Start, es, SlideCount).index, SlideCount)
  {
    RunInRange(Start, es, SlideCount);
  }

  // ---------------------------------------------------------------------------
  // Typewriter reveal of the current quote
  // ---------------------------------------------------------------------------

  /** The typewriter's props and state hooks: the full text, what is shown, and how many characters are typed. */
  datatype Typewriter = Typewriter(text: string, shown: string, typed: nat)

  /** What is shown is exactly the typed prefix of the text. */
  predicate Consistent(t: Typewriter) {
    t.typed <= |t.text| && t.shown == t.text[..t.typed]
  }

  /** The blinking cursor is rendered while typing is unfinished. */
  predicate CursorShown(t: Typewriter) {
    t.typed < |t.text|
  }

  datatype TypeEvent =
    | Keystroke             // one firing of the per-character timeout
    | NewText(text: string) // the parent passes a different quote

  /** The typewriter as first mounted with a text. */
  function Mount(text: string): (t: Typewriter)
    ensures Consistent(t) && t.text == text && t.shown == []
    ensures CursorShown(t) <==> text != []
  {
    Typewriter(text, "", 0)
  }

  function TypeStep(t: Typewriter, e: TypeEvent): (r: Typewriter)
    ensures Consistent(t) ==> Consistent(r)
    // a new text restarts the reveal from nothing
    ensures e.NewText? ==> r == Mount(e.text)
    // each keystroke reveals exactly the next character, until the end
    ensures e.Keystroke? && Consistent(t) && CursorShown(t) ==>
      r.text == t.text && r.typed == t.typed + 1 && r.shown == t.shown + [t.text[t.typed]]
    ensures e.Keystroke? && !CursorShown(t) ==> r == t
  {
    match e
    case Keystroke =>
      if t.typed < |t.text| then t.(shown := t.text[..t.typed + 1], typed := t.typed + 1) else t
    case NewText(s) => Typewriter(s, "", 0)
  }

  function TypeRun(t: Typewriter, es: seq<TypeEvent>): Typewriter
    decreases |es|
  {
    if es == [] then t else TypeRun(TypeStep(t, es[0]), es[1..])
  }

  function Keystrokes(n: nat): seq<TypeEvent> {
    seq(n, _ => Keystroke)
  }

  /** Every event sequence keeps the shown text a prefix of the full text. */
  lemma {:induction false} TypeRunConsistent(t: Typewriter, es: seq<TypeEvent>)
    requires Consistent(t)
    ensures Consistent(TypeRun(t, es))
    decreases |es|
  {
    if es != [] {
      TypeRunConsistent(TypeStep(t, es[0]), es[1..]);
    }
  }

  /** As many keystrokes as characters remain reveal the whole text and hide the cursor. */
  lemma {:induction false} TypewriterCompletes(t: Typewriter)
    requires Consistent(t)
    ensures TypeRun(t, Keystrokes(|t.text| - t.typed)) == Typewriter(t.text, t.text, |t.text|)
    ensures !CursorShown(TypeRun(t, Keystrokes(|t.text| - t.typed)))
    decreases |t.text| - t.typed
  {
    var n := |t.text| - t.typed;
    if n == 0 {
      assert Keystrokes(0) == [];
      assert t.text[..t.typed] == t.text;
    } else {
      assert Keystrokes(n)[0] == Keystroke;
      assert Keystrokes(n)[1..] == Keystrokes(n - 1);
      var t' := TypeStep(t, Keystroke);
      TypewriterCompletes(t');
    }
  }

  /** Mounting a quote and letting the timeouts run to completion shows the full quote. */
  lemma QuoteFullyRevealed(text: string)
    ensures TypeRun(Mount(text), Keystrokes(|text|)).shown == text
  {
    TypewriterCompletes(Mount(text));
  }
}
