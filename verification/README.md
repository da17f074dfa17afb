# Page view-state of the agency site, in Dafny

This project models the client-side view state of a single-page marketing
site for a digital agency, and proves properties of it. The page has no
backend. Its logic is a handful of state hooks inside React components.
Each component is one module with immutable state, an event datatype and
a pure transition function:

- `Testimonials` (`TestimonialsSection.tsx`) covers the testimonial carousel:
  - the slide index, which auto-advances on interval ticks and wraps at the end;
  - the pause flag, set while the mouse is over the section;
  - arrow and dot navigation;
  - the typewriter that reveals the current quote one character per tick.
- `Page` (`Index.tsx`) covers the section router and the modal controller:
  - an identifier either opens the About or Services modal, scrolls to a section, or does nothing;
  - Escape, the close button and the backdrop close the modal;
  - the Escape listener and the background scroll lock follow the modal.
- `Navigation` (`Navigation.tsx`) covers the fixed bar:
  - the scrolled-style threshold;
  - the mobile menu flag;
  - the labels each link dispatches to the router.

  Composing a click with `Page` gives the bar's end-to-end behaviour.
- `Gallery` (`VideoGallery.tsx`) covers the list of video records and the per-video play/pause and mute toggles, keyed by id.
- `Contact` (`ContactSection.tsx`) covers the contact form:
  - the rules declared on its fields;
  - the email pattern `/^\S+@\S+$/i`, read as a regular expression over the ECMAScript `\s` class;
  - the submission phases: editing, sending, success panel, back to an empty form.
- `EmailInput` covers what the browser itself does with the form's
  `<input type="email">` (`ContactSection.tsx:143`), following the E-mail
  state of the HTML Living Standard:
  - the value sanitization: line breaks removed, surrounding ASCII whitespace trimmed;
  - the "valid e-mail address" grammar;
  - the type mismatch that stops a submission. The form at `ContactSection.tsx:99`
    has no `novalidate`, so the submit event, and with it the form library's
    handler, only fires when the email is empty or a valid address.
- `Wrappers` holds `Option`, which stands for the nullable state hooks.

Timers are events, not time. Each interval or timeout firing is a `Tick`,
a `Keystroke`, a `RequestDone` or a `SuccessTimerFired` event. DOM calls
become returned values: `Page.Effect` stands for a smooth scroll, and
`Page.Overflow` for the body style.

Points of the code's behaviour worth stating plainly:

- The form is emptied when the request resolves, at the moment the success
  panel appears, not when the panel's timer ends (`ContactSection.tsx:38-40`).
  `Contact.ContactStep` empties the form on `RequestDone`.
- The close button and the backdrop exist while the overlay is rendered or
  playing its exit animation, and the Escape listener exists only while the
  modal hook is truthy (`Index.tsx:59-77`, `Index.tsx:129-137`). A close
  gesture with no modal open sets a null hook to null. `Page.Handle` treats
  these gestures as no-ops then, which gives the same state as closing from
  every state the page can reach.
- Every address the browser accepts also matches the form's own pattern, and
  every other non-empty email never reaches the pattern. So no submission
  displays "Invalid email address" (`Contact.SubmissionsNeverShowPatternMessage`).
  Examples: `a@@b` matches the pattern, yet the browser refuses it. An email
  typed with a leading space is trimmed by the browser, and it then matches.

## Model

| member | source | states |
|---|---|---|
| Testimonials.Successor | src/components/TestimonialsSection.tsx:62-66 | On every valid index the tick's "last wraps to first, else +1" rule is `(i+1) mod len` |
| Testimonials.Predecessor | src/components/TestimonialsSection.tsx:75-77 | On every valid index the left arrow's "first wraps to last, else -1" rule is `(i+len-1) mod len` |
| Testimonials.Step | src/components/TestimonialsSection.tsx:56-88 | A tick while paused changes nothing. Mouse enter/leave set the flag to false/true and never move the slide. Arrows, dots and ticks never touch the flag. The right arrow moves to the same slide as a running tick, and the left arrow to the predecessor. A dot sets the index to its slide with no bounds check. Admissible events keep the index in `[0,len)` |
| Testimonials.Dots | src/components/TestimonialsSection.tsx:221-224 | There is one dot per entry, and dot `k` carries slide `k`, which is always in range |
| Testimonials.DotSelects | src/components/TestimonialsSection.tsx:71-73 | Clicking dot `k` shows slide `k` and leaves auto-advance as it was |
| Testimonials.PreviousNextInverse | src/components/TestimonialsSection.tsx:75-81 | Previous undoes next and next undoes previous on every valid index |
| Testimonials.ArrowsCancel | src/components/TestimonialsSection.tsx:204-216 | Clicking right then left, or left then right, returns the carousel to its state |
| Testimonials.RunInRange | src/components/TestimonialsSection.tsx:71-81 | Any sequence of admissible events keeps the slide index inside the list, although jumping to a slide has no bounds check |
| Testimonials.TicksAdvance | src/components/TestimonialsSection.tsx:62-66 | While playing, `n` ticks from slide `i` land on `(i+n) mod len` and leave the flag on |
| Testimonials.TicksFromStart | src/components/TestimonialsSection.tsx:55-66 | From the mounted state, `n` uninterrupted ticks show slide `n mod len` |
| Testimonials.PausedTicksIgnored | src/components/TestimonialsSection.tsx:59-60 | While paused, any number of ticks leaves the carousel unchanged |
| Testimonials.HoverHoldsSlide | src/components/TestimonialsSection.tsx:87-88 | Mouse enter, any number of ticks, mouse leave: the slide is where it was, and auto-advance is back on |
| Testimonials.EntryFacts | src/components/TestimonialsSection.tsx:12-53 | The page's list holds exactly `SlideCount` (four) entries, with ids 1 to 4 in display order, each rated five stars |
| Testimonials.SlideAlwaysDefined | src/components/TestimonialsSection.tsx:55-81 | With the page's slide count, every index reachable from mount through admissible events names an entry to render |
| Testimonials.Mount | src/components/TestimonialsSection.tsx:243-245 | A mounted typewriter shows nothing, is consistent, and shows the cursor iff the text is non-empty |
| Testimonials.TypeStep | src/components/TestimonialsSection.tsx:247-261 | The shown text stays the typed prefix of the full text. A keystroke appends exactly the next character until the end, then does nothing. A new text resets the shown text and the count |
| Testimonials.TypeRunConsistent | src/components/TestimonialsSection.tsx:247-261 | Every event sequence keeps the shown text equal to the prefix of the text of length `typed` |
| Testimonials.TypewriterCompletes | src/components/TestimonialsSection.tsx:247-268 | As many keystrokes as characters remain reveal the whole text, and the cursor disappears |
| Testimonials.QuoteFullyRevealed | src/components/TestimonialsSection.tsx:243-255 | A freshly mounted quote is fully shown after one keystroke per character |
| Page.RefFor | src/pages/Index.tsx:27-34 | The lookup table has an entry exactly for home, about, services, testimonials, contact and video |
| Page.ScrollToSection | src/pages/Index.tsx:26-48 | `about`/`services` replace the modal with themselves and do not scroll. Every other identifier leaves the modal alone. A scroll happens iff the identifier is known and not a modal one. The valid-modal invariant is kept |
| Page.Handle | src/pages/Index.tsx:51-135 | A navigation callback is exactly the router on its identifier. Escape while listening, close and backdrop while rendered all close the modal. Other keys, any key with no listener, and a close gesture with no overlay change nothing. The work button opens Services. The contact button is exactly routing `contact`. The invariant is kept |
| Page.BodyOverflow | src/pages/Index.tsx:67-72 | For every valid modal state the body overflow is `hidden` iff a modal is open, else `unset` |
| Page.View | src/pages/Index.tsx:131-186 | The overlay shows About content iff the hook is `"about"` and Services content iff it is `"services"`. It renders nothing iff the hook is falsy. It is never empty for a valid state |
| Page.ModalAlwaysValid | src/pages/Index.tsx:14-68 | Every event sequence keeps the hook `null`, `"about"` or `"services"`, so at most one modal exists |
| Page.ScrollLockedIffModal | src/pages/Index.tsx:60-78 | In every reachable state the background is locked, and Escape is listened for, exactly while a modal is open |
| Page.UnknownIdIsNoOp | src/pages/Index.tsx:41-48 | An identifier outside the table neither scrolls nor changes the modal |
| Page.ScrollTargets | src/pages/Index.tsx:27-47 | home, testimonials, contact and video scroll to the hero, testimonials, contact and video wrappers, modal unchanged |
| Page.OpenReplacesThenCloses | src/pages/Index.tsx:36-68 | Opening About then Services leaves exactly Services open, and any close gesture then closes it |
| Page.CloseFromAnyState | src/pages/Index.tsx:131-176 | From every valid state, the close button, the backdrop and Escape all yield no modal |
| Navigation.IsScrolled | src/components/Navigation.tsx:14 | The bar is styled as scrolled exactly when the offset is strictly greater than 50 |
| Navigation.LowerChar | src/components/Navigation.tsx:63 | A character's lower-case form is never an upper-case letter. An upper-case letter maps to the letter 32 code points on, and every other character is kept |
| Navigation.Lower | src/components/Navigation.tsx:63 | A lower-cased label has the same length, no upper-case letter, and each character lower-cased in place |
| Navigation.Dispatched | src/components/Navigation.tsx:60-63 | A list of labels dispatches one identifier per label, in order: the label lower-cased, of the same length and with no upper-case letter |
| Navigation.NavClick | src/components/Navigation.tsx:25-28 | A link click forwards its identifier to the router unchanged, always leaves the mobile menu closed, and keeps the scrolled style |
| Navigation.NavStep | src/components/Navigation.tsx:14-99 | Scrolling only restyles the bar by the threshold. The menu button flips the menu, keeps everything else and asks for no effect. Links are `NavClick`. The brand scrolls the window to the top and changes nothing else |
| Navigation.ScrolledThreshold | src/components/Navigation.tsx:14 | The solid style is on iff the offset exceeds 50: off at exactly 50, on just beyond it, and it stays on as the offset grows |
| Navigation.MenuButtonTwice | src/components/Navigation.tsx:99 | Two presses of the menu button restore the bar |
| Navigation.DesktopDispatch | src/components/Navigation.tsx:60-87 | The desktop links dispatch exactly `about`, `services`, `testimonials`. Together with the call to action they dispatch exactly what the mobile entries dispatch |
| Navigation.MobileDispatch | src/components/Navigation.tsx:129-132 | The mobile entries dispatch exactly `about`, `services`, `testimonials`, `contact` |
| Navigation.CtaMatchesHero | src/components/Navigation.tsx:84-93 | The bar's call to action has the same outcome as the hero's contact button |
| Navigation.MobileEntryEndToEnd | src/components/Navigation.tsx:129-132 | Every mobile entry closes the menu. About/Services open their modal and lock the background. Testimonials/Contact scroll to their section, modal unchanged |
| Gallery.Flip | src/components/VideoGallery.tsx:58-79 | A toggle negates exactly its own flag and keeps id, sources, duration, title and the other flag |
| Gallery.ApplyToggle | src/components/VideoGallery.tsx:58-62 | Same length and order. The record with the id is flipped and every other record is unchanged |
| Gallery.TogglePlayPause | src/components/VideoGallery.tsx:57-62 | Ids and mute flags are kept, and a record's playing flag changes iff its id is the target |
| Gallery.ToggleMute | src/components/VideoGallery.tsx:74-79 | Ids and playing flags are kept, and a record's muted flag changes iff its id is the target |
| Gallery.MuteLabel | src/components/VideoGallery.tsx:120 | The button reads "Unmute video" iff the video is muted, and "Mute video" iff it is not |
| Gallery.InitialState | src/components/VideoGallery.tsx:6-43 | Four videos with ids 1, 2, 3, 4 in order, all playing and muted |
| Gallery.ToggleTwice | src/components/VideoGallery.tsx:57-79 | The same toggle applied twice restores the list |
| Gallery.AbsentIdNoOp | src/components/VideoGallery.tsx:59-61 | A toggle for an id no record carries leaves the list unchanged |
| Gallery.TogglePreservesIds | src/components/VideoGallery.tsx:59-60 | The sequence of ids is the same after any toggle |
| Gallery.TogglesCommute | src/components/VideoGallery.tsx:74-79 | Toggles of any videos, of either kind, give the same list in either order |
| Gallery.UnmuteSecond | src/components/VideoGallery.tsx:116-121 | In the mounted gallery, unmuting video 2 relabels its button alone |
| Contact.PatternMatches | src/components/ContactSection.tsx:139 | A matching text has at least three characters and an `@` that is neither first nor last |
| Contact.EmailPatternCharacterization | src/components/ContactSection.tsx:136-141 | The pattern matches iff the text has no `\s` character and an `@` that is neither first nor last |
| Contact.DoubleAtAccepted | src/components/ContactSection.tsx:139 | `a@@b` is accepted, because `\S` also matches `@` |
| Contact.AddressAccepted | src/components/ContactSection.tsx:139-149 | The placeholder's address shape `your.email@company.com` is accepted |
| Contact.NoAtRejected | src/components/ContactSection.tsx:136-141 | Any text without `@` is rejected |
| Contact.SpaceOrEmptyPartRejected | src/components/ContactSection.tsx:139 | A space in the text, or nothing before the `@`, is rejected |
| Contact.Required | src/components/ContactSection.tsx:111 | The required rule fails exactly on the empty string, and only with the rule's own message |
| Contact.Validate | src/components/ContactSection.tsx:111-211 | Name, service and message fail iff empty, each with its own message. Email shows "Email is required" iff empty, "Invalid email address" iff non-empty and unmatched, and no error when non-empty and matched. No errors iff all required fields hold and the email matches |
| Contact.SetField | src/components/ContactSection.tsx:111-211 | An edit replaces exactly the field edited and keeps the other four |
| Contact.Reported | src/components/ContactSection.tsx:111-211 | The email control reports the sanitized text, the name and company inputs the text without line breaks, the select and the textarea the text as given. No single-line input holds a line break, and text without line breaks reaches the text inputs unchanged |
| Contact.BrowserAllowsSubmit | src/components/ContactSection.tsx:99-143 | The browser fires the submit event iff the email is empty or a valid address, and whatever it lets through is empty or matches the form's pattern |
| Contact.CompanyIsOptional | src/components/ContactSection.tsx:166 | The company value never affects validation |
| Contact.ServiceChoice | src/components/ContactSection.tsx:183-194 | Among the dropdown's values the placeholder fails with "Please select a service" and exactly the four services pass |
| Contact.ButtonText | src/components/ContactSection.tsx:228-245 | The button reads "Sending..." iff it is disabled, that is iff loading |
| Contact.ContactStep | src/components/ContactSection.tsx:31-143 | A submission whose email is a type mismatch changes nothing, because the browser stops it. Past the browser, a submission is accepted iff the form is on screen, not loading, and valid; it then starts loading with the data. An invalid one only shows the errors. Edits store the value the control reports (`Contact.Reported`) and keep the errors. The request's end empties the form and shows success. The timer hides success. Loading and success are never both set |
| Contact.PhasesExclusive | src/components/ContactSection.tsx:21-44 | No event sequence sets loading and submitted together |
| Contact.HappyPath | src/components/ContactSection.tsx:31-44 | A filled form with an address the browser accepts passes validation and goes idle → loading → success panel shown → idle with an empty form and no errors |
| Contact.BadEmailBlocks | src/components/ContactSection.tsx:136-143 | `not-an-email` fails the pattern, but the browser stops the submission first: the page state is unchanged and no message of the form's own appears |
| Contact.DoubleAtBlocked | src/components/ContactSection.tsx:139-143 | `a@@b` matches the pattern, yet submitting it changes nothing, because the browser refuses it |
| Contact.LeadingSpaceAccepted | src/components/ContactSection.tsx:139-143 | Whitespace typed before a valid address is dropped by the control, and the stored address matches the pattern |
| Contact.BrowserValidMatchesPattern | src/components/ContactSection.tsx:139-143 | Every address valid for the browser matches the pattern |
| Contact.StepNeverShowsPatternMessage | src/components/ContactSection.tsx:136-152 | No single event brings up "Invalid email address" |
| Contact.SubmissionsNeverShowPatternMessage | src/components/ContactSection.tsx:136-152 | From any state without it, no sequence of edits, submissions and timer events displays "Invalid email address" |
| EmailInput.StripNewlines | src/components/ContactSection.tsx:112-167 | The result has no line feed or carriage return, is no longer than the input, and equals the input when it had none. A single character is dropped iff it is a line break |
| EmailInput.StripNewlinesAppend | src/components/ContactSection.tsx:112-167 | Removal distributes over concatenation, so with the one-character case every other character is kept, in order |
| EmailInput.TrimStart | src/components/ContactSection.tsx:143 | The result is a suffix of the input that does not start with ASCII whitespace, and everything cut was ASCII whitespace |
| EmailInput.TrimEnd | src/components/ContactSection.tsx:143 | The result is a prefix of the input that does not end with ASCII whitespace, and everything cut was ASCII whitespace |
| EmailInput.TrimInfix | src/components/ContactSection.tsx:143 | Trimming both ends yields a contiguous piece of the input, and everything cut from either side is ASCII whitespace |
| EmailInput.Sanitize | src/components/ContactSection.tsx:143 | The value an email control reports is the typed text without line breaks, cut to a contiguous piece with only ASCII whitespace removed at each end, and it neither starts nor ends with whitespace |
| EmailInput.SanitizeIdempotent | src/components/ContactSection.tsx:143 | Sanitizing a sanitized value changes nothing |
| EmailInput.SanitizeDropsLeadingWhitespace | src/components/ContactSection.tsx:143 | A leading whitespace character, a line break included, never affects the reported value |
| EmailInput.SanitizeKeepsClean | src/components/ContactSection.tsx:143 | A value without line breaks or surrounding whitespace is reported as typed |
| EmailInput.DomainChars | src/components/ContactSection.tsx:143 | A valid domain is non-empty and made only of letters, digits, hyphens and dots |
| EmailInput.DomainStart | src/components/ContactSection.tsx:143 | A text starting with anything but a letter or digit is not a valid domain |
| EmailInput.ValidEmailAddress | src/components/ContactSection.tsx:143 | A valid address has at least three characters, starts with an `atext` character or a dot, and ends with a letter, digit, hyphen or dot |
| EmailInput.TypeMismatch | src/components/ContactSection.tsx:143 | The control is refused iff its value is non-empty and not a valid address, and in particular whenever a non-empty value has no `@` |
| EmailInput.ValidAddressShape | src/components/ContactSection.tsx:143 | A valid address has exactly one `@`, neither first nor last, and every character is `@`, `atext` or a dot |
| EmailInput.ValidAddressClean | src/components/ContactSection.tsx:143 | A valid address is reported unchanged by the sanitization |
| EmailInput.DoubleAtMismatch | src/components/ContactSection.tsx:143 | `a@@b` is a type mismatch |
| EmailInput.ShortAddressValid | src/components/ContactSection.tsx:143 | `a@b` is a valid address, so dotless domains pass |

## Left out

- Animation and styling are left out: motion props, class names and inline styles are purely visual.
- Intersection observers are left out; they only trigger reveal animations.
- The counter in `StatsSection.tsx` is left out. It uses floating-point increments and random particle positions.
- The static sections (`HeroSection.tsx`, `ServicesSection.tsx`, `ProcessSection.tsx`, `Footer.tsx`) and the provider wiring in `App.tsx` hold no logic beyond invoking callbacks. `HeroSection.tsx` binds only the contact callback, so no rendered element sends `Page.WorkClick`. The handler is modelled anyway.
- DOM effects are outputs: `scrollIntoView` and `window.scrollTo` become `Page.Effect` values, and the body style becomes `Page.Overflow`.
- Page.RefFor: assumes every section wrapper is mounted. The `current` null check only matters before the first render.
- The overflow reset performed by the effect cleanup when the page unmounts is left out.
- Timer durations (8 s, 30 ms, 2 s, 5 s) are left out. So is the restart of the 8 s interval when the pause flag changes: every firing is an event, and there is no wall-clock reasoning. Whether manual navigation should restart the interval is left open, as in the code.
- Media elements (`play()`, `pause()`, the element's `muted` property and its `paused` check) are left out. The element state can drift from the record's flags, and browser media is not modelled.
- react-hook-form internals are left out. Errors are recomputed only on submit, and revalidation on change after a failed submit is not modelled.
- Contact.SubmissionsNeverShowPatternMessage: speaks of submissions only. After a submission the library re-validates a field on each change, so "Invalid email address" can still appear while an email is being typed. That re-validation is left out, as the line above says.
- The browser's own validation message and the focus it moves to the email field are left out. A refused submission is modelled as a step that changes nothing.
- EmailInput.ValidEmailAddress: checks the sanitized value character by character. Browsers that convert an internationalised domain to its ASCII form before checking are not modelled, so such a value counts as a type mismatch.
- Contact.Reported: reports the textarea's text as typed. The browser turns each CR LF pair and each lone CR of a textarea into LF. That does not change whether the message is empty, which is all the form checks of it.
- The fields other than email carry no HTML constraint. The form library registers them without a `required` attribute, so the browser checks only the email.
- Contact.Validate: treats any non-empty value as satisfying `required`. How the library treats whitespace-only values is its own decision, and no lemma here relies on it.
- The data written to the console on submission is left out.
- Testimonials.TypeStep: counts characters where JavaScript's `length` and `slice` count UTF-16 code units. Every quote on the page is ASCII, so the two agree there.
- Testimonials.TypeStep: treats the two effects that run when the text changes as one atomic reset.
- Navigation.LowerChar: lower-cases ASCII only, where `toLowerCase` is Unicode-aware. Every label is ASCII.
- Navigation.NavStep: does not check that a mobile entry is clicked only while the menu is open. Each mobile identifier is also reachable from the desktop bar, so this changes no outcome.
- The scroll offset is a `real`, as the browser reports fractional offsets.
- Testimonials.Step: takes the list length as a parameter. The page always passes four, and `SlideAlwaysDefined` instantiates it with `SlideCount`, which `EntryFacts` ties to the list.
