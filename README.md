# Page interaction controller of a static marketing page, modelled in Dafny

The page's script (`script.js`) wires event listeners onto a one-page site:
in-page navigation links with an active-link highlight, a mobile hamburger
menu, a navbar that changes style on scroll, a scroll-to-top button,
one-shot fade-in reveals, lazily loaded images, a typing effect on the hero
slogan, and a contact form with inline validation and a loading state on
its submit button. This project lifts the decision rules and small state
machines out of those listeners and models them over plain values, with no
document, timers or browser:

- `Text` — the whitespace set shared by `String.prototype.trim` and the
  regular-expression class `\s`, and trimming itself.
- `Validation` — `validateField` as a pure function from (required flag, `type`
  attribute, raw value) to pass or fail-with-message. The e-mail and phone
  regular expressions are hand-written character-class predicates, and each is
  proved equal, in both directions, to a predicate that reads the regular
  expression literally.
- `FieldErrors` — the field's `error` class and the ordered children of its
  parent. Showing an error finds or creates the first `.error-message` child.
  Clearing removes that child. The blur and input listeners are included.
- `Navigation` — the link-click scroll target (`offsetTop - navHeight`), the
  choice of the current section, the `active` flags of the links, and the two
  scroll thresholds (navbar `scrolled` above 100, button `visible` above 300).
- `MobileMenu` — the menu state (hamburger class, menu class,
  `aria-expanded`). Its events are a pure step function, and a class's
  listener methods are proved against it.
- `Timing` — `throttle` and `debounce` as classes over an explicit clock.
  Timer callbacks are explicit events.
- `TypingEffect`, `SubmitButton`, `Observers` — the typing effect's timer
  chain, the submit button's loading state and its restore timers, and the
  reveal and lazy-load observer callbacks.

Four behaviours of the code are easy to misread:

- A passing blur removes only the field's `error` class. An error message left
  by an earlier failure stays in place (`FieldErrors.OnBlur`). Only the `input`
  listener removes it.
- `aria-expanded` is flipped by hamburger clicks only. The closing paths
  (outside click, wide resize, link click) clear the two classes but leave the
  attribute alone, so after "open, then click outside" the attribute says
  "true" while the menu is closed (`MobileMenu.AriaDriftsAfterOutsideClick`).
- After a scroll tick, every link whose `href` is `#` followed by the current
  id is active, not "exactly one link". With no current section, only a link
  whose `href` is a bare `#` is active.
- A second submit within 3000 ms captures the spinner label as the "original".
  Once both timers have fired, the button is enabled but still shows the
  spinner (`SubmitButton.DoubleSubmitLosesLabel`).

## Model

| member | source | states |
|---|---|---|
| `Text.TrimStart` | script.js:195 | the result is a suffix of the value, everything dropped is whitespace, and it does not start with whitespace |
| `Text.TrimEnd` | script.js:195 | the result is a prefix of the value, everything dropped is whitespace, and it does not end with whitespace |
| `Text.TrimIsSlice` | script.js:195 | the trimmed value is a slice `s[i..j]` of the raw value with only whitespace before and after it |
| `Text.Trim` | script.js:195 | `trim()`: never longer than the value, and a non-empty result neither starts nor ends with whitespace |
| `Text.TrimOfTrimmed` | script.js:195 | a value without outer whitespace is its own trim |
| `Text.TrimEmptyIffAllWhitespace` | script.js:195 | the trimmed value is empty exactly when the raw value is all whitespace (the `!value` test of line 201) |
| `Text.TrimIdempotent` | script.js:195 | trimming twice equals trimming once |
| `Validation.IndexOf` | script.js:208 | the position of the first occurrence of a character, or the length when there is none |
| `Validation.CountOne` | script.js:208 | a character found at `a` occurs exactly once iff it occurs at no other position |
| `Validation.EmailRuleSound` | script.js:208-209 | a value with no whitespace, one `@`, a non-empty local part and a domain with an inner dot matches `/^[^\s@]+@[^\s@]+\.[^\s@]+$/` |
| `Validation.EmailRuleComplete` | script.js:208-209 | every value the e-mail expression matches (three non-empty `[^\s@]` runs around `@` and `.`) satisfies the stated rule |
| `Validation.EmailRuleMatchesRegex` | script.js:207-213 | the e-mail rule and the literal reading of the expression accept the same values, both directions |
| `Validation.PhoneRuleMatchesRegex` | script.js:216-222 | a value passes `/^[\+]?[0-9\s\-\(\)]{10,}$/` iff, after one optional leading `+`, it has at least ten characters, each a digit, whitespace, `-`, `(` or `)` |
| `Validation.ValidateField` | script.js:193-225 | the required message is given iff the field is required and its trimmed value is empty; the e-mail message only to an `email` field whose non-empty trimmed value breaks the e-mail rule, the phone message only to a `tel` field whose non-empty trimmed value breaks the phone rule; no other message is ever given |
| `Validation.RequiredCheckedFirst` | script.js:201-204 | a required field fails with "This field is required" iff its raw value is all whitespace, whatever its type |
| `Validation.BlankOptionalPasses` | script.js:200-224 | a blank field that is not required passes, whatever its type |
| `Validation.OtherTypesOnlyRequired` | script.js:200-224 | a field whose type is neither `email` nor `tel` fails only the required check |
| `Validation.EmailFieldVerdict` | script.js:193-225 | an `email` field passes iff it is blank and optional or its trimmed value matches the e-mail expression; on failure the message is the required one for a blank value and the e-mail one otherwise |
| `Validation.PhoneFieldVerdict` | script.js:193-225 | a `tel` field passes iff it is blank and optional or its trimmed value matches the phone expression; on failure the message is the required one for a blank value and the phone one otherwise |
| `Validation.VerdictIgnoresSurroundingWhitespace` | script.js:195 | validating the trimmed value gives the same verdict as validating the raw value |
| `Validation.ExampleEmailPasses` | script.js:207-213 | "user@example.com" passes |
| `Validation.ExampleEmailWithoutDomainFails` | script.js:207-213 | "user@" fails with "Please enter a valid email address" |
| `Validation.ExampleShortPhoneFails` | script.js:216-222 | "123" fails with "Please enter a valid phone number" |
| `Validation.ExamplePhonePasses` | script.js:216-222 | "+1 (555) 123-4567" passes |
| `Validation.ExampleTenHyphensPass` | script.js:217 | no digit is needed: ten hyphens pass |
| `FieldErrors.FirstErrorMessage` | script.js:232 | `querySelector('.error-message')` returns the first error-message child, or none when there is none |
| `FieldErrors.WithErrorMessage` | script.js:232-238 | after showing, the children hold an error message with the new text, and at most one child was added |
| `FieldErrors.WithoutErrorMessage` | script.js:246-249 | clearing only removes children, and changes nothing exactly when there is no error message |
| `FieldErrors.ShowPosition` | script.js:232-238 | after showing, the first error message is at the old one's position, or appended, and carries the new text |
| `FieldErrors.ShowAppends` | script.js:233-237 | with no message present, showing adds exactly one and leaves the other children alone |
| `FieldErrors.ShowOverwrites` | script.js:238 | with a message present, showing adds none and leaves the other children alone |
| `FieldErrors.ShowFindsOrCreates` | script.js:228-239 | showing leaves one message when there was none and the same number otherwise, so repeated failures never add a second one |
| `FieldErrors.ClearRemovesFirst` | script.js:246-249 | clearing removes exactly one message when there is one and leaves the other children alone |
| `FieldErrors.ShowTwiceShowsLast` | script.js:228-239 | showing twice equals showing the second message once |
| `FieldErrors.ClearUndoesShow` | script.js:228-250 | on a parent without a message, clearing after showing restores the children |
| `FieldErrors.ShowFieldError` | script.js:228-239 | sets the field's `error` flag and rewrites the parent's children by find-or-create |
| `FieldErrors.ClearFieldError` | script.js:242-250 | clears the flag and removes the parent's first message |
| `FieldErrors.OnBlur` | script.js:193-225 | returns whether the field passes. The flag ends up set iff it fails. A failure shows the verdict's message, and a pass leaves the children as they were |
| `MobileMenu.Step` | script.js:93-112 | `aria-expanded` flips exactly on a hamburger click; a closing event clears both classes; any other event changes nothing |
| `MobileMenu.Run` | script.js:93-112 | a sequence of events none of which toggles or closes leaves the state unchanged |
| `MobileMenu.HamburgerToggles` | script.js:93-96 | a hamburger click toggles both classes and `aria-expanded`, and two clicks cancel out |
| `MobileMenu.ClosingEvents` | script.js:99-112 | outside clicks and resizes wider than 768, and link clicks with a target, clear both classes and nothing else. The same kinds of event otherwise change nothing, and a repeat changes nothing more |
| `MobileMenu.ClassesStayInStep` | script.js:93-112 | the two classes stay equal under any events when they start equal |
| `MobileMenu.AriaCountsHamburgerClicks` | script.js:436-439 | after any events, `aria-expanded` is its start value flipped once per hamburger click |
| `MobileMenu.AriaTracksMenuWithoutClosing` | script.js:93-96 | if no closing event happens, `aria-expanded` keeps agreeing with the menu class when it starts agreeing |
| `MobileMenu.AriaDriftsAfterOutsideClick` | script.js:99-104 | open then click outside: classes clear while `aria-expanded` stays "true" |
| `MobileMenu.Menu.constructor` | script.js:434 | setup state: nothing active, `aria-expanded` "false" |
| `MobileMenu.Menu.OnHamburgerClick` | script.js:93-96 | state is the hamburger step of the old state (both listeners) |
| `MobileMenu.Menu.Close` | script.js:45-46 | clears both classes, leaves `aria-expanded` |
| `MobileMenu.Menu.OnDocumentClick` | script.js:99-104 | state is the document-click step of the old state |
| `MobileMenu.Menu.OnResize` | script.js:107-112 | state is the resize step of the old state |
| `Navigation.FindTarget` | script.js:32-35 | a target is found only for an `href` that is `#` and a CSS identifier, and it is the first element with that id; otherwise no element has that id or the `href` is no id selector |
| `Navigation.DigitLeadingHrefFindsNothing` | script.js:33 | `#1a` is no id selector, so no element is found even if one has id `1a` |
| `Navigation.ClickScrollTarget` | script.js:33-37 | a scroll target exists only for an id selector naming an element, and it is that element's `offsetTop` less the navbar height |
| `Navigation.ClickAlignsTargetBelowNavbar` | script.js:36-37 | a click has a scroll target iff the section exists, and scrolling there puts its top `navHeight` below the viewport top |
| `Navigation.OnNavLinkClick` | script.js:30-47 | returns the scroll target and closes the menu iff the section exists |
| `Navigation.CurrentSection` | script.js:74-81 | a non-empty current id is the id of a section whose shifted span holds `scrollY` |
| `Navigation.CurrentIsLastMatch` | script.js:74-81 | the current id is that of the last section whose shifted span holds `scrollY` |
| `Navigation.CurrentEmptyWithoutMatch` | script.js:72-81 | with no matching section, the current id is "" |
| `Navigation.FindCurrentSection` | script.js:70-81 | the loop computes the current section id |
| `Navigation.UpdateActiveNavLink` | script.js:69-88 | each link is active iff its href is `#` followed by the current id |
| `Navigation.ScrollIndicators.HandleNavbarScroll` | script.js:60-66 | the navbar is `scrolled` iff `scrollY > 100` |
| `Navigation.ScrollIndicators.HandleScrollToTopButton` | script.js:126-132 | the button is `visible` iff `scrollY > 300` |
| `Navigation.OnScroll` | script.js:52-56 | one tick sets both classes and the link flags, and a visible button implies a scrolled navbar |
| `Timing.Throttle.constructor` | script.js:254 | the throttle flag starts clear |
| `Timing.Throttle.Call` | script.js:255-263 | `func` runs iff the flag was clear, and running sets the flag and schedules a reset `limit` later. Its invariant keeps successive runs at least `limit` apart |
| `Timing.Throttle.FireReset` | script.js:261 | the reset clears the flag and runs nothing |
| `Timing.Debouncer.constructor` | script.js:266-267 | no timer is pending at setup |
| `Timing.Debouncer.Call` | script.js:268-279 | a call replaces the pending timer with one due `wait` later carrying its arguments. With `immediate` and no pending timer, `func` runs at once |
| `Timing.Debouncer.Fire` | script.js:271-274 | the timer fires at least `wait` after the latest call and empties the slot. Without `immediate`, `func` runs with the latest call's arguments |
| `TypingEffect.Typewriter.constructor` | script.js:329-331 | setup: slogan cleared, caret shown, first tick due at 1000 ms |
| `TypingEffect.Typewriter.Fire` | script.js:334-344 | a tick run at `t` appends the next character and schedules the next tick at `t + 50`, or schedules the caret's removal at `t + 1000`. The invariant: after k ticks the slogan shows the first k characters, and every pending callback is due on the schedule 1000 + 50·k (caret: 1000 + 50·length + 1000) shifted by how late the earlier callbacks ran |
| `TypingEffect.OnTimeSchedule` | script.js:333-346 | with every callback on time, "ab" is typed at 1000 and 1050, the final check is at 1100, and the caret goes at 2100 |
| `TypingEffect.LateTickShiftsSchedule` | script.js:338 | a first tick run at 1200 instead of 1000 makes the second one due at 1250 |
| `TypingEffect.EmptySlogan` | script.js:333-346 | with an empty text the first tick types nothing and the caret is due to go at 2000 ms |
| `SubmitButton.Button.constructor` | script.js:170-171 | the button starts enabled with its own label and no restore pending |
| `SubmitButton.Button.OnSubmit` | script.js:168-175 | shows the spinner label, disables the button, and queues a restore due 3000 ms later with the label captured now |
| `SubmitButton.Button.FireRestore` | script.js:177-180 | the earliest restore writes back its captured label and enables the button |
| `SubmitButton.SubmitThenRestore` | script.js:168-181 | one submit: 3000 ms later the original label is back and the button enabled |
| `SubmitButton.DoubleSubmitLosesLabel` | script.js:168-181 | two submits within 3000 ms leave the button enabled but showing the spinner label |
| `Observers.IntersectingTargetsExact` | script.js:143 | the listed targets are exactly those of intersecting entries |
| `Observers.RevealObserver.constructor` | script.js:157-160 | every animated element is observed |
| `Observers.RevealObserver.OnEntries` | script.js:141-153 | each intersecting target is scheduled for reveal (never scheduled before) and unobserved, and other state is unchanged |
| `Observers.RevealObserver.FireReveal` | script.js:147-149 | a reveal timer adds its element to the visible set |
| `Observers.LazyLoader.constructor` | script.js:304 | every `img[data-src]` is observed |
| `Observers.LazyLoader.OnEntries` | script.js:293-302 | each intersecting image gets `src := data-src` and loses `lazy`, and is unobserved. Every other image is unchanged |

## Left out

- DOM lookup and listener registration (the `DOMContentLoaded` and `load` blocks, `getElementById`, `querySelectorAll`): element handles are plain records, objects or numbers passed in.
- Navigation.FindTarget: an `href` finds a target only when it is `#` followed by a CSS identifier without escapes. For any other `#...` value, such as a bare `#`, `#1a` or `#-1`, `querySelector` throws inside the handler after `preventDefault`, so nothing scrolls and the menu stays as it was; the model gives no target, with the same effect. Compound selectors such as `#a.b` (id `a` with class `b`), escaped identifiers and surrounding whitespace, which `querySelector` accepts, are not modelled: they also find no target here.
- `querySelector('.error-message')` is searched among the parent's direct children rather than all its descendants.
- Browser geometry: `offsetTop`, `offsetHeight`, `scrollY` and `innerWidth` are whole numbers here. A fractional `scrollY` is not modelled.
- Smooth `window.scrollTo`, both for links and for the scroll-to-top button: the model only returns the target offset.
- The intersection observers' threshold and root margin: "entry is intersecting" is an input. The model assumes the browser reports entries only for observed elements at the start of a callback.
- The `data-delay` read and its string coercion: reveal timers fire in any order the model's caller chooses.
- Parallax (`scrolled * 0.5` in a transform string), hover transforms, hero stagger styles, the injected error CSS and the skip link's inline styles: cosmetic, no decisions.
- Focus trapping in the mobile menu: it depends on the browser's focus API and `:last-child` matching.
- `trackEvent` and the tracking listeners: a `console.log`.
- Real timers: time is an explicit clock, and every timer callback is an explicit event that fires at or after its due time; each callback's own delays count from when it ran.
- MobileMenu.Step: the hamburger and the nav links are taken to sit inside `#navbar`, so their clicks reach the document listener (script.js:99-104) as inside clicks and never close the menu again. The page markup that places them is not part of this model; were the hamburger outside the navbar, its click would open the menu and the same click would close it at once.
- Throttling is not modelled as bounding scroll work, because an unthrottled scroll listener calls the same three functions.
- Characters are Unicode scalar values. UTF-16 surrogate halves, which `charAt` can split, are not modelled.
- `debounce` is modelled although no listener uses it.
