# ISVRA-WEB contact form and navigation, in Dafny

This project models the logic of the ISVRA Tech site's `script.js` and
proves properties of it:

- **Contact-form validator** (`validateForm`, `isValidEmail`). Five independent
  rules run over the values of the name, e-mail, service, timeline and
  message controls, and none is skipped. Name, e-mail and message are
  trimmed first.
- **Error annotations** (`clearErrorMessages`, `showError`). A validation
  first removes every `.error-message` element and every red border. It then
  adds one annotation and one red border for each failing field, in the
  order the rules run.
- **Form lifecycle** (the submit handler of `initContactForm`, `submitForm`).
  A submit that passes validation hides the form and shows the success
  message. It also schedules a reset, which empties the controls, shows the
  form again and hides the success message. The reset timer is never
  cancelled.
- **Active navigation link** (`updateActiveNavLink`). The current page is the
  text after the last `/` of the path, or `index.html` when that text is
  empty. A link is active exactly when its `href` is that page.
- **Hamburger menu** (`initNavigation`). The `active` flags of the button
  and of the menu flip together on a button click. A click on any
  navigation link clears both.

The files:

- `js_strings.dfy` (module `JsStrings`) models the JavaScript string
  behaviour the script relies on:
  - the ECMAScript white-space set, shared by `trim` and the regular-expression
    class `\s`;
  - `String.prototype.trim`;
  - `.length`, which counts UTF-16 code units;
  - `split` with a one-character separator, and `pop` of its result.
- `email.dfy` (module `Email`) states what the regular expression
  `^[^\s@]+@[^\s@]+\.[^\s@]+$` matches. It proves this equal to a plain
  predicate: no white space, exactly one `@`, text before it, and a dot with
  text on both sides after it.
- `validation.dfy` (module `Validation`) holds the rules, their verdicts, and
  the annotation list and border set that one validation leaves.
- `contact_form.dfy` (module `ContactForm`) holds the class `ContactForm`:
  the control values, the annotations, the red borders, the visibility of
  the form and of the success message, and the number of pending resets. Its
  methods follow `clearErrorMessages`, `showError`, `validateForm`, the
  submit handler, `submitForm` and the timer callback. Beside it, the pure
  `Screen` state machine carries the lifecycle lemmas.
- `navigation.dfy` (module `Navigation`) holds `CurrentPage` and the class
  `NavBar`. `NavBar` has the links' `active` flags and the two menu flags,
  and its methods follow `updateActiveNavLink` and the two click handlers.
  Beside it, the pure `MenuFlags` transitions carry the lemmas.

Some things the model makes precise:

- The script measures `.length` of the trimmed value. That counts UTF-16
  code units, so a character outside the Basic Multilingual Plane counts
  twice, and a name of one such character (most emoji, for example) passes
  the "at least 2" rule.
- `getAttribute('href')` can return `null`, so each link's `href` is an
  `Option`.
- Without `#hamburger` the button has no click handler at all, and a link
  click throws a `TypeError` before it changes anything. Without `#navMenu`
  both handlers throw after updating the button's flag. The model keeps the
  flags as the handler leaves them and reports the throw.
- In `updateActiveNavLink` the second half of the test,
  `currentPage === '' && href === 'index.html'`, can never hold, because the
  `|| 'index.html'` default already replaces an empty page;
  `Navigation.ActiveTestIsEquality` proves this. The method keeps the test
  as written.
- The comment above the reset timer says "3 seconds", but the code waits
  5000 ms. The model has no time: a scheduled reset is a pending event that
  fires later.

## Model

| member | source | states |
|---|---|---|
| JsStrings.IsWhitespace | script.js:155-159 | the white space `trim` removes and `\s` matches: ECMAScript's WhiteSpace and LineTerminator characters |
| JsStrings.Trim | script.js:155-159 | `.trim()` splits its argument into leading white space, the result, and trailing white space; the result neither starts nor ends with white space |
| JsStrings.TrimIdempotent | script.js:155-159 | trimming a trimmed value changes nothing |
| JsStrings.Utf16Length | script.js:168 | `.length` counts UTF-16 code units: at least one and at most two per character |
| JsStrings.TrimmedLengthOfPlain | script.js:168 | a value with nothing to trim, inside the Basic Multilingual Plane, has a trimmed `.length` equal to its number of characters |
| JsStrings.Split | script.js:72 | `split('/')` yields at least one piece, and no piece contains `/` |
| JsStrings.Last | script.js:72 | `.pop()` of the pieces: the last one |
| JsStrings.JoinSplit | script.js:72 | `split('/')` loses nothing: joining the pieces with `/` gives back the path |
| JsStrings.LastPieceIsFinalSegment | script.js:72 | `split('/').pop()` is a `/`-free suffix of the path that is either the whole path or preceded by a `/` |
| JsStrings.LastPieceEmpty | script.js:72 | the popped piece is empty exactly when the path is empty or ends in `/` |
| Email.IsValidEmail | script.js:203-206 | `isValidEmail` as a plain predicate: no white space, one `@` with text before it, and a dot after it with text on both sides (its meaning is proved in the next row) |
| Email.MatchesEmailRegex | script.js:204 | the language of `^[^\s@]+@[^\s@]+\.[^\s@]+$`: a run without white space or `@`, then `@`, a run, `.`, and a run |
| Email.IsValidEmailIffRegex | script.js:203-206 | the regular expression accepts a string exactly when it has no white space, one `@`, text before it, and a dot after it with text on both sides |
| Email.AcceptsSimpleAddress | script.js:204-205 | `"a@b.co"` is accepted |
| Email.RejectsDomainWithoutDot | script.js:204-205 | `"a@b"` is rejected |
| Email.RejectsAddressWithoutAt | script.js:204-205 | `"a.b.com"` is rejected |
| Validation.NameFails | script.js:168 | the name rule fails when the trimmed name is shorter than 2 UTF-16 code units |
| Validation.EmailFails | script.js:174 | the e-mail rule fails when the trimmed value is not accepted by `isValidEmail` |
| Validation.ServiceFails | script.js:180 | the service rule fails when no service is chosen (empty value) |
| Validation.TimelineFails | script.js:186 | the timeline rule fails when no timeline is chosen (empty value) |
| Validation.MessageFails | script.js:192 | the message rule fails when the trimmed message is shorter than 10 UTF-16 code units |
| Validation.AllRulesPass | script.js:165-197 | the `isValid` result: all five conditions of `validateForm`, written out |
| Validation.Check | script.js:167-195 | runs all five rules, none skipped because an earlier one failed |
| Validation.ErrorText | script.js:169-193 | the five fixed texts shown under a failing field |
| Validation.FailedRules | script.js:168-195 | the red-border set one validation leaves: the fields whose rule failed |
| Validation.Annotations | script.js:167-195 | the annotation list one validation leaves: each failing field with its fixed text, in rule order |
| Validation.EmailWithoutAtFails | script.js:174 | any value without `@` fails the e-mail rule, whatever white space surrounds it |
| Validation.ValidIffNoFailures | script.js:165-197 | `validateForm`'s conditions (trimmed name length ≥ 2, trimmed e-mail valid, service and timeline chosen, trimmed message length ≥ 10) all hold exactly when no field is annotated |
| Validation.FailingFieldsExact | script.js:167-195 | a field is annotated exactly when its rule fails, whatever the other rules decide |
| Validation.FailingFieldsInRuleOrder | script.js:167-195 | the annotated fields come in the order name, e-mail, service, timeline, message, and none twice |
| Validation.AnnotationsExact | script.js:167-195 | each annotation is a failing field with that field's fixed message, and every failing field has one |
| Validation.AnnotationsDistinct | script.js:163-195 | no field carries two annotations after a validation |
| Validation.AnnotationsInSteps | script.js:165-195 | the annotations are what the five rules, run one after the other, append to an empty list |
| Validation.FailedRulesInSteps | script.js:168-195 | the red borders are what the five rules, run one after the other, add to an empty set |
| Validation.MixedExampleVerdicts | script.js:155-195 | name "A", e-mail "bad", no service, timeline "Web", message "short": every rule but the timeline rule fails |
| Validation.MixedExample | script.js:165-195 | with those verdicts exactly name, e-mail, service and message are annotated, in that order |
| Validation.MixedExampleFields | script.js:155-195 | the same example, stated on the field values |
| ContactForm.ContactForm.EditFields | script.js:155-159 | the visitor's edits: the control values that the next validation reads |
| ContactForm.ContactForm.ClearErrorMessages | script.js:226-233 | every annotation is removed and no control keeps a red border |
| ContactForm.ContactForm.ShowError | script.js:211-221 | one annotation with the given text is appended under the field, and the field's border becomes red |
| ContactForm.ContactForm.ValidateForm | script.js:153-198 | returns true exactly when every rule passes; afterwards the annotations are exactly those of the failing fields, in rule order, and the red borders exactly the failing fields, whatever was there before |
| ContactForm.ValidateTwice | script.js:163 | validating the same values twice leaves the same annotations, none duplicated, and the red borders of the failing fields |
| ContactForm.ContactForm.SubmitForm | script.js:240-264 | the form is hidden, the success message is shown when the page has one, and one more reset is pending |
| ContactForm.ContactForm.Submit | script.js:129-143 | the handler submits exactly when validation passes; otherwise only the annotations and the red borders change; a submit from the visible form keeps the screen consistent with the pending resets |
| ContactForm.ContactForm.ResetFires | script.js:258-264 | a firing reset empties the controls, shows the form, hides the success message and leaves the annotations alone; from a consistent screen it returns to the idle page |
| ContactForm.AfterSubmitForm | script.js:248-258 | the screen after `submitForm`: the form hidden, the success message shown when the page has one, one more reset pending (its properties are in the lemmas below) |
| ContactForm.AfterResetFires | script.js:258-264 | the screen after a reset fires: the form shown, the success message hidden when the page has one, one reset fewer pending |
| ContactForm.SubmitThenResetIsIdle | script.js:240-264 | a submit from the idle page followed by its reset returns to the idle page |
| ContactForm.SubmitKeepsConsistent | script.js:249-257 | a submit from the visible form leaves exactly one reset pending, with the form hidden and the success message shown when the page has one |
| ContactForm.ResetKeepsConsistent | script.js:258-264 | from such a state the reset returns to the idle page |
| ContactForm.DoubleSubmitShowsFormEarly | script.js:257-264 | two submits leave two resets pending, and the first reset shows the form while the second is still pending |
| ContactForm.SubmittedFormIsClean | script.js:133-142 | a submit that goes through happens with no annotation and no red border |
| Navigation.CurrentPage | script.js:72 | the current page is never empty and holds no `/` |
| Navigation.CurrentPageSpec | script.js:72 | the `index.html` default applies for an empty path or one ending in `/`; otherwise the page is the text after the path's last `/` |
| Navigation.ActiveTestIsEquality | script.js:76 | the test in `updateActiveNavLink` holds exactly when the `href` equals the current page |
| Navigation.PageOfRoot | script.js:72 | the path `/` gives `index.html` |
| Navigation.PageOfFile | script.js:72 | the path `/services.html` gives `services.html` |
| Navigation.NavBar.UpdateActiveNavLink | script.js:70-82 | afterwards a link is active exactly when its `href` is the current page, and every other link is inactive |
| Navigation.HamburgerClick | script.js:34-39 | a button click flips the button flag and, when the menu exists, the menu flag; without the button nothing changes |
| Navigation.NavLinkClick | script.js:42-47 | a link click clears the button flag and then the menu flag, as far as the handler gets before a missing element stops it |
| Navigation.HamburgerTwiceRestores | script.js:35-38 | two button clicks restore both flags |
| Navigation.FlagsStayEqual | script.js:35-46 | with both elements present, equal flags stay equal through a button click, and a link click sets both to false |
| Navigation.MissingMenuSeparatesFlags | script.js:36-37 | from equal flags, a button click without the menu element leaves them different |
| Navigation.NavBar.ClickHamburger | script.js:34-39 | the flags follow `HamburgerClick`; the handler throws exactly when the button exists and the menu does not |
| Navigation.NavBar.ClickNavLink | script.js:42-47 | the flags follow `NavLinkClick`; the handler throws exactly when either element is missing |

## Left out

- `FormData` and `Object.fromEntries` (script.js:138-139) and the `console.log` that stands in for sending (script.js:246) are left out: they are library calls that carry no decision.
- `scrollIntoView` (script.js:254) and the smooth-scroll code are left out: browser scrolling changes no modelled state.
- The 5000 ms delay is left out: a scheduled reset is a pending event, and the model does not say when it fires.
- ContactForm.ContactForm.ResetFires: `form.reset()` restores each control's default value from the markup. The markup is not part of this model, so the defaults are taken to be empty strings.
- The constructors of `ContactForm` and `NavBar` take a starting state that depends on the markup, which is not part of this model. They assume that at load the success message is hidden and no `.error-message` element exists. They also assume that no link, and neither the hamburger button nor the menu, has the `active` class. The idle page of `ContactForm.SubmitThenResetIsIdle` rests on the first of these.
- JsStrings.IsWhitespace: the white-space set is the one that ECMAScript's WhiteSpace and LineTerminator productions give under Unicode 15. A browser built on another Unicode version may differ in the space separators.
- Strings are sequences of Unicode scalar values. A JavaScript string can also hold a lone surrogate, which `.length` counts as 1 and `[^\s@]` matches; the model cannot represent such a value. Its verdicts on every value it can represent are unaffected.
- The model assumes that the controls `#name`, `#email`, `#service`, `#timeline` and `#message` all exist. Without one of them, reading `.value` (script.js:155-159) or `field.parentElement` (script.js:219) throws a `TypeError` and the submit handler stops; that path is not modelled, unlike the missing elements of the navigation bar.
- The annotations are kept in the order `showError` adds them. In the page each message goes under its own field (script.js:219), so this is document order only when the markup places the five controls in rule order; the markup is not part of this model.
- The styling details of `showError` (colour, font size, margin) are left out: only the annotation's field and text, and the red border, are modelled.
- `handleNavbarScroll` is left out: it compares a floating-point `scrollY` with 50.
- The `IntersectionObserver` set-up is left out: its callback does nothing.
- `debounce` and `throttle` are left out: they are never called.
- Lazy image loading, font preloading and focus styling are left out: they are DOM and network wiring.
- `savePreference` and `loadPreference` are left out: they depend on `localStorage` and JSON parsing.
- Analytics logging and the global error handlers are left out: they only write to the console.
- The listener registration on `DOMContentLoaded` and `scroll` is left out. The model offers each handler as a method that the caller invokes, in any order.
