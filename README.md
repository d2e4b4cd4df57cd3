# Event registration form: validation and error state

This project models the core of the `EventRegistration` controller in
`script.js`. It covers the three field validators (`validateName`,
`validateEmail`, `validateEvent`) and the per-field error slots that
`showError`, `clearError` and `clearAllErrors` update. It also covers the
submit gate of `handleSubmit` and the flag sequence of `submitForm`, which
turns loading on, hides the form, shows the success message and turns
loading off.

The model has four modules:

- `Text` (text.dfy) holds the JavaScript string semantics the validators
  rely on:
  - the ECMAScript whitespace set, which `trim()` strips and `\s` matches;
  - `String.prototype.trim`, specified by the uniqueness lemma `TrimPadded`;
  - the UTF-16 length that `.length` reports.
- `Validators` (validators.dfy) gives each validator as a pure function from
  the field's value to `Pass` or to the first check that failed. Each
  outcome is characterised in terms of the raw input. The e-mail regular
  expression is stated as an existential over the positions of `@` and `.`.
  It is proved equivalent to a direct decision procedure.
- `Registration` (registration.dfy) holds the controller as a class.
  - Its fields are the error slot of every input, the `loading` class of the
    submit button, the form's hidden state and the success message's `show`
    class.
  - Its methods update these fields in place.
  - Each method is proved against a pure description of the new state.
- `Scenarios` (scenarios.dfy) states what the validators return on concrete
  inputs and on families of inputs.

The validators read the inputs' current values from the page. In the model
those values are parameters instead: a `FormValues` record for
`HandleSubmit`, and one string per validator.

## Model

| member | source | states |
|---|---|---|
| Text.IsWhitespace | script.js:44 | a character is whitespace exactly when it lies in one of the ranges of `WhitespaceRanges`, the ECMAScript WhiteSpace and LineTerminator set that `trim()` strips and that `\s` matches (also used at script.js:58 and 77) |
| Text.IsAsciiLetter | script.js:58 | the class `[a-zA-Z]` of the name pattern |
| Text.LetterIsNotWhitespace | script.js:58 | the classes `[a-zA-Z]` and `\s` of the name pattern are disjoint |
| Text.SpaceIsWhitespace | script.js:44 | the space character is stripped by `trim()` and matched by `\s` |
| Text.AllWhitespaceSplit | script.js:44 | a concatenation is all whitespace exactly when each part is |
| Text.SkipLeading | script.js:44 | returns the first non-whitespace position at or after `i`; everything skipped is whitespace |
| Text.SkipTrailing | script.js:44 | returns the start of the longest all-whitespace suffix of `s[lo..j]` |
| Text.Trim | script.js:44 | the trimmed value is no longer than the input, starts and ends with non-whitespace, and is empty exactly when the input is all whitespace |
| Text.TrimPadded | script.js:44 | trimming `pre + mid + post` with whitespace padding and a non-whitespace-bounded `mid` gives exactly `mid`, which fixes `trim()` on every input |
| Text.TrimStripsPadding | script.js:44 | the input is the trimmed value with an all-whitespace prefix and suffix around it, so trimming removes padding and nothing else |
| Text.TrimIdempotent | script.js:44 | trimming a trimmed value changes nothing |
| Text.Utf16Length | script.js:53 | the length is between the character count and twice it, and equals the character count exactly when no character is above U+FFFF |
| Validators.FieldOf | script.js:49-93 | name failures belong to the name field, e-mail failures to the e-mail field, the rest to the event field |
| Validators.Message | script.js:49-93 | the six error texts, one per `showError` call site, none of them empty |
| Validators.MessageInjective | script.js:49-93 | the six error messages are pairwise distinct, so the text tells which check failed |
| Validators.MatchesNamePattern | script.js:58 | the regular expression `^[a-zA-Z\s]+$`: a non-empty string of letters and whitespace |
| Validators.NameCharsAreSingleUnits | script.js:53-58 | a string of letters and whitespace has as many UTF-16 units as characters |
| Validators.WhitespaceIsSingleUnit | script.js:58 | every whitespace character lies in the Basic Multilingual Plane |
| Validators.CheckName | script.js:43-65 | `validateName` yields a pass or one of its three name failures |
| Validators.CheckNameSpec | script.js:43-65 | "required" exactly when the input is all whitespace; "too short" exactly when one BMP character remains after trimming; a pass exactly when at least two characters remain and all are letters or whitespace; "invalid characters" exactly when the trimmed value is at least two UTF-16 units long and holds a character that is neither |
| Validators.IsEmailChar | script.js:77 | the class `[^\s@]`: neither whitespace nor `@` |
| Validators.MatchesEmailPattern | script.js:77 | the reference definition of `^[^\s@]+@[^\s@]+\.[^\s@]+$`: some `@` and a later `.` split the value into three non-empty runs of `[^\s@]` |
| Validators.EmailShape | script.js:77-78 | the decision procedure used for the test: the part before the first `@` is a run of `[^\s@]`, and the rest is a run of `[^\s@]` with a `.` that is neither its first nor its last character |
| Validators.IndexOf | script.js:77 | returns the position of the first occurrence of `c`, or the length when there is none |
| Validators.DotIsEmailChar | script.js:77 | `.` matches `[^\s@]` |
| Validators.ShapeMatchesPattern | script.js:77-78 | every value the decision procedure accepts matches `^[^\s@]+@[^\s@]+\.[^\s@]+$` |
| Validators.PatternHasShape | script.js:77-78 | every split of a value into local part, `@`, domain, `.`, tld is accepted by the decision procedure |
| Validators.EmailShapeIsPattern | script.js:77-78 | the decision procedure accepts exactly what the regular expression matches |
| Validators.CheckEmail | script.js:67-85 | `validateEmail` yields a pass or one of its two e-mail failures |
| Validators.CheckEmailSpec | script.js:67-85 | "required" exactly when the input is all whitespace; a pass exactly when the trimmed value matches the regular expression; "invalid" exactly when neither holds |
| Validators.ThreePartEmailAccepted | script.js:67-85 | any `local@domain.tld` of three non-empty runs of `[^\s@]`, padded with any whitespace, is accepted |
| Validators.AcceptedEmailHasOneAt | script.js:77-81 | an accepted address contains exactly one `@` after trimming |
| Validators.CheckEvent | script.js:87-99 | `validateEvent` passes exactly when the untrimmed selected value is non-empty, and otherwise reports the event failure |
| Validators.Check | script.js:32-34 | a failure reported by a field's validator belongs to that field |
| Registration.ShowErrorIn | script.js:101-108 | `showError` marks the input, shows the error element with the given text, and leaves every other field's slot unchanged |
| Registration.ClearErrorIn | script.js:110-117 | `clearError` unmarks the input, hides the error element, empties its text, and leaves every other field's slot unchanged |
| Registration.ClearErrorIdempotent | script.js:101-117 | clearing twice is clearing once, and clearing undoes a preceding `showError` on the same field |
| Registration.ShowErrorReplaces | script.js:101-108 | a second `showError` on a field replaces the first message |
| Registration.UpdatesOfDistinctFieldsCommute | script.js:101-117 | showing one field's error and clearing another's commute |
| Registration.SlotFor | script.js:48-98 | a validator leaves its slot styled and shown together, shown exactly on a failure, with that failure's message as text |
| Registration.SlotDeterminesOutcome | script.js:48-98 | different outcomes leave different slots |
| Registration.Accepts | script.js:36 | the submit condition: the name, e-mail and event validators all pass |
| Registration.SubmitErrors | script.js:29-34 | after a submit attempt every field has a slot, namely the one its own validator leaves for its own value |
| Registration.SubmitGate | script.js:36-40 | the form is submitted exactly when the attempt leaves no error shown, and every failing field shows its error |
| Registration.EventRegistration.constructor | script.js:3-9 | a fresh page has every slot cleared, no loading state and the form visible |
| Registration.EventRegistration.CurrentPhase | script.js:134-147 | the form-level state read off the flags: succeeded once the success message is shown, submitting while loading, idle otherwise |
| Registration.EventRegistration.ShowError | script.js:101-108 | updates the error state as `ShowErrorIn` describes |
| Registration.EventRegistration.ClearError | script.js:110-117 | updates the error state as `ClearErrorIn` describes |
| Registration.EventRegistration.ClearAllErrors | script.js:119-122 | clearing the three fields in turn leaves every slot cleared |
| Registration.EventRegistration.Report | script.js:48-98 | clears the slot and returns true on a pass; shows the failure's message and returns false on a failure |
| Registration.EventRegistration.ValidateName | script.js:43-65 | returns whether the name passes and sets only the name slot as `SlotFor` describes |
| Registration.EventRegistration.ValidateEmail | script.js:67-85 | returns whether the e-mail passes and sets only the e-mail slot as `SlotFor` describes |
| Registration.EventRegistration.ValidateEvent | script.js:87-99 | returns whether the event passes and sets only the event slot as `SlotFor` describes |
| Registration.EventRegistration.HandleSubmit | script.js:25-41 | the error state afterwards is `SubmitErrors` of the values; an accepted form ends hidden, with the success message shown and loading off; a refused one leaves the form flags unchanged |
| Registration.EventRegistration.SubmitForm | script.js:134-147 | the form ends hidden, the success message shown and loading off |
| Registration.EventRegistration.BeginSubmission | script.js:135-136 | loading is on while the transport is pending |
| Registration.EventRegistration.CompleteSubmission | script.js:141-146 | once the transport resolves, the form is hidden, success is shown and loading is off |
| Scenarios.EmptyNameIsRequired | script.js:48-51 | an empty or all-space name is reported as required |
| Scenarios.SingleCharacterIsTooShort | script.js:53-56 | any single non-whitespace BMP character, letter or not and padded or not, is reported as too short, not as invalid |
| Scenarios.ShortNameExamples | script.js:53-56 | "A", "1" and "  A  " are too short |
| Scenarios.AstralCharacterIsInvalid | script.js:53-61 | a lone character above U+FFFF passes the length check and is refused for its characters |
| Scenarios.DigitInNameIsInvalid | script.js:58-61 | "Jo3" is refused for its characters |
| Scenarios.FullNamePasses | script.js:43-65 | a space-padded first and last name of letters is accepted |
| Scenarios.EmptyEmailIsRequired | script.js:72-75 | an empty e-mail is reported as required |
| Scenarios.EmailWithoutDotIsInvalid | script.js:77-81 | a non-blank value without a `.` is invalid |
| Scenarios.AtWithoutDotExample | script.js:77-81 | `x@y`, for instance "a@b", is invalid |
| Scenarios.DoubleAtIsInvalid | script.js:77-81 | a value with two `@` is invalid |
| Scenarios.ShortEmailPasses | script.js:77-84 | "a@b.com" is accepted |
| Scenarios.EventIsNotTrimmed | script.js:87-95 | a whitespace-only event value passes, where the same value is a missing name or e-mail |

## Left out

- Event-listener wiring (script.js:11-23) and start-up on `DOMContentLoaded` (script.js:164-166) are browser plumbing. Each validator and `clearError` is modelled as a method that can be called in any order. The listeners allow any order except one: on the select's `change`, `validateEvent` runs and then `clearError('event')` (script.js:17, 22), so a live change never leaves the event error shown. The model allows more sequences than the page does.
- `showFormErrors` (script.js:124-132) only restarts a CSS shake animation on the inputs already marked as errors. It changes no modelled state.
- `simulateSubmission` (script.js:149-160) is a two-second timer and a console log. The awaited step is one abstract step between `BeginSubmission` and `CompleteSubmission` that always resolves.
- Reading values from the DOM: the field values are inputs to the validators and to `HandleSubmit`.
- The floating-label and scroll-animation enhancer (script.js:169-208) is presentation only.
- Registration.EventRegistration.HandleSubmit: modelled as one synchronous step, which loses what can happen during the awaited transport while loading is on. A second submit, an `input` event that clears a slot, or a blur that re-validates a field could all run then. None of these interleavings is represented.
- Registration.EventRegistration.constructor: script.js:3-9 sets no error slot or flag. The cleared, idle, visible start state is an assumption about the page's markup, which is not part of this model.
- JavaScript strings are sequences of UTF-16 code units, while the model's strings are sequences of Unicode scalar values. Lone surrogates cannot be represented. Only `.length` is modelled in code units.
