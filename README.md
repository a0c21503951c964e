# Registration form of the event landing page: field validation and modals

This project models the browser code behind the registration modal of the
landing page. It covers two pieces of that code.

- **Validating one field.** `validateField` in js/modal.js, and the later draft
  of it in js/brouillon.js, map one `<input>` to at most one French error
  message. The checks run in a fixed order and the first failure wins:
  - the required check on the trimmed value;
  - for the name fields, a length check (in UTF-16 code units) and then the
    name pattern;
  - the e-mail pattern;
  - the birthdate, which must be in the past and, in the draft, no more than
    150 years old;
  - the quantity range 0 to 99.

  The verdict is then shown on the element. `showError` and `removeError`
  manage the `error-input` class and the `.error-modal` tooltip in the field's
  container, and `validateField` adds or removes the `error` class.
- **The modal controller of js/modal.js.** This is the global `modalOpen` flag,
  the inline `display` of the entry modal and of the confirmation modal, and
  the body's `overflow` scroll lock. It is changed by `launchModal`,
  `closeModal`, `openConfirmationModal`, the confirmation's close handler, the
  backdrop click handler and the submit handler. The submit handler
  re-validates every input in document order.

Modules:
- `Strings`: `trim`, JavaScript's `length` in UTF-16 code units, and character
  search.
- `Patterns`: the name and e-mail regular expressions as predicates, each proved
  equal to an independent reference reading.
- `Form`: what validation reads from an input, plus the messages.
- `ModalValidation` and `DraftValidation`: the two verdicts, as functions.
- `FormField`: class `Input`, whose methods update its decoration in place.
- `ModalController`: class `Page`, with the handlers as methods and the submit
  loop.

Where the code and the design description disagree, the model follows the
code:
- `launchModal` has no "already open" guard.
- Closing the confirmation modal leaves `modalOpen` set and the entry modal
  shown; only the confirmation and the scroll lock change.
- The birthdate has no 18-year minimum, and js/modal.js has no upper age bound.
  Only js/brouillon.js adds the 150-year bound.
- In js/modal.js an unchecked `checkbox1` with a non-empty value (a checkbox's
  value is "on" by default) passes, because its check sits only in the
  empty-value branch.
- `trim` strips the whole ECMAScript whitespace and line-terminator set, not
  only ASCII whitespace.

## Model

| member | source | states |
|---|---|---|
| Strings.TrimSpec | js/modal.js:214 | the trimmed value is the value with only whitespace cut off before and after it; it neither starts nor ends with whitespace, and it is empty exactly when the value is all whitespace |
| Strings.TrimIdempotent | js/modal.js:243-245 | `trim` is idempotent, so the value both checks of a name read is a fixed point of `trim` |
| Strings.TrimPadded | js/modal.js:214 | a value with no surrounding whitespace is its own trim, and so is the value padded with one space on each side |
| Strings.CodeUnitsCountCharacters | js/modal.js:243 | `length` equals the number of characters exactly when every character lies in the Basic Multilingual Plane |
| Strings.ShorterThanTwo | js/modal.js:243 | `length < 2` holds exactly for the empty string and for one BMP character |
| Strings.IndexOf | js/modal.js:259 | serves `Patterns.EmailCheck`, the reference reading of the e-mail pattern: the result is the first position of the character, or none when it does not occur |
| Strings.LastIndexOf | js/modal.js:259 | serves `Patterns.EmailCheck`, the reference reading of the e-mail pattern: the result is the last position of the character, or none when it does not occur |
| Patterns.MatchNameCharacterized | js/modal.js:245 | the name matcher, from either state, accepts exactly the strings made of letters and separators that end in a letter, whose every separator is followed by a letter, and that start with a letter unless a letter was just consumed |
| Patterns.NameMatchesIffShape | js/modal.js:245 | the name pattern matches exactly the letter runs (a-z, A-Z, À-Ö, Ø-ö, ø-ÿ) joined by single `-`, `'` or space |
| Patterns.HyphenatedNameMatches | js/modal.js:253 | "Jean-Luc" matches the name pattern |
| Patterns.ApostropheNameMatches | js/modal.js:253 | "O'Neil" matches the name pattern |
| Patterns.AccentedNameMatches | js/modal.js:253 | "Zoë Saint" matches the name pattern |
| Patterns.NamesThatDoNotMatch | js/modal.js:253 | a doubled separator, a leading or trailing separator, and a digit make the name pattern fail |
| Patterns.EmailSplitUnique | js/modal.js:259 | a split that fits the e-mail pattern is at the first `@` and the last `.` |
| Patterns.EmailCheckAgrees | js/modal.js:259 | the backtracking e-mail matcher and the direct check at the first `@` and last `.` agree on every string |
| Patterns.EmailExamples | js/modal.js:259-261 | "a@b" fails the e-mail pattern and "a@b.com" passes |
| Patterns.EmailCounterExamples | js/modal.js:259 | a one-letter top-level part, an empty local part and a second `@` fail the e-mail pattern |
| Form.RequiredMessage | js/modal.js:215-230 | the empty-value switch has a required message exactly for `first`, `last`, `email`, `birthdate` and `quantity` |
| ModalValidation.RequiredDominates | js/modal.js:214-236 | a required field gets its "requis/requise" message exactly when its trimmed value is empty, whatever else is wrong with it |
| ModalValidation.NameVerdicts | js/modal.js:242-257 | for a non-empty name: the length message exactly under 2 code units; the character-set message exactly for 2 or more units that are not letter runs joined by single separators; a pass exactly otherwise |
| ModalValidation.OneLetterFirstName | js/modal.js:243-244 | the first name "A" gets the length message |
| ModalValidation.EmailVerdict | js/modal.js:258-262 | a non-empty e-mail passes exactly when it has the shape local `@` domain `.` top-level; otherwise it gets the e-mail message |
| ModalValidation.ShortEmailFails | js/modal.js:258-262 | the e-mail "a@b" gets the e-mail message |
| ModalValidation.WellFormedEmailPasses | js/modal.js:258-262 | the e-mail "a@b.com" passes |
| ModalValidation.BirthdateVerdict | js/modal.js:264-270 | a birthdate fails exactly when the parsed date is now or later; an invalid date passes |
| ModalValidation.QuantityVerdict | js/modal.js:272-276 | a quantity fails exactly when it is not a number or lies outside [0, 99]; 0 and 99 pass |
| ModalValidation.UnlistedIdsPass | js/modal.js:241-277 | an id with no case of its own never fails on a non-empty value |
| ModalValidation.UncheckedTermsPass | js/modal.js:231-235 | `checkbox1` with a non-empty value passes, checked or not |
| ModalValidation.EmptyTermsCheckbox | js/modal.js:231-235 | `checkbox1` with an empty value fails with the terms message exactly when it is unchecked |
| DraftValidation.FirstNameMessagesSayPrenom | js/brouillon.js:44-49 | both name messages for `first` start with "Le prénom" |
| DraftValidation.LastNameMessagesSayNom | js/brouillon.js:44-49 | both name messages for `last` start with "Le nom" |
| DraftValidation.CheckboxesFirst | js/brouillon.js:8-13 | a checkbox fails, with the terms message, exactly when it is the unchecked `checkbox1`, whatever its value |
| DraftValidation.EmptyFieldRequired | js/brouillon.js:14-35 | an empty non-checkbox field gets its id's required message (the terms message for `checkbox1`), and an unlisted id gets none |
| DraftValidation.SharedNameRules | js/brouillon.js:39-52 | `first` and `last` share the length rule and the character-set rule, and only the subject of the message differs |
| DraftValidation.BirthdateOrder | js/brouillon.js:60-71 | now or later gives the "dans le passé" message; otherwise a date before the 150-year cutoff gives the "150 ans" message; an invalid date passes |
| DraftValidation.QuantityRange | js/brouillon.js:73-77 | a quantity fails, with the range message, exactly when it is not a number or lies outside [0, 99] |
| DraftValidation.AgreesWithModal | js/brouillon.js:14-77 | apart from checkboxes, `checkbox1` and birthdates before the cutoff, the draft passes exactly the fields js/modal.js passes |
| DraftValidation.UncheckedTermsFail | js/brouillon.js:8-13 | an unchecked `checkbox1` with a non-empty value fails in the draft, while js/modal.js lets it pass |
| FormField.DecoratedClasses | js/modal.js:285-293 | after the decoration step the input has both classes exactly when there is a message, and that message's tooltip is the last in its container |
| FormField.RemoveWithoutErrorChangesNothing | js/modal.js:404-415 | `removeError` on an input with no tooltip and no `error-input` class changes nothing |
| FormField.DecoratedReplaces | js/modal.js:362-380 | from at most one tooltip, the decoration step leaves exactly the new message's tooltip, or none, and keeps the decoration consistent |
| FormField.DecorationIdempotent | js/modal.js:285-293 | validating an unchanged input twice leaves it as the first validation did |
| FormField.Input.RemoveError | js/modal.js:404-420 | removes the `error-input` class and the first tooltip of the container, if any, and changes nothing else |
| FormField.Input.ShowError | js/modal.js:362-394 | runs `removeError`, then adds the `error-input` class and appends the message's tooltip |
| FormField.Input.ApplyVerdict | js/brouillon.js:88-94 | a message leads to `showError` and the `error` class; no message leads to `removeError` and no `error` class; nothing else changes |
| FormField.Input.Validate | js/modal.js:206-296 | the verdict is the js/modal.js verdict of the element, and it is applied to the element |
| FormField.Input.ValidateDraft | js/brouillon.js:1-99 | the verdict is the draft verdict of the element, and it is applied to the element |
| FormField.VerdictsPointwise | js/modal.js:468-473 | each input's verdict in the submit loop is its own verdict, independent of the inputs validated before it |
| ModalController.Page.LaunchModal | js/modal.js:145-168 | from any state: `modalOpen` set, entry modal shown as a block, scrolling locked |
| ModalController.Page.CloseModal | js/modal.js:177-197 | from any state: `modalOpen` cleared, entry modal hidden, scrolling unlocked |
| ModalController.Page.OpenConfirmationModal | js/modal.js:304-320 | the confirmation is shown as flex and scrolling locked; nothing else changes |
| ModalController.Page.CloseConfirmationModal | js/modal.js:329-351 | the confirmation is hidden and scrolling unlocked; `modalOpen` and the entry modal are not touched |
| ModalController.Page.BackdropClick | js/modal.js:445-450 | closes the entry modal exactly when the click landed on the background itself; otherwise nothing changes |
| ModalController.Page.ValidateInputs | js/modal.js:464-473 | every input is re-validated and decorated with its own verdict, and `isValid` ends true exactly when no input has the `error` class |
| ModalController.Page.Submit | js/modal.js:463-484 | the confirmation opens exactly when no input has the `error` class after re-validation, that is, exactly when every input's own verdict passes; otherwise nothing but the inputs changes; `modalOpen` never changes |

## Left out

- `logEvent` and `logStyles`: console output only.
- The responsive layout: `editNav`, the `isMobile` and `isLandscape` media queries, the `top` offsets of the modal and hero section, tooltip coordinates from `getBoundingClientRect`, and `window.scrollTo`. These are styling and browser geometry.
- The placeholder toggling on the birthdate field and the wiring of the listeners in `main`. The handlers are modelled as methods instead.
- js/modal1.js: it holds only DOM lookups, class names, log styles and its own `modalOpen` declaration, and no logic.
- `resetForm` is not part of this model. It is called by `launchModal`, but none of the modelled files defines it. `ModalController.Page.LaunchModal` keeps the inputs in its frame and promises nothing about them.
- Date parsing and time zones. A parsed date is an `Option<int>` of milliseconds, with `None` for an Invalid Date. The current instant is a parameter. The draft's 150-year cutoff (local midnight of today's calendar date 150 years back) is passed in precomputed, because calendar arithmetic is not modelled.
- `Number` coercion of the quantity. It is given as an already coerced `Option<int>`, so hexadecimal, exponent and fractional inputs and `Infinity` are not modelled (floating point).
- `alert` in the failing submit branch, and `preventDefault`: browser side effects with no state in the model.
- The `try`/`catch` blocks. The modelled verdicts are total functions and the updates cannot fail, so no exception can arise. The property that validation never propagates an exception therefore holds by construction, with no lemma of its own.
- A container shared by several inputs, such as the radio group. Each input owns its tooltip list, so removing a tooltip of one input does not show on another.
- Editing by the visitor between events. An input's value, checked state, parsed date and number are fixed when the `Input` is created, and one submit reads one instant for every field.
- Message texts are compared as `Message` constructors. `Form.Text` maps each constructor to the exact string the code assigns.
- DraftValidation.FirstNameMessagesSayPrenom: states only that "Le prénom" heads the `first` messages and "Le nom" the `last` messages. It does not separately state that no `last` message starts with "Le prénom".
