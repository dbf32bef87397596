# Professional-profile form controller, modelled in Dafny

`script.js` drives a single browser form. It holds profile fields (text, email, URL, phone), weekday and optional Saturday opening hours, and a profile photo. This project models the logic of that script that decides things and keeps state. It also proves what that logic guarantees:

- **Validators** (`validators.dfy`): the email and phone regular expressions, read as plain statements about positions in a string. Each comes with a characterisation lemma in the terms a reader would use (one `@`, no whitespace, an inner dot after the `@`; at least seven digit positions).
- **Text primitives** (`text.dfy`):
  - the ECMAScript whitespace set shared by `\s` and `String.prototype.trim`;
  - `trim`;
  - `replace(/\D/g, '')`;
  - the order that `<`/`<=` give two strings.
- **Field rules** (`field_rules.dfy`):
  - the decision `validateField` takes about one control (`FieldVerdict`);
  - the decision of a schedule "to" handler (`ScheduleCheck`), with the proof that on `HH:MM` values string order is time-of-day order;
  - the photo intake rule (`IntakeCheck`: type prefix `image/`, ceiling 10 MiB).
- **Form controller** (`form.dfy`): a class `Form` whose fields are the state the script mutates:
  - the controls' values (with defaults, `required` flags and types);
  - the per-control error annotation map;
  - the global `selectedFile` slot;
  - the photo input's `files[0]`;
  - the submit button's enabled flag.

  Its methods are the script's handlers:
  - `showFieldError` / `removeFieldError`;
  - `validateField`, which is also the blur handler;
  - the input handler;
  - the four schedule "to" handlers;
  - the Saturday toggle;
  - the file `change` handler;
  - `removeSelectedImage`, `resetForm` and the reset button;
  - the submit handler, split at the transport into `BeginSubmit` and `FinishSubmit`.

  Each method's `ensures` gives its whole new state in terms of the pure decisions above, and lemmas state what those decisions guarantee.

Two modelling choices affect every module:

- The host's URL parser (`new URL(value)` not throwing) is represented by `urlAccepted`, the set of strings it accepts. A verdict depends only on whether the trimmed value is in that set. Any run consults only finitely many values, so every statement proved for all finite sets holds for the real parser on those values.
- The transport's outcome is the parameter `transportOk` of `FinishSubmit`, so both outcomes are covered.

Two behaviours of the script are worth stating because a reader might expect otherwise:

- Its own comment on the schedule checks (script.js:284-285) says the "to" time must be after the "from" time. That is enforced only by the "to" change handlers, which annotate the field. The submit handler (script.js:387-394) validates only `required` controls through `validateField`, which has no cross-field check. `validateField` also ends by removing the control's annotation when it passes (script.js:215), so a blur on a flagged "to" input removes the order message. `FormController.ScheduleOrderDoesNotBlockSubmit` exhibits a pair 10:00 → 09:00 that is flagged and yet passes the submit gate.
- The reset calls `form.reset()` (script.js:513), which restores each control's default value rather than blanking it. `ResetFields` therefore restores `defaultValue`. A control without a default attribute ends up empty.

## Model

| member | source | states |
|---|---|---|
| `Validators.IsValidEmail` | script.js:350-353 | The pattern `^[^\s@]+@[^\s@]+\.[^\s@]+$`, read as split points. `EmailCharacterisation` characterises it. |
| `Validators.IsValidPhone` | script.js:364-368 | The phone pattern plus the seven-digit count. `PhoneCharacterisation`, `PhoneIgnoresSeparators` and `PhoneBounds` characterise it. |
| `Text.Trim` | script.js:181 | `String.prototype.trim`. `TrimSpec`, `TrimPadded` and `TrimIdempotent` characterise it. |
| `Text.JsLess` | script.js:296 | `<` on two strings. `JsLessTrichotomy`, `JsLessTransitive` and `TimeOrderIsMinuteOrder` characterise it. |
| `FieldRules.FormatCheck` | script.js:191-211 | The type switch of `validateField`. `FormatVerdicts` characterises it. |
| `FieldRules.FieldVerdict` | script.js:180-217 | The decision `validateField` takes. `RequiredBlankRejected`, `OptionalBlankAccepted`, `FormatVerdicts`, `VerdictMessages` and `VerdictIgnoresPadding` characterise it. |
| `Validators.EmailCharacterisation` | script.js:350-353 | The email pattern accepts `s` exactly when `s` has exactly one `@`, the part before it is non-empty, `s` has no whitespace, and the part after the `@` holds a `.` that is neither its first nor its last character. |
| `Validators.PhoneCharacterisation` | script.js:364-368 | The phone check accepts `s` exactly when `s` is non-empty, every character is a digit, whitespace, `-`, `+`, `(` or `)`, and at least seven positions hold a digit. |
| `Validators.PhoneIgnoresSeparators` | script.js:364-368 | Appending non-digit phone characters to any string never changes the phone verdict. |
| `Validators.PhoneBounds` | script.js:364-368 | No accepted phone number is shorter than seven characters, and any run of seven or more digits is accepted. |
| `Text.TrimSpec` | script.js:181 | `trim` returns a contiguous piece of the input, and everything before and after that piece is whitespace. It is empty exactly when the input is all whitespace. Otherwise it neither starts nor ends with whitespace. |
| `Text.TrimPadded` | script.js:181 | Surrounding a value with whitespace on either side does not change what `trim` returns. |
| `Text.TrimIdempotent` | script.js:181 | Trimming an already trimmed value changes nothing. |
| `Text.StripNonDigits` | script.js:367 | Removing non-digits leaves only digits, keeps each digit as often as the input holds it, and leaves an all-digit input unchanged. |
| `Text.StripKeepsEveryDigit` | script.js:367 | The digit string's length (`.length` in the phone check) equals the number of digit positions in the input. |
| `Text.JsLessTrichotomy` | script.js:296 | Two strings are equal or ordered one way, never both ways, so `to <= from` is exactly "not `from < to`". |
| `Text.JsLessTransitive` | script.js:296 | String order is transitive. |
| `FieldRules.RequiredBlankRejected` | script.js:184-188 | A required control holding only whitespace gets the "Este campo es obligatorio" verdict, whatever its type. |
| `FieldRules.OptionalBlankAccepted` | script.js:190-216 | A control that is not required and holds only whitespace passes, whatever its type. |
| `FieldRules.FormatVerdicts` | script.js:190-212 | A control with content fails exactly when its type's validator (email, url, tel) rejects the trimmed value, with that type's message. Other types with content always pass. |
| `FieldRules.VerdictMessages` | script.js:180-217 | Every annotation `validateField` produces is one of its four messages. |
| `FieldRules.VerdictIgnoresPadding` | script.js:181 | Whitespace typed around a value never changes the verdict. |
| `FieldRules.ScheduleCheck` | script.js:294-302 | With both ends filled in, "to" is flagged exactly when it equals or sorts before "from", and is cleared exactly when it sorts after. With either end empty, the annotation is kept. |
| `FieldRules.TimeOrderIsMinuteOrder` | script.js:296 | For well-formed `HH:MM` values, string order is the order of the minutes since midnight they denote. |
| `FieldRules.ScheduleFlagsEndNotAfterStart` | script.js:294-302 | For well-formed times, a filled-in pair is flagged exactly when the end is not later in the day than the start. |
| `FieldRules.IntakeCheck` | script.js:50-64 | A picked file is accepted exactly when its type starts with `image/` and its size is at most 10·1024·1024 bytes. A file whose type does not start with `image/` is rejected as not an image, whatever its size. An image over the ceiling is rejected as too large. |
| `FieldRules.SizeCeiling` | script.js:58-64 | An image of exactly 10485760 bytes is accepted, and one of 10485761 bytes is rejected as too large. |
| `FormController.AnnotateLocal` | script.js:319-345 | After a verdict is applied, the control carries exactly the annotation the verdict calls for. No other control is touched, and applying the same verdict again changes nothing. |
| `FormController.GateMatchesAnnotations` | script.js:386-396 | Once every required control has been validated, the form passes the gate exactly when no required control is left annotated. |
| `FormController.SaturdayOffSilencesSchedule` | script.js:238-248 | After Saturday is switched off, no Saturday input is annotated, and neither Saturday "to" handler can flag its pair. |
| `FormController.ResetRestoresDefaults` | script.js:509-513 | The reset keeps every control, its `required` flag and its type, and puts back each default value. Resetting twice is resetting once. |
| `FormController.ScheduleOrderDoesNotBlockSubmit` | script.js:386-396 | A pair whose "to" (09:00) is before its "from" (10:00) is flagged by the change handler. Validating the "to" control still passes, and the submit gate is still open. |
| `FormController.Form.constructor` | script.js:10 | The page as loaded has no annotations, no selected image and an enabled submit button. |
| `FormController.Form.RemoveFieldError` | script.js:338-345 | The control loses its annotation, if it had one, and nothing else changes. |
| `FormController.Form.ShowFieldError` | script.js:319-333 | Any previous annotation of the control is replaced, so `message` is its only annotation. Nothing else changes. |
| `FormController.Form.ValidateField` | script.js:180-217 | Returns true exactly when the control's verdict is a pass. The control's annotation becomes the verdict's message, or is removed on a pass. No other control changes. |
| `FormController.Form.OnInput` | script.js:167-170 | Typing stores the new value and removes the control's annotation without re-validating. |
| `FormController.Form.OnScheduleToChange` | script.js:294-313 | A "to" change handler (weekday or Saturday) annotates "to" with the order message, removes its annotation, or leaves everything as it was, following `ScheduleCheck`. |
| `FormController.Form.OnSaturdayToggle` | script.js:229-252 | Switching on changes no state. Switching off empties the four Saturday time inputs and removes their annotations, and leaves every other control and annotation as it was. |
| `FormController.Form.OnFileChange` | script.js:47-80 | A cancelled picker empties the input and keeps the slot. A rejected file empties the input and keeps the previous `selectedFile`. An accepted file becomes `selectedFile`. The rejection reported is `IntakeCheck`'s. |
| `FormController.Form.RemoveSelectedImage` | script.js:135-151 | The input and the `selectedFile` slot are both emptied. |
| `FormController.Form.ResetForm` | script.js:509-531 | Every control returns to its default, no image is held, and every annotation is removed. |
| `FormController.Form.OnResetClick` | script.js:497-503 | The form is reset only when the user confirms. Otherwise nothing changes. |
| `FormController.Form.ValidateRequired` | script.js:386-394 | Every required control is validated, with no early exit. Each ends with exactly its verdict's annotation, other controls keep theirs, and the result is true exactly when all required controls pass. |
| `FormController.Form.BeginSubmit` | script.js:380-416 | The transport is reached (and the button disabled) exactly when every required control passes and `selectedFile` or the input's file is present. Otherwise the attempt stops as invalid or as missing a photo, with the button still enabled. |
| `FormController.Form.FinishSubmit` | script.js:418-478 | Whatever the transport's outcome, the button is enabled again. On success the form is reset. On failure no other state changes. |

## Left out

- `isValidURL` delegates to the host's WHATWG URL parser. It is represented by the set `urlAccepted` of accepted strings; which strings the parser accepts is not modelled.
- Strings are sequences of Unicode scalar values. JavaScript orders strings by UTF-16 code unit, which differs only for characters outside the Basic Multilingual Plane. Time values never contain such characters.
- `TimeOrderIsMinuteOrder` covers `HH:MM` values. A time input with a `step` below one minute (`HH:MM:SS`) is outside it.
- DOM rendering is not modelled: CSS classes, the error `div` elements, banners (`showError`, `showSuccess`, `hideMessages`), the loading label, the image preview (`FileReader`) and scrolling (`scrollIntoView`, the scroll-to-top button) are presentation only.
- `removeFieldError` removes the first `.field-error` under the control's parent. When two controls share a parent, that can be the other control's message. The model keys annotations by control.
- Drag-and-drop handlers only forward the dropped file to the same `change` handler. `OnFileChange` covers that path.
- Timers collapse into immediate steps:
  - the Saturday clearing happens at the toggle, not 300 ms later;
  - the two-second post-success reset happens inside `FinishSubmit`, after the button is re-enabled;
  - the simulated transport delay is not modelled.
- `simulateSubmission` always resolves successfully. The model lets the outcome be either, through `transportOk`.
- `FormData` packaging, console logging, the commented-out `fetch` and autosave code, and the global error listener produce no state that the model tracks.
- The photo input is kept outside the validated controls. Whether its markup carries `required`, and so whether `validateField` runs on its file path during submit, is decided by HTML that is not part of this model.
- The Saturday checkbox's checked state and the visibility of the Saturday block are not stored. `OnSaturdayToggle` receives the new checked state.
- The form's markup (which controls exist, their types, `required` flags and defaults) is not part of this model. The constructor takes them as parameters, and the schedule handlers require their two controls to exist.
