# Form validation (odin-form-validation) in Dafny

This project models the validation core of `index.js`, a browser form with five inputs: email, country, password, password confirmation and postal code. It covers:

- **The postal-code rule table** (`PostalRules`). Four country codes (`ch`, `fr`, `de`, `nl`) each map to a regular expression and a message. Any other code, including the empty "no selection", falls back to `.*` with an empty message.
  - Each pattern is stated by its meaning. `Matches` scans the string: it strips the optional prefix, then checks digits, white space and letters.
  - `InLanguage` describes the same set as a concatenation of the regular expression's parts.
  - `MatchesIffInLanguage` proves the two agree.
- **The validator** (`Validation`). It works on snapshots of an input:
  - `Validate` is `validateField`.
  - `ShowError` is `showError`.
  - `CheckPostal` is the custom-validity update done by `checkPostalCode`.
  - `Submission` is the notice chosen by the submit handler.
  - Each if-chain is also proved equal to an independent first-match reading of an ordered rule list (`FirstFailure`).
- **The page itself** (`FormModel`), as objects updated in place. `Input` holds its ValidityState flags and custom-validity message. `ErrorElement` holds its text and its `active` class. `Form` holds the inputs in submit order and the error element found for each by id. Its methods `ValidateField`, `ShowError`, `CheckPostalCode` and `Submit` are written step by step and proved against the `Validation` functions.
- **Rendering of `${maxLength}`** (`Decimal`): an integer becomes decimal text, `-1` when the attribute is unset. The text provably parses back to the same value.

The browser's `validationMessage` is modelled as the browser defines it:

- it is empty when the input is valid;
- otherwise it is the custom-validity message when one is set;
- otherwise it is the browser's own message, which is a parameter of the model (`nativeMessage`).

`checkValidity()` is true exactly when none of the four built-in flags is set and there is no custom message.

### Two behaviours of the code worth knowing

- `validateField` shows any non-empty `validationMessage`, the custom one or the browser's own, before `showError`'s chain is reached (index.js:40-47). `ShowErrorReachedByFlag` proves that `showError` is only reached when the browser's own message is empty and one of the four flags is set.
- `hasErrors` comes from `checkValidity()` alone (index.js:89-90), so a mismatched confirmation alone does not block. A password confirmation that differs from the password, but passes the browser checks, shows "Passwords don't match." and the success notice is still shown. `MismatchAloneDoesNotBlock` states this.

## Model

| member | source | states |
|---|---|---|
| PostalRules.Lookup | index.js:129-165 | a code in the table yields that entry; any other code yields the accept-anything pattern with the empty message; the message is empty exactly for the fallback |
| PostalRules.MatchesIffInLanguage | index.js:136-154 | the hand-written matcher accepts a string exactly when it belongs to the language of the anchored regular expression |
| PostalRules.PrefixedDigitsIffInLanguage | index.js:136-150 | `^(PREFIX)?\d{n}$`: optional prefix followed by exactly n digits, both directions |
| PostalRules.DutchIffInLanguage | index.js:151-154 | `^(NL-)?\d{4}\s*(letters)$`, both directions |
| PostalRules.DutchLettersExcludeReserved | index.js:152-153 | the closing letter pair is any two capitals except SA, SD and SS, as the Dutch message says |
| PostalRules.OnlyFallbackAcceptsAll | index.js:136-165 | a country's pattern accepts every string exactly when the country is not in the table |
| PostalRules.UnknownCountryAcceptsAll | index.js:163-168 | for an unknown country `.*` matches every postal code and the message is empty |
| PostalRules.SwissExamples | index.js:138-141 | 1950 and CH-1950 are accepted, 19501 is rejected |
| PostalRules.FrenchExamples | index.js:144-145 | 75012 and F-75012 are accepted, 7501 is rejected |
| PostalRules.GermanExamples | index.js:148-149 | 12345 and D-12345 are accepted, 1234 is rejected |
| PostalRules.DutchExamples | index.js:152-153 | "1234 AB" and NL-1234AB are accepted; SA, SD and SS endings are rejected |
| Decimal.IntToString | index.js:114 | the canonical decimal text: a leading `-` exactly for negative numbers, then a non-empty run of digits with no leading zero except for zero itself |
| Decimal.IntToStringRoundTrip | index.js:114 | the rendered maximum length parses back to the same integer |
| Validation.FirstFailure | index.js:104-121 | first-match-wins: no message iff no rule applies, otherwise the message of the first applicable rule |
| Validation.ShowError | index.js:103-125 | the element is always made active; its text changes only to one of the four flag messages or the mismatch message |
| Validation.ShowErrorFollowsRules | index.js:103-125 | `showError` shows the first applicable message among missing, invalid, too short, too long and mismatch, in that order, and otherwise keeps the old text |
| Validation.Validate | index.js:22-49 | the element is active exactly when the field is a mismatched confirmation or fails `checkValidity`, and active exactly when its text is non-empty |
| Validation.ValidateFollowsRules | index.js:22-49 | `validateField` shows the first applicable message among mismatch, the non-empty `validationMessage`, then `showError`'s rules; if none applies the element is cleared |
| Validation.MismatchWins | index.js:24-31 | a mismatched confirmation always shows "Passwords don't match.", whatever else is wrong |
| Validation.ValidFieldClears | index.js:34-37 | a valid field that is not a mismatched confirmation gets empty text and no `active` class |
| Validation.ValidationMessageVerbatim | index.js:41-43 | an invalid field with a non-empty `validationMessage` shows it unchanged |
| Validation.ShowErrorReachedByFlag | index.js:44-47 | when `showError` is reached one of the four flags is set, so one of their four messages is shown |
| Validation.ValidateIgnoresPrevious | index.js:22-49 | the outcome of `validateField` does not depend on what the element showed before |
| Validation.ValidateIdempotent | index.js:22-49 | validating twice with nothing changed gives the outcome of validating once |
| Validation.CheckPostal | index.js:157-172 | the custom message becomes empty iff the value matches the country's pattern, else the country's message; nothing else about the field changes |
| Validation.UnknownCountryClearsCustomValidity | index.js:163-171 | with an unknown or unset country the postal code's custom validity is cleared |
| Validation.PostalCodeOutcome | index.js:157-176 | after `checkPostalCode` the postal error element is active iff the code misfits the country or a built-in flag is set; a misfit shows the country's message |
| Validation.AnyInvalid | index.js:72-92 | the `hasErrors` fold over the fields is true iff some field fails `checkValidity` |
| Validation.Submission | index.js:93-100 | the default action is always prevented; the failure notice is shown iff some field fails `checkValidity`, the success notice iff all pass |
| Validation.MismatchAloneDoesNotBlock | index.js:84-99 | with every field passing `checkValidity`, a mismatched confirmation shows its message while the success notice is still shown |
| FormModel.Input.SetCustomValidity | index.js:169-171 | only the custom-validity message changes |
| FormModel.Form.constructor | index.js:4-19 | the five inputs in submit order, each paired with a fresh, empty, inactive error element whose id is the input's id followed by `Error` |
| FormModel.Form.ValidateField | index.js:22-49 | the element's new state is `Validate` of the input's state, the password's current value and the element's old state |
| FormModel.Form.ShowError | index.js:103-125 | the element's new state is `Validation.ShowError` of the input's state, the password's current value and the element's old state |
| FormModel.Form.CheckPostalCode | index.js:157-176 | the postal input's new state is `CheckPostal` of the country's value, and its error element then shows `Validate` of that new state |
| FormModel.Form.Submit | index.js:71-101 | visits the five fields in order, leaves every error element showing its field's `Validate` outcome, and returns `Submission` of the fields |

## Left out

- Locating elements with `getElementById` and attaching listeners (index.js:4-19, 53-69, 178-179) are not modelled as code. The `Form` constructor takes the inputs and pairs each with its error element by id. On each input event, the live handler calls `ValidateField`. The country change and the postal input event call `CheckPostalCode`. The postal input therefore runs both on every keystroke; their order is not modelled.
- `alert` and `preventDefault` are returned as values (`SubmitOutcome`) rather than performed.
- The browser's constraint engine (which inputs are `required`, the email grammar, `minlength`/`maxlength`) is not modelled. Its four ValidityState flags and its own message are inputs to the model, kept current by the browser. `willValidate`, disabled inputs and the `invalid` event are not modelled.
- The postal patterns are given by their meaning, not as regular-expression text, and no general regular-expression engine is modelled. `new RegExp` is only ever applied to the four fixed patterns and the `.*` fallback.
- Strings are sequences of Unicode code points; JavaScript strings are UTF-16 code units. The difference is not visible to these patterns and messages except in string length.
- CSS class lists are reduced to one boolean (`active`), since the handlers only add and remove that one class.
