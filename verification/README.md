# Interactive page logic, modelled in Dafny

A single web page (`script.js`) wires five small interactive features to the DOM:

- a light/dark theme toggle with a stored preference;
- a counter game with increase, decrease and reset buttons, messages chosen by the count, and keyboard shortcuts;
- a collapsible FAQ in which at most one answer is open;
- a tabbed panel switcher;
- a contact form whose six fields are checked by `validateField` on input, on blur and on submit.

This project lifts the logic out of those event handlers and states it as pure Dafny functions over immutable data. The DOM state that matters is modelled as plain fields: the `active` classes, the inputs' `success`/`error` classes, the error elements' text and visibility, the theme attribute and the stored theme. The properties the code promises are proved about that model.

Modules, one per concern:

| file | module | what it holds |
|---|---|---|
| `wrappers.dfy` | `Wrappers` | `Option`, which models a null DOM lookup or a missing stored key |
| `text.dfy` | `Text` | JavaScript whitespace, `trim()`, UTF-16 `.length`, and how a template literal prints an integer |
| `patterns.dfy` | `Patterns` | the four regular expressions as character predicates, with reference readings and equivalence lemmas |
| `validation.dfy` | `Validation` | the `Field` and `Form` data, the six field rules, and the `validateField` switch |
| `contact_form.dfy` | `ContactForm` | the per-field display, the input handler, the submit handler and form reset, plus the as-written error-element lookup |
| `counter.dfy` | `Counter` | the count, its display, the five message bands and the keyboard shortcuts |
| `faq.dfy` | `Faq` | the accordion click and key handlers |
| `tabs.dfy` | `Tabs` | the tab click and key handlers |
| `theme.dfy` | `Theme` | `setTheme`, initial load and the toggle |

Modelling decisions:

- **Whitespace.** `trim()` strips, and `\s` matches, the same set of characters: U+0009–U+000D, U+0020, U+00A0, U+1680, U+2000–U+200A, U+2028, U+2029, U+202F, U+205F, U+3000 and U+FEFF. `Text.IsWhitespace` is exactly that set.
- **Length.** `.length` counts UTF-16 code units, so a character outside the Basic Multilingual Plane counts as two. `Text.Utf16Length` models this, and the length checks for name, password and message use it.
- **Password pattern.** The pattern is tested unanchored and `.` does not match line terminators. `Patterns.PasswordRegex` models that search exactly. It is proved equal to "contains a lowercase letter, an uppercase letter and a digit" for single-line values.
- **Behaviour of the code that the model keeps as written:**
  - The email pattern is tested on the raw value, not the trimmed one.
  - "Optional" for phone and message means the trimmed value is empty.
  - Submit resets the form at once when it is accepted. The 2-second button delay is a separate timer that runs on every submit.
  - Because the `removeEventListener` call at script.js:527 removes nothing, every input event still validates immediately.
- **Assumed page markup.** The page's HTML is not part of this model, so five things are assumed:
  - `reset()` restores empty text fields and an unchecked box.
  - The error elements appear in the page in field order, which fixes the scroll target.
  - The tab panels are the only elements that carry the ids the buttons name.
  - Each `.faq-question`'s parent element is its own `.faq-item`, and every `.faq-item` is the parent of exactly one question. `Faq.Click` and `Faq.AtMostOneOpen` identify question i with item i. A question whose parent were not a `.faq-item` would be opened at script.js:126 but never closed by the loop at script.js:120-122.
  - All six inputs and all six error elements exist, so none of the `getElementById` lookups at script.js:161-176 returns null. `ContactForm.WellFormed` states this.

## Model

| member | source | states |
|---|---|---|
| `Text.Trim` | script.js:230-236 | the trimmed value is a contiguous slice of the input whose margins are all whitespace and whose first and last characters are not whitespace |
| `Text.TrimEmptyIffBlank` | script.js:230 | `!value.trim()` holds exactly when every character of the raw value is whitespace |
| `Text.TrimUnique` | script.js:230-236 | any slice with whitespace-only margins and non-whitespace ends is the trimmed value, so `trim()` is fully determined by that description |
| `Text.TrimIdempotent` | script.js:233-236 | trimming an already trimmed value changes nothing |
| `Text.TrimKeepsContent` | script.js:236 | trimming keeps every non-whitespace character and adds none |
| `Text.Utf16Length` | script.js:233 | `.length` lies between the character count and twice it, and is zero only for the empty string |
| `Text.Utf16LengthBmp` | script.js:269 | on text without astral characters, `.length` is the character count |
| `Text.NatToDecimal` | script.js:89 | a count prints as non-empty decimal digits with no leading zero, and those digits read back as the same number |
| `Text.IntToDecimal` | script.js:69 | an integer prints with a leading '-' exactly when it is negative, followed by the digits of its magnitude |
| `Text.IntToDecimalInjective` | script.js:69 | different counts print differently |
| `Text.IsWhitespace` | script.js:230 | the characters `trim()` strips and `\s` matches: the JavaScript WhiteSpace and LineTerminator set |
| `Text.IsLineTerminator` | script.js:272 | the characters the pattern's `.` does not match |
| `Patterns.NameRegex` | script.js:236 | `/^[a-zA-Z\s]+$/`: at least one character, each an ASCII letter or whitespace |
| `Patterns.EmailRegex` | script.js:243 | `/^[^\s@]+@[^\s@]+\.[^\s@]+$/` read as a decomposition: a non-empty local part, '@', a non-empty part, '.', a non-empty part, none of them holding whitespace or '@' |
| `Patterns.PhoneRegex` | script.js:256 | `/^\+?[\d\s\-\(\)]{10,}$/`: an optional leading '+', then at least ten characters, each a digit, whitespace, '-', '(' or ')' |
| `Patterns.PasswordRegex` | script.js:272 | the unanchored lookahead search: some start position from which a lowercase letter, an uppercase letter and a digit are each reachable without crossing a line terminator |
| `Patterns.EmailShapeIffRegex` | script.js:243-247 | the email pattern accepts exactly the strings that have no whitespace, exactly one '@' that is not the first character, and a '.' after the '@' that is neither the first nor the last character of the domain |
| `Patterns.PhoneRegexNeedsNoDigit` | script.js:256-258 | the phone pattern accepts ten characters with no digit at all, although its message asks for ten digits |
| `Patterns.PhonePlusOnlyFirst` | script.js:256 | an accepted phone number has a '+' at most in first position |
| `Patterns.PasswordRegexNeedsAllClasses` | script.js:272 | a match of the lookahead pattern implies a lowercase letter, an uppercase letter and a digit are all present |
| `Patterns.PasswordRegexSingleLine` | script.js:272 | for a value without line terminators, the pattern matches exactly when it contains a lowercase letter, an uppercase letter and a digit |
| `Patterns.PasswordRegexSplitLines` | script.js:272 | across a line break the three classes are not enough: "Abcdefg\n1" contains all three and is rejected |
| `Validation.ValidateFullName` | script.js:229-240 | valid iff the trimmed name has at least 2 code units, all ASCII letters or whitespace; "required" exactly for blank input, "too short" exactly for non-blank input under 2 units, "letters only" exactly for the rest that fail |
| `Validation.FullNameAcceptsRaw` | script.js:229-240 | on the raw value: valid iff every character is an ASCII letter or whitespace and the trimmed value has at least 2 code units |
| `Validation.FullNameAstralCharacter` | script.js:233-237 | a single emoji passes the length check (2 code units) and gets the letters-only message |
| `Validation.ValidateEmail` | script.js:242-251 | valid iff the raw value matches the email pattern; "required" exactly for blank input; a valid address has no surrounding whitespace |
| `Validation.EmailPaddedRejected` | script.js:244-247 | " a@b.co" passes the required check and fails the pattern, while "a@b.co" is valid |
| `Validation.ValidatePhone` | script.js:253-262 | valid iff the value is blank or its trimmed value matches the phone pattern; otherwise the phone message |
| `Validation.ValidatePassword` | script.js:264-276 | on the raw value: "required" exactly when empty, "too short" exactly when under 8 code units, valid iff at least 8 units and the lookaheads match, and a valid password holds all three character classes |
| `Validation.ValidateMessage` | script.js:278-284 | invalid exactly when the trimmed message is non-empty and under 10 code units |
| `Validation.ValidateAgreement` | script.js:286-291 | valid exactly when the box is checked, otherwise the terms message |
| `Validation.Validate` | script.js:228-292 | for every field the verdict is valid exactly when its message is empty |
| `Validation.FieldIndex` | script.js:160-167 | every field has a position in the declaration order that submit walks |
| `Validation.FieldsComplete` | script.js:160-167 | the declaration order lists every field |
| `Validation.SetText` | script.js:183-185 | typing into one text field changes that field's value and no other |
| `Validation.SampleSubmission` | script.js:198-208 | the form (Jo, a@b.co, empty, Abcdefg1, empty, checked) passes every rule; with password "short" exactly the password field fails |
| `ContactForm.ErrorKey` | script.js:169-176 | every field has its own error element among the six |
| `ContactForm.MarkFor` | script.js:296-305 | the input gets no class exactly for the checkbox, and the error class exactly for a text field whose rule failed |
| `ContactForm.Display` | script.js:294-306 | after a verdict is shown the input carries success or error (never for the checkbox) and the error element is shown exactly when invalid, with its message; a valid pass keeps the old hidden text; no other field changes |
| `ContactForm.ShowCheck` | script.js:219-309 | `validateField` displays the field's own verdict, leaves the values and every other field's display alone |
| `ContactForm.ShowCheckIdempotent` | script.js:183-189 | validating an unchanged field again at once, as the blur after an input does, changes nothing |
| `ContactForm.LateCheckAfterReset` | script.js:524-529 | a debounced check that fires after an accepted submit has reset the form (script.js:204-208) is not a no-op: the email error shows "Email is required", and the blank phone input gets the success class the reset had removed |
| `ContactForm.ValidateFields` | script.js:198-203 | validating a list of fields without short-circuit leaves each listed field displaying its verdict and unlisted fields untouched |
| `ContactForm.ValidatedShowsAll` | script.js:198-203 | after the submit pass every field displays its verdict |
| `ContactForm.ValidatedShownIffInvalid` | script.js:198-203 | after the submit pass a field's error element is shown exactly when its rule failed |
| `ContactForm.FirstShown` | script.js:211-214 | the scroll target is a field whose error is shown and no earlier field's is; none exactly when no error is shown |
| `ContactForm.FirstShownInFieldOrder` | script.js:211-214 | once any error is shown, the scroll target is the shown error that comes first in field order |
| `ContactForm.RejectedTarget` | script.js:209-215 | a failed submit scrolls to an invalid field before which every field is valid |
| `ContactForm.ResetForm` | script.js:331-344 | after reset, values are the defaults, no input carries a class and every error element is hidden with its text kept |
| `ContactForm.OnSubmit` | script.js:194-216 | a submit is accepted iff all six rules pass; if accepted the form is reset; if not, values are kept, every verdict is displayed and the first invalid field is the scroll target |
| `ContactForm.OnInput` | script.js:181-191 | an input event sets that field's value and displays its verdict; every other field's verdict and display is unchanged |
| `ContactForm.OnToggleTerms` | script.js:182 | ticking the terms box changes its value only; nothing is validated or displayed |
| `ContactForm.ErrorKeyAsWritten` | script.js:221 | the lookup key as written: the field's key followed by "Error" |
| `ContactForm.ErrorKeyAsWrittenMisses` | script.js:221 | the written lookup `fieldName + 'Error'` misses exactly for fullName and agreeTerms, and agrees with the intended element for the other four |
| `ContactForm.ShowCheckAsWritten` | script.js:219-306 | as written, `validateField` throws exactly for fullName and agreeTerms, after stripping the input's classes; for the others it behaves as intended |
| `ContactForm.ValidateFieldsAsWritten` | script.js:199-203 | as written, the submit loop throws iff it reaches fullName or agreeTerms |
| `ContactForm.SubmitAsWrittenThrows` | script.js:194-203 | as written, every submit throws at its first field with values and error elements untouched, so no form is ever accepted |
| `ContactForm.ResetFormAsWritten` | script.js:331-344 | as written, the reset's lookup misses for fullName and agreeTerms and its guard skips them: the name input and the checkbox keep their classes and `nameError` and `termsError` are left as they were, while the other four fields are cleared |
| `ContactForm.ResetAsWrittenKeepsNameSuccess` | script.js:335-343 | with only the submit lookup corrected, an accepted submit leaves every error element hidden before the reset, and the reset as written leaves the name input with its success class, where the intended reset removes it |
| `ContactForm.SampleAccepted` | script.js:194-208 | with the intended lookup, the sample form is accepted and reset |
| `Counter.BandOf` | script.js:85-100 | the five message bands are zero, 1..5, above 5, -5..-1 and below -5, and every count lies in exactly one |
| `Counter.ColourFor` | script.js:72-78 | the displayed colour is success, danger or primary exactly for a positive, negative or zero count |
| `Counter.CounterNotice` | script.js:82-100 | the message has the warning type exactly for negative counts and starts with its band's text |
| `Counter.NoticeDeterminesCount` | script.js:85-100 | two counts with the same message text are equal, so the message always identifies the count |
| `Counter.Refresh` | script.js:68-79 | after `updateCounter` the displayed text and colour agree with the count |
| `Counter.Increase` | script.js:47-51 | increase adds exactly one, refreshes the display and shows the new count's band message |
| `Counter.Decrease` | script.js:54-58 | decrease subtracts exactly one, refreshes the display and shows the new count's band message |
| `Counter.Reset` | script.js:61-65 | reset sets the count to zero and shows the reset message rather than a band message |
| `Counter.IncreaseDecreaseInverse` | script.js:47-58 | one increase and one decrease, in either order, restore the count and its display |
| `Counter.HandleKey` | script.js:396-419 | typing in an input or textarea changes nothing; '+' and '=' add one, '-' subtracts one, each with the shortcut message; '0' resets; other keys change nothing |
| `Counter.ShortcutsInverse` | script.js:402-413 | the '+' shortcut followed by the '-' shortcut restores the count and display |
| `Faq.AllClosed` | script.js:120-122 | closing every item leaves no item open |
| `Faq.Click` | script.js:114-128 | after a click, item j is open exactly when j is the clicked item and that item was closed |
| `Faq.AtMostOneOpen` | script.js:119-127 | from any prior state a click leaves one open item if the clicked one was closed and none if it was open |
| `Faq.ClickTwice` | script.js:114-128 | two clicks on the same question close everything when it started closed, and leave it the only open item when it started open |
| `Faq.KeyOnQuestion` | script.js:368-374 | Enter or Space on a question acts as a click; other keys change nothing |
| `Tabs.FindPanel` | script.js:150 | the lookup finds the first panel with the id, and finds nothing exactly when no panel has it |
| `Tabs.Click` | script.js:141-151 | after a click only the clicked button is active, only the first panel whose id equals its data-tab is active, and the handler throws exactly when no panel has that id |
| `Tabs.ClickIdempotent` | script.js:141-151 | repeating the same tab click changes nothing |
| `Tabs.ClickSelectsOne` | script.js:145-150 | with distinct panel ids and an existing target, a panel is active exactly when its id is the clicked button's data-tab |
| `Tabs.KeyOnButton` | script.js:381-388 | Enter or Space on a tab button acts as a click; other keys change nothing |
| `Theme.SetTheme` | script.js:27-31 | after `setTheme` the stored value equals the data-theme attribute and the caption offers the other theme |
| `Theme.InitialTheme` | script.js:16 | the initial theme is never empty: a missing or empty stored value gives 'light', any other stored value is used as is |
| `Theme.Load` | script.js:16-17 | after page load the attribute, the caption and the store agree, and the theme is non-empty |
| `Theme.Toggle` | script.js:20-24 | the toggle gives 'light' exactly from 'dark' and 'dark' from anything else, and keeps the store in step |
| `Theme.ToggleTwice` | script.js:20-24 | toggling twice restores a light or dark state |
| `Theme.ToggleTwiceUnknown` | script.js:16-24 | a stored unknown theme such as 'blue' is shown as is and comes back as 'light' after two toggles |
| `Theme.ReloadRestores` | script.js:16-31 | reloading from the stored preference reproduces the state that was last set |
| `Theme.ToggleTimes` | script.js:20-31 | after any number of toggles the store equals the displayed theme; an even number restores a light or dark state |

## Findings

| source | as written | input that shows it | evidently intended | confidence | as-written member | corrected member |
|---|---|---|---|---|---|---|
| script.js:221 | the error element is looked up as `errorElements[fieldName + 'Error']`. For fullName and agreeTerms that gives `fullNameError` and `agreeTermsError`, but the keys at script.js:170 and 175 are `nameError` and `termsError`. `validateField` then throws at script.js:296 or 301 | any submit, for example a form whose six fields all pass. The handler throws at its first field, fullName, so no submit is ever accepted | map fullName to `nameError` and agreeTerms to `termsError` | high; not executed | `ContactForm.SubmitAsWrittenThrows` | `ContactForm.OnSubmit` |
| script.js:337-342 | `resetForm` repeats the lookup as `errorElements[key + 'Error']`, and its guard skips a field whose error element is missing. The script.js:221 defect hides this one, because no submit reaches `resetForm`; it appears once line 221 alone is corrected | with line 221 corrected, an accepted submit of a valid form: the pass leaves every error element hidden and the name input with the success class, and the reset skips the name input, which keeps that class | clear every input's class | high; not executed | `ContactForm.ResetAsWrittenKeepsNameSuccess` | `ContactForm.ResetForm` |

## Left out

- Timers are not modelled: the 3-second and 5-second message auto-hide (script.js:322-324, 357-359), the 2-second "Sending..." state of the submit button (script.js:449-459), and the `debounce` helper (script.js:511-530). They depend on the host event loop. A debounced `validateField` (script.js:526-528) normally repeats the check the immediate listener already made on the same value, which `ContactForm.ShowCheckIdempotent` shows changes nothing. That is not so when a submit is accepted within its 500 ms: the pending check then runs on the emptied form. It shows "Email is required", and it gives the blank phone input a success class. `ContactForm.LateCheckAfterReset` states this one case, but the interleaving of timers with later events is not modelled.
- The success banner's HTML and every `scrollIntoView` call (script.js:312-328, 211-214) are DOM effects. They are represented by the `accepted` flag and the `scrollTo` field of a submission.
- The MutationObserver that syncs ARIA attributes, and the role attributes on tabs (script.js:467-503), are not modelled. They only mirror the `active` classes the model already tracks.
- The global error banner, drag-and-drop suppression, visibility and resize logging, smooth scrolling of anchors, and the console greeting (script.js:427-438, 537-621) are not modelled. None of them holds logic beyond logging or cancelling events.
- The top-level `debounce(...)` at script.js:576 names a function that is only declared inside the load handler. It throws while the script loads, so the error and drag-and-drop listeners after it are never registered. This affects only the parts listed above, so it is not modelled.
- Counter.Increase: the count is an unbounded integer. The page's count is a double, which stops changing beyond 2^53 and prints in exponent form from 10^21 on.
- Counter.Decrease: the same unbounded-integer simplification as `Counter.Increase`.
- ContactForm.ResetForm: models `resetForm` with the intended element ids. As written (script.js:337-342) the lookup misses for fullName and agreeTerms and the guard skips them; that behaviour is `ContactForm.ResetFormAsWritten`. No submit reaches it while the script.js:221 defect stands; its visible effect once that is fixed is `ContactForm.ResetAsWrittenKeepsNameSuccess`, listed under Findings.
- Tabs.FindPanel: `getElementById` searches the whole document. The model searches only the panels.
