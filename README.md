# Landing-page script of 고성명태㈜ (MyeongTae) — a Dafny model

The landing page's script is a single class, `MyeongTaeLanding` (`js/main.js`). This project models the parts of it that hold logic:

- **Translations.** Two dictionaries are loaded, one per locale (`ko`, `en`), each a tree of string leaves and nested objects. `getNestedValue` resolves a dotted key such as `hero.title` one segment at a time. `updatePageContent` writes the result into every element bound with `data-key` (its text) or `data-key-placeholder` (its placeholder), but only when the result is truthy. It then sets the document's `lang`.
- **Locale switching.** `switchLanguage` flips `currentLang` between `ko` and `en`, re-renders, and relabels the language button (`KO / EN` or `EN / KO`).
- **Form validation.** `validateForm` visits the required controls in order. A blank value (after `trim`) gives a "required" error. A filled `type="email"` value that fails `isValidEmail` gives a format error. The form is valid exactly when no error was collected. `isValidEmail` is the regular expression `^[^\s@]+@[^\s@]+\.[^\s@]+$`, written out as a string predicate.
- **Mobile navigation.** Two flags say whether the menu and the hamburger carry `active`. A hamburger click toggles both. A link click clears both. A resize to a width above 768 clears both.
- **Submitting.** `handleFormSubmit` stops after a failed validation. Otherwise it disables the submit button under the label `전송 중...` and runs the send. It shows a success or error banner, and always restores the button: enabled, original label.

Modules: `Wrappers` (Option), `Translation` (dictionary tree and key lookup), `Content` (bound elements), `Locale`, `Whitespace` (the `\s` set and `trim`), `Email`, `Validation`, `Navigation`, and `Landing` (the page object, the contact form and `MyeongTaeLanding` itself).

Modelling choices:
- The lookup result is `Absent` (`undefined`), `Text(s)` or `Subtree(m)`.
- A subtree is truthy in JavaScript, so a key naming a nested object makes the element show `[object Object]`. The model does the same.
- Indexing into a non-empty string leaf (e.g. `title.length`) is abstracted to `Absent`.
- An empty-string leaf followed by more segments stays `""`, as the `&&` chain does.
- `currentLang` stays a string, as in the source. `MyeongTaeLanding.Valid` keeps it at `ko` or `en`.
- The page is re-rendered only when the active locale's dictionary is truthy (`MyeongTaeLanding.HasDictionary`). A dictionary file holding just `""` counts as missing, as `if (!currentTranslations) return;` does.
- Bound elements are assumed not to contain other bound elements, so each one's text or placeholder is set independently. Setting `textContent` (js/main.js:63) would otherwise remove nested bound elements before the placeholder query at js/main.js:68.
- The dictionary fetch is a parameter (`LoadLanguageData(fetched)`). So is the failure of the send body (`HandleFormSubmit(form, bodyThrows)`).

Two behaviours of the code a reader may not expect:
- A lookup ending on a nested object is not treated as missing. It overwrites the element with `[object Object]` (`SubtreeKeyShowsObjectText`).
- Switching locale twice restores the rendered page only when every bound key resolves in the locale returned to (`SwitchBackRestores`). A key missing there keeps the other locale's text (`SwitchBackMayNotRestore`).

## Model

| member | source | states |
|---|---|---|
| Translation.Step | js/main.js:96 | one step of the `reduce`, `current && current[key]`: a truthy result only comes from an object that holds the key, and is that key's value |
| Translation.Walk | js/main.js:96 | the `reduce` over the key segments, left to right: a truthy result after at least one segment means the walk started at an object |
| Translation.GetNestedValue | js/main.js:95-97 | `getNestedValue` is truthy exactly when every segment resolves to a truthy value, and it then equals that value |
| Translation.Split | js/main.js:96 | `path.split('.')` gives at least one piece, no piece holds a dot, and the pieces joined with `.` give the path back |
| Translation.SplitJoin | js/main.js:96 | splitting the dot-join of dot-free segments gives those segments back |
| Translation.SplitAtFirstDot | js/main.js:96 | a key `a.b` with dot-free `a` splits into `a` followed by the pieces of `b` |
| Translation.SplitWithoutDot | js/main.js:96 | a key without dots is a single segment |
| Translation.FalsyIsSticky | js/main.js:96 | once `current` is falsy (`undefined` or `""`), `current && current[key]` keeps it for all later segments |
| Translation.WalkFollowsDescend | js/main.js:95-97 | the lookup gives the value that strict segment-by-segment resolution reaches, and a falsy value (never a failure) when a segment is missing |
| Translation.MissingSegmentGivesNoValue | js/main.js:95-97 | a key with a missing segment anywhere gives no value |
| Translation.SingleSegmentKey | js/main.js:95-97 | a key without dots gives the top-level entry, or nothing |
| Translation.LookupDescendsOneSegment | js/main.js:95-97 | `head.rest` looks up `head`, then `rest` inside what `head` names; nothing when `head` is missing |
| Content.ApplyTranslation | js/main.js:59-64 | one bound element after the guarded assignment: its key is kept, and it changes only when the lookup is truthy |
| Content.Translated | js/main.js:58-65 | the `forEach` over the bound elements keeps the list's length, order and keys |
| Content.MissingKeyKeepsContent | js/main.js:58-65 | an element whose key has a missing segment keeps its text or placeholder |
| Content.EmptyTextKeepsContent | js/main.js:62-64 | an element whose key resolves to `""` keeps its content |
| Content.ResolvedKeyShowsText | js/main.js:62-64 | an element whose key resolves to a non-empty string shows that string |
| Content.SubtreeKeyShowsObjectText | js/main.js:62-64 | an element whose key names a nested object shows `[object Object]` |
| Content.TranslatedIdempotent | js/main.js:52-80 | rendering the same dictionary twice equals rendering it once |
| Content.FullyResolvedForgetsHistory | js/main.js:58-76 | when every key resolves truthily, the rendered page does not depend on what it showed before |
| Content.SwitchBackRestores | js/main.js:46-50 | switching away and back restores the rendered elements when all keys resolve in the locale returned to |
| Content.SwitchBackMayNotRestore | js/main.js:62-64 | a key missing in the returned-to locale but present in the other keeps the other locale's text after switching back |
| Locale.SwitchedCode | js/main.js:47 | the switch always yields a supported code, and a different one from a supported code |
| Locale.SwitchTwiceRestores | js/main.js:47 | switching twice restores `ko` and `en` |
| Locale.LanguageLabel | js/main.js:82-93 | the button reads the active code in capitals, then ` / `, then the code a click switches to |
| Locale.LabelDeterminesLocale | js/main.js:86-92 | the two locales get different labels |
| Whitespace.Trim | js/main.js:128 | `String.prototype.trim` as `trimEnd` after `trimStart`; its behaviour is stated by the three lemmas below |
| Whitespace.TrimStartDropsLeadingSpace | js/main.js:128 | `trim` (start): keeps a suffix, drops only white space, keeps nothing that starts with white space |
| Whitespace.TrimEndDropsTrailingSpace | js/main.js:128 | `trim` (end): keeps a prefix, drops only white space, keeps nothing that ends with white space |
| Whitespace.TrimEmptyIffAllSpace | js/main.js:128 | a value is blank after `trim` exactly when all its characters are white space |
| Email.IsValidEmail | js/main.js:145-148 | the anchored pattern as a decomposition: local part, `@`, domain head, `.`, domain tail, each a non-empty run of characters that are neither white space nor `@`; stated in plain words by `ValidEmailIffShape` |
| Email.ValidEmailIffShape | js/main.js:145-148 | the pattern accepts exactly the strings with no white space, one `@` with something before it, and a `.` after it that is neither first nor last in the domain |
| Email.SecondAtRejected | js/main.js:146 | a second `@` anywhere is rejected |
| Email.SurroundingSpaceRejected | js/main.js:146 | leading or trailing white space is rejected |
| Email.AcceptsPlainAddress | js/main.js:146 | `a@b.com` is accepted |
| Email.RejectsMissingAt | js/main.js:146 | `not-an-email` is rejected |
| Validation.FieldErrors | js/main.js:127-139 | the errors one required control adds: at most one, naming that control |
| Validation.FormErrors | js/main.js:120-140 | the errors of all controls in document order; its properties are the lemmas below |
| Validation.ErrorTextNamesField | js/main.js:131-137 | each pushed string starts with the field name and `: `, and the two kinds of error give different strings |
| Validation.FieldErrorsShape | js/main.js:127-139 | a field adds no error if optional, "required" iff blank, e-mail format iff filled, `type` `email` and failing `isValidEmail` |
| Validation.ValidateForm | js/main.js:119-143 | the loop collects exactly the form's per-field errors in order, and `isValid` is false exactly when `errors` is non-empty |
| Validation.CollectAppend | js/main.js:127-140 | collecting per-control results over two consecutive runs of controls gives the two results concatenated |
| Validation.FormErrorsAppend | js/main.js:127-140 | the errors of consecutive runs of controls are concatenated |
| Validation.OptionalFieldIgnored | js/main.js:120 | a control without `required` adds no error wherever it stands |
| Validation.AtMostOneErrorPerRequiredField | js/main.js:127-140 | there are never more errors than required controls |
| Validation.SingleFieldErrors | js/main.js:127-140 | a one-control form has exactly that control's errors |
| Validation.FieldErrorsIncluded | js/main.js:127-140 | every error of a control appears in the form's list |
| Validation.BlankRequiredFieldReported | js/main.js:128-131 | a blank required control is reported by name as a required-field error |
| Validation.MalformedEmailReported | js/main.js:133-138 | a filled required e-mail control failing the pattern is reported as a format error |
| Validation.NoErrorsIffEveryFieldPasses | js/main.js:121-142 | the error list is empty exactly when every control passes |
| Validation.UntrimmedEmailRejected | js/main.js:128-134 | the e-mail test receives `field.value` untrimmed, so a value that is not all white space but starts or ends with white space, when it reaches the script, passes the required check and fails the format check |
| Navigation.Next | js/main.js:223-233 | a hamburger click toggles both flags, a link click or a resize above 768 clears both, a narrower resize changes nothing; flags in step stay in step |
| Navigation.RunKeepsInStep | js/main.js:223-233 | from equal flags, menu and hamburger stay equal after any sequence of events |
| Navigation.ClosingEventCloses | js/main.js:266-274 | any sequence of events ending with a link click or a wide resize leaves both flags false |
| Navigation.HamburgerTwiceRestores | js/main.js:223-226 | two hamburger clicks restore the flags |
| Navigation.MobileNav.constructor | js/main.js:219-221 | the two elements the script looks up, in the closed state that the page markup is assumed to give them |
| Navigation.MobileNav.OnHamburgerClick | js/main.js:223-226 | the listener applies the hamburger-click transition |
| Navigation.MobileNav.OnLinkClick | js/main.js:229-234 | the listener applies the link-click transition |
| Navigation.MobileNav.OnResize | js/main.js:266-274 | the listener applies the resize transition for the window width |
| Landing.Reset | js/main.js:304 | `form.reset()` with empty default values; stated by `ResetFormIsIncomplete` |
| Landing.ResetFormIsIncomplete | js/main.js:304 | after `form.reset()` every required control is reported blank again |
| Landing.MyeongTaeLanding.HasDictionary | js/main.js:54-56 | the early-return test: the active locale has a loaded, truthy dictionary |
| Landing.MyeongTaeLanding.constructor | js/main.js:10-14 | the object starts in `ko` with no dictionaries |
| Landing.MyeongTaeLanding.LoadLanguageData | js/main.js:26-44 | on success both dictionaries are stored and the page is rendered in the active locale when its dictionary is truthy; on failure nothing changes |
| Landing.MyeongTaeLanding.SwitchLanguage | js/main.js:46-50 | the locale flips, the page is re-rendered when the new locale's dictionary is truthy and left alone otherwise, and the button shows the new label |
| Landing.MyeongTaeLanding.UpdatePageContent | js/main.js:52-80 | without a truthy dictionary for the active locale nothing changes, not even `lang`; otherwise both element lists are re-rendered in place and `lang` becomes the active code |
| Landing.MyeongTaeLanding.UpdateLanguageButton | js/main.js:82-93 | the button shows the active locale's label; nothing else changes |
| Landing.MyeongTaeLanding.HandleFormSubmit | js/main.js:280-314 | an invalid form shows its errors and leaves the button, banners and fields alone. A valid form takes the button through "disabled, sending" to "enabled, original label", adds a success or error banner, and is reset only on success |

## Left out

- The fetching of `./lang/ko.json` and `./lang/en.json` with `Promise.all` (js/main.js:26-31) is network I/O. Its outcome is a parameter: both dictionaries, or a failure.
- `console.log` and `console.error` output is not modelled.
- `smoothScrollTo`, `setupScrollAnimations` and `setupNavbarScroll` are not modelled. They depend on layout geometry, `IntersectionObserver` and scroll events, and only change styling.
- Event-listener registration (`setupEventListeners`, `setupMobileNavigation` wiring) is not modelled. Each listener body of the modelled behaviour is a method here.
- `FormData` collection is not modelled.
- `showFieldError` and `clearFormErrors` are reduced to the list of errors shown.
- `showSuccessMessage` and `showErrorMessage` are reduced to appending a banner. Their styling and their removal after five seconds are not modelled.
- Translation.Step: indexing into a non-empty string leaf (a key that goes past a leaf, such as `title.0` or `title.length`) gives `Absent`. JavaScript gives a character or a number there.
- Translation.Step: keys that name members inherited from `Object.prototype` (such as `toString`) are treated as missing.
- Whitespace.IsSpace lists the ECMAScript white-space and line-terminator characters for the current Unicode space separators. A separator added by a later Unicode version is not covered.
- Landing.Reset: `form.reset()` restores each control's default value. The model sets every value to `""`, which assumes the markup gives no default values.
- Landing.MyeongTaeLanding.HandleFormSubmit: a failure of the send body is assumed to happen before the banner or the reset. Failures part-way through the body are not distinguished.
- `handleFormSubmit` assumes the form has a submit button. A missing one, which would throw outside the `try`, is not modelled.
- Validation.UntrimmedEmailRejected holds of the test at js/main.js:134. On a real page, an `<input type="email">` already strips newlines and leading or trailing HTML ASCII whitespace (tab, line feed, form feed, carriage return and space) from its value. So only white space outside that set (such as U+000B, U+00A0 or U+3000) reaches the test untrimmed. Browser value sanitization is not modelled.
- Navigation.MobileNav.constructor: the closed start state comes from the page markup, which is not part of this model. The script never sets `active` at start-up. `RunKeepsInStep` relies on this assumption through its in-step requirement.
- Validation.ValidateForm receives the form's `input` and `textarea` controls in document order. Other control kinds, which the `required` selector skips, are not represented.
