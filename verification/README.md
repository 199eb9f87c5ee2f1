# Template display: content-form validation and catalog lookup

This project models the data logic of a small template-gallery front end.
The front end has a fixed catalog of page templates. A route `/form/:templateId`
opens a content form for one template, or falls back to a "not found" view when
the id is not in the catalog. The form collects three hero texts, two optional
file lists and two required contact fields (email and phone number). On submit
it builds an error map, keyed only by `email` and `phoneNumber`, for the contact
fields that are blank after `trim()`. The map is non-empty exactly when the
submit is blocked. A React effect then removes an error entry as soon as its
field is filled in again.

Everything is modelled as pure functions over immutable values:

- `Strings`: JavaScript's `String.prototype.trim`, built from the ECMAScript
  whitespace and line-terminator code points. `IsTrimOf` is an independent
  reference definition, and a proof shows it picks exactly one result.
- `Templates`: the catalog constant, `FindIndex`/`Find` (JavaScript's
  `Array.prototype.find`: first match in order) and `FindTemplateById`.
- `Form`: the `FormState` record, the text and file change handlers, and the
  selected-file count.
- `Validation`: the submit-time `Validate`, the reactive `ClearErrors` and the
  effect body with its key-count guard (`ErrorsEffect`).
- `FormPage`: opening the route (form or not-found view), the handler for each
  user event followed by the effect, the submit feedback, and an invariant over
  any sequence of events: every error that is shown belongs to a field that is
  blank right now.

Two details of the code shape the model:

- Lookup returns the first record with the id (`Templates.FirstMatchWins`).
  The catalog's ids are distinct (`Templates.CatalogLookups`), so at most one
  record matches.
- An error is cleared only when its message is truthy and the trimmed value is
  non-empty (src/pages/FormPage.jsx:31, 36).

## Model

| member | source | states |
|---|---|---|
| Strings.TrimStart | src/pages/FormPage.jsx:64 | the result is a suffix of the input, everything dropped is whitespace, and the result does not start with whitespace |
| Strings.TrimEnd | src/pages/FormPage.jsx:64 | the result is a prefix of the input, everything dropped is whitespace, and the result does not end with whitespace |
| Strings.Trim | src/pages/FormPage.jsx:64 | `trim()` meets the reference definition (a slice with only whitespace around it and no whitespace at its ends), and it is empty exactly when every character is whitespace |
| Strings.TrimOfUnique | src/pages/FormPage.jsx:64 | the reference definition of trimming determines at most one string |
| Strings.TrimMeetsReference | src/pages/FormPage.jsx:64 | any string meeting the reference definition is what `trim()` returns |
| Strings.BlankIffTrimEmpty | src/pages/FormPage.jsx:64 | the blankness test used throughout is exactly `!value.trim()` |
| Templates.FindIndex | src/data/templates.js:15-17 | a hit is an in-range index whose id equals the query, with no earlier match; a miss happens exactly when no record has the id |
| Templates.Find | src/data/templates.js:15-17 | a returned record has the queried id and is in the catalog; "not found" happens exactly when no catalog record has that id |
| Templates.FindTemplateById | src/data/templates.js:15-17 | the same two promises, for the fixed catalog |
| Templates.FirstMatchWins | src/data/templates.js:16 | when several records share an id, the earliest one in catalog order is returned |
| Templates.FindsEveryRecord | src/data/templates.js:15-17 | with unique ids, every catalog record is found by its own id |
| Templates.CatalogLookups | src/data/templates.js:1-12 | the catalog ids are distinct; `template-1` resolves to "Organizer landing page" and `template-2` to "Event Landing Page" |
| Form.FieldsDetermineState | src/pages/FormPage.jsx:9-17 | a form state is fully determined by its five texts and two file lists |
| Form.SetText | src/pages/FormPage.jsx:50-52 | the named text field takes the new value; every other text and both file lists are unchanged |
| Form.SetFiles | src/pages/FormPage.jsx:54-56 | the named list becomes exactly the new selection, so its length is the selection's size; the other list and all texts are unchanged |
| Form.SetTextLastWins | src/pages/FormPage.jsx:50-52 | two updates of the same text field leave only the later value |
| Form.SetFilesReplaces | src/pages/FormPage.jsx:54-56 | a second selection replaces the first instead of being appended to it |
| Form.SelectionCountAfterUpdate | src/pages/FormPage.jsx:126-132 | after a selection the displayed count equals its size, and the notice is shown exactly when the selection is non-empty |
| Validation.Validate | src/pages/FormPage.jsx:58-71 | `email` has an entry exactly when the email is blank after trimming, with the message "Email address is required."; the same holds for `phoneNumber` with "Phone number is required." |
| Validation.BlockedIffContactMissing | src/pages/FormPage.jsx:76-81 | the error map is non-empty (the submit is blocked) exactly when one of the two contact fields is blank |
| Validation.ValidateBothMissing | src/pages/FormPage.jsx:64-71 | with both contact fields blank, the map is exactly the two messages |
| Validation.InitialMissesBoth | src/pages/FormPage.jsx:9-17 | the initial form has both contact fields blank |
| Validation.MissingIffTrimEmpty | src/pages/FormPage.jsx:64-71 | a contact field counts as missing exactly when `trim()` of its value is the empty string, the test `!formData.email.trim()` / `!formData.phoneNumber.trim()` |
| Validation.ValidateReadsOnlyContacts | src/pages/FormPage.jsx:58-81 | two forms with equal email and phone number get the same error map |
| Validation.ValidateIgnoresHeroAndMedia | src/pages/FormPage.jsx:120-133 | changing a hero text or either file list never changes the error map, so the media lists have no minimum count |
| Validation.ClearErrors | src/pages/FormPage.jsx:28-38 | no key is added and every kept value is unchanged; an existing entry is removed exactly when its message is truthy and its field is no longer blank |
| Validation.ClearErrorsIdempotent | src/pages/FormPage.jsx:28-38 | clearing its own output removes nothing more |
| Validation.TypingClearsOnlyItsOwnError | src/pages/FormPage.jsx:31-38 | typing a non-whitespace value into a field that shows its error removes that error; the other field's entry fares exactly as it would without the edit |
| Validation.ErrorsEffect | src/pages/FormPage.jsx:41-43 | the effect never adds keys, and it writes only a map that differs from the current one |
| Validation.EffectGuardIsExact | src/pages/FormPage.jsx:41-43 | the key-count comparison fires exactly when something was cleared, and afterwards the errors equal the cleared map |
| Validation.EffectSettles | src/pages/FormPage.jsx:27-44 | re-running the effect on its own result writes nothing, so the re-render it causes stops there |
| FormPage.Open | src/pages/FormPage.jsx:46-48 | an id opens the not-found view exactly when no catalog record has it; otherwise it opens an empty form without errors for the matching record |
| FormPage.Title | src/pages/FormPage.jsx:98 | the heading is the template's label followed by " Content Form" |
| FormPage.Handle | src/pages/FormPage.jsx:50-87 | a text or file event updates only the form as its handler does and gives no feedback; a submit sets the errors to `Validate` of the unchanged form, blocks exactly when that map is non-empty, and succeeds exactly when it is empty, reporting the template id, label and form |
| FormPage.EffectRunsExactlyOn | src/pages/FormPage.jsx:44 | `EffectDepsChanged` holds exactly after a submit (the errors object is always replaced) or an edit that changes the email or phone number value; never after a file selection or a hero-text edit |
| FormPage.ContactEditClears | src/pages/FormPage.jsx:27-44 | after an edit that changes the email or phone number value, the errors are exactly the cleared map of the edited form |
| FormPage.TypingClearsErrorOnPage | src/pages/FormPage.jsx:31-43 | on a consistent page, typing a value with a non-whitespace character into a field showing its error removes that error and keeps every other error with its message |
| FormPage.OnlyCatalogIdsOpen | src/pages/FormPage.jsx:46-48 | exactly `template-1` and `template-2` open a form |
| FormPage.Dispatch | src/pages/FormPage.jsx:27-56 | one event keeps the template; text and file events update the form as their handlers do; only a submit can add errors; file and hero-text events leave the errors unchanged |
| FormPage.SubmitOutcome | src/pages/FormPage.jsx:58-87 | after a submit the errors are exactly `Validate` of the form; the submit is blocked exactly when a contact field is blank and succeeds exactly when both are non-blank, reporting the template id, label and unchanged form |
| FormPage.DispatchKeepsConsistent | src/pages/FormPage.jsx:27-81 | if every shown error belongs to a blank field, that stays true after any event |
| FormPage.TextChangeKeepsJustified | src/pages/FormPage.jsx:28-38 | after a text edit and the clearing pass, each surviving entry still carries its message and belongs to a blank field |
| FormPage.RunKeepsConsistent | src/pages/FormPage.jsx:27-81 | the invariant holds after any sequence of events, and the template never changes |
| FormPage.ShownErrorsAreBlank | src/pages/FormPage.jsx:142-148 | on every page reached from opening the form, a displayed error means its field is blank |
| FormPage.EnterContacts | src/pages/FormPage.jsx:50-52 | typing into both contact fields leaves exactly those values in the form |
| FormPage.Template1Title | src/pages/FormPage.jsx:98 | the `template-1` form is titled "Organizer landing page Content Form" |
| FormPage.Template1FilledSubmits | src/pages/FormPage.jsx:83-87 | with email "a@b.com", phone "555" and no files, the submit succeeds |
| FormPage.EmptySubmitReportsBoth | src/pages/FormPage.jsx:58-74 | submitting a fresh form blocks and yields exactly both messages |

## Left out

- `src/pages/HomePage.jsx` (the card grid, the preview modal's two-phase timer, the Escape-key listener and the scroll lock) is not part of this model. It consists of UI timers and DOM side effects.
- `components/GlobetranslateBtn.jsx` and `components/TranslateBtn.jsx` are not part of this model. They inject a third-party script and are asynchronous boundary code.
- `src/App.jsx` routing is left to the router library. Only the found or not-found outcome of the form route is modelled (`FormPage.Open`).
- `src/pages/NotFoundPage.jsx` is a static view. It appears only as `NotFoundView`.
- JSX rendering, CSS (including the `capitalize` class on the title), `e.preventDefault()`, `alert` and `console` output are left out. The alerts and the logged payload appear only as the `Feedback` value of a step.
- Browser `File` objects are opaque tokens (`Form.FileHandle`). `Array.from(e.target.files)` is taken to preserve the selection's order.
- The change handlers write `[e.target.name]`, which in principle could be any string. The model restricts the names to the five text inputs and two file inputs that carry these handlers.
- React's scheduling is simplified to one effect run after each event whose dependencies changed. A second, no-op run is not modelled, and `Validation.EffectSettles` proves it writes nothing. The effect run on mount is not modelled either: it starts from an empty error map, so it is a no-op.
- Lookup purity (the catalog is not modified) holds by construction, because the catalog is an immutable value. No lemma states it.
- Strings.IsWhitespace: this follows the ECMAScript WhiteSpace and LineTerminator sets with the current Unicode space separators. Older engines that used an earlier Unicode table (for example, one counting U+180E) are not modelled.
