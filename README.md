# satnita admin core, modelled in Dafny

This project models the client-side state logic of the satnita site, a promotional site for a student satellite team. Everything is stored in the browser's `localStorage`:

- **Admin context** (`AdminContext`). A provider object holds the admin session flag and the "About Us" record. Two effects mirror both values into the store. It offers `login` against a fixed password, `logout` and `updateAboutUs`. It is modelled as a class over a shared `LocalStorage.Storage` object. The model states that the store holds exactly the flag and the record after mounting and after every operation. A reload rebuilds the same state from that store.
- **Application form** (`ApplicationForm`). This covers the form's ordered field record, the per-field validation (some fields trimmed, some not), the unanchored email pattern `\S+@\S+\.\S+`, the clearing of one field's error on edit, and the ordered `FormData` payload built on submit.
- **Department catalogue** (`Departments`). The constant table of six departments and the first-match search by id.
- **Application list labels** (`ApplicationList`). The department display-name table with its fallback to the raw id, and the "Showing N application(s)" line.
- **Login form** (`AdminLogin`). The submit handler that refuses blank passwords and otherwise calls `login` with the untrimmed password.
- **Editors** (`AboutUsEditor`, `BulletinEditor`). Local copies of a record, edited field by field and saved. The bulletin editor writes `bulletinInfo` itself, around calls that may throw, and then clears caches on a best-effort basis.

Support modules:

- `JsString`: ECMAScript `trim`, the `\s`/`\S` classes, and the decimal rendering of numbers.
- `Json`: a JSON-like encoding of two-field records. A strict decoder is proved inverse to the encoder in both directions.
- `LocalStorage`: the store.
- `Wrappers`: `Option`.

The model follows the code in src/:

- The admin context has no bulletin, no contact-info record and no refresh timer.
- Writes carry no timestamps.
- `updateAboutUs` does not validate its argument.
- A stored About-Us value that cannot be parsed makes mounting fail. It is not replaced by the default.
- The bulletin editor's `bulletinInfo` and `updateBulletinInfo` are not provided by `AdminContextType` (src/contexts/AdminContext.tsx:9-15). They appear here as a seed value and as an outcome parameter.

## Model

| member | source | states |
|---|---|---|
| `JsString.Trim` | src/pages/ApplicationForm.tsx:63 | `trim()` leaves no whitespace at either end of its result, and the result is no longer than the input; `TrimIsSlice` and `TrimUnique` state what the result is |
| `JsString.TrimIsSlice` | src/pages/ApplicationForm.tsx:63 | the result of `trim()` is a slice of the input with only whitespace before and after it |
| `JsString.TrimUnique` | src/pages/ApplicationForm.tsx:63 | a slice of the input with only whitespace around it and a visible character at each end (or empty) is the result of `trim()`: together with `Trim`'s contract this determines `trim()` on every string |
| `JsString.BlankIffAllWhitespace` | src/pages/ApplicationForm.tsx:63-72 | `!s.trim()` holds exactly when every character of `s` is ECMAScript whitespace |
| `JsString.DecimalRoundTrip` | src/components/ApplicationList.tsx:118 | reading back the decimal rendering of a count gives the count |
| `JsString.DecimalInjective` | src/components/ApplicationList.tsx:118 | different counts render differently |
| `Json.DecodeEncodePair` | src/contexts/AdminContext.tsx:33-37 | parsing the stringified `{k1, k2}` record gives back its two values |
| `Json.EncodeDecodePair` | src/contexts/AdminContext.tsx:33-37 | every text the decoder accepts is exactly the encoding of what it decodes to |
| `Json.EncodePairInjective` | src/contexts/AdminContext.tsx:37 | two records with the same stored text are the same record |
| `LocalStorage.Storage.SetItem` | src/contexts/AdminContext.tsx:41 | `setItem` overwrites one key and leaves the others |
| `AdminContext.EncodeAboutUs` | src/contexts/AdminContext.tsx:37 | `JSON.stringify(aboutUs)`: the `{title, content}` record as stored; `AboutUsRoundTrip` and `AboutUsCanonical` state its relation to `DecodeAboutUs` |
| `AdminContext.DecodeAboutUs` | src/contexts/AdminContext.tsx:33 | `JSON.parse(saved)`, with `None` for a text that does not parse as a `{title, content}` record |
| `AdminContext.AuthText` | src/contexts/AdminContext.tsx:41 | the session effect stores "true" for a set flag and "false" otherwise; `InitialAuth` reads back exactly the flag from it (`RemountRestores`) |
| `AdminContext.AboutUsRoundTrip` | src/contexts/AdminContext.tsx:31-38 | a stored About-Us record decodes back to itself |
| `AdminContext.AboutUsCanonical` | src/contexts/AdminContext.tsx:31-38 | a decodable stored About-Us text is the encoding of its decoded record |
| `AdminContext.InitialAuth` | src/contexts/AdminContext.tsx:25-29 | the session starts authenticated exactly when the stored "adminAuth" is the text "true"; absence or any other text gives false |
| `AdminContext.InitialAboutUs` | src/contexts/AdminContext.tsx:31-34 | a missing or empty stored "aboutUs" gives `defaultAboutUs`; a non-empty one gives its decoding, whose encoding is the stored text; initialisation fails exactly when a non-empty stored value does not decode |
| `AdminContext.CorruptAboutUsFailsMount` | src/contexts/AdminContext.tsx:31-34 | a stored "aboutUs" of "???" makes initialisation fail, not fall back to the default |
| `AdminContext.MirrorsAfterWrites` | src/contexts/AdminContext.tsx:36-42 | after both effects have written, the store mirrors the flag and the record |
| `AdminContext.RemountRestores` | src/contexts/AdminContext.tsx:24-42 | a store that mirrors a session flag and record gives back exactly that flag and record on the next mount |
| `AdminContext.Provider.Mount` | src/contexts/AdminContext.tsx:24-42 | mounting applies both initialisers and both effects. It fails exactly when the initialiser fails, and then leaves the store untouched. Otherwise the store holds the encoded record and "true"/"false" |
| `AdminContext.Provider.SetIsAuthenticated` | src/contexts/AdminContext.tsx:40-42 | the session effect keeps "adminAuth" equal to "true" or "false" as the flag is |
| `AdminContext.Provider.Login` | src/contexts/AdminContext.tsx:44-50 | `login(p)` succeeds exactly when `p` is "KLPD" (case-sensitive, untrimmed). Success sets the flag and stores "true". Failure changes neither the flag nor the store |
| `AdminContext.Provider.Logout` | src/contexts/AdminContext.tsx:52-54 | `logout` clears the flag whatever it was and stores "false"; the record is kept |
| `AdminContext.Provider.UpdateAboutUs` | src/contexts/AdminContext.tsx:56-58 | the record is replaced wholesale with no check (empty fields are accepted); the store holds its encoding and the flag is unchanged |
| `AdminContext.LogoutIsIdempotent` | src/contexts/AdminContext.tsx:52-54 | two logouts in a row leave the provider and the store exactly as one does: the flag clear, the record kept and "adminAuth" set to "false" |
| `Departments.FirstWithId` | src/data/departments.ts:110-112 | the search stops at the first entry with the id; every entry before it has a different id |
| `Departments.GetDepartmentById` | src/data/departments.ts:110-112 | the result is a catalogue entry with the queried id and no earlier entry has that id; it is `undefined` exactly when no entry has the id |
| `Departments.CatalogueShape` | src/data/departments.ts:11-108 | six entries with pairwise distinct ids, each with three skills, three knowledge items and an icon from zap/radio/cpu/compass |
| `Departments.GetDepartmentByOwnId` | src/data/departments.ts:11-112 | every entry is found by its own id |
| `Departments.NoDepartmentForEmptyId` | src/data/departments.ts:110-112 | the empty id finds no department |
| `ApplicationList.FormatDepartment` | src/components/ApplicationList.tsx:71-79 | the four known ids map to their display names; any other id is returned unchanged |
| `ApplicationList.ShownRawIffUnknown` | src/components/ApplicationList.tsx:71-79 | an id is displayed as itself exactly when the table does not know it |
| `ApplicationList.CatalogueDisplay` | src/components/ApplicationList.tsx:72-78 | the catalogue's "payload" and "data-processing" ids are shown raw and the other four catalogue ids are renamed |
| `ApplicationList.Summary` | src/components/ApplicationList.tsx:113-119 | the line above the list: the empty-list message for no applications, otherwise "Showing N application(s)"; `SummaryStatesCount` and `EmptyListMessage` state what it says |
| `ApplicationList.SummaryStatesCount` | src/components/ApplicationList.tsx:117-119 | the count line states the count, and ends in "applications" except for exactly one application |
| `ApplicationList.EmptyListMessage` | src/components/ApplicationList.tsx:113-119 | an empty list shows "No applications submitted yet." and a non-empty list never does |
| `ApplicationForm.Lookup` | src/pages/ApplicationForm.tsx:63-72 | `formState.<field>` is the value of the first entry with that key, and is absent exactly when no entry of the record has it |
| `ApplicationForm.ValueIsLookup` | src/pages/ApplicationForm.tsx:63-72 | the field reads the validation makes (`formState.<field>`, modelled by `Value`) give the field's `Lookup` value whenever the record holds the field |
| `ApplicationForm.Assign` | src/pages/ApplicationForm.tsx:38 | the spread update gives the key the new value. An existing key keeps its position and every key keeps its place; a new key is appended. Assigning a key its current value changes nothing |
| `ApplicationForm.AssignOthersUnchanged` | src/pages/ApplicationForm.tsx:38 | the spread update leaves the value of every other key as it was |
| `ApplicationForm.AssignKeepsFieldOrder` | src/pages/ApplicationForm.tsx:38 | edits keep the six fields first, in their initial order |
| `ApplicationForm.InitialForm` | src/pages/ApplicationForm.tsx:13-20 | the form starts with the six fields in order, all "" except `department`, which is the route parameter or "" |
| `ApplicationForm.EmailPattern` | src/pages/ApplicationForm.tsx:66 | `/\S+@\S+\.\S+/.test(s)`: somewhere in `s` an `@` and a later `.` have a non-whitespace character before the `@`, only and at least one non-whitespace character between them and one after the `.` |
| `ApplicationForm.EmailPatternInContext` | src/pages/ApplicationForm.tsx:66 | the email pattern is unanchored: text around a matching address keeps it matching |
| `ApplicationForm.BlankEmailNeverMatches` | src/pages/ApplicationForm.tsx:64-68 | a blank email never matches the pattern, so "Email is required" and "Email is invalid" never both apply |
| `ApplicationForm.EmailExamples` | src/pages/ApplicationForm.tsx:66 | "a@b.c" and "mail me: a@b.c " match; "a@b", "a @b.c" and "a@.c" do not |
| `ApplicationForm.ErrorsFor` | src/pages/ApplicationForm.tsx:61-72 | the rules of `validateForm`: each field's key carries its own message exactly when its rule fails, and no other key appears |
| `ApplicationForm.NoErrorsIffComplete` | src/pages/ApplicationForm.tsx:60-76 | validation yields an empty error map exactly when name, phone and branch are non-blank, department and year are non-empty, and the email is non-blank and matches |
| `ApplicationForm.SpacesPassOnlyUntrimmedChecks` | src/pages/ApplicationForm.tsx:63-72 | a department and a year made only of whitespace (but not empty) pass their untrimmed checks, while a name, phone and branch made only of whitespace fail their trimmed ones |
| `ApplicationForm.CollectErrors` | src/pages/ApplicationForm.tsx:61-72 | the map assembled check by check meets `ErrorsFor`: trimmed emptiness for name, phone and branch, exact emptiness for department and year, required-then-pattern for email, no other key; every message is non-empty |
| `ApplicationForm.PayloadKeyOrder` | src/pages/ApplicationForm.tsx:93-101 | the payload keys are form-name, then name, email, phone, department, year, branch, then resume when a file is selected |
| `ApplicationForm.BuildPayload` | src/pages/ApplicationForm.tsx:93-101 | the payload is the ("form-name", "application-form") entry, then every form entry in order as text, then ("resume", file) only when a file is selected |
| `ApplicationForm.Form.constructor` | src/pages/ApplicationForm.tsx:13-34 | the form starts from the initial state with no errors, no file and not submitting. It navigates away exactly when a non-empty route parameter names no catalogue department, and then leaves the form unchanged |
| `ApplicationForm.Form.HandleInputChange` | src/pages/ApplicationForm.tsx:36-48 | only the named field changes, and its error entry is removed when its message is truthy, which under `Valid()` every stored message is; all other fields and errors stay |
| `ApplicationForm.Form.HandleFileChange` | src/pages/ApplicationForm.tsx:50-54 | the first chosen file becomes the résumé; an empty choice keeps the old one |
| `ApplicationForm.Form.ClearFile` | src/pages/ApplicationForm.tsx:56-58 | removing the résumé changes nothing else |
| `ApplicationForm.Form.ValidateForm` | src/pages/ApplicationForm.tsx:60-76 | the error map is replaced by the one the rules give, and the result is true exactly when it is empty |
| `ApplicationForm.Form.HandleSubmit` | src/pages/ApplicationForm.tsx:78-101 | a payload is produced exactly when the form is complete. An incomplete form leaves `isSubmitting` as it was. A complete one sets it and yields the ordered payload of the current fields and file |
| `ApplicationForm.Form.FinishSubmission` | src/pages/ApplicationForm.tsx:127-129 | after the request settles the form is no longer submitting |
| `AdminLogin.LoginForm.constructor` | src/components/AdminLogin.tsx:8-10 | password and error start empty |
| `AdminLogin.LoginForm.ChangePassword` | src/components/AdminLogin.tsx:52 | typing replaces the password |
| `AdminLogin.LoginForm.HandleSubmit` | src/components/AdminLogin.tsx:12-25 | a blank password shows "Password is required" and leaves the session and store untouched, since `login` is not called. Otherwise `login` gets the untrimmed password: success leaves the error "" and opens the session, failure shows "Invalid password" |
| `AdminLogin.NearMissesReachLoginAndFail` | src/components/AdminLogin.tsx:16-24 | " KLPD", "KLPD " and "klpd" pass the blank check and are refused by `login` |
| `AdminLogin.PasswordIsNotBlank` | src/components/AdminLogin.tsx:16-21 | the real password always reaches `login` |
| `AboutUsEditor.Editor.constructor` | src/components/AboutUsEditor.tsx:7-13 | the local title and content start as the context's record, with both flags false |
| `AboutUsEditor.Editor.HandleInputChange` | src/components/AboutUsEditor.tsx:15-20 | only the field the input names changes |
| `AboutUsEditor.Editor.HandleSubmit` | src/components/AboutUsEditor.tsx:22-38 | the context's record becomes exactly the local {title, content}, unchecked. The store holds its encoding and the session is unchanged. The handler ends with `isSuccess` set and `isError` clear |
| `AboutUsEditor.SaveThenReload` | src/components/AboutUsEditor.tsx:15-31 | any title and content typed into the editor and saved are exactly the record the next page load shows, and the session flag survives the reload too |
| `BulletinEditor.EncodeBulletin` | src/components/BulletinEditor.tsx:35-38 | `JSON.stringify({text, formLink})` as stored under "bulletinInfo"; `StoredBulletinHoldsExactlyItsFields` and `EncodeBulletinInjective` state what it keeps |
| `BulletinEditor.StoredBulletinHoldsExactlyItsFields` | src/components/BulletinEditor.tsx:35-38 | the stored "bulletinInfo" decodes to exactly the text and form link, with no other field |
| `BulletinEditor.EncodeBulletinInjective` | src/components/BulletinEditor.tsx:35-38 | different bulletins are stored as different texts |
| `BulletinEditor.Editor.constructor` | src/components/BulletinEditor.tsx:7-14 | the local text and form link start as the context's bulletin, with both flags false |
| `BulletinEditor.Editor.HandleInputChange` | src/components/BulletinEditor.tsx:16-21 | only the field the input names changes |
| `BulletinEditor.Editor.HandleSubmit` | src/components/BulletinEditor.tsx:23-58 | both flags are reset first. If `updateBulletinInfo` or `setItem` throws, nothing is stored and only `isError` ends set. Otherwise "bulletinInfo" holds the encoded local {text, formLink}, unchecked, and `isSuccess` ends set whatever the cache clearing did |
| `BulletinEditor.BulletinKeyIsSeparate` | src/components/BulletinEditor.tsx:35 | "bulletinInfo" is neither of the admin context's keys |
| `BulletinEditor.SaveKeepsSession` | src/components/BulletinEditor.tsx:23-58 | a bulletin save into the shared store, whatever the outcomes of `updateBulletinInfo`, `setItem` and the cache clearing, keeps the store mirroring the session and the About-Us record |

## Left out

- Rendering, styling, animation, routing and the pages that only display data (the index and department pages, the navigation bar, the footer, the admin page's gate) are not modelled.
- The network submission of the application (`fetch`, toasts, `navigate` after the request) is not modelled. `ApplicationForm.Form.HandleSubmit` stops where the payload is handed to the request; `FinishSubmission` models its `finally`.
- The mock loading of applications (a timer and a promise) and `formatDate` (locale-dependent date formatting) are not modelled.
- The browser Cache API is not modelled. Its enumeration and deletion are reduced to two outcome flags passed to `BulletinEditor.ClearCaches`, a step that catches its own failure and changes nothing the model holds.
- The 3000 ms timers that reset `isSuccess` in both editors are not modelled.
- The asynchronous parts of the handlers are not modelled: each handler runs as one uninterrupted step, with React's batched state updates applied at its end.
- React's context mechanics, including `useAdmin` throwing outside a provider, are not modelled.
- The admin context's bulletin state and `updateBulletinInfo` are not provided by `AdminContextType` (src/contexts/AdminContext.tsx:9-15). The editor receives the bulletin as a value, and the outcome of `updateBulletinInfo` as a parameter.
- Exceptions from `setItem` inside the admin context's effects are not modelled. They happen after render, outside any handler; only the bulletin editor's own `setItem` call is given an outcome.
- Storage changes made by another tab are not modelled.
- `Json.EncodePair` is not the literal `JSON.stringify` text. It escapes only `"` and `\`, and its decoder is stricter than `JSON.parse`. It accepts only the encoder's output, so whitespace variants and JSON values of other shapes count as undecodable.
- `AdminContext.InitialAboutUs`: because the decoder accepts only the encoder's own output, a stored "aboutUs" text that `JSON.parse` would accept but that has whitespace between tokens, the keys in the other order, extra fields or other escapes makes the model's mount fail, where the source would load it.
- `BulletinEditor.SaveKeepsSession`: `updateBulletinInfo` lies outside the admin context as defined, and the model takes it not to write the store; the proof that a bulletin save keeps the session depends on that.
- `AboutUsEditor.Editor.HandleSubmit`: the `catch` branch at src/components/AboutUsEditor.tsx:34-37 is not reachable here. `updateAboutUs` (src/contexts/AdminContext.tsx:56-58) only sets state and cannot throw, so the model's handler always ends in success.
- `ApplicationList.FormatDepartment`: ids that name inherited `Object.prototype` members (such as "toString") are treated as unknown ids. In the source the lookup would return the inherited member.
- `JsString.IsWhitespace` works on Unicode scalar values, whereas the source works on UTF-16 code units. The two agree because every whitespace character lies in the Basic Multilingual Plane.
