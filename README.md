# SRN frontend: the client-side data handling, in Dafny

The SRN frontend is a Next.js application. Users keep a personal-details
record, administrators manage the roster of those records, and everyone
reads an announcement board. This project models the parts of it that
compute something rather than render or call a server:

- **the administrator's roster table** (`AdminUserTable`): the filtered view
  (gender, free-text and per-field gates), the date display formatter, the
  CSV export text, pagination, and how the roster is reconciled after a load,
  a delete and a save;
- **the edit dialog** (`EditUserModal`): the form seeded from a record, the
  live DD/MM/YYYY input mask, the phone, e-mail and Aadhaar validators, and
  the submit gate;
- **the personal-details page** (`PersonalDetails`): field labels, the
  calendar validator `isValidDmy`, how a fetched record is merged into the
  form, field edits and the ordered submit checks;
- **the announcement board** (`AnnouncementList`): prepend on create, update
  by id on edit, removal by id on delete, and the `isSubmitting` /
  `deletingId` flags that lock the buttons.

Four support modules hold what the components share:

- `Js`: JavaScript values (`undefined`, `null`, text); plain objects as key/value
  sequences in insertion order, with object spread and `Object.values` order
  (which is insertion order because no form key is integer-like);
  truthiness; `|| ''` and `?? ''`.
- `Seqs`: `Array.prototype.filter` and its laws.
- `Text`: ASCII case mapping, `includes`, `split`, `join`, `slice`, digits.
- `FormText`: the DD/MM/YYYY mask, the ISO-to-DD/MM/YYYY converter, and the
  phone and Aadhaar checks.

Each network request, confirmation dialog and session lookup is an input to
the operation that awaits it:

- a `Reply` (2xx with a body, non-2xx, or thrown);
- a `ServerReply` (accepted, refused with an error text, or thrown);
- a boolean.

State that a component keeps in React hooks is a Dafny class. Its fields
are the hook values, and each handler is a method that updates them. An
async handler that raises a flag before awaiting is split in two, with the
whole handler beside them:

- `BeginSubmit` / `FinishSubmit`, with `HandleSubmit`;
- `BeginDelete` / `FinishDelete`, with `HandleDelete`.

This way the in-flight state can be stated.

Some things the model shows about the code as written:

- **The three ISO converters differ on malformed input.** The roster's
  `formatDmy` shows the input unchanged. The dialog's initialiser and the
  page's `isoToDmy` give `''`. The latter two are written differently but
  agree on every string and on a missing value, so both are
  `FormText.IsoToDmy`; `AdminUserTable.FormatDmyAgainstIsoToDmy` relates it
  to the roster's formatter.
- **Deleting a user does not decrement `totalUsers`**, so the page count is
  based on the loaded count.
- **The search gate runs over the space-joined text of all values**, the
  `id` included. A search can match across two adjacent values
  (`AdminUserTable.SearchSpansAdjacentValues`).
- **The CSV quotes every cell but does not escape `"`.** A comma or a
  newline inside a cell reads back inside it (`AdminUserTable.ExportCsvRoundTrip`).
  A `"` inside a cell ends the cell early: `a"b` does not read back at all, and
  `x","y` reads back as two cells (`AdminUserTable.QuoteInCellBreaksRow`,
  `AdminUserTable.QuotedCommaSplitsCell`).
- **`isValidDmy` is never called.** The page's submit never checks the
  date, so an impossible date such as 31/04/2024 is sent
  (`PersonalDetails.InvalidDateIsSent`).
- **Without a session the personal-details load returns early** and the page
  stays in its loading state.
- **Every exit from a board submit clears `currentAnnouncement` and the
  form**, including a failed update. The dialog stays open in edit mode, and a
  second submit takes the "no current announcement" exit and changes nothing
  (`AnnouncementList.AfterSubmitSpec`, last clause).
- **A board submit finishes with what it read when it started.** The mode,
  the current item and the form are captured at the start
  (`AnnouncementList.Board.BeginSubmit`). The dialog's close button and inputs
  stay enabled during the request, so an edit closed mid-request still
  updates the list when it is accepted (`AnnouncementList.Board.FinishSubmit`).
- **An announcement id of `''` is falsy**, so a delete in flight for it does
  not lock the buttons (`AnnouncementList.Board.ControlsDisabled`).

## Model

| member | source | states |
|---|---|---|
| `Js.GetMerge` | app/personal-details/page.tsx:105-110 | object spread `{...a, ...b}`: a key of `b` reads `b`'s value, any other key reads `a`'s |
| `Js.KeysSet` | components/EditUserModal.tsx:90 | writing a key keeps the key order; a new key goes last |
| `Js.SetUnique` | components/EditUserModal.tsx:90 | writing a key keeps the keys distinct |
| `Js.GetSet` | app/personal-details/page.tsx:131 | after writing a key, that key reads the new value and every other key its old one |
| `Seqs.FilterIsSubsequence` | components/AdminUserTable.tsx:75 | `filter` keeps an order-preserving subsequence |
| `Seqs.FilterIdempotent` | components/AdminUserTable.tsx:75 | filtering twice by the same predicate is filtering once |
| `Seqs.FilterCommute` | components/AdminUserTable.tsx:123 | two filters commute |
| `Seqs.FilterKeepsAll` | components/AnnouncementList.tsx:231 | a filter returns its input exactly when every element passes |
| `Seqs.FilterKeepsKeysDistinct` | components/AdminUserTable.tsx:123 | filtering keeps pairwise-distinct keys distinct |
| `Seqs.WithoutKeySpec` | components/AdminUserTable.tsx:123 | delete by id (`filter(x => x.id !== id)`, also at components/AnnouncementList.tsx:231) keeps, in order, exactly the elements with another id |
| `Text.SplitOfJoin` | app/personal-details/page.tsx:74-81 | splitting a join on a separator no part contains gives the parts back; used for the `split('-')` here and at components/EditUserModal.tsx:61, the `split('/')` of the date validator, and the one `@` of the e-mail check |
| `Text.JoinOfSplit` | app/personal-details/page.tsx:64-66 | joining the parts of a split gives the text back |
| `Text.DecimalOfFixed` | app/personal-details/page.tsx:81 | the number read from a zero-padded rendering is the number rendered |
| `Text.FixedOfDecimal` | app/personal-details/page.tsx:81 | a digit string is the zero-padded rendering of its value |
| `FormText.MaskDmy` | components/EditUserModal.tsx:81-85 | the mask is the DD/MM/YYYY grouping (`Grouped`) of the first eight digits typed, everything else dropped |
| `FormText.MaskDmyFormat` | components/EditUserModal.tsx:81-85 | mask output: at most 10 characters, digits and `/` only, `/` exactly at positions 2 and 5, ends in a digit, its digits exactly the first 8 digits typed |
| `FormText.MaskDmyIdempotent` | components/EditUserModal.tsx:81-85 | masking a masked value changes nothing |
| `FormText.MaskOfDigits` | components/EditUserModal.tsx:82-84 | on digits, the mask groups the first eight as DD/MM/YYYY, dropping empty groups |
| `FormText.MaskDmyOfEightDigits` | components/EditUserModal.tsx:81-85 | "05032024" becomes "05/03/2024" |
| `FormText.MaskDmyOfTenDigits` | components/EditUserModal.tsx:82 | example: `0503202499` masks to `05/03/2024`, its last two digits dropped (the general cut is in `MaskDmy`) |
| `FormText.MaskDmyOfThreeDigits` | components/EditUserModal.tsx:83-84 | "050" becomes "05/0", and "05" stays "05" (no trailing slash) |
| `FormText.MaskDmyOfTypedSlashes` | app/personal-details/page.tsx:125-129 | example: in `5/3/2024x` the typed slashes and the letter are discarded and the digits regrouped as `53/20/24` |
| `FormText.IsoToDmy` | app/personal-details/page.tsx:70-77 | the converter: `''` for a missing value, DD/MM/YYYY passed through, `Y-M-D[T…]` rendered as `DD/MM/Y`, `''` when a field is missing; its cases are the lemmas below |
| `FormText.IsoToDmyOfIso` | app/personal-details/page.tsx:70-77 | `Y-M-D` with an optional `T…` suffix becomes `DD/MM/Y`, day and month zero-padded; with a 4-digit year it matches DD/MM/YYYY |
| `FormText.IsoToDmyOfDate` | app/personal-details/page.tsx:74-76 | "2024-03-05" becomes "05/03/2024" |
| `FormText.IsoToDmyOfTimestamp` | components/EditUserModal.tsx:61-63 | "2024-3-5T10:00Z" becomes "05/03/2024" |
| `FormText.IsoToDmyPassThrough` | app/personal-details/page.tsx:71-73 | every DD/MM/YYYY text passes through unchanged; empty, undefined and null give `''` |
| `FormText.IsoToDmyOfMissingPart` | components/EditUserModal.tsx:61-62 | any text that is not DD/MM/YYYY and whose date part (before any `T`) lacks one of three non-empty dash fields gives `''` |
| `FormText.IsoToDmyOfMonth` | components/EditUserModal.tsx:62 | "2024-03" gives `''` |
| `AdminUserTable.FilteredUsers` | components/AdminUserTable.tsx:72-100 | `filteredUsers`: no longer than the roster; every kept record is a roster record passing all gates; every roster record passing all gates is kept |
| `AdminUserTable.FilteredUsersSpec` | components/AdminUserTable.tsx:72-100 | the view is an order-preserving subsequence, empty for an empty roster; a kept record passes the gender, search and every non-empty field gate; every record passing all gates is kept |
| `AdminUserTable.FilteredUsersIdempotent` | components/AdminUserTable.tsx:72-100 | applying the same filter state to the view returns the view |
| `AdminUserTable.GenderFilterIgnoresCase` | components/AdminUserTable.tsx:77-79 | gender selections equal up to case give the same view |
| `AdminUserTable.MissingGenderExcluded` | components/AdminUserTable.tsx:77-79 | with a specific gender selected, a record without a gender is excluded |
| `AdminUserTable.EmptyFieldPatternIsNoConstraint` | components/AdminUserTable.tsx:93-98 | an empty field pattern filters exactly like no pattern |
| `AdminUserTable.SearchSpansAdjacentValues` | components/AdminUserTable.tsx:82-90 | the search runs over the space-joined values, so "b c" matches the values "Ab" and "Cd" |
| `AdminUserTable.FormatDmy` | components/AdminUserTable.tsx:102-109 | `formatDmy`: "-" for a missing date, DD/MM/YYYY passed through, `Y-M-D[T…]` rendered as `DD/MM/Y`, anything else shown unchanged; related to the form converter by the next row |
| `AdminUserTable.FormatDmyAgainstIsoToDmy` | components/AdminUserTable.tsx:102-109 | the display formatter gives "-" where the converter gives `''` for a missing date, the input itself where the converter rejects it, and the converter's result otherwise |
| `AdminUserTable.FormatDmyOfMonth` | components/AdminUserTable.tsx:107 | "2024-03" is shown unchanged, while the form converter gives `''` |
| `AdminUserTable.ExportCsv` | components/AdminUserTable.tsx:150-163 | `handleExportCSV` up to the download: the header row, then one row per record of the view, each cell quoted, cells joined by `,`, rows by newlines; its round trip is the next rows |
| `AdminUserTable.CsvLine` | components/AdminUserTable.tsx:162 | one row: each cell wrapped in `"`, nothing escaped, joined by `,` |
| `AdminUserTable.ReadLineThen` | components/AdminUserTable.tsx:162-163 | a row whose cells hold no `"` reads back as exactly those cells, commas and newlines inside cells included, and reading goes on after the newline |
| `AdminUserTable.CsvTextReadsBack` | components/AdminUserTable.tsx:161-163 | any non-empty table whose cells hold no `"` reads back as itself, row for row |
| `AdminUserTable.ExportCsvRoundTrip` | components/AdminUserTable.tsx:150-163 | when no cell holds a `"`, reading the export back gives the 17-name header and each record's 17 cells in view order |
| `AdminUserTable.QuoteInCellBreaksRow` | components/AdminUserTable.tsx:162 | a cell `a"b` is not escaped, so its row does not read back |
| `AdminUserTable.QuotedCommaSplitsCell` | components/AdminUserTable.tsx:162 | a cell `x","y` reads back as the two cells `x` and `y` |
| `AdminUserTable.MissingValuePrintsEmpty` | components/AdminUserTable.tsx:162 | a null or undefined value prints as `""`, never as text |
| `AdminUserTable.TotalPages` | components/AdminUserTable.tsx:173 | the page count is the least number of pages holding all loaded records |
| `AdminUserTable.WithoutId` | components/AdminUserTable.tsx:123 | the roster after a delete: `Seqs.WithoutKey` on the record id, specified by `Seqs.WithoutKeySpec` |
| `AdminUserTable.DeleteCommutesWithView` | components/AdminUserTable.tsx:123 | deleting then filtering equals filtering then deleting |
| `AdminUserTable.ReplaceById` | components/AdminUserTable.tsx:144 | the roster after a save: each record with the saved id replaced, specified by the next row |
| `AdminUserTable.ReplaceByIdSpec` | components/AdminUserTable.tsx:144 | save keeps length, positions and ids; records with the saved id become the saved record, the rest are unchanged |
| `AdminUserTable.ReplaceByIdIdempotent` | components/AdminUserTable.tsx:144 | saving the same record twice equals saving it once |
| `AdminUserTable.DeleteAfterSave` | components/AdminUserTable.tsx:123-144 | deleting a saved record leaves what deleting it without the save leaves |
| `AdminUserTable.ReconciliationKeepsIdsDistinct` | components/AdminUserTable.tsx:123-144 | neither delete nor save makes two records share an id |
| `AdminUserTable.LoadedList` | components/AdminUserTable.tsx:57 | the loaded roster: the reply itself when it is an array, else its `data` list, else `[]` |
| `AdminUserTable.RosterTable.constructor` | components/AdminUserTable.tsx:43-49 | initial state: empty roster, loading, no search, gender "All", no field filters, nobody being edited |
| `AdminUserTable.RosterTable.Load` | components/AdminUserTable.tsx:53-70 | an array reply is kept, otherwise its `data` list, otherwise `[]`; `totalUsers` is that length (0 and an alert on failure); loading ends |
| `AdminUserTable.RosterTable.Delete` | components/AdminUserTable.tsx:111-127 | nothing without confirmation; on success the records with that id leave and "User deleted!"; on failure the roster is kept and "Failed to delete user"; `totalUsers` is never changed |
| `AdminUserTable.RosterTable.Save` | components/AdminUserTable.tsx:129-148 | on success each record with the saved id is replaced in place and "User updated!"; on failure the roster is kept and "Failed to update user" |
| `AdminUserTable.RosterTable.SetSearch` | components/AdminUserTable.tsx:183 | the search text is replaced |
| `AdminUserTable.RosterTable.SetGenderFilter` | components/AdminUserTable.tsx:189 | the gender selection is replaced |
| `AdminUserTable.RosterTable.SetFieldFilter` | components/AdminUserTable.tsx:215 | one field's pattern is set, the others kept |
| `AdminUserTable.RosterTable.SetEditingUser` | components/AdminUserTable.tsx:271 | the record under edit is set (or cleared when the dialog closes) |
| `EditUserModal.InitialForm` | components/EditUserModal.tsx:51-77 | the seeded form, one entry per form field; specified by the next row |
| `EditUserModal.InitialFormSpec` | components/EditUserModal.tsx:51-77 | the seeded form has exactly the 18 form fields in order; the date goes through the ISO converter; any other field is the record's value when non-empty text, `''` otherwise |
| `EditUserModal.InitialDateOfIso` | components/EditUserModal.tsx:57-64 | a stored ISO date, with or without a time part, is seeded as DD/MM/YYYY |
| `EditUserModal.EmailOkIffRegex` | components/EditUserModal.tsx:97 | the executable e-mail check accepts exactly what `^[^\s@]+@[^\s@]+\.[^\s@]+$` accepts, with JavaScript's `\s` |
| `EditUserModal.Validate` | components/EditUserModal.tsx:94-113 | errors only for phone, e-mail and Aadhaar: phone iff non-empty and not 10 digits; e-mail iff it fails the regular expression (empty included); Aadhaar iff non-empty and not 12 digits; with their messages |
| `EditUserModal.OptionalAndRequiredFields` | components/EditUserModal.tsx:100-110 | empty phone and Aadhaar are accepted; an empty e-mail is an error |
| `EditUserModal.Dialog.constructor` | components/EditUserModal.tsx:51-79 | the dialog opens on the seeded form with no errors |
| `EditUserModal.Dialog.HandleChange` | components/EditUserModal.tsx:87-92 | the named field takes the typed text, masked for the date; that field's error entry is cleared |
| `EditUserModal.Dialog.HandleSubmit` | components/EditUserModal.tsx:115-125 | the form is handed to the save handler exactly when validation finds nothing; otherwise the errors are stored and nothing is saved |
| `EditUserModal.ChangeKeepsFields` | components/EditUserModal.tsx:90 | editing a form field keeps the form's fields and their order |
| `EditUserModal.TypedDateShape` | components/EditUserModal.tsx:89 | the date read back from the form after typing is masked text: at most 10 characters, `/` only at positions 2 and 5 |
| `PersonalDetails.InitialFormSpec` | app/personal-details/page.tsx:33-51 | the initial form has the 17 fields in declaration order, all empty |
| `PersonalDetails.FormatLabel` | app/personal-details/page.tsx:62-67 | `formatLabel`: split on `_`, capitalise each word, join with spaces; described character by character by the next row |
| `PersonalDetails.FormatLabelPointwise` | app/personal-details/page.tsx:62-67 | the label has the key's length; each `_` becomes a space, a character at the start or after `_` is upper-cased, the rest are kept |
| `PersonalDetails.LabelAtFirstUnderscore` | app/personal-details/page.tsx:64-66 | a label is the first word capitalised, a space, and the label of the rest |
| `PersonalDetails.FormatLabelOfFatherName` | app/personal-details/page.tsx:62-67 | "father_name" is labelled "Father Name" |
| `PersonalDetails.RollForward` | app/personal-details/page.tsx:82 | carrying an overlong day into later months yields a real date, with a smaller day unless nothing was carried |
| `PersonalDetails.Normalize` | app/personal-details/page.tsx:82 | the `Date` constructor's day normalisation yields a real date; it keeps the day only when the day was already valid |
| `PersonalDetails.JsDate` | app/personal-details/page.tsx:82 | `new Date(y, monthIndex, d)` read through its accessors is always a real calendar date: month 0–11, day from 1 to the month's length |
| `PersonalDetails.RoundTripIffCalendar` | app/personal-details/page.tsx:82-83 | `new Date(y, m - 1, d)` reads back as `y`, `m - 1`, `d` exactly when year ≥ 100, month 1–12 and day within the month |
| `PersonalDetails.DmyParts` | app/personal-details/page.tsx:81 | a DD/MM/YYYY text splits on `/` into its day, month and year digits |
| `PersonalDetails.IsValidDmy` | app/personal-details/page.tsx:79-84 | `isValidDmy`: the DD/MM/YYYY pattern, then the `Date` round trip of its fields; characterised by the next rows |
| `PersonalDetails.IsValidDmyIffCalendar` | app/personal-details/page.tsx:79-84 | the validator accepts exactly the DD/MM/YYYY texts naming a calendar date from year 100 on |
| `PersonalDetails.ValidDmyIsRendered` | app/personal-details/page.tsx:79-84 | an accepted text is the zero-padded rendering of its own calendar date |
| `PersonalDetails.RenderedDateIsValid` | app/personal-details/page.tsx:79-84 | every calendar date from year 100 to 9999, rendered, is accepted and reads back as itself |
| `PersonalDetails.AprilHasThirtyDays` | app/personal-details/page.tsx:82-83 | "31/04/2024" is rejected |
| `PersonalDetails.LeapDay` | app/personal-details/page.tsx:82-83 | "29/02/2024" is accepted and "29/02/2023" rejected |
| `PersonalDetails.ZeroAndOverflowFieldsRejected` | app/personal-details/page.tsx:82-83 | day 00, month 00 and month 13 are rejected |
| `PersonalDetails.EarlyYearsRejected` | app/personal-details/page.tsx:82-83 | years 0000–0099 are rejected |
| `PersonalDetails.LoadedForm` | app/personal-details/page.tsx:105-110 | the form after a load: previous form, spread with the fetched record, then the converted date and the session e-mail; specified by the next rows |
| `PersonalDetails.LoadedFormGet` | app/personal-details/page.tsx:105-110 | after a load, `email` is the session e-mail, the date is the converted fetched date, any other fetched field wins over the previous form |
| `PersonalDetails.MergeKeepsKeys` | app/personal-details/page.tsx:105-110 | spreading a fetched record keeps the previous fields first, in order |
| `PersonalDetails.LoadedFormKeepsFields` | app/personal-details/page.tsx:105-110 | after a load the 17 form fields still come first, in order |
| `PersonalDetails.SubmitVerdict` | app/personal-details/page.tsx:138-153 | a submit is sent iff the phone and Aadhaar checks pass and a session exists; a bad phone is reported first, a bad Aadhaar exactly when the phone passes and the Aadhaar fails |
| `PersonalDetails.SubmitIgnoresDate` | app/personal-details/page.tsx:143 | the date of birth never changes the submit verdict |
| `PersonalDetails.InvalidDateIsSent` | app/personal-details/page.tsx:143 | example of `SubmitIgnoresDate`: `31/04/2024` is rejected by the validator and still sent |
| `PersonalDetails.Page.constructor` | app/personal-details/page.tsx:90-91 | the page starts on the empty form, loading |
| `PersonalDetails.Page.LoadDetails` | app/personal-details/page.tsx:93-121 | without a session nothing changes (loading stays on); with one the fetched record is merged, or only the e-mail set on failure, and loading ends |
| `PersonalDetails.Page.HandleChange` | app/personal-details/page.tsx:123-132 | the named field takes the typed text, masked for the date |
| `PersonalDetails.Page.HandleSubmit` | app/personal-details/page.tsx:134-162 | the form is sent exactly on a `Send` verdict; the alert is the failing check's message, or the server's message or its default |
| `AnnouncementList.UpdateById` | components/AnnouncementList.tsx:172-184 | the list after an accepted edit; specified by the next rows |
| `AnnouncementList.UpdateByIdSpec` | components/AnnouncementList.tsx:172-184 | only items with the edited id change, in title, content and `updated_at` only; length, order and ids are kept |
| `AnnouncementList.UpdateOfUnlistedId` | components/AnnouncementList.tsx:173-184 | editing an id not in the list changes nothing |
| `AnnouncementList.WithoutId` | components/AnnouncementList.tsx:231 | the list after an accepted delete: `Seqs.WithoutKey` on the item id, specified by `Seqs.WithoutKeySpec` |
| `AnnouncementList.DeleteUndoesCreate` | components/AnnouncementList.tsx:143-231 | deleting a just-created item with a fresh id gives back the previous list |
| `AnnouncementList.DeleteAfterUpdate` | components/AnnouncementList.tsx:173-231 | deleting an edited item equals deleting it unedited |
| `AnnouncementList.AfterSubmit` | components/AnnouncementList.tsx:122-191 | the list after a submit with a token: the new item prepended on an accepted create, `UpdateById` on an accepted edit, unchanged otherwise |
| `AnnouncementList.SubmitAlert` | components/AnnouncementList.tsx:115-192 | the alert a submit ends with: none exactly on an accepted request or an edit with no current item; "Authentication required" without a token; the server's `error` text when it has one; else the mode's fallback |
| `AnnouncementList.AfterSubmitSpec` | components/AnnouncementList.tsx:122-191 | a create puts the new item first with the old list after it; an edit keeps the length; a refused or failed request, or an edit with no current announcement, changes nothing |
| `AnnouncementList.Board.constructor` | components/AnnouncementList.tsx:19-30 | initial flags: dialog closed, nothing current, empty form, not submitting, nothing being deleted |
| `AnnouncementList.Board.ControlsDisabled` | components/AnnouncementList.tsx:372 | the create, edit and delete buttons' `disabled`: submitting, or a truthy `deletingId` |
| `AnnouncementList.Board.HandleCreate` | components/AnnouncementList.tsx:87-92 | opens an empty create dialog |
| `AnnouncementList.Board.HandleEdit` | components/AnnouncementList.tsx:95-105 | opens the edit dialog on the item; a missing title or content becomes `''` |
| `AnnouncementList.Board.CloseModal` | components/AnnouncementList.tsx:279-284 | closes the dialog and clears the current item, the form and the create flag |
| `AnnouncementList.Board.EditTitle` | components/AnnouncementList.tsx:298 | the title is replaced, the content kept |
| `AnnouncementList.Board.EditContent` | components/AnnouncementList.tsx:309 | the content is replaced, the title kept |
| `AnnouncementList.Board.BeginSubmit` | components/AnnouncementList.tsx:108-112 | no signed-in e-mail: nothing happens; otherwise the submit flag rises; the mode, current item and form are captured for the rest of the handler |
| `AnnouncementList.Board.FinishSubmit` | components/AnnouncementList.tsx:113-199 | the list becomes `AfterSubmit` of the current list and the captured mode, item and form (unchanged without a token); every exit leaves `isSubmitting` false, nothing current and an empty form; the dialog closes and the create flag drops only on success; the alert is `SubmitAlert` |
| `AnnouncementList.Board.HandleSubmit` | components/AnnouncementList.tsx:108-200 | without an e-mail nothing changes; otherwise the list follows `AfterSubmit` (unchanged without a token), the flags end reset, the dialog closes and the create flag drops only on an accepted create or edit, and the alert is `SubmitAlert` of the starting state |
| `AnnouncementList.Board.BeginDelete` | components/AnnouncementList.tsx:203-211 | without an e-mail or confirmation nothing changes; otherwise `deletingId` is the target and the buttons lock |
| `AnnouncementList.Board.FinishDelete` | components/AnnouncementList.tsx:212-242 | on success the items with that id leave, otherwise the list is kept; on every path `deletingId` is cleared and the buttons' lock is `isSubmitting` alone |
| `AnnouncementList.Board.HandleDelete` | components/AnnouncementList.tsx:203-243 | the list loses the target's items only after e-mail, confirmation, token and a 2xx reply; once started, `deletingId` ends cleared |

## Left out

- Network, Supabase and session calls are inputs, not code. This covers
  `fetch`, `apiFetch` in app/utils/api.ts and `supabase.auth.getSession`.
  Each appears as a reply value or a boolean on the handler that awaits it.
- The `alert` and `confirm` dialogs. Confirmation is a boolean input; alerts
  are returned as text.
- The CSV download (Blob, object URL, anchor click). The model stops at the
  CSV text.
- The clock. `updated_at` is the parameter `now` of `FinishSubmit`, standing
  for `new Date().toISOString()`.
- Locale-dependent display (`toLocaleString`) and all markup and styling.
- Unicode case mapping. `toLowerCase` and `toUpperCase` are modelled on
  ASCII letters only.
- JSON values other than text, null and undefined. A number or boolean is
  represented by its `String(...)` text, and nested objects are not
  modelled. `Object.values` therefore never yields `[object Object]`.
- Async interleaving. This covers a stale roster load after a token change,
  overlapping edits and deletes, and React's batching of state updates.
  `HandleSubmit` and `HandleDelete` run to completion with nothing in
  between; `BeginSubmit` and `FinishSubmit` may be separated by other
  handlers, which then see the in-flight flags.
- Time zones and daylight-saving gaps in the JavaScript `Date` constructor.
  `PersonalDetails.JsDate` is the calendar arithmetic of that constructor
  (years 0–99 mean 1900–1999, months and days carry over), with no time of
  day.
- `fetchAnnouncements` and the admin-role check of the announcement board.
  They only replace the list, or set `isAdmin`, with a server reply.
- Page navigation (`page`, `setPage`, `rowsPerPage`). The table lists the
  whole filtered view, and only the page count is modelled.
  `AdminUserTable.TotalPages` requires at least one row per page; the page
  offers 5, 10, 20 or 50.
- The sign-in, sign-up, password and dashboard pages, the API proxy routes
  and configuration. These are session checks, redirects and forwarding.
