# Notes application: a verified model of the API and the browser client

The application keeps short text notes. A title holds at most 100 characters
and a content at most 5000. An Express router serves five handlers over a
Mongoose collection:

- list, with paging and sorting;
- get, create, update and delete of one note.

A single-page browser script keeps a few module-level variables: the loaded
notes, the current and total page, the editing state and the note awaiting
deletion. Its handlers update those variables.

The Dafny project models three pieces:

- **the schema** (`NoteModel`). It holds the trim setters, the `required` and
  `maxlength` validators with their messages, the joined message of a failed
  validation, and the timestamp defaults. It also holds the two hooks that
  refresh `updatedAt`: the save hook acts on a `NoteDocument` object, the
  update hook on the `$set` of an update.
- **the handlers** (`NoteRoutes`). They act on a `NoteStore` object whose
  field is the collection, a map from identifier to record. Each handler
  returns the status code and the JSON body. Several things are passed in:
  - the current time;
  - the identifier the database assigns;
  - the sorted order the database produces;
  - the identifier cast, which decides whether a string is an object
    identifier.

  The order in which the checks run is kept. The route's
  `!title || !content` check comes first, on the raw values. Then come the
  `trim()` calls, then the identifier cast, then the schema validators, then
  the lookup.
- **the client** (`ClientHelpers`, `ClientSession`). The pure helpers are the
  identifier check, HTML escaping, preview truncation, the render filter,
  the pager flags and the "time ago" label. The `Session` class holds the
  script's variables and has one method per handler. A network round trip is
  a parameter: the handler gets its outcome, and it returns the request it
  sends and the banner it shows.

Supporting modules: `Text` holds JavaScript's `trim`, defined over the
ECMAScript whitespace and line-terminator characters, and `join`. `ObjectId`
holds the 24-hexadecimal-character identifier form that the server store
and the browser client share. `Opt` holds an option type.

Behaviours the proofs pin down:

- A whitespace-only title passes the route's check and is then refused by
  the schema with "Title is required". It is not refused with the route's
  "Title and content are required".
- Within one sorted order of the collection, paging loses and repeats
  nothing: every note is on exactly one page, at one offset.
- A note that the store lists always survives the client's render filter.
- Deleting the only note of the last page, through the store's delete and a
  fresh list request for the same page, leaves the client past its last
  page. The page is then empty, and the empty state is not shown.
- The client never sends an update or a delete with a malformed identifier.

## Model

| member | source | states |
|---|---|---|
| Text.Trim | backend/routes/notes.js:74-75 | `trim()` returns a string no longer than its input, with no whitespace at either end |
| Text.TrimIsInfix | backend/routes/notes.js:74-75 | the input is a whitespace prefix, then the trimmed text, then a whitespace suffix |
| Text.TrimEmptyIff | backend/models/Note.js:6-7 | a string trims to the empty string exactly when every character is whitespace |
| Text.TrimFixesTrimmed | backend/models/Note.js:7 | `trim` leaves a string unchanged exactly when it has no whitespace at either end, and its result always has none |
| Text.Join | backend/routes/notes.js:85 | `join(sep)` of no parts is empty and of one part is that part; otherwise the result starts with the first part, followed by the separator |
| Text.JoinSnoc | backend/routes/notes.js:85 | joining parts and one more part gives the join of the parts, the separator, then the last part, so every part appears in order with one separator between neighbours |
| Text.TrimIdempotent | backend/models/Note.js:7 | trimming a second time, as the schema setter does after the route, changes nothing |
| NoteModel.PathError | backend/models/Note.js:4-15 | a path fails validation exactly when its stored value is empty or longer than its cap |
| NoteModel.RequiredAfterTrim | backend/models/Note.js:4-15 | through the trim setter, `required` fails exactly on all-whitespace input, and `maxlength` fails exactly when the trimmed value exceeds the cap |
| NoteModel.ValidationErrors | backend/models/Note.js:3-15 | no message exactly when both paths are valid; one message per failing path; a failing title's own message comes first and a failing content's own message last |
| NoteModel.ValidationMessage | backend/routes/notes.js:84-85 | the joined message is empty exactly when the document is valid |
| NoteModel.BothPathsReported | backend/routes/notes.js:83-86 | when both paths fail, the message is the title's message, ", ", then the content's message; when one fails, it is that path's message alone |
| NoteModel.NoteDocument.constructor | backend/models/Note.js:16-23 | a new document holds the trimmed strings and both timestamps equal to the current time |
| NoteModel.NoteDocument.PreSave | backend/models/Note.js:27-32 | the save hook moves `updatedAt` to now only for a modified document that is not new |
| NoteModel.CastUpdate | backend/models/Note.js:7 | casting an update trims both strings and keeps `updatedAt` |
| NoteModel.CastTrimmedUpdate | backend/routes/notes.js:105-109 | an update whose strings are already trimmed is unchanged by casting |
| NoteModel.PreFindOneAndUpdate | backend/models/Note.js:35-38 | the update hook sets `updatedAt` to now and keeps the rest |
| NoteModel.ApplyUpdate | backend/routes/notes.js:103-114 | applying an update keeps the identifier and `createdAt` and takes the new title and content |
| NoteModel.HookedUpdateKeepsOrder | backend/models/Note.js:35-38 | after the hook, `updatedAt` is now, so `createdAt <= updatedAt` when the clock is not behind creation |
| NoteModel.SaveNew | backend/models/Note.js:16-32 | a freshly saved note has trimmed fields and `createdAt == updatedAt == now` |
| NoteRoutes.CheckBody | backend/routes/notes.js:65-76 | the request is refused exactly when a member is falsy, and is trimmed exactly when both members are non-empty strings |
| NoteRoutes.CheckStrings | backend/routes/notes.js:67-76 | non-empty strings pass the route's check and come out trimmed |
| NoteRoutes.CheckTrimmedStrings | backend/routes/notes.js:67-76 | already trimmed non-empty strings pass the route's check unchanged |
| NoteRoutes.WhitespaceTitleReachesSchema | backend/routes/notes.js:67-79 | a whitespace-only title passes the route's check and fails the schema with "Title is required", a message different from the route's |
| NoteRoutes.Options | backend/routes/notes.js:8-18 | the sort is descending exactly when `sortOrder` is omitted or is "desc" |
| NoteRoutes.ListDefaults | backend/routes/notes.js:8-13 | omitted parameters give page 1, limit 10 and descending `updatedAt`; any other `sortOrder` than "desc" sorts ascending |
| NoteRoutes.PageCount | backend/routes/notes.js:31 | `Math.ceil(total / limit)`: `(n - 1) * limit < total <= n * limit` |
| NoteRoutes.PageCountUnique | backend/routes/notes.js:31 | that bound determines the page count |
| NoteRoutes.PageOf | backend/routes/notes.js:21-25 | the page is the slice from `(page - 1) * limit` to `min(page * limit, total)`, empty past the end, at most `limit` long |
| NoteRoutes.PageBeyondLastIsEmpty | backend/routes/notes.js:21-31 | a page past the last one is empty |
| NoteRoutes.PagesBeforeLastAreFull | backend/routes/notes.js:21-31 | every page before the last holds exactly `limit` notes |
| NoteRoutes.PageOfIndex | backend/routes/notes.js:21-25 | the note at position `i` is at position `i % limit` of page `i / limit + 1` |
| NoteRoutes.FifteenNotesTwoPages | backend/routes/notes.js:21-34 | fifteen notes at ten a page make two pages, of ten and of five notes, and a third page is empty |
| NoteRoutes.DistinctIdsCount | backend/routes/notes.js:21-27 | a view with distinct identifiers has as many identifiers as records |
| NoteRoutes.ViewCoversStore | backend/routes/notes.js:21-27 | a view that lists the store holds every stored record |
| NoteRoutes.NoteStore.constructor | backend/models/Note.js:40 | an empty collection that satisfies the store invariant |
| NoteRoutes.NoteStore.List | backend/routes/notes.js:6-34 | status 200 with the page slice, `totalPages == ceil(total / limit)`, the requested page and the collection size; at most `limit` notes, each one stored; the store is unchanged |
| NoteRoutes.NoteStore.Get | backend/routes/notes.js:42-60 | 400 "Invalid note ID format" for an identifier that does not cast, 404 for an absent one, 200 with the record otherwise; a well-formed identifier never yields 400 |
| NoteRoutes.NoteStore.Save | backend/routes/notes.js:73-86 | valid text inserts exactly one record under the new identifier with equal timestamps and answers 201 with it; otherwise 400 with the joined validation messages and nothing changes |
| NoteRoutes.NoteStore.Create | backend/routes/notes.js:63-90 | 400 "Title and content are required" for a falsy member and 500 for a non-string, with nothing stored; otherwise the trimmed text is saved as in `Save` |
| NoteRoutes.NoteStore.FindAndUpdate | backend/routes/notes.js:103-131 | invalid text gives 400 with the joined messages; an absent note gives 404; otherwise only that note changes, to the new text with the old `createdAt` and `updatedAt == now`, answered with 200 |
| NoteRoutes.NoteStore.Update | backend/routes/notes.js:93-135 | the body check runs before the identifier cast (400 or 500), then 400 "Invalid note ID format", then `FindAndUpdate`; timestamps stay ordered when the clock is not behind |
| NoteRoutes.NoteStore.Delete | backend/routes/notes.js:138-159 | 400 for an identifier that does not cast; 404 for an absent note; otherwise exactly that note is removed and 200 returns its prior state |
| NoteRoutes.DeleteTwice | backend/routes/notes.js:140-147 | deleting a stored note succeeds once; the second delete answers 404 |
| NoteRoutes.CreateThenGet | backend/routes/notes.js:63-79 | a created note reads back with the text it was created with and equal timestamps |
| NoteRoutes.CreateThenUpdate | backend/routes/notes.js:93-120 | a later update keeps `createdAt` and moves `updatedAt` forward |
| ClientHelpers.MatchesHexRunIff | frontend/script.js:518 | the pattern `[0-9a-fA-F]{n}$` matches exactly the strings of `n` hex digits |
| ClientHelpers.IsValidObjectId | frontend/script.js:515-519 | the regular expression `^[0-9a-fA-F]{24}$` on a non-empty string, as a scan of 24 hexadecimal characters; `ValidObjectIdIff` states what it accepts |
| ClientHelpers.ValidObjectIdIff | frontend/script.js:515-519 | `isValidObjectId` holds exactly for strings of 24 characters, each in `[0-9a-fA-F]` |
| ClientHelpers.EscapeChar | frontend/script.js:575-581 | each of `& < > " '` becomes a character reference; every other character is kept |
| ClientHelpers.EscapeHtml | frontend/script.js:574-583 | the result is no shorter than the input and contains no raw `<`, `>`, `"` or `'` |
| ClientHelpers.EscapeHtmlIdentity | frontend/script.js:574-583 | text without any of the five characters is unchanged |
| ClientHelpers.DecodeEscapedChar | frontend/script.js:575-581 | decoding one escaped character gives that character back |
| ClientHelpers.EscapeHtmlRoundTrip | frontend/script.js:574-583 | decoding the five character references in the escaped text gives the original text back |
| ClientHelpers.ShowsExpandButton | frontend/script.js:269 | the expand button is shown exactly when the content is longer than 200 characters |
| ClientHelpers.Preview | frontend/script.js:263-269 | content over 200 characters becomes exactly its first 200 characters followed by "..."; shorter content is unchanged |
| ClientHelpers.RenderableNotes | frontend/script.js:233-239 | the kept notes are exactly the notes with a present, well-formed `_id` |
| ClientHelpers.RenderableNotesConcat | frontend/script.js:233-239 | the filter works note by note, so it keeps the original order |
| ClientHelpers.RenderableNotesAllValid | frontend/script.js:233-239 | a list of well-formed notes is kept whole |
| ClientHelpers.PaginationFor | frontend/script.js:343-354 | the pager is hidden exactly when `totalPages <= 1`; prev is disabled exactly when `currentPage <= 1` and next exactly when `currentPage >= totalPages` |
| ClientHelpers.PrevTarget | frontend/script.js:62-67 | "previous" moves one page back exactly when the page is above 1 |
| ClientHelpers.NextTarget | frontend/script.js:69-74 | "next" moves one page on exactly when the page is below `totalPages` |
| ClientHelpers.ButtonsMatchHandlers | frontend/script.js:62-74 | a shown button is disabled exactly when its click would leave the page as it is |
| ClientHelpers.ElapsedFor | frontend/script.js:585-600 | the unit is day, hour or minute, and the count is the number of whole days, else hours, else minutes in the absolute difference, at least 1; "just now" exactly under one minute |
| ClientHelpers.ElapsedSymmetric | frontend/script.js:587 | a date in the future is labelled like one equally far in the past |
| ClientHelpers.Decimal | frontend/script.js:593-597 | the numeral consists of decimal digits, with a leading zero only for 0 |
| ClientHelpers.DecimalRoundTrip | frontend/script.js:593-597 | the numeral reads back as the number it was written for |
| ClientHelpers.TimeAgo | frontend/script.js:592-600 | the label is "Just now" for under a minute; otherwise it is the count's numeral, a space, the unit word (day, hour or minute), one more character (the plural "s" of `TimeAgoPlural`) exactly when the count is above 1, and " ago" |
| ClientHelpers.TimeAgoPlural | frontend/script.js:593-597 | the label ends in "s ago" exactly when the count is more than one |
| ClientHelpers.TimeAgoJustNowIff | frontend/script.js:592-600 | the label is "Just now" exactly when less than a minute separates the two times |
| ClientSession.FailureText | frontend/script.js:137 | the server's `error` text when it is non-empty, otherwise the fallback; a failure without an answer shows its own message |
| ClientSession.FetchQuery | frontend/script.js:104-115 | the client asks for the current page, 12 notes a page and its sort controls, and the server reads that as such |
| ClientSession.SubmittedTextPassesRouteCheck | frontend/script.js:412-420 | text the client submits passes the server's body check unchanged |
| ClientSession.FirstIndexOf | frontend/script.js:469 | the position of the first note with the given `_id`, or the length when there is none |
| ClientSession.FindById | frontend/script.js:469 | no note is found exactly when none has the identifier; otherwise the found note is the first one in list order that has it |
| ClientSession.ServedPageRendersWhole | frontend/script.js:233-239 | a page of records with well-formed identifiers loses no card to the filter |
| ClientSession.Session.constructor | frontend/script.js:5-10 | the initial values of the script's variables: no notes, page 1 of 1, not editing, nothing to delete |
| ClientSession.Session.PrevPage | frontend/script.js:62-67 | the page moves back only from above 1, and only then is the list fetched again; `1 <= currentPage <= totalPages` is preserved |
| ClientSession.Session.NextPage | frontend/script.js:69-74 | the page moves on only from below `totalPages`, and only then is the list fetched again; the range is preserved |
| ClientSession.Session.HandleSearch | frontend/script.js:509-512 | the page goes back to 1, the list is fetched again, and nothing else changes |
| ClientSession.Session.OpenModal | frontend/script.js:357-383 | no note: a new note, not editing; a well-formed note: editing that note; a malformed note: an error, editing mode left set, the dialog stays closed |
| ClientSession.Session.CloseModal | frontend/script.js:385-390 | editing mode ends and no edit identifier is kept |
| ClientSession.Session.EditNote | frontend/script.js:462-476 | a malformed identifier or one not on the page shows an error and changes nothing; otherwise that note is edited |
| ClientSession.Session.HandleFormSubmit | frontend/script.js:409-460 | empty trimmed text or a bad edit identifier shows its error and sends nothing; otherwise one update or create of the trimmed text is sent, after which the dialog closes and the list is fetched again on success, and nothing changes on failure |
| ClientSession.Session.ShowDeleteConfirmation | frontend/script.js:392-401 | only a well-formed identifier is remembered for deletion |
| ClientSession.Session.CloseConfirmModal | frontend/script.js:403-406 | the note to delete is forgotten |
| ClientSession.Session.ConfirmDelete | frontend/script.js:478-506 | nothing happens without a note to delete; a malformed one is refused and forgotten; otherwise exactly that delete is sent, and the note is forgotten only on success; under the session invariant a remembered note is always sent |
| ClientSession.Session.LoadNotes | frontend/script.js:182-224 | a missing or malformed answer shows the load error and changes nothing; otherwise the notes and page count are taken over (the current page is not), the cards are the well-formed notes, the pager follows the answer, and the empty state shows exactly for an empty first page |
| ClientSession.CloseThenSubmit | frontend/script.js:385-453 | after the dialog closes, a submit always creates a note |
| ClientSession.AskThenConfirm | frontend/script.js:392-497 | confirming a delete asked for on a card sends the delete for exactly that note |
| ClientSession.DeleteLastNoteOfLastPage | frontend/script.js:478-506 | when the confirmed delete removes the last page's only note from the store and the same page is listed again, the session stays on a page past the last one; the list is empty, no empty state is shown, and the pager offers only "previous" or disappears |
| ClientSession.ListThenLoad | frontend/script.js:182-224 | a list answer from a valid store becomes one card per served note, at most 12, with the server's page count |

## Left out

- HTTP transport, Express routing, `fetch` and JSON serialisation are left out. Handlers take decoded values and return a status and a body.
- The 500 answers for database failures are left out (list, get, save, update and delete failing inside the database). The one 500 that is modelled is `.trim()` on a non-string member.
- The identifier cast is an abstract predicate of the store. The model only demands that every 24-hex-digit string casts. Mongoose's exact cast rule is not part of this model.
- The database sort is a parameter of `List`. It is constrained only on the integer timestamp fields, and ties may come in any order. Sorting on other fields, and on JavaScript `Date` objects, is not modelled.
- Each page is its own `find().sort().skip().limit()` query (backend/routes/notes.js:21-25), so each `List` call gets its own sorted view. Two page requests on an unchanged collection may order notes with equal sort keys, or any notes under an unknown `sortBy`, differently. Across such requests a note can then appear on two pages or on none. The paging lemmas hold within one sorted view only.
- `parseInt` edge cases are not modelled: NaN, a zero or negative `limit`, and a fractional page. `List` requires a page and a limit of at least 1.
- At creation, `createdAt` and `updatedAt` come from two separate `Date.now` defaults (backend/models/Note.js:18, 22). Here both take one clock reading `now`, so a new note's two timestamps are equal; in the program they can differ by a millisecond.
- The update's explicit `updatedAt: Date.now()` and the update hook's `Date.now()` are one clock reading here. They can differ by a few milliseconds.
- Mongoose's validation order is taken as title then content. Updates run the validators on the two `$set` paths only.
- JavaScript strings are UTF-16 code units. Here they are sequences of characters, so lengths and `trim` act on characters.
- The client's DOM work is not part of this model: `innerHTML`, `classList`, `focus`, the card markup, `toLocaleDateString`, banner timers, `debounce` and `toggleContent`. The form fields are not modelled either, so the submitted text is a parameter.
- `getTimeAgo` reads the real clock. Here it is given the millisecond difference.
- Async interleavings between overlapping requests are not modelled, nor is disabling buttons while a request is in flight.
- The search term is read but never sent by `fetchNotes`, so no search filtering exists to model.
- A `null` entry in the loaded notes array is not modelled. A note is a record whose `_id` may be absent.
- ClientSession.Session.LoadNotes: does not model errors thrown while rendering a malformed note. Such an error would reach the same catch block.
- NoteRoutes.NoteStore.Update: the body fields are JSON values reduced to absent, string or another value with its truthiness. Arrays or objects whose `trim` property is a function are not modelled.
