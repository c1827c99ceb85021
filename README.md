# Notes service: a verified model

This project models a small notes application. The backend is a FastAPI service; two of its handlers let users sign up and log in. The rest serve notes, and each note belongs to one user. The frontend is a Next.js client. It searches and sorts the note list and keeps drafts in the browser's local storage. It also checks forms before sending them.

The backend part covers these pieces:

- **Credential hashing.** An unsalted SHA-256 hex digest.
- **Access tokens.** A JSON Web Token signed with HS256, carrying `sub` and `exp`.
- **The authentication gate `get_current_user`.** A fixed chain of guards, each of which fails with a 401.
- **The handlers.** `register`, `login`, `/users/me` and note create, list, get, update and delete. They are methods on one in-memory store, a `NotesService` holding the `users` and `notes` tables.

The frontend part covers these pieces:

- **`useNoteFilter`.** The search and the three sort modes.
- **`useNoteDraft`.** The draft store over `localStorage`, including the `draft_timestamps` object. `JSON.stringify` and `JSON.parse` are modelled for the flat records it writes.
- **The card helpers.** `getPreview` and `getWordCount`.
- **`handleSubmit` in `NoteForm` and in the register page.** The checks and their order, the requests sent and what is stored afterwards. For `NoteForm`, also the auto-save condition.

Things the model takes as parameters:

- **SHA-256.** Any function from text to 32 bytes. Only the hex encoding of the digest is concrete.
- **Token signatures.** Symbolic: a `Signed` token records the claims, the algorithm and the key it was signed with. A signature is assumed to check exactly under the key that made it.
- **Clocks.** A backend instant is a count of microseconds since the Unix epoch. A frontend clock reading is the `toISOString()` text it produced.
- **API replies.** The frontend forms receive each reply as an argument: the body, or the error `detail`.
- **The locale's collation.** `localeCompare` is an arbitrary total preorder.

Stated choices:

- **Expiry boundary.** python-jose's comparison is not part of this model. A token is accepted while the whole number of seconds of the clock is at most `exp`, and rejected from the next second on.
- **Zero lifetime.** A token issued with a zero lifetime is not rejected at once. `if expires_delta:` is false for `timedelta(0)`, so such a token gets the default 60 minutes (`Auth.Lifetime`, `Auth.ZeroDeltaGetsDefault`).
- **String subject.** python-jose rejects a token whose `sub` claim is present but not a string, so `decode_access_token` returns `None` for it. `Auth.DecodeAccessToken` makes the same check.
- **Primary keys.** Both tables use an `INTEGER PRIMARY KEY` without `AUTOINCREMENT`. SQLite gives a new row one more than the largest key present, or 1 in an empty table (`NotesApi.IsNextRowId`). After the note with the largest id is deleted, that id is handed out again to the next note. The store keeps the largest key of each table in a field (`largestUserId`, `largestNoteId`) and looks for the next largest after a delete, as the table's B-tree finds its last row.
- **Title filter.** `ilike` is modelled as SQLite runs it: ASCII lower-casing, then LIKE with `%` and `_` as wildcards. For a query without wildcards, the filter is proved to be a case-insensitive substring test.
- **Unchanged update.** `updated_at` moves only when an update changes the title or the content. SQLAlchemy issues no UPDATE for a row whose values are unchanged, so `onupdate` does not fire.
- **Parse errors in stored drafts.** Strings are ECMAScript code-point sequences. ES modules run in strict mode, so assigning a property on a parsed `draft_timestamps` value that is not an object throws. `saveDraft` reports that as `threw`, after the draft record itself has been written.

## Model

| member | source | states |
|---|---|---|
| Auth.HexEncode | backend/app/auth.py:28 | `hexdigest()` writes two lowercase hex characters per byte |
| Auth.HexEncodeInjective | backend/app/auth.py:19 | different digests have different hex texts, so comparing texts compares digests |
| Auth.GetPasswordHash | backend/app/auth.py:22-28 | the stored hash is always 64 lowercase hex characters; it differs from any password not of that form |
| Auth.VerifyPassword | backend/app/auth.py:14-19 | a password verifies against a stored value iff that value is exactly `get_password_hash` of the password, so only a 64-character lowercase hex string can verify |
| Auth.VerifyAgainstDigest | backend/app/auth.py:19-28 | a password verifies against a stored hash iff the two passwords' SHA-256 digests are equal; every password verifies against its own hash |
| Auth.Lifetime | backend/app/auth.py:38-41 | an absent or zero delta gives the 60-minute default; any other delta is used as given |
| Auth.CreateAccessToken | backend/app/auth.py:31-46 | HS256 with the secret; the claims are the caller's plus `exp`, with every caller claim except `exp` kept; `exp` is the NumericDate of now plus the lifetime |
| Auth.DecodeAccessToken | backend/app/auth.py:49-60 | returns the claims iff the token is HS256-signed with the secret, not expired, and has a string `sub` if it has one; otherwise `None`, never an error |
| Auth.DecodeIssuedToken | backend/app/auth.py:42-57 | a freshly issued token with a string `sub`, if any, decodes to its claims exactly while the clock's second is at most `exp` |
| Auth.IssuedTokenLifetime | backend/app/auth.py:38-45 | accepted up to the end of its lifetime; rejected a second after it |
| Auth.NegativeDeltaExpired | backend/app/auth.py:38-39 | a negative delta of a second or more gives a token already rejected when issued |
| Auth.ZeroDeltaGetsDefault | backend/app/auth.py:38-41 | a zero delta issues the same token as no delta; it is accepted during the default hour iff its `sub`, if any, is a string |
| Deps.ParsePyInt | backend/app/deps.py:45 | `int()` of a non-empty run of ASCII digits is its decimal value, leading zeros allowed; empty or all-whitespace text raises |
| Deps.ParsePyIntDecimal | backend/app/deps.py:45 | `int(str(n)) == n` for every integer, so a `sub` written by login parses back |
| Deps.GetCurrentUser | backend/app/deps.py:26-51 | each failure iff the guards before it pass and its own fails, in order: no token, invalid token (decode fails or payload empty), falsy `sub`, `int()` raises, unknown user; success iff all pass; the user returned is the row keyed by `int(sub)`, and its id equals it |
| Deps.LoginTokenAuthenticates | backend/app/deps.py:32-51 | the token login issues for an existing user authenticates that user throughout the default lifetime |
| Deps.UntrustedTokenRejected | backend/app/deps.py:35-37 | a forged, wrongly signed, unparsable or expired token, or one with a non-string `sub`, fails with `Invalid token` |
| Deps.TokenChecksPrecedeLookup | backend/app/deps.py:32-50 | every failure except `User not found` is the same whatever the user table holds |
| SqlLike.LikePercent | backend/app/main.py:78 | `%` matches every text |
| SqlLike.LikePrefix | backend/app/main.py:78 | for a wildcard-free `q`, `q%` matches exactly the texts starting with `q` |
| SqlLike.LikeLeadingPercent | backend/app/main.py:78 | `%r` matches a text iff `r` matches one of its suffixes |
| SqlLike.LikeContains | backend/app/main.py:78 | for a wildcard-free `q`, `%q%` matches exactly the texts containing `q` |
| SqlLike.TitleFilterIsSubstring | backend/app/main.py:77-78 | for a wildcard-free `q`, the `ilike` filter keeps a title iff its ASCII lower-casing contains the lower-cased query |
| SqlLike.PercentQueryKeepsAll | backend/app/main.py:78 | the query `%` keeps every title |
| NotesApi.FindOwned | backend/app/main.py:84 | the lookup finds a note iff the id is present and owned by the caller, and returns that row |
| NotesApi.OwnedBy | backend/app/main.py:76 | exactly the caller's rows, unchanged |
| NotesApi.LookupSeesOnlyOwnNotes | backend/app/main.py:84-86 | a lookup on the whole table equals the lookup on the caller's part; another user's note looks like a missing one |
| NotesApi.Updated | backend/app/main.py:95-98 | the updated row has the new title and content, keeps id, owner and creation time, and moves `updated_at` only if the row changed |
| NotesApi.LargestKey | backend/app/models.py:19 | the scan down from a bound finds the largest key of the table, or 0 exactly when it is empty |
| NotesApi.NextAfterLargest | backend/app/models.py:9-19 | one more than the largest key, or 1 for an empty table, is the key SQLite gives the next row |
| NotesApi.NoteInserted | backend/app/main.py:65-68 | a note added under one more than the largest key gets the next row id, a key not yet present, and the table invariant holds with it as the new largest key |
| NotesApi.NotesService.constructor | backend/app/models.py:7-24 | both tables start empty and the invariant holds |
| NotesApi.NotesService.Register | backend/app/main.py:27-40 | a taken email gives 400 and leaves the table unchanged; otherwise one new row with the next row id and the password's hash, returned without the hash; unique emails and the other invariants are kept |
| NotesApi.NotesService.Login | backend/app/main.py:43-54 | fails iff no user with this email has a hash the password verifies against, always with the same 401 `Incorrect credentials`; otherwise a bearer token for `{'sub': str(id)}` of a user with this email |
| NotesApi.NotesService.ReadMe | backend/app/main.py:57-59 | the gate's 401, or exactly the user the gate returned, without the hash |
| NotesApi.NotesService.CreateNote | backend/app/main.py:63-69 | after the gate, one new note with the next row id (one more than the largest present, so a deleted last id comes back), the request's title and content, and the caller as owner; no other note changes |
| NotesApi.NotesService.ListNotes | backend/app/main.py:72-79 | the set of the caller's notes whose titles pass the filter (no filter for an absent or empty `q`); nothing else |
| NotesApi.NotesService.GetNote | backend/app/main.py:82-87 | the note iff it exists and is the caller's; otherwise 404 `Note not found`, for missing and foreign notes alike |
| NotesApi.NotesService.UpdateNote | backend/app/main.py:90-99 | only the matched note changes, as `Updated` says; otherwise 404 and no change |
| NotesApi.NotesService.DeleteNote | backend/app/main.py:102-109 | removes exactly the matched note and answers `{'ok': True}`; otherwise 404 and no change |
| Json.Lookup | frontend/hooks/useNoteDraft.js:26 | a property is `undefined` iff no member has that key |
| Json.LookupPut | frontend/hooks/useNoteDraft.js:26 | after `obj[k] = v`, `k` reads `v` and every other key reads as before |
| Json.PutWellOrdered | frontend/hooks/useNoteDraft.js:26 | assignment keeps keys distinct and in JavaScript's property order |
| Json.PutAppends | frontend/hooks/useNoteDraft.js:26 | a new key that may follow every present key is added at the end |
| Json.ParsedObjectsWellOrdered | frontend/hooks/useNoteDraft.js:25 | every object `JSON.parse` yields has distinct keys in property order |
| Json.StringifyRoundTrip | frontend/hooks/useNoteDraft.js:22-32 | `JSON.parse(JSON.stringify(v))` is `v` for every value of the modelled subset |
| Browser.Stored | frontend/hooks/useNoteDraft.js:31 | `getItem` returns the stored string iff the key is present, otherwise `null` |
| Browser.LocalStorage.SetItem | frontend/hooks/useNoteDraft.js:22 | the key maps to the value; nothing else changes |
| Browser.LocalStorage.RemoveItem | frontend/hooks/useNoteDraft.js:36 | only the key is removed |
| Drafts.SavedItems | frontend/hooks/useNoteDraft.js:9-28 | a blank save removes the draft key; any other save writes the record under it; the timestamps item is unchanged when its step throws or nothing was saved; no other key is added, changed or removed |
| Drafts.NoteDraft.GetDraft | frontend/hooks/useNoteDraft.js:30-33 | `null` iff the item is absent or empty; the parse error iff a non-empty item does not parse; otherwise the parsed value |
| Drafts.NoteDraft.HasDraft | frontend/hooks/useNoteDraft.js:39-41 | true iff the draft key is present, even with an empty item |
| Drafts.DraftKeysDistinct | frontend/hooks/useNoteDraft.js:3-7 | different note ids give different draft keys, none equal to `draft_timestamps` |
| Drafts.DraftReadsBack | frontend/hooks/useNoteDraft.js:15-33 | a saved record reads back as the object written, with its title and content |
| Drafts.SaveThenGet | frontend/hooks/useNoteDraft.js:15-33 | after a save with some text, `getDraft` returns that record, even when the timestamps step throws |
| Drafts.BlankSaveRemoves | frontend/hooks/useNoteDraft.js:10-13 | empty title and content remove the draft and change nothing else |
| Drafts.SaveTouchesOnlyItsKeys | frontend/hooks/useNoteDraft.js:9-28 | a save changes no key other than its draft key and `draft_timestamps` |
| Drafts.StampedTimestampsReadBack | frontend/hooks/useNoteDraft.js:25-27 | the timestamps written back read as the old object with the stamp assigned |
| Drafts.NoTimestampsYet | frontend/hooks/useNoteDraft.js:25 | with no `draft_timestamps` item, the `'{}'` fallback reads as the empty object |
| Drafts.SaveRecordsTimestamp | frontend/hooks/useNoteDraft.js:25-27 | a save records its stamp under its own id and keeps other ids' entries |
| Drafts.NoteDraft.SaveDraft | frontend/hooks/useNoteDraft.js:9-28 | the store after `saveDraft` is `SavedItems` of the store before; the call throws exactly when a record was written and the timestamps cannot be read |
| Drafts.NoteDraft.RemoveDraft | frontend/hooks/useNoteDraft.js:35-37 | only this draft's key is removed; the timestamps stay |
| Drafts.HasDraftAgreesWithGetDraft | frontend/hooks/useNoteDraft.js:30-41 | `hasDraft` holds iff the key is present; an absent key makes `getDraft` return `null` |
| JsString.BlankIsAllWhitespace | frontend/hooks/useNoteFilter.js:12 | a text is blank after `trim()` iff all its characters are whitespace |
| NoteCard.GetPreview | frontend/components/AdvancedNoteCard.js:16 | content of at most 200 characters is unchanged; longer content gives its first 200 characters plus `...`, 203 in all |
| NoteCard.PreviewIdempotent | frontend/components/AdvancedNoteCard.js:16 | the preview of a preview is the preview |
| NoteCard.GetWordCount | frontend/components/AdvancedNoteCard.js:20 | the count is at least 1 |
| NoteCard.CountWordsTrim | frontend/components/AdvancedNoteCard.js:20 | trimming does not change the number of words |
| NoteCard.WordCountCountsWords | frontend/components/AdvancedNoteCard.js:20 | for content with a non-whitespace character, the count is the number of maximal non-whitespace runs |
| NoteCard.BlankWordCount | frontend/components/AdvancedNoteCard.js:20 | blank content has no words but is shown as 1 |
| NoteFilter.Select | frontend/hooks/useNoteFilter.js:13-18 | each note occurs as often as in the input if its lower-cased title or content includes the lower-cased query, else not at all |
| NoteFilter.FilterNotes | frontend/hooks/useNoteFilter.js:11-19 | the same, with every note kept when the trimmed query is empty |
| NoteFilter.Insert | frontend/hooks/useNoteFilter.js:22-32 | inserting adds exactly that note |
| NoteFilter.SortNotes | frontend/hooks/useNoteFilter.js:22-32 | the sort is a permutation of its input |
| NoteFilter.TotalOrder | frontend/hooks/useNoteFilter.js:22-31 | each mode's comparison is total and transitive |
| NoteFilter.InsertSorted | frontend/hooks/useNoteFilter.js:22-32 | inserting into a sorted list keeps it sorted |
| NoteFilter.SortNotesSorted | frontend/hooks/useNoteFilter.js:22-32 | the sort result is ordered by the mode |
| NoteFilter.FilteredAndSorted | frontend/hooks/useNoteFilter.js:8-35 | for every sort mode and collation, the list holds each kept note as often as the input does, and no other note |
| NoteFilter.FilteredAndSortedCorrect | frontend/hooks/useNoteFilter.js:8-35 | the list holds each kept note as often as the input and nothing else, ordered by ascending id (`oldest`), by collation (`alphabetical`) or by descending id (`recent` and anything else) |
| NoteFilter.BlankQueryKeepsAll | frontend/hooks/useNoteFilter.js:12 | a blank query shows every note |
| NoteFilter.FilterStateIgnored | frontend/hooks/useNoteFilter.js:6-35 | the `filter` state does not affect the list |
| Api.ErrorMessage | frontend/components/NoteForm.js:94 | a non-empty `detail` is shown; an absent or empty one gives the fallback text |
| NoteForms.DraftIdOf | frontend/components/NoteForm.js:17 | the draft id is `'new'` exactly when `noteId` is falsy |
| NoteForms.Validate | frontend/components/NoteForm.js:61-74 | the first broken rule, on the trimmed fields: required, then title of at least 3, then content of at least 10; no message iff both length rules hold |
| NoteForms.RequestFor | frontend/components/NoteForm.js:80-88 | an update of that id iff `noteId` is truthy, otherwise a create; both carry the untrimmed title and content |
| NoteForms.AutoSaveWritesNewDraft | frontend/components/NoteForm.js:49-50 | an auto-save happens only for a new note, under `note_draft_new`, and always writes a record |
| NoteForms.NoteForm.constructor | frontend/components/NoteForm.js:9-17 | empty fields, no error, not saving, and a draft hook for `noteId \|\| 'new'` |
| NoteForms.NoteForm.HandleSubmit | frontend/components/NoteForm.js:57-98 | a rejected submission shows the broken rule's message and sends nothing; otherwise the one request `RequestFor`, then a success toast and `onSuccess`, or the error toast; only a successful create removes the `new` draft; the saving flag ends false |
| NoteForms.NoteForm.AutoSave | frontend/components/NoteForm.js:47-55 | when the condition holds, the store becomes `SavedItems` for the `new` draft; otherwise nothing changes |
| RegisterPage.Validate | frontend/pages/register.js:20-30 | `All fields are required` iff a field is empty; otherwise the untrimmed password must be at least 6 characters; no message iff both hold |
| RegisterPage.StoredUserReadsBack | frontend/pages/register.js:42-46 | the stored user record parses back with the response's id, email and full name |
| RegisterPage.RegisterForm.HandleSubmit | frontend/pages/register.js:15-54 | failed checks send nothing; login is sent only after a successful registration; the token and user record are stored, and the page navigates, only when both succeed; the loading flag is always false at the end |

## Left out

- HTTP, FastAPI routing, CORS, table creation, `get_db` and `OAuth2PasswordBearer`: framework plumbing. Each handler takes the bearer token as an argument.
- Request validation by pydantic, including `EmailStr`, and its 422 answers with `detail` arrays. `Api.ErrorMessage` takes a `detail` as text only.
- Concurrent requests and database transactions: requests are sequential method calls on one store.
- SHA-256 and the compact JWT text (base64url, header, HMAC bytes): parameters and symbolic tokens, as above.
- Claims python-jose checks other than `exp` and `sub` (`nbf`, `iat`, `aud`, `iss`, `jti`, `at_hash`): `create_access_token` never writes them. A token whose `exp` is not an integer is rejected.
- Unicode digits in Python's `int()`: only ASCII digits are accepted.
- SQLite's fallback when the largest key is already 2^63 - 1, which picks a random unused key: ids are unbounded integers here.
- Unicode case mapping: `lower()`, `ilike` and `toLowerCase` fold ASCII letters only.
- UTF-16 lengths: `substring(0, 200)`, `length` and `trim().length` count code points here, not UTF-16 code units.
- NoteFilter.FilteredAndSorted: stability is not stated. The model sorts stably, as `Array.prototype.sort` does, but the contract states only the order and the permutation.
- NoteFilter.InOrder: `new Date(id)` is taken as exact. Ids beyond the JavaScript Date range, which would compare as NaN, are not modelled.
- JSON outside the flat subset (arrays, nested objects, fractional numbers, surrogate `\u` escapes): `Json.Parse` gives `None` for it. When stored timestamps hold such JSON, `saveDraft` counts as throwing.
- localStorage quota errors and storage events from other tabs: `SetItem` always succeeds.
- The one-second debounce of auto-save: `NoteForm.AutoSave` is the timer firing.
- Loading a note for editing and restoring a draft on mount (the `useEffect` in `NoteForm.js`): network fetch and React effects.
- `login.js`, `useTheme`, `useNotification`, `Layout`, `MarkdownEditor`, `NoteCard.formatDate` and the other pages: rendering and browser side effects.
- Navigation (`router.push`, `onSuccess`) is a returned flag.
