# Notes persistence layer, modelled in Dafny

This project models the persistence layer of a small personal notes manager:
the `NotesService` contract (`list`, `create`, `update`, `remove`) and its two
backends, plus the policy that picks one of them.

- **Local backend** (`LocalStorageNotesService`). The whole note list lives as
  one JSON array in a single browser storage slot under the key
  `notes_app__notes`. `create`, `update` and `remove` load the list afresh,
  change it and write all of it back; `list` only loads, and an `update` that
  throws writes nothing. Loading fails open: no storage, a missing or empty
  slot, unparsable text or a value that is not an array all read as the empty
  list. `list` sorts newest first by `updatedAt`. `create` trims the title and
  content, stamps both times and appends the note. `update` patches the first
  note with the id, or throws "Note not found". `remove` keeps every note whose
  id differs.
- **Remote backend** (`ApiNotesService`). It is bound to a base URL with its
  trailing slashes stripped, and it sends GET/POST to `{base}/notes` and
  PUT/DELETE to `{base}/notes/{encoded id}`. `fetchJson` turns a non-2xx reply
  into an error: the error carries the body text, or `Request failed: <status>`
  when there is no body text.
- **Selection**. `createIfReachable` reads the base from `VITE_API_BASE`, or
  else from `VITE_BACKEND_URL`. It probes `/health` and ignores the outcome.
  It then probes `/notes` and returns the remote backend only if that probe
  succeeds. `getNotesService` falls back to the local backend otherwise.

Layout:

- `types.dfy` (`Types`): `Note`, the `create` input, the `update` patch, and `Option`/`Result`.
- `text.dfy` (`Text`): JavaScript's `trim` and the character (code-point) string order.
- `local_storage.dfy` (`LocalStorageService`): the slot, `load`/`save` and the
  class `LocalStorageNotesService`.
  - The class holds the slot as a field and has one method per operation.
  - `findIndex` is a loop and the sort is an in-place insertion sort on an array.
  - The pure functions and lemmas beside the class state what the operations compute.
- `api.dfy` (`ApiService`): base URL selection and normalisation, request
  building, reply handling, the class `ApiNotesService` and the probe decision.
- `notes_index.dfy` (`NotesIndex`): `getNotesService`.
- `scenarios.dfy` (`Scenarios`): the expected behaviours of the service,
  derived from the contracts alone.

Inputs that are nondeterministic or foreign are parameters. These are the
clock readings, the generated id, `encodeURIComponent` (a function argument
`encode`), the replies of the network, and whether `localStorage` exists.

Points where the code does not do what one might assume; the model follows the code:

- `create` calls `nowIso()` twice (local-storage.service.ts:52-53). So
  `createdAt == updatedAt` is not guaranteed, and `Create` takes two timestamps.
- Nothing makes `updatedAt` grow from one update to the next. It is whatever the clock returns.
- `create` does not check that the generated id is unused. `update` then
  patches only the first note with that id, and `remove` drops every note with
  that id. `RemoveUndoesCreate` holds only when the new id was unused.
- Title and content are trimmed only when a note is written. Notes that were
  stored some other way may be untrimmed. `Create`, `Update` and `Remove`
  keep "every stored note is trimmed" true, but only if it held before.
- When a caller passes its own `headers`, `fetchJson` drops the JSON
  content type (see Findings). No call in the service passes headers.
- A 2xx reply whose body is not JSON fails with `InvalidJson`. This includes
  an empty 204 reply to DELETE, because `fetchJson` always calls `res.json()`.

## Model

| member | source | states |
|---|---|---|
| `Text.Trim` | notes_frontend/src/services/notes/local-storage.service.ts:50-51 | `trim` gives a trimmed infix of its input, and everything it cuts off on either side is white space (JavaScript's WhiteSpace and LineTerminator characters) |
| `Text.TrimUnique` | notes_frontend/src/services/notes/local-storage.service.ts:50-51 | a trimmed string padded with white space trims back to exactly itself, so `trim` is fully determined |
| `Text.TrimOfTrimmed` | notes_frontend/src/services/notes/local-storage.service.ts:70-71 | trimming a string that is already trimmed changes nothing |
| `Text.TrimIdempotent` | notes_frontend/src/services/notes/local-storage.service.ts:70-71 | trimming twice is trimming once |
| `Text.LessIsLexicographic` | notes_frontend/src/services/notes/local-storage.service.ts:29 | `Less(a, b)` holds exactly when `a` is a proper prefix of `b`, or `a` has the smaller character at the first position where the two differ |
| `Text.LessIrreflexive` | notes_frontend/src/services/notes/local-storage.service.ts:29 | no timestamp sorts before itself |
| `Text.LessAsymmetric` | notes_frontend/src/services/notes/local-storage.service.ts:29 | two timestamps never sort before each other |
| `Text.LessTotal` | notes_frontend/src/services/notes/local-storage.service.ts:29 | of two different timestamps, one sorts before the other |
| `Text.LessTransitive` | notes_frontend/src/services/notes/local-storage.service.ts:29 | the comparator's order is transitive |
| `Text.NotLessTransitive` | notes_frontend/src/services/notes/local-storage.service.ts:29 | "not older than" is transitive, the order a newest-first sort produces |
| `LocalStorageService.Load` | notes_frontend/src/services/notes/local-storage.service.ts:9-19 | no storage, or a missing, empty, unparsable or non-array slot, all read as the empty list; a stored array reads as itself; it never fails |
| `LocalStorageService.Saved` | notes_frontend/src/services/notes/local-storage.service.ts:21-24 | without storage, `save` leaves the slot as it was; with storage, loading afterwards gives back exactly what was saved |
| `LocalStorageService.NewNote` | notes_frontend/src/services/notes/local-storage.service.ts:48-54 | the created note has the generated id and the two clock readings, and its title and content are the trimmed inputs, so they are trimmed |
| `LocalStorageService.Patched` | notes_frontend/src/services/notes/local-storage.service.ts:67-73 | the patched note keeps `id` and `createdAt`, takes the clock reading as `updatedAt`, and has as title and content the trimmed patch value if given, else the trimmed old value |
| `LocalStorageService.PatchedIgnoresUpdatedAt` | notes_frontend/src/services/notes/local-storage.service.ts:69-72 | an `updatedAt` in the patch has no effect on the stored note |
| `LocalStorageService.ResaveTrimmed` | notes_frontend/src/services/notes/local-storage.service.ts:70-72 | updating an already trimmed note with an empty patch changes only `updatedAt` |
| `LocalStorageService.PatchedTwice` | notes_frontend/src/services/notes/local-storage.service.ts:67-73 | applying the same patch twice equals applying it once at the later clock reading |
| `LocalStorageService.IndexOfId` | notes_frontend/src/services/notes/local-storage.service.ts:63 | the index is -1 exactly when no note has the id; otherwise the note there has the id and no earlier note does |
| `LocalStorageService.FindIndex` | notes_frontend/src/services/notes/local-storage.service.ts:63 | the `findIndex` loop returns the first index holding the id, or -1 |
| `LocalStorageService.WithoutId` | notes_frontend/src/services/notes/local-storage.service.ts:82 | the filtered list holds exactly the notes whose id differs, no note with the id, and is no longer than the input |
| `LocalStorageService.WithoutIdAppend` | notes_frontend/src/services/notes/local-storage.service.ts:82 | filtering a concatenation is concatenating the filtered parts, so the original order is kept |
| `LocalStorageService.WithoutAbsentId` | notes_frontend/src/services/notes/local-storage.service.ts:80-84 | removing an id that is not stored leaves the list equal |
| `LocalStorageService.WithoutIdIdempotent` | notes_frontend/src/services/notes/local-storage.service.ts:80-84 | removing twice equals removing once |
| `LocalStorageService.WithoutIdCounts` | notes_frontend/src/services/notes/local-storage.service.ts:82 | every copy of a note with another id survives, and every copy with the id goes |
| `LocalStorageService.RemoveUndoesCreate` | notes_frontend/src/services/notes/local-storage.service.ts:55-56 | appending a note whose id was unused and then removing that id gives back the old list |
| `LocalStorageService.SortNewestFirst` | notes_frontend/src/services/notes/local-storage.service.ts:29 | the in-place sort leaves the array a permutation of what it was, ordered non-increasingly by `updatedAt` |
| `LocalStorageService.InsertNewest` | notes_frontend/src/services/notes/local-storage.service.ts:29 | one insertion step of the sort: with the first `i` notes newest first, the first `i + 1` become newest first, and the array stays a permutation of what it was |
| `LocalStorageService.LocalStorageNotesService.Save` | notes_frontend/src/services/notes/local-storage.service.ts:21-24 | the slot becomes what `Saved` says: the written list, or unchanged without storage |
| `LocalStorageService.LocalStorageNotesService.List` | notes_frontend/src/services/notes/local-storage.service.ts:28-30 | the result is a permutation of the loaded notes, newest first; the slot is not written |
| `LocalStorageService.LocalStorageNotesService.Create` | notes_frontend/src/services/notes/local-storage.service.ts:33-58 | returns `NewNote` of the inputs; the stored list becomes the old one with that note appended and the earlier notes unchanged; "all notes trimmed" is preserved |
| `LocalStorageService.LocalStorageNotesService.Update` | notes_frontend/src/services/notes/local-storage.service.ts:61-77 | an unknown id fails with "Note not found" and writes nothing; otherwise only the first note with the id is replaced, by its patched version, which is returned; "all notes trimmed" is preserved |
| `LocalStorageService.LocalStorageNotesService.Remove` | notes_frontend/src/services/notes/local-storage.service.ts:80-84 | the stored list becomes the loaded one without the notes carrying the id; "all notes trimmed" is preserved |
| `ApiService.GetApiBase` | notes_frontend/src/services/notes/api.service.ts:3-9 | `VITE_API_BASE` if non-empty, else `VITE_BACKEND_URL` if non-empty, else none; a chosen base is never empty |
| `ApiService.StripTrailingSlashes` | notes_frontend/src/services/notes/api.service.ts:29-31 | the stored base never ends with '/', and the input is the stored base followed by slashes only |
| `ApiService.StripUnique` | notes_frontend/src/services/notes/api.service.ts:30 | a base not ending in '/' followed by any run of slashes normalises back to that base |
| `ApiService.StripIdempotent` | notes_frontend/src/services/notes/api.service.ts:30 | normalising twice equals normalising once |
| `ApiService.StripIgnoresExtraSlashes` | notes_frontend/src/services/notes/api.service.ts:30 | adding slashes to the configured base does not change the normalised base |
| `ApiService.SourceRequest` | notes_frontend/src/services/notes/api.service.ts:12-18 | as written: without caller headers the request carries exactly the JSON content type; with caller headers it carries exactly those; URL, method (default GET) and body pass through |
| `ApiService.SourceRequestDropsJsonHeader` | notes_frontend/src/services/notes/api.service.ts:12-18 | as written, a caller that adds one header sends no content type |
| `ApiService.MergedRequest` | notes_frontend/src/services/notes/api.service.ts:12-16 | the intended merge: every caller header is sent as given, and the JSON content type is kept unless the caller sets its own; nothing else is added |
| `ApiService.RequestsAgreeWithoutHeaders` | notes_frontend/src/services/notes/api.service.ts:12-17 | without caller headers both readings send the same request, whose headers are exactly the JSON content type |
| `ApiService.Decimal` | notes_frontend/src/services/notes/api.service.ts:21 | the printed status is a non-empty string of decimal digits with no leading zero |
| `ApiService.DecimalRoundTrip` | notes_frontend/src/services/notes/api.service.ts:21 | the printed status reads back as the status |
| `ApiService.IsOk` | notes_frontend/src/services/notes/api.service.ts:19 | `res.ok` holds exactly for the statuses printed as three digits starting with 2 |
| `ApiService.FailureMessage` | notes_frontend/src/services/notes/api.service.ts:20-21 | the message is the body text when it was read and is non-empty, else "Request failed: " and the status; it is never empty |
| `ApiService.FailureMessageCarriesStatus` | notes_frontend/src/services/notes/api.service.ts:20-21 | without body text, the status can be recovered from the message |
| `ApiService.FetchJson` | notes_frontend/src/services/notes/api.service.ts:11-24 | a network error or a non-2xx reply fails, the latter with `FailureMessage`; the call succeeds exactly on a 2xx reply with a JSON body, and returns that body |
| `ApiService.NoteUrl` | notes_frontend/src/services/notes/api.service.ts:48-56 | a note's URL is the collection URL, a slash and the encoded id |
| `ApiService.UrlsIgnoreTrailingSlashes` | notes_frontend/src/services/notes/api.service.ts:29-59 | trailing slashes on the configured base do not change any request URL |
| `ApiService.ApiNotesService.constructor` | notes_frontend/src/services/notes/api.service.ts:29-31 | the service is bound to the base with its trailing slashes stripped |
| `ApiService.ApiNotesService.ListRequest` | notes_frontend/src/services/notes/api.service.ts:34-36 | GET `{base}/notes` with no body and the JSON content type |
| `ApiService.ApiNotesService.CreateRequest` | notes_frontend/src/services/notes/api.service.ts:39-44 | POST `{base}/notes` carrying the title and content, with the JSON content type |
| `ApiService.ApiNotesService.UpdateRequest` | notes_frontend/src/services/notes/api.service.ts:47-52 | PUT `{base}/notes/{encoded id}` carrying the patch, with the JSON content type |
| `ApiService.ApiNotesService.RemoveRequest` | notes_frontend/src/services/notes/api.service.ts:55-59 | DELETE `{base}/notes/{encoded id}` with no body and the JSON content type |
| `ApiService.ApiNotesService.RemoveOutcome` | notes_frontend/src/services/notes/api.service.ts:55-59 | `remove` succeeds exactly when `fetchJson` does, and fails with its error |
| `ApiService.ApiNotesService.CreateIfReachable` | notes_frontend/src/services/notes/api.service.ts:62-81 | returns no service exactly when `ReachableBase` says none; otherwise a new service bound to the normalised base |
| `ApiService.ReachableBase` | notes_frontend/src/services/notes/api.service.ts:63-77 | a base is chosen exactly when one is configured and the `/notes` probe succeeds; the `/health` probe plays no part |
| `ApiService.ProbeRequests` | notes_frontend/src/services/notes/api.service.ts:63-72 | no probe is sent without a configured base; otherwise exactly two probes are sent, GET `{stripped base}/health` then GET `{stripped base}/notes`, each with no body and exactly the JSON content type |
| `ApiService.NotesProbeIsListRequest` | notes_frontend/src/services/notes/api.service.ts:72 | the `/notes` probe is the same request the chosen backend's `list` sends |
| `NotesIndex.SelectBackend` | notes_frontend/src/services/notes/index.ts:6-10 | without a configured base, the local backend is used and nothing is probed; a failed `/notes` probe also selects the local backend; otherwise the remote backend is bound to the normalised base |
| `NotesIndex.GetNotesService` | notes_frontend/src/services/notes/index.ts:6-10 | returns the remote backend exactly when `SelectBackend` chooses it, else a new local backend over the current storage |
| `Scenarios.PairPermutation` | notes_frontend/src/services/notes/local-storage.service.ts:28-30 | a newest-first permutation of an older and a newer note puts the newer first |
| `Scenarios.PaddedInputTrims` | notes_frontend/src/services/notes/local-storage.service.ts:50-51 | " A " trims to "A" and "B" followed by a newline trims to "B" |
| `Scenarios.CreateThenListOnEmptyStorage` | notes_frontend/src/services/notes/local-storage.service.ts:28-58 | on empty storage, creating a note and then listing returns exactly that note, with trimmed fields |
| `Scenarios.ListPutsNewestFirst` | notes_frontend/src/services/notes/local-storage.service.ts:28-30 | with two notes updated at t1 < t2, `list` returns the t2 note first |
| `Scenarios.UpdateOnCorruptStorage` | notes_frontend/src/services/notes/local-storage.service.ts:9-19 | with unparsable storage, `update` fails with "Note not found" and the slot stays unparsable |
| `Scenarios.RemoveTwice` | notes_frontend/src/services/notes/local-storage.service.ts:80-84 | a second removal of the same id leaves the list the first one left, which holds no note with that id |
| `Scenarios.NotFoundBodyBecomesMessage` | notes_frontend/src/services/notes/api.service.ts:19-22 | a 404 reply with body "not found" fails with exactly the message "not found" |

## Findings

| source | as written | input that shows it | evidently intended | confidence | as-written member | corrected member |
|---|---|---|---|---|---|---|
| notes_frontend/src/services/notes/api.service.ts:12-17 | `{headers: {json, ...init.headers}, ...init}`: the later `...init` puts the caller's `headers` back over the merged object | `init = {method: "GET", headers: {"X-Trace": "1"}}`: the request has no `Content-Type` | the caller's headers are merged over the JSON default, which stays unless the caller sets its own content type | medium; not executed; no call in this repository passes headers, so no call is affected today | `ApiService.SourceRequest`, `ApiService.SourceRequestDropsJsonHeader` | `ApiService.MergedRequest` |

## Left out

- The storage and the network are not modelled as I/O. `localStorage`,
  `fetch`, `res.text()`, `res.json()`, `JSON.parse` and `JSON.stringify` are
  replaced by the `Slot` value and by the `Reply` handed in.
  - Saving and loading is assumed to round-trip a note list unchanged.
  - Request bodies are kept as the values that would be serialised.
- The model does not check the shape of a parsed array. It assumes every element
  is a well-formed `Note`; the source does not check this either.
- The model drops any extra fields of a stored note, which the source's spread copies through on `update`.
- A `getItem` that throws is caught in the source and gives the empty list.
  The model folds this into `Unparsable`, since the result is the same. A
  `setItem` that throws (storage full) is not modelled.
- The id generator (`crypto.randomUUID`, or the `Math.random` base-36
  fallback) and `nowIso` are method parameters. They are nondeterministic,
  and no uniqueness or monotonicity is proved or assumed.
- `localeCompare` is modelled as plain lexicographic order by character. It actually collates by locale (case, accents and punctuation weights), and in general that differs from character order. For ISO 8601 timestamps of one fixed format the two agree.
- LocalStorageService.LocalStorageNotesService.List: states that the result is a newest-first permutation but not which order ties get. The engine's sort is stable, and so is the insertion sort used here, but stability is not proved.
- `encodeURIComponent` is an arbitrary function argument. Its escaping rules are not modelled.
- The outer `try`/`catch` of `createIfReachable` is not modelled. Nothing
  inside it can throw, because the `/health` probe's rejection is caught and
  the `/notes` probe has its own handler.
- Async scheduling, overlapping calls, and several tabs sharing the slot
  (last writer wins) are not modelled. This is a concurrency concern.
- `LocalStorageNotesService` has no state of its own in the source: every instance reads and writes the one global `localStorage` slot. In the model each instance holds its own copy of the slot, taken when it is built, so a write through one instance is not seen by another. The caller must pass the current slot to `GetNotesService`. Sharing of the one global slot between instances is not modelled.
- The presentation layer (routes and components) consumes the service and is not part of this model.
