# userapi store — a Dafny model

This project models the persistence core of the `userapi` service: the
file-backed `Store` of `pkg/store/store.go`. The store keeps one JSON document,
a `UserStore` holding an `Increment` counter and a map `List` from the decimal
string of a user's ID to the `User` record. Every mutating operation
(`CreateUser`, `UpdateUser`, `DeleteUser`) reads the whole document, changes it
in memory, and writes the whole document back; `User` and `SearchUsers` only
read it. The operations that load through `connectStore` (all but
`SearchUsers`) first initialise a missing file to the empty document
(`Increment` 0, empty `List`)
and read again; `SearchUsers` alone does not initialise.

Layout (one module per file):

- `wrappers.dfy` — `Option`, `Result` (Go's `(T, error)`) and `Outcome` (a bare `error`).
- `strconv.dfy` — `Itoa` as a pure decimal rendering, its inverse `Atoi`, and injectivity.
- `models.dfy` — `User`, `UserRequest`, `UserStore` and the empty document; Go's `int` is taken to be the 64-bit `Int`, and `Incremented` is `x++` with wrap-around.
- `files.dfy` — the disk: the file's bytes are either the encoding of a document or something that does not decode; a `Disk` object holds the file (`None` when absent) and the environment's constant faults (read, create, write); `ReadFile`, `Create`, `WriteFile` stand for the `os` calls.
- `store.dfy` — the store's invariant (`Valid`: every key is `Itoa` of its record's ID, every ID lies in `1..Increment`, `Created <= Updated`). It also holds the in-memory changes (`NewUser`, `WithNewUser`, `Renamed`, `WithRenamed`, `Without`) and, for each operation, a specification function giving its reply and the file it leaves (`Connection`, `CreateEffect`, `GetEffect`, `UpdateEffect`, `DeleteEffect`). Finally it holds the `Store` class, whose methods follow the Go code step by step and are proved to end in the state those functions describe.
- `store_properties.dfy` — what the store promises, as lemmas over those functions.
- `runs.dfy` — sequences of operations on a disk that never faults, as a state machine over the document; the IDs handed out are the counter's next values, without gaps and never reused.
- `workflow.dfy` — the integration test's main workflow (create, rename, create, look up, list, delete, list, look up "0") replayed against the class's contracts.

The clock is a parameter `now: int` of every operation that stamps a record.
Where a property needs the clock not to go backwards, the lemma says so.

## Model

| member | source | states |
|---|---|---|
| `Strconv.Itoa` | pkg/store/store.go:62 | the key is non-empty; it is all digits exactly when the ID is non-negative, starts with '-' exactly when it is negative, and has no leading zero |
| `Strconv.AtoiItoa` | pkg/store/store.go:62 | reading a key back gives the ID it was made from |
| `Strconv.ItoaInjective` | pkg/store/store.go:62-63 | two IDs give the same key if and only if they are equal |
| `Models.Incremented` | pkg/store/store.go:53 | `Increment++` yields `x + 1` modulo 2^64, two's-complement wrap-around on a 64-bit `int` (64-bit `int` assumed) |
| `Files.Marshal` | pkg/store/store.go:64 | decoding the bytes written for a document gives that document back |
| `Files.ReadResult` | pkg/store/store.go:34-37 | reading succeeds exactly on an existing readable file and returns its bytes; the error is `NotExist` exactly when the file is absent |
| `Files.Disk.ReadFile` | pkg/store/store.go:135 | the read's result is the one `ReadResult` gives for the current file |
| `Files.Disk.Create` | pkg/store/store.go:138-141 | creating either fails with the environment's error (`NotExist` for a missing directory, `Denied` otherwise) and leaves the file, or leaves an empty (undecodable) file |
| `Files.Disk.WriteFile` | pkg/store/store.go:151-154 | writing either fails and leaves the file, or replaces it with the given bytes |
| `Store.Store.constructor` | pkg/store/store.go:26-31 | the store is bound to the given backing file |
| `Store.Store.SearchUsers` | pkg/store/store.go:33-43 | a missing file is an error (`NotExist`), not initialised; success happens exactly on a readable file holding a document, and returns that document unchanged |
| `Store.Store.CreateUser` | pkg/store/store.go:45-72 | reply and new file are `CreateEffect` of the old file: connect, counter + 1, new record with that ID and equal stamps under `Itoa(ID)`, one write; any failure is reported with the file left as connecting left it |
| `Store.Store.User` | pkg/store/store.go:74-85 | reply and new file are `GetEffect`: the stored record when the key is present, `UserNotFound` otherwise, and no write beyond initialisation |
| `Store.Store.UpdateUser` | pkg/store/store.go:87-110 | reply and new file are `UpdateEffect`: `UserNotFound` with no write for an absent key, else the renamed and restamped record written back |
| `Store.Store.DeleteUser` | pkg/store/store.go:112-132 | reply and new file are `DeleteEffect`: `UserNotFound` with no write for an absent key, else the document without that key written back |
| `Store.Store.ConnectStore` | pkg/store/store.go:134-165 | reply and new file are `Connection` of the old file: the recursion into itself happens at most once, after the empty document has been written |
| `StoreProperties.KeyNamesItsRecord` | pkg/store/store.go:62-63 | in a valid document, a key equals `Itoa(i)` if and only if its record's ID is `i` |
| `StoreProperties.ZeroNeverFound` | pkg/store/store.go:80-83 | no valid document has a record under "0", so looking up "0" is `UserNotFound` |
| `StoreProperties.PaddedKeyNeverFound` | pkg/store/store.go:80-83 | no valid document has a record under a zero-padded key such as "01", so that lookup is `UserNotFound` even though user 1 exists |
| `StoreProperties.NextKeyFresh` | pkg/store/store.go:53-63 | in a valid document the key of `Increment + 1` is unused |
| `StoreProperties.CreateIssuesNextId` | pkg/store/store.go:53-63 | given room in the counter, create raises the counter by exactly one; the new record's ID is the new counter, it carries the requested name and email, its two stamps are equal, and it sits under `Itoa(ID)` |
| `StoreProperties.CreateKeepsOthers` | pkg/store/store.go:53-63 | on a valid document with room in the counter, create's key is fresh, the key set grows by exactly that key, the map by exactly one, and every prior entry survives unchanged |
| `StoreProperties.CreateKeepsValid` | pkg/store/store.go:53-63 | create keeps a valid document valid (given room in the counter) and adds no record created after `now` |
| `StoreProperties.UpdateChangesOnlyNameAndStamp` | pkg/store/store.go:95-101 | update keeps the counter, the key set, the record's ID, email and creation stamp and every other entry; only the display name and `Updated` change |
| `StoreProperties.UpdateKeepsValid` | pkg/store/store.go:99-101 | with a clock not before any creation, update keeps the document valid; with a later clock `Updated` exceeds `Created` |
| `StoreProperties.DeleteRemovesExactlyKey` | pkg/store/store.go:120-123 | delete removes exactly the one key, shrinks the map by one, keeps the counter and every other entry |
| `StoreProperties.DeleteKeepsValid` | pkg/store/store.go:123 | delete keeps the document valid |
| `StoreProperties.DeletedIdNeverReissued` | pkg/store/store.go:53-56 | given room in the counter, after a delete the next create's ID differs from the deleted one, its key differs from the deleted key, and it is above every ID the document held |
| `StoreProperties.ConnectInitialisesMissingFile` | pkg/store/store.go:137-155 | a missing file becomes the empty document, and the retry returns exactly that document |
| `StoreProperties.ConnectLeavesExistingFile` | pkg/store/store.go:156-164 | an existing file is never written by connecting; a read fault is an I/O error, undecodable bytes a decode error, otherwise the stored document comes back |
| `StoreProperties.ConnectWritesOnlyWhenMissing` | pkg/store/store.go:135-159 | connecting changes the file only when it was missing; it reports `NotExist` exactly when the file was missing and creating it failed with `NotExist`; it never reports `UserNotFound` |
| `StoreProperties.ConnectSettles` | pkg/store/store.go:143-155 | a second connection leaves the file as the first left it and, after a successful first, returns the same document (no re-initialisation) |
| `StoreProperties.FailedMutationWritesNothing` | pkg/store/store.go:45-132 | a failed create, update or delete leaves the file as connecting left it; an existing file is left untouched |
| `StoreProperties.NotFoundIsConsistent` | pkg/store/store.go:74-123 | lookup, update and delete each report `UserNotFound`, with no write, exactly when the loaded document lacks the key |
| `StoreProperties.GetOnlyReads` | pkg/store/store.go:74-85 | lookup leaves the file as connecting left it, succeeds exactly when the key is present, and returns the stored record |
| `StoreProperties.SuccessWritesChangedDocument` | pkg/store/store.go:45-132 | a successful create, update or delete writes exactly the changed document and returns the new or updated record |
| `StoreProperties.ConnectKeepsConsistent` | pkg/store/store.go:134-165 | connecting keeps a consistent file consistent and returns only valid documents |
| `StoreProperties.OperationsKeepConsistent` | pkg/store/store.go:45-132 | every operation keeps the file consistent (valid document, no creation after `now`); create needs the counter below the largest `int` |
| `StoreProperties.InterruptedInitialisationSticks` | pkg/store/store.go:138-154 | if `os.Create` succeeds but the first write fails, an empty file stays and every later connection fails without re-initialising |
| `StoreProperties.CounterWrapsAtMaxInt` | pkg/store/store.go:53-56 | at the largest `int` the next ID wraps to the smallest one and the document is no longer valid |
| `Runs.StepMovesCounter` | pkg/store/store.go:53-56 | on a disk that never faults and given room in the counter, a create raises the counter by one and replies with the new value as the ID; no other operation moves the counter |
| `Runs.RunIssuesConsecutiveIds` | pkg/store/store.go:53-56 | on a disk that never faults and given room in the counter for the creates, over any sequence of operations the counter rises by the number of creates, and the IDs issued are the consecutive values after the starting counter |
| `Runs.IssuedIdsAreFresh` | pkg/store/store.go:53-56 | on a disk that never faults, from a valid document with room in the counter for the creates, issued IDs strictly increase and exceed every ID the document held, deleted ones included |
| `Runs.FromEmptyIdsCountFromOne` | tests/userapi_test.go:108-113 | on a disk that never faults, with at most `MaxInt` creates, from the empty document the n-th create gets ID n |
| `Runs.RunKeepsValid` | pkg/store/store.go:45-132 | on a disk that never faults, a run whose clock does not go backwards keeps the document valid, given room in the counter for its creates |
| `Runs.CreatesOnlyGrowList` | pkg/store/store.go:53-63 | on a disk that never faults, from a valid document with room in the counter, k creates add exactly k records and raise the counter by k |
| `Runs.FaultFreeStoreFollowsStep` | pkg/store/store.go:45-132 | on a disk that never faults, each store operation replies and writes as one step of the document state machine does |

## Left out

- The `sync.Mutex` (pkg/store/store.go:23, 46-47, 88-89, 113-114): operations are modelled as atomic sequential steps, so the concurrent no-lost-update guarantee is not modelled.
- `encoding/json`: the file holds either a document's encoding or bytes that do not decode, and encoding cannot fail (`json.Marshal` of a `UserStore` fails only on timestamps outside years 0–9999, which the integer clock does not represent).
- A file whose `list` is JSON `null` or absent decodes to a nil map, on which the Go insertion panics; the model's documents always carry a map.
- `time.Now()`: every stamping operation takes the instant `now` as a parameter.
- File modes (`fs.ModePerm`), the file handle `os.Create` leaves open until return, and the file path: the store is bound to one `Disk` object.
- Faults are fixed properties of the disk (read, create, write); an absent file is always read as `NotExist`, so a path component that blocks the lookup (EACCES, ENOTDIR from `os.ReadFile`) is not modelled; a fault that comes and goes between two calls within one operation is not modelled.
- Models.Incremented: assumes Go's `int` is 64 bits wide; a 32-bit build (386, arm) wraps the counter at 2^31 − 1, which is not modelled.
- Files.Disk.WriteFile: a failed write leaves the file unchanged; `os.WriteFile` truncates first, so a real failure can leave a partial file.
- Error messages and their wrapping (`"create user failed: %w"`): only the error kind is kept (`UserNotFound`, `Io(NotExist | Denied)`, `Decode`).
- Logging, the HTTP server and handlers, the service layer, and process start-up and shutdown, which only call into the store.
- Writing to a temporary file and renaming it over the original is not what the code does (it writes in place), so it is not modelled.
- An update always stamps `Updated` with `now`; `Updated` exceeds `Created` only when the clock has advanced since creation (`UpdateKeepsValid`), not unconditionally.
