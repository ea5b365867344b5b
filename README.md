# Notes backend: a verified model of the note store

This project models the note store of the notes backend canister
(`src/notes_backend/src/lib.rs`). Its state is a map from note ids to notes and a
monotonic id counter that starts at 0. Its five public calls are:

- `add_note` takes the counter's value as the new id and increments the counter. It stamps the note with the caller as owner and the clock time as both time stamps, then inserts it.
- `get_note` and `get_all_notes` are queries. They do no access check; `get_all_notes` lists every note in key order.
- `update_note` and `delete_note` return `None` when the id is absent or when the caller is not the note's owner. Otherwise `update_note` replaces the title and content, refreshes `updated_at`, and returns the stored note. `delete_note` removes the note and returns it as it was.

`notes_backend.dfy` (module `NotesBackend`) holds the model:

- The `Note` record has the source's six fields. `Store` is the whole state as a value.
- The pure step functions `AddStep`, `UpdateStep` and `DeleteStep` carry what each call means in their contracts: the success condition in both directions, the fields of the stored note, that no other entry changes, and that the store invariant is kept.
- The class `NoteStore` changes its `notes` and `nextId` fields in place, as the canister changes its thread-local cells. Each of its methods is proved to produce exactly the step function's new state and result.
- The queries are functions that read the object.
- `OwnershipScenario` is a client of the class. It shows from the contracts alone that ids are issued from 0, that a non-owner can read a note but can neither change nor delete it, and that a deleted id is not reused within one installation.
- A canister upgrade is given twice. `UpgradeResettingCounter` is the upgrade as the code stands: the map survives and the counter restarts at 0. `UpgradeKeepingCounter` keeps the counter (see "## Findings").

`notes_traces.dfy` (module `NotesTraces`) states properties of any sequence of update calls. An upgrade in such a sequence keeps the counter, as `UpgradeKeepingCounter` does. For the code as written, whose upgrade resets the counter, all but the last bullet hold only between upgrades (see "## Left out"); the last one is also proved across such an upgrade (`StampsAcrossUpgradeResettingCounter`):

- the invariant holds after any sequence;
- ids are issued as consecutive numbers;
- a deleted id is never issued or stored again;
- a note keeps its id, owner and creation time for as long as it exists;
- with a clock that never goes back, `created_at <= updated_at` holds for every stored note, and a note's `updated_at` never decreases.

The store invariant (`Consistent`, and `NoteStore.Valid`) says two things: every key equals the stored note's `id`, and every key is below the counter.

The caller's principal (`ic_cdk::caller()`) and the host clock (`time()`) are explicit parameters `caller` and `now`. A principal is modelled as its bytes and is compared only for equality.

The model follows the Rust code:

- The counter starts at 0.
- `get_note` and `get_all_notes` do no access check.
- Only the owner may update or delete a note.
- A note has exactly the six fields of the `Note` struct. The generated interface declarations (`src/declarations/notes_backend/`) list sharing, versions and a markdown flag, which this backend does not implement.

## Model

| member | source | states |
|---|---|---|
| NotesBackend.Empty | src/notes_backend/src/lib.rs:41-47 | the initial store has no notes, its counter is 0, and it satisfies the invariant |
| NotesBackend.AddStep | src/notes_backend/src/lib.rs:51-68 | returns the counter's prior value and increments the counter by one; on a consistent store the id was not a key, and the invariant is kept; exactly that key is added, holding a note with that id, the caller as owner, the given title and content and both stamps equal to the clock; every other entry is unchanged |
| NotesBackend.UpdateStep | src/notes_backend/src/lib.rs:81-97 | succeeds if and only if the id is present and the caller is its owner; on failure the state is unchanged; on success the returned note is the one stored at the id, with the new title and content and `updated_at` = now, and the same id, owner and `created_at` as before; the counter and all other entries are unchanged; the invariant is kept |
| NotesBackend.DeleteStep | src/notes_backend/src/lib.rs:100-112 | succeeds if and only if the id is present and the caller is its owner; on failure the state is unchanged; on success it returns the note exactly as stored, the key is gone, every other entry and the counter are unchanged; the invariant is kept |
| NotesBackend.InKeyOrder | src/notes_backend/src/lib.rs:76-78 | iterating the map over a key range yields only stored entries with keys in the range, with strictly increasing ids, so no note appears twice |
| NotesBackend.InKeyOrderCovers | src/notes_backend/src/lib.rs:77 | every stored note whose key lies in the range appears in the iteration |
| NotesBackend.InKeyOrderLength | src/notes_backend/src/lib.rs:77 | the iteration has exactly one element per key in the range |
| NotesBackend.NoteStore.constructor | src/notes_backend/src/lib.rs:41-47 | the canister starts with an empty map and the counter at 0, satisfying the invariant |
| NotesBackend.NoteStore.AddNote | src/notes_backend/src/lib.rs:51-68 | the new state and returned id are those of `AddStep`: the id is the old counter, which was not a key, the counter grows by one, and the map gains exactly the stamped note at that id |
| NotesBackend.NoteStore.GetNote | src/notes_backend/src/lib.rs:70-73 | returns the stored entry if and only if the key is present, for any caller, and its id is the key asked for |
| NotesBackend.NoteStore.GetAllNotes | src/notes_backend/src/lib.rs:75-78 | returns every stored note exactly once, in increasing key order, for any caller: only stored entries, each stored note present, strictly increasing ids, as many notes as keys |
| NotesBackend.NoteStore.UpdateNote | src/notes_backend/src/lib.rs:80-97 | the new state and result are those of `UpdateStep`; it succeeds exactly for the owner of an existing note, and then `get_note` returns the note it returned |
| NotesBackend.NoteStore.DeleteNote | src/notes_backend/src/lib.rs:99-112 | the new state and result are those of `DeleteStep`; it succeeds exactly for the owner of an existing note, returns the note as stored, and afterwards `get_note` gives `None` |
| NotesTraces.RunKeepsConsistent | src/notes_backend/src/lib.rs:50-112 | any sequence of add, update and delete calls keeps the invariant: keys equal note ids and lie below the counter |
| NotesTraces.IssuedAreConsecutive | src/notes_backend/src/lib.rs:47-57 | the add calls of a sequence receive the consecutive ids counter, counter + 1, ..., and the counter ends at its start plus the number of adds |
| NotesTraces.IssuedFromEmpty | src/notes_backend/src/lib.rs:47-57 | from the initial store the issued ids are exactly 0, 1, 2, ... and strictly increasing |
| NotesTraces.IssuedAreFresh | src/notes_backend/src/lib.rs:52-57 | no id issued later equals a present key or any id below the counter, deleted ones included |
| NotesTraces.AbsentStaysAbsent | src/notes_backend/src/lib.rs:52-66 | a key below the counter that is absent from the map is absent after any sequence of calls |
| NotesTraces.DeletedNeverReissued | src/notes_backend/src/lib.rs:103-107 | after the owner deletes a note, its id is never issued again and never reappears in the map |
| NotesTraces.StepKeepsIdentity | src/notes_backend/src/lib.rs:58-91 | a single call never changes the id, owner or `created_at` of a note that survives it |
| NotesTraces.IdentityIsStable | src/notes_backend/src/lib.rs:58-112 | a note present before and after any sequence of calls has kept its id, owner and `created_at` |
| NotesTraces.RunKeepsStampsOrdered | src/notes_backend/src/lib.rs:62-90 | with clock readings that never decrease, every stored note keeps `created_at <= updated_at <= ` the latest reading |
| NotesBackend.UpgradeResettingCounter | src/notes_backend/src/lib.rs:41-47 | an upgrade as written keeps the notes map but restarts the counter at 0, so any non-empty store no longer satisfies the invariant |
| NotesBackend.UpgradeResettingCounterReissues | src/notes_backend/src/lib.rs:52-66 | after an upgrade as written, the next add is issued an id already in use; its insert replaces another owner's note and the number of notes does not grow |
| NotesBackend.UpgradeKeepingCounter | src/notes_backend/src/lib.rs:41-47 | an upgrade that keeps the counter keeps both the map and the counter, and with them the invariant |
| NotesBackend.UpgradeKeepingCounterKeepsIdsFresh | src/notes_backend/src/lib.rs:52-66 | after an upgrade that keeps the counter, the next add is issued an id not in use and the store gains one note |
| NotesTraces.UpdatedStaysAtLeast | src/notes_backend/src/lib.rs:58-90 | under a non-decreasing clock from `t`, a bound `u <= t` that the note at a key meets, if it is stored, is met by the note stored at that key after any sequence of calls, from any store |
| NotesTraces.UpdatedNeverDecreases | src/notes_backend/src/lib.rs:62-90 | with clock readings that never decrease, a note present before and after any sequence of calls has an `updated_at` no smaller than before, from any store with ordered stamps, whether or not the counter is consistent with the keys |
| NotesTraces.StampsAcrossUpgradeResettingCounter | src/notes_backend/src/lib.rs:41-90 | across an upgrade as written, between two call sequences under a non-decreasing clock, every stored note has `created_at <= updated_at`, and the note at a key has an `updated_at` no smaller than the one stored there at the start |
| NotesTraces.CreatedNoLaterThanUpdated | src/notes_backend/src/lib.rs:62-90 | from the initial store, under a non-decreasing clock, every stored note has `created_at <= updated_at` |

## Left out

- The `Storable` implementation is not modelled. It covers the Candid `Encode!`/`Decode!` calls, their `unwrap` panics and the 1024-byte bound. Storage is an abstract map, so a note too large to encode is not modelled.
- The `thread_local!`, `RefCell`, `MemoryManager` and stable-memory plumbing are not modelled. They appear as the two plain fields of `NoteStore`.
- `NoteStore` models one installation of the canister, and its two fields have the same lifetime. In the code the notes map is in stable memory and survives an upgrade, but the counter is a heap cell that does not. `UpgradeResettingCounter` models that upgrade on the value side only. After an upgrade as written, the next add reuses an id, overwrites that note and leaves the counter behind the keys. So every `NotesTraces` result except the time-stamp lemmas (`RunKeepsStampsOrdered`, `UpdatedStaysAtLeast`, `UpdatedNeverDecreases`, `CreatedNoLaterThanUpdated`) holds for the code as written only between upgrades. These are `RunKeepsConsistent`, `IssuedAreConsecutive`, `IssuedFromEmpty`, `IssuedAreFresh`, `AbsentStaysAbsent`, `DeletedNeverReissued`, `StepKeepsIdentity` and `IdentityIsStable`. They hold across upgrades only for an upgrade that keeps the counter, which is the upgrade their call sequences contain. The time-stamp lemmas require nothing of the counter, so they also hold across an upgrade as written: an overwriting note is stamped with a later clock reading. `StampsAcrossUpgradeResettingCounter` proves this for a sequence, an upgrade as written, and a second sequence.
- 64-bit width is not modelled. Ids and timestamps are unbounded `nat`, so the `u64` overflow of `NEXT_ID += 1` (a panic or wrap after 2^64 notes) is not captured.
- The host is not modelled. `ic_cdk::caller()` and `time()` become the parameters `caller` and `now`, and the `update`/`query` attributes are not modelled. The clock's monotonicity is an assumption of the time-stamp lemmas, not a property of the model. `add_note` reads `time()` twice; the model uses one `now` for both stamps, because the host clock does not change within one message execution.
- Call sequences in `NotesTraces` contain the three update calls and an upgrade that keeps the counter. The two queries are not among them: they are functions of the state and cannot change it.
- The B-tree walk of `get_all_notes` is not modelled as such. `InKeyOrder` walks the key range from 0 up to the counter instead. Every key lies below the counter, so this visits the same notes in the same order.
- The web front end, its HTTP agent and its build configuration are not modelled. They are presentation and transport: client-side trimming of empty input, sorting by `updated_at`, and date formatting. The backend enforces none of them.
- Sharing, permissions, version history, revert and the markdown flag are not modelled. They appear in the generated interface declarations and in two front-end components (`ShareModal.js`, `VersionHistoryModal.js`); this backend implements none of them.

## Findings

| source | as written | input that shows it | evidently intended | confidence | as-written member | corrected member |
|---|---|---|---|---|---|---|
| src/notes_backend/src/lib.rs:41-47 | the notes map lives in stable memory. The id counter is a heap `RefCell<u64>` with no pre- or post-upgrade hook, so an upgrade keeps the notes and restarts the counter at 0 | a store holding alice's note at id 0; upgrade the canister; bob calls `add_note`: he is issued id 0 and his note replaces alice's | ids stay unique across upgrades, so the counter persists with the notes | not executed; rests on the host discarding heap state on upgrade | NotesBackend.UpgradeResettingCounterReissues | NotesBackend.UpgradeKeepingCounterKeepsIdsFresh |
