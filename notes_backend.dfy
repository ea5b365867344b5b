/**
 The note store of the notes backend canister: a map from note ids to notes
 and a monotonic id counter, with the five public operations add, get, get-all,
 update and delete. The caller's principal and the host clock are explicit
 parameters of the operations that use them.

 The store is given twice: as a value (`Store`) with one pure step function per
 mutating operation, whose contracts say what each operation means, and as the
 stateful object `NoteStore`, whose methods change their fields in place the way
 the canister does and are proved to follow the step functions.
 */
module NotesBackend {

  datatype Option<T> = None | Some(value: T)

  /** A principal is an opaque identity; only equality of its bytes matters. */
  datatype Principal = Principal(bytes: seq<bv8>)

  /** The six fields of a stored note; ids and timestamps are unbounded here. */
  datatype Note = Note(
    id: nat,
    title: string,
    content: string,
    createdAt: nat,
    updatedAt: nat,
    owner: Principal)

  /** The whole state of the canister: the notes map and the next id to issue. */
  datatype Store = Store(notes: map<nat, Note>, nextId: nat)

  /** Every stored note carries its own key as id. */
  predicate IdsMatchKeys(m: map<nat, Note>)
  {
    forall k :: k in m ==> m[k].id == k
  }

  /** The store invariant: ids match keys, and every key was issued already. */
  predicate Consistent(s: Store)
  {
    IdsMatchKeys(s.notes) && forall k :: k in s.notes ==> k < s.nextId
  }

  /** The store before any call. */
  function Empty(): (s: Store)
    ensures Consistent(s) && s.nextId == 0 && |s.notes| == 0
  {
    Store(map[], 0)
  }

  /** add_note: issue the counter's value as the id, stamp the note, insert it. */
  function AddStep(s: Store, caller: Principal, now: nat, title: string, content: string): (r: (Store, nat))
    ensures r.1 == s.nextId && r.0.nextId == s.nextId + 1
    ensures Consistent(s) ==> r.1 !in s.notes && Consistent(r.0)
    ensures r.0.notes.Keys == s.notes.Keys + {r.1}
    ensures r.0.notes[r.1].id == r.1 && r.0.notes[r.1].owner == caller
    ensures r.0.notes[r.1].title == title && r.0.notes[r.1].content == content
    ensures r.0.notes[r.1].createdAt == now && r.0.notes[r.1].updatedAt == now
    ensures forall k :: k in s.notes && k != r.1 ==> r.0.notes[k] == s.notes[k]
  {
    var id := s.nextId;
    var note := Note(id, title, content, now, now, caller);
    (Store(s.notes[id := note], s.nextId + 1), id)
  }

  /** update_note: only the owner of an existing note may change it. */
  function UpdateStep(s: Store, caller: Principal, now: nat, id: nat, title: string, content: string): (r: (Store, Option<Note>))
    ensures r.1.Some? <==> id in s.notes && s.notes[id].owner == caller
    ensures r.1.None? ==> r.0 == s
    ensures r.1.Some? ==>
      && r.0.notes == s.notes[id := r.1.value]
      && r.0.nextId == s.nextId
      && r.1.value.id == s.notes[id].id
      && r.1.value.owner == s.notes[id].owner
      && r.1.value.createdAt == s.notes[id].createdAt
      && r.1.value.title == title
      && r.1.value.content == content
      && r.1.value.updatedAt == now
    ensures Consistent(s) ==> Consistent(r.0)
  {
    if id in s.notes then
      var note := s.notes[id];
      if note.owner != caller then (s, None)
      else
        var edited := note.(title := title, content := content, updatedAt := now);
        (Store(s.notes[id := edited], s.nextId), Some(edited))
    else
      (s, None)
  }

  /** delete_note: only the owner of an existing note may remove it. */
  function DeleteStep(s: Store, caller: Principal, id: nat): (r: (Store, Option<Note>))
    ensures r.1.Some? <==> id in s.notes && s.notes[id].owner == caller
    ensures r.1.None? ==> r.0 == s
    ensures r.1.Some? ==>
      && r.1.value == s.notes[id]
      && id !in r.0.notes
      && r.0.notes.Keys == s.notes.Keys - {id}
      && (forall k :: k in r.0.notes ==> r.0.notes[k] == s.notes[k])
      && r.0.nextId == s.nextId
    ensures Consistent(s) ==> Consistent(r.0)
  {
    if id in s.notes then
      var note := s.notes[id];
      if note.owner != caller then (s, None)
      else (Store(s.notes - {id}, s.nextId), Some(note))
    else
      (s, None)
  }

  /**
   A canister upgrade as the code stands: the notes map lives in stable memory
   and survives it, but the counter is a heap cell and no upgrade hook saves it,
   so the counter starts again at 0.
   */
  function UpgradeResettingCounter(s: Store): (r: Store)
    ensures r.notes == s.notes && r.nextId == 0
    ensures |s.notes| > 0 ==> !Consistent(r)
  {
    Store(s.notes, 0)
  }

  /**
   After such an upgrade the next add_note is issued id 0 again, which is
   already in use, and its insert replaces the note of another owner.
   */
  lemma UpgradeResettingCounterReissues(s: Store, caller: Principal, now: nat, title: string, content: string)
    requires Consistent(s)
    requires 0 in s.notes && s.notes[0].owner != caller
    ensures AddStep(UpgradeResettingCounter(s), caller, now, title, content).1 in s.notes
    ensures AddStep(UpgradeResettingCounter(s), caller, now, title, content).0.notes[0].owner != s.notes[0].owner
    ensures |AddStep(UpgradeResettingCounter(s), caller, now, title, content).0.notes| == |s.notes|
  {
  }

  /** A canister upgrade in which the counter survives along with the notes. */
  function UpgradeKeepingCounter(s: Store): (r: Store)
    ensures r.notes == s.notes && r.nextId == s.nextId
    ensures Consistent(s) ==> Consistent(r)
  {
    Store(s.notes, s.nextId)
  }

  /** After an upgrade that keeps the counter, the next add_note is issued an id not in use. */
  lemma UpgradeKeepingCounterKeepsIdsFresh(s: Store, caller: Principal, now: nat, title: string, content: string)
    requires Consistent(s)
    ensures AddStep(UpgradeKeepingCounter(s), caller, now, title, content).1 !in s.notes
    ensures |AddStep(UpgradeKeepingCounter(s), caller, now, title, content).0.notes| == |s.notes| + 1
  {
  }

  /** The keys of `m` in the half-open range [lo, hi). */
  function KeysBetween(m: map<nat, Note>, lo: nat, hi: nat): set<nat>
  {
    set k | k in m && lo <= k < hi
  }

  /**
   The notes of `m` whose keys lie in [lo, hi), visited in increasing key order,
   as an iteration over an ordered map visits them: each one is a stored entry
   and the ids strictly increase, so no note is visited twice.
   */
  function InKeyOrder(m: map<nat, Note>, lo: nat, hi: nat): (r: seq<Note>)
    requires IdsMatchKeys(m)
    ensures forall i :: 0 <= i < |r| ==> lo <= r[i].id < hi && r[i].id in m && m[r[i].id] == r[i]
    ensures forall i, j :: 0 <= i < j < |r| ==> r[i].id < r[j].id
    decreases hi - lo
  {
    if hi <= lo then []
    else
      var rest := InKeyOrder(m, lo + 1, hi);
      if lo in m then [m[lo]] + rest else rest
  }

  /** No note with a key in [lo, hi) is skipped. */
  lemma {:induction false} InKeyOrderCovers(m: map<nat, Note>, lo: nat, hi: nat, k: nat)
    requires IdsMatchKeys(m)
    requires k in m && lo <= k < hi
    ensures m[k] in InKeyOrder(m, lo, hi)
    decreases hi - lo
  {
    if k > lo {
      InKeyOrderCovers(m, lo + 1, hi, k);
    }
  }

  /** The visit has one element per key in [lo, hi). */
  lemma {:induction false} InKeyOrderLength(m: map<nat, Note>, lo: nat, hi: nat)
    requires IdsMatchKeys(m)
    ensures |InKeyOrder(m, lo, hi)| == |KeysBetween(m, lo, hi)|
    decreases hi - lo
  {
    if hi <= lo {
      assert KeysBetween(m, lo, hi) == {};
    } else {
      InKeyOrderLength(m, lo + 1, hi);
      if lo in m {
        assert KeysBetween(m, lo, hi) == {lo} + KeysBetween(m, lo + 1, hi);
      } else {
        assert KeysBetween(m, lo, hi) == KeysBetween(m, lo + 1, hi);
      }
    }
  }

  /** The canister's state, updated in place by its update calls. */
  class NoteStore {
    var notes: map<nat, Note>
    var nextId: nat

    /** The current state as a value. */
    function View(): Store
      reads this
    {
      Store(notes, nextId)
    }

    predicate Valid()
      reads this
    {
      Consistent(View())
    }

    /** The canister starts with no notes and the counter at 0. */
    constructor ()
      ensures Valid() && notes == map[] && nextId == 0
    {
      notes := map[];
      nextId := 0;
    }

    method AddNote(caller: Principal, now: nat, title: string, content: string) returns (id: nat)
      requires Valid()
      modifies this
      ensures Valid()
      ensures (View(), id) == AddStep(old(View()), caller, now, title, content)
      ensures id == old(nextId) && nextId == old(nextId) + 1 && id !in old(notes)
      ensures notes == old(notes)[id := Note(id, title, content, now, now, caller)]
    {
      id := nextId;
      nextId := nextId + 1;
      var note := Note(id, title, content, now, now, caller);
      notes := notes[id := note];
    }

    /** get_note: the stored entry, whoever asks; there is no access check. */
    function GetNote(id: nat): (r: Option<Note>)
      reads this
      ensures r.Some? <==> id in notes
      ensures r.Some? ==> r.value == notes[id]
      ensures Valid() && r.Some? ==> r.value.id == id
    {
      if id in notes then Some(notes[id]) else None
    }

    /** get_all_notes: every stored note once, in key order, whoever asks. */
    function GetAllNotes(): (r: seq<Note>)
      reads this
      requires Valid()
      ensures forall i :: 0 <= i < |r| ==> r[i].id in notes && notes[r[i].id] == r[i]
      ensures forall k :: k in notes ==> notes[k] in r
      ensures forall i, j :: 0 <= i < j < |r| ==> r[i].id < r[j].id
      ensures |r| == |notes|
    {
      var r := InKeyOrder(notes, 0, nextId);
      assert KeysBetween(notes, 0, nextId) == notes.Keys;
      InKeyOrderLength(notes, 0, nextId);
      assert forall k :: k in notes ==> notes[k] in r by {
        forall k | k in notes {
          InKeyOrderCovers(notes, 0, nextId, k);
        }
      }
      r
    }

    method UpdateNote(caller: Principal, now: nat, id: nat, title: string, content: string) returns (r: Option<Note>)
      requires Valid()
      modifies this
      ensures Valid()
      ensures (View(), r) == UpdateStep(old(View()), caller, now, id, title, content)
      ensures r.Some? <==> id in old(notes) && old(notes)[id].owner == caller
      ensures r.None? ==> notes == old(notes) && nextId == old(nextId)
      ensures r.Some? ==> notes == old(notes)[id := r.value] && GetNote(id) == r
    {
      if id in notes {
        var note := notes[id];
        if note.owner != caller {
          return None;
        }
        note := note.(title := title, content := content, updatedAt := now);
        notes := notes[id := note];
        r := Some(note);
      } else {
        r := None;
      }
    }

    method DeleteNote(caller: Principal, id: nat) returns (r: Option<Note>)
      requires Valid()
      modifies this
      ensures Valid()
      ensures (View(), r) == DeleteStep(old(View()), caller, id)
      ensures r.Some? <==> id in old(notes) && old(notes)[id].owner == caller
      ensures r.None? ==> notes == old(notes) && nextId == old(nextId)
      ensures r.Some? ==> r.value == old(notes)[id] && notes == old(notes) - {id} && GetNote(id) == None
    {
      if id in notes {
        var note := notes[id];
        if note.owner != caller {
          return None;
        }
        notes := notes - {id};
        r := Some(note);
      } else {
        r := None;
      }
    }
  }

  /**
   A client of the store: ids are issued from 0, a non-owner can read a note but
   can neither change nor delete it, and a deleted id is not issued again.
   */
  method OwnershipScenario(alice: Principal, bob: Principal)
    requires alice != bob
  {
    var store := new NoteStore();
    var id0 := store.AddNote(alice, 10, "Hi", "v1");
    assert id0 == 0;
    var edited := store.UpdateNote(alice, 20, id0, "Hi", "v2");
    assert edited.Some? && edited.value.content == "v2";
    assert edited.value.createdAt == 10 && edited.value.updatedAt == 20;
    var denied := store.UpdateNote(bob, 30, id0, "Hi", "v3");
    assert denied == None;
    var seen := store.GetNote(id0);
    assert seen == edited;
    var notDeleted := store.DeleteNote(bob, id0);
    assert notDeleted == None && store.GetNote(id0) == edited;
    var deleted := store.DeleteNote(alice, id0);
    assert deleted == edited && store.GetNote(id0) == None;
    var id1 := store.AddNote(bob, 40, "Mine", "b1");
    assert id1 == 1 && id1 != id0;
  }
}
