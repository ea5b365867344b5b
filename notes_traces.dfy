/**
 Properties of the note store over any sequence of update calls: the invariant
 is kept, ids are issued as 0, 1, 2, ... and never again after a delete, a note
 keeps its owner and creation time for as long as it exists, and with a clock
 that never goes back every note was created no later than it was last updated.
 Queries are left out of call sequences: they are functions of the state and
 cannot change it. An upgrade in a call sequence keeps the counter, as
 `UpgradeKeepingCounter` does.
 */
module NotesTraces {
  import opened NotesBackend

  /** One update call of the canister, with its caller and clock reading, or an upgrade. */
  datatype Call =
    | Add(caller: Principal, now: nat, title: string, content: string)
    | Update(caller: Principal, now: nat, id: nat, title: string, content: string)
    | Delete(caller: Principal, id: nat)
    | Upgrade

  function Step(s: Store, c: Call): Store
  {
    match c
    case Add(caller, now, title, content) => AddStep(s, caller, now, title, content).0
    case Update(caller, now, id, title, content) => UpdateStep(s, caller, now, id, title, content).0
    case Delete(caller, id) => DeleteStep(s, caller, id).0
    case Upgrade => UpgradeKeepingCounter(s)
  }

  /** The store after the calls, made one after another from `s`. */
  function Run(s: Store, calls: seq<Call>): Store
    decreases |calls|
  {
    if calls == [] then s else Run(Step(s, calls[0]), calls[1..])
  }

  /** The ids returned by the add calls among `calls`, in call order. */
  function Issued(s: Store, calls: seq<Call>): seq<nat>
    decreases |calls|
  {
    if calls == [] then []
    else
      var c := calls[0];
      var head := if c.Add? then [AddStep(s, c.caller, c.now, c.title, c.content).1] else [];
      head + Issued(Step(s, calls[0]), calls[1..])
  }

  lemma {:induction false} RunKeepsConsistent(s: Store, calls: seq<Call>)
    requires Consistent(s)
    ensures Consistent(Run(s, calls))
    decreases |calls|
  {
    if calls != [] {
      RunKeepsConsistent(Step(s, calls[0]), calls[1..]);
    }
  }

  /**
   The add calls receive the consecutive ids s.nextId, s.nextId + 1, ...,
   and the counter ends just past the last of them.
   */
  lemma {:induction false} IssuedAreConsecutive(s: Store, calls: seq<Call>)
    ensures forall i :: 0 <= i < |Issued(s, calls)| ==> Issued(s, calls)[i] == s.nextId + i
    ensures Run(s, calls).nextId == s.nextId + |Issued(s, calls)|
    decreases |calls|
  {
    if calls != [] {
      IssuedAreConsecutive(Step(s, calls[0]), calls[1..]);
    }
  }

  /** From the empty store the ids issued are exactly 0, 1, 2, ..., strictly increasing. */
  lemma IssuedFromEmpty(calls: seq<Call>)
    ensures forall i :: 0 <= i < |Issued(Empty(), calls)| ==> Issued(Empty(), calls)[i] == i
    ensures forall i, j :: 0 <= i < j < |Issued(Empty(), calls)| ==> Issued(Empty(), calls)[i] < Issued(Empty(), calls)[j]
  {
    IssuedAreConsecutive(Empty(), calls);
  }

  /** No id issued later is a key of the store, or was a key that has since been deleted. */
  lemma IssuedAreFresh(s: Store, calls: seq<Call>, k: nat)
    requires Consistent(s)
    requires k in s.notes || k < s.nextId
    ensures k !in Issued(s, calls)
  {
    IssuedAreConsecutive(s, calls);
  }

  /** A key below the counter that is absent stays absent: add never inserts it again. */
  lemma {:induction false} AbsentStaysAbsent(s: Store, calls: seq<Call>, k: nat)
    requires Consistent(s)
    requires k < s.nextId && k !in s.notes
    ensures k !in Run(s, calls).notes
    decreases |calls|
  {
    if calls != [] {
      AbsentStaysAbsent(Step(s, calls[0]), calls[1..], k);
    }
  }

  /** Once the owner has deleted a note, its id is never issued or stored again. */
  lemma DeletedNeverReissued(s: Store, caller: Principal, id: nat, calls: seq<Call>)
    requires Consistent(s)
    requires DeleteStep(s, caller, id).1.Some?
    ensures id !in Issued(DeleteStep(s, caller, id).0, calls)
    ensures id !in Run(DeleteStep(s, caller, id).0, calls).notes
  {
    var s' := DeleteStep(s, caller, id).0;
    IssuedAreFresh(s', calls, id);
    AbsentStaysAbsent(s', calls, id);
  }

  /** One call never changes the id, owner or creation time of a note that survives it. */
  lemma StepKeepsIdentity(s: Store, c: Call, k: nat)
    requires Consistent(s)
    requires k in s.notes && k in Step(s, c).notes
    ensures Step(s, c).notes[k].id == s.notes[k].id
    ensures Step(s, c).notes[k].owner == s.notes[k].owner
    ensures Step(s, c).notes[k].createdAt == s.notes[k].createdAt
  {
  }

  /** A note present before and after any calls has kept its id, owner and creation time. */
  lemma {:induction false} IdentityIsStable(s: Store, calls: seq<Call>, k: nat)
    requires Consistent(s)
    requires k in s.notes && k in Run(s, calls).notes
    ensures Run(s, calls).notes[k].id == s.notes[k].id
    ensures Run(s, calls).notes[k].owner == s.notes[k].owner
    ensures Run(s, calls).notes[k].createdAt == s.notes[k].createdAt
    decreases |calls|
  {
    if calls != [] {
      var s1 := Step(s, calls[0]);
      if k in s1.notes {
        StepKeepsIdentity(s, calls[0], k);
        IdentityIsStable(s1, calls[1..], k);
      } else {
        assert k < s1.nextId;
        AbsentStaysAbsent(s1, calls[1..], k);
        assert false;
      }
    }
  }

  /** Every clock reading among `calls` is at least `t` and at least the one before it. */
  predicate ClockFrom(t: nat, calls: seq<Call>)
    decreases |calls|
  {
    calls == [] ||
    match calls[0]
    case Delete(_, _) => ClockFrom(t, calls[1..])
    case Upgrade => ClockFrom(t, calls[1..])
    case Add(_, now, _, _) => t <= now && ClockFrom(now, calls[1..])
    case Update(_, now, _, _, _) => t <= now && ClockFrom(now, calls[1..])
  }

  /** The last clock reading among `calls`, or `t` when none reads the clock. */
  function LastReading(t: nat, calls: seq<Call>): nat
    decreases |calls|
  {
    if calls == [] then t
    else
      match calls[0]
      case Delete(_, _) => LastReading(t, calls[1..])
      case Upgrade => LastReading(t, calls[1..])
      case Add(_, now, _, _) => LastReading(now, calls[1..])
      case Update(_, now, _, _, _) => LastReading(now, calls[1..])
  }

  /** Every note was created no later than it was last updated, and both lie at or before `t`. */
  predicate StampsOrdered(s: Store, t: nat)
  {
    forall k :: k in s.notes ==> s.notes[k].createdAt <= s.notes[k].updatedAt <= t
  }

  /** With a clock that never goes back, the time stamps of every stored note stay ordered. */
  lemma {:induction false} RunKeepsStampsOrdered(s: Store, t: nat, calls: seq<Call>)
    requires StampsOrdered(s, t)
    requires ClockFrom(t, calls)
    ensures StampsOrdered(Run(s, calls), LastReading(t, calls))
    decreases |calls|
  {
    if calls != [] {
      var s1 := Step(s, calls[0]);
      match calls[0]
      case Delete(_, _) =>
        RunKeepsStampsOrdered(s1, t, calls[1..]);
      case Upgrade =>
        RunKeepsStampsOrdered(s1, t, calls[1..]);
      case Add(_, now, _, _) =>
        RunKeepsStampsOrdered(s1, now, calls[1..]);
      case Update(_, now, _, _, _) =>
        RunKeepsStampsOrdered(s1, now, calls[1..]);
    }
  }

  /** Under a clock that never goes back, the last reading is no earlier than the first bound. */
  lemma {:induction false} LastReadingFrom(t: nat, calls: seq<Call>)
    requires ClockFrom(t, calls)
    ensures t <= LastReading(t, calls)
    decreases |calls|
  {
    if calls != [] {
      var t1 := if calls[0].Add? || calls[0].Update? then calls[0].now else t;
      LastReadingFrom(t1, calls[1..]);
    }
  }

  /**
   A bound `u` on the clock that the note at `k` already meets, if it is stored, is met
   by whatever note is stored at `k` after the calls: every add or update writing `k`
   stamps it with a reading no earlier than `u`.
   */
  lemma {:induction false} UpdatedStaysAtLeast(s: Store, t: nat, calls: seq<Call>, k: nat, u: nat)
    requires u <= t && ClockFrom(t, calls)
    requires k in s.notes ==> u <= s.notes[k].updatedAt
    requires k in Run(s, calls).notes
    ensures u <= Run(s, calls).notes[k].updatedAt
    decreases |calls|
  {
    if calls != [] {
      var s1 := Step(s, calls[0]);
      var t1 := if calls[0].Add? || calls[0].Update? then calls[0].now else t;
      assert u <= t1 && ClockFrom(t1, calls[1..]);
      assert k in s1.notes ==> u <= s1.notes[k].updatedAt;
      UpdatedStaysAtLeast(s1, t1, calls[1..], k, u);
    }
  }

  /**
   With a clock that never goes back, a note's updated_at never decreases: the note
   stored at `k` after the calls was last written no earlier than the one stored before.
   No store invariant is needed, so this holds even where an add overwrites a key.
   */
  lemma UpdatedNeverDecreases(s: Store, t: nat, calls: seq<Call>, k: nat)
    requires StampsOrdered(s, t) && ClockFrom(t, calls)
    requires k in s.notes && k in Run(s, calls).notes
    ensures s.notes[k].updatedAt <= Run(s, calls).notes[k].updatedAt
  {
    UpdatedStaysAtLeast(s, t, calls, k, s.notes[k].updatedAt);
  }

  /**
   Across an upgrade as the code stands, which restarts the counter, the time stamps
   keep their order: every stored note has created_at <= updated_at, and the note at
   a key was last written no earlier than the note stored there before.
   */
  lemma StampsAcrossUpgradeResettingCounter(s: Store, t: nat, before: seq<Call>, after: seq<Call>, k: nat)
    requires StampsOrdered(s, t) && ClockFrom(t, before) && ClockFrom(LastReading(t, before), after)
    requires k in Run(UpgradeResettingCounter(Run(s, before)), after).notes
    ensures var r := Run(UpgradeResettingCounter(Run(s, before)), after);
      r.notes[k].createdAt <= r.notes[k].updatedAt
    ensures k in s.notes ==>
      s.notes[k].updatedAt <= Run(UpgradeResettingCounter(Run(s, before)), after).notes[k].updatedAt
  {
    var m := Run(s, before);
    var t' := LastReading(t, before);
    var m' := UpgradeResettingCounter(m);
    RunKeepsStampsOrdered(s, t, before);
    assert StampsOrdered(m', t');
    RunKeepsStampsOrdered(m', t', after);
    if k in s.notes {
      var u := s.notes[k].updatedAt;
      LastReadingFrom(t, before);
      if k in m.notes {
        UpdatedStaysAtLeast(s, t, before, k, u);
      }
      UpdatedStaysAtLeast(m', t', after, k, u);
    }
  }

  /** From the empty store, under a non-decreasing clock, created_at <= updated_at always holds. */
  lemma CreatedNoLaterThanUpdated(calls: seq<Call>, k: nat)
    requires ClockFrom(0, calls)
    requires k in Run(Empty(), calls).notes
    ensures Run(Empty(), calls).notes[k].createdAt <= Run(Empty(), calls).notes[k].updatedAt
  {
    RunKeepsStampsOrdered(Empty(), 0, calls);
  }
}
