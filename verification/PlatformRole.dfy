/**
 The platform role has one record, the tuples `system:platform#superadmin @ user:<id>`. Requests to grant and revoke
 it run as database transactions that interleave freely; an advisory lock is all that orders them. Here every
 interleaving, with the bootstrap run, the grants route and the other services writing beside them, keeps a
 superadmin once there is one.
 */
module PlatformRole {
  import opened Options
  import opened AuthzTuple
  import opened AuthzEngine
  import opened Fragments
  import opened Grants

  function SuperadminTuple(subject: string): Tuple {
    Tuple("system", "platform", "superadmin", "user", subject, "")
  }

  predicate IsSuperadmin(t: Tuple) {
    t == SuperadminTuple(t.subjectId)
  }

  function Superadmins(tuples: set<Tuple>): set<Tuple> {
    set t | t in tuples && IsSuperadmin(t)
  }

  /** Where a transaction stands. Its write stays private until it commits. */
  datatype Pc = Begun | Locked | HeldChecked | Counted | Wrote

  datatype Tx = Tx(op: Operation, subject: string, pc: Pc)

  datatype State = State(tuples: set<Tuple>, lock: Option<nat>, txs: map<nat, Tx>, seeding: set<string>)

  datatype Event =
    | Begin(id: nat, op: Operation, subject: string)
    | Lock(id: nat)
    | CheckHeld(id: nat)
    | Count(id: nat)
    | Write(id: nat)
    | Commit(id: nat)
    | Rollback(id: nat)
    | BootstrapCount(subject: string)         // a bootstrap run counts, without the lock
    | BootstrapSeed(subject: string)          // and later commits its grant
    | GrantsRequest(changes: seq<Change>, known: map<string, bool>, served: Served)
    | OtherService(after: set<Tuple>)         // any writes that leave the platform object alone

  /** The advisory lock is released with its transaction. */
  function Finish(s: State, id: nat): State {
    s.(txs := s.txs - {id}, lock := if s.lock == Some(id) then None else s.lock)
  }

  predicate At(s: State, id: nat, pc: Pc) {
    id in s.txs && s.txs[id].pc == pc
  }

  function To(s: State, id: nat, pc: Pc): State
    requires id in s.txs
  {
    s.(txs := s.txs[id := s.txs[id].(pc := pc)])
  }

  /** The event can happen in s and leads to s'. */
  ghost predicate Step(base: Model, rows: Rows, s: State, e: Event, s': State) {
    match e
    case Begin(id, op, subject) => id !in s.txs && s' == s.(txs := s.txs[id := Tx(op, subject, Begun)])
    case Lock(id) => At(s, id, Begun) && s.lock.None? && s' == To(s, id, Locked).(lock := Some(id))
    case CheckHeld(id) =>
      At(s, id, Locked) && s.txs[id].op == Revoke &&
      s' == if SuperadminTuple(s.txs[id].subject) in s.tuples then To(s, id, HeldChecked) else Finish(s, id)
    case Count(id) =>
      At(s, id, HeldChecked) && s' == if |Superadmins(s.tuples)| <= 1 then Finish(s, id) else To(s, id, Counted)
    case Write(id) =>
      id in s.txs && s.txs[id].pc == (if s.txs[id].op == Grant then Locked else Counted) && s' == To(s, id, Wrote)
    case Commit(id) =>
      var row := if id in s.txs then {SuperadminTuple(s.txs[id].subject)} else {};
      At(s, id, Wrote) &&
        s' == Finish(s.(tuples := if s.txs[id].op == Grant then s.tuples + row else s.tuples - row), id)
    case Rollback(id) => id in s.txs && s' == Finish(s, id)
    case BootstrapCount(subject) =>
      s' == if |Superadmins(s.tuples)| > 0 then s else s.(seeding := s.seeding + {subject})
    case BootstrapSeed(subject) => subject in s.seeding && s' == s.(tuples := s.tuples + {SuperadminTuple(subject)})
    case GrantsRequest(changes, known, served) =>
      && IsEffective(base, Fragments.Run(base, rows, changes), known, served.loaded)
      && Effect(s.tuples, served.loaded, served.caller, served.req, served.after)
      && s' == s.(tuples := served.after)
    case OtherService(after) => Grants.SameOn(s.tuples, after, "system", "platform") && s' == s.(tuples := after)
  }

  /** Only the lock holder is past Begun; a revoke that saw its subject still sees it, and one that counted two or
      more superadmins still has two or more. */
  ghost predicate Inv(s: State) {
    && (forall id {:trigger s.txs[id]} :: id in s.txs && s.txs[id].pc != Begun ==> s.lock == Some(id))
    && (forall id {:trigger s.txs[id]} :: id in s.txs && s.txs[id].op == Revoke ==>
          && (s.txs[id].pc in {HeldChecked, Counted, Wrote} ==> SuperadminTuple(s.txs[id].subject) in s.tuples)
          && (s.txs[id].pc in {Counted, Wrote} ==> |Superadmins(s.tuples)| >= 2))
  }

  lemma MoreSuperadmins(tuples: set<Tuple>, after: set<Tuple>)
    requires Superadmins(tuples) <= Superadmins(after)
    ensures |Superadmins(tuples)| <= |Superadmins(after)|
  {
    assert Superadmins(after) == Superadmins(tuples) + (Superadmins(after) - Superadmins(tuples));
  }

  /** Whoever is not the committing revoker leaves the superadmins there are. */
  lemma Grows(s: State, s': State)
    requires Inv(s) && s' == s.(tuples := s'.tuples) && Superadmins(s.tuples) <= Superadmins(s'.tuples)
    ensures Inv(s')
  {
    MoreSuperadmins(s.tuples, s'.tuples);
    forall id | id in s.txs && SuperadminTuple(s.txs[id].subject) in s.tuples
      ensures SuperadminTuple(s.txs[id].subject) in s'.tuples
    {
      assert SuperadminTuple(s.txs[id].subject) in Superadmins(s.tuples);
    }
  }

  lemma GrantsRouteKeeps(base: Model, rows: Rows, s: State, e: Event, s': State)
    requires e.GrantsRequest? && Step(base, rows, s, e, s') && Good(base, rows) && "system" in base
    ensures Superadmins(s'.tuples) == Superadmins(s.tuples)
  {
    BaseTypesUnowned(base, rows, e.changes, e.known, e.served.loaded, "system");
    UnownedTypesUntouched(s.tuples, e.served, "system", "platform");
    assert forall t :: IsSuperadmin(t) ==> OnObject(t, "system", "platform");
  }

  /** The transaction that commits holds the lock, so all others are still at their beginning. */
  lemma CommitKeeps(base: Model, rows: Rows, s: State, e: Event, s': State)
    requires Inv(s) && e.Commit? && Step(base, rows, s, e, s')
    ensures Inv(s') && (Superadmins(s.tuples) != {} ==> Superadmins(s'.tuples) != {})
  {
    var row := SuperadminTuple(s.txs[e.id].subject);
    assert forall id :: id in s'.txs ==> s'.txs[id].pc == Begun;
    if s.txs[e.id].op == Revoke {
      assert Superadmins(s'.tuples) == Superadmins(s.tuples) - {row};
      assert row in Superadmins(s.tuples);
    } else {
      assert Superadmins(s.tuples) <= Superadmins(s'.tuples);
    }
  }

  /** The transaction steps that change no committed tuple. */
  lemma PrivateStepKeeps(base: Model, rows: Rows, s: State, e: Event, s': State)
    requires Inv(s) && Step(base, rows, s, e, s')
    requires e.Begin? || e.Lock? || e.CheckHeld? || e.Count? || e.Write? || e.Rollback? || e.BootstrapCount?
    ensures Inv(s') && s'.tuples == s.tuples
  {
  }

  lemma StepKeeps(base: Model, rows: Rows, s: State, e: Event, s': State)
    requires Inv(s) && Step(base, rows, s, e, s') && Good(base, rows) && "system" in base
    ensures Inv(s') && (Superadmins(s.tuples) != {} ==> Superadmins(s'.tuples) != {})
  {
    if e.Commit? {
      CommitKeeps(base, rows, s, e, s');
    } else if e.BootstrapSeed? {
      Grows(s, s');
    } else if e.GrantsRequest? {
      GrantsRouteKeeps(base, rows, s, e, s');
      Grows(s, s');
    } else if e.OtherService? {
      assert forall t :: IsSuperadmin(t) ==> OnObject(t, "system", "platform");
      Grows(s, s');
    } else {
      PrivateStepKeeps(base, rows, s, e, s');
    }
  }

  /** states[0], events[0], states[1], ... is a run. */
  ghost predicate IsRun(base: Model, rows: Rows, states: seq<State>, events: seq<Event>) {
    && |states| == |events| + 1
    && forall i :: 0 <= i < |events| ==> Step(base, rows, states[i], events[i], states[i + 1])
  }

  /** Under every interleaving: once there is a superadmin there always is one. */
  lemma {:induction false} AlwaysASuperadmin(base: Model, rows: Rows, states: seq<State>, events: seq<Event>,
      i: nat, j: nat)
    requires IsRun(base, rows, states, events) && Inv(states[0]) && Good(base, rows) && "system" in base
    requires i <= j < |states| && Superadmins(states[i].tuples) != {}
    ensures Superadmins(states[j].tuples) != {}
  {
    hide Step, Inv, Good;
    if i < j {
      AlwaysASuperadmin(base, rows, states, events, i, j - 1);
      RunKeepsInv(base, rows, states, events, j - 1);
      StepKeeps(base, rows, states[j - 1], events[j - 1], states[j]);
    }
  }

  lemma {:induction false} RunKeepsInv(base: Model, rows: Rows, states: seq<State>, events: seq<Event>, j: nat)
    requires IsRun(base, rows, states, events) && Inv(states[0]) && Good(base, rows) && "system" in base && j < |states|
    ensures Inv(states[j])
  {
    if j > 0 {
      RunKeepsInv(base, rows, states, events, j - 1);
      StepKeeps(base, rows, states[j - 1], events[j - 1], states[j]);
    }
  }

  /** A revoke is turned away at the count exactly when its subject is the only superadmin there is. */
  lemma RefusedIffLast(base: Model, rows: Rows, s: State, id: nat, s': State)
    requires Inv(s) && At(s, id, HeldChecked) && s.txs[id].op == Revoke && Step(base, rows, s, Count(id), s')
    ensures id !in s'.txs <==> Superadmins(s.tuples) == {SuperadminTuple(s.txs[id].subject)}
  {
    var row := SuperadminTuple(s.txs[id].subject);
    assert row in Superadmins(s.tuples);
    assert Superadmins(s.tuples) == {row} + (Superadmins(s.tuples) - {row});
  }

  // ---- what the events do ---------------------------------------------------------------------------------

  ghost predicate Is(tuples: set<Tuple>, subject: string) {
    Tuple("system", "platform", "superadmin", "user", subject, "") in tuples
  }

  /** The subject a grant or a seed appoints. */
  ghost predicate Appoints(s: State, e: Event, subject: string) {
    || (e.BootstrapSeed? && e.subject == subject)
    || (e.Commit? && e.id in s.txs && s.txs[e.id].op == Grant && s.txs[e.id].subject == subject)
  }

  ghost predicate Dismisses(s: State, e: Event, subject: string) {
    e.Commit? && e.id in s.txs && s.txs[e.id].op == Revoke && s.txs[e.id].subject == subject
  }

  /** A step changes exactly the superadmin its transaction is about: a grant or a seed makes its subject one, a revoke
      unmakes its subject, and no other event makes or unmakes anybody. */
  lemma StepAppoints(base: Model, rows: Rows, s: State, e: Event, s': State, subject: string)
    requires Step(base, rows, s, e, s') && Good(base, rows) && "system" in base
    ensures Is(s'.tuples, subject) <==> Appoints(s, e, subject) || (Is(s.tuples, subject) && !Dismisses(s, e, subject))
  {
    var row := SuperadminTuple(subject);
    assert IsSuperadmin(row);
    assert row in Superadmins(s.tuples) <==> row in s.tuples;
    assert row in Superadmins(s'.tuples) <==> row in s'.tuples;
    if e.GrantsRequest? { GrantsRouteKeeps(base, rows, s, e, s'); }
    assert OnObject(row, "system", "platform");
  }

  /** A bootstrap run comes to seed a subject only if it found no superadmin. */
  lemma SeedsOnlyTheFirst(base: Model, rows: Rows, s: State, e: Event, s': State, subject: string)
    requires Step(base, rows, s, e, s') && subject in s'.seeding && subject !in s.seeding
    ensures e == BootstrapCount(subject) && forall x :: !Is(s.tuples, x)
  {
    assert Superadmins(s.tuples) == {};
    forall x
      ensures !Is(s.tuples, x)
    {
      assert SuperadminTuple(x) !in Superadmins(s.tuples);
    }
  }

  /** Undisturbed, a grant that finds the lock free runs to its end, and its subject then is a superadmin. */
  lemma GrantRuns(base: Model, rows: Rows, s: State, id: nat, subject: string) returns (s1: State, s2: State, s3: State)
    requires id !in s.txs && s.lock.None?
    ensures Step(base, rows, s, Begin(id, Grant, subject), s1) && Step(base, rows, s1, Lock(id), s2)
    ensures Step(base, rows, s2, Write(id), s3)
    ensures Step(base, rows, s3, Commit(id), s.(tuples := s.tuples + {SuperadminTuple(subject)}))
  {
    s1 := s.(txs := s.txs[id := Tx(Grant, subject, Begun)]);
    s2 := To(s1, id, Locked).(lock := Some(id));
    s3 := To(s2, id, Wrote);
    assert s3.txs - {id} == s.txs;
  }

  /** So does a revoke of one of two superadmins or more, and its subject then is none. */
  lemma RevokeRuns(base: Model, rows: Rows, s: State, id: nat, subject: string, other: string)
    returns (s1: State, s2: State, s3: State, s4: State, s5: State)
    requires id !in s.txs && s.lock.None? && Is(s.tuples, subject) && Is(s.tuples, other) && subject != other
    ensures Step(base, rows, s, Begin(id, Revoke, subject), s1) && Step(base, rows, s1, Lock(id), s2)
    ensures Step(base, rows, s2, CheckHeld(id), s3) && Step(base, rows, s3, Count(id), s4)
    ensures Step(base, rows, s4, Write(id), s5)
    ensures Step(base, rows, s5, Commit(id), s.(tuples := s.tuples - {SuperadminTuple(subject)}))
  {
    TwoAreTwo(s.tuples, subject, other);
    s1 := s.(txs := s.txs[id := Tx(Revoke, subject, Begun)]);
    s2 := To(s1, id, Locked).(lock := Some(id));
    s3 := To(s2, id, HeldChecked);
    s4 := To(s3, id, Counted);
    s5 := To(s4, id, Wrote);
    assert s5.txs - {id} == s.txs;
  }

  lemma TwoAreTwo(tuples: set<Tuple>, subject: string, other: string)
    requires Is(tuples, subject) && Is(tuples, other) && subject != other
    ensures |Superadmins(tuples)| >= 2
  {
    var row, more := SuperadminTuple(subject), SuperadminTuple(other);
    assert row in Superadmins(tuples) && more in Superadmins(tuples) && row != more;
    assert Superadmins(tuples) == {row, more} + (Superadmins(tuples) - {row, more});
  }
}
