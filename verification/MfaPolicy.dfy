/** The multi-factor policy: one global row, one override per user at most, and the sync of both to the login server. */
module MfaPolicy {
  import opened Options

  type UserId = nat

  datatype Policy = Policy(required: bool, factor: string)

  /** A stored policy; the empty method is stored as no method. */
  datatype Row = Row(required: bool, factor: Option<string>)

  function Store(p: Policy): Row {
    Row(p.required, if p.factor == "" then None else Some(p.factor))
  }

  function Load(r: Row): Policy {
    Policy(r.required, if r.factor.None? then "" else r.factor.value)
  }

  /** The user accounts with their login server subject, the global row, and the overrides. */
  datatype State = State(users: map<UserId, string>, global: Row, overrides: map<UserId, Row>)

  datatype Refusal = Unenforceable | WeakerThanGlobal | UserNotFound

  predicate Enforceable(m: string) {
    m == "otp" || m == "passkey" || m == "otp_or_passkey"
  }

  function Rank(p: Policy): nat {
    if !p.required then 0
    else if p.factor == "otp" then 1
    else if p.factor == "otp_or_passkey" then 2
    else if p.factor == "passkey" then 3
    else 0
  }

  /** The override if there is one, else the global policy. */
  function Effective(s: State, u: UserId): Policy {
    Load(if u in s.overrides then s.overrides[u] else s.global)
  }

  // ---- the operations -----------------------------------------------------------------------------------------

  datatype Op =
    | NewUser(user: UserId, subject: string)
    | SetGlobal(policy: Policy)
    | SetUser(user: UserId, policy: Policy)
    | ClearUser(user: UserId)

  function Refused(s: State, op: Op): Option<Refusal> {
    match op
    case NewUser(_, _) => None
    case SetGlobal(p) => if p.required && !Enforceable(p.factor) then Some(Unenforceable) else None
    case SetUser(u, p) =>
      if p.required && !Enforceable(p.factor) then Some(Unenforceable)
      else if u !in s.users then Some(UserNotFound)
      else if Rank(p) < Rank(Load(s.global)) then Some(WeakerThanGlobal)
      else None
    case ClearUser(u) => if u !in s.users then Some(UserNotFound) else None
  }

  function Next(s: State, op: Op): State {
    if Refused(s, op).Some? then s
    else match op
      case NewUser(u, subject) => if u in s.users || subject in s.users.Values then s
        else s.(users := s.users[u := subject])
      case SetGlobal(p) => s.(global := Store(p))
      case SetUser(u, p) => s.(overrides := s.overrides[u := Store(p)])
      case ClearUser(u) => s.(overrides := s.overrides - {u})
  }

  function Run(s: State, ops: seq<Op>): State
    decreases |ops|
  {
    if ops == [] then s else Run(Next(s, ops[0]), ops[1..])
  }

  function Empty(): State {
    State(map[], Row(false, None), map[])
  }

  ghost predicate Sound(r: Row) {
    Load(r).required ==> Enforceable(Load(r).factor)
  }

  ghost predicate OneUserPerSubject(users: map<UserId, string>) {
    forall u, v :: u in users && v in users && users[u] == users[v] ==> u == v
  }

  /** A required policy has an enforceable method, overrides are users' overrides, and subjects are not shared. */
  ghost predicate Inv(s: State) {
    && Sound(s.global)
    && (forall u :: u in s.overrides ==> u in s.users && Sound(s.overrides[u]))
    && OneUserPerSubject(s.users)
  }

  lemma StepKeepsInv(s: State, op: Op)
    requires Inv(s)
    ensures Inv(Next(s, op))
  {
    var s' := Next(s, op);
    if op.NewUser? && s' != s {
      forall u, v | u in s'.users && v in s'.users && s'.users[u] == s'.users[v]
        ensures u == v
      {
        assert forall w :: w in s.users ==> s.users[w] in s.users.Values;
      }
    }
  }

  lemma {:induction false} RunKeepsInv(s: State, ops: seq<Op>)
    requires Inv(s)
    ensures Inv(Run(s, ops))
    decreases |ops|
  {
    if ops != [] {
      StepKeepsInv(s, ops[0]);
      RunKeepsInv(Next(s, ops[0]), ops[1..]);
    }
  }

  // ---- overrides only raise -----------------------------------------------------------------------------------

  /** No user is held to less than the global policy. */
  ghost predicate NoneBelow(s: State) {
    forall u :: Rank(Effective(s, u)) >= Rank(Load(s.global))
  }

  /** The operation puts the global policy above an override in place. */
  ghost predicate RaisesOverSome(s: State, op: Op) {
    op.SetGlobal? && Refused(s, op).None? && exists u ::
      u in s.overrides && Rank(Load(s.overrides[u])) < Rank(op.policy)
  }

  lemma StoreLoad(p: Policy)
    ensures Load(Store(p)) == p
  {
  }

  /** An operation leaves some user below the global policy exactly when it raises the policy over an override. */
  lemma StepKeepsRank(s: State, op: Op)
    requires NoneBelow(s)
    ensures NoneBelow(Next(s, op)) <==> !RaisesOverSome(s, op)
  {
    var s' := Next(s, op);
    if op.SetGlobal? || op.SetUser? { StoreLoad(op.policy); }
    if RaisesOverSome(s, op) {
      var u :| u in s.overrides && Rank(Load(s.overrides[u])) < Rank(op.policy);
      assert Rank(Effective(s', u)) < Rank(Load(s'.global));
    } else {
      forall u
        ensures Rank(Effective(s', u)) >= Rank(Load(s'.global))
      {
        assert Rank(Effective(s, u)) >= Rank(Load(s.global));
      }
    }
  }

  ghost predicate NeverRaisesOverSome(s: State, ops: seq<Op>)
    decreases |ops|
  {
    ops != [] ==> !RaisesOverSome(s, ops[0]) && NeverRaisesOverSome(Next(s, ops[0]), ops[1..])
  }

  lemma {:induction false} RunKeepsRank(s: State, ops: seq<Op>)
    requires NoneBelow(s) && NeverRaisesOverSome(s, ops)
    ensures NoneBelow(Run(s, ops))
    decreases |ops|
  {
    if ops != [] {
      StepKeepsRank(s, ops[0]);
      RunKeepsRank(Next(s, ops[0]), ops[1..]);
    }
  }

  /** From the seeded state: every required policy is enforceable, and nobody is below the global policy as long as it
      is never raised over an override. */
  lemma EveryRun(ops: seq<Op>)
    ensures Inv(Run(Empty(), ops))
    ensures NeverRaisesOverSome(Empty(), ops) ==> NoneBelow(Run(Empty(), ops))
  {
    RunKeepsInv(Empty(), ops);
    if NeverRaisesOverSome(Empty(), ops) { RunKeepsRank(Empty(), ops); }
  }

  /** Without that, an override can end below the global policy: it was written first, the policy raised later. */
  lemma RaisedLater()
    ensures
      var ops := [NewUser(0, "a"), SetUser(0, Policy(false, "")), SetGlobal(Policy(true, "passkey"))];
      !NoneBelow(Run(Empty(), ops))
  {
    var s0 := Empty();
    var s1 := Next(s0, NewUser(0, "a"));
    var s2 := Next(s1, SetUser(0, Policy(false, "")));
    var s3 := Next(s2, SetGlobal(Policy(true, "passkey")));
    var ops := [NewUser(0, "a"), SetUser(0, Policy(false, "")), SetGlobal(Policy(true, "passkey"))];
    assert ops[1..] == [SetUser(0, Policy(false, "")), SetGlobal(Policy(true, "passkey"))];
    assert ops[1..][1..] == [SetGlobal(Policy(true, "passkey"))];
    assert Run(s2, ops[1..][1..]) == s3;
    assert Run(s0, ops) == s3;
    assert Rank(Effective(s3, 0)) < Rank(Load(s3.global));
  }

  // ---- what the operations do ---------------------------------------------------------------------------------

  /** The override asks at least what the global policy does: otp, then either method, then passkey. */
  predicate AtLeast(p: Policy, global: Policy) {
    global.required ==>
      && p.required && (global.factor == "passkey" ==> p.factor == "passkey")
      && (global.factor == "otp_or_passkey" ==> p.factor != "otp")
  }

  predicate NamesMethod(p: Policy) {
    p.required ==> p.factor in {"otp", "passkey", "otp_or_passkey"}
  }

  /** A policy set is the one in force: for everyone without an override, or for the one user; clearing restores the
      global one. Each is refused for exactly the reasons there are, and touches nobody else. */
  lemma OperationDoes(s: State, op: Op, u: UserId)
    requires Inv(s)
    ensures
      var t := Next(s, op);
      && (op.SetGlobal? ==> (Refused(s, op).None? <==> NamesMethod(op.policy)))
      && (op.SetUser? ==> (Refused(s, op).None? <==>
            NamesMethod(op.policy) && op.user in s.users && AtLeast(op.policy, Load(s.global))))
      && (op.ClearUser? ==> (Refused(s, op).None? <==> op.user in s.users))
      && (op.SetGlobal? && Refused(s, op).None? ==> Load(t.global) == op.policy)
      && (!op.SetGlobal? || Refused(s, op).Some? ==> t.global == s.global)
      && Effective(t, u) ==
        if Refused(s, op).Some? || op.NewUser? then Effective(s, u)
        else if op.SetGlobal? then if u in s.overrides then Effective(s, u) else op.policy
        else if op.user != u then Effective(s, u)
        else if op.SetUser? then op.policy
        else Load(s.global)
  {
    if op.SetGlobal? || op.SetUser? { StoreLoad(op.policy); }
    if op.SetUser? && NamesMethod(op.policy) { RankIsOrder(op.policy, Load(s.global)); }
  }

  lemma RankIsOrder(p: Policy, global: Policy)
    requires NamesMethod(p) && (global.required ==> Enforceable(global.factor))
    ensures Rank(p) >= Rank(global) <==> AtLeast(p, global)
  {
  }

  // ---- the sync -----------------------------------------------------------------------------------------------

  function RequiredMode(p: Policy): Option<string> {
    if !p.required then Some("none")
    else if p.factor == "otp" then Some("otp_required")
    else if p.factor == "passkey" then Some("passkey_required")
    else if p.factor == "otp_or_passkey" then Some("otp_or_passkey_required")
    else None
  }

  function ModeOf(p: Policy): string {
    if p.required then p.factor + "_required" else "none"
  }

  /** The attribute names the method. */
  lemma ModeNamesFactor(p: Policy)
    requires p.required ==> Enforceable(p.factor)
    ensures RequiredMode(p) == Some(ModeOf(p))
  {
    assert "otp" + "_required" == "otp_required";
    assert "passkey" + "_required" == "passkey_required";
    assert "otp_or_passkey" + "_required" == "otp_or_passkey_required";
  }

  datatype Input = Input(user: UserId, subject: string, policy: Policy)

  datatype Outcome = Outcome(user: UserId, subject: string, required: bool, mode: string, success: bool)

  /** The accounts in the order the query lists them, each once. */
  ghost predicate IsListing(order: seq<UserId>, users: map<UserId, string>) {
    && (forall u :: u in users <==> u in order)
    && forall i, j :: 0 <= i < j < |order| ==> order[i] != order[j]
  }

  /** What one user's sync comes to; `down` are the subjects the login server refuses to write. */
  function Synced(input: Input, down: set<string>): Outcome {
    var mode := RequiredMode(input.policy);
    Outcome(input.user, input.subject, input.policy.required, if mode.Some? then mode.value else "", mode.Some? &&
      input.subject !in down)
  }

  function Inputs(s: State, order: seq<UserId>): seq<Input>
    requires forall u :: u in order ==> u in s.users
  {
    seq(|order|, i requires 0 <= i < |order| => Input(order[i], s.users[order[i]], Effective(s, order[i])))
  }

  /** The login server's attributes, by subject, after the writes for the inputs in turn. */
  function WriteAll(attributes: map<string, string>, inputs: seq<Input>, down: set<string>): map<string, string> {
    if inputs == [] then attributes
    else
      Write(WriteAll(attributes, inputs[..|inputs| - 1], down), Synced(inputs[|inputs| - 1], down))
  }

  function Write(attributes: map<string, string>, outcome: Outcome): map<string, string> {
    if outcome.success then attributes[outcome.subject := outcome.mode] else attributes
  }

  class PolicyStore {
    var users: map<UserId, string>
    var global: Row
    var overrides: map<UserId, Row>
    /** The login server's required-mode attribute, by subject. */
    var attributes: map<string, string>

    ghost function Abs(): State
      reads this
    {
      State(users, global, overrides)
    }

    method SetGlobalPolicy(required: bool, factor: string) returns (refused: Option<Refusal>)
      modifies this
      ensures refused == Refused(old(Abs()), SetGlobal(Policy(required, factor)))
      ensures Abs() == Next(old(Abs()), SetGlobal(Policy(required, factor))) && attributes == old(attributes)
    {
      if required && !Enforceable(factor) {
        return Some(Unenforceable);
      }
      global := Store(Policy(required, factor));
      return None;
    }

    method SetUserPolicy(u: UserId, required: bool, factor: string) returns (refused: Option<Refusal>)
      modifies this
      ensures refused == Refused(old(Abs()), SetUser(u, Policy(required, factor)))
      ensures Abs() == Next(old(Abs()), SetUser(u, Policy(required, factor))) && attributes == old(attributes)
    {
      if required && !Enforceable(factor) {
        return Some(Unenforceable);
      }
      if u !in users {
        return Some(UserNotFound);
      }
      if Rank(Policy(required, factor)) < Rank(Load(global)) {
        return Some(WeakerThanGlobal);
      }
      overrides := overrides[u := Store(Policy(required, factor))];
      return None;
    }

    method ClearUserPolicy(u: UserId) returns (refused: Option<Refusal>)
      modifies this
      ensures refused == Refused(old(Abs()), ClearUser(u))
      ensures Abs() == Next(old(Abs()), ClearUser(u)) && attributes == old(attributes)
    {
      if u !in users {
        return Some(UserNotFound);
      }
      overrides := overrides - {u};
      return None;
    }

    /** An unknown user has no policy, not the global one. */
    method EffectivePolicy(u: UserId) returns (p: Option<Policy>)
      requires Inv(Abs())
      ensures p == if u in users then Some(Effective(Abs(), u)) else None
    {
      if u in overrides {
        return Some(Load(overrides[u]));
      }
      if u !in users {
        return None;
      }
      return Some(Load(global));
    }

    /** Every user once, with the policy EffectivePolicy gives. */
    method ListEffectivePolicies(order: seq<UserId>) returns (out: seq<Input>)
      requires IsListing(order, users)
      ensures out == Inputs(Abs(), order)
    {
      out := [];
      for i := 0 to |order|
        invariant |out| == i
        invariant forall k :: 0 <= k < i ==> out[k] == Input(order[k], users[order[k]], Effective(Abs(), order[k]))
      {
        var u := order[i];
        var policy := Load(global);
        if u in overrides {
          policy := Load(overrides[u]);
        }
        out := out + [Input(u, users[u], policy)];
      }
    }

    method SyncUser(input: Input, down: set<string>) returns (outcome: Outcome)
      modifies this`attributes
      ensures outcome == Synced(input, down) && attributes == Write(old(attributes), outcome)
    {
      hide RequiredMode;
      var mode := RequiredMode(input.policy);
      if mode.None? {
        return Outcome(input.user, input.subject, input.policy.required, "", false);
      }
      var ok := input.subject !in down;
      if ok {
        attributes := attributes[input.subject := mode.value];
      }
      return Outcome(input.user, input.subject, input.policy.required, mode.value, ok);
    }

    /** One outcome per user, in order; a failure never ends the sync. */
    method SyncMfaPolicy(order: seq<UserId>, down: set<string>) returns (outcomes: seq<Outcome>)
      requires IsListing(order, users)
      modifies this`attributes
      ensures |outcomes| == |order|
      ensures forall i :: 0 <= i < |order| ==> outcomes[i] == Synced(Inputs(Abs(), order)[i], down)
      ensures attributes == WriteAll(old(attributes), Inputs(Abs(), order), down)
    {
      hide Synced, Write;
      var inputs := ListEffectivePolicies(order);
      outcomes := [];
      for i := 0 to |inputs|
        invariant |outcomes| == i && forall k :: 0 <= k < i ==> outcomes[k] == Synced(inputs[k], down)
        invariant attributes == WriteAll(old(attributes), inputs[..i], down)
      {
        assert inputs[..i + 1][..i] == inputs[..i];
        var outcome := SyncUser(inputs[i], down);
        outcomes := outcomes + [outcome];
      }
      assert inputs[..|inputs|] == inputs;
    }
  }

  ghost predicate DistinctSubjects(inputs: seq<Input>) {
    forall i, j :: 0 <= i < j < |inputs| ==> inputs[i].subject != inputs[j].subject
  }

  lemma {:induction false} WritesReach(attributes: map<string, string>, inputs: seq<Input>, down: set<string>, i: nat)
    requires DistinctSubjects(inputs) && i < |inputs| && Synced(inputs[i], down).success
    ensures
      var after := WriteAll(attributes, inputs, down);
      inputs[i].subject in after && after[inputs[i].subject] == Synced(inputs[i], down).mode
    decreases |inputs|
  {
    hide RequiredMode;
    if i < |inputs| - 1 {
      WritesReach(attributes, inputs[..|inputs| - 1], down, i);
    }
  }

  lemma {:induction false} WritesOnly(attributes: map<string, string>, inputs: seq<Input>, down: set<string>,
      subject: string)
    requires forall i :: 0 <= i < |inputs| && inputs[i].subject == subject ==> !Synced(inputs[i], down).success
    ensures
      var after := WriteAll(attributes, inputs, down);
      (subject in after <==> subject in attributes) && (subject in after ==> after[subject] == attributes[subject])
    decreases |inputs|
  {
    if inputs != [] {
      WritesOnly(attributes, inputs[..|inputs| - 1], down, subject);
    }
  }

  /** In every reachable state the mapping never fails: a user's outcome is a success exactly when the login server took
      the write, the attribute then names the user's effective policy, and an attribute it refused to write, or of
      nobody listed, is left alone. */
  lemma SyncIsTruthful(s: State, order: seq<UserId>, down: set<string>, attributes: map<string, string>, i: nat,
      other: string)
    requires Inv(s) && IsListing(order, s.users) && i < |order| && (other in down || other !in s.users.Values)
    ensures
      var after := WriteAll(attributes, Inputs(s, order), down);
      var subject := s.users[order[i]];
      && Synced(Inputs(s, order)[i], down) ==
        Outcome(order[i], subject, Effective(s, order[i]).required, ModeOf(Effective(s, order[i])), subject !in down)
      && (subject !in down ==> subject in after && after[subject] == ModeOf(Effective(s, order[i])))
      && (other in after <==> other in attributes) && (other in after ==> after[other] == attributes[other])
  {
    var inputs := Inputs(s, order);
    assert RequiredMode(Effective(s, order[i])).Some?;
    ModeNamesFactor(Effective(s, order[i]));
    assert DistinctSubjects(inputs);
    if s.users[order[i]] !in down { WritesReach(attributes, inputs, down, i); }
    assert forall u :: u in s.users ==> s.users[u] in s.users.Values;
    WritesOnly(attributes, inputs, down, other);
  }
}
