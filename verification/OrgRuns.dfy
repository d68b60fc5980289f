/**
 Whole runs of the org store: rows and tuples agree at the end of every run, and a relation check over the tuples
 answers what the rows say.
 */
module OrgRuns {
  import opened AuthzTuple
  import opened AuthzEngine
  import opened OrgTree
  import opened Org
  import opened OrgPlacement
  import opened OrgAssignments
  import opened OrgTuples
  import opened OrgGroups

  /** What every run keeps, whatever its operations. */
  ghost predicate Inv(s: State) {
    TreeInv(s) && WindowInv(s) && OpenIsTupled(s) && MemberInv(s) && GroupInv(s) && AnchorInv(s)
  }

  /** A store with no rows and none of its own tuples. */
  ghost predicate Empty(s: State) {
    && s.units == map[] && s.users == map[] && s.members == map[] && s.positions == map[]
    && s.assignments == map[] && s.groups == map[] && s.groupMembers == {}
    && forall t :: t in s.tuples ==> !OrgOwned(t)
  }

  lemma EmptyIsGood(s: State)
    requires Empty(s)
    ensures Inv(s) && HoldersExact(s) && LinksExact(s) && AnchorsExact(s)
  {
    assert forall p, m :: OrgOwned(HolderTuple(p, m)) && OrgOwned(GroupMemberTuple(p, m));
    assert forall t: Tuple ::
      On(t, "position", "holder") || On(t, "position", "company") || On(t, "company", "member") ==> OrgOwned(t);
    assert forall t: Tuple ::
      On(t, "group", "member") || On(t, "group", "company") || On(t, "member", "mapped_user") ==> OrgOwned(t);
  }

  lemma StepKeepsInv(s: State, op: Op)
    requires Inv(s)
    ensures Inv(Next(s, op))
  {
    StepKeepsTree(s, op);
    StepKeepsWindows(s, op);
    StepKeepsHolders(s, op);
    StepKeepsMembers(s, op);
    StepKeepsGroups(s, op);
    StepKeepsAnchors(s, op);
  }

  lemma {:induction false} RunKeepsInv(s: State, ops: seq<Op>)
    requires Inv(s)
    ensures Inv(Run(s, ops))
    decreases |ops|
  {
    if ops != [] {
      StepKeepsInv(s, ops[0]);
      RunKeepsInv(Next(s, ops[0]), ops[1..]);
    }
  }

  /** No step of the run is a `bad` one in the state it is taken in. */
  ghost predicate Never(s: State, ops: seq<Op>, bad: (State, Op) -> bool)
    decreases |ops|
  {
    ops != [] ==> !bad(s, ops[0]) && Never(Next(s, ops[0]), ops[1..], bad)
  }

  /** In a run whose first windows never end after their creation day, the holder tuples are the open windows. */
  lemma {:induction false} RunKeepsHolders(s: State, ops: seq<Op>)
    requires Inv(s) && HoldersExact(s) && Never(s, ops, FutureEnd)
    ensures HoldersExact(Run(s, ops))
    decreases |ops|
  {
    if ops != [] {
      StepKeepsInv(s, ops[0]);
      StepKeepsHolders(s, ops[0]);
      RunKeepsHolders(Next(s, ops[0]), ops[1..]);
    }
  }

  /** In a run that never replaces a link by another, the mapped-user tuples are the current links. */
  lemma {:induction false} RunKeepsLinks(s: State, ops: seq<Op>)
    requires Inv(s) && LinksExact(s) && Never(s, ops, Relinks)
    ensures LinksExact(Run(s, ops))
    decreases |ops|
  {
    if ops != [] {
      StepKeepsInv(s, ops[0]);
      StepKeepsMembers(s, ops[0]);
      RunKeepsLinks(Next(s, ops[0]), ops[1..]);
    }
  }

  /** The rows and the membership of a group another system owns never change. */
  lemma {:induction false} RunKeepsExternal(s: State, ops: seq<Op>, group: Id)
    requires group in s.groups && s.groups[group].source != KIBAN
    ensures group in Run(s, ops).groups && Run(s, ops).groups[group] == s.groups[group]
    ensures forall m :: (group, m) in Run(s, ops).groupMembers <==> (group, m) in s.groupMembers
    decreases |ops|
  {
    if ops != [] {
      StepKeepsExternal(s, ops[0], group);
      RunKeepsExternal(Next(s, ops[0]), ops[1..], group);
    }
  }

  /** A position that is gone left no holder tuple and no anchor behind. */
  lemma NothingLeftBehind(s: State, ops: seq<Op>, position: Id)
    requires Inv(s) && HoldersExact(s) && Never(s, ops, FutureEnd)
    requires position !in Run(s, ops).positions
    ensures forall t :: t in Run(s, ops).tuples && t.objectType == "position" && t.objectId == position ==> !OrgOwned(t)
  {
    RunKeepsInv(s, ops);
    RunKeepsHolders(s, ops);
    var end := Run(s, ops);
    assert forall m :: !HasOpen(end.assignments, position, m);
    assert forall t: Tuple :: t.objectType == "position" && OrgOwned(t) ==>
      On(t, "position", "holder") || On(t, "position", "company");
  }

  // ---- what a check over the tuples answers -------------------------------------------------------------

  /** The base model's direct relations the org service writes. */
  ghost predicate HasOrgRelations(model: Model) {
    && Direct(model, "company", "member") && Direct(model, "member", "mapped_user")
    && Direct(model, "position", "holder") && Direct(model, "group", "member")
  }

  function UserCheck(model: Model, s: State, kcSub: string, company: string): Env {
    Env(model, s.tuples, "user", kcSub, company)
  }

  /** The member's user, read through the tuples, is exactly the linked one. */
  lemma MappedUser(model: Model, s: State, member: Id, kcSub: string, company: string)
    requires HasOrgRelations(model) && MemberInv(s)
    ensures
      var env := UserCheck(model, s, kcSub, company);
      && (LinkedTo(s, member, kcSub) ==> Derivable(env, Node("member", member, "mapped_user")))
      && (LinksExact(s) && Derivable(env, Node("member", member, "mapped_user")) ==> LinkedTo(s, member, kcSub))
  {
    var env := UserCheck(model, s, kcSub, company);
    var x := Node("member", member, "mapped_user");
    DirectHolds(env, x);
    if LinkedTo(s, member, kcSub) {
      var t := MappedUserTuple(member, kcSub);
      assert t in env.tuples && RowOn(t, x, x.rel) && NamesSubject(env, t);
    }
    if LinksExact(s) && Derivable(env, x) {
      var t :| t in env.tuples && RowOn(t, x, x.rel) &&
        (NamesSubject(env, t) || (Expands(env, t) && Derivable(env, SubjectNode(t))));
      assert On(t, "member", "mapped_user");
    }
  }

  lemma LinkedMemberPasses(model: Model, s: State, x: Node, m: Id, kcSub: string)
    requires HasOrgRelations(model) && MemberInv(s) && Direct(model, x.objType, x.rel)
    requires Tuple(x.objType, x.objId, x.rel, "member", m, "mapped_user") in s.tuples && LinkedTo(s, m, kcSub)
    ensures Derivable(UserCheck(model, s, kcSub, ""), x)
  {
    hide MemberInv, Derivable;
    var env := UserCheck(model, s, kcSub, "");
    var t := Tuple(x.objType, x.objId, x.rel, "member", m, "mapped_user");
    DirectHolds(env, x);
    MappedUser(model, s, m, kcSub, "");
    assert RowOn(t, x, x.rel) && Expands(env, t) && Derivable(env, SubjectNode(t));
  }

  /** A userset relation whose rows all name members resolves to the users linked to those members. */
  lemma MembersOf(model: Model, s: State, x: Node, kcSub: string)
    requires HasOrgRelations(model) && MemberInv(s) && Direct(model, x.objType, x.rel)
    requires forall t :: t in s.tuples && RowOn(t, x, x.rel) ==>
      t.subjectType == "member" && t.subjectRelation == "mapped_user"
    ensures
      var env := UserCheck(model, s, kcSub, "");
      && ((exists m ::
        Tuple(x.objType, x.objId, x.rel, "member", m, "mapped_user") in s.tuples && LinkedTo(s, m, kcSub)) ==>
          Derivable(env, x))
      && (LinksExact(s) && Derivable(env, x) ==>
            exists m :: Tuple(x.objType, x.objId, x.rel, "member", m, "mapped_user") in s.tuples &&
              LinkedTo(s, m, kcSub))
  {
    var env := UserCheck(model, s, kcSub, "");
    DirectHolds(env, x);
    if m :| Tuple(x.objType, x.objId, x.rel, "member", m, "mapped_user") in s.tuples && LinkedTo(s, m, kcSub) {
      LinkedMemberPasses(model, s, x, m, kcSub);
    }
    if LinksExact(s) && Derivable(env, x) {
      var t :| t in env.tuples && RowOn(t, x, x.rel) &&
        (NamesSubject(env, t) || (Expands(env, t) && Derivable(env, SubjectNode(t))));
      MappedUser(model, s, t.subjectId, kcSub, "");
      assert t == Tuple(x.objType, x.objId, x.rel, "member", t.subjectId, "mapped_user");
    }
  }

  /** The SQL membership read: the member of the company whose linked user has that kcSub. */
  predicate MemberRow(s: State, company: Id, kcSub: string, member: Id) {
    LinkedTo(s, member, kcSub) && s.members[member].company == company
  }

  /** The membership read has at most one row. */
  lemma OneMemberRow(s: State, company: Id, kcSub: string, m: Id, n: Id)
    requires MemberInv(s) && MemberRow(s, company, kcSub, m) && MemberRow(s, company, kcSub, n)
    ensures m == n
  {
    assert SharesUser(s.members[m], s.members[n]);
  }

  ghost predicate ActiveMemberRow(s: State, company: Id, kcSub: string) {
    exists m :: MemberRow(s, company, kcSub, m) && s.members[m].active
  }

  /** After every run, an active linked member passes the `company#member` check; after a run that never replaces
      a link, nobody else does. The check over tuples and the SQL read then agree. */
  lemma CompanyMembership(model: Model, s: State, ops: seq<Op>, company: Id, kcSub: string)
    requires HasOrgRelations(model) && Inv(s)
    ensures
      var end := Run(s, ops);
      var allowed := Derivable(UserCheck(model, end, kcSub, ""), Node("company", company, "member"));
      && (ActiveMemberRow(end, company, kcSub) ==> allowed)
      && (LinksExact(s) && Never(s, ops, Relinks) ==> (allowed <==> ActiveMemberRow(end, company, kcSub)))
  {
    RunKeepsInv(s, ops);
    if LinksExact(s) && Never(s, ops, Relinks) { RunKeepsLinks(s, ops); }
    var end := Run(s, ops);
    var x := Node("company", company, "member");
    forall t | t in end.tuples && RowOn(t, x, x.rel)
      ensures t.subjectType == "member" && t.subjectRelation == "mapped_user" && ActiveIn(end, t.subjectId, company)
    {
      assert On(t, "company", "member");
    }
    MembersOf(model, end, x, kcSub);
    if m :| MemberRow(end, company, kcSub, m) && end.members[m].active {
      assert ActiveIn(end, m, company) && CompanyMemberTuple(company, m) in end.tuples;
    }
    if m :| CompanyMemberTuple(company, m) in end.tuples && LinkedTo(end, m, kcSub) {
      assert RowOn(CompanyMemberTuple(company, m), x, x.rel);
      assert MemberRow(end, company, kcSub, m);
    }
  }

  /** The user holds the position through an open window of the member they are linked to. */
  ghost predicate OpenHolder(s: State, position: Id, kcSub: string) {
    exists m :: HasOpen(s.assignments, position, m) && LinkedTo(s, m, kcSub)
  }

  /** After every run whoever has an open window passes the `position#holder` check; with no first window ending
      after its creation day and no replaced link, nobody else does. */
  lemma PositionHolders(model: Model, s: State, ops: seq<Op>, position: Id, kcSub: string)
    requires HasOrgRelations(model) && Inv(s)
    ensures
      var end := Run(s, ops);
      var allowed := Derivable(UserCheck(model, end, kcSub, ""), Node("position", position, "holder"));
      && (OpenHolder(end, position, kcSub) ==> allowed)
      && (HoldersExact(s) && LinksExact(s) && Never(s, ops, FutureEnd) && Never(s, ops, Relinks)
        ==> (allowed <==> OpenHolder(end, position, kcSub)))
  {
    hide MemberInv, TreeInv, WindowInv, GroupInv, AnchorInv, Never, Derivable;
    RunKeepsInv(s, ops);
    var end := Run(s, ops);
    var x := Node("position", position, "holder");
    if m :| HasOpen(end.assignments, position, m) && LinkedTo(end, m, kcSub) {
      assert HolderTuple(position, m) in end.tuples;
      LinkedMemberPasses(model, end, x, m, kcSub);
    }
    if HoldersExact(s) && LinksExact(s) && Never(s, ops, FutureEnd) && Never(s, ops, Relinks) {
      RunKeepsHolders(s, ops);
      RunKeepsLinks(s, ops);
      OnlyHoldersPass(model, end, position, kcSub);
    }
  }

  lemma OnlyHoldersPass(model: Model, s: State, position: Id, kcSub: string)
    requires HasOrgRelations(model) && MemberInv(s) && HoldersExact(s) && LinksExact(s)
    ensures Derivable(UserCheck(model, s, kcSub, ""), Node("position", position, "holder"))
      ==> OpenHolder(s, position, kcSub)
  {
    hide MemberInv, Derivable, LinksExact;
    var x := Node("position", position, "holder");
    assert forall t :: t in s.tuples && RowOn(t, x, x.rel) ==> On(t, "position", "holder");
    MembersOf(model, s, x, kcSub);
    if m :| HolderTuple(position, m) in s.tuples && LinkedTo(s, m, kcSub) {
      assert On(HolderTuple(position, m), "position", "holder");
    }
  }

  // ---- checks bound to a company ------------------------------------------------------------------------

  /** The user holds the position through an open window of a member who is active in the company. */
  ghost predicate OpenHolderIn(s: State, position: Id, kcSub: string, company: Id) {
    exists m :: HasOpen(s.assignments, position, m) && LinkedTo(s, m, kcSub) && ActiveIn(s, m, company)
  }

  lemma BoundMemberPasses(model: Model, s: State, x: Node, m: Id, kcSub: string, company: Id)
    requires HasOrgRelations(model) && MemberInv(s) && Direct(model, x.objType, x.rel)
    requires Tuple(x.objType, x.objId, x.rel, "member", m, "mapped_user") in s.tuples
    requires LinkedTo(s, m, kcSub) && ActiveIn(s, m, company)
    ensures Derivable(UserCheck(model, s, kcSub, company), x)
  {
    hide Derivable;
    var env := UserCheck(model, s, kcSub, company);
    var t := Tuple(x.objType, x.objId, x.rel, "member", m, "mapped_user");
    DirectHolds(env, x);
    MappedUser(model, s, m, kcSub, company);
    assert CompanyMemberTuple(company, m) in s.tuples;
    assert RowOn(t, x, x.rel) && Expands(env, t) && Derivable(env, SubjectNode(t));
  }

  lemma BoundHolderIsActive(model: Model, s: State, position: Id, kcSub: string, company: Id)
    requires HasOrgRelations(model) && MemberInv(s) && HoldersExact(s) && LinksExact(s) && company != ""
    ensures Derivable(UserCheck(model, s, kcSub, company), Node("position", position, "holder"))
      ==> OpenHolderIn(s, position, kcSub, company)
  {
    hide Derivable;
    var env := UserCheck(model, s, kcSub, company);
    var x := Node("position", position, "holder");
    DirectHolds(env, x);
    if t :|
      && t in env.tuples && RowOn(t, x, x.rel)
      && (NamesSubject(env, t) || (Expands(env, t) && Derivable(env, SubjectNode(t)))) {
      assert On(t, "position", "holder");
      MappedUser(model, s, t.subjectId, kcSub, company);
      assert On(CompanyMemberTuple(company, t.subjectId), "company", "member");
    }
  }

  /** A check of `position#holder` bound to a company: after every run whoever has an open window through a member
      active in the company passes; with no first window ending after its creation day and no replaced link, nobody
      else does. */
  lemma BoundPositionHolders(model: Model, s: State, ops: seq<Op>, position: Id, kcSub: string, company: Id)
    requires HasOrgRelations(model) && Inv(s) && company != ""
    ensures
      var end := Run(s, ops);
      var allowed := Derivable(UserCheck(model, end, kcSub, company), Node("position", position, "holder"));
      && (OpenHolderIn(end, position, kcSub, company) ==> allowed)
      && (HoldersExact(s) && LinksExact(s) && Never(s, ops, FutureEnd) && Never(s, ops, Relinks)
        ==> (allowed <==> OpenHolderIn(end, position, kcSub, company)))
  {
    hide MemberInv, TreeInv, WindowInv, GroupInv, AnchorInv, Never, Derivable;
    RunKeepsInv(s, ops);
    var end := Run(s, ops);
    if m :| HasOpen(end.assignments, position, m) && LinkedTo(end, m, kcSub) && ActiveIn(end, m, company) {
      assert HolderTuple(position, m) in end.tuples;
      BoundMemberPasses(model, end, Node("position", position, "holder"), m, kcSub, company);
    }
    if HoldersExact(s) && LinksExact(s) && Never(s, ops, FutureEnd) && Never(s, ops, Relinks) {
      RunKeepsHolders(s, ops);
      RunKeepsLinks(s, ops);
      BoundHolderIsActive(model, end, position, kcSub, company);
    }
  }

  /** The user is a member of the group through the member they are linked to. */
  ghost predicate GroupMemberUser(s: State, group: Id, kcSub: string) {
    exists m :: (group, m) in s.groupMembers && LinkedTo(s, m, kcSub)
  }

  /** After every run whoever is linked to a member of the group passes the `group#member` check; with no replaced link,
      nobody else does. */
  lemma GroupMembership(model: Model, s: State, ops: seq<Op>, group: Id, kcSub: string)
    requires HasOrgRelations(model) && Inv(s)
    ensures
      var end := Run(s, ops);
      var allowed := Derivable(UserCheck(model, end, kcSub, ""), Node("group", group, "member"));
      && (GroupMemberUser(end, group, kcSub) ==> allowed)
      && (LinksExact(s) && Never(s, ops, Relinks) ==> (allowed <==> GroupMemberUser(end, group, kcSub)))
  {
    hide MemberInv, TreeInv, WindowInv, AnchorInv, OpenIsTupled, Never, Derivable;
    RunKeepsInv(s, ops);
    if LinksExact(s) && Never(s, ops, Relinks) { RunKeepsLinks(s, ops); }
    var end := Run(s, ops);
    var x := Node("group", group, "member");
    forall t | t in end.tuples && RowOn(t, x, x.rel)
      ensures t.subjectType == "member" && t.subjectRelation == "mapped_user"
    {
      assert On(t, "group", "member");
    }
    MembersOf(model, end, x, kcSub);
    if m :| (group, m) in end.groupMembers && LinkedTo(end, m, kcSub) {
      assert GroupMemberTuple(group, m) in end.tuples;
    }
    if m :| GroupMemberTuple(group, m) in end.tuples && LinkedTo(end, m, kcSub) {
      assert (group, m) in end.groupMembers;
    }
  }
}
