/**
 The org service keeps its rows and the authorization tuples in one transaction. Here: after every run the two
 agree, for position holders, company members, linked users, groups and company anchors.
 */
module OrgTuples {
  import opened AuthzTuple
  import opened OrgTree
  import opened Org
  import opened OrgAssignments

  predicate On(t: Tuple, objectType: string, relation: string) {
    t.objectType == objectType && t.relation == relation
  }

  ghost predicate SameOn(s: State, t: State, objectType: string, relation: string) {
    forall u :: On(u, objectType, relation) ==> (u in s.tuples <==> u in t.tuples)
  }

  /** The relations an operation may write. */
  predicate Writes(op: Op, u: Tuple) {
    match op
    case OpCreateMember(_, _, _) => On(u, "company", "member")
    case OpUpdateMember(_, _) => On(u, "company", "member")
    case OpLinkUser(_, _, _) => On(u, "member", "mapped_user")
    case OpUnlinkUser(_) => On(u, "member", "mapped_user")
    case OpCreatePosition(_, _, _) => On(u, "position", "company")
    case OpDeletePosition(_) => On(u, "position", "company")
    case OpAssignNow(_, _, _) => On(u, "position", "holder")
    case OpEndAssignment(_) => On(u, "position", "holder")
    case OpHandover(_, _, _, _) => On(u, "position", "holder")
    case OpCreateAndAssign(_, _, _, _, _, _, _) => On(u, "position", "holder")
    case OpCreateGroup(_, _) => On(u, "group", "company")
    case OpAddGroupMember(_, _) => On(u, "group", "member")
    case OpRemoveGroupMember(_, _) => On(u, "group", "member")
    case OtherServices(_) => !OrgOwned(u)
    case _ => false
  }

  lemma WindowOpFrame(s: State, op: Op, u: Tuple)
    requires TouchesWindows(op) && !Writes(op, u)
    ensures u in Next(s, op).tuples <==> u in s.tuples
  {
    hide Under, InBoundedSubtree, KeepsRoot, SubtreeHasPositions, Referencing, BoundToModule, LinkTaken, IsCompany;
    hide AssignRefusal, Held, Covers, UnitUnderCompany, HasOtherOpen;
  }

  lemma OtherOpFrame(s: State, op: Op, u: Tuple)
    requires !TouchesWindows(op) && !Writes(op, u)
    ensures u in Next(s, op).tuples <==> u in s.tuples
  {
    hide Under, InBoundedSubtree, KeepsRoot, SubtreeHasPositions, Referencing, BoundToModule, LinkTaken, IsCompany;
    hide AssignRefusal, Held, Covers, UnitUnderCompany, HasOtherOpen;
  }

  /** An operation writes only the relations that are its own. */
  lemma TupleFrame(s: State, op: Op, u: Tuple)
    requires !Writes(op, u)
    ensures u in Next(s, op).tuples <==> u in s.tuples
  {
    hide Next, Writes;
    if TouchesWindows(op) {
      WindowOpFrame(s, op, u);
    } else {
      OtherOpFrame(s, op, u);
    }
  }

  // ---- position holders ---------------------------------------------------------------------------

  ghost predicate HasOpen(assignments: map<Id, Assignment>, position: Id, member: Id) {
    exists a :: a in assignments && Open(assignments[a], position, member)
  }

  /** Whoever has an open window has the holder tuple. */
  ghost predicate OpenIsTupled(s: State) {
    forall p, m :: HasOpen(s.assignments, p, m) ==> HolderTuple(p, m) in s.tuples
  }

  /** The holder tuples are exactly the open windows. */
  ghost predicate HoldersExact(s: State) {
    && OpenIsTupled(s)
    && forall t :: t in s.tuples && On(t, "position", "holder") ==>
         t == HolderTuple(t.objectId, t.subjectId) && HasOpen(s.assignments, t.objectId, t.subjectId)
  }

  /** A first window that ends after today gets the tuple though it is not open. */
  predicate FutureEnd(s: State, op: Op) {
    op.OpCreateAndAssign? && op.validTo.Some? && s.today < op.validTo.value
  }

  lemma SameUnlessWritten(s: State, op: Op, objectType: string, relation: string)
    requires forall u :: On(u, objectType, relation) ==> !Writes(op, u)
    ensures SameOn(s, Next(s, op), objectType, relation)
  {
    hide Next, Writes;
    forall u | On(u, objectType, relation)
      ensures u in s.tuples <==> u in Next(s, op).tuples
    {
      TupleFrame(s, op, u);
    }
  }

  lemma HolderFrame(s: State, op: Op)
    requires !TouchesWindows(op)
    ensures SameOn(s, Next(s, op), "position", "holder") && Next(s, op).assignments == s.assignments
  {
    hide Next, SameOn;
    NamesDiffer();
    SameUnlessWritten(s, op, "position", "holder");
    AssignmentsFrame(s, op);
  }

  lemma AssignmentsFrame(s: State, op: Op)
    requires !TouchesWindows(op)
    ensures Next(s, op).assignments == s.assignments
  {
    hide Under, InBoundedSubtree, KeepsRoot, SubtreeHasPositions, Referencing, BoundToModule, LinkTaken, IsCompany,
        AssignRefusal, Held, Covers, UnitUnderCompany;
  }

  lemma NamesDiffer()
    ensures "company" != "member" && "company" != "position" && "company" != "group" && "company" != "holder"
    ensures "member" != "position" && "member" != "group" && "member" != "holder" && "member" != "mapped_user"
    ensures "position" != "group" && "company" != "mapped_user" && "holder" != "mapped_user"
  {
    assert "company"[0] == 'c' && "member"[0] == 'm' && "position"[0] == 'p' && "group"[0] == 'g' && "holder"[0] == 'h';
    assert |"mapped_user"| == 11;
  }

  lemma OpenKeepsHolders(s: State, id: Id, position: Id, member: Id)
    requires id !in s.assignments
    ensures OpenIsTupled(s) ==> OpenIsTupled(OpenWindow(s, id, position, member))
    ensures HoldersExact(s) ==> HoldersExact(OpenWindow(s, id, position, member))
  {
    var t := OpenWindow(s, id, position, member);
    assert t.assignments[id].position == position && HasOpen(t.assignments, position, member);
    forall p, m
      ensures HasOpen(s.assignments, p, m) ==> HasOpen(t.assignments, p, m)
      ensures HasOpen(t.assignments, p, m) ==> HasOpen(s.assignments, p, m) || (p, m) == (position, member)
    {
      if a :| a in s.assignments && Open(s.assignments[a], p, m) {
        assert Open(t.assignments[a], p, m);
      }
      if a :| a in t.assignments && Open(t.assignments[a], p, m) {
        assert a == id || Open(s.assignments[a], p, m);
      }
    }
  }

  lemma CloseKeepsHolders(s: State, id: Id)
    requires id in s.assignments
    ensures OpenIsTupled(s) ==> OpenIsTupled(CloseWindow(s, id))
    ensures HoldersExact(s) ==> HoldersExact(CloseWindow(s, id))
  {
    var t := CloseWindow(s, id);
    var closed := s.assignments[id];
    forall p, m
      ensures HasOpen(t.assignments, p, m) ==> HasOpen(s.assignments, p, m)
      ensures HasOpen(s.assignments, p, m) ==>
        HasOpen(t.assignments, p, m) || (p, m) == (closed.position, closed.member)
    {
      if a :| a in t.assignments && Open(t.assignments[a], p, m) {
        assert Open(s.assignments[a], p, m);
      }
      if a :| a in s.assignments && Open(s.assignments[a], p, m) {
        assert a == id || Open(t.assignments[a], p, m);
      }
    }
    if other :| other in s.assignments && other != id && Open(s.assignments[other], closed.position, closed.member) {
      assert Open(t.assignments[other], closed.position, closed.member);
    } else {
      assert !HasOpen(t.assignments, closed.position, closed.member);
    }
  }

  /** A first window keeps the tuples exact exactly when it has no end after today. */
  lemma CreateAndAssignHolders(s: State, op: Op)
    requires WindowInv(s) && op.OpCreateAndAssign? && Apply(s, op).Committed?
    ensures OpenIsTupled(s) ==> OpenIsTupled(Next(s, op))
    ensures HoldersExact(s) ==> (HoldersExact(Next(s, op)) <==> !FutureEnd(s, op))
  {
    var t := Next(s, op);
    var added := t.assignments[op.id];
    forall p, m
      ensures HasOpen(s.assignments, p, m) ==> HasOpen(t.assignments, p, m)
      ensures HasOpen(t.assignments, p, m) ==> HasOpen(s.assignments, p, m) || Open(added, p, m)
    {
      if a :| a in s.assignments && Open(s.assignments[a], p, m) {
        assert Open(t.assignments[a], p, m);
      }
    }
    assert forall m :: !HasOpen(s.assignments, op.positionId, m);
    var holder := HolderTuple(op.positionId, op.member);
    if FutureEnd(s, op) {
      assert holder in t.tuples && On(holder, "position", "holder");
      assert !HasOpen(t.assignments, op.positionId, op.member);
    } else if Covers(added, s.today) {
      assert Open(added, op.positionId, op.member) && HasOpen(t.assignments, op.positionId, op.member);
    }
  }

  lemma WindowOpsKeepHolders(s: State, op: Op)
    requires WindowInv(s) && TouchesWindows(op)
    ensures OpenIsTupled(s) ==> OpenIsTupled(Next(s, op))
    ensures HoldersExact(s) && !FutureEnd(s, op) ==> HoldersExact(Next(s, op))
  {
    hide WindowInv, OpenIsTupled, HoldersExact, OpenWindow, UnitUnderCompany;
    if Apply(s, op).Committed? {
      match op
      case OpAssignNow(id, position, member) => OpenKeepsHolders(s, id, position, member);
      case OpEndAssignment(id) => CloseKeepsHolders(s, id);
      case OpHandover(id, position, member, expected) =>
        var held := Current(s.assignments, position, s.today);
        if s.assignments[held].member != member {
          CloseKeepsHolders(s, held);
          OpenKeepsHolders(CloseWindow(s, held), id, position, member);
        }
      case OpCreateAndAssign(_, _, _, _, _, _, _) => CreateAndAssignHolders(s, op);
    }
  }

  lemma StepKeepsHolders(s: State, op: Op)
    requires WindowInv(s)
    ensures OpenIsTupled(s) ==> OpenIsTupled(Next(s, op))
    ensures HoldersExact(s) && !FutureEnd(s, op) ==> HoldersExact(Next(s, op))
  {
    if TouchesWindows(op) {
      WindowOpsKeepHolders(s, op);
    } else {
      HolderFrame(s, op);
    }
  }

  // ---- company members and linked users -----------------------------------------------------------

  predicate ActiveIn(s: State, member: Id, company: Id) {
    member in s.members && s.members[member].active && s.members[member].company == company
  }

  predicate LinkedTo(s: State, member: Id, kcSub: string) {
    && member in s.members && s.members[member].user.Some?
    && s.members[member].user.value in s.users && s.users[s.members[member].user.value] == kcSub
  }

  predicate SharesUser(a: Member, b: Member) {
    a.company == b.company && a.user.Some? && a.user == b.user
  }

  /** A kcSub has one account, links point at accounts, and no two members of a company share a user. */
  ghost predicate MemberRows(s: State) {
    && (forall u, v :: u in s.users && v in s.users && s.users[u] == s.users[v] ==> u == v)
    && (forall m {:trigger s.members[m]} :: m in s.members && s.members[m].user.Some? ==>
          s.members[m].user.value in s.users && s.users[s.members[m].user.value] != "")
    && (forall m, n {:trigger s.members[m], s.members[n]} ::
          m in s.members && n in s.members && SharesUser(s.members[m], s.members[n]) ==> m == n)
  }

  /** Company-member tuples are exactly the active members. */
  ghost predicate CompanyTuples(s: State) {
    && (forall m, c :: ActiveIn(s, m, c) ==> CompanyMemberTuple(c, m) in s.tuples)
    && (forall t :: t in s.tuples && On(t, "company", "member") ==>
          t == CompanyMemberTuple(t.objectId, t.subjectId) && ActiveIn(s, t.subjectId, t.objectId))
  }

  /** Every current link has its tuple, and a mapped-user tuple names a user directly. */
  ghost predicate LinkTuples(s: State) {
    && (forall m, u :: LinkedTo(s, m, u) ==> MappedUserTuple(m, u) in s.tuples)
    && (forall t :: t in s.tuples && On(t, "member", "mapped_user") ==> t == MappedUserTuple(t.objectId, t.subjectId))
  }

  ghost predicate MemberInv(s: State) {
    MemberRows(s) && CompanyTuples(s) && LinkTuples(s)
  }

  /** The mapped-user tuples are exactly the current links. */
  ghost predicate LinksExact(s: State) {
    MemberInv(s) && forall t :: t in s.tuples && On(t, "member", "mapped_user") ==> LinkedTo(s, t.objectId, t.subjectId)
  }

  predicate TouchesMembers(op: Op) {
    op.OpCreateMember? || op.OpUpdateMember? || op.OpLinkUser? || op.OpUnlinkUser? || op.NewUser?
  }

  lemma MemberFrame(s: State, op: Op)
    requires !TouchesMembers(op)
    ensures SameOn(s, Next(s, op), "company", "member") && SameOn(s, Next(s, op), "member", "mapped_user")
    ensures Next(s, op).members == s.members && Next(s, op).users == s.users
  {
    hide Next, SameOn;
    NamesDiffer();
    SameUnlessWritten(s, op, "company", "member");
    SameUnlessWritten(s, op, "member", "mapped_user");
    MemberRowsFrame(s, op);
  }

  lemma MemberRowsFrame(s: State, op: Op)
    requires !TouchesMembers(op)
    ensures Next(s, op).members == s.members && Next(s, op).users == s.users
  {
    hide Under, InBoundedSubtree, KeepsRoot, SubtreeHasPositions, Referencing, BoundToModule, LinkTaken, IsCompany,
        AssignRefusal, Held, Covers, UnitUnderCompany;
  }

  /** Clearing links and changing nothing else about them keeps the rows in order. */
  lemma RowsFollow(s: State, t: State)
    requires MemberRows(s) && t.users == s.users
    requires forall m :: m in t.members && t.members[m].user.Some? ==>
      m in s.members && t.members[m].user == s.members[m].user && t.members[m].company == s.members[m].company
    ensures MemberRows(t)
  {
    forall m, n | m in t.members && n in t.members && SharesUser(t.members[m], t.members[n])
      ensures m == n
    {
      assert SharesUser(s.members[m], s.members[n]);
    }
  }

  lemma LinksFollow(s: State, t: State)
    requires LinkTuples(s) && SameOn(s, t, "member", "mapped_user")
    requires forall m, u :: LinkedTo(t, m, u) <==> LinkedTo(s, m, u)
    ensures LinkTuples(t)
    ensures MemberInv(t) && LinksExact(s) ==> LinksExact(t)
  {
    assert forall m, u :: On(MappedUserTuple(m, u), "member", "mapped_user");
  }

  lemma CompanyTuplesFollow(s: State, t: State)
    requires CompanyTuples(s) && SameOn(s, t, "company", "member")
    requires forall m, c :: ActiveIn(t, m, c) <==> ActiveIn(s, m, c)
    ensures CompanyTuples(t)
  {
    assert forall m, c :: On(CompanyMemberTuple(c, m), "company", "member");
  }

  lemma CreateMemberKeeps(s: State, id: Id, company: Id, active: bool, t: State)
    requires MemberInv(s) && CreateMember(s, id, company, active) == Committed(t)
    ensures MemberInv(t) && (LinksExact(s) ==> LinksExact(t))
  {
    RowsFollow(s, t);
    LinksFollow(s, t);
    assert CompanyTuples(t) by {
      assert forall m, c :: ActiveIn(t, m, c) <==> ActiveIn(s, m, c) || (m == id && c == company && active);
    }
  }

  lemma UpdateMemberKeeps(s: State, id: Id, active: bool, t: State)
    requires MemberInv(s) && UpdateMember(s, id, active) == Committed(t)
    ensures MemberInv(t) && (LinksExact(s) ==> LinksExact(t))
  {
    RowsFollow(s, t);
    LinksFollow(s, t);
    UpdateMemberTuples(s, id, active, t);
  }

  lemma UpdateMemberTuples(s: State, id: Id, active: bool, t: State)
    requires CompanyTuples(s) && UpdateMember(s, id, active) == Committed(t)
    ensures CompanyTuples(t)
  {
    assert forall m, c :: ActiveIn(t, m, c) <==>
      (if m == id then active && c == s.members[id].company else ActiveIn(s, m, c));
    assert s.members[id].active ==> ActiveIn(s, id, s.members[id].company);
  }

  lemma UnlinkUserKeeps(s: State, id: Id, t: State)
    requires MemberInv(s) && UnlinkUser(s, id) == Committed(t)
    ensures MemberInv(t) && (LinksExact(s) ==> LinksExact(t))
  {
    RowsFollow(s, t);
    CompanyTuplesFollow(s, t);
    UnlinkUserTuples(s, id, t);
  }

  lemma UnlinkUserTuples(s: State, id: Id, t: State)
    requires MemberRows(s) && LinkTuples(s) && UnlinkUser(s, id) == Committed(t)
    ensures LinkTuples(t)
    ensures MemberInv(t) && LinksExact(s) ==> LinksExact(t)
  {
    assert forall m, u :: LinkedTo(t, m, u) <==> LinkedTo(s, m, u) && m != id;
  }

  lemma NewUserKeeps(s: State, id: Id, kcSub: string, t: State)
    requires MemberInv(s) && id !in s.users && !KnownSub(s.users, kcSub) && t == s.(users := s.users[id := kcSub])
    ensures MemberInv(t) && (LinksExact(s) ==> LinksExact(t))
  {
    CompanyTuplesFollow(s, t);
    LinksFollow(s, t);
  }

  /** Linking a member who is linked to someone else. */
  predicate Replaces(s: State, id: Id, kcSub: string) {
    id in s.members && s.members[id].user.Some? && !LinkedTo(s, id, kcSub)
  }

  /** Linking keeps the tuples exact exactly when it does not replace another link: the tuple of a replaced
      link stays behind. */
  lemma LinkUserKeeps(s: State, id: Id, kcSub: string, confirmed: bool, t: State)
    requires MemberInv(s) && LinkUser(s, id, kcSub, confirmed) == Committed(t)
    ensures MemberInv(t)
    ensures LinksExact(s) ==> (LinksExact(t) <==> !Replaces(s, id, kcSub))
  {
    LinkUserRows(s, id, kcSub, confirmed, t);
    CompanyTuplesFollow(s, t);
    assert forall m, u :: LinkedTo(t, m, u) <==> (if m == id then u == kcSub else LinkedTo(s, m, u));
    if LinksExact(s) && Replaces(s, id, kcSub) {
      var stale := MappedUserTuple(id, s.users[s.members[id].user.value]);
      assert LinkedTo(s, id, stale.subjectId);
      assert stale in t.tuples && On(stale, "member", "mapped_user") && !LinkedTo(t, id, stale.subjectId);
    }
  }

  lemma LinkUserRows(s: State, id: Id, kcSub: string, confirmed: bool, t: State)
    requires MemberRows(s) && LinkUser(s, id, kcSub, confirmed) == Committed(t)
    ensures MemberRows(t)
  {
    forall m, n | m in t.members && n in t.members && SharesUser(t.members[m], t.members[n])
      ensures m == n
    {
      if m != id && n != id { assert SharesUser(s.members[m], s.members[n]); }
    }
  }

  /** A step that replaces a link. */
  predicate Relinks(s: State, op: Op) {
    op.OpLinkUser? && Replaces(s, op.id, op.kcSub)
  }

  lemma StepKeepsMembers(s: State, op: Op)
    requires MemberInv(s)
    ensures MemberInv(Next(s, op))
    ensures LinksExact(s) && !Relinks(s, op) ==> LinksExact(Next(s, op))
  {
    hide MemberInv, LinksExact, SameOn;
    hide Under, InBoundedSubtree, KeepsRoot, SubtreeHasPositions, Referencing, BoundToModule, LinkTaken, IsCompany,
        AssignRefusal, Held, Covers, UnitUnderCompany;
    if !TouchesMembers(op) {
      MemberFrame(s, op);
      SameMembers(s, Next(s, op));
    } else if Apply(s, op).Committed? {
      var t := Next(s, op);
      match op
      case OpCreateMember(id, company, active) => CreateMemberKeeps(s, id, company, active, t);
      case OpUpdateMember(id, active) => UpdateMemberKeeps(s, id, active, t);
      case OpLinkUser(id, kcSub, confirmed) => LinkUserKeeps(s, id, kcSub, confirmed, t);
      case OpUnlinkUser(id) => UnlinkUserKeeps(s, id, t);
      case NewUser(id, kcSub) => NewUserKeeps(s, id, kcSub, t);
    }
  }

  lemma SameMembers(s: State, t: State)
    requires MemberInv(s) && t.members == s.members && t.users == s.users
    requires SameOn(s, t, "company", "member") && SameOn(s, t, "member", "mapped_user")
    ensures MemberInv(t) && (LinksExact(s) ==> LinksExact(t))
  {
    RowsFollow(s, t);
    CompanyTuplesFollow(s, t);
    LinksFollow(s, t);
  }
}
