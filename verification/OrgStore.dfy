/**
 The store as the service runs it: one object whose methods change rows and tuples step by step. Every method is
 proved to do exactly what its specification in `Org` says, and to keep the invariants of `OrgRuns`.
 */
module OrgStore {
  import opened Options
  import opened AuthzTuple
  import opened OrgTree
  import opened Org
  import opened OrgPlacement
  import opened OrgAssignments
  import opened OrgQueries
  import opened OrgRuns

  /** The call's answer and the states around it are what the specification says. */
  ghost predicate Did(before: State, after: State, refusal: Option<Refusal>, spec: Result) {
    match spec
    case Committed(s) => refusal.None? && after == s
    case Refused(why) => refusal == Some(why) && after == before
  }

  class Store {
    var units: Units
    var users: map<Id, string>
    var members: map<Id, Member>
    var positions: map<Id, Position>
    var assignments: map<Id, Assignment>
    var groups: map<Id, Group>
    var groupMembers: set<(Id, Id)>
    var tuples: set<Tuple>
    var today: Date

    ghost function Abs(): State
      reads this
    {
      State(units, users, members, positions, assignments, groups, groupMembers, tuples, today)
    }

    ghost predicate Valid()
      reads this
    {
      Inv(Abs())
    }

    constructor (tuples: set<Tuple>, today: Date)
      requires forall t :: t in tuples ==> !OrgOwned(t)
      ensures Valid() && Empty(Abs()) && this.tuples == tuples && this.today == today
    {
      units, users, members, positions, assignments := map[], map[], map[], map[], map[];
      groups, groupMembers := map[], {};
      this.tuples, this.today := tuples, today;
      new;
      EmptyIsGood(Abs());
    }

    method CreateOrgUnit(id: Id, isCompany: bool, parent: Option<Id>) returns (refusal: Option<Refusal>)
      requires Valid()
      modifies this
      ensures Valid() && Did(old(Abs()), Abs(), refusal, Org.CreateOrgUnit(old(Abs()), id, isCompany, parent))
    {
      hide Inv;
      StepKeepsInv(Abs(), OpCreateOrgUnit(id, isCompany, parent));
      if id in units { return Some(Conflict); }
      if isCompany && parent.Some? { return Some(Invalid("parentId")); }
      if !isCompany && parent.None? { return Some(Invalid("parentId")); }
      if parent.Some? && parent.value !in units { return Some(Invalid("parentId")); }
      units := units[id := OrgUnit(isCompany, parent)];
      return None;
    }

    method UpdateOrgUnit(id: Id, parent: Option<Id>) returns (refusal: Option<Refusal>)
      requires Valid()
      modifies this
      ensures Valid() && Did(old(Abs()), Abs(), refusal, Org.UpdateOrgUnit(old(Abs()), id, parent))
    {
      hide Inv;
      StepKeepsInv(Abs(), OpUpdateOrgUnit(id, parent));
      if parent == Some(id) { return Some(Invalid("parentId")); }
      if parent.Some? {
        var inSubtree := InSubtree(id, parent.value);
        if inSubtree { return Some(Invalid("parentId")); }
      }
      if id !in units { return Some(OrgUnitNotFound); }
      var existing := units[id];
      if existing.isCompany != parent.None? { return Some(Invalid("parentId")); }
      if existing.parent == parent { return None; }
      refusal := MoveRefusal(id, parent);
      if refusal.Some? { return; }
      units := Reparent(units, id, parent);
    }

    /** The store's cycle check: is the candidate parent in the depth-bounded subtree query? */
    method InSubtree(id: Id, parent: Id) returns (found: bool)
      requires Valid()
      ensures found <==> InBoundedSubtree(units, id, parent)
    {
      var subtree := SubtreeOrgUnits(units, id);
      found := parent in subtree;
    }

    /** Why a changed parent is refused, if it is: the company check, then the database's cycle trigger. */
    method MoveRefusal(id: Id, parent: Option<Id>) returns (refusal: Option<Refusal>)
      requires Valid() && id in units
      ensures refusal ==
        if parent.Some? && parent.value !in units then Some(Unresolvable)
        else if !KeepsRoot(units, id, parent) && SubtreeHasPositions(Abs(), id) then Some(Invalid("parentId"))
        else if parent.Some? && Under(units, id, parent.value) then Some(Invalid(NO_FIELD))
        else None
    {
      var crosses, refused := CrossesCompanies(id, parent);
      if refused { return Some(Unresolvable); }
      if crosses {
        var hasPositions := HasPositions(id);
        if hasPositions { return Some(Invalid("parentId")); }
      }
      if parent.Some? {
        var cycle := ChainReaches(units, parent.value, id);
        if cycle { return Some(Invalid(NO_FIELD)); }
      }
      return None;
    }

    method HasPositions(id: Id) returns (has: bool)
      requires Valid()
      ensures has <==> SubtreeHasPositions(Abs(), id)
    {
      var subtree := WholeSubtree(units, id);
      has := exists p :: p in positions && positions[p].orgUnit in subtree;
      forall p | p in positions
        ensures positions[p].orgUnit in units
      {
        assert PlacedAt(units, Abs().positions[p]);
      }
      if p :| p in positions && Under(units, id, positions[p].orgUnit) {
        assert positions[p].orgUnit in subtree;
      }
    }

    method UnderCompany(orgUnit: Id, company: Id) returns (under: bool)
      requires Valid()
      ensures under <==> UnitUnderCompany(units, orgUnit, company)
    {
      under := ChainReaches(units, orgUnit, company);
    }

    method LookUpUser(kcSub: string) returns (user: Option<Id>)
      requires Valid()
      ensures user == if KnownSub(users, kcSub) then Some(UserOf(users, kcSub)) else None
    {
      if exists u :: u in users && users[u] == kcSub {
        var u :| u in users && users[u] == kcSub;
        return Some(u);
      }
      return None;
    }

    /** The old and the new root company of a unit to be moved, compared. */
    method CrossesCompanies(id: Id, parent: Option<Id>) returns (crosses: bool, refused: bool)
      requires Valid() && id in units
      ensures refused <==> parent.Some? && parent.value !in units
      ensures !refused ==> (crosses <==> !KeepsRoot(units, id, parent))
    {
      var oldRoot := ResolveRootCompany(units, id);
      var newRoot := Some(id);
      if parent.Some? {
        newRoot := ResolveRootCompany(units, parent.value);
        if newRoot.None? { return false, true; }
      }
      forall r | RootOf(units, id, r)
        ensures r == oldRoot.value
      {
        RootUnique(units, id, r, oldRoot.value);
      }
      if parent.Some? {
        forall r | RootOf(units, parent.value, r)
          ensures r == newRoot.value
        {
          RootUnique(units, parent.value, r, newRoot.value);
        }
      }
      return oldRoot != newRoot, false;
    }

    method DeleteOrgUnit(id: Id) returns (refusal: Option<Refusal>)
      requires Valid()
      modifies this
      ensures Valid() && Did(old(Abs()), Abs(), refusal, Org.DeleteOrgUnit(old(Abs()), id))
    {
      hide Inv;
      StepKeepsInv(Abs(), OpDeleteOrgUnit(id));
      if exists x :: x in units && units[x].parent == Some(id) { return Some(OrgUnitHasChildren); }
      if exists m :: m in members && members[m].company == id { return Some(OrgUnitHasMembers); }
      if exists p ::
        p in positions && (positions[p].orgUnit == id || positions[p].company == id) { return Some(Referenced); }
      if exists g :: g in groups && groups[g].company == id { return Some(Referenced); }
      if id !in units { return Some(OrgUnitNotFound); }
      units := units - {id};
      return None;
    }

    method CreateMember(id: Id, company: Id, active: bool) returns (refusal: Option<Refusal>)
      requires Valid()
      modifies this
      ensures Valid() && Did(old(Abs()), Abs(), refusal, Org.CreateMember(old(Abs()), id, company, active))
    {
      hide Inv;
      StepKeepsInv(Abs(), OpCreateMember(id, company, active));
      if id in members { return Some(Conflict); }
      if !IsCompany(units, company) { return Some(Invalid(NO_FIELD)); }
      members := members[id := Member(company, active, None)];
      if active { tuples := tuples + {CompanyMemberTuple(company, id)}; }
      return None;
    }

    method UpdateMember(id: Id, active: bool) returns (refusal: Option<Refusal>)
      requires Valid()
      modifies this
      ensures Valid() && Did(old(Abs()), Abs(), refusal, Org.UpdateMember(old(Abs()), id, active))
    {
      hide Inv;
      StepKeepsInv(Abs(), OpUpdateMember(id, active));
      if id !in members { return Some(MemberNotFound); }
      var before := members[id];
      members := members[id := before.(active := active)];
      if !before.active && active {
        tuples := tuples + {CompanyMemberTuple(before.company, id)};
      } else if before.active && !active {
        tuples := tuples - {CompanyMemberTuple(before.company, id)};
      }
      return None;
    }

    method LinkUser(id: Id, kcSub: string, confirmed: bool) returns (refusal: Option<Refusal>)
      requires Valid()
      modifies this
      ensures Valid() && Did(old(Abs()), Abs(), refusal, Org.LinkUser(old(Abs()), id, kcSub, confirmed))
    {
      hide Inv;
      StepKeepsInv(Abs(), OpLinkUser(id, kcSub, confirmed));
      if !confirmed { return Some(UserNotConfirmed); }
      var user := LookUpUser(kcSub);
      if user.None? { return Some(UserNotConfirmed); }
      if id !in members { return Some(MemberNotFound); }
      if LinkTaken(members, id, user.value) { return Some(Conflict); }
      if kcSub == "" { return Some(Unresolvable); }
      members := members[id := members[id].(user := user)];
      tuples := tuples + {MappedUserTuple(id, kcSub)};
      return None;
    }

    method UnlinkUser(id: Id) returns (refusal: Option<Refusal>)
      requires Valid()
      modifies this
      ensures Valid() && Did(old(Abs()), Abs(), refusal, Org.UnlinkUser(old(Abs()), id))
    {
      hide Inv;
      StepKeepsInv(Abs(), OpUnlinkUser(id));
      if id !in members { return Some(MemberNotFound); }
      var before := members[id].user;
      members := members[id := members[id].(user := None)];
      if before.Some? && before.value in users && users[before.value] != "" {
        tuples := tuples - {MappedUserTuple(id, users[before.value])};
      }
      return None;
    }

    method CreatePosition(id: Id, company: Id, orgUnit: Id) returns (refusal: Option<Refusal>)
      requires Valid()
      modifies this
      ensures Valid() && Did(old(Abs()), Abs(), refusal, Org.CreatePosition(old(Abs()), id, company, orgUnit))
    {
      hide Inv;
      StepKeepsInv(Abs(), OpCreatePosition(id, company, orgUnit));
      if id in positions { return Some(Conflict); }
      var under := UnderCompany(orgUnit, company);
      if !under { return Some(Invalid("orgUnitId")); }
      if !IsCompany(units, company) { return Some(Invalid(NO_FIELD)); }
      positions := positions[id := Position(company, orgUnit)];
      tuples := tuples + {PositionAnchor(id, company)};
      return None;
    }

    method UpdatePosition(id: Id, orgUnit: Id) returns (refusal: Option<Refusal>)
      requires Valid()
      modifies this
      ensures Valid() && Did(old(Abs()), Abs(), refusal, Org.UpdatePosition(old(Abs()), id, orgUnit))
    {
      hide Inv;
      StepKeepsInv(Abs(), OpUpdatePosition(id, orgUnit));
      if id !in positions { return Some(PositionNotFound); }
      var under := UnderCompany(orgUnit, positions[id].company);
      if !under { return Some(Invalid("orgUnitId")); }
      if !IsCompany(units, positions[id].company) { return Some(Invalid(NO_FIELD)); }
      positions := positions[id := positions[id].(orgUnit := orgUnit)];
      return None;
    }

    /** The anchor is revoked before the row is deleted; a row still referenced undoes both. */
    method DeletePosition(id: Id) returns (refusal: Option<Refusal>)
      requires Valid()
      modifies this
      ensures Valid() && Did(old(Abs()), Abs(), refusal, Org.DeletePosition(old(Abs()), id))
    {
      hide Inv;
      StepKeepsInv(Abs(), OpDeletePosition(id));
      if id !in positions { return Some(PositionNotFound); }
      if BoundToModule(tuples, id) { return Some(PositionBound); }
      if exists a :: a in assignments && assignments[a].position == id { return Some(Referenced); }
      tuples := tuples - {PositionAnchor(id, positions[id].company)};
      positions := positions - {id};
      return None;
    }

    /** "Who holds the position on that date". */
    method AssignmentOnDate(position: Id, date: Date) returns (id: Option<Id>)
      requires Valid()
      ensures id.None? <==> !Held(assignments, position, date)
      ensures id.Some? ==> forall i :: HeldBy(assignments, position, date, i) <==> i == id.value
    {
      if exists i :: i in assignments && HeldBy(assignments, position, date, i) {
        var i :| i in assignments && HeldBy(assignments, position, date, i);
        forall j | HeldBy(assignments, position, date, j)
          ensures j == i
        {
          OneHolder(Abs(), position, date, i, j);
        }
        return Some(i);
      }
      return None;
    }

    method CheckAssignable(position: Id, member: Id) returns (refusal: Option<Refusal>)
      ensures refusal == AssignRefusal(Abs(), position, member)
    {
      if member !in members { return Some(MemberNotFound); }
      if !members[member].active { return Some(MemberInactive); }
      if position !in positions { return Some(PositionNotFound); }
      if positions[position].company != members[member].company { return Some(CrossCompanyAssignment); }
      return None;
    }

    method CreateAssignmentTx(id: Id, position: Id, member: Id)
      modifies this
      ensures Abs() == OpenWindow(old(Abs()), id, position, member)
    {
      assignments := assignments[id := Assignment(position, member, today, None)];
      tuples := tuples + {HolderTuple(position, member)};
    }

    method EndAssignmentTx(id: Id)
      requires id in assignments
      modifies this
      ensures Abs() == CloseWindow(old(Abs()), id)
    {
      var a := assignments[id];
      assignments := assignments[id := a.(validTo := Some(today))];
      var otherOpen := exists o :: o in assignments && o != id && Open(assignments[o], a.position, a.member);
      if o :| o in assignments && o != id && Open(assignments[o], a.position, a.member) {
        assert Open(old(assignments)[o], a.position, a.member);
      }
      if o :| o in old(assignments) && o != id && Open(old(assignments)[o], a.position, a.member) {
        assert Open(assignments[o], a.position, a.member);
      }
      if !otherOpen {
        tuples := tuples - {HolderTuple(a.position, a.member)};
      }
    }

    method AssignNow(id: Id, position: Id, member: Id) returns (refusal: Option<Refusal>)
      requires Valid()
      modifies this
      ensures Valid() && Did(old(Abs()), Abs(), refusal, Org.AssignNow(old(Abs()), id, position, member))
    {
      hide Inv;
      StepKeepsInv(Abs(), OpAssignNow(id, position, member));
      if id in assignments { return Some(Conflict); }
      refusal := CheckAssignable(position, member);
      if refusal.Some? { return; }
      var held := AssignmentOnDate(position, today);
      if held.Some? { return Some(PositionHeld(held.value, assignments[held.value].member)); }
      CreateAssignmentTx(id, position, member);
    }

    method EndAssignment(id: Id) returns (refusal: Option<Refusal>)
      requires Valid()
      modifies this
      ensures Valid() && Did(old(Abs()), Abs(), refusal, Org.EndAssignment(old(Abs()), id))
    {
      hide Inv;
      StepKeepsInv(Abs(), OpEndAssignment(id));
      if id !in assignments { return Some(AssignmentNotFound); }
      if assignments[id].validTo.Some? { return Some(AssignmentAlreadyEnded); }
      if today < assignments[id].validFrom { return Some(Invalid("validTo")); }
      EndAssignmentTx(id);
      return None;
    }

    method Handover(id: Id, position: Id, member: Id, expected: Option<Id>) returns (refusal: Option<Refusal>)
      requires Valid()
      modifies this
      ensures Valid() && Did(old(Abs()), Abs(), refusal, Org.Handover(old(Abs()), id, position, member, expected))
    {
      hide Inv;
      StepKeepsInv(Abs(), OpHandover(id, position, member, expected));
      if id in assignments { return Some(Conflict); }
      refusal := CheckAssignable(position, member);
      if refusal.Some? { return; }
      var held := AssignmentOnDate(position, today);
      if held.None? { return Some(Invalid("positionId")); }
      var holder := assignments[held.value].member;
      if holder == member { return None; }
      if expected.Some? && expected.value != held.value { return Some(PositionHeld(held.value, holder)); }
      EndAssignmentTx(held.value);
      CreateAssignmentTx(id, position, member);
      return None;
    }

    method CreateAndAssign(positionId: Id, id: Id, company: Id, orgUnit: Id, member: Id,
                           validFrom: Date, validTo: Option<Date>) returns (refusal: Option<Refusal>)
      requires Valid()
      modifies this
      ensures Valid()
      ensures Did(old(Abs()), Abs(), refusal,
                  Org.CreateAndAssign(old(Abs()), positionId, id, company, orgUnit, member, validFrom, validTo))
    {
      hide Inv;
      StepKeepsInv(Abs(), OpCreateAndAssign(positionId, id, company, orgUnit, member, validFrom, validTo));
      if positionId in positions || id in assignments { return Some(Conflict); }
      if today < validFrom { return Some(Invalid("validFrom")); }
      var under := UnderCompany(orgUnit, company);
      if !under { return Some(Invalid("orgUnitId")); }
      if member in members && members[member].company != company { return Some(CrossCompanyAssignment); }
      if !IsCompany(units, company) || member !in members { return Some(Invalid(NO_FIELD)); }
      if validTo.Some? && validTo.value < validFrom { return Some(Invalid("validFrom")); }
      FirstWindowTx(Position(company, orgUnit), id, Assignment(positionId, member, validFrom, validTo));
      return None;
    }

    method FirstWindowTx(p: Position, id: Id, a: Assignment)
      modifies this
      ensures Abs() == WithFirstWindow(old(Abs()), p, id, a)
    {
      positions := positions[a.position := p];
      assignments := assignments[id := a];
      if a.validFrom <= today && (a.validTo.None? || today < a.validTo.value) {
        tuples := tuples + {HolderTuple(a.position, a.member)};
      }
    }

    method CreateGroup(id: Id, company: Id) returns (refusal: Option<Refusal>)
      requires Valid()
      modifies this
      ensures Valid() && Did(old(Abs()), Abs(), refusal, Org.CreateGroup(old(Abs()), id, company))
    {
      hide Inv;
      StepKeepsInv(Abs(), OpCreateGroup(id, company));
      if id in groups { return Some(Conflict); }
      if !IsCompany(units, company) { return Some(Invalid(NO_FIELD)); }
      groups := groups[id := Group(company, KIBAN)];
      tuples := tuples + {GroupAnchor(id, company)};
      return None;
    }

    method AddGroupMember(group: Id, member: Id) returns (refusal: Option<Refusal>)
      requires Valid()
      modifies this
      ensures Valid() && Did(old(Abs()), Abs(), refusal, Org.AddGroupMember(old(Abs()), group, member))
    {
      hide Inv;
      StepKeepsInv(Abs(), OpAddGroupMember(group, member));
      if group !in groups { return Some(GroupNotFound); }
      if groups[group].source != KIBAN { return Some(GroupExternallyManaged); }
      if member !in members { return Some(MemberNotFound); }
      if !members[member].active { return Some(MemberInactive); }
      if members[member].company != groups[group].company { return Some(CrossCompanyAssignment); }
      groupMembers := groupMembers + {(group, member)};
      tuples := tuples + {GroupMemberTuple(group, member)};
      return None;
    }

    method RemoveGroupMember(group: Id, member: Id) returns (refusal: Option<Refusal>)
      requires Valid()
      modifies this
      ensures Valid() && Did(old(Abs()), Abs(), refusal, Org.RemoveGroupMember(old(Abs()), group, member))
    {
      hide Inv;
      StepKeepsInv(Abs(), OpRemoveGroupMember(group, member));
      if group !in groups { return Some(GroupNotFound); }
      if groups[group].source != KIBAN { return Some(GroupExternallyManaged); }
      if (group, member) !in groupMembers { return Some(GroupMemberNotFound); }
      groupMembers := groupMembers - {(group, member)};
      tuples := tuples - {GroupMemberTuple(group, member)};
      return None;
    }
  }
}
