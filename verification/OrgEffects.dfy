/**
 What each operation of the organization store does: exactly when it commits, and which rows it leaves, told by roots,
 links and dates rather than by its own definition.
 */
module OrgEffects {
  import opened Options
  import opened AuthzTuple
  import opened OrgTree
  import opened Org
  import opened OrgPlacement
  import opened OrgAssignments
  import opened OrgTuples
  import opened OrgGroups

  datatype Table = Units | Users | Members | Positions | Assignments | Groups | GroupMembers | Clock

  ghost predicate Same(s: State, t: State, table: Table) {
    match table
    case Units => t.units == s.units
    case Users => t.users == s.users
    case Members => t.members == s.members
    case Positions => t.positions == s.positions
    case Assignments => t.assignments == s.assignments
    case Groups => t.groups == s.groups
    case GroupMembers => t.groupMembers == s.groupMembers
    case Clock => t.today == s.today
  }

  /** Every other table is as it was. */
  ghost predicate Changes(s: State, t: State, changed: set<Table>) {
    forall table :: table !in changed ==> Same(s, t, table)
  }

  /** Every other row is as it was. */
  ghost predicate SameBut<V>(before: map<Id, V>, after: map<Id, V>, id: Id) {
    forall x :: x != id ==> (x in after <==> x in before) && (x in before ==> after[x] == before[x])
  }

  ghost predicate Commits(s: State, op: Op) {
    Apply(s, op).Committed?
  }

  // ---- org units ------------------------------------------------------------------------------------------

  /** A new unit: it has the parent asked for, and nothing else changes. */
  lemma CreateUnitDoes(s: State, id: Id, isCompany: bool, parent: Option<Id>)
    ensures
      var op := OpCreateOrgUnit(id, isCompany, parent);
      var t := Next(s, op);
      && (Commits(s, op) <==>
            id !in s.units && (isCompany <==> parent.None?) && (parent.Some? ==> parent.value in s.units))
      && (Commits(s, op) ==>
            && Changes(s, t, {Units}) && t.tuples == s.tuples && SameBut(s.units, t.units, id)
            && id in t.units && t.units[id].isCompany == isCompany && Ancestor(t.units, id, 1) == parent)
  {
    var t := Next(s, OpCreateOrgUnit(id, isCompany, parent));
    assert Ancestor(t.units, id, 0) == Some(id);
  }

  ghost predicate PositionBelow(s: State, id: Id) {
    exists p :: p in s.positions && Under(s.units, id, s.positions[p].orgUnit)
  }

  ghost predicate SameRoot(units: Units, x: Id, y: Id) {
    exists root :: RootOf(units, x, root) && RootOf(units, y, root)
  }

  /** The move may be made: the type fits, the parent exists outside the subtree, and no position changes company. */
  ghost predicate MayMove(s: State, id: Id, parent: Option<Id>) {
    && id in s.units && (s.units[id].isCompany <==> parent.None?)
    && (parent.Some? ==>
          && parent.value in s.units && !Under(s.units, id, parent.value)
          && (SameRoot(s.units, id, parent.value) || !PositionBelow(s, id)))
  }

  lemma MoveCommits(s: State, id: Id, parent: Option<Id>)
    requires TreeInv(s)
    ensures Commits(s, OpUpdateOrgUnit(id, parent)) <==> MayMove(s, id, parent)
  {
    if id in s.units { assert Ancestor(s.units, id, 0) == Some(id); }
    if id in s.units && parent.Some? {
      if InBoundedSubtree(s.units, id, parent.value) { BoundedIsUnder(s.units, id, parent.value); }
      if parent == s.units[id].parent { OwnParentIsFine(s.units, id, parent.value); }
    }
  }

  /** A parent found within 32 levels below the unit is refused as the parent. */
  lemma MoveBelowRefused(s: State, id: Id, parent: Id)
    requires id in s.units && exists k: nat :: k <= 32 && parent in s.units && Ancestor(s.units, parent, k) == Some(id)
    ensures Apply(s, OpUpdateOrgUnit(id, Some(parent))) == Refused(Invalid("parentId"))
  {
    var k: nat :| k <= 32 && parent in s.units && Ancestor(s.units, parent, k) == Some(id);
    assert AtLevel(s.units, id, parent, k);
  }

  lemma BoundedIsUnder(units: Units, top: Id, x: Id)
    requires InBoundedSubtree(units, top, x)
    ensures Under(units, top, x)
  {
  }

  /** A unit's parent is outside its subtree and has its root. */
  lemma OwnParentIsFine(units: Units, id: Id, parent: Id)
    requires Forest(units) && id in units && units[id].parent == Some(parent)
    ensures !Under(units, id, parent) && SameRoot(units, id, parent)
  {
    assert Ancestor(units, id, 0) == Some(id);
    assert Ancestor(units, id, 1) == Some(parent);
    if k: nat :| Ancestor(units, parent, k) == Some(id) {
      AncestorSplit(units, id, parent, 1, k);
      NoLoop(units, id, k + 1);
    }
    var root := OneRoot(units, parent);
    assert Under(units, parent, id);
    UnderIsTransitive(units, root, parent, id);
  }

  /** A committed move: the unit hangs where it was asked to, every unit of its subtree has the new parent's root, every
      other unit keeps its row and its root. */
  lemma MoveDoes(s: State, id: Id, parent: Option<Id>)
    requires TreeInv(s) && Commits(s, OpUpdateOrgUnit(id, parent))
    ensures
      var t := Next(s, OpUpdateOrgUnit(id, parent));
      && Changes(s, t, {Units}) && t.tuples == s.tuples && SameBut(s.units, t.units, id)
      && id in t.units && t.units[id].isCompany == s.units[id].isCompany && Ancestor(t.units, id, 1) == parent
  {
    hide Apply, TreeInv;
    MoveReparents(s, id, parent);
    var t := Next(s, OpUpdateOrgUnit(id, parent));
    assert Ancestor(t.units, id, 0) == Some(id);
  }

  lemma MoveReparents(s: State, id: Id, parent: Option<Id>)
    requires Commits(s, OpUpdateOrgUnit(id, parent))
    ensures id in s.units && Next(s, OpUpdateOrgUnit(id, parent)) == s.(units := Reparent(s.units, id, parent))
  {
    hide Under, KeepsRoot, SubtreeHasPositions, InBoundedSubtree;
    assert id in s.units && parent == s.units[id].parent ==> Reparent(s.units, id, parent) == s.units;
  }

  lemma MoveRoots(s: State, id: Id, parent: Option<Id>, x: Id, root: Id)
    requires TreeInv(s) && Commits(s, OpUpdateOrgUnit(id, parent)) && x in s.units
    ensures
      var t := Next(s, OpUpdateOrgUnit(id, parent));
      RootOf(t.units, x, root) <==>
        RootOf(s.units, if parent.Some? && Under(s.units, id, x) then parent.value else x, root)
  {
    hide UpdateOrgUnit, Forest;
    var t := Next(s, OpUpdateOrgUnit(id, parent));
    MoveCommits(s, id, parent);
    MoveDoes(s, id, parent);
    StepKeepsTree(s, OpUpdateOrgUnit(id, parent));
    if parent.Some? {
      MoveReparents(s, id, parent);
      var y := if Under(s.units, id, x) then parent.value else x;
      var r := OneRoot(s.units, y);
      HasParent(s.units, id);
      MovedRoot(s.units, id, parent.value, x, r);
      if RootOf(t.units, x, root) { RootUnique(t.units, x, r, root); }
      if RootOf(s.units, y, root) { RootUnique(s.units, y, r, root); }
    } else {
      SameUnits(s.units, t.units, id);
    }
  }

  lemma HasParent(units: Units, id: Id)
    requires Forest(units) && id in units && !units[id].isCompany
    ensures units[id].parent.Some?
  {
  }

  lemma SameUnits(a: Units, b: Units, id: Id)
    requires Forest(a) && SameBut(a, b, id) && id in a && id in b && a[id].isCompany && b[id].isCompany
    requires Ancestor(b, id, 1) == None
    ensures a == b
  {
    assert Ancestor(b, id, 0) == Some(id);
    assert b[id].parent == None && a[id].parent == None;
    assert a.Keys == b.Keys;
  }

  /** A deleted unit had nothing below it and nothing that refers to it, and nothing else changes. */
  lemma DeleteUnitDoes(s: State, id: Id)
    ensures
      var op := OpDeleteOrgUnit(id);
      var t := Next(s, op);
      && (Commits(s, op) <==>
            && id in s.units && (forall x :: x in s.units ==> s.units[x].parent != Some(id))
            && (forall m :: m in s.members ==> s.members[m].company != id)
            && (forall p :: p in s.positions ==> s.positions[p].orgUnit != id && s.positions[p].company != id)
            && (forall g :: g in s.groups ==> s.groups[g].company != id))
      && (Commits(s, op) ==>
            Changes(s, t, {Units}) && t.tuples == s.tuples && SameBut(s.units, t.units, id) && id !in t.units)
  {
  }

  // ---- members --------------------------------------------------------------------------------------------

  lemma CreateMemberDoes(s: State, id: Id, company: Id, active: bool)
    ensures
      var op := OpCreateMember(id, company, active);
      var t := Next(s, op);
      && (Commits(s, op) <==> id !in s.members && company in s.units && s.units[company].isCompany)
      && (Commits(s, op) ==>
            && Changes(s, t, {Members}) && SameBut(s.members, t.members, id) && id in t.members
            && t.members[id].company == company && t.members[id].user.None? && (ActiveIn(t, id, company) <==> active))
  {
  }

  lemma UpdateMemberDoes(s: State, id: Id, active: bool)
    ensures
      var op := OpUpdateMember(id, active);
      var t := Next(s, op);
      && (Commits(s, op) <==> id in s.members)
      && (Commits(s, op) ==>
            && Changes(s, t, {Members}) && SameBut(s.members, t.members, id) && id in t.members
            && t.members[id].company == s.members[id].company && t.members[id].user == s.members[id].user
            && t.members[id].active == active)
  {
  }

  /** A link is made for a confirmed account that no other member of the company has. */
  lemma LinkDoes(s: State, id: Id, kcSub: string, confirmed: bool)
    requires MemberInv(s)
    ensures
      var op := OpLinkUser(id, kcSub, confirmed);
      var t := Next(s, op);
      && (Commits(s, op) <==>
            && confirmed && (exists u :: u in s.users && s.users[u] == kcSub) && kcSub != "" && id in s.members
            && (forall m :: m != id && LinkedTo(s, m, kcSub) ==> s.members[m].company != s.members[id].company))
      && (Commits(s, op) ==>
            && Changes(s, t, {Members}) && SameBut(s.members, t.members, id) && LinkedTo(t, id, kcSub)
            && t.members[id].company == s.members[id].company && t.members[id].active == s.members[id].active)
  {
    hide CompanyTuples, LinkTuples;
    if KnownSub(s.users, kcSub) && id in s.members {
      var user := UserOf(s.users, kcSub);
      forall m | m in s.members && m != id
        ensures LinkedTo(s, m, kcSub) <==> s.members[m].user == Some(user)
      {
      }
    }
  }

  lemma UnlinkDoes(s: State, id: Id)
    ensures
      var op := OpUnlinkUser(id);
      var t := Next(s, op);
      && (Commits(s, op) <==> id in s.members)
      && (Commits(s, op) ==>
            && Changes(s, t, {Members}) && SameBut(s.members, t.members, id) && id in t.members
            && t.members[id].company == s.members[id].company && t.members[id].active == s.members[id].active
            && forall kcSub :: !LinkedTo(t, id, kcSub))
  {
  }

  // ---- positions ------------------------------------------------------------------------------------------

  /** In a forest, a company-typed unit is on the chain of a unit exactly when it is its root. */
  lemma UnderCompanyIff(units: Units, orgUnit: Id, company: Id)
    requires Forest(units)
    ensures UnitUnderCompany(units, orgUnit, company) && IsCompany(units, company)
      <==> orgUnit in units && RootOf(units, orgUnit, company)
  {
    if UnitUnderCompany(units, orgUnit, company) && IsCompany(units, company) {
      UnderCompanyIsRoot(units, orgUnit, company);
    }
  }

  lemma CreatePositionDoes(s: State, id: Id, company: Id, orgUnit: Id)
    requires TreeInv(s)
    ensures
      var op := OpCreatePosition(id, company, orgUnit);
      var t := Next(s, op);
      && (Commits(s, op) <==> id !in s.positions && orgUnit in s.units && RootOf(s.units, orgUnit, company))
      && (Commits(s, op) ==>
            && Changes(s, t, {Positions}) && SameBut(s.positions, t.positions, id)
            && id in t.positions && t.positions[id].company == company && t.positions[id].orgUnit == orgUnit)
  {
    hide UnitUnderCompany, IsCompany, RootOf;
    UnderCompanyIff(s.units, orgUnit, company);
  }

  lemma UpdatePositionDoes(s: State, id: Id, orgUnit: Id)
    requires TreeInv(s)
    ensures
      var op := OpUpdatePosition(id, orgUnit);
      var t := Next(s, op);
      && (Commits(s, op) <==>
            id in s.positions && orgUnit in s.units && RootOf(s.units, orgUnit, s.positions[id].company))
      && (Commits(s, op) ==>
            && Changes(s, t, {Positions}) && t.tuples == s.tuples && SameBut(s.positions, t.positions, id)
            && id in t.positions && t.positions[id].orgUnit == orgUnit
            && t.positions[id].company == s.positions[id].company)
  {
    hide UnitUnderCompany, IsCompany, RootOf;
    if id in s.positions { UnderCompanyIff(s.units, orgUnit, s.positions[id].company); }
  }

  lemma DeletePositionDoes(s: State, id: Id)
    ensures
      var op := OpDeletePosition(id);
      var t := Next(s, op);
      && (Commits(s, op) <==>
            && id in s.positions && (forall a :: a in s.assignments ==> s.assignments[a].position != id)
            && (forall u :: u in s.tuples ==>
              !(u.subjectType == "position" && u.subjectId == id && u.subjectRelation == "holder")))
      && (Commits(s, op) ==> Changes(s, t, {Positions}) && SameBut(s.positions, t.positions, id) && id !in t.positions)
  {
  }

  // ---- assignments ----------------------------------------------------------------------------------------

  /** An active member of the position's company. */
  ghost predicate Eligible(s: State, position: Id, member: Id) {
    position in s.positions && ActiveIn(s, member, s.positions[position].company)
  }

  /** The assignment is the member's, for the position, and covers exactly these dates. */
  ghost predicate CoversExactly(s: State, id: Id, position: Id, member: Id, dates: Date -> bool) {
    && id in s.assignments && s.assignments[id].member == member
    && forall p, date :: HeldBy(s.assignments, p, date, id) <==> p == position && dates(date)
  }

  /** Assigning: the member holds a free position from today on. A refusal for a held position names its holder. */
  lemma AssignDoes(s: State, id: Id, position: Id, member: Id)
    ensures
      var op := OpAssignNow(id, position, member);
      var t := Next(s, op);
      && (Commits(s, op) <==>
            id !in s.assignments && Eligible(s, position, member) && !Held(s.assignments, position, s.today))
      && (Commits(s, op) ==>
            && Changes(s, t, {Assignments}) && SameBut(s.assignments, t.assignments, id)
            && CoversExactly(t, id, position, member, date => s.today <= date))
      && (forall held, holder :: Apply(s, op) == Refused(PositionHeld(held, holder)) ==>
            HeldBy(s.assignments, position, s.today, held) && s.assignments[held].member == holder)
  {
  }

  /** Ending: the assignment keeps its dates before today and covers none from today on. */
  lemma EndDoes(s: State, id: Id)
    ensures
      var op := OpEndAssignment(id);
      var t := Next(s, op);
      && (Commits(s, op) <==>
            id in s.assignments && s.assignments[id].validTo.None? && s.assignments[id].validFrom <= s.today)
      && (Commits(s, op) ==>
            var a := s.assignments[id];
            && Changes(s, t, {Assignments}) && SameBut(s.assignments, t.assignments, id)
            && CoversExactly(t, id, a.position, a.member, date => a.validFrom <= date < s.today)
            && !HasOpenRow(t, id))
  {
  }

  ghost predicate HasOpenRow(s: State, id: Id) {
    id in s.assignments && s.assignments[id].validTo.None?
  }

  /** The present holder's assignment. */
  ghost predicate IsHolder(s: State, position: Id, held: Id) {
    HeldBy(s.assignments, position, s.today, held)
  }

  /** A handover commits for an eligible member when the position is held, by that member or by the one expected. */
  lemma HandoverCommits(s: State, id: Id, position: Id, member: Id, expected: Option<Id>, held: Id)
    requires WindowInv(s) && IsHolder(s, position, held)
    ensures Commits(s, OpHandover(id, position, member, expected)) <==>
      && id !in s.assignments && Eligible(s, position, member)
      && (s.assignments[held].member == member || expected.None? || expected == Some(held))
  {
    OneHolder(s, position, s.today, held, Current(s.assignments, position, s.today));
  }

  lemma HandoverNeedsHolder(s: State, id: Id, position: Id, member: Id, expected: Option<Id>)
    ensures Commits(s, OpHandover(id, position, member, expected)) ==> exists held :: IsHolder(s, position, held)
  {
    if Commits(s, OpHandover(id, position, member, expected)) {
      assert IsHolder(s, position, Current(s.assignments, position, s.today));
    }
  }

  /** To another member: the holder's dates end before today and the successor's begin today; the rest is as it was. To
      the present holder: nothing changes. */
  lemma HandoverDoes(s: State, id: Id, position: Id, member: Id, expected: Option<Id>, held: Id)
    requires WindowInv(s) && IsHolder(s, position, held) && Commits(s, OpHandover(id, position, member, expected))
    ensures
      var t := Next(s, OpHandover(id, position, member, expected));
      var a := s.assignments[held];
      if a.member == member then t == s
      else
        && Changes(s, t, {Assignments})
        && (forall x :: x != id && x != held ==>
              (x in t.assignments <==> x in s.assignments) &&
              (x in s.assignments ==> t.assignments[x] == s.assignments[x]))
        && CoversExactly(t, held, position, a.member, date => a.validFrom <= date < s.today)
        && CoversExactly(t, id, position, member, date => s.today <= date)
  {
    hide Apply, OpenWindow, CloseWindow;
    HandoverIs(s, id, position, member, expected, held);
    if s.assignments[held].member != member { ReplaceDoes(s, id, position, member, held); }
  }

  lemma HandoverIs(s: State, id: Id, position: Id, member: Id, expected: Option<Id>, held: Id)
    requires WindowInv(s) && IsHolder(s, position, held) && Commits(s, OpHandover(id, position, member, expected))
    ensures id !in s.assignments
    ensures Next(s, OpHandover(id, position, member, expected)) ==
      if s.assignments[held].member == member then s
      else OpenWindow(CloseWindow(s, held), id, position, member)
  {
    hide OpenWindow, CloseWindow, Covers;
    OneHolder(s, position, s.today, held, Current(s.assignments, position, s.today));
  }

  lemma ReplaceDoes(s: State, id: Id, position: Id, member: Id, held: Id)
    requires IsHolder(s, position, held) && id !in s.assignments
    ensures
      var t := OpenWindow(CloseWindow(s, held), id, position, member);
      var a := s.assignments[held];
      && Changes(s, t, {Assignments})
      && (forall x :: x != id && x != held ==>
            (x in t.assignments <==> x in s.assignments) &&
            (x in s.assignments ==> t.assignments[x] == s.assignments[x]))
      && CoversExactly(t, held, position, a.member, date => a.validFrom <= date < s.today)
      && CoversExactly(t, id, position, member, date => s.today <= date)
  {
    hide HasOtherOpen;
  }

  /** A new position with its first holder: the dates are the ones asked for. */
  lemma CreateAndAssignDoes(s: State, op: Op)
    requires TreeInv(s) && op.OpCreateAndAssign?
    ensures
      var t := Next(s, op);
      && (Commits(s, op) <==>
            && op.positionId !in s.positions && op.id !in s.assignments && op.validFrom <= s.today
            && op.orgUnit in s.units && RootOf(s.units, op.orgUnit, op.company)
            && op.member in s.members && s.members[op.member].company == op.company
            && (op.validTo.Some? ==> op.validFrom <= op.validTo.value))
      && (Commits(s, op) ==>
            && Changes(s, t, {Positions, Assignments})
            && SameBut(s.positions, t.positions, op.positionId) && SameBut(s.assignments, t.assignments, op.id)
            && op.positionId in t.positions && t.positions[op.positionId] == Position(op.company, op.orgUnit)
            && CoversExactly(t, op.id, op.positionId, op.member,
                 date => op.validFrom <= date && (op.validTo.Some? ==> date < op.validTo.value)))
  {
    hide UnitUnderCompany, IsCompany, RootOf;
    UnderCompanyIff(s.units, op.orgUnit, op.company);
  }

  // ---- groups ---------------------------------------------------------------------------------------------

  lemma CreateGroupDoes(s: State, id: Id, company: Id)
    ensures
      var op := OpCreateGroup(id, company);
      var t := Next(s, op);
      && (Commits(s, op) <==> id !in s.groups && company in s.units && s.units[company].isCompany)
      && (Commits(s, op) ==>
            && Changes(s, t, {Groups}) && SameBut(s.groups, t.groups, id)
            && id in t.groups && t.groups[id].company == company && t.groups[id].source == "kiban")
  {
  }

  /** An active member of the group's company joins a group no other system owns; nobody else's membership changes. */
  lemma AddGroupMemberDoes(s: State, group: Id, member: Id)
    ensures
      var op := OpAddGroupMember(group, member);
      var t := Next(s, op);
      && (Commits(s, op) <==>
            group in s.groups && s.groups[group].source == "kiban" && ActiveIn(s, member, s.groups[group].company))
      && (Commits(s, op) ==>
            && Changes(s, t, {GroupMembers})
            && forall g, m :: (g, m) in t.groupMembers <==> (g, m) in s.groupMembers || (g, m) == (group, member))
  {
  }

  lemma RemoveGroupMemberDoes(s: State, group: Id, member: Id)
    ensures
      var op := OpRemoveGroupMember(group, member);
      var t := Next(s, op);
      && (Commits(s, op) <==>
            group in s.groups && s.groups[group].source == "kiban" && (group, member) in s.groupMembers)
      && (Commits(s, op) ==>
            && Changes(s, t, {GroupMembers})
            && forall g, m :: (g, m) in t.groupMembers <==> (g, m) in s.groupMembers && (g, m) != (group, member))
  {
  }

  // ---- refusals -------------------------------------------------------------------------------------------

  function MemberOf(op: Op): Option<Id> {
    match op
    case OpUpdateMember(id, _) => Some(id)
    case OpLinkUser(id, _, _) => Some(id)
    case OpUnlinkUser(id) => Some(id)
    case OpAssignNow(_, _, member) => Some(member)
    case OpHandover(_, _, member, _) => Some(member)
    case OpCreateAndAssign(_, _, _, _, member, _, _) => Some(member)
    case OpAddGroupMember(_, member) => Some(member)
    case _ => None
  }

  function PositionOf(op: Op): Option<Id> {
    match op
    case OpUpdatePosition(id, _) => Some(id)
    case OpDeletePosition(id) => Some(id)
    case OpAssignNow(_, position, _) => Some(position)
    case OpHandover(_, position, _, _) => Some(position)
    case _ => None
  }

  function GroupOf(op: Op): Option<Id> {
    match op
    case OpAddGroupMember(group, _) => Some(group)
    case OpRemoveGroupMember(group, _) => Some(group)
    case _ => None
  }

  /** The company the operation is about, where a member must belong to it. */
  ghost predicate InOtherCompany(s: State, op: Op) {
    MemberOf(op).Some? && MemberOf(op).value in s.members &&
    var company := s.members[MemberOf(op).value].company;
    match op
    case OpCreateAndAssign(_, _, c, _, _, _, _) => c != company
    case OpAddGroupMember(group, _) => group in s.groups && s.groups[group].company != company
    case _ =>
      && PositionOf(op).Some? && PositionOf(op).value in s.positions
      && s.positions[PositionOf(op).value].company != company
  }

  ghost predicate UnitReferenced(s: State, op: Op) {
    && op.OpDeleteOrgUnit?
    && ((exists p :: p in s.positions && (s.positions[p].orgUnit == op.id || s.positions[p].company == op.id)) ||
      (exists g :: g in s.groups && s.groups[g].company == op.id))
  }

  ghost predicate PositionReferenced(s: State, op: Op) {
    op.OpDeletePosition? && exists a :: a in s.assignments && s.assignments[a].position == op.id
  }

  /** What a reason says of the state. */
  ghost predicate TrueOf(s: State, op: Op, why: Refusal) {
    match why
    case OrgUnitNotFound => (op.OpUpdateOrgUnit? || op.OpDeleteOrgUnit?) && op.id !in s.units
    case OrgUnitHasChildren => op.OpDeleteOrgUnit? && exists x :: x in s.units && s.units[x].parent == Some(op.id)
    case OrgUnitHasMembers => op.OpDeleteOrgUnit? && exists m :: m in s.members && s.members[m].company == op.id
    case MemberNotFound => MemberOf(op).Some? && MemberOf(op).value !in s.members
    case MemberInactive =>
      MemberOf(op).Some? && MemberOf(op).value in s.members && !s.members[MemberOf(op).value].active
    case PositionNotFound => PositionOf(op).Some? && PositionOf(op).value !in s.positions
    case CrossCompanyAssignment => InOtherCompany(s, op)
    case PositionBound => op.OpDeletePosition? && BoundToModule(s.tuples, op.id)
    case PositionHeld(held, holder) =>
      PositionOf(op).Some? && HeldBy(s.assignments, PositionOf(op).value, s.today, held) &&
        s.assignments[held].member == holder
    case AssignmentNotFound => op.OpEndAssignment? && op.id !in s.assignments
    case AssignmentAlreadyEnded =>
      op.OpEndAssignment? && op.id in s.assignments && s.assignments[op.id].validTo.Some?
    case UserNotConfirmed => op.OpLinkUser? && (op.confirmed ==> forall u :: u in s.users ==> s.users[u] != op.kcSub)
    case GroupNotFound => GroupOf(op).Some? && GroupOf(op).value !in s.groups
    case GroupExternallyManaged =>
      GroupOf(op).Some? && GroupOf(op).value in s.groups && s.groups[GroupOf(op).value].source != "kiban"
    case GroupMemberNotFound => op.OpRemoveGroupMember? && (op.group, op.member) !in s.groupMembers
    case Referenced => UnitReferenced(s, op) || PositionReferenced(s, op)
    case _ => true
  }

  ghost predicate Truthful(s: State, op: Op) {
    Apply(s, op).Refused? ==> TrueOf(s, op, Apply(s, op).why)
  }

  lemma UnitRefusals(s: State, op: Op)
    requires op.OpCreateOrgUnit? || op.OpUpdateOrgUnit? || op.OpDeleteOrgUnit?
    ensures Truthful(s, op)
  {
    hide Under, InBoundedSubtree, KeepsRoot, SubtreeHasPositions, RootIffCompany;
  }

  lemma MemberRefusals(s: State, op: Op)
    requires op.OpCreateMember? || op.OpUpdateMember? || op.OpLinkUser? || op.OpUnlinkUser?
    ensures Truthful(s, op)
  {
    hide IsCompany, LinkTaken;
  }

  lemma PositionRefusals(s: State, op: Op)
    requires op.OpCreatePosition? || op.OpUpdatePosition? || op.OpDeletePosition?
    ensures Truthful(s, op)
  {
    hide UnitUnderCompany, IsCompany, BoundToModule;
  }

  lemma WindowRefusals(s: State, op: Op)
    requires TouchesWindows(op)
    ensures Truthful(s, op)
  {
    hide UnitUnderCompany, IsCompany, OpenWindow, CloseWindow, WithFirstWindow, Covers;
  }

  lemma GroupRefusals(s: State, op: Op)
    requires TouchesGroups(op)
    ensures Truthful(s, op)
  {
    hide IsCompany;
  }

  /** A refusal tells the truth. */
  lemma RefusalIsTrue(s: State, op: Op)
    ensures Apply(s, op).Refused? ==> TrueOf(s, op, Apply(s, op).why)
  {
    if op.OpCreateOrgUnit? || op.OpUpdateOrgUnit? || op.OpDeleteOrgUnit? {
      UnitRefusals(s, op);
    } else if op.OpCreateMember? || op.OpUpdateMember? || op.OpLinkUser? || op.OpUnlinkUser? {
      MemberRefusals(s, op);
    } else if op.OpCreatePosition? || op.OpUpdatePosition? || op.OpDeletePosition? {
      PositionRefusals(s, op);
    } else if TouchesWindows(op) {
      WindowRefusals(s, op);
    } else if TouchesGroups(op) {
      GroupRefusals(s, op);
    }
  }
}
