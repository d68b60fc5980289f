/**
 The org service's facts (units, members, positions with half-open assignment windows, groups) and the
 authorization tuples it writes beside them. Each operation is one committed transaction: it either yields the
 next state or refuses and changes nothing. `Run` strings operations together.
 */
module Org {
  import opened Options
  import opened AuthzTuple
  import opened OrgTree

  type Date = int

  datatype Member = Member(company: Id, active: bool, user: Option<Id>)
  datatype Position = Position(company: Id, orgUnit: Id)
  datatype Assignment = Assignment(position: Id, member: Id, validFrom: Date, validTo: Option<Date>)
  datatype Group = Group(company: Id, source: string)

  /** `users` is the identity read view (internal id to kcSub); `today` the date in the tenant's timezone. */
  datatype State = State(
    units: Units,
    users: map<Id, string>,
    members: map<Id, Member>,
    positions: map<Id, Position>,
    assignments: map<Id, Assignment>,
    groups: map<Id, Group>,
    groupMembers: set<(Id, Id)>,
    tuples: set<Tuple>,
    today: Date)

  datatype Refusal =
    | OrgUnitNotFound | OrgUnitHasChildren | OrgUnitHasMembers | MemberNotFound | PositionNotFound
    | AssignmentNotFound | AssignmentAlreadyEnded | MemberInactive | CrossCompanyAssignment | UserNotConfirmed
    | GroupNotFound | GroupMemberNotFound | GroupExternallyManaged
    | Invalid(field: string) | Conflict | Referenced | PositionBound | Unresolvable
    | PositionHeld(assignment: Id, member: Id)

  /** A database trigger refuses without naming a constraint, so no field is found for it. */
  const NO_FIELD := ""

  datatype Result = Committed(state: State) | Refused(why: Refusal)

  // ---- tuples ---------------------------------------------------------------------------------

  function CompanyMemberTuple(company: Id, member: Id): Tuple {
    Tuple("company", company, "member", "member", member, "mapped_user")
  }

  function MappedUserTuple(member: Id, kcSub: string): Tuple {
    Tuple("member", member, "mapped_user", "user", kcSub, "")
  }

  function HolderTuple(position: Id, member: Id): Tuple {
    Tuple("position", position, "holder", "member", member, "mapped_user")
  }

  function GroupMemberTuple(group: Id, member: Id): Tuple {
    Tuple("group", group, "member", "member", member, "mapped_user")
  }

  function PositionAnchor(position: Id, company: Id): Tuple {
    Tuple("position", position, "company", "company", company, "")
  }

  function GroupAnchor(group: Id, company: Id): Tuple {
    Tuple("group", group, "company", "company", company, "")
  }

  /** The relations only the org service writes. */
  predicate OrgOwned(t: Tuple) {
    || (t.objectType == "company" && t.relation == "member")
    || (t.objectType == "member" && t.relation == "mapped_user")
    || (t.objectType == "position" && (t.relation == "holder" || t.relation == "company"))
    || (t.objectType == "group" && (t.relation == "member" || t.relation == "company"))
  }

  /** Some module binds an access tier to the position's holders. */
  predicate BoundToModule(tuples: set<Tuple>, position: Id) {
    exists t :: t in tuples && t.subjectType == "position" && t.subjectId == position && t.subjectRelation == "holder"
  }

  // ---- org units --------------------------------------------------------------------------------

  predicate RootIffCompany(isCompany: bool, parent: Option<Id>) {
    isCompany <==> parent.None?
  }

  function CreateOrgUnit(s: State, id: Id, isCompany: bool, parent: Option<Id>): Result {
    if id in s.units then Refused(Conflict)
    else if !RootIffCompany(isCompany, parent) then Refused(Invalid("parentId"))
    else if parent.Some? && parent.value !in s.units then Refused(Invalid("parentId"))
    else Committed(s.(units := s.units[id := OrgUnit(isCompany, parent)]))
  }

  ghost predicate SubtreeHasPositions(s: State, top: Id) {
    exists p :: p in s.positions && Under(s.units, top, s.positions[p].orgUnit)
  }

  /** The unit resolves to the same root company under its present and its new parent. */
  ghost predicate KeepsRoot(units: Units, id: Id, parent: Option<Id>) {
    exists root :: RootOf(units, id, root) && (if parent.None? then root == id else RootOf(units, parent.value, root))
  }

  /** The last refusal is the database's own cycle trigger; the one before it keeps positions inside their
      company. */
  ghost function UpdateOrgUnit(s: State, id: Id, parent: Option<Id>): Result {
    if parent == Some(id) then Refused(Invalid("parentId"))
    else if parent.Some? && InBoundedSubtree(s.units, id, parent.value) then Refused(Invalid("parentId"))
    else if id !in s.units then Refused(OrgUnitNotFound)
    else if !RootIffCompany(s.units[id].isCompany, parent) then Refused(Invalid("parentId"))
    else if parent == s.units[id].parent then Committed(s)
    else if parent.Some? && parent.value !in s.units then Refused(Unresolvable)
    else if !KeepsRoot(s.units, id, parent) && SubtreeHasPositions(s, id) then Refused(Invalid("parentId"))
    else if parent.Some? && Under(s.units, id, parent.value) then Refused(Invalid(NO_FIELD))
    else Committed(s.(units := Reparent(s.units, id, parent)))
  }

  predicate Referencing(s: State, id: Id) {
    || (exists p :: p in s.positions && (s.positions[p].orgUnit == id || s.positions[p].company == id))
    || (exists g :: g in s.groups && s.groups[g].company == id)
  }

  function DeleteOrgUnit(s: State, id: Id): Result {
    if exists x :: x in s.units && s.units[x].parent == Some(id) then Refused(OrgUnitHasChildren)
    else if exists m :: m in s.members && s.members[m].company == id then Refused(OrgUnitHasMembers)
    else if Referencing(s, id) then Refused(Referenced)
    else if id !in s.units then Refused(OrgUnitNotFound)
    else Committed(s.(units := s.units - {id}))
  }

  // ---- members ----------------------------------------------------------------------------------

  predicate IsCompany(units: Units, id: Id) {
    id in units && units[id].isCompany
  }

  function CreateMember(s: State, id: Id, company: Id, active: bool): Result {
    if id in s.members then Refused(Conflict)
    else if !IsCompany(s.units, company) then Refused(Invalid(NO_FIELD))
    else Committed(s.(
      members := s.members[id := Member(company, active, None)],
      tuples := if active then s.tuples + {CompanyMemberTuple(company, id)} else s.tuples))
  }

  function UpdateMember(s: State, id: Id, active: bool): Result {
    if id !in s.members then Refused(MemberNotFound)
    else
      var m := s.members[id];
      var t := CompanyMemberTuple(m.company, id);
      Committed(s.(
        members := s.members[id := m.(active := active)],
        tuples := if !m.active && active then s.tuples + {t}
                  else if m.active && !active then s.tuples - {t} else s.tuples))
  }

  ghost predicate KnownSub(users: map<Id, string>, kcSub: string) {
    exists u :: u in users && users[u] == kcSub
  }

  ghost function UserOf(users: map<Id, string>, kcSub: string): (u: Id)
    requires KnownSub(users, kcSub)
    ensures u in users && users[u] == kcSub
  {
    var u :| u in users && users[u] == kcSub;
    u
  }

  /** Another member of the company already carries the user. */
  predicate LinkTaken(members: map<Id, Member>, id: Id, user: Id)
    requires id in members
  {
    exists m :: m in members && m != id && members[m].company == members[id].company && members[m].user == Some(user)
  }

  /** `confirmed` is the identity service's answer about kcSub. The tuple of an earlier link is not revoked. */
  ghost function LinkUser(s: State, id: Id, kcSub: string, confirmed: bool): Result {
    if !confirmed || !KnownSub(s.users, kcSub) then Refused(UserNotConfirmed)
    else if id !in s.members then Refused(MemberNotFound)
    else if LinkTaken(s.members, id, UserOf(s.users, kcSub)) then Refused(Conflict)
    else if kcSub == "" then Refused(Unresolvable)
    else Committed(s.(
      members := s.members[id := s.members[id].(user := Some(UserOf(s.users, kcSub)))],
      tuples := s.tuples + {MappedUserTuple(id, kcSub)}))
  }

  function UnlinkUser(s: State, id: Id): Result {
    if id !in s.members then Refused(MemberNotFound)
    else
      var user := s.members[id].user;
      Committed(s.(
        members := s.members[id := s.members[id].(user := None)],
        tuples := if user.Some? && user.value in s.users && s.users[user.value] != ""
                  then s.tuples - {MappedUserTuple(id, s.users[user.value])} else s.tuples))
  }

  // ---- positions and assignments ------------------------------------------------------------------

  /** The unit's ancestor chain, the unit included, reaches the company. */
  ghost predicate UnitUnderCompany(units: Units, orgUnit: Id, company: Id) {
    orgUnit in units && Under(units, company, orgUnit)
  }

  ghost function CreatePosition(s: State, id: Id, company: Id, orgUnit: Id): Result {
    if id in s.positions then Refused(Conflict)
    else if !UnitUnderCompany(s.units, orgUnit, company) then Refused(Invalid("orgUnitId"))
    else if !IsCompany(s.units, company) then Refused(Invalid(NO_FIELD))
    else Committed(s.(
      positions := s.positions[id := Position(company, orgUnit)],
      tuples := s.tuples + {PositionAnchor(id, company)}))
  }

  ghost function UpdatePosition(s: State, id: Id, orgUnit: Id): Result {
    if id !in s.positions then Refused(PositionNotFound)
    else if !UnitUnderCompany(s.units, orgUnit, s.positions[id].company) then Refused(Invalid("orgUnitId"))
    else if !IsCompany(s.units, s.positions[id].company) then Refused(Invalid(NO_FIELD))
    else Committed(s.(positions := s.positions[id := s.positions[id].(orgUnit := orgUnit)]))
  }

  function DeletePosition(s: State, id: Id): Result {
    if id !in s.positions then Refused(PositionNotFound)
    else if BoundToModule(s.tuples, id) then Refused(PositionBound)
    else if exists a :: a in s.assignments && s.assignments[a].position == id then Refused(Referenced)
    else Committed(s.(
      positions := s.positions - {id},
      tuples := s.tuples - {PositionAnchor(id, s.positions[id].company)}))
  }

  /** The half-open window of the assignment contains the date. */
  predicate Covers(a: Assignment, date: Date) {
    a.validFrom <= date && (a.validTo.None? || date < a.validTo.value)
  }

  predicate Open(a: Assignment, position: Id, member: Id) {
    a.position == position && a.member == member && a.validTo.None?
  }

  predicate HeldBy(assignments: map<Id, Assignment>, position: Id, date: Date, id: Id) {
    id in assignments && assignments[id].position == position && Covers(assignments[id], date)
  }

  ghost predicate Held(assignments: map<Id, Assignment>, position: Id, date: Date) {
    exists id :: HeldBy(assignments, position, date, id)
  }

  ghost function Current(assignments: map<Id, Assignment>, position: Id, date: Date): (id: Id)
    requires Held(assignments, position, date)
    ensures HeldBy(assignments, position, date, id)
  {
    var id :| HeldBy(assignments, position, date, id);
    id
  }

  /** The checks AssignNow and Handover share: an active member of the position's company. */
  function AssignRefusal(s: State, position: Id, member: Id): Option<Refusal> {
    if member !in s.members then Some(MemberNotFound)
    else if !s.members[member].active then Some(MemberInactive)
    else if position !in s.positions then Some(PositionNotFound)
    else if s.positions[position].company != s.members[member].company then Some(CrossCompanyAssignment)
    else None
  }

  function OpenWindow(s: State, id: Id, position: Id, member: Id): State {
    s.(assignments := s.assignments[id := Assignment(position, member, s.today, None)],
       tuples := s.tuples + {HolderTuple(position, member)})
  }

  /** Another open window of the same position and member. */
  predicate HasOtherOpen(s: State, id: Id)
    requires id in s.assignments
  {
    var a := s.assignments[id];
    exists other :: other in s.assignments && other != id && Open(s.assignments[other], a.position, a.member)
  }

  /** Close the window today; the holder tuple goes unless another open window of the pair still confers it. */
  function CloseWindow(s: State, id: Id): State
    requires id in s.assignments
  {
    var a := s.assignments[id];
    s.(assignments := s.assignments[id := a.(validTo := Some(s.today))],
       tuples := if HasOtherOpen(s, id) then s.tuples else s.tuples - {HolderTuple(a.position, a.member)})
  }

  ghost function AssignNow(s: State, id: Id, position: Id, member: Id): Result {
    var refusal := AssignRefusal(s, position, member);
    if id in s.assignments then Refused(Conflict)
    else if refusal.Some? then Refused(refusal.value)
    else if Held(s.assignments, position, s.today) then
      var held := Current(s.assignments, position, s.today);
      Refused(PositionHeld(held, s.assignments[held].member))
    else Committed(OpenWindow(s, id, position, member))
  }

  function EndAssignment(s: State, id: Id): Result {
    if id !in s.assignments then Refused(AssignmentNotFound)
    else if s.assignments[id].validTo.Some? then Refused(AssignmentAlreadyEnded)
    else if s.today < s.assignments[id].validFrom then Refused(Invalid("validTo"))
    else Committed(CloseWindow(s, id))
  }

  ghost function Handover(s: State, id: Id, position: Id, member: Id, expected: Option<Id>): Result {
    var refusal := AssignRefusal(s, position, member);
    if id in s.assignments then Refused(Conflict)
    else if refusal.Some? then Refused(refusal.value)
    else if !Held(s.assignments, position, s.today) then Refused(Invalid("positionId"))
    else
      var held := Current(s.assignments, position, s.today);
      if s.assignments[held].member == member then Committed(s)
      else if expected.Some? && expected.value != held then Refused(PositionHeld(held, s.assignments[held].member))
      else Committed(OpenWindow(CloseWindow(s, held), id, position, member))
  }

  /** The new position gets no anchor, and its holder tuple only when the window covers today. */
  ghost function CreateAndAssign(s: State, positionId: Id, id: Id, company: Id, orgUnit: Id, member: Id,
                                 validFrom: Date, validTo: Option<Date>): Result {
    var a := Assignment(positionId, member, validFrom, validTo);
    if positionId in s.positions || id in s.assignments then Refused(Conflict)
    else if s.today < validFrom then Refused(Invalid("validFrom"))
    else if !UnitUnderCompany(s.units, orgUnit, company) then Refused(Invalid("orgUnitId"))
    else if member in s.members && s.members[member].company != company then Refused(CrossCompanyAssignment)
    else if !IsCompany(s.units, company) || member !in s.members then Refused(Invalid(NO_FIELD))
    else if validTo.Some? && validTo.value < validFrom then Refused(Invalid("validFrom"))
    else Committed(WithFirstWindow(s, Position(company, orgUnit), id, a))
  }

  function WithFirstWindow(s: State, p: Position, id: Id, a: Assignment): State {
    s.(positions := s.positions[a.position := p],
       assignments := s.assignments[id := a],
       tuples := if Covers(a, s.today) then s.tuples + {HolderTuple(a.position, a.member)} else s.tuples)
  }

  // ---- groups -----------------------------------------------------------------------------------

  const KIBAN := "kiban"

  function CreateGroup(s: State, id: Id, company: Id): Result {
    if id in s.groups then Refused(Conflict)
    else if !IsCompany(s.units, company) then Refused(Invalid(NO_FIELD))
    else Committed(s.(groups := s.groups[id := Group(company, KIBAN)], tuples := s.tuples + {GroupAnchor(id, company)}))
  }

  function AddGroupMember(s: State, group: Id, member: Id): Result {
    if group !in s.groups then Refused(GroupNotFound)
    else if s.groups[group].source != KIBAN then Refused(GroupExternallyManaged)
    else if member !in s.members then Refused(MemberNotFound)
    else if !s.members[member].active then Refused(MemberInactive)
    else if s.members[member].company != s.groups[group].company then Refused(CrossCompanyAssignment)
    else Committed(s.(
      groupMembers := s.groupMembers + {(group, member)},
      tuples := s.tuples + {GroupMemberTuple(group, member)}))
  }

  function RemoveGroupMember(s: State, group: Id, member: Id): Result {
    if group !in s.groups then Refused(GroupNotFound)
    else if s.groups[group].source != KIBAN then Refused(GroupExternallyManaged)
    else if (group, member) !in s.groupMembers then Refused(GroupMemberNotFound)
    else Committed(s.(
      groupMembers := s.groupMembers - {(group, member)},
      tuples := s.tuples - {GroupMemberTuple(group, member)}))
  }

  // ---- runs -------------------------------------------------------------------------------------

  datatype Op =
    | OpCreateOrgUnit(id: Id, isCompany: bool, parent: Option<Id>)
    | OpUpdateOrgUnit(id: Id, parent: Option<Id>)
    | OpDeleteOrgUnit(id: Id)
    | OpCreateMember(id: Id, company: Id, active: bool)
    | OpUpdateMember(id: Id, active: bool)
    | OpLinkUser(id: Id, kcSub: string, confirmed: bool)
    | OpUnlinkUser(id: Id)
    | OpCreatePosition(id: Id, company: Id, orgUnit: Id)
    | OpUpdatePosition(id: Id, orgUnit: Id)
    | OpDeletePosition(id: Id)
    | OpAssignNow(id: Id, position: Id, member: Id)
    | OpEndAssignment(id: Id)
    | OpHandover(id: Id, position: Id, member: Id, expected: Option<Id>)
    | OpCreateAndAssign(positionId: Id, id: Id, company: Id, orgUnit: Id, member: Id, validFrom: Date,
      validTo: Option<Date>)
    | OpCreateGroup(id: Id, company: Id)
    | OpAddGroupMember(group: Id, member: Id)
    | OpRemoveGroupMember(group: Id, member: Id)
    | Tomorrow(days: nat)                        // the clock never runs backwards
    | NewUser(id: Id, kcSub: string)             // identity creates an account; kcSub is unique there
    | OtherServices(tuples: set<Tuple>)          // any tuple writes outside the relations org owns

  ghost function Apply(s: State, op: Op): Result {
    match op
    case OpCreateOrgUnit(id, isCompany, parent) => CreateOrgUnit(s, id, isCompany, parent)
    case OpUpdateOrgUnit(id, parent) => UpdateOrgUnit(s, id, parent)
    case OpDeleteOrgUnit(id) => DeleteOrgUnit(s, id)
    case OpCreateMember(id, company, active) => CreateMember(s, id, company, active)
    case OpUpdateMember(id, active) => UpdateMember(s, id, active)
    case OpLinkUser(id, kcSub, confirmed) => LinkUser(s, id, kcSub, confirmed)
    case OpUnlinkUser(id) => UnlinkUser(s, id)
    case OpCreatePosition(id, company, orgUnit) => CreatePosition(s, id, company, orgUnit)
    case OpUpdatePosition(id, orgUnit) => UpdatePosition(s, id, orgUnit)
    case OpDeletePosition(id) => DeletePosition(s, id)
    case OpAssignNow(id, position, member) => AssignNow(s, id, position, member)
    case OpEndAssignment(id) => EndAssignment(s, id)
    case OpHandover(id, position, member, expected) => Handover(s, id, position, member, expected)
    case OpCreateAndAssign(positionId, id, company, orgUnit, member, validFrom, validTo) =>
      CreateAndAssign(s, positionId, id, company, orgUnit, member, validFrom, validTo)
    case OpCreateGroup(id, company) => CreateGroup(s, id, company)
    case OpAddGroupMember(group, member) => AddGroupMember(s, group, member)
    case OpRemoveGroupMember(group, member) => RemoveGroupMember(s, group, member)
    case Tomorrow(days) => Committed(s.(today := s.today + days))
    case NewUser(id, kcSub) =>
      if id in s.users || KnownSub(s.users, kcSub) then Refused(Conflict)
      else Committed(s.(users := s.users[id := kcSub]))
    case OtherServices(tuples) =>
      if forall t :: OrgOwned(t) ==> (t in tuples <==> t in s.tuples) then Committed(s.(tuples := tuples))
      else Refused(Conflict)
  }

  /** The state after the operation: a refused one changes nothing. */
  ghost function Next(s: State, op: Op): State {
    match Apply(s, op)
    case Committed(t) => t
    case Refused(_) => s
  }

  ghost function Run(s: State, ops: seq<Op>): State
    decreases |ops|
  {
    if ops == [] then s else Run(Next(s, ops[0]), ops[1..])
  }
}
