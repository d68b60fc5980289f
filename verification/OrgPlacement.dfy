/** What every run of the org store keeps about the tree: the forest shape, and every position inside its company. */
module OrgPlacement {
  import opened Options
  import opened OrgTree
  import opened Org

  /** Every position sits at an existing unit, and its company is company-typed and the root of that unit. */
  ghost predicate Placed(s: State) {
    forall p {:trigger s.positions[p]} :: p in s.positions ==> PlacedAt(s.units, s.positions[p])
  }

  ghost predicate PlacedAt(units: Units, p: Position) {
    p.orgUnit in units && IsCompany(units, p.company) && RootOf(units, p.orgUnit, p.company)
  }

  ghost predicate TreeInv(s: State) {
    Forest(s.units) && Placed(s)
  }

  /** A company-typed unit found on the chain of a unit of a forest is its root. */
  lemma UnderCompanyIsRoot(units: Units, orgUnit: Id, company: Id)
    requires Forest(units) && UnitUnderCompany(units, orgUnit, company) && IsCompany(units, company)
    ensures PlacedAt(units, Position(company, orgUnit))
  {
    var k: nat :| Ancestor(units, orgUnit, k) == Some(company);
    AncestorExists(units, orgUnit, k);
  }

  lemma CreateUnitKeepsTree(s: State, id: Id, isCompany: bool, parent: Option<Id>)
    requires TreeInv(s)
    ensures TreeInv(Next(s, OpCreateOrgUnit(id, isCompany, parent)))
  {
    if CreateOrgUnit(s, id, isCompany, parent).Committed? {
      AddKeepsForest(s.units, id, OrgUnit(isCompany, parent));
    }
  }

  lemma DeleteUnitKeepsTree(s: State, id: Id)
    requires TreeInv(s)
    ensures TreeInv(Next(s, OpDeleteOrgUnit(id)))
  {
    if DeleteOrgUnit(s, id).Committed? {
      RemoveKeepsForest(s.units, id);
    }
  }

  /** A move keeps every position inside its company: either the subtree keeps its root, or it holds no position. */
  lemma MoveUnitKeepsTree(s: State, id: Id, parent: Option<Id>)
    requires TreeInv(s)
    ensures TreeInv(Next(s, OpUpdateOrgUnit(id, parent)))
  {
    if UpdateOrgUnit(s, id, parent).Committed? && parent != s.units[id].parent {
      MoveKeepsGrounded(s.units, id, parent.value);
      forall p | p in s.positions
        ensures PlacedAt(Reparent(s.units, id, parent), s.positions[p])
      {
        MovedPositionStays(s, id, parent.value, p);
      }
    }
  }

  lemma MovedPositionStays(s: State, id: Id, parent: Id, p: Id)
    requires TreeInv(s) && p in s.positions
    requires id in s.units && s.units[id].parent.Some? && parent in s.units && !Under(s.units, id, parent)
    requires KeepsRoot(s.units, id, Some(parent)) || !SubtreeHasPositions(s, id)
    ensures PlacedAt(Reparent(s.units, id, Some(parent)), s.positions[p])
  {
    var q := s.positions[p];
    assert PlacedAt(s.units, q);
    if Under(s.units, id, q.orgUnit) {
      var root :| RootOf(s.units, id, root) && RootOf(s.units, parent, root);
      RootThroughAncestor(s.units, q.orgUnit, id, root);
      RootUnique(s.units, q.orgUnit, root, q.company);
    }
    MovedRoot(s.units, id, parent, q.orgUnit, q.company);
  }

  lemma PositionOpsKeepTree(s: State, op: Op)
    requires TreeInv(s)
    requires op.OpCreatePosition? || op.OpUpdatePosition? || op.OpDeletePosition? || op.OpCreateAndAssign?
    ensures TreeInv(Next(s, op))
  {
    match op
    case OpCreatePosition(id, company, orgUnit) =>
      if Apply(s, op).Committed? { UnderCompanyIsRoot(s.units, orgUnit, company); }
    case OpUpdatePosition(id, orgUnit) =>
      if Apply(s, op).Committed? { UnderCompanyIsRoot(s.units, orgUnit, s.positions[id].company); }
    case OpCreateAndAssign(positionId, id, company, orgUnit, member, validFrom, validTo) =>
      if Apply(s, op).Committed? { UnderCompanyIsRoot(s.units, orgUnit, company); }
    case OpDeletePosition(id) =>
  }

  predicate TouchesTree(op: Op) {
    || op.OpCreateOrgUnit? || op.OpUpdateOrgUnit? || op.OpDeleteOrgUnit?
    || op.OpCreatePosition? || op.OpUpdatePosition? || op.OpDeletePosition? || op.OpCreateAndAssign?
  }

  lemma TreeFrame(s: State, op: Op)
    ensures TouchesTree(op) || (Next(s, op).units == s.units && Next(s, op).positions == s.positions)
  {
  }

  lemma UnitsFrame(s: State, op: Op)
    ensures op.OpCreateOrgUnit? || op.OpUpdateOrgUnit? || op.OpDeleteOrgUnit? || Next(s, op).units == s.units
  {
  }

  lemma StepKeepsTree(s: State, op: Op)
    requires TreeInv(s)
    ensures TreeInv(Next(s, op))
  {
    if !TouchesTree(op) {
      TreeFrame(s, op);
    } else if op.OpCreateOrgUnit? {
      CreateUnitKeepsTree(s, op.id, op.isCompany, op.parent);
    } else if op.OpUpdateOrgUnit? {
      MoveUnitKeepsTree(s, op.id, op.parent);
    } else if op.OpDeleteOrgUnit? {
      DeleteUnitKeepsTree(s, op.id);
    } else {
      PositionOpsKeepTree(s, op);
    }
  }

  /** A step never moves a company, and never turns a unit into one or a company into a plain unit. */
  lemma StepKeepsCompanies(s: State, op: Op, id: Id)
    requires TreeInv(s) && id in s.units && id in Next(s, op).units
    ensures Next(s, op).units[id].isCompany == s.units[id].isCompany
    ensures s.units[id].isCompany ==> Next(s, op).units[id] == s.units[id]
  {
    UnitsFrame(s, op);
  }

  /** Every run keeps the forest and the placement, so after any run every unit has exactly one root company and
      the company of a position is the root of the position's unit. */
  lemma {:induction false} RunKeepsTree(s: State, ops: seq<Op>)
    requires TreeInv(s)
    ensures TreeInv(Run(s, ops))
    decreases |ops|
  {
    if ops != [] {
      StepKeepsTree(s, ops[0]);
      RunKeepsTree(Next(s, ops[0]), ops[1..]);
    }
  }

  /** After any run a position's company is company-typed and the one root of the position's unit. */
  lemma AfterAnyRun(s: State, ops: seq<Op>, p: Id)
    requires TreeInv(s) && p in Run(s, ops).positions
    ensures
      var end := Run(s, ops);
      var q := end.positions[p];
      && IsCompany(end.units, q.company)
      && (forall r :: RootOf(end.units, q.orgUnit, r) <==> r == q.company)
  {
    RunKeepsTree(s, ops);
    var end := Run(s, ops);
    assert PlacedAt(end.units, end.positions[p]);
    var root := OneRoot(end.units, end.positions[p].orgUnit);
  }
}
