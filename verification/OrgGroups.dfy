/** Group membership rows and tuples, and the company anchors of positions and groups. */
module OrgGroups {
  import opened OrgTree
  import opened Org
  import opened OrgTuples

  // ---- group membership -----------------------------------------------------------------------------

  /** Membership rows and membership tuples are the same set, and a row joins a group and a member of one company. */
  ghost predicate GroupInv(s: State) {
    && (forall g, m :: (g, m) in s.groupMembers <==> GroupMemberTuple(g, m) in s.tuples)
    && (forall t :: t in s.tuples && On(t, "group", "member") ==> t == GroupMemberTuple(t.objectId, t.subjectId))
    && (forall g, m :: (g, m) in s.groupMembers ==>
          g in s.groups && m in s.members && s.groups[g].company == s.members[m].company)
  }

  predicate TouchesGroups(op: Op) {
    op.OpCreateGroup? || op.OpAddGroupMember? || op.OpRemoveGroupMember?
  }

  lemma GroupFrame(s: State, op: Op)
    requires !TouchesGroups(op)
    ensures SameOn(s, Next(s, op), "group", "member") && SameOn(s, Next(s, op), "group", "company")
    ensures Next(s, op).groups == s.groups && Next(s, op).groupMembers == s.groupMembers
  {
    hide Next, SameOn;
    NamesDiffer();
    SameUnlessWritten(s, op, "group", "member");
    SameUnlessWritten(s, op, "group", "company");
    GroupRowsFrame(s, op);
  }

  lemma GroupRowsFrame(s: State, op: Op)
    requires !TouchesGroups(op)
    ensures Next(s, op).groups == s.groups && Next(s, op).groupMembers == s.groupMembers
  {
    hide Under, InBoundedSubtree, KeepsRoot, SubtreeHasPositions, Referencing, BoundToModule, LinkTaken, IsCompany,
        AssignRefusal, Held, Covers, UnitUnderCompany;
  }

  /** Members are never removed and never change company. */
  lemma MembersStay(s: State, op: Op)
    ensures forall m :: m in s.members ==>
      m in Next(s, op).members && Next(s, op).members[m].company == s.members[m].company
  {
    hide Under, InBoundedSubtree, KeepsRoot, SubtreeHasPositions, Referencing, BoundToModule, LinkTaken, IsCompany,
        AssignRefusal, Held, Covers, UnitUnderCompany;
  }

  lemma GroupOpsKeepGroups(s: State, op: Op)
    requires GroupInv(s) && TouchesGroups(op)
    ensures GroupInv(Next(s, op))
  {
  }

  lemma StepKeepsGroups(s: State, op: Op)
    requires GroupInv(s)
    ensures GroupInv(Next(s, op))
  {
    if TouchesGroups(op) {
      GroupOpsKeepGroups(s, op);
    } else {
      GroupFrame(s, op);
      MembersStay(s, op);
    }
  }

  /** A group another system owns: neither its row nor its membership changes in a step. */
  lemma StepKeepsExternal(s: State, op: Op, group: Id)
    requires group in s.groups && s.groups[group].source != KIBAN
    ensures group in Next(s, op).groups && Next(s, op).groups[group] == s.groups[group]
    ensures forall m :: (group, m) in Next(s, op).groupMembers <==> (group, m) in s.groupMembers
  {
    if !TouchesGroups(op) {
      GroupFrame(s, op);
    }
  }

  // ---- company anchors ------------------------------------------------------------------------------

  /** No anchor is stale or foreign, and every group carries its own. */
  ghost predicate AnchorInv(s: State) {
    && (forall t :: t in s.tuples && On(t, "position", "company") ==>
          t.objectId in s.positions && t == PositionAnchor(t.objectId, s.positions[t.objectId].company))
    && (forall t :: t in s.tuples && On(t, "group", "company") ==>
          t.objectId in s.groups && t == GroupAnchor(t.objectId, s.groups[t.objectId].company))
    && (forall g {:trigger s.groups[g]} :: g in s.groups ==> GroupAnchor(g, s.groups[g].company) in s.tuples)
  }

  /** Every position carries its anchor too. */
  ghost predicate AnchorsExact(s: State) {
    && AnchorInv(s)
    && forall p {:trigger s.positions[p]} :: p in s.positions ==> PositionAnchor(p, s.positions[p].company) in s.tuples
  }

  predicate TouchesPositions(op: Op) {
    op.OpCreatePosition? || op.OpUpdatePosition? || op.OpDeletePosition? || op.OpCreateAndAssign?
  }

  lemma PositionFrame(s: State, op: Op)
    requires !TouchesPositions(op)
    ensures SameOn(s, Next(s, op), "position", "company") && Next(s, op).positions == s.positions
  {
    hide Next, SameOn;
    NamesDiffer();
    SameUnlessWritten(s, op, "position", "company");
    PositionRowsFrame(s, op);
  }

  lemma PositionRowsFrame(s: State, op: Op)
    requires !TouchesPositions(op)
    ensures Next(s, op).positions == s.positions
  {
    hide Under, InBoundedSubtree, KeepsRoot, SubtreeHasPositions, Referencing, BoundToModule, LinkTaken, IsCompany,
        AssignRefusal, Held, Covers, UnitUnderCompany;
  }

  lemma CreatePositionKeepsAnchors(s: State, id: Id, company: Id, orgUnit: Id, t: State)
    requires AnchorInv(s) && CreatePosition(s, id, company, orgUnit) == Committed(t)
    ensures AnchorInv(t) && (AnchorsExact(s) ==> AnchorsExact(t))
  {
  }

  lemma UpdatePositionKeepsAnchors(s: State, id: Id, orgUnit: Id, t: State)
    requires AnchorInv(s) && UpdatePosition(s, id, orgUnit) == Committed(t)
    ensures AnchorInv(t) && (AnchorsExact(s) ==> AnchorsExact(t))
  {
  }

  lemma DeletePositionKeepsAnchors(s: State, id: Id, t: State)
    requires AnchorInv(s) && DeletePosition(s, id) == Committed(t)
    ensures AnchorInv(t) && (AnchorsExact(s) ==> AnchorsExact(t))
  {
  }

  lemma FirstWindowKeepsAnchors(s: State, p: Position, id: Id, a: Assignment)
    requires AnchorInv(s) && a.position !in s.positions
    ensures AnchorInv(WithFirstWindow(s, p, id, a))
  {
  }

  lemma PositionOpsKeepAnchors(s: State, op: Op)
    requires AnchorInv(s) && TouchesPositions(op)
    ensures AnchorInv(Next(s, op))
    ensures AnchorsExact(s) && !op.OpCreateAndAssign? ==> AnchorsExact(Next(s, op))
  {
    hide AnchorInv, AnchorsExact, CreatePosition, UpdatePosition, DeletePosition, UnitUnderCompany, WithFirstWindow;
    if Apply(s, op).Committed? {
      var t := Next(s, op);
      match op
      case OpCreatePosition(id, company, orgUnit) => CreatePositionKeepsAnchors(s, id, company, orgUnit, t);
      case OpUpdatePosition(id, orgUnit) => UpdatePositionKeepsAnchors(s, id, orgUnit, t);
      case OpDeletePosition(id) => DeletePositionKeepsAnchors(s, id, t);
      case OpCreateAndAssign(p, id, company, orgUnit, member, from, to) =>
        FirstWindowKeepsAnchors(s, Position(company, orgUnit), id, Assignment(p, member, from, to));
    }
  }

  lemma GroupOpsKeepAnchors(s: State, op: Op)
    requires AnchorInv(s) && TouchesGroups(op)
    ensures AnchorInv(Next(s, op)) && (AnchorsExact(s) ==> AnchorsExact(Next(s, op)))
  {
    PositionFrame(s, op);
  }

  /** Creating a position together with its first assignment is the one step that leaves a position unanchored. */
  lemma CreateAndAssignUnanchored(s: State, op: Op)
    requires AnchorInv(s) && op.OpCreateAndAssign? && Apply(s, op).Committed?
    ensures AnchorInv(Next(s, op)) && !AnchorsExact(Next(s, op))
  {
    PositionOpsKeepAnchors(s, op);
    var t := Next(s, op);
    var anchor := PositionAnchor(op.positionId, op.company);
    assert op.positionId in t.positions && t.positions[op.positionId].company == op.company;
    assert On(anchor, "position", "company") && anchor !in s.tuples;
  }

  lemma StepKeepsAnchors(s: State, op: Op)
    requires AnchorInv(s)
    ensures AnchorInv(Next(s, op))
    ensures AnchorsExact(s) ==> (AnchorsExact(Next(s, op)) <==> !(op.OpCreateAndAssign? && Apply(s, op).Committed?))
  {
    if TouchesPositions(op) {
      PositionOpsKeepAnchors(s, op);
      if op.OpCreateAndAssign? && Apply(s, op).Committed? { CreateAndAssignUnanchored(s, op); }
    } else if TouchesGroups(op) {
      GroupOpsKeepAnchors(s, op);
    } else {
      PositionFrame(s, op);
      GroupFrame(s, op);
    }
  }
}
