/**
 What every run keeps about position assignments: at most one holder per date, a history that is never
 rewritten, and holder tuples that agree with the open windows.
 */
module OrgAssignments {
  import opened Options
  import opened OrgTree
  import opened Org

  ghost predicate Disjoint(a: Assignment, b: Assignment) {
    forall date :: !(Covers(a, date) && Covers(b, date))
  }

  /** Assignments refer to existing rows, none starts in the future, and the windows of a position are disjoint. */
  ghost predicate WindowInv(s: State) {
    && (forall id {:trigger s.assignments[id]} :: id in s.assignments ==>
          && s.assignments[id].position in s.positions
          && s.assignments[id].member in s.members
          && s.assignments[id].validFrom <= s.today)
    && DisjointWindows(s.assignments)
  }

  ghost predicate DisjointWindows(assignments: map<Id, Assignment>) {
    forall i, j {:trigger assignments[i], assignments[j]} ::
      i in assignments && j in assignments && i != j && assignments[i].position == assignments[j].position ==>
      Disjoint(assignments[i], assignments[j])
  }

  /** "Who holds the position on that date" has at most one answer. */
  lemma OneHolder(s: State, position: Id, date: Date, i: Id, j: Id)
    requires WindowInv(s) && HeldBy(s.assignments, position, date, i) && HeldBy(s.assignments, position, date, j)
    ensures i == j
  {
  }

  predicate TouchesWindows(op: Op) {
    op.OpAssignNow? || op.OpEndAssignment? || op.OpHandover? || op.OpCreateAndAssign?
  }

  lemma WindowFrame(s: State, op: Op)
    requires WindowInv(s) && !TouchesWindows(op)
    ensures Next(s, op).assignments == s.assignments && s.today <= Next(s, op).today
    ensures s.members.Keys <= Next(s, op).members.Keys
    ensures forall p :: p in s.positions && p !in Next(s, op).positions ==>
      forall a :: a in s.assignments ==> s.assignments[a].position != p
  {
    hide Under, InBoundedSubtree, KeepsRoot, SubtreeHasPositions, Referencing, BoundToModule, LinkTaken, IsCompany,
        UnitUnderCompany;
  }

  /** A window that does not cover today, though it started by today, is over. */
  lemma OpenKeepsWindows(s: State, id: Id, position: Id, member: Id)
    requires WindowInv(s) && id !in s.assignments && position in s.positions && member in s.members
    requires !Held(s.assignments, position, s.today)
    ensures WindowInv(OpenWindow(s, id, position, member))
  {
    forall i | i in s.assignments && s.assignments[i].position == position
      ensures Disjoint(s.assignments[i], Assignment(position, member, s.today, None))
    {
      assert !HeldBy(s.assignments, position, s.today, i);
    }
  }

  lemma CloseKeepsWindows(s: State, id: Id)
    requires WindowInv(s) && id in s.assignments
    requires s.assignments[id].validTo.None? || s.today < s.assignments[id].validTo.value
    ensures WindowInv(CloseWindow(s, id))
    ensures !HeldBy(CloseWindow(s, id).assignments, s.assignments[id].position, s.today, id)
  {
    forall i | i in s.assignments && i != id && s.assignments[i].position == s.assignments[id].position
      ensures Disjoint(s.assignments[i], CloseWindow(s, id).assignments[id])
    {
      assert Disjoint(s.assignments[i], s.assignments[id]);
    }
  }

  /** Closing the current window leaves the position free today. */
  lemma CloseFrees(s: State, position: Id, held: Id)
    requires WindowInv(s) && HeldBy(s.assignments, position, s.today, held)
    ensures WindowInv(CloseWindow(s, held))
    ensures !Held(CloseWindow(s, held).assignments, position, s.today)
  {
    CloseKeepsWindows(s, held);
    forall i
      ensures !HeldBy(CloseWindow(s, held).assignments, position, s.today, i)
    {
      if i != held && HeldBy(s.assignments, position, s.today, i) {
        OneHolder(s, position, s.today, i, held);
      }
    }
  }

  /** Ending the current window and opening one for the successor, the two halves of a handover. */
  lemma ReplaceKeepsWindows(s: State, held: Id, id: Id, position: Id, member: Id)
    requires WindowInv(s) && HeldBy(s.assignments, position, s.today, held)
    requires id !in s.assignments && member in s.members
    ensures WindowInv(OpenWindow(CloseWindow(s, held), id, position, member))
  {
    CloseFrees(s, position, held);
    OpenKeepsWindows(CloseWindow(s, held), id, position, member);
  }

  lemma FirstKeepsWindows(s: State, p: Position, id: Id, a: Assignment)
    requires WindowInv(s) && a.position !in s.positions && id !in s.assignments && a.member in s.members &&
      a.validFrom <= s.today
    ensures WindowInv(WithFirstWindow(s, p, id, a))
  {
  }

  lemma WindowOpsKeepWindows(s: State, op: Op)
    requires WindowInv(s) && TouchesWindows(op)
    ensures WindowInv(Next(s, op))
  {
    hide WindowInv, UnitUnderCompany, OpenWindow, CloseWindow, WithFirstWindow;
    if Apply(s, op).Committed? {
      match op
      case OpAssignNow(id, position, member) => OpenKeepsWindows(s, id, position, member);
      case OpEndAssignment(id) => CloseKeepsWindows(s, id);
      case OpHandover(id, position, member, expected) =>
        var held := Current(s.assignments, position, s.today);
        if s.assignments[held].member != member {
          ReplaceKeepsWindows(s, held, id, position, member);
        }
      case OpCreateAndAssign(p, id, company, orgUnit, member, from, to) =>
        FirstKeepsWindows(s, Position(company, orgUnit), id, Assignment(p, member, from, to));
    }
  }

  lemma StepKeepsWindows(s: State, op: Op)
    requires WindowInv(s)
    ensures WindowInv(Next(s, op))
  {
    if TouchesWindows(op) {
      WindowOpsKeepWindows(s, op);
    } else {
      WindowFrame(s, op);
    }
  }

  lemma {:induction false} RunKeepsWindows(s: State, ops: seq<Op>)
    requires WindowInv(s)
    ensures WindowInv(Run(s, ops))
    decreases |ops|
  {
    if ops != [] {
      StepKeepsWindows(s, ops[0]);
      RunKeepsWindows(Next(s, ops[0]), ops[1..]);
    }
  }

  /** After any run "who holds the position on that date" has at most one answer. */
  lemma RunHasOneHolder(s: State, ops: seq<Op>, position: Id, date: Date, i: Id, j: Id)
    requires WindowInv(s)
    requires HeldBy(Run(s, ops).assignments, position, date, i) && HeldBy(Run(s, ops).assignments, position, date, j)
    ensures i == j
  {
    RunKeepsWindows(s, ops);
    OneHolder(Run(s, ops), position, date, i, j);
  }

  // ---- history ----------------------------------------------------------------------------------

  /** The position has an assignment row; such a position can no longer be deleted. */
  ghost predicate HasRow(s: State, position: Id) {
    exists a :: a in s.assignments && s.assignments[a].position == position
  }

  ghost predicate SameHistory(s: State, t: State, position: Id, before: Date) {
    forall date, id :: date < before ==>
      (HeldBy(t.assignments, position, date, id) <==> HeldBy(s.assignments, position, date, id))
  }

  lemma RowIsOfPosition(s: State, position: Id)
    requires WindowInv(s) && HasRow(s, position)
    ensures position in s.positions
  {
  }

  /** A position stays unless it is deleted, and one with an assignment row is not. */
  lemma PositionStays(s: State, op: Op, position: Id)
    requires position in s.positions && (HasRow(s, position) || op != OpDeletePosition(position))
    ensures position in Next(s, op).positions
  {
    hide Under, InBoundedSubtree, KeepsRoot, SubtreeHasPositions, Referencing, BoundToModule, LinkTaken, IsCompany;
    hide UnitUnderCompany, Held, Covers, AssignRefusal, HasOtherOpen, KnownSub, RootIffCompany;
  }

  lemma StepKeepsHistory(s: State, op: Op, position: Id)
    requires WindowInv(s) && position in s.positions && (HasRow(s, position) || op != OpDeletePosition(position))
    ensures SameHistory(s, Next(s, op), position, s.today) && position in Next(s, op).positions
    ensures HasRow(s, position) ==> HasRow(Next(s, op), position)
    ensures s.today <= Next(s, op).today
  {
    hide Next;
    PositionStays(s, op, position);
    if TouchesWindows(op) {
      WindowOpsKeepHistory(s, op, position);
    } else {
      WindowFrame(s, op);
    }
    if a :| a in s.assignments && s.assignments[a].position == position {
      assert a in Next(s, op).assignments && Next(s, op).assignments[a].position == position;
    }
  }

  ghost predicate KeepsRows(s: State, t: State) {
    && t.today == s.today
    && forall a :: a in s.assignments ==> a in t.assignments && t.assignments[a].position == s.assignments[a].position
  }

  lemma ReplaceKeepsHistory(s: State, held: Id, id: Id, p: Id, member: Id, position: Id)
    requires id !in s.assignments && HeldBy(s.assignments, p, s.today, held)
    ensures SameHistory(s, OpenWindow(CloseWindow(s, held), id, p, member), position, s.today)
    ensures KeepsRows(s, OpenWindow(CloseWindow(s, held), id, p, member))
  {
    CloseKeepsHistory(s, held, position);
    OpenKeepsHistory(CloseWindow(s, held), id, p, member, position);
  }

  lemma WindowOpsKeepHistory(s: State, op: Op, position: Id)
    requires WindowInv(s) && TouchesWindows(op) && position in s.positions
    ensures SameHistory(s, Next(s, op), position, s.today) && KeepsRows(s, Next(s, op))
  {
    hide WindowInv, HasRow, SameHistory, KeepsRows, UnitUnderCompany, OpenWindow, CloseWindow, WithFirstWindow;
    Unchanged(s, position);
    if Apply(s, op).Committed? {
      match op
      case OpAssignNow(id, p, member) => OpenKeepsHistory(s, id, p, member, position);
      case OpEndAssignment(id) => CloseKeepsHistory(s, id, position);
      case OpHandover(id, p, member, expected) =>
        var held := Current(s.assignments, p, s.today);
        if s.assignments[held].member != member {
          ReplaceKeepsHistory(s, held, id, p, member, position);
        }
      case OpCreateAndAssign(p, id, company, orgUnit, member, from, to) =>
        AddedElsewhere(s, Position(company, orgUnit), id, Assignment(p, member, from, to), position);
    }
  }

  lemma Unchanged(s: State, position: Id)
    ensures SameHistory(s, s, position, s.today) && KeepsRows(s, s)
  {
  }

  /** A window of a position that had no row before is not in another position's history. */
  lemma AddedElsewhere(s: State, p: Position, id: Id, a: Assignment, position: Id)
    requires position in s.positions && id !in s.assignments && a.position !in s.positions
    ensures SameHistory(s, WithFirstWindow(s, p, id, a), position, s.today) &&
      KeepsRows(s, WithFirstWindow(s, p, id, a))
  {
  }

  lemma OpenKeepsHistory(s: State, id: Id, p: Id, member: Id, position: Id)
    requires id !in s.assignments
    ensures SameHistory(s, OpenWindow(s, id, p, member), position, s.today) &&
      KeepsRows(s, OpenWindow(s, id, p, member))
  {
  }

  lemma CloseKeepsHistory(s: State, id: Id, position: Id)
    requires id in s.assignments && (s.assignments[id].validTo.None? || s.today < s.assignments[id].validTo.value)
    ensures SameHistory(s, CloseWindow(s, id), position, s.today) && KeepsRows(s, CloseWindow(s, id))
  {
  }

  /** The past is never rewritten: no run changes who held a position on any date before the run began, unless it
      deletes the position, which it cannot once the position has an assignment row. */
  lemma {:induction false} RunKeepsHistory(s: State, ops: seq<Op>, position: Id)
    requires WindowInv(s) && (HasRow(s, position) || (position in s.positions && OpDeletePosition(position) !in ops))
    ensures SameHistory(s, Run(s, ops), position, s.today)
    decreases |ops|
  {
    if ops != [] {
      hide Next, HasRow;
      var t := Next(s, ops[0]);
      if HasRow(s, position) { RowIsOfPosition(s, position); }
      StepKeepsHistory(s, ops[0], position);
      StepKeepsWindows(s, ops[0]);
      RunKeepsHistory(t, ops[1..], position);
      forall date, id | date < s.today
        ensures HeldBy(Run(s, ops).assignments, position, date, id) <==> HeldBy(s.assignments, position, date, id)
      {
        assert HeldBy(t.assignments, position, date, id) <==> HeldBy(s.assignments, position, date, id);
        assert HeldBy(Run(t, ops[1..]).assignments, position, date, id) <==> HeldBy(t.assignments, position, date, id);
      }
    }
  }

  ghost predicate HoldsOn(s: State, position: Id, member: Id, date: Date) {
    exists id :: HeldBy(s.assignments, position, date, id) && s.assignments[id].member == member
  }

  /** After a committed handover the member holds every date from today on, exactly when they were not already the
      holder under a window with an end: handing a position to its present holder changes nothing. */
  lemma HandoverHolds(s: State, id: Id, position: Id, member: Id, expected: Option<Id>)
    requires WindowInv(s) && Handover(s, id, position, member, expected).Committed?
    ensures
      var t := Next(s, OpHandover(id, position, member, expected));
      var held := s.assignments[Current(s.assignments, position, s.today)];
      (forall date :: s.today <= date ==> HoldsOn(t, position, member, date))
        <==> (held.member != member || held.validTo.None?)
  {
    var t := Next(s, OpHandover(id, position, member, expected));
    var current := Current(s.assignments, position, s.today);
    var held := s.assignments[current];
    if held.member != member {
      forall date | s.today <= date
        ensures HoldsOn(t, position, member, date)
      {
        assert HeldBy(t.assignments, position, date, id);
      }
    } else if held.validTo.None? {
      forall date | s.today <= date
        ensures HoldsOn(t, position, member, date)
      {
        assert HeldBy(t.assignments, position, date, current);
      }
    } else {
      var last := held.validTo.value;
      if i :| HeldBy(s.assignments, position, last, i) {
        assert HeldBy(s.assignments, position, s.today, i);
        OneHolder(s, position, s.today, i, current);
      }
      assert !HoldsOn(t, position, member, last);
    }
  }
}
