/** The recursive tree queries of the store, run level by level as the database runs them. */
module OrgQueries {
  import opened Options
  import opened OrgTree
  import opened Org

  /** The topmost ancestor of a unit; no row when the unit does not exist. */
  method ResolveRootCompany(units: Units, orgUnit: Id) returns (root: Option<Id>)
    requires Forest(units)
    ensures root.None? <==> orgUnit !in units
    ensures root.Some? ==> RootOf(units, orgUnit, root.value)
  {
    if orgUnit !in units { return None; }
    assert Ends(units, orgUnit);
    ghost var end: nat :| Ancestor(units, orgUnit, end).None?;
    ghost var k: nat := 0;
    var cur := orgUnit;
    while units[cur].parent.Some?
      invariant cur in units && k < end && Ancestor(units, orgUnit, k) == Some(cur)
      decreases end - k
    {
      cur := units[cur].parent.value;
      k := k + 1;
      if end <= k { EndedStaysEnded(units, orgUnit, end, k); }
    }
    root := Some(cur);
  }

  /** Whether the unit's ancestor chain, itself included, reaches `top`. */
  method ChainReaches(units: Units, orgUnit: Id, top: Id) returns (reaches: bool)
    requires Forest(units)
    ensures reaches <==> UnitUnderCompany(units, orgUnit, top)
  {
    if orgUnit !in units { return false; }
    assert Ends(units, orgUnit);
    ghost var end: nat :| Ancestor(units, orgUnit, end).None?;
    ghost var k: nat := 0;
    var cur := Some(orgUnit);
    while cur.Some? && cur.value != top
      invariant k <= end && Ancestor(units, orgUnit, k) == cur && (cur.Some? ==> cur.value in units)
      invariant forall j :: 0 <= j < k ==> Ancestor(units, orgUnit, j) != Some(top)
      decreases end - k
    {
      cur := units[cur.value].parent;
      k := k + 1;
    }
    if cur.None? {
      forall j: nat
        ensures Ancestor(units, orgUnit, j) != Some(top)
      {
        if k <= j { EndedStaysEnded(units, orgUnit, k, j); }
      }
    }
    reaches := cur.Some?;
  }

  /** The next level of a subtree: the children of the present one. */
  method Children(units: Units, ghost top: Id, ghost k: nat, level: set<Id>) returns (next: set<Id>)
    requires Forest(units) && forall x :: x in level <==> AtLevel(units, top, x, k)
    ensures forall x :: x in next <==> AtLevel(units, top, x, k + 1)
  {
    next := set x | x in units && units[x].parent.Some? && units[x].parent.value in level;
    forall x
      ensures x in next <==> AtLevel(units, top, x, k + 1)
    {
      if x in units && units[x].parent.Some? {
        assert Ancestor(units, x, 1) == units[x].parent;
        AncestorSplit(units, x, units[x].parent.value, 1, k);
        assert AtLevel(units, top, units[x].parent.value, k) <==> Ancestor(units, x, 1 + k) == Some(top);
      } else if x in units {
        assert Ancestor(units, x, 1).None?;
        EndedStaysEnded(units, x, 1, k + 1);
      }
    }
  }

  /** The subtree query: itself and its descendants down to SUBTREE_DEPTH levels. */
  method SubtreeOrgUnits(units: Units, top: Id) returns (ids: set<Id>)
    requires Forest(units)
    ensures forall x :: x in ids <==> InBoundedSubtree(units, top, x)
  {
    var level := if top in units then {top} else {};
    assert forall x :: AtLevel(units, top, x, 0) <==> x in level;
    ids := level;
    for k := 0 to SUBTREE_DEPTH
      invariant forall x :: x in level <==> AtLevel(units, top, x, k)
      invariant forall x :: x in ids <==> exists j: nat :: j <= k && AtLevel(units, top, x, j)
    {
      level := Children(units, top, k, level);
      ids := ids + level;
    }
  }

  /** Every unit of the subtree, however deep; in a forest the levels run out. */
  method WholeSubtree(units: Units, top: Id) returns (ids: set<Id>)
    requires Forest(units)
    ensures forall x :: x in ids <==> x in units && Under(units, top, x)
  {
    var level := if top in units then {top} else {};
    assert forall x :: AtLevel(units, top, x, 0) <==> x in level;
    ids := level;
    ghost var k: nat := 0;
    while level != {}
      invariant forall x :: x in level <==> AtLevel(units, top, x, k)
      invariant forall x :: x in ids <==> exists j: nat :: j <= k && AtLevel(units, top, x, j)
      decreases units.Keys - ids, level != {}
    {
      ghost var before := ids;
      level := Children(units, top, k, level);
      ids := ids + level;
      k := k + 1;
      if x :| x in level {
        LevelIsNew(units, top, x, k);
        assert x in units.Keys - before && x !in units.Keys - ids;
      }
      assert units.Keys - ids <= units.Keys - before;
    }
    forall x
      ensures x in ids <==> x in units && Under(units, top, x)
    {
      if j: nat :| k < j && AtLevel(units, top, x, j) {
        var y := ChainMember(units, top, x, j, k);
      }
      if x in units && Under(units, top, x) {
        var j: nat :| Ancestor(units, x, j) == Some(top);
        assert AtLevel(units, top, x, j);
      }
    }
  }

  /** In a forest a unit sits at one level of a subtree only. */
  lemma LevelIsNew(units: Units, top: Id, x: Id, k: nat)
    requires Forest(units) && AtLevel(units, top, x, k)
    ensures forall j: nat :: j < k ==> !AtLevel(units, top, x, j)
  {
    forall j: nat | j < k
      ensures !AtLevel(units, top, x, j)
    {
      if AtLevel(units, top, x, j) {
        AncestorExists(units, x, j);
        AncestorSplit(units, x, top, j, k - j);
        NoLoop(units, top, k - j);
      }
    }
  }

  /** Whoever sits at level j has an ancestor at every level above. */
  lemma ChainMember(units: Units, top: Id, x: Id, j: nat, k: nat) returns (y: Id)
    requires Forest(units) && AtLevel(units, top, x, j) && k <= j
    ensures AtLevel(units, top, y, k)
  {
    if Ancestor(units, x, j - k).None? {
      EndedStaysEnded(units, x, j - k, j);
    }
    y := Ancestor(units, x, j - k).value;
    AncestorExists(units, x, j - k);
    AncestorSplit(units, x, y, j - k, k);
  }
}
