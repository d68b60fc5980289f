/**
 The org-unit forest: units point at their parents, and everything the store asks about the tree (the root
 company of a unit, its subtree, whether a move would close a cycle) is a question about ancestor chains.
 */
module OrgTree {
  import opened Options

  type Id = string

  /** An org.org_unit row: whether its type is the company type, and its parent. */
  datatype OrgUnit = OrgUnit(isCompany: bool, parent: Option<Id>)

  type Units = map<Id, OrgUnit>

  /** The subtree query stops this many levels below its start. */
  const SUBTREE_DEPTH: nat := 32

  /** The k-th ancestor of x, counting x itself as the 0-th. */
  ghost function Ancestor(units: Units, x: Id, k: nat): Option<Id> {
    if k == 0 then Some(x) else
    match Ancestor(units, x, k - 1)
    case None => None
    case Some(y) => if y in units then units[y].parent else None
  }

  /** x lies in the subtree of top (a unit lies in its own subtree). */
  ghost predicate Under(units: Units, top: Id, x: Id) {
    exists k: nat :: Ancestor(units, x, k) == Some(top)
  }

  ghost predicate RootOf(units: Units, x: Id, root: Id) {
    root in units && units[root].parent.None? && Under(units, root, x)
  }

  ghost predicate Ends(units: Units, x: Id) {
    exists k: nat :: Ancestor(units, x, k).None?
  }

  /** Every ancestor chain ends: the parent relation has no cycle. */
  ghost predicate Grounded(units: Units) {
    forall x {:trigger Ends(units, x)} :: x in units ==> Ends(units, x)
  }

  /** The shape every run keeps: parents exist, exactly the companies are roots, and there is no cycle. */
  ghost predicate Forest(units: Units) {
    && (forall x {:trigger units[x].parent} :: x in units && units[x].parent.Some? ==> units[x].parent.value in units)
    && (forall x :: x in units ==> (units[x].isCompany <==> units[x].parent.None?))
    && Grounded(units)
  }

  function Reparent(units: Units, id: Id, parent: Option<Id>): Units
    requires id in units
  {
    units[id := units[id].(parent := parent)]
  }

  // ---- chains -------------------------------------------------------------------------------

  lemma {:induction false} AncestorSplit(units: Units, x: Id, y: Id, j: nat, k: nat)
    requires Ancestor(units, x, j) == Some(y)
    ensures Ancestor(units, x, j + k) == Ancestor(units, y, k)
  {
    if k > 0 { AncestorSplit(units, x, y, j, k - 1); }
  }

  lemma {:induction false} EndedStaysEnded(units: Units, x: Id, j: nat, k: nat)
    requires j <= k && Ancestor(units, x, j).None?
    ensures Ancestor(units, x, k).None?
  {
    if j < k { EndedStaysEnded(units, x, j, k - 1); }
  }

  /** In a grounded forest no unit is its own proper ancestor. */
  lemma NoLoop(units: Units, x: Id, k: nat)
    requires Grounded(units) && x in units && Ancestor(units, x, k) == Some(x)
    ensures k == 0
  {
    if k > 0 {
      assert Ends(units, x);
      var end: nat :| Ancestor(units, x, end).None?;
      Loop(units, x, k, end);
      EndedStaysEnded(units, x, end, end * k);
    }
  }

  lemma {:induction false} Loop(units: Units, x: Id, k: nat, rounds: nat)
    requires k > 0 && Ancestor(units, x, k) == Some(x)
    ensures Ancestor(units, x, rounds * k) == Some(x) && rounds * k >= rounds
  {
    if rounds > 0 {
      Loop(units, x, k, rounds - 1);
      AncestorSplit(units, x, x, (rounds - 1) * k, k);
      assert rounds * k == (rounds - 1) * k + k;
    }
  }

  lemma UnderIsTransitive(units: Units, top: Id, mid: Id, x: Id)
    requires Under(units, top, mid) && Under(units, mid, x)
    ensures Under(units, top, x)
  {
    var j: nat :| Ancestor(units, x, j) == Some(mid);
    var k: nat :| Ancestor(units, mid, k) == Some(top);
    AncestorSplit(units, x, mid, j, k);
    assert Ancestor(units, x, j + k) == Some(top);
  }

  /** Every unit has exactly one root, and it is a company. */
  lemma OneRoot(units: Units, x: Id) returns (root: Id)
    requires Forest(units) && x in units
    ensures RootOf(units, x, root) && units[root].isCompany
    ensures forall r :: RootOf(units, x, r) ==> r == root
  {
    assert Ends(units, x);
    var end: nat :| Ancestor(units, x, end).None?;
    root := RootBelow(units, x, end);
    forall r | RootOf(units, x, r)
      ensures r == root
    {
      RootUnique(units, x, root, r);
    }
  }

  lemma {:induction false} RootBelow(units: Units, x: Id, end: nat) returns (root: Id)
    requires Forest(units) && x in units && Ancestor(units, x, end).None?
    ensures RootOf(units, x, root)
    decreases end
  {
    if Ancestor(units, x, end - 1).None? {
      root := RootBelow(units, x, end - 1);
    } else {
      root := Ancestor(units, x, end - 1).value;
      AncestorExists(units, x, end - 1);
      assert Under(units, root, x);
    }
  }

  lemma {:induction false} AncestorExists(units: Units, x: Id, k: nat)
    requires Forest(units) && x in units
    ensures Ancestor(units, x, k).Some? ==> Ancestor(units, x, k).value in units
  {
    if k > 0 { AncestorExists(units, x, k - 1); }
  }

  lemma RootUnique(units: Units, x: Id, r: Id, s: Id)
    requires RootOf(units, x, r) && RootOf(units, x, s)
    ensures r == s
  {
    var j: nat :| Ancestor(units, x, j) == Some(r);
    var k: nat :| Ancestor(units, x, k) == Some(s);
    if j < k {
      AncestorSplit(units, x, r, j, k - j);
      assert Ancestor(units, r, 1).None?;
      EndedStaysEnded(units, r, 1, k - j);
    } else if k < j {
      AncestorSplit(units, x, s, k, j - k);
      assert Ancestor(units, s, 1).None?;
      EndedStaysEnded(units, s, 1, j - k);
    }
  }

  /** The root of an ancestor is the root of the unit. */
  lemma RootThroughAncestor(units: Units, x: Id, y: Id, root: Id)
    requires Under(units, y, x) && RootOf(units, y, root)
    ensures RootOf(units, x, root)
  {
    UnderIsTransitive(units, root, y, x);
  }

  // ---- moving a unit ------------------------------------------------------------------------

  /** A unit outside the moved subtree keeps its whole ancestor chain. */
  lemma {:induction false} OutsideUnmoved(units: Units, id: Id, parent: Option<Id>, x: Id, k: nat)
    requires id in units && !Under(units, id, x)
    ensures Ancestor(Reparent(units, id, parent), x, k) == Ancestor(units, x, k)
  {
    if k > 0 {
      OutsideUnmoved(units, id, parent, x, k - 1);
      assert Ancestor(units, x, k - 1) != Some(id);
    }
  }

  /** Inside the moved subtree the chain up to the moved unit does not change. */
  lemma {:induction false} InsideReaches(units: Units, id: Id, parent: Option<Id>, x: Id, k: nat)
    requires id in units && Ancestor(units, x, k) == Some(id)
    requires forall j :: 0 <= j < k ==> Ancestor(units, x, j) != Some(id)
    ensures Ancestor(Reparent(units, id, parent), x, k) == Some(id)
  {
    ChainAgrees(units, id, parent, x, k, k);
  }

  lemma {:induction false} ChainAgrees(units: Units, id: Id, parent: Option<Id>, x: Id, j: nat, k: nat)
    requires id in units && j <= k
    requires forall i :: 0 <= i < k ==> Ancestor(units, x, i) != Some(id)
    ensures Ancestor(Reparent(units, id, parent), x, j) == Ancestor(units, x, j)
  {
    if j > 0 { ChainAgrees(units, id, parent, x, j - 1, k); }
  }

  /** The first time x's chain meets id. */
  lemma {:induction false} FirstMeeting(units: Units, id: Id, x: Id, k: nat) returns (first: nat)
    requires Ancestor(units, x, k) == Some(id)
    ensures Ancestor(units, x, first) == Some(id)
    ensures forall j :: 0 <= j < first ==> Ancestor(units, x, j) != Some(id)
  {
    if j: nat :| j < k && Ancestor(units, x, j) == Some(id) {
      first := FirstMeeting(units, id, x, j);
    } else {
      first := k;
    }
  }

  /** Membership of the moved subtree is the same before and after the move. */
  lemma SubtreeUnmoved(units: Units, id: Id, parent: Option<Id>, x: Id)
    requires id in units
    ensures Under(Reparent(units, id, parent), id, x) <==> Under(units, id, x)
  {
    var moved := Reparent(units, id, parent);
    if Under(units, id, x) {
      var k: nat :| Ancestor(units, x, k) == Some(id);
      var first := FirstMeeting(units, id, x, k);
      InsideReaches(units, id, parent, x, first);
    }
    if Under(moved, id, x) {
      var k: nat :| Ancestor(moved, x, k) == Some(id);
      var first := FirstMeeting(moved, id, x, k);
      assert Reparent(moved, id, units[id].parent) == units;
      InsideReaches(moved, id, units[id].parent, x, first);
    }
  }

  /** Moving a unit under a parent keeps the forest acyclic exactly when the parent is not in its subtree. */
  lemma MoveKeepsGrounded(units: Units, id: Id, parent: Id)
    requires Grounded(units) && id in units && parent in units
    ensures Grounded(Reparent(units, id, Some(parent))) <==> !Under(units, id, parent)
  {
    var moved := Reparent(units, id, Some(parent));
    SubtreeUnmoved(units, id, Some(parent), parent);
    assert Ancestor(moved, id, 1) == Some(parent);
    if Under(units, id, parent) {
      var k: nat :| Ancestor(moved, parent, k) == Some(id);
      AncestorSplit(moved, id, parent, 1, k);
      if Grounded(moved) { NoLoop(moved, id, 1 + k); }
    } else {
      forall x | x in moved
        ensures Ends(moved, x)
      {
        var end := MovedChainEnds(units, id, parent, x);
      }
    }
  }

  lemma MovedChainEnds(units: Units, id: Id, parent: Id, x: Id) returns (end: nat)
    requires Grounded(units) && id in units && parent in units && x in units && !Under(units, id, parent)
    ensures Ancestor(Reparent(units, id, Some(parent)), x, end).None?
  {
    var moved := Reparent(units, id, Some(parent));
    if Under(units, id, x) {
      var k: nat :| Ancestor(units, x, k) == Some(id);
      var first := FirstMeeting(units, id, x, k);
      InsideReaches(units, id, Some(parent), x, first);
      assert Ends(units, parent);
      var rest: nat :| Ancestor(units, parent, rest).None?;
      OutsideUnmoved(units, id, Some(parent), parent, rest);
      AncestorSplit(moved, x, id, first, 1);
      AncestorSplit(moved, x, parent, first + 1, rest);
      end := first + 1 + rest;
    } else {
      assert Ends(units, x);
      end :| Ancestor(units, x, end).None?;
      OutsideUnmoved(units, id, Some(parent), x, end);
    }
  }

  /** After a move, units outside the subtree keep their root, and units inside take the new parent's. */
  lemma MovedRoot(units: Units, id: Id, parent: Id, x: Id, root: Id)
    requires id in units && units[id].parent.Some? && parent in units && !Under(units, id, parent)
    requires RootOf(units, if Under(units, id, x) then parent else x, root)
    ensures RootOf(Reparent(units, id, Some(parent)), x, root)
  {
    var moved := Reparent(units, id, Some(parent));
    var y := if Under(units, id, x) then parent else x;
    var k: nat :| Ancestor(units, y, k) == Some(root);
    OutsideUnmoved(units, id, Some(parent), y, k);
    assert Under(moved, root, y);
    if Under(units, id, x) {
      SubtreeUnmoved(units, id, Some(parent), x);
      assert Ancestor(moved, id, 1) == Some(parent);
      assert Under(moved, parent, id);
      UnderIsTransitive(moved, root, parent, id);
      UnderIsTransitive(moved, root, id, x);
    }
  }

  // ---- adding and removing leaves -------------------------------------------------------------

  /** Chains of existing units do not see a new unit. */
  lemma {:induction false} AddedUnseen(units: Units, id: Id, u: OrgUnit, x: Id, k: nat)
    requires Forest(units) && id !in units && x in units
    ensures Ancestor(units[id := u], x, k) == Ancestor(units, x, k)
  {
    if k > 0 {
      AddedUnseen(units, id, u, x, k - 1);
      AncestorExists(units, x, k - 1);
    }
  }

  lemma AddKeepsForest(units: Units, id: Id, u: OrgUnit)
    requires Forest(units) && id !in units
    requires u.isCompany <==> u.parent.None?
    requires u.parent.Some? ==> u.parent.value in units
    ensures Forest(units[id := u])
    ensures forall x, root :: x in units && RootOf(units, x, root) ==> RootOf(units[id := u], x, root)
  {
    var added := units[id := u];
    forall x | x in added
      ensures Ends(added, x)
    {
      if x == id {
        assert Ancestor(added, id, 1) == u.parent;
        if u.parent.Some? {
          assert Ends(units, u.parent.value);
          var k: nat :| Ancestor(units, u.parent.value, k).None?;
          AddedUnseen(units, id, u, u.parent.value, k);
          AncestorSplit(added, id, u.parent.value, 1, k);
          assert Ancestor(added, id, 1 + k).None?;
        }
      } else {
        assert Ends(units, x);
        var k: nat :| Ancestor(units, x, k).None?;
        AddedUnseen(units, id, u, x, k);
      }
    }
    forall x, root | x in units && RootOf(units, x, root)
      ensures RootOf(added, x, root)
    {
      var k: nat :| Ancestor(units, x, k) == Some(root);
      AddedUnseen(units, id, u, x, k);
    }
  }

  /** Chains of the remaining units never passed through a unit without children. */
  lemma {:induction false} RemovedUnseen(units: Units, id: Id, x: Id, k: nat)
    requires Forest(units) && id in units && x in units && x != id
    requires forall y :: y in units ==> units[y].parent != Some(id)
    ensures Ancestor(units - {id}, x, k) == Ancestor(units, x, k)
    ensures Ancestor(units, x, k) != Some(id)
  {
    if k > 0 {
      RemovedUnseen(units, id, x, k - 1);
      AncestorExists(units, x, k - 1);
    }
  }

  lemma RemoveKeepsForest(units: Units, id: Id)
    requires Forest(units) && id in units
    requires forall y :: y in units ==> units[y].parent != Some(id)
    ensures Forest(units - {id})
    ensures forall x, root :: x in units && x != id && RootOf(units, x, root) ==> RootOf(units - {id}, x, root)
  {
    var rest := units - {id};
    forall x | x in rest
      ensures Ends(rest, x)
    {
      assert Ends(units, x);
      var k: nat :| Ancestor(units, x, k).None?;
      RemovedUnseen(units, id, x, k);
    }
    forall x, root | x in units && x != id && RootOf(units, x, root)
      ensures RootOf(rest, x, root)
    {
      var k: nat :| Ancestor(units, x, k) == Some(root);
      RemovedUnseen(units, id, x, k);
    }
  }

  // ---- the store's own cycle check --------------------------------------------------------------

  /** x sits exactly k levels below top. */
  ghost predicate AtLevel(units: Units, top: Id, x: Id, k: nat) {
    x in units && Ancestor(units, x, k) == Some(top)
  }

  /** What the depth-bounded subtree query returns. */
  ghost predicate InBoundedSubtree(units: Units, top: Id, x: Id) {
    exists k: nat :: k <= 32 && AtLevel(units, top, x, k)
  }

  /** A candidate parent the query misses: under the moved unit, but deeper than it looks. */
  ghost predicate TooDeep(units: Units, id: Id, parent: Id) {
    Under(units, id, parent) && !InBoundedSubtree(units, id, parent)
  }

  /** The store's check alone keeps the forest acyclic exactly when the candidate parent does not lie more than
      32 levels below the moved unit. */
  lemma StoreCheckAlone(units: Units, id: Id, parent: Id)
    requires Forest(units) && id in units && parent in units && !InBoundedSubtree(units, id, parent)
    ensures Grounded(Reparent(units, id, Some(parent))) <==> !TooDeep(units, id, parent)
  {
    MoveKeepsGrounded(units, id, parent);
  }

  function Name(k: nat): (id: Id)
    ensures |id| == k
  {
    seq(k, _ => 'u')
  }

  /** A chain of n + 1 units: a company and one unit below another. Unit k is named by k letters. */
  function Chain(n: nat): Units {
    if n == 0 then map[Name(0) := OrgUnit(true, None)]
    else Chain(n - 1)[Name(n) := OrgUnit(false, Some(Name(n - 1)))]
  }

  lemma {:induction false} ChainAncestor(n: nat, k: nat, j: nat)
    requires k <= n
    ensures Ancestor(Chain(n), Name(k), j) == if j <= k then Some(Name(k - j)) else None
  {
    if j > 0 {
      ChainAncestor(n, k, j - 1);
      if j - 1 <= k { ChainRow(n, k - (j - 1)); }
    }
  }

  lemma {:induction false} ChainRow(n: nat, k: nat)
    requires k <= n
    ensures Name(k) in Chain(n) && Chain(n)[Name(k)] == OrgUnit(k == 0, if k == 0 then None else Some(Name(k - 1)))
  {
    if k < n {
      ChainRow(n - 1, k);
      assert |Name(k)| != |Name(n)|;
    }
  }

  lemma {:induction false} ChainNames(n: nat, x: Id) returns (k: nat)
    requires x in Chain(n)
    ensures k <= n && x == Name(k)
  {
    if x == Name(n) {
      k := n;
    } else {
      k := ChainNames(n - 1, x);
    }
  }

  lemma ChainIsForest(n: nat)
    ensures Forest(Chain(n))
  {
    forall x | x in Chain(n)
      ensures Ends(Chain(n), x) && (Chain(n)[x].isCompany <==> Chain(n)[x].parent.None?)
      ensures Chain(n)[x].parent.Some? ==> Chain(n)[x].parent.value in Chain(n)
    {
      var k := ChainNames(n, x);
      ChainRow(n, k);
      if k > 0 { ChainRow(n, k - 1); }
      ChainAncestor(n, k, k + 1);
    }
  }

  /** On its own the store's check is not enough: in a chain of n units below a company, moving the first of them
      under the last closes a cycle for every n, and passes the check from n = 34 on. */
  lemma StoreCheckAloneFails(n: nat)
    requires n > SUBTREE_DEPTH + 1
    ensures Forest(Chain(n)) && Name(1) in Chain(n) && Name(n) in Chain(n) && !Chain(n)[Name(1)].isCompany
    ensures TooDeep(Chain(n), Name(1), Name(n))
    ensures !Grounded(Reparent(Chain(n), Name(1), Some(Name(n))))
  {
    ChainIsForest(n);
    ChainRow(n, 1);
    ChainRow(n, n);
    ChainAncestor(n, n, n - 1);
    assert Under(Chain(n), Name(1), Name(n));
    forall k: nat | k <= SUBTREE_DEPTH
      ensures !AtLevel(Chain(n), Name(1), Name(n), k)
    {
      ChainAncestor(n, n, k);
      assert |Name(n - k)| != |Name(1)|;
    }
    StoreCheckAlone(Chain(n), Name(1), Name(n));
  }
}
