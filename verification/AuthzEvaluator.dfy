/**
 The evaluator of relation checks (one top-level check, and the batch that shares a memo between workers),
 proved to decide `AuthzEngine.Derivable` whenever it answers.
 */
module AuthzEvaluator {
  import opened AuthzTuple
  import opened AuthzEngine

  /** y is a node the evaluation of expression e on x may ask about. */
  ghost predicate Asks(env: Env, x: Node, e: Expr, y: Node) {
    match e
    case This => exists t :: t in env.tuples && RowOn(t, x, x.rel) && Expands(env, t) && y == SubjectNode(t)
    case ComputedUserset(rel) => y == Node(x.objType, x.objId, rel)
    case TupleToUserset(tupleset, computed) =>
      exists t :: t in env.tuples && RowOn(t, x, tupleset) && t.subjectRelation == "" &&
        y == Node(t.subjectType, t.subjectId, computed)
    case Union(children) => exists i :: 0 <= i < |children| && Asks(env, x, children[i], y)
    case Intersection(children) => exists i :: 0 <= i < |children| && Asks(env, x, children[i], y)
  }

  /** The nodes in scope: whatever the definition of one of them asks about is in scope too. */
  ghost predicate Scope(env: Env, scope: set<Node>) {
    forall x, y :: x in scope && Defined(env, x) && Asks(env, x, Definition(env, x), y) ==> y in scope
  }

  ghost predicate InScope(env: Env, scope: set<Node>, x: Node, e: Expr) {
    forall y :: Asks(env, x, e, y) ==> y in scope
  }

  /** What an evaluation with the nodes of `visiting` in progress promises about its answer: true is a
      derivation; false is the absence of one that avoids the path, and of any one when no cycle was cut;
      the depth fence needs more than 33 nodes in scope, and the other errors an undefined one. */
  ghost predicate Promise(env: Env, scope: set<Node>, cut: bool, r: Answer, holds: bool, holdsAvoiding: bool) {
    && (r == Ok(true) ==> holds)
    && (r == Ok(false) ==> !holdsAvoiding && (!cut ==> !holds))
    && (r == DepthExceeded ==> |scope| > 33)
    && (r == UnknownType || r == UnknownRelation ==> exists y :: y in scope && !Defined(env, y))
  }

  class Memo {
    var entries: map<Node, bool>

    constructor ()
      ensures entries == map[]
    {
      entries := map[];
    }

    /** Every memoized answer is of a defined node and definitive: it does not depend on the path that computed it. */
    ghost predicate Sound(env: Env)
      reads this
    {
      forall k :: k in entries ==> Defined(env, k) && entries[k] == Derivable(env, k)
    }

    /** The other workers of a batch run here: they may have stored any definitive answers. */
    method Interference(ghost env: Env)
      requires Sound(env)
      modifies this
      ensures Sound(env)
    {
    }
  }

  /** The rows of one relation of one object, each exactly once, in whatever order the table yields them. */
  method FetchRows(env: Env, x: Node, rel: string) returns (rows: seq<Tuple>)
    ensures forall t :: t in rows <==> t in env.tuples && RowOn(t, x, rel)
    ensures forall i, j :: 0 <= i < j < |rows| ==> rows[i] != rows[j]
  {
    var rest := set t | t in env.tuples && RowOn(t, x, rel);
    rows := [];
    while rest != {}
      invariant forall t :: t in rest || t in rows <==> t in env.tuples && RowOn(t, x, rel)
      invariant forall t :: t in rows ==> t !in rest
      invariant forall i, j :: 0 <= i < j < |rows| ==> rows[i] != rows[j]
      decreases rest
    {
      var t :| t in rest;
      rest := rest - {t};
      rows := rows + [t];
    }
  }

  class EvalCtx {
    const env: Env
    const memo: Memo
    ghost var scope: set<Node>
    var visiting: set<Node>
    var cuts: nat

    constructor (env: Env, memo: Memo, ghost scope: set<Node>)
      ensures this.env == env && this.memo == memo && this.scope == scope
      ensures visiting == {} && cuts == 0
    {
      this.env, this.memo, this.scope := env, memo, scope;
      visiting, cuts := {}, 0;
    }

    ghost predicate Valid()
      reads this, memo
    {
      memo.Sound(env) && Scope(env, scope) && visiting <= scope
    }

    method Check(x: Node, depth: nat) returns (r: Answer)
      requires Valid() && x in scope && |visiting| == depth <= MAX_DEPTH + 1
      modifies this, memo
      ensures Valid() && visiting == old(visiting) && scope == old(scope) && old(cuts) <= cuts
      ensures Promise(env, scope, old(cuts) < cuts, r, Derivable(env, x), DerivableAvoiding(env, visiting, x))
      ensures depth == 0 && !Defined(env, x) ==> r == if x.objType in env.model then UnknownRelation else UnknownType
      decreases MAX_DEPTH + 1 - depth, 2
    {
      memo.Interference(env);
      if x in memo.entries {
        r := Ok(memo.entries[x]);
        if !r.allowed { NotDerivable(env, visiting, x); }
        return;
      }
      if x in visiting {
        cuts := cuts + 1;
        return Ok(false);
      }
      if depth > MAX_DEPTH {
        SmallerSet(visiting + {x}, scope);
        return DepthExceeded;
      }
      if x.objType !in env.model { return UnknownType; }
      if x.rel !in env.model[x.objType] { return UnknownRelation; }
      visiting := visiting + {x};
      var cutsBefore := cuts;
      r := EvalExpr(x, Definition(env, x), depth);
      visiting := visiting - {x};
      assert visiting == old(visiting);
      Unfold(env, visiting, x);
      if r.Ok? && (r.allowed || cuts == cutsBefore) {
        memo.Interference(env);
        memo.entries := memo.entries[x := r.allowed];
      }
    }

    method EvalExpr(x: Node, e: Expr, depth: nat) returns (r: Answer)
      requires Valid() && InScope(env, scope, x, e) && |visiting| == depth + 1 <= MAX_DEPTH + 1
      modifies this, memo
      ensures Valid() && visiting == old(visiting) && scope == old(scope) && old(cuts) <= cuts
      ensures Promise(env, scope, old(cuts) < cuts, r, DerivableExpr(env, {}, x, e), DerivableExpr(env, visiting, x, e))
      decreases MAX_DEPTH + 1 - depth, 1, e
    {
      match e
      case This => r := EvalThis(x, depth);
      case ComputedUserset(rel) =>
        r := Check(Node(x.objType, x.objId, rel), depth + 1);
        ViaNode(env, {}, x, e);
        ViaNode(env, visiting, x, e);
      case TupleToUserset(tupleset, computed) => r := EvalTupleToUserset(x, tupleset, computed, depth);
      case Union(children) => r := EvalUnion(x, e, depth);
      case Intersection(children) => r := EvalIntersection(x, e, depth);
    }

    method EvalUnion(x: Node, e: Expr, depth: nat) returns (r: Answer)
      requires e.Union?
      requires Valid() && InScope(env, scope, x, e) && |visiting| == depth + 1 <= MAX_DEPTH + 1
      modifies this, memo
      ensures Valid() && visiting == old(visiting) && scope == old(scope) && old(cuts) <= cuts
      ensures Promise(env, scope, old(cuts) < cuts, r, DerivableExpr(env, {}, x, e), DerivableExpr(env, visiting, x, e))
      decreases MAX_DEPTH + 1 - depth, 1, e, 0
    {
      UnionByChild(env, {}, x, e);
      UnionByChild(env, visiting, x, e);
      for i := 0 to |e.children|
        invariant scope == old(scope) && Valid() && visiting == old(visiting) && old(cuts) <= cuts
        invariant forall j :: 0 <= j < i ==> !DerivableExpr(env, visiting, x, e.children[j])
        invariant old(cuts) == cuts ==> forall j :: 0 <= j < i ==> !DerivableExpr(env, {}, x, e.children[j])
      {
        assert forall y :: Asks(env, x, e.children[i], y) ==> Asks(env, x, e, y);
        r := EvalExpr(x, e.children[i], depth);
        if !r.Ok? || r.allowed { return; }
      }
      return Ok(false);
    }

    method EvalIntersection(x: Node, e: Expr, depth: nat) returns (r: Answer)
      requires e.Intersection?
      requires Valid() && InScope(env, scope, x, e) && |visiting| == depth + 1 <= MAX_DEPTH + 1
      modifies this, memo
      ensures Valid() && visiting == old(visiting) && scope == old(scope) && old(cuts) <= cuts
      ensures Promise(env, scope, old(cuts) < cuts, r, DerivableExpr(env, {}, x, e), DerivableExpr(env, visiting, x, e))
      decreases MAX_DEPTH + 1 - depth, 1, e, 0
    {
      IntersectionByChildren(env, {}, x, e);
      IntersectionByChildren(env, visiting, x, e);
      for i := 0 to |e.children|
        invariant scope == old(scope) && Valid() && visiting == old(visiting) && old(cuts) <= cuts
        invariant forall j :: 0 <= j < i ==> DerivableExpr(env, {}, x, e.children[j])
      {
        assert forall y :: Asks(env, x, e.children[i], y) ==> Asks(env, x, e, y);
        r := EvalExpr(x, e.children[i], depth);
        if !r.Ok? || !r.allowed { return; }
      }
      return Ok(true);
    }

    method EvalThis(x: Node, depth: nat) returns (r: Answer)
      requires Valid() && InScope(env, scope, x, This) && |visiting| == depth + 1 <= MAX_DEPTH + 1
      modifies this, memo
      ensures Valid() && visiting == old(visiting) && scope == old(scope) && old(cuts) <= cuts
      ensures Promise(env, scope, old(cuts) < cuts, r, DerivableExpr(env, {}, x, This),
        DerivableExpr(env, visiting, x, This))
      decreases MAX_DEPTH + 1 - depth, 0
    {
      ThisByRow(env, {}, x);
      ThisByRow(env, visiting, x);
      var rows := FetchRows(env, x, x.rel);
      for i := 0 to |rows|
        invariant scope == old(scope) && Valid() && visiting == old(visiting) && old(cuts) <= cuts
        invariant forall j :: 0 <= j < i ==> !RowGrants(env, visiting, rows[j])
        invariant old(cuts) == cuts ==> forall j :: 0 <= j < i ==> !RowGrants(env, {}, rows[j])
      {
        var t := rows[i];
        assert t in rows;
        if t.subjectRelation == "" {
          if t.subjectType == env.subjType && t.subjectId == env.subjId {
            assert RowGrants(env, {}, t);
            return Ok(true);
          }
          continue;
        }
        if env.company != "" && !InCompany(env.tuples, env.company, t.subjectType, t.subjectId) {
          continue;
        }
        assert Asks(env, x, This, SubjectNode(t));
        r := Check(SubjectNode(t), depth + 1);
        if !r.Ok? || r.allowed { return; }
      }
      return Ok(false);
    }

    method EvalTupleToUserset(x: Node, tupleset: string, computed: string, depth: nat) returns (r: Answer)
      requires Valid() && InScope(env, scope, x, TupleToUserset(tupleset, computed)) &&
        |visiting| == depth + 1 <= MAX_DEPTH + 1
      modifies this, memo
      ensures Valid() && visiting == old(visiting) && scope == old(scope) && old(cuts) <= cuts
      ensures
        var e := TupleToUserset(tupleset, computed);
        Promise(env, scope, old(cuts) < cuts, r, DerivableExpr(env, {}, x, e), DerivableExpr(env, visiting, x, e))
      decreases MAX_DEPTH + 1 - depth, 0
    {
      ghost var e := TupleToUserset(tupleset, computed);
      TupleToUsersetByRow(env, {}, x, e);
      TupleToUsersetByRow(env, visiting, x, e);
      var rows := FetchRows(env, x, tupleset);
      for i := 0 to |rows|
        invariant scope == old(scope) && Valid() && visiting == old(visiting) && old(cuts) <= cuts
        invariant forall j :: 0 <= j < i ==> !ParentGrants(env, visiting, rows[j], computed)
        invariant old(cuts) == cuts ==> forall j :: 0 <= j < i ==> !ParentGrants(env, {}, rows[j], computed)
      {
        var t := rows[i];
        assert t in rows;
        if t.subjectRelation != "" { continue; }
        var parent := Node(t.subjectType, t.subjectId, computed);
        assert Asks(env, x, e, parent);
        r := Check(parent, depth + 1);
        if !r.Ok? || r.allowed { return; }
      }
      return Ok(false);
    }
  }

  // ---- scopes -------------------------------------------------------------------------------

  /** The relations an expression names. */
  function Mentions(e: Expr): set<string> {
    match e
    case This => {}
    case ComputedUserset(rel) => {rel}
    case TupleToUserset(_, computed) => {computed}
    case Union(children) => set i, n | 0 <= i < |children| && n in Mentions(children[i]) :: n
    case Intersection(children) => set i, n | 0 <= i < |children| && n in Mentions(children[i]) :: n
  }

  /** The relations a check of x can come to: its own, those of userset rows and those the model names. */
  function Relations(env: Env, x: Node): set<string> {
    {x.rel} + (set t | t in env.tuples :: t.subjectRelation) +
    set ty, r, n | ty in env.model && r in env.model[ty] && n in Mentions(env.model[ty][r]) :: n
  }

  /** The objects it can come to: its own and the subjects of rows. */
  function Objects(env: Env, x: Node): set<(string, string)> {
    {(x.objType, x.objId)} + set t | t in env.tuples :: (t.subjectType, t.subjectId)
  }

  function FullScope(env: Env, x: Node): set<Node> {
    set o, r | o in Objects(env, x) && r in Relations(env, x) :: Node(o.0, o.1, r)
  }

  /** Whatever is asked about is the subject of a row, or the same object under a relation the expression names. */
  lemma {:induction false} AsksNearby(env: Env, x: Node, e: Expr, y: Node)
    requires Asks(env, x, e, y)
    ensures (y.objType, y.objId) == (x.objType, x.objId) || exists t ::
      t in env.tuples && (y.objType, y.objId) == (t.subjectType, t.subjectId)
    ensures y.rel in Mentions(e) || exists t :: t in env.tuples && y.rel == t.subjectRelation
    decreases e
  {
    if e.Union? || e.Intersection? {
      var i :| 0 <= i < |e.children| && Asks(env, x, e.children[i], y);
      AsksNearby(env, x, e.children[i], y);
    }
  }

  /** Every check has a finite scope. */
  lemma FullScopeIsScope(env: Env, x: Node)
    ensures Scope(env, FullScope(env, x)) && x in FullScope(env, x)
  {
    var scope := FullScope(env, x);
    assert (x.objType, x.objId) in Objects(env, x) && x.rel in Relations(env, x);
    forall y, z | y in scope && Defined(env, y) && Asks(env, y, Definition(env, y), z)
      ensures z in scope
    {
      AsksNearby(env, y, Definition(env, y), z);
      assert (z.objType, z.objId) in Objects(env, x);
      assert z.rel in Relations(env, x);
    }
  }

  /** All that can be asked about fits under the fence and is defined. */
  ghost predicate FitsFence(env: Env, scope: set<Node>) {
    |scope| <= 33 && forall y :: y in scope ==> Defined(env, y)
  }

  ghost predicate Encloses(env: Env, scope: set<Node>, x: Node) {
    Scope(env, scope) && x in scope
  }

  /** What a finished check promises its caller: an answer is the meaning of the check, and there is one whenever the
      nodes a check of x can come to are defined and at most 33. A cycle alone never reaches the fence. A check of an
      undefined type or relation says which is missing. */
  ghost predicate Decides(env: Env, x: Node, r: Answer) {
    && (r.Ok? ==> r.allowed == Derivable(env, x))
    && ((exists scope :: Encloses(env, scope, x) && FitsFence(env, scope)) ==> r.Ok?)
    && (!Defined(env, x) ==> r == if x.objType in env.model then UnknownRelation else UnknownType)
  }

  /** The scope to judge a check by: one that fits the fence if there is any. */
  lemma SomeScope(env: Env, x: Node) returns (scope: set<Node>)
    ensures Encloses(env, scope, x)
    ensures (exists small :: Encloses(env, small, x) && FitsFence(env, small)) ==> FitsFence(env, scope)
  {
    if small :| Encloses(env, small, x) && FitsFence(env, small) {
      scope := small;
    } else {
      FullScopeIsScope(env, x);
      scope := FullScope(env, x);
    }
  }

  /** Check and CheckInCompany: a fresh memo per call. */
  method CheckRelation(env: Env, x: Node) returns (r: Answer)
    ensures Decides(env, x, r)
  {
    ghost var scope := SomeScope(env, x);
    var memo := new Memo();
    var ec := new EvalCtx(env, memo, scope);
    r := ec.Check(x, 0);
  }

  /** One worker of a batch: it takes the items it was handed, on the memo it shares with the other workers. */
  method BatchWorker(env: Env, memo: Memo, items: seq<Node>) returns (results: seq<Answer>)
    requires memo.Sound(env)
    modifies memo
    ensures memo.Sound(env) && |results| == |items|
    ensures forall i :: 0 <= i < |items| ==> Decides(env, items[i], results[i])
  {
    var ec := new EvalCtx(env, memo, {});
    results := [];
    for i := 0 to |items|
      invariant ec.Valid() && ec.visiting == {} && fresh(ec) && |results| == i
      invariant ec.env == env && ec.memo == memo
      invariant forall j :: 0 <= j < i ==> Decides(env, items[j], results[j])
    {
      ec.scope := SomeScope(env, items[i]);
      var r := ec.Check(items[i], 0);
      results := results + [r];
    }
  }

  // ---- the steps of the proof ---------------------------------------------------------------

  ghost predicate RowGrants(env: Env, avoid: set<Node>, t: Tuple) {
    NamesSubject(env, t) || (Expands(env, t) && DerivableAvoiding(env, avoid, SubjectNode(t)))
  }

  ghost predicate ParentGrants(env: Env, avoid: set<Node>, t: Tuple, computed: string) {
    t.subjectRelation == "" && DerivableAvoiding(env, avoid, Node(t.subjectType, t.subjectId, computed))
  }

  lemma NotDerivable(env: Env, avoid: set<Node>, x: Node)
    requires !Derivable(env, x)
    ensures !DerivableAvoiding(env, avoid, x)
  {
    if n: nat :| Holds(env, avoid, x, n) {
      Weaken(env, avoid, {}, x, n, n);
    }
  }

  lemma SmallerSet(a: set<Node>, b: set<Node>)
    requires a <= b
    ensures |a| <= |b|
  {
    assert b == a + (b - a);
  }

  /** Entering x: its definition decides it, and evaluating the definition with x in progress loses nothing. */
  lemma Unfold(env: Env, avoid: set<Node>, x: Node)
    requires Defined(env, x) && x !in avoid
    ensures DerivableExpr(env, {}, x, Definition(env, x)) <==> Derivable(env, x)
    ensures DerivableAvoiding(env, avoid, x) ==> DerivableExpr(env, avoid + {x}, x, Definition(env, x))
  {
    if n: nat :| HoldsExpr(env, {}, x, Definition(env, x), n) {
      assert Holds(env, {}, x, n + 1);
    }
    if n: nat :| Holds(env, {}, x, n) {
      assert HoldsExpr(env, {}, x, Definition(env, x), n - 1);
    }
    if n: nat :| Holds(env, avoid, x, n) {
      CutLosesNothing(env, avoid, x, n);
    }
  }

  lemma ViaNode(env: Env, avoid: set<Node>, x: Node, e: Expr)
    requires e.ComputedUserset?
    ensures DerivableExpr(env, avoid, x, e) <==> DerivableAvoiding(env, avoid, Node(x.objType, x.objId, e.rel))
  {
    var y := Node(x.objType, x.objId, e.rel);
    if n: nat :| HoldsExpr(env, avoid, x, e, n) {
      assert Holds(env, avoid, y, n);
    }
    if n: nat :| Holds(env, avoid, y, n) {
      assert HoldsExpr(env, avoid, x, e, n);
    }
  }

  lemma ThisByRow(env: Env, avoid: set<Node>, x: Node)
    ensures DerivableExpr(env, avoid, x, This) <==>
            exists t :: t in env.tuples && RowOn(t, x, x.rel) && RowGrants(env, avoid, t)
  {
    if n: nat :| HoldsExpr(env, avoid, x, This, n) {
      var t :| t in env.tuples && RowOn(t, x, x.rel) &&
        (NamesSubject(env, t) || (Expands(env, t) && Holds(env, avoid, SubjectNode(t), n)));
      assert RowGrants(env, avoid, t);
    }
    if t :| t in env.tuples && RowOn(t, x, x.rel) && RowGrants(env, avoid, t) {
      if NamesSubject(env, t) {
        assert HoldsExpr(env, avoid, x, This, 0);
      } else {
        var n: nat :| Holds(env, avoid, SubjectNode(t), n);
        assert HoldsExpr(env, avoid, x, This, n);
      }
    }
  }

  lemma TupleToUsersetByRow(env: Env, avoid: set<Node>, x: Node, e: Expr)
    requires e.TupleToUserset?
    ensures DerivableExpr(env, avoid, x, e) <==>
            exists t :: t in env.tuples && RowOn(t, x, e.tupleset) && ParentGrants(env, avoid, t, e.computed)
  {
    if n: nat :| HoldsExpr(env, avoid, x, e, n) {
      var t :| t in env.tuples && RowOn(t, x, e.tupleset) && t.subjectRelation == "" &&
        Holds(env, avoid, Node(t.subjectType, t.subjectId, e.computed), n);
      assert ParentGrants(env, avoid, t, e.computed);
    }
    if t :| t in env.tuples && RowOn(t, x, e.tupleset) && ParentGrants(env, avoid, t, e.computed) {
      var n: nat :| Holds(env, avoid, Node(t.subjectType, t.subjectId, e.computed), n);
      assert HoldsExpr(env, avoid, x, e, n);
    }
  }

  lemma UnionByChild(env: Env, avoid: set<Node>, x: Node, e: Expr)
    requires e.Union?
    ensures DerivableExpr(env, avoid, x, e) <==>
            exists i :: 0 <= i < |e.children| && DerivableExpr(env, avoid, x, e.children[i])
  {
    if n: nat :| HoldsExpr(env, avoid, x, e, n) {
      var i :| 0 <= i < |e.children| && HoldsExpr(env, avoid, x, e.children[i], n);
      assert DerivableExpr(env, avoid, x, e.children[i]);
    }
    if i :| 0 <= i < |e.children| && DerivableExpr(env, avoid, x, e.children[i]) {
      var n: nat :| HoldsExpr(env, avoid, x, e.children[i], n);
      assert HoldsExpr(env, avoid, x, e, n);
    }
  }

  lemma IntersectionByChildren(env: Env, avoid: set<Node>, x: Node, e: Expr)
    requires e.Intersection?
    ensures DerivableExpr(env, avoid, x, e) <==>
            forall i :: 0 <= i < |e.children| ==> DerivableExpr(env, avoid, x, e.children[i])
  {
    if forall i :: 0 <= i < |e.children| ==> DerivableExpr(env, avoid, x, e.children[i]) {
      var n := CommonHeight(env, avoid, x, e.children);
      assert HoldsExpr(env, avoid, x, e, n);
    }
    if n: nat :| HoldsExpr(env, avoid, x, e, n) {
      assert forall i :: 0 <= i < |e.children| ==> HoldsExpr(env, avoid, x, e.children[i], n);
    }
  }

  lemma {:induction false} CommonHeight(env: Env, avoid: set<Node>, x: Node, es: seq<Expr>) returns (n: nat)
    requires forall i :: 0 <= i < |es| ==> DerivableExpr(env, avoid, x, es[i])
    ensures forall i :: 0 <= i < |es| ==> HoldsExpr(env, avoid, x, es[i], n)
  {
    if es == [] { return 0; }
    var last := |es| - 1;
    var m := CommonHeight(env, avoid, x, es[..last]);
    var k: nat :| HoldsExpr(env, avoid, x, es[last], k);
    n := if k < m then m else k;
    forall i | 0 <= i < |es|
      ensures HoldsExpr(env, avoid, x, es[i], n)
    {
      assert i < last ==> es[i] == es[..last][i];
      WeakenExpr(env, avoid, avoid, x, es[i], if i == last then k else m, n);
    }
  }
}
