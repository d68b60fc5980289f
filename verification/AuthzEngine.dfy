/**
 The relation evaluator: relation expressions over the tuple table, and the two readings of a check.

 `Derivable` is the meaning: a relation holds when a finite derivation tree shows it, that is, the least
 relation closed under the model's definitions. `EvalCtx.Check` is the evaluator: depth first, with a memo,
 an in-progress set that cuts cycles, and a depth fence. The two are defined independently and proved equal
 wherever the evaluator answers.
 */
module AuthzEngine {
  import opened AuthzTuple

  const MAX_DEPTH: nat := 32

  datatype Expr =
    | This
    | ComputedUserset(rel: string)
    | TupleToUserset(tupleset: string, computed: string)
    | Union(children: seq<Expr>)
    | Intersection(children: seq<Expr>)

  type Model = map<string, map<string, Expr>>

  /** The (object, relation) pair a check asks about; the subject is fixed for a whole check. */
  datatype Node = Node(objType: string, objId: string, rel: string)

  /** What one check is evaluated against. `company` is "" for an unbound check. */
  datatype Env = Env(model: Model, tuples: set<Tuple>, subjType: string, subjId: string, company: string)

  datatype Answer = Ok(allowed: bool) | DepthExceeded | UnknownType | UnknownRelation

  // ---- the meaning of a check ---------------------------------------------------------------

  predicate Defined(env: Env, x: Node) {
    x.objType in env.model && x.rel in env.model[x.objType]
  }

  function Definition(env: Env, x: Node): Expr
    requires Defined(env, x)
  {
    env.model[x.objType][x.rel]
  }

  /** t is a row of relation `rel` on x's object. */
  predicate RowOn(t: Tuple, x: Node, rel: string) {
    t.objectType == x.objType && t.objectId == x.objId && t.relation == rel
  }

  predicate NamesSubject(env: Env, t: Tuple) {
    t.subjectRelation == "" && t.subjectType == env.subjType && t.subjectId == env.subjId
  }

  function SubjectNode(t: Tuple): Node {
    Node(t.subjectType, t.subjectId, t.subjectRelation)
  }

  /** A position, group or member belongs to the company; no other subject type is scoped. */
  predicate InCompany(tuples: set<Tuple>, company: string, subjType: string, subjId: string) {
    if subjType == "position" || subjType == "group" then
      Tuple(subjType, subjId, "company", "company", company, "") in tuples
    else if subjType == "member" then
      Tuple("company", company, "member", "member", subjId, "mapped_user") in tuples
    else
      true
  }

  /** A bound check does not expand a userset row whose subject belongs to another company. */
  predicate Expands(env: Env, t: Tuple) {
    t.subjectRelation != "" && (env.company == "" || InCompany(env.tuples, env.company, t.subjectType, t.subjectId))
  }

  /** x holds by a derivation of height at most n that never passes through a node of `avoid`. */
  ghost predicate Holds(env: Env, avoid: set<Node>, x: Node, n: nat)
    decreases n, 0
  {
    n > 0 && x !in avoid && Defined(env, x) && HoldsExpr(env, avoid, x, Definition(env, x), n - 1)
  }

  ghost predicate HoldsExpr(env: Env, avoid: set<Node>, x: Node, e: Expr, n: nat)
    decreases n, 1, e
  {
    match e
    case This =>
      exists t :: t in env.tuples && RowOn(t, x, x.rel) &&
        (NamesSubject(env, t) || (Expands(env, t) && Holds(env, avoid, SubjectNode(t), n)))
    case ComputedUserset(rel) => Holds(env, avoid, Node(x.objType, x.objId, rel), n)
    case TupleToUserset(tupleset, computed) =>
      exists t :: t in env.tuples && RowOn(t, x, tupleset) && t.subjectRelation == "" &&
        Holds(env, avoid, Node(t.subjectType, t.subjectId, computed), n)
    case Union(children) => exists i :: 0 <= i < |children| && HoldsExpr(env, avoid, x, children[i], n)
    case Intersection(children) => forall i :: 0 <= i < |children| ==> HoldsExpr(env, avoid, x, children[i], n)
  }

  ghost predicate DerivableAvoiding(env: Env, avoid: set<Node>, x: Node) {
    exists n: nat :: Holds(env, avoid, x, n)
  }

  ghost predicate DerivableExpr(env: Env, avoid: set<Node>, x: Node, e: Expr) {
    exists n: nat :: HoldsExpr(env, avoid, x, e, n)
  }

  ghost predicate Derivable(env: Env, x: Node) {
    DerivableAvoiding(env, {}, x)
  }

  // ---- derivations --------------------------------------------------------------------------

  /** A derivation of some height is one of any greater height, and avoiding fewer nodes is easier. */
  lemma {:induction false} Weaken(env: Env, avoid: set<Node>, avoid': set<Node>, x: Node, m: nat, n: nat)
    requires m <= n && avoid' <= avoid
    requires Holds(env, avoid, x, m)
    ensures Holds(env, avoid', x, n)
    decreases m, 0
  {
    WeakenExpr(env, avoid, avoid', x, Definition(env, x), m - 1, n - 1);
  }

  lemma {:induction false} WeakenExpr(env: Env, avoid: set<Node>, avoid': set<Node>, x: Node, e: Expr, m: nat, n: nat)
    requires m <= n && avoid' <= avoid
    requires HoldsExpr(env, avoid, x, e, m)
    ensures HoldsExpr(env, avoid', x, e, n)
    decreases m, 1, e
  {
    match e
    case This =>
      var t :| t in env.tuples && RowOn(t, x, x.rel) &&
        (NamesSubject(env, t) || (Expands(env, t) && Holds(env, avoid, SubjectNode(t), m)));
      if !NamesSubject(env, t) {
        Weaken(env, avoid, avoid', SubjectNode(t), m, n);
      }
    case ComputedUserset(rel) => Weaken(env, avoid, avoid', Node(x.objType, x.objId, rel), m, n);
    case TupleToUserset(tupleset, computed) =>
      var t :| t in env.tuples && RowOn(t, x, tupleset) && t.subjectRelation == "" &&
        Holds(env, avoid, Node(t.subjectType, t.subjectId, computed), m);
      Weaken(env, avoid, avoid', Node(t.subjectType, t.subjectId, computed), m, n);
    case Union(children) =>
      var i :| 0 <= i < |children| && HoldsExpr(env, avoid, x, children[i], m);
      WeakenExpr(env, avoid, avoid', x, children[i], m, n);
    case Intersection(children) =>
      forall i | 0 <= i < |children|
        ensures HoldsExpr(env, avoid', x, children[i], n)
      {
        WeakenExpr(env, avoid, avoid', x, children[i], m, n);
      }
  }

  /** If `hub` has no derivation of height n or less, a derivation of height at most n never passes through it. */
  lemma {:induction false} Bypass(env: Env, avoid: set<Node>, hub: Node, x: Node, n: nat)
    requires !Holds(env, avoid, hub, n)
    requires Holds(env, avoid, x, n)
    ensures Holds(env, avoid + {hub}, x, n)
    decreases n, 0
  {
    if Holds(env, avoid, hub, n - 1) {
      Weaken(env, avoid, avoid, hub, n - 1, n);
    }
    BypassExpr(env, avoid, hub, x, Definition(env, x), n - 1);
  }

  lemma {:induction false} BypassExpr(env: Env, avoid: set<Node>, hub: Node, x: Node, e: Expr, n: nat)
    requires !Holds(env, avoid, hub, n)
    requires HoldsExpr(env, avoid, x, e, n)
    ensures HoldsExpr(env, avoid + {hub}, x, e, n)
    decreases n, 1, e
  {
    match e
    case This =>
      var t :| t in env.tuples && RowOn(t, x, x.rel) &&
        (NamesSubject(env, t) || (Expands(env, t) && Holds(env, avoid, SubjectNode(t), n)));
      if !NamesSubject(env, t) {
        Bypass(env, avoid, hub, SubjectNode(t), n);
      }
    case ComputedUserset(rel) => Bypass(env, avoid, hub, Node(x.objType, x.objId, rel), n);
    case TupleToUserset(tupleset, computed) =>
      var t :| t in env.tuples && RowOn(t, x, tupleset) && t.subjectRelation == "" &&
        Holds(env, avoid, Node(t.subjectType, t.subjectId, computed), n);
      Bypass(env, avoid, hub, Node(t.subjectType, t.subjectId, computed), n);
    case Union(children) =>
      var i :| 0 <= i < |children| && HoldsExpr(env, avoid, x, children[i], n);
      BypassExpr(env, avoid, hub, x, children[i], n);
    case Intersection(children) =>
      forall i | 0 <= i < |children|
        ensures HoldsExpr(env, avoid + {hub}, x, children[i], n)
      {
        BypassExpr(env, avoid, hub, x, children[i], n);
      }
  }

  /** A shortest derivation of x never uses x itself, so x is derivable exactly when its definition is
      derivable from nodes other than x. This is what makes a cycle cut lose nothing. */
  lemma {:induction false} CutLosesNothing(env: Env, avoid: set<Node>, x: Node, n: nat)
    requires Holds(env, avoid, x, n)
    ensures DerivableExpr(env, avoid + {x}, x, Definition(env, x))
  {
    if Holds(env, avoid, x, n - 1) {
      CutLosesNothing(env, avoid, x, n - 1);
    } else {
      BypassExpr(env, avoid, x, x, Definition(env, x), n - 1);
    }
  }

  // ---- what the meaning is ------------------------------------------------------------------

  /** One application of the model's definitions, with `known` deciding the nodes an expression asks about. */
  ghost predicate Step(env: Env, known: Node -> bool, x: Node, e: Expr) {
    match e
    case This =>
      exists t :: t in env.tuples && RowOn(t, x, x.rel) &&
        (NamesSubject(env, t) || (Expands(env, t) && known(SubjectNode(t))))
    case ComputedUserset(rel) => known(Node(x.objType, x.objId, rel))
    case TupleToUserset(tupleset, computed) =>
      exists t :: t in env.tuples && RowOn(t, x, tupleset) && t.subjectRelation == "" &&
        known(Node(t.subjectType, t.subjectId, computed))
    case Union(children) => exists i :: 0 <= i < |children| && Step(env, known, x, children[i])
    case Intersection(children) => forall i :: 0 <= i < |children| ==> Step(env, known, x, children[i])
  }

  /** `known` is closed under the model: whatever the definitions give, it contains. */
  ghost predicate Closed(env: Env, known: Node -> bool) {
    forall x :: Defined(env, x) && Step(env, known, x, Definition(env, x)) ==> known(x)
  }

  /** Derivability lies inside every relation closed under the model. */
  lemma {:induction false} InsideEveryClosed(env: Env, known: Node -> bool, x: Node, n: nat)
    requires Closed(env, known) && Holds(env, {}, x, n)
    ensures known(x)
    decreases n, 0
  {
    StepFromHolds(env, known, x, Definition(env, x), n - 1);
  }

  lemma {:induction false} StepFromHolds(env: Env, known: Node -> bool, x: Node, e: Expr, n: nat)
    requires Closed(env, known) && HoldsExpr(env, {}, x, e, n)
    ensures Step(env, known, x, e)
    decreases n, 1, e
  {
    match e
    case This =>
      var t :| t in env.tuples && RowOn(t, x, x.rel) &&
        (NamesSubject(env, t) || (Expands(env, t) && Holds(env, {}, SubjectNode(t), n)));
      if !NamesSubject(env, t) {
        InsideEveryClosed(env, known, SubjectNode(t), n);
      }
    case ComputedUserset(rel) => InsideEveryClosed(env, known, Node(x.objType, x.objId, rel), n);
    case TupleToUserset(tupleset, computed) =>
      var t :| t in env.tuples && RowOn(t, x, tupleset) && t.subjectRelation == "" &&
        Holds(env, {}, Node(t.subjectType, t.subjectId, computed), n);
      InsideEveryClosed(env, known, Node(t.subjectType, t.subjectId, computed), n);
    case Union(children) =>
      var i :| 0 <= i < |children| && HoldsExpr(env, {}, x, children[i], n);
      StepFromHolds(env, known, x, children[i], n);
    case Intersection(children) =>
      forall i | 0 <= i < |children|
        ensures Step(env, known, x, children[i])
      {
        StepFromHolds(env, known, x, children[i], n);
      }
  }

  /** Whatever one step derives from derivable nodes has a derivation of its own. */
  lemma {:induction false} HoldsFromStep(env: Env, x: Node, e: Expr) returns (n: nat)
    requires Step(env, y => Derivable(env, y), x, e)
    ensures HoldsExpr(env, {}, x, e, n)
    decreases e
  {
    match e
    case This =>
      var t :| t in env.tuples && RowOn(t, x, x.rel) &&
        (NamesSubject(env, t) || (Expands(env, t) && Derivable(env, SubjectNode(t))));
      if NamesSubject(env, t) { return 0; }
      n :| Holds(env, {}, SubjectNode(t), n);
    case ComputedUserset(rel) => n :| Holds(env, {}, Node(x.objType, x.objId, rel), n);
    case TupleToUserset(tupleset, computed) =>
      var t :| t in env.tuples && RowOn(t, x, tupleset) && t.subjectRelation == "" &&
        Derivable(env, Node(t.subjectType, t.subjectId, computed));
      n :| Holds(env, {}, Node(t.subjectType, t.subjectId, computed), n);
    case Union(children) =>
      var i :| 0 <= i < |children| && Step(env, y => Derivable(env, y), x, children[i]);
      n := HoldsFromStep(env, x, children[i]);
    case Intersection(children) =>
      n := 0;
      for i := 0 to |children|
        invariant forall j :: 0 <= j < i ==> HoldsExpr(env, {}, x, children[j], n)
      {
        var k := HoldsFromStep(env, x, children[i]);
        var higher := if k < n then n else k;
        forall j | 0 <= j <= i
          ensures HoldsExpr(env, {}, x, children[j], higher)
        {
          WeakenExpr(env, {}, {}, x, children[j], if j == i then k else n, higher);
        }
        n := higher;
      }
  }

  /** Derivability is the least relation closed under the model: it is closed, and inside every closed one. */
  lemma LeastFixpoint(env: Env)
    ensures Closed(env, y => Derivable(env, y))
    ensures forall known: Node -> bool, x :: Closed(env, known) && Derivable(env, x) ==> known(x)
  {
    forall x | Defined(env, x) && Step(env, y => Derivable(env, y), x, Definition(env, x))
      ensures Derivable(env, x)
    {
      var n := HoldsFromStep(env, x, Definition(env, x));
      assert Holds(env, {}, x, n + 1);
    }
    forall known: Node -> bool, x | Closed(env, known) && Derivable(env, x)
      ensures known(x)
    {
      var n: nat :| Holds(env, {}, x, n);
      InsideEveryClosed(env, known, x, n);
    }
  }

  predicate Direct(model: Model, objType: string, rel: string) {
    objType in model && rel in model[objType] && model[objType][rel] == This
  }

  /** A direct relation holds when a row names the subject or a userset that holds. */
  lemma DirectHolds(env: Env, x: Node)
    requires Direct(env.model, x.objType, x.rel)
    ensures Derivable(env, x) <==>
            exists t :: t in env.tuples && RowOn(t, x, x.rel) &&
              (NamesSubject(env, t) || (Expands(env, t) && Derivable(env, SubjectNode(t))))
  {
    if n: nat :| Holds(env, {}, x, n) {
      assert HoldsExpr(env, {}, x, This, n - 1);
      var t :| t in env.tuples && RowOn(t, x, x.rel) &&
        (NamesSubject(env, t) || (Expands(env, t) && Holds(env, {}, SubjectNode(t), n - 1)));
    }
    if t :|
      && t in env.tuples && RowOn(t, x, x.rel)
      && (NamesSubject(env, t) || (Expands(env, t) && Derivable(env, SubjectNode(t)))) {
      var n: nat := 0;
      if !NamesSubject(env, t) { n :| Holds(env, {}, SubjectNode(t), n); }
      assert HoldsExpr(env, {}, x, This, n);
      assert Holds(env, {}, x, n + 1);
    }
  }

  // ---- binding a check to a company -----------------------------------------------------------

  /** A position or group without its company row, or a member without its membership row. */
  predicate LacksRow(tuples: set<Tuple>, company: string, typ: string, id: string) {
    || (typ == "position" && Tuple("position", id, "company", "company", company, "") !in tuples)
    || (typ == "group" && Tuple("group", id, "company", "company", company, "") !in tuples)
    || (typ == "member" && Tuple("company", company, "member", "member", id, "mapped_user") !in tuples)
  }

  /** A userset row that names one. */
  predicate Foreign(tuples: set<Tuple>, company: string, t: Tuple) {
    t.subjectRelation != "" && LacksRow(tuples, company, t.subjectType, t.subjectId)
  }

  /** The tuples a check bound to `company` reads: userset rows of another company's position, group or
      member are gone. */
  function VisibleIn(tuples: set<Tuple>, company: string): set<Tuple> {
    set t | t in tuples && !Foreign(tuples, company, t)
  }

  /** Every derivation from fewer tuples, or under a company, is one from more tuples without a company. */
  lemma {:induction false} MoreTuples(env: Env, env': Env, x: Node, n: nat)
    requires env'.(tuples := env.tuples, company := env.company) == env
    requires forall t :: t in env.tuples && (t.subjectRelation == "" || Expands(env, t)) ==>
      t in env'.tuples && (t.subjectRelation == "" || Expands(env', t))
    requires Holds(env, {}, x, n)
    ensures Holds(env', {}, x, n)
    decreases n, 0
  {
    MoreTuplesExpr(env, env', x, Definition(env, x), n - 1);
  }

  lemma {:induction false} MoreTuplesExpr(env: Env, env': Env, x: Node, e: Expr, n: nat)
    requires env'.(tuples := env.tuples, company := env.company) == env
    requires forall t :: t in env.tuples && (t.subjectRelation == "" || Expands(env, t)) ==>
      t in env'.tuples && (t.subjectRelation == "" || Expands(env', t))
    requires HoldsExpr(env, {}, x, e, n)
    ensures HoldsExpr(env', {}, x, e, n)
    decreases n, 1, e
  {
    match e
    case This =>
      var t :| t in env.tuples && RowOn(t, x, x.rel) &&
        (NamesSubject(env, t) || (Expands(env, t) && Holds(env, {}, SubjectNode(t), n)));
      if !NamesSubject(env, t) {
        MoreTuples(env, env', SubjectNode(t), n);
      }
    case ComputedUserset(rel) => MoreTuples(env, env', Node(x.objType, x.objId, rel), n);
    case TupleToUserset(tupleset, computed) =>
      var t :| t in env.tuples && RowOn(t, x, tupleset) && t.subjectRelation == "" &&
        Holds(env, {}, Node(t.subjectType, t.subjectId, computed), n);
      MoreTuples(env, env', Node(t.subjectType, t.subjectId, computed), n);
    case Union(children) =>
      var i :| 0 <= i < |children| && HoldsExpr(env, {}, x, children[i], n);
      MoreTuplesExpr(env, env', x, children[i], n);
    case Intersection(children) =>
      forall i | 0 <= i < |children|
        ensures HoldsExpr(env', {}, x, children[i], n)
      {
        MoreTuplesExpr(env, env', x, children[i], n);
      }
  }

  /** Access only grows with the tuple table: no relation of the model can be taken away by adding a tuple. */
  lemma TuplesOnlyAdd(env: Env, more: set<Tuple>, x: Node)
    requires env.tuples <= more && Derivable(env, x)
    ensures Derivable(env.(tuples := more), x)
  {
    var n: nat :| Holds(env, {}, x, n);
    MoreTuples(env, env.(tuples := more), x, n);
  }

  /** A check bound to a company is a plain check over the tuples visible in it: a userset row naming another
      company's position, group or member grants nothing, however it was written. */
  lemma BoundCheckIsPlainCheck(env: Env, x: Node)
    requires env.company != ""
    ensures Derivable(env, x) <==> Derivable(env.(tuples := VisibleIn(env.tuples, env.company), company := ""), x)
    ensures Derivable(env, x) ==> Derivable(env.(company := ""), x)
  {
    var visible := env.(tuples := VisibleIn(env.tuples, env.company), company := "");
    if n: nat :| Holds(env, {}, x, n) {
      MoreTuples(env, visible, x, n);
      MoreTuples(env, env.(company := ""), x, n);
    }
    if n: nat :| Holds(visible, {}, x, n) {
      MoreTuples(visible, env, x, n);
    }
  }

  /** One foreign row can be taken out of the table without changing any answer. */
  lemma ForeignRowGrantsNothing(env: Env, t: Tuple, x: Node)
    requires env.company != "" && Foreign(env.tuples, env.company, t)
    ensures Derivable(env, x) <==> Derivable(env.(tuples := env.tuples - {t}), x)
  {
    var without := env.(tuples := env.tuples - {t});
    if n: nat :| Holds(env, {}, x, n) { MoreTuples(env, without, x, n); }
    if n: nat :| Holds(without, {}, x, n) { MoreTuples(without, env, x, n); }
  }

  /** Where no row is foreign, binding the check to the company changes no answer. */
  lemma OwnRowsUnaffected(env: Env, x: Node)
    requires env.company != "" && forall t :: t in env.tuples ==> !Foreign(env.tuples, env.company, t)
    ensures Derivable(env, x) <==> Derivable(env.(company := ""), x)
  {
    assert VisibleIn(env.tuples, env.company) == env.tuples;
    BoundCheckIsPlainCheck(env, x);
  }

  // ---- the meaning row by row -----------------------------------------------------------------

  /** What an unbound check means, kind by kind, over the rows themselves. */
  lemma Means(env: Env, x: Node, e: Expr)
    requires env.company == ""
    ensures Derivable(env, x) <==> Defined(env, x) && DerivableExpr(env, {}, x, Definition(env, x))
    ensures e.This? ==> (DerivableExpr(env, {}, x, e) <==> GrantedByRow(env, x))
    ensures e.ComputedUserset? ==>
      (DerivableExpr(env, {}, x, e) <==> Derivable(env, Node(x.objType, x.objId, e.rel)))
    ensures e.TupleToUserset? ==> (DerivableExpr(env, {}, x, e) <==> GrantedByParent(env, x, e.tupleset, e.computed))
    ensures e.Union? ==>
      (DerivableExpr(env, {}, x, e) <==> exists i :: 0 <= i < |e.children| && DerivableExpr(env, {}, x, e.children[i]))
    ensures e.Intersection? ==>
      (DerivableExpr(env, {}, x, e) <==>
        forall i :: 0 <= i < |e.children| ==> DerivableExpr(env, {}, x, e.children[i]))
  {
    DerivableIsDefinition(env, x);
    DerivableIsStep(env, x, e);
    if e.Union? || e.Intersection? {
      forall i | 0 <= i < |e.children|
        ensures DerivableExpr(env, {}, x, e.children[i]) <==> Step(env, y => Derivable(env, y), x, e.children[i])
      {
        DerivableIsStep(env, x, e.children[i]);
      }
    } else if e.This? {
      GrantedByRowIs(env, x);
    } else if e.TupleToUserset? {
      GrantedByParentIs(env, x, e.tupleset, e.computed);
    }
  }

  /** A row names the subject, or a userset the subject has. */
  ghost predicate GrantedByRow(env: Env, x: Node) {
    || Tuple(x.objType, x.objId, x.rel, env.subjType, env.subjId, "") in env.tuples
    || exists typ, id, rel :: GrantedThrough(env, x, typ, id, rel)
  }

  ghost predicate GrantedThrough(env: Env, x: Node, typ: string, id: string, rel: string) {
    rel != "" && Tuple(x.objType, x.objId, x.rel, typ, id, rel) in env.tuples && Derivable(env, Node(typ, id, rel))
  }

  /** A row of the tupleset names an object on which the subject has the computed relation. */
  ghost predicate GrantedByParent(env: Env, x: Node, tupleset: string, computed: string) {
    exists typ, id :: Tuple(x.objType, x.objId, tupleset, typ, id, "") in env.tuples &&
      Derivable(env, Node(typ, id, computed))
  }

  lemma DerivableIsDefinition(env: Env, x: Node)
    ensures Derivable(env, x) <==> Defined(env, x) && DerivableExpr(env, {}, x, Definition(env, x))
  {
    if Defined(env, x) {
      if n: nat :| Holds(env, {}, x, n) { assert HoldsExpr(env, {}, x, Definition(env, x), n - 1); }
      if n: nat :| HoldsExpr(env, {}, x, Definition(env, x), n) { assert Holds(env, {}, x, n + 1); }
    }
  }

  lemma DerivableIsStep(env: Env, x: Node, e: Expr)
    ensures DerivableExpr(env, {}, x, e) <==> Step(env, y => Derivable(env, y), x, e)
  {
    var known := y => Derivable(env, y);
    LeastFixpoint(env);
    if n: nat :| HoldsExpr(env, {}, x, e, n) { StepFromHolds(env, known, x, e, n); }
    if Step(env, known, x, e) { var n := HoldsFromStep(env, x, e); }
  }

  lemma GrantedByRowIs(env: Env, x: Node)
    requires env.company == ""
    ensures Step(env, y => Derivable(env, y), x, This) <==> GrantedByRow(env, x)
  {
    var direct := Tuple(x.objType, x.objId, x.rel, env.subjType, env.subjId, "");
    assert RowOn(direct, x, x.rel) && NamesSubject(env, direct);
    if typ, id, rel :| GrantedThrough(env, x, typ, id, rel) {
      var t := Tuple(x.objType, x.objId, x.rel, typ, id, rel);
      assert RowOn(t, x, x.rel) && Expands(env, t) && SubjectNode(t) == Node(typ, id, rel);
    }
    if t :|
      && t in env.tuples && RowOn(t, x, x.rel)
      && (NamesSubject(env, t) || (Expands(env, t) && Derivable(env, SubjectNode(t)))) {
      assert t == Tuple(x.objType, x.objId, x.rel, t.subjectType, t.subjectId, t.subjectRelation);
      assert NamesSubject(env, t) || GrantedThrough(env, x, t.subjectType, t.subjectId, t.subjectRelation);
    }
  }

  lemma GrantedByParentIs(env: Env, x: Node, tupleset: string, computed: string)
    ensures Step(env, y => Derivable(env, y), x, TupleToUserset(tupleset, computed))
      <==> GrantedByParent(env, x, tupleset, computed)
  {
    if typ, id :|
      && Tuple(x.objType, x.objId, tupleset, typ, id, "") in env.tuples
      && Derivable(env, Node(typ, id, computed)) {
      assert RowOn(Tuple(x.objType, x.objId, tupleset, typ, id, ""), x, tupleset);
    }
    if t :|
      && t in env.tuples && RowOn(t, x, tupleset) && t.subjectRelation == ""
      && Derivable(env, Node(t.subjectType, t.subjectId, computed)) {
      assert t == Tuple(x.objType, x.objId, tupleset, t.subjectType, t.subjectId, "");
    }
  }
}
