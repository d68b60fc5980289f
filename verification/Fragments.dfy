/**
 Module authorization fragments: the registry stores one per module, and every request merges the enabled ones with
 the base model. The registry's write checks make the merge succeed; whether the load does depends on the one check
 the registry does not make, that computed targets are defined somewhere in the merge.
 */
module Fragments {
  import opened AuthzEngine

  /** An authz.model_fragment row. */
  datatype Fragment = Fragment(model: Model, active: bool)

  type Rows = map<string, Fragment>

  datatype Change = Upsert(moduleKey: string, model: Model, active: bool) | SetActive(moduleKey: string, active: bool)

  /** Every declared type defines `company_module` as a direct relation. */
  predicate Anchored(model: Model) {
    forall t :: t in model ==> "company_module" in model[t] && model[t]["company_module"] == This
  }

  /** The relations a definition names on its own object are among `rels`. */
  predicate NamesOwn(e: Expr, rels: set<string>) {
    match e
    case This => true
    case ComputedUserset(rel) => rel in rels
    case TupleToUserset(tupleset, _) => tupleset in rels
    case Union(children) => forall i :: 0 <= i < |children| ==> NamesOwn(children[i], rels)
    case Intersection(children) => forall i :: 0 <= i < |children| ==> NamesOwn(children[i], rels)
  }

  /** The subset wall: every same-object reference names a relation of the same type. */
  predicate SelfContained(model: Model) {
    forall t :: t in model ==> forall r :: r in model[t] ==> NamesOwn(model[t][r], model[t].Keys)
  }

  /** The relations a definition reads on other objects are known. */
  ghost predicate TargetsIn(e: Expr, known: string -> bool) {
    match e
    case This => true
    case ComputedUserset(_) => true
    case TupleToUserset(_, computed) => known(computed)
    case Union(children) => forall i :: 0 <= i < |children| ==> TargetsIn(children[i], known)
    case Intersection(children) => forall i :: 0 <= i < |children| ==> TargetsIn(children[i], known)
  }

  ghost predicate ModelTargetsIn(model: Model, known: string -> bool) {
    forall t :: t in model ==> forall r :: r in model[t] ==> TargetsIn(model[t][r], known)
  }

  ghost predicate DefinesRelation(model: Model, rel: string) {
    exists t :: t in model && rel in model[t]
  }

  /** Every target of the model is a relation of some type of the model. */
  ghost predicate TargetsDefined(model: Model) {
    ModelTargetsIn(model, rel => DefinesRelation(model, rel))
  }

  predicate DeclaresBaseType(base: Model, model: Model) {
    exists t :: t in model && t in base
  }

  predicate DeclaredElsewhere(rows: Rows, moduleKey: string, model: Model) {
    exists k, t :: k in rows && k != moduleKey && t in rows[k].model && t in model
  }

  /** A refused change writes nothing. A fragment without types is no fragment. */
  function Apply(base: Model, rows: Rows, c: Change): Rows {
    match c
    case Upsert(moduleKey, model, active) =>
      if model == map[] || !SelfContained(model) || !Anchored(model) then rows
      else if DeclaresBaseType(base, model) || DeclaredElsewhere(rows, moduleKey, model) then rows
      else rows[moduleKey := Fragment(model, active)]
    case SetActive(moduleKey, active) =>
      if moduleKey in rows then rows[moduleKey := rows[moduleKey].(active := active)] else rows
  }

  function Run(base: Model, rows: Rows, changes: seq<Change>): Rows
    decreases |changes|
  {
    if changes == [] then rows else Run(base, Apply(base, rows, changes[0]), changes[1..])
  }

  /** One module owns a type, no module owns a base type, and every fragment passed the wall and is anchored. */
  ghost predicate Good(base: Model, rows: Rows) {
    && (forall k {:trigger rows[k]} :: k in rows ==>
          SelfContained(rows[k].model) && Anchored(rows[k].model) && !DeclaresBaseType(base, rows[k].model))
    && (forall j, k, t {:trigger t in rows[j].model, t in rows[k].model} ::
          j in rows && k in rows && t in rows[j].model && t in rows[k].model ==> j == k)
  }

  lemma StepKeepsGood(base: Model, rows: Rows, c: Change)
    requires Good(base, rows)
    ensures Good(base, Apply(base, rows, c))
  {
    hide SelfContained, Anchored;
  }

  lemma {:induction false} RunKeepsGood(base: Model, rows: Rows, changes: seq<Change>)
    requires Good(base, rows)
    ensures Good(base, Run(base, rows, changes))
    decreases |changes|
  {
    if changes != [] {
      StepKeepsGood(base, rows, changes[0]);
      RunKeepsGood(base, Apply(base, rows, changes[0]), changes[1..]);
    }
  }

  /** The effective model: the merged definitions, the module that owns each non-base type, and the registry's map of
      known modules to whether they are enabled. */
  datatype Loaded = Loaded(model: Model, typeOwner: map<string, string>, known: map<string, bool>)

  datatype LoadResult = Effective(loaded: Loaded) | LoadRefused

  predicate InEffect(rows: Rows, known: map<string, bool>, k: string) {
    k in rows && k in known && known[k] && rows[k].active
  }

  /** The merge of the base model with the fragments of `from` that are in effect: base types keep their definition
      and have no owner, and a type is owned by a module exactly when that module's fragment declares it. */
  ghost predicate Merged(base: Model, rows: Rows, known: map<string, bool>, from: set<string>, l: Loaded) {
    && (forall t :: t in base ==> t in l.model && l.model[t] == base[t] && t !in l.typeOwner)
    && OwnersDeclare(rows, known, from, l)
    && DeclaredAreOwned(rows, known, from, l)
    && (forall t :: t in l.model ==> t in base || t in l.typeOwner)
  }

  /** Each owned type is the one its owner's fragment in effect declares. */
  ghost predicate OwnersDeclare(rows: Rows, known: map<string, bool>, from: set<string>, l: Loaded) {
    forall t :: t in l.typeOwner ==>
      var k := l.typeOwner[t];
      k in from && InEffect(rows, known, k) && t in rows[k].model && t in l.model && l.model[t] == rows[k].model[t]
  }

  /** Each type a fragment in effect declares is owned by its module. */
  ghost predicate DeclaredAreOwned(rows: Rows, known: map<string, bool>, from: set<string>, l: Loaded) {
    forall k, t {:trigger t in rows[k].model} :: k in from && InEffect(rows, known, k) && t in rows[k].model ==>
      t in l.typeOwner && l.typeOwner[t] == k
  }

  /** What a load yields: the merge, with every owned type anchored and every target defined. */
  ghost predicate IsEffective(base: Model, rows: Rows, known: map<string, bool>, l: Loaded) {
    l.known == known && Merged(base, rows, known, rows.Keys, l) && AnchoredOwned(l) && TargetsDefined(l.model)
  }

  ghost predicate AnchoredOwned(l: Loaded) {
    forall t :: t in l.typeOwner ==> t in l.model && Direct(l.model, t, "company_module")
  }

  /** A relation of the base model or of a fragment in effect. */
  ghost predicate InMerge(base: Model, rows: Rows, known: map<string, bool>, rel: string) {
    DefinesRelation(base, rel) || exists k :: InEffect(rows, known, k) && DefinesRelation(rows[k].model, rel)
  }

  /** Every target of the base model and of the fragments in effect is defined in the merge. */
  ghost predicate TargetsResolve(base: Model, rows: Rows, known: map<string, bool>) {
    && ModelTargetsIn(base, rel => InMerge(base, rows, known, rel))
    && forall k :: InEffect(rows, known, k) ==> ModelTargetsIn(rows[k].model, rel => InMerge(base, rows, known, rel))
  }

  function Add(l: Loaded, k: string, m: Model): Loaded {
    l.(model := l.model + m, typeOwner := l.typeOwner + map t | t in m :: k)
  }

  lemma AddKeepsOwners(rows: Rows, known: map<string, bool>, from: set<string>, l: Loaded, k: string)
    requires OwnersDeclare(rows, known, from, l) && DeclaredAreOwned(rows, known, from, l) && InEffect(rows, known, k)
    requires forall t :: t in rows[k].model ==> t !in l.typeOwner
    ensures OwnersDeclare(rows, known, from + {k}, Add(l, k, rows[k].model))
    ensures DeclaredAreOwned(rows, known, from + {k}, Add(l, k, rows[k].model))
  {
    var m := rows[k].model;
    var added := Add(l, k, m);
    forall t | t in added.typeOwner
      ensures
        var o := added.typeOwner[t];
        o in from + {k} && InEffect(rows, known, o) && t in rows[o].model && t in added.model &&
          added.model[t] == rows[o].model[t]
    {
      if t !in m { assert t in l.typeOwner && added.typeOwner[t] == l.typeOwner[t]; }
    }
    forall o, t | o in from + {k} && InEffect(rows, known, o) && t in rows[o].model
      ensures t in added.typeOwner && added.typeOwner[t] == o
    {
      if o in from { assert t in l.typeOwner && l.typeOwner[t] == o; }
    }
  }

  lemma AddKeepsMerged(base: Model, rows: Rows, known: map<string, bool>, from: set<string>, l: Loaded, k: string)
    requires Merged(base, rows, known, from, l) && InEffect(rows, known, k)
    requires forall t :: t in rows[k].model ==> t !in base && t !in l.typeOwner
    ensures Merged(base, rows, known, from + {k}, Add(l, k, rows[k].model))
  {
    hide OwnersDeclare, DeclaredAreOwned;
    AddKeepsOwners(rows, known, from, l, k);
  }

  // ---- targets ----------------------------------------------------------------------------------------------------

  lemma {:induction false} TargetsGrow(e: Expr, known: string -> bool, more: string -> bool)
    requires TargetsIn(e, known) && forall rel :: known(rel) ==> more(rel)
    ensures TargetsIn(e, more)
  {
    if e.Union? || e.Intersection? {
      forall i | 0 <= i < |e.children|
        ensures TargetsIn(e.children[i], more)
      {
        TargetsGrow(e.children[i], known, more);
      }
    }
  }

  lemma ModelTargetsGrow(model: Model, known: string -> bool, more: string -> bool)
    requires ModelTargetsIn(model, known) && forall rel :: known(rel) ==> more(rel)
    ensures ModelTargetsIn(model, more)
  {
    forall t, r | t in model && r in model[t]
      ensures TargetsIn(model[t][r], more)
    {
      TargetsGrow(model[t][r], known, more);
    }
  }

  lemma MergeRelations(base: Model, rows: Rows, known: map<string, bool>, l: Loaded, rel: string)
    requires Merged(base, rows, known, rows.Keys, l)
    ensures DefinesRelation(l.model, rel) <==> InMerge(base, rows, known, rel)
  {
    if t :| t in l.model && rel in l.model[t] {
      if t in l.typeOwner {
        assert DefinesRelation(rows[l.typeOwner[t]].model, rel);
      } else {
        assert t in base && rel in base[t];
      }
    }
    if t :| t in base && rel in base[t] { assert t in l.model && rel in l.model[t]; }
    if k :| InEffect(rows, known, k) && DefinesRelation(rows[k].model, rel) {
      var t :| t in rows[k].model && rel in rows[k].model[t];
      assert t in l.typeOwner && t in l.model && rel in l.model[t];
    }
  }

  /** The merge passes the target check exactly when the targets of its parts resolve in it. */
  lemma MergeTargets(base: Model, rows: Rows, known: map<string, bool>, l: Loaded)
    requires Merged(base, rows, known, rows.Keys, l)
    ensures TargetsDefined(l.model) <==> TargetsResolve(base, rows, known)
  {
    var here := rel => DefinesRelation(l.model, rel);
    var there := rel => InMerge(base, rows, known, rel);
    forall rel
      ensures here(rel) == there(rel)
    {
      MergeRelations(base, rows, known, l, rel);
    }
    if TargetsDefined(l.model) {
      ModelTargetsGrow(l.model, here, there);
      assert ModelTargetsIn(base, there);
      forall k | InEffect(rows, known, k)
        ensures ModelTargetsIn(rows[k].model, there)
      {
        assert forall t :: t in rows[k].model ==> t in l.typeOwner && l.model[t] == rows[k].model[t];
      }
    }
    if TargetsResolve(base, rows, known) {
      forall t, r | t in l.model && r in l.model[t]
        ensures TargetsIn(l.model[t][r], there)
      {
        if t in l.typeOwner {
          assert ModelTargetsIn(rows[l.typeOwner[t]].model, there);
        } else {
          assert ModelTargetsIn(base, there);
        }
      }
      ModelTargetsGrow(l.model, there, here);
    }
  }

  // ---- the load ---------------------------------------------------------------------------------------------------

  method WalkTargets(e: Expr, defined: set<string>) returns (ok: bool)
    ensures ok <==> TargetsIn(e, rel => rel in defined)
  {
    if e.TupleToUserset? && e.computed !in defined { return false; }
    if e.Union? || e.Intersection? {
      for i := 0 to |e.children|
        invariant forall j :: 0 <= j < i ==> TargetsIn(e.children[j], rel => rel in defined)
      {
        var child := WalkTargets(e.children[i], defined);
        if !child { return false; }
      }
    }
    return true;
  }

  method ValidateTargets(model: Model) returns (ok: bool)
    ensures ok <==> TargetsDefined(model)
  {
    var defined := set t, r | t in model && r in model[t] :: r;
    ghost var known, here := rel => rel in defined, rel => DefinesRelation(model, rel);
    var types := model.Keys;
    while types != {}
      invariant types <= model.Keys
      invariant forall t :: t in model && t !in types ==> forall r :: r in model[t] ==> TargetsIn(model[t][r], known)
      decreases types
    {
      var t :| t in types;
      var rels := model[t].Keys;
      while rels != {}
        invariant rels <= model[t].Keys
        invariant forall r :: r in model[t] && r !in rels ==> TargetsIn(model[t][r], known)
        decreases rels
      {
        var r :| r in rels;
        ok := WalkTargets(model[t][r], defined);
        if !ok {
          if ModelTargetsIn(model, here) { ModelTargetsGrow(model, here, known); }
          return;
        }
        rels := rels - {r};
      }
      types := types - {t};
    }
    ModelTargetsGrow(model, known, here);
    return true;
  }

  ghost predicate MergedSoFar(base: Model, rows: Rows, known: map<string, bool>, from: set<string>, l: Loaded) {
    l.known == known && Merged(base, rows, known, from, l) && AnchoredOwned(l)
  }

  /** One stored row: a fragment in effect is refused for a broken reference, a base type, a second owner or a missing
      anchor; an inert one adds nothing. */
  method MergeRow(base: Model, rows: Rows, known: map<string, bool>, ghost from: set<string>, l: Loaded, k: string)
    returns (r: LoadResult)
    requires MergedSoFar(base, rows, known, from, l) && k in rows && k !in from
    ensures Good(base, rows) ==> r.Effective?
    ensures r.Effective? ==> MergedSoFar(base, rows, known, from + {k}, r.loaded)
  {
    hide SelfContained;
    if !InEffect(rows, known, k) {
      InertAddsNothing(base, rows, known, from, l, k);
      return Effective(l);
    }
    var m := rows[k].model;
    if !SelfContained(m) { return LoadRefused; }
    if exists t :: t in m && t in base { return LoadRefused; }
    if t :| t in m && t in l.typeOwner {
      assert t in rows[l.typeOwner[t]].model && t in rows[k].model;
      return LoadRefused;
    }
    if !Anchored(m) { return LoadRefused; }
    AddKeepsMerged(base, rows, known, from, l, k);
    AddKeepsAnchored(l, k, m);
    return Effective(Add(l, k, m));
  }

  lemma InertAddsNothing(base: Model, rows: Rows, known: map<string, bool>, from: set<string>, l: Loaded, k: string)
    requires Merged(base, rows, known, from, l) && !InEffect(rows, known, k)
    ensures Merged(base, rows, known, from + {k}, l)
  {
    assert OwnersDeclare(rows, known, from + {k}, l);
    assert DeclaredAreOwned(rows, known, from + {k}, l);
  }

  /** The walk over the stored rows, in any order. */
  method MergeRows(base: Model, rows: Rows, order: seq<string>, known: map<string, bool>) returns (r: LoadResult)
    requires (forall k :: k in order <==> k in rows) && forall i, j :: 0 <= i < j < |order| ==> order[i] != order[j]
    ensures Good(base, rows) ==> r.Effective?
    ensures r.Effective? ==> MergedSoFar(base, rows, known, rows.Keys, r.loaded)
  {
    hide Good, MergedSoFar;
    r := Effective(Loaded(base, map[], known));
    NothingMerged(base, rows, known);
    ghost var from: set<string> := {};
    for i := 0 to |order|
      invariant r.Effective? && MergedSoFar(base, rows, known, from, r.loaded)
      invariant forall k :: k in from <==> k in order[..i]
    {
      assert order[i] in order;
      r := MergeRow(base, rows, known, from, r.loaded, order[i]);
      if r.LoadRefused? { return; }
      from := from + {order[i]};
    }
    assert from == rows.Keys;
  }

  lemma NothingMerged(base: Model, rows: Rows, known: map<string, bool>)
    ensures MergedSoFar(base, rows, known, {}, Loaded(base, map[], known))
  {
  }

  lemma AddKeepsAnchored(l: Loaded, k: string, m: Model)
    requires AnchoredOwned(l) && Anchored(m)
    ensures AnchoredOwned(Add(l, k, m))
  {
  }

  /** The load of every request: the merge, then the target check. A table the registry keeps loads exactly when the
      targets in effect resolve. */
  method Load(base: Model, rows: Rows, order: seq<string>, known: map<string, bool>) returns (r: LoadResult)
    requires (forall k :: k in order <==> k in rows) && forall i, j :: 0 <= i < j < |order| ==> order[i] != order[j]
    ensures Good(base, rows) ==> (r.Effective? <==> TargetsResolve(base, rows, known))
    ensures r.Effective? ==> IsEffective(base, rows, known, r.loaded)
  {
    hide TargetsResolve, TargetsDefined, Good, Merged, AnchoredOwned;
    r := MergeRows(base, rows, order, known);
    if r.LoadRefused? { return; }
    MergeTargets(base, rows, known, r.loaded);
    var ok := ValidateTargets(r.loaded.model);
    if !ok { return LoadRefused; }
  }

  /** After any run of registrations and toggles no base type has an owner in what a load yields. */
  lemma BaseTypesUnowned(base: Model, rows: Rows, changes: seq<Change>, known: map<string, bool>, l: Loaded, t: string)
    requires IsEffective(base, Run(base, rows, changes), known, l)
    ensures t in base ==> t !in l.typeOwner
    ensures t in l.typeOwner ==> Direct(l.model, t, "company_module")
  {
  }

  // ---- runs that always load ----------------------------------------------------------------------------------------

  /** The check a module's own validation makes: the targets of the fragment are defined in it or in the base model. */
  ghost predicate ResolvesAlone(base: Model, model: Model) {
    ModelTargetsIn(model, rel => DefinesRelation(base, rel) || DefinesRelation(model, rel))
  }

  ghost predicate PassesValidation(base: Model, c: Change) {
    c.Upsert? ==> ResolvesAlone(base, c.model)
  }

  ghost predicate AllResolveAlone(base: Model, rows: Rows) {
    forall k :: k in rows ==> ResolvesAlone(base, rows[k].model)
  }

  lemma StepKeepsResolving(base: Model, rows: Rows, c: Change)
    requires AllResolveAlone(base, rows) && PassesValidation(base, c)
    ensures AllResolveAlone(base, Apply(base, rows, c))
  {
    hide ResolvesAlone, SelfContained, Anchored, DeclaresBaseType, DeclaredElsewhere;
  }

  lemma {:induction false} RunKeepsResolving(base: Model, rows: Rows, changes: seq<Change>)
    requires AllResolveAlone(base, rows) && forall c :: c in changes ==> PassesValidation(base, c)
    ensures AllResolveAlone(base, Run(base, rows, changes))
    decreases |changes|
  {
    if changes != [] {
      hide AllResolveAlone, PassesValidation, Apply;
      StepKeepsResolving(base, rows, changes[0]);
      RunKeepsResolving(base, Apply(base, rows, changes[0]), changes[1..]);
    }
  }

  /** A run of registrations that each passed the module validation loads at every moment, whatever is enabled. */
  lemma ValidatedRunsLoad(base: Model, rows: Rows, changes: seq<Change>, known: map<string, bool>)
    requires Good(base, rows) && TargetsDefined(base) && AllResolveAlone(base, rows)
    requires forall c :: c in changes ==> PassesValidation(base, c)
    ensures Good(base, Run(base, rows, changes)) && TargetsResolve(base, Run(base, rows, changes), known)
  {
    RunKeepsGood(base, rows, changes);
    RunKeepsResolving(base, rows, changes);
    var end := Run(base, rows, changes);
    var there := rel => InMerge(base, end, known, rel);
    ModelTargetsGrow(base, rel => DefinesRelation(base, rel), there);
    forall k | InEffect(end, known, k)
      ensures ModelTargetsIn(end[k].model, there)
    {
      var m := end[k].model;
      assert ResolvesAlone(base, m);
      ModelTargetsGrow(m, rel => DefinesRelation(base, rel) || DefinesRelation(m, rel), there);
    }
  }

  /** A fragment that reads relation `rel` of a parent. */
  function Widget(rel: string): Model {
    map["widget" := map["company_module" := This, "parent" := This, "viewer" := TupleToUserset("parent", rel)]]
  }

  /** Without that validation the registry stores a fragment that makes every load refuse once its module is enabled. */
  lemma UndefinedTargetStored(base: Model, rows: Rows, rel: string, known: map<string, bool>)
    requires Good(base, rows) && "widget" !in base && forall k :: k in rows ==> "widget" !in rows[k].model
    requires rel !in {"company_module", "parent", "viewer"} && !InMerge(base, rows, known, rel)
    requires "w" !in rows && "w" in known && known["w"]
    ensures
      var after := Apply(base, rows, Upsert("w", Widget(rel), true));
      && "w" in after && after["w"].model == Widget(rel) && Good(base, after) && !TargetsResolve(base, after, known)
  {
    var m := Widget(rel);
    StepKeepsGood(base, rows, Upsert("w", m, true));
    assert m.Keys == {"widget"};
    var after := Apply(base, rows, Upsert("w", m, true));
    assert SelfContained(m) && Anchored(m);
    assert after == rows["w" := Fragment(m, true)];
    assert forall k :: InEffect(after, known, k) ==> k == "w" || InEffect(rows, known, k);
    assert !InMerge(base, after, known, rel);
    assert InEffect(after, known, "w");
    assert !TargetsIn(m["widget"]["viewer"], r => InMerge(base, after, known, r));
  }

  /** In what a load yields, a module owns a type exactly when its fragment declares it, the module is enabled and the
      fragment active; the type is then defined as the fragment defines it, and any other type as the base model
      does. */
  lemma LoadedIs(base: Model, rows: Rows, known: map<string, bool>, l: Loaded, k: string, t: string)
    requires Good(base, rows) && IsEffective(base, rows, known, l)
    ensures t in l.typeOwner && l.typeOwner[t] == k <==>
      k in rows && t in rows[k].model && k in known && known[k] && rows[k].active
    ensures t in l.typeOwner ==> t in l.model && l.model[t] == rows[l.typeOwner[t]].model[t]
    ensures t !in l.typeOwner ==> (t in l.model <==> t in base) && (t in base ==> l.model[t] == base[t])
    ensures l.known == known && TargetsDefined(l.model)
  {
  }

  // ---- what a registration does -------------------------------------------------------------------------------------

  /** The relations of its own object that a definition reads. */
  function OwnReads(e: Expr): set<string> {
    match e
    case This => {}
    case ComputedUserset(rel) => {rel}
    case TupleToUserset(tupleset, _) => {tupleset}
    case Union(children) => set i, r | 0 <= i < |children| && r in OwnReads(children[i]) :: r
    case Intersection(children) => set i, r | 0 <= i < |children| && r in OwnReads(children[i]) :: r
  }

  lemma {:induction false} NamesOwnIff(e: Expr, rels: set<string>)
    ensures NamesOwn(e, rels) <==> OwnReads(e) <= rels
  {
    if e.Union? || e.Intersection? {
      forall i | 0 <= i < |e.children|
        ensures NamesOwn(e.children[i], rels) <==> OwnReads(e.children[i]) <= rels
      {
        NamesOwnIff(e.children[i], rels);
      }
      forall i, r | 0 <= i < |e.children| && r in OwnReads(e.children[i])
        ensures r in OwnReads(e)
      {
      }
    }
  }

  /** The fragment declares something; each type has the direct anchor relation and every relation its definitions read;
      and no type is of the base model or another module's. */
  ghost predicate Registrable(base: Model, rows: Rows, moduleKey: string, model: Model) {
    && model != map[]
    && (forall t, r :: t in model && r in model[t] ==> OwnReads(model[t][r]) <= model[t].Keys)
    && (forall t :: t in model ==> Direct(model, t, "company_module") && t !in base)
    && (forall k, t :: k in rows && k != moduleKey && t in model ==> t !in rows[k].model)
  }

  /** A registration is stored exactly when it is registrable, as the module's row and no other. */
  lemma RegistrationDoes(base: Model, rows: Rows, moduleKey: string, model: Model, active: bool)
    ensures Apply(base, rows, Upsert(moduleKey, model, active)) ==
      if Registrable(base, rows, moduleKey, model) then rows[moduleKey := Fragment(model, active)] else rows
  {
    forall t, r | t in model && r in model[t]
      ensures NamesOwn(model[t][r], model[t].Keys) <==> OwnReads(model[t][r]) <= model[t].Keys
    {
      NamesOwnIff(model[t][r], model[t].Keys);
    }
  }

  /** A toggle changes whether the module's fragment is active, and nothing else. */
  lemma ToggleDoes(base: Model, rows: Rows, moduleKey: string, active: bool)
    ensures
      var after := Apply(base, rows, SetActive(moduleKey, active));
      && after.Keys == rows.Keys && (forall k :: k in rows ==> after[k].model == rows[k].model)
      && (forall k :: k in rows ==> after[k].active == if k == moduleKey then active else rows[k].active)
  {
  }
}
