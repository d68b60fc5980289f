/** What clean statements can touch, verb by verb, said over their tokens; and which statements are clean. */
module SqlMeaning {
  import opened SqlTokens
  import opened SqlRules
  import opened SqlFence
  import opened SqlGrants

  // ---- the fence ----------------------------------------------------------------------------------------------

  /** The module's own schema is inside; of audit its own objects and, to read, the shared function, which only shipped
      files may replace; of public its version table; and nothing else. */
  lemma FenceIs(s: Scope, r: Ref, target: bool)
    ensures r.schema == s.moduleKey ==> InFence(s, r, target)
    ensures r.schema != s.moduleKey && r.schema == "audit" ==>
      (InFence(s, r, target) <==>
        || (exists rest :: r.name == s.moduleKey + "__" + rest)
        || (r.name == "reject_mutation" && (target ==> s.grandfathered)))
    ensures r.schema != s.moduleKey && r.schema == "public" ==>
      (InFence(s, r, target) <==> r.name == "schema_version_" + s.moduleKey)
    ensures r.schema !in {s.moduleKey, "audit", "public"} ==> !InFence(s, r, target)
  {
    assert |"audit"| == 5 && |"public"| == 6;
    var own := s.moduleKey + "__";
    if own <= r.name { assert r.name == own + r.name[|own|..]; }
    if rest :| r.name == s.moduleKey + "__" + rest { assert own <= r.name; }
  }

  lemma TargetsAreReadable(s: Scope, r: Ref)
    requires InFence(s, r, true)
    ensures InFence(s, r, false)
  {
  }

  /** The words after which a name stands for a table. */
  const TABLE_POSITIONS := {"into", "update", "from", "join", "using", "only"}

  // ---- dotted names -------------------------------------------------------------------------------------------

  /** A name with a schema stands at p. */
  predicate Qualified(ts: Statement, p: int) {
    IsName(ts, p) && Dotted(ts, p + 1) && ts[p].text != ""
  }

  /** The qualified name at p lies in the fence. */
  predicate Fenced(s: Scope, ts: Statement, p: int, target: bool)
    requires Qualified(ts, p)
  {
    InFence(s, Ref(ts[p].text, ts[p + 2].text, p), target)
  }

  ghost predicate AllFenced(s: Scope, ts: Statement, from: nat) {
    forall p :: from <= p && Qualified(ts, p) ==> Fenced(s, ts, p, false)
  }

  lemma QualifiedRef(ts: Statement, p: nat)
    ensures RefAt(ts, p).0.schema != "" <==> Qualified(ts, p)
    ensures Qualified(ts, p) ==> RefAt(ts, p).0 == Ref(ts[p].text, ts[p + 2].text, p)
  {
  }

  lemma {:induction false} RefsAreQualified(ts: Statement, from: nat, to: nat, r: Ref)
    requires r in Refs(ts, from, to)
    ensures from <= r.pos && Qualified(ts, r.pos) && r == Ref(ts[r.pos].text, ts[r.pos + 2].text, r.pos)
    decreases (to - from)
  {
    hide Refs, RefAt, Qualified;
    if from >= to { NoRefs(ts, from, to); }
    RefsStep(ts, from, to);
    var (first, next) := RefAt(ts, from);
    QualifiedRef(ts, from);
    if r != first || first.schema == "" {
      RefsAreQualified(ts, if next == from then from + 1 else next, to, r);
    }
  }

  lemma NoRefs(ts: Statement, from: nat, to: nat)
    requires from >= to
    ensures Refs(ts, from, to) == []
  {
  }

  lemma RefsFenced(s: Scope, ts: Statement, from: nat, to: nat)
    requires AllFenced(s, ts, from)
    ensures AllInFence(s, Refs(ts, from, to), false)
  {
    hide Refs, Qualified, InFence;
    var refs := Refs(ts, from, to);
    forall i | 0 <= i < |refs|
      ensures InFence(s, refs[i], false)
    {
      RefsAreQualified(ts, from, to, refs[i]);
      assert Fenced(s, ts, refs[i].pos, false);
    }
  }

  lemma TablesFenced(s: Scope, ts: Statement, from: nat, to: nat)
    requires AllFenced(s, ts, from) && from <= to
    ensures TablesClean(s, ts, to, false)
  {
    hide RefAt, Qualified, InFence;
    forall j | to <= j < |ts|
      ensures TableClean(s, ts, j, false)
    {
      QualifiedRef(ts, j + 1);
      if Qualified(ts, j + 1) { assert Fenced(s, ts, j + 1, false); }
    }
  }

  // ---- clauses ------------------------------------------------------------------------------------------------

  /** No clause changes who a definition runs as or what it resolves. */
  ghost predicate NoDefiner(ts: Statement) {
    forall j :: 0 <= j < |ts| ==>
      !(Kw(ts, j) == "security" && Kw(ts, j + 1) == "definer") && Kw(ts, j) != "search_path"
  }

  lemma NoDefinerIff(ts: Statement)
    ensures NoneForbidden(ts) <==> NoDefiner(ts)
  {
    hide Kw;
    if NoDefiner(ts) {
      forall j | 0 <= j < |ts|
        ensures !Forbidden(ts, j)
      {
      }
    }
    if NoneForbidden(ts) {
      forall j | 0 <= j < |ts|
        ensures !(Kw(ts, j) == "security" && Kw(ts, j + 1) == "definer") && Kw(ts, j) != "search_path"
      {
        assert !Forbidden(ts, j);
      }
    }
  }

  // ---- CREATE -------------------------------------------------------------------------------------------------

  function KindAt(ts: Statement): nat
    requires ts != []
  {
    SkipKws(ts, 1, CREATE_MODIFIERS)
  }

  /** Where a CREATE has the name of what it creates. */
  function TargetAt(ts: Statement): nat
    requires ts != []
  {
    AfterIfNotExists(ts, AfterConcurrently(ts, KindAt(ts) + 1))
  }

  /** Unquoted words one after another. */
  function Words(texts: seq<string>): Statement {
    seq(|texts|, i requires 0 <= i < |texts| => Ident(texts[i], false))
  }

  function Optional(given: bool, texts: seq<string>): seq<string> {
    if given then texts else []
  }

  lemma WordsRead(texts: seq<string>, rest: Statement)
    ensures
      var ts := Words(texts) + rest;
      && |ts| == |texts| + |rest| && (forall i :: 0 <= i < |texts| ==> Kw(ts, i) == texts[i])
      && (forall i: nat :: Kw(ts, |texts| + i) == Kw(rest, i))
  {
  }

  /** The three words before i. */
  predicate SaysIfNotExists(ts: Statement, i: int) {
    Kw(ts, i - 3) == "if" && Kw(ts, i - 2) == "not" && Kw(ts, i - 1) == "exists"
  }

  /** The words of a CREATE up to the name: modifiers, a kind, perhaps CONCURRENTLY and IF NOT EXISTS. */
  function Creation(modifiers: seq<string>, kind: string, concurrently: bool, ifNotExists: bool): seq<string> {
    ["create"] + modifiers + [kind] + Optional(concurrently, ["concurrently"]) +
      Optional(ifNotExists, ["if", "not", "exists"])
  }

  lemma SkipKwsIs(ts: Statement, i: nat, j: nat, words: set<string>)
    requires i <= j <= |ts| && "" !in words && Kw(ts, j) !in words && forall k :: i <= k < j ==> Kw(ts, k) in words
    ensures SkipKws(ts, i, words) == j
  {
    var found := SkipKws(ts, i, words);
    assert found < j ==> Kw(ts, found) in words;
    assert j < found ==> Kw(ts, j) in words;
  }

  const OBJECT_KINDS := {"table", "index", "function", "procedure", "trigger", "type", "sequence", "view", "policy",
    "domain"}

  /** The kind and the name are found where they are written. */
  lemma CreateAsWritten(modifiers: seq<string>, kind: string, concurrently: bool, ifNotExists: bool, rest: Statement)
    requires kind in OBJECT_KINDS + {"schema", "extension"}
    requires forall i :: 0 <= i < |modifiers| ==>
      modifiers[i] in {"or", "replace", "unique", "materialized", "temp", "temporary", "unlogged", "constraint",
        "global", "local"}
    requires !ifNotExists ==> !SaysIfNotExists(rest, 3) && (!concurrently ==> Kw(rest, 0) != "concurrently")
    ensures
      var ts := Words(Creation(modifiers, kind, concurrently, ifNotExists)) + rest;
      ts != [] && Kw(ts, KindAt(ts)) == kind && TargetAt(ts) == |ts| - |rest|
  {
    hide SkipKws, Words, AfterConcurrently, AfterIfNotExists, Kw;
    var texts := Creation(modifiers, kind, concurrently, ifNotExists);
    var ts := Words(texts) + rest;
    WordsRead(texts, rest);
    KindIsNoModifier(kind);
    forall i | 1 <= i < 1 + |modifiers|
      ensures Kw(ts, i) in CREATE_MODIFIERS
    {
      assert texts[i] == modifiers[i - 1];
    }
    assert texts[1 + |modifiers|] == kind;
    SkipKwsIs(ts, 1, 1 + |modifiers|, CREATE_MODIFIERS);
    CreateOptionsRead(texts, 2 + |modifiers|, concurrently, ifNotExists, rest);
  }

  lemma CreateOptionsRead(texts: seq<string>, c: nat, concurrently: bool, ifNotExists: bool, rest: Statement)
    requires c <= |texts|
    requires texts[c..] == Optional(concurrently, ["concurrently"]) + Optional(ifNotExists, ["if", "not", "exists"])
    requires !ifNotExists ==> !SaysIfNotExists(rest, 3) && (!concurrently ==> Kw(rest, 0) != "concurrently")
    ensures AfterIfNotExists(Words(texts) + rest, AfterConcurrently(Words(texts) + rest, c)) == |texts|
  {
    hide Words, Kw;
    var ts := Words(texts) + rest;
    WordsRead(texts, rest);
    assert forall i :: 0 <= i < |texts| - c ==> Kw(ts, c + i) == texts[c..][i];
    assert Kw(ts, |texts|) == Kw(rest, 0) && Kw(ts, |texts| + 1) == Kw(rest, 1) && Kw(ts, |texts| + 2) == Kw(rest, 2);
    assert "if"[0] != "concurrently"[0];
  }

  lemma KindIsNoModifier(kind: string)
    requires kind in OBJECT_KINDS + {"schema", "extension"}
    ensures kind !in CREATE_MODIFIERS && "" !in CREATE_MODIFIERS
  {
  }

  /** The tail of a view or table, where only names at table positions are read. */
  function TailAt(ts: Statement): nat
    requires ts != []
  {
    var next := RefAt(ts, TargetAt(ts)).1;
    if Kw(ts, KindAt(ts)) in {"view", "table"} then FindKw(ts, next, "as") else |ts|
  }

  /** The table after the first ON behind the name. */
  function OnTable(ts: Statement): nat
    requires ts != []
  {
    FindKw(ts, RefAt(ts, TargetAt(ts)).1, "on") + 1
  }

  ghost predicate CreatesObject(ts: Statement) {
    ts != [] && Kw(ts, 0) == "create" && Kw(ts, KindAt(ts)) in OBJECT_KINDS
  }

  /** What is created, if it has a schema or its kind needs one, is the module's to create. */
  ghost predicate TargetFenced(s: Scope, ts: Statement)
    requires ts != []
  {
    var i := TargetAt(ts);
    && (Kw(ts, KindAt(ts)) in {"table", "function", "procedure", "type", "sequence", "view", "domain"} ==>
      Qualified(ts, i))
    && (Qualified(ts, i) ==> Fenced(s, ts, i, true))
  }

  /** The table an index, trigger or policy is on is the module's; any other ON with a schema names the module's. */
  ghost predicate OnFenced(s: Scope, ts: Statement)
    requires ts != []
  {
    var j := OnTable(ts);
    && (Kw(ts, KindAt(ts)) in {"index", "trigger", "policy"} && IsName(ts, j) ==> Qualified(ts, j))
    && (Qualified(ts, j) ==> Fenced(s, ts, j, true))
  }

  lemma ObjectIsClean(s: Scope, ts: Statement)
    requires CreatesObject(ts)
    ensures Clean(s, ts) <==> ObjectClean(s, ts, Kw(ts, KindAt(ts)), TargetAt(ts))
  {
    hide ObjectClean, SchemaClean, Clean, KindAt, TargetAt, CREATE_KINDS, OBJECT_KINDS;
    CreateParts(s, ts);
    OtherKinds(Kw(ts, KindAt(ts)));
    assert "schema" !in OBJECT_KINDS && "extension" !in OBJECT_KINDS by { NoObjectKinds(); }
  }

  lemma TargetFencedIff(s: Scope, ts: Statement)
    requires CreatesObject(ts)
    ensures
      var kind := Kw(ts, KindAt(ts));
      var target := RefAt(ts, TargetAt(ts)).0;
      TargetFenced(s, ts) <==>
        (kind in SCHEMA_SCOPED_KINDS ==> target.schema != "") && (target.schema != "" ==> InFence(s, target, true))
  {
    hide RefAt, Qualified, InFence, KindAt, TargetAt;
    QualifiedRef(ts, TargetAt(ts));
  }

  lemma OnFencedIff(s: Scope, ts: Statement)
    requires CreatesObject(ts)
    ensures OnFenced(s, ts) <==> OnClean(s, ts, Kw(ts, KindAt(ts)), OnTable(ts) - 1)
  {
    hide InFence, KindAt, TargetAt, FindKw;
    QualifiedRef(ts, OnTable(ts));
  }

  /** A clean CREATE of an object: what it creates and what it creates it on are the module's, every qualified name up
      to the tail lies in the fence, and in the tail every one at a table position. */
  lemma CreateFenced(s: Scope, ts: Statement, p: nat)
    requires CreatesObject(ts) && Clean(s, ts)
    ensures TargetFenced(s, ts) && OnFenced(s, ts) && NoDefiner(ts)
    ensures RefAt(ts, TargetAt(ts)).1 <= p < TailAt(ts) && Head(ts, p) && ts[p].text != "" ==> Fenced(s, ts, p, false)
    ensures TailAt(ts) <= p && Kw(ts, p) in TABLE_POSITIONS && Qualified(ts, p + 1)
      ==> Fenced(s, ts, p + 1, false)
  {
    hide ObjectClean, InFence, KindAt, TargetAt, FindKw, RefAt, Refs, NoneForbidden, OnClean, Clean, NoDefiner;
    ObjectIsClean(s, ts);
    TargetFencedIff(s, ts);
    OnFencedIff(s, ts);
    NoDefinerIff(ts);
    ObjectParts(s, ts);
    var next := RefAt(ts, TargetAt(ts)).1;
    if next <= p < TailAt(ts) && Head(ts, p) { HeadsSeen(ts, next, TailAt(ts), p); }
    QualifiedRef(ts, p + 1);
    assert TailAt(ts) <= p < |ts| ==> TableClean(s, ts, p, false);
  }

  /** The parts of a clean object, one by one. */
  lemma ObjectParts(s: Scope, ts: Statement)
    requires CreatesObject(ts)
    ensures
      var kind := Kw(ts, KindAt(ts));
      var (target, next) := RefAt(ts, TargetAt(ts));
      ObjectClean(s, ts, kind, TargetAt(ts)) <==>
        && NoneForbidden(ts) && (kind in SCHEMA_SCOPED_KINDS ==> target.schema != "")
        && (target.schema != "" ==> InFence(s, target, true))
        && OnClean(s, ts, kind, OnTable(ts) - 1)
        && (kind in {"view", "table"} ==> TablesClean(s, ts, TailAt(ts), false))
        && AllInFence(s, Refs(ts, next, TailAt(ts)), false)
  {
    hide InFence, KindAt, TargetAt, FindKw, RefAt, Refs, NoneForbidden, OnClean, TablesClean, AllInFence;
  }

  /** And such a CREATE is clean, whatever else it holds. */
  lemma CreateAllowed(s: Scope, ts: Statement)
    requires CreatesObject(ts) && TargetFenced(s, ts) && OnFenced(s, ts) && NoDefiner(ts)
    requires AllFenced(s, ts, RefAt(ts, TargetAt(ts)).1)
    ensures Clean(s, ts)
  {
    hide ObjectClean, InFence, KindAt, TargetAt, FindKw, RefAt, Refs, NoneForbidden, OnClean, TablesClean, AllInFence;
    ObjectIsClean(s, ts);
    TargetFencedIff(s, ts);
    OnFencedIff(s, ts);
    NoDefinerIff(ts);
    ObjectParts(s, ts);
    var next := RefAt(ts, TargetAt(ts)).1;
    RefsFenced(s, ts, next, TailAt(ts));
    if Kw(ts, KindAt(ts)) in {"view", "table"} { TablesFenced(s, ts, next, TailAt(ts)); }
  }

  /** A clean CREATE SCHEMA makes the module's own, or the shared one if it is missing, for no other owner; the one
      extension is pgcrypto; and no other kind is clean. */
  lemma CreateOther(s: Scope, ts: Statement)
    requires ts != [] && Kw(ts, 0) == "create" && Kw(ts, KindAt(ts)) !in OBJECT_KINDS
    ensures
      var kind := Kw(ts, KindAt(ts));
      var i := TargetAt(ts);
      Clean(s, ts) <==>
        || (&& kind == "schema"
            && (Kw(ts, i) == s.moduleKey || (Kw(ts, i) == "audit" && SaysIfNotExists(ts, i)))
            && (Kw(ts, i + 1) == "authorization" ==> Kw(ts, i + 2) == "kiban"))
        || (kind == "extension" && Kw(ts, i) == "pgcrypto" && |ts| == i + 1)
  {
    hide ObjectClean, Clean, KindAt, TargetAt, AfterConcurrently, IfNotExists, Kw, CREATE_KINDS, OBJECT_KINDS;
    CreateParts(s, ts);
    OtherKinds(Kw(ts, KindAt(ts)));
    if Kw(ts, KindAt(ts)) == "schema" { IfNotExistsRead(ts); }
  }

  /** The three words stand before the name exactly when they were passed over to find it. */
  lemma IfNotExistsRead(ts: Statement)
    requires ts != [] && Kw(ts, KindAt(ts)) == "schema"
    ensures SaysIfNotExists(ts, TargetAt(ts)) <==> IfNotExists(ts, AfterConcurrently(ts, KindAt(ts) + 1))
  {
    hide SkipKws, Kw;
    assert "schema"[0] == 's' && "concurrently"[0] == 'c' && "exists"[0] == 'e';
  }

  lemma NoObjectKinds()
    ensures "schema" !in OBJECT_KINDS && "extension" !in OBJECT_KINDS
  {
  }

  lemma OtherKinds(kind: string)
    ensures kind in CREATE_KINDS <==> kind in OBJECT_KINDS || kind == "schema" || kind == "extension"
    ensures "schema" != "extension"
  {
    assert "schema"[0] != "extension"[0];
  }

  lemma CreateParts(s: Scope, ts: Statement)
    requires ts != [] && Kw(ts, 0) == "create"
    ensures
      var kind := Kw(ts, KindAt(ts));
      Clean(s, ts) <==>
        && kind in CREATE_KINDS
        && if kind == "schema" then
          SchemaClean(s, ts, TargetAt(ts), IfNotExists(ts, AfterConcurrently(ts, KindAt(ts) + 1)))
        else if kind == "extension" then Kw(ts, TargetAt(ts)) == "pgcrypto" && TargetAt(ts) + 1 == |ts|
        else ObjectClean(s, ts, kind, TargetAt(ts))
  {
    hide ObjectClean, SchemaClean, Clean, SkipKws, IfNotExists, Kw, CREATE_KINDS;
    CreateVerb(s, ts);
  }

  lemma CreateVerb(s: Scope, ts: Statement)
    requires ts != [] && Kw(ts, 0) == "create"
    ensures Clean(s, ts) <==> CreateClean(s, ts)
  {
    hide CreateClean;
  }

  // ---- ALTER --------------------------------------------------------------------------------------------------

  ghost predicate Alters(ts: Statement) {
    ts != [] && Kw(ts, 0) == "alter"
  }

  function AlterKindAt(ts: Statement): nat {
    if Kw(ts, 1) == "materialized" then 2 else 1
  }

  /** No clause gives an object another owner or schema. */
  ghost predicate NoMove(ts: Statement) {
    forall j :: 0 <= j < |ts| ==>
      !(Kw(ts, j) == "owner" && Kw(ts, j + 1) == "to") && !(Kw(ts, j) == "set" && Kw(ts, j + 1) == "schema")
  }

  lemma NoMoveIff(ts: Statement, i: nat)
    requires Alters(ts) && Kw(ts, AlterKindAt(ts)) in OBJECT_KINDS
    requires i == SkipKws(ts, AlterKindAt(ts) + 1, {"if", "exists", "only"})
    ensures MovesNothing(ts, i) <==> NoMove(ts)
  {
    hide SkipKws;
    forall j | 0 <= j < i
      ensures Kw(ts, j) != "owner" && Kw(ts, j) != "set"
    {
      NoMovingWord(Kw(ts, j));
      assert j == 0 || j == AlterKindAt(ts) || Kw(ts, j) == "materialized" || Kw(ts, j) in {"if", "exists", "only"};
    }
    if NoMove(ts) {
      assert forall j :: i <= j < |ts| ==> !Moves(ts, j);
    }
    if MovesNothing(ts, i) {
      forall j | 0 <= j < |ts|
        ensures !(Kw(ts, j) == "owner" && Kw(ts, j + 1) == "to") && !(Kw(ts, j) == "set" && Kw(ts, j + 1) == "schema")
      {
        assert j >= i ==> !Moves(ts, j);
      }
    }
  }

  lemma NoMovingWord(word: string)
    ensures word in OBJECT_KINDS + {"alter", "materialized", "if", "exists", "only"}
      ==> word != "owner" && word != "set"
  {
  }

  /** What a clean ALTER is about is the module's, it gives nothing away, and every dotted name behind it lies in the
      fence. */
  lemma AlterMeans(s: Scope, ts: Statement, p: nat)
    requires Alters(ts) && Clean(s, ts)
    ensures
      var at := AlterTarget(ts).0.pos;
      && Kw(ts, AlterKindAt(ts)) in OBJECT_KINDS && NoDefiner(ts) && NoMove(ts)
      && Qualified(ts, at) && Fenced(s, ts, at, true)
      && (at <= p && Head(ts, p) && ts[p].text != "" ==> Fenced(s, ts, p, false))
  {
    hide CreateClean, InFence, Refs, NoneForbidden, MovesNothing, SkipKws, FindKw, AllInFence;
    AlterParts(s, ts);
    NoDefinerIff(ts);
    NoMoveIff(ts, SkipKws(ts, AlterKindAt(ts) + 1, {"if", "exists", "only"}));
    AlterTargetIs(ts);
    if AlterTarget(ts).0.pos <= p && Head(ts, p) { AlterFenced(s, ts, p); }
  }

  lemma AlterParts(s: Scope, ts: Statement)
    requires Alters(ts)
    ensures Clean(s, ts) <==> AlterClean(s, ts)
  {
    hide AlterClean;
  }

  lemma AlterTargetIs(ts: Statement)
    requires ts != []
    ensures AlterTarget(ts).0.pos >= 0 && AlterTarget(ts) == RefAt(ts, AlterTarget(ts).0.pos)
    ensures AlterTarget(ts).0.schema != "" <==> Qualified(ts, AlterTarget(ts).0.pos)
    ensures Qualified(ts, AlterTarget(ts).0.pos) ==>
      var p := AlterTarget(ts).0.pos; AlterTarget(ts).0 == Ref(ts[p].text, ts[p + 2].text, p)
  {
    hide SkipKws, FindKw;
  }

  lemma AlterAllowed(s: Scope, ts: Statement)
    requires Alters(ts) && Kw(ts, AlterKindAt(ts)) in OBJECT_KINDS && NoDefiner(ts) && NoMove(ts)
    requires
      var at := AlterTarget(ts).0.pos;
      Qualified(ts, at) && Fenced(s, ts, at, true) && AllFenced(s, ts, at)
    ensures Clean(s, ts)
  {
    hide InFence, Refs, NoneForbidden, MovesNothing, SkipKws, FindKw, AllInFence, AllFenced;
    AlterParts(s, ts);
    NoDefinerIff(ts);
    NoMoveIff(ts, SkipKws(ts, AlterKindAt(ts) + 1, {"if", "exists", "only"}));
    AlterTargetIs(ts);
    var (target, next) := AlterTarget(ts);
    FencedFurther(s, ts, target.pos, next);
    RefsFenced(s, ts, next, |ts|);
  }

  lemma FencedFurther(s: Scope, ts: Statement, from: nat, to: nat)
    requires AllFenced(s, ts, from) && from <= to
    ensures AllFenced(s, ts, to)
  {
  }

  // ---- DROP, TRUNCATE and COMMENT -----------------------------------------------------------------------------

  lemma ReadAt(ts: Statement, i: nat, p: nat)
    requires IsRead(ts, i, p)
    ensures exists k :: 0 <= k < |Items(ts, i)| && Items(ts, i)[k] == RefAt(ts, p).0
  {
    hide Items, RefAt;
    var k :| 0 <= k < |Items(ts, i)| && Items(ts, i)[k].pos == p;
    ItemAt(ts, i, k);
  }

  lemma ItemsCleanMeans(s: Scope, ts: Statement, i: nat)
    ensures ItemsClean(s, Items(ts, i)) <==>
      forall p: nat :: IsRead(ts, i, p) ==> Qualified(ts, p) && Fenced(s, ts, p, true)
  {
    hide Items, RefAt, InFence, Qualified;
    var items := Items(ts, i);
    if ItemsClean(s, items) {
      forall p: nat | IsRead(ts, i, p)
        ensures Qualified(ts, p) && Fenced(s, ts, p, true)
      {
        ReadAt(ts, i, p);
        QualifiedRef(ts, p);
      }
    } else {
      var k :| 0 <= k < |items| && !(items[k].schema != "" && InFence(s, items[k], true));
      ItemAt(ts, i, k);
      QualifiedRef(ts, items[k].pos);
      assert IsRead(ts, i, items[k].pos);
    }
  }

  /** A DROP or TRUNCATE is clean exactly when its kind is one of these and every name it reads is one the module may
      destroy; a DROP SCHEMA, when the first name is the module's own schema. */
  lemma DestroysIff(s: Scope, ts: Statement)
    requires Destroys(ts)
    ensures Clean(s, ts) <==>
      if DropsSchema(ts) then Kw(ts, DestroyedAt(ts)) == s.moduleKey
      else
        && (Kw(ts, 0) == "drop" ==> Kw(ts, 1) in OBJECT_KINDS)
        && forall p: nat :: IsRead(ts, DestroyedAt(ts), p) ==>
          && Qualified(ts, p) && Fenced(s, ts, p, true)
          && (Kw(ts, 0) == "truncate" ==> ts[p].text == s.moduleKey)
  {
    hide Items, RefAt, InFence, Qualified, IsRead, DropStart, ListStart, SkipKws, CreateClean, AlterClean, GrantClean;
    var i := DestroyedAt(ts);
    if Kw(ts, 0) == "drop" {
      if Kw(ts, 1) != "schema" { ItemsCleanMeans(s, ts, i); }
    } else {
      TruncateMeans(s, ts);
    }
  }

  lemma TruncateMeans(s: Scope, ts: Statement)
    requires ts != [] && Kw(ts, 0) == "truncate"
    ensures Clean(s, ts) <==>
      forall p: nat :: IsRead(ts, DestroyedAt(ts), p) ==>
        Qualified(ts, p) && Fenced(s, ts, p, true) && ts[p].text == s.moduleKey
  {
    hide Items, RefAt, SkipKws, CreateClean, AlterClean, GrantClean, DropClean, CommentClean, TablesClean;
    var i := DestroyedAt(ts);
    var items := Items(ts, i);
    if Clean(s, ts) {
      forall p: nat | IsRead(ts, i, p)
        ensures Qualified(ts, p) && Fenced(s, ts, p, true) && ts[p].text == s.moduleKey
      {
        ReadAt(ts, i, p);
        QualifiedRef(ts, p);
      }
    } else {
      var k :| 0 <= k < |items| && !(items[k].schema != "" && items[k].schema == s.moduleKey);
      ItemAt(ts, i, k);
      QualifiedRef(ts, items[k].pos);
      assert IsRead(ts, i, items[k].pos);
    }
  }

  /** Where a COMMENT names what it is about: after ON for what lives on a table. */
  function CommentedAt(ts: Statement): nat {
    ListStart(ts, Kw(ts, 2), 3)
  }

  lemma CommentIff(s: Scope, ts: Statement)
    requires ts != [] && Kw(ts, 0) == "comment"
    ensures Clean(s, ts) <==>
      && Kw(ts, 1) == "on" && Kw(ts, 2) in OBJECT_KINDS + {"column", "constraint"}
      && forall p: nat :: IsRead(ts, CommentedAt(ts), p) ==> Qualified(ts, p) && Fenced(s, ts, p, true)
  {
    hide Items, RefAt, InFence, Qualified, IsRead, ListStart, CreateClean, AlterClean, GrantClean, DropClean;
    ItemsCleanMeans(s, ts, CommentedAt(ts));
  }

  // ---- INSERT, UPDATE, DELETE and WITH ------------------------------------------------------------------------

  /** A data statement is clean exactly when every qualified name at a table position is one the module may write. */
  lemma DataIff(s: Scope, ts: Statement)
    requires ts != [] && Kw(ts, 0) in {"insert", "update", "delete", "with"}
    ensures Clean(s, ts) <==>
      forall j :: 0 <= j < |ts| && Kw(ts, j) in TABLE_POSITIONS && Qualified(ts, j + 1) ==> Fenced(s, ts, j + 1, true)
  {
    hide RefAt, InFence, Qualified;
    DataVerb(s, ts);
    forall j | 0 <= j < |ts|
      ensures TableClean(s, ts, j, true) <==>
        (Kw(ts, j) in TABLE_POSITIONS && Qualified(ts, j + 1) ==> Fenced(s, ts, j + 1, true))
    {
      QualifiedRef(ts, j + 1);
    }
  }

  lemma DataVerb(s: Scope, ts: Statement)
    requires ts != [] && Kw(ts, 0) in {"insert", "update", "delete", "with"}
    ensures Clean(s, ts) <==> TablesClean(s, ts, 0, true)
  {
    hide TablesClean;
  }

  // ---- GRANT and REVOKE ---------------------------------------------------------------------------------------

  /** What is not a module's to grant on. */
  const DATABASE_KINDS := {"database", "tablespace", "language", "foreign", "large", "type", "domain", "parameter"}

  ghost predicate NoOption(ts: Statement) {
    forall j :: 0 <= j < |ts| ==> !(Kw(ts, j) == "grant" && Kw(ts, j + 1) == "option")
  }

  /** A GRANT or REVOKE whose first object is not taken for a kind is clean exactly when it has an ON, gives no option,
      is on a kind of object modules have, on objects the module may grant on, and reads no role but the module's
      own. */
  lemma GrantIff(s: Scope, ts: Statement)
    requires Grants(ts) && !TakenForKind(ts)
    ensures
      var on := FindKw(ts, 0, "on");
      Clean(s, ts) <==>
        && on < |ts| && NoOption(ts) && MayGrantOn(s, ts)
        && Kw(ts, on + 1) !in DATABASE_KINDS && ReadsOwnRole(s, ts)
  {
    hide FindKw, GrantedClean, MayGrantOn, NoOption, NoGrantOption, TakenForKind, ReadsOwnRole, NamesIn, GrantRoles;
    hide Clean, Grants, Kw;
    GrantVerb(s, ts);
    OptionIff(ts);
    GrantedIff(s, ts);
    RolesIff(s, ts);
  }

  ghost predicate ReadsOwnRole(s: Scope, ts: Statement) {
    forall r :: r in Names(ts, RolesAt(ts)) ==> r == "kiban_" + s.moduleKey
  }

  lemma RolesIff(s: Scope, ts: Statement)
    ensures NamesIn(GrantRoles(ts), {"kiban_" + s.moduleKey}) <==> ReadsOwnRole(s, ts)
  {
    hide FindKw, Names;
    var names := Names(ts, RolesAt(ts));
    assert GrantRoles(ts) == names;
    if NamesIn(names, {"kiban_" + s.moduleKey}) {
      forall r | r in names
        ensures r == "kiban_" + s.moduleKey
      {
        var i :| 0 <= i < |names| && names[i] == r;
      }
    }
    if ReadsOwnRole(s, ts) { assert forall i :: 0 <= i < |names| ==> names[i] in names; }
  }

  lemma GrantVerb(s: Scope, ts: Statement)
    requires Grants(ts)
    ensures Clean(s, ts) <==> GrantClean(s, ts)
  {
    hide GrantClean;
  }

  lemma OptionIff(ts: Statement)
    ensures NoGrantOption(ts) <==> NoOption(ts)
  {
    hide Kw;
    if NoGrantOption(ts) {
      forall j | 0 <= j < |ts|
        ensures !(Kw(ts, j) == "grant" && Kw(ts, j + 1) == "option")
      {
        assert !GrantOption(ts, j);
      }
    }
  }

  lemma GrantedIff(s: Scope, ts: Statement)
    requires Grants(ts) && !TakenForKind(ts)
    ensures
      var on := FindKw(ts, 0, "on");
      GrantedClean(s, ts, on + 1) <==> MayGrantOn(s, ts) && Kw(ts, on + 1) !in DATABASE_KINDS
  {
    hide FindKw, Names, Items, ItemsClean;
  }

  // ---- where lists are written --------------------------------------------------------------------------------

  lemma FindKwIs(ts: Statement, i: nat, j: nat, word: string)
    requires i <= j < |ts| && Kw(ts, j) == word && forall k :: i <= k < j ==> Kw(ts, k) != word
    ensures FindKw(ts, i, word) == j
  {
    var found := FindKw(ts, i, word);
    assert found < j ==> Kw(ts, found) == word;
  }

  /** The name of a trigger or policy and ON, or nothing. */
  predicate Owned(kind: string, rest: Statement) {
    kind in {"trigger", "policy", "constraint"} ==> |rest| >= 2 && Kw(rest, 0) != "on" && Kw(rest, 1) == "on"
  }

  function Owner(kind: string): nat {
    if kind in {"trigger", "policy", "constraint"} then 2 else 0
  }

  lemma ListStartAsWritten(texts: seq<string>, kind: string, rest: Statement)
    requires Owned(kind, rest)
    ensures ListStart(Words(texts) + rest, kind, |texts|) == |texts| + Owner(kind)
  {
    hide Words, FindKw;
    var ts := Words(texts) + rest;
    WordsRead(texts, rest);
    assert Kw(ts, |texts|) == Kw(rest, 0) && Kw(ts, |texts| + 1) == Kw(rest, 1);
    if Owner(kind) == 2 { FindKwIs(ts, |texts|, |texts| + 1, "on"); }
  }

  /** A DROP has its list after the kind, CONCURRENTLY and IF EXISTS, and for a trigger or policy after ON. */
  lemma DropAsWritten(kind: string, concurrently: bool, ifExists: bool, rest: Statement)
    requires kind != "schema" && Owned(kind, rest)
    requires !ifExists ==>
      !(Kw(rest, 0) == "if" && Kw(rest, 1) == "exists") && (!concurrently ==> Kw(rest, 0) != "concurrently")
    ensures
      var texts := ["drop", kind] + Optional(concurrently, ["concurrently"]) + Optional(ifExists, ["if", "exists"]);
      var ts := Words(texts) + rest;
      ts != [] && Destroys(ts) && DestroyedAt(ts) == |texts| + Owner(kind)
  {
    hide Words, ListStart, Owned, SkipKws;
    var texts := ["drop", kind] + Optional(concurrently, ["concurrently"]) + Optional(ifExists, ["if", "exists"]);
    var ts := Words(texts) + rest;
    WordsRead(texts, rest);
    DropStartRead(texts, concurrently, ifExists, rest);
    ListStartAsWritten(texts, kind, rest);
    assert Kw(ts, 0) == "drop" != "truncate" && Kw(ts, 1) == kind;
  }

  lemma DropStartRead(texts: seq<string>, concurrently: bool, ifExists: bool, rest: Statement)
    requires 2 <= |texts|
    requires texts[2..] == Optional(concurrently, ["concurrently"]) + Optional(ifExists, ["if", "exists"])
    requires !ifExists ==>
      !(Kw(rest, 0) == "if" && Kw(rest, 1) == "exists") && (!concurrently ==> Kw(rest, 0) != "concurrently")
    ensures DropStart(Words(texts) + rest) == |texts|
  {
    hide Words, Kw;
    var ts := Words(texts) + rest;
    WordsRead(texts, rest);
    assert forall i :: 0 <= i < |texts| - 2 ==> Kw(ts, 2 + i) == texts[2..][i];
    assert Kw(ts, |texts|) == Kw(rest, 0) && Kw(ts, |texts| + 1) == Kw(rest, 1);
    assert "if"[0] != "concurrently"[0];
  }

  /** A TRUNCATE has its list after TABLE and ONLY. */
  lemma TruncateAsWritten(words: seq<string>, rest: Statement)
    requires (forall i :: 0 <= i < |words| ==> words[i] in {"table", "only"}) && Kw(rest, 0) !in {"table", "only"}
    ensures
      var ts := Words(["truncate"] + words) + rest;
      ts != [] && Destroys(ts) && DestroyedAt(ts) == 1 + |words|
  {
    hide Words, SkipKws;
    var texts := ["truncate"] + words;
    var ts := Words(texts) + rest;
    WordsRead(texts, rest);
    assert Kw(ts, |texts|) == Kw(rest, 0);
    forall k | 1 <= k < |texts|
      ensures Kw(ts, k) in {"table", "only"}
    {
      assert texts[k] == words[k - 1];
    }
    SkipKwsIs(ts, 1, |texts|, {"table", "only"});
  }

  /** An ALTER has its target after the kind, IF EXISTS and ONLY, and for a trigger or policy after ON. */
  lemma AlterAsWritten(materialized: bool, kind: string, words: seq<string>, rest: Statement)
    requires kind in OBJECT_KINDS && Owned(kind, rest) && (kind in {"trigger", "policy"} ==> IsName(rest, 0))
    requires forall i :: 0 <= i < |words| ==> words[i] in {"if", "exists", "only"}
    requires Kw(rest, 0) !in {"if", "exists", "only"}
    ensures
      var texts := ["alter"] + Optional(materialized, ["materialized"]) + [kind] + words;
      var ts := Words(texts) + rest;
      ts != [] && Alters(ts) && Kw(ts, AlterKindAt(ts)) == kind && AlterTarget(ts).0.pos == |texts| + Owner(kind)
  {
    hide Words, SkipKws, FindKw, OBJECT_KINDS;
    var texts := ["alter"] + Optional(materialized, ["materialized"]) + [kind] + words;
    var ts := Words(texts) + rest;
    WordsRead(texts, rest);
    KindIsPlain(kind);
    var k := if materialized then 2 else 1;
    assert texts[k] == kind && Kw(ts, 1) == texts[1];
    assert Kw(ts, |texts|) == Kw(rest, 0) && Kw(ts, |texts| + 1) == Kw(rest, 1);
    forall i | k + 1 <= i < |texts|
      ensures Kw(ts, i) in {"if", "exists", "only"}
    {
      assert texts[i] == words[i - k - 1];
    }
    SkipKwsIs(ts, k + 1, |texts|, {"if", "exists", "only"});
    if Owner(kind) == 2 {
      assert ts[|texts|] == rest[0] && ts[|texts| + 1] == rest[1];
      assert RefAt(ts, |texts|).1 == |texts| + 1;
      FindKwIs(ts, |texts| + 1, |texts| + 1, "on");
    }
  }

  lemma KindIsPlain(kind: string)
    requires kind in OBJECT_KINDS
    ensures kind != "materialized" && kind != "constraint" && kind in ALTER_KINDS
  {
  }

  /** A COMMENT has its list after the kind, and for what lives on a table after ON. */
  lemma CommentAsWritten(kind: string, rest: Statement)
    requires Owned(kind, rest)
    ensures CommentedAt(Words(["comment", "on", kind]) + rest) == 3 + Owner(kind)
  {
    hide Words, ListStart;
    var texts := ["comment", "on", kind];
    WordsRead(texts, rest);
    ListStartAsWritten(texts, kind, rest);
  }
}
