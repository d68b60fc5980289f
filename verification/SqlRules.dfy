/**
 The rule table of module migrations, stated over a statement's tokens: which statements are clean for a module.
 `SqlScan` is the scan that collects errors; it is proved to report nothing exactly for the clean ones.
 */
module SqlRules {
  import opened SqlTokens

  type Statement = seq<Token>

  /** A name at a token index; schema is "" for an unqualified one. */
  datatype Ref = Ref(schema: string, name: string, pos: int)

  /** Whose migration it is, and whether the file is one of the shipped ones that may replace the shared function. */
  datatype Scope = Scope(moduleKey: string, grandfathered: bool)

  const CREATE_KINDS := {"schema", "extension", "table", "index", "function", "procedure", "trigger", "type",
    "sequence", "view", "policy", "domain"}
  const ALTER_KINDS := {"table", "index", "function", "procedure", "trigger", "type", "sequence", "view", "policy",
    "domain"}
  const DROP_KINDS := {"schema", "table", "index", "function", "procedure", "trigger", "type", "sequence", "view",
    "policy", "domain"}
  const COMMENT_KINDS := {"table", "column", "index", "function", "procedure", "trigger", "type", "sequence", "view",
    "policy", "domain", "constraint"}
  const SCHEMA_SCOPED_KINDS := {"table", "function", "procedure", "type", "sequence", "view", "domain"}
  const CREATE_MODIFIERS := {"or", "replace", "unique", "materialized", "temp", "temporary", "unlogged", "constraint",
    "global", "local"}
  const TABLE_WORDS := {"into", "update", "from", "join", "using", "only"}
  const REFUSED_GRANT_KINDS := {"database", "tablespace", "language", "foreign", "large", "type", "domain", "parameter"}
  const LISTED_GRANT_KINDS := {"table", "sequence", "function", "procedure", "routine"}

  /** The unquoted keyword at i, or "". */
  function Kw(ts: Statement, i: int): string {
    if 0 <= i < |ts| && ts[i].Ident? && !ts[i].quoted then ts[i].text else ""
  }

  predicate IsName(ts: Statement, i: int) {
    0 <= i < |ts| && ts[i].Ident?
  }

  predicate IsPunct(ts: Statement, i: int, c: string) {
    0 <= i < |ts| && ts[i] == Punct(c)
  }

  /** A dot and a name follow at i. */
  predicate Dotted(ts: Statement, i: int) {
    IsPunct(ts, i, ".") && IsName(ts, i + 1)
  }

  /** The name at i, and the index past it; a trailing column is passed over. */
  function RefAt(ts: Statement, i: nat): (r: (Ref, nat))
    ensures i <= r.1 && (i <= |ts| ==> r.1 <= |ts|) && (r.1 > i <==> IsName(ts, i))
  {
    if !IsName(ts, i) then (Ref("", "", i), i)
    else if !Dotted(ts, i + 1) then (Ref("", ts[i].text, i), i + 1)
    else (Ref(ts[i].text, ts[i + 2].text, i), if Dotted(ts, i + 3) then i + 5 else i + 3)
  }

  /** The module may touch r; as a target also means it may create, alter, drop, grant or truncate it. */
  predicate InFence(s: Scope, r: Ref, target: bool) {
    || r.schema == s.moduleKey
    || (r.schema == "audit" && s.moduleKey + "__" <= r.name)
    || (r.schema == "audit" && r.name == "reject_mutation" && (!target || s.grandfathered))
    || (r.schema == "public" && r.name == "schema_version_" + s.moduleKey)
  }

  /** The qualified names met from `from` to `to`, going from each name to the index past it. */
  function Refs(ts: Statement, from: nat, to: nat): seq<Ref>
    decreases to - from
  {
    if from >= to then []
    else
      var (r, next) := RefAt(ts, from);
      if next == from then Refs(ts, from + 1, to)
      else (if r.schema != "" then [r] else []) + Refs(ts, next, to)
  }

  predicate AllInFence(s: Scope, refs: seq<Ref>, target: bool) {
    forall i :: 0 <= i < |refs| ==> InFence(s, refs[i], target)
  }

  /** The first index from i on with the keyword, or the end. */
  function FindKw(ts: Statement, i: nat, word: string): (j: nat)
    ensures i <= j && (i <= |ts| ==> j <= |ts|) && (j < |ts| ==> Kw(ts, j) == word)
    ensures forall k :: i <= k < j ==> Kw(ts, k) != word || k >= |ts|
    decreases |ts| - i
  {
    if i >= |ts| || Kw(ts, i) == word then i else FindKw(ts, i + 1, word)
  }

  /** The index past the keywords of a set. */
  function SkipKws(ts: Statement, i: nat, words: set<string>): (j: nat)
    requires i <= |ts| && "" !in words
    ensures i <= j <= |ts| && Kw(ts, j) !in words && forall k :: i <= k < j ==> Kw(ts, k) in words
    decreases |ts| - i
  {
    if Kw(ts, i) in words then SkipKws(ts, i + 1, words) else i
  }

  /** The index past an argument list's closing parenthesis, `depth` of them being open at i. */
  function ArgsEnd(ts: Statement, i: nat, depth: int): (j: nat)
    requires i <= |ts|
    ensures i <= j <= |ts|
    decreases |ts| - i
  {
    if i == |ts| then i
    else if IsPunct(ts, i, "(") then ArgsEnd(ts, i + 1, depth + 1)
    else if IsPunct(ts, i, ")") then (if depth == 1 then i + 1 else ArgsEnd(ts, i + 1, depth - 1))
    else ArgsEnd(ts, i + 1, depth)
  }

  function SkipArgs(ts: Statement, i: nat): (j: nat)
    requires i <= |ts|
    ensures i <= j <= |ts|
  {
    if IsPunct(ts, i, "(") then ArgsEnd(ts, i + 1, 1) else i
  }

  /** The items of a comma-separated list of names at i, argument lists passed over. */
  function Items(ts: Statement, i: nat): seq<Ref>
    decreases |ts| - i
  {
    if !IsName(ts, i) then []
    else
      var (r, next) := RefAt(ts, i);
      var end := SkipArgs(ts, next);
      [r] + if IsPunct(ts, end, ",") then Items(ts, end + 1) else []
  }

  /** The names of a comma-separated list of bare names at i. */
  function Names(ts: Statement, i: nat): seq<string>
    decreases |ts| - i
  {
    if !IsName(ts, i) then [] else [ts[i].text] + if IsPunct(ts, i + 1, ",") then Names(ts, i + 2) else []
  }

  predicate ItemsClean(s: Scope, items: seq<Ref>) {
    forall i :: 0 <= i < |items| ==> items[i].schema != "" && InFence(s, items[i], true)
  }

  /** A reference at a table position after j is in the fence. */
  predicate TableClean(s: Scope, ts: Statement, j: nat, target: bool) {
    var r := RefAt(ts, j + 1).0;
    Kw(ts, j) in TABLE_WORDS && r.schema != "" ==> InFence(s, r, target)
  }

  predicate TablesClean(s: Scope, ts: Statement, from: nat, target: bool) {
    forall j :: from <= j < |ts| ==> TableClean(s, ts, j, target)
  }

  /** A clause that changes who a definition runs as or what it resolves. */
  predicate Forbidden(ts: Statement, j: int) {
    (Kw(ts, j) == "security" && Kw(ts, j + 1) == "definer") || Kw(ts, j) == "search_path"
  }

  predicate NoneForbidden(ts: Statement) {
    forall j :: 0 <= j < |ts| ==> !Forbidden(ts, j)
  }

  // ---- one predicate per statement ---------------------------------------------------------------------------

  function AfterIfNotExists(ts: Statement, i: nat): nat {
    if IfNotExists(ts, i) then i + 3 else i
  }

  predicate IfNotExists(ts: Statement, i: nat) {
    Kw(ts, i) == "if" && Kw(ts, i + 1) == "not" && Kw(ts, i + 2) == "exists"
  }

  function AfterConcurrently(ts: Statement, i: nat): nat {
    if Kw(ts, i) == "concurrently" then i + 1 else i
  }

  predicate CreateClean(s: Scope, ts: Statement)
    requires ts != []
  {
    var k := SkipKws(ts, 1, CREATE_MODIFIERS);
    var kind := Kw(ts, k);
    var q := AfterConcurrently(ts, k + 1);
    var i := AfterIfNotExists(ts, q);
    && kind in CREATE_KINDS
    && if kind == "schema" then SchemaClean(s, ts, i, IfNotExists(ts, q))
       else if kind == "extension" then Kw(ts, i) == "pgcrypto" && i + 1 == |ts|
       else ObjectClean(s, ts, kind, i)
  }

  predicate SchemaClean(s: Scope, ts: Statement, i: nat, ifNotExists: bool) {
    && (Kw(ts, i) == s.moduleKey || (Kw(ts, i) == "audit" && ifNotExists))
    && (Kw(ts, i + 1) == "authorization" ==> Kw(ts, i + 2) == "kiban")
  }

  predicate ObjectClean(s: Scope, ts: Statement, kind: string, i: nat) {
    var (target, next) := RefAt(ts, i);
    && NoneForbidden(ts)
    && (kind in SCHEMA_SCOPED_KINDS ==> target.schema != "")
    && (target.schema != "" ==> InFence(s, target, true))
    && OnClean(s, ts, kind, FindKw(ts, next, "on"))
    && (kind == "view" || kind == "table" ==> TablesClean(s, ts, FindKw(ts, next, "as"), false))
    && AllInFence(s, Refs(ts, next, QueryStart(ts, kind, next)), false)
  }

  /** Where the query tail of a view or table starts. */
  function QueryStart(ts: Statement, kind: string, next: nat): nat {
    if kind == "view" || kind == "table" then FindKw(ts, next, "as") else |ts|
  }

  /** The table after ON at j is the target of an index, a trigger or a policy. */
  predicate OnClean(s: Scope, ts: Statement, kind: string, j: nat) {
    j < |ts| && IsName(ts, j + 1) ==>
      var r := RefAt(ts, j + 1).0;
      if r.schema == "" then kind !in {"index", "trigger", "policy"} else InFence(s, r, true)
  }

  /** The object an ALTER is about, and the index past it: the table for a trigger or a policy. */
  function AlterTarget(ts: Statement): (Ref, nat)
    requires ts != []
  {
    var k := if Kw(ts, 1) == "materialized" then 2 else 1;
    var i := if Kw(ts, k) in ALTER_KINDS then SkipKws(ts, k + 1, {"if", "exists", "only"}) else k;
    var (target, next) := RefAt(ts, i);
    var j := FindKw(ts, next, "on");
    if Kw(ts, k) in {"trigger", "policy"} && j < |ts| then RefAt(ts, j + 1) else (target, next)
  }

  predicate AlterClean(s: Scope, ts: Statement)
    requires ts != []
  {
    var k := if Kw(ts, 1) == "materialized" then 2 else 1;
    var (target, next) := AlterTarget(ts);
    && Kw(ts, k) in ALTER_KINDS
    && NoneForbidden(ts)
    && MovesNothing(ts, SkipKws(ts, k + 1, {"if", "exists", "only"}))
    && target.schema != "" && InFence(s, target, true)
    && AllInFence(s, Refs(ts, next, |ts|), false)
  }

  /** A clause that gives an object another owner or schema. */
  predicate Moves(ts: Statement, j: int) {
    (Kw(ts, j) == "owner" && Kw(ts, j + 1) == "to") || (Kw(ts, j) == "set" && Kw(ts, j + 1) == "schema")
  }

  predicate MovesNothing(ts: Statement, i: nat) {
    forall j :: i <= j < |ts| ==> !Moves(ts, j)
  }

  /** Where the list of a DROP or COMMENT begins: after ON for what lives on a table. */
  function ListStart(ts: Statement, kind: string, i: nat): nat {
    var j := FindKw(ts, i, "on");
    if kind in {"trigger", "policy", "constraint"} && j < |ts| then j + 1 else i
  }

  function DropStart(ts: Statement): nat {
    var i := AfterConcurrently(ts, 2);
    if Kw(ts, i) == "if" && Kw(ts, i + 1) == "exists" then i + 2 else i
  }

  predicate DropClean(s: Scope, ts: Statement) {
    var kind := Kw(ts, 1);
    && kind in DROP_KINDS
    && if kind == "schema" then Kw(ts, DropStart(ts)) == s.moduleKey
       else ItemsClean(s, Items(ts, ListStart(ts, kind, DropStart(ts))))
  }

  predicate TruncateClean(s: Scope, ts: Statement)
    requires ts != []
  {
    var items := Items(ts, SkipKws(ts, 1, {"table", "only"}));
    forall i :: 0 <= i < |items| ==> items[i].schema != "" && items[i].schema == s.moduleKey
  }

  predicate CommentClean(s: Scope, ts: Statement) {
    Kw(ts, 1) == "on" && Kw(ts, 2) in COMMENT_KINDS && ItemsClean(s, Items(ts, ListStart(ts, Kw(ts, 2), 3)))
  }

  predicate GrantClean(s: Scope, ts: Statement) {
    var on := FindKw(ts, 0, "on");
    && on < |ts|
    && NoGrantOption(ts)
    && GrantedClean(s, ts, on + 1)
    && NamesIn(GrantRoles(ts), {"kiban_" + s.moduleKey})
  }

  predicate GrantOption(ts: Statement, j: int) {
    Kw(ts, j) == "grant" && Kw(ts, j + 1) == "option"
  }

  predicate NoGrantOption(ts: Statement) {
    forall j :: 0 <= j < |ts| ==> !GrantOption(ts, j)
  }

  predicate NamesIn(names: seq<string>, allowed: set<string>) {
    forall i :: 0 <= i < |names| ==> names[i] in allowed
  }

  predicate GrantedClean(s: Scope, ts: Statement, i: nat) {
    var kind := Kw(ts, i);
    if kind == "schema" then NamesIn(Names(ts, i + 1), {s.moduleKey, "audit"})
    else if kind == "all" then NamesIn(Names(ts, FindKw(ts, i, "schema") + 1), {s.moduleKey})
    else if kind in LISTED_GRANT_KINDS then ItemsClean(s, Items(ts, i + 1))
    else kind !in REFUSED_GRANT_KINDS && ItemsClean(s, Items(ts, i))
  }

  /** The roles granted to or revoked from. */
  function GrantRoles(ts: Statement): seq<string> {
    var word := if Kw(ts, 0) == "revoke" then "from" else "to";
    Names(ts, FindKw(ts, FindKw(ts, 0, "on"), word) + 1)
  }

  predicate Clean(s: Scope, ts: Statement)
    requires ts != []
  {
    var verb := Kw(ts, 0);
    if verb == "create" then CreateClean(s, ts)
    else if verb == "alter" then AlterClean(s, ts)
    else if verb == "drop" then DropClean(s, ts)
    else if verb == "grant" || verb == "revoke" then GrantClean(s, ts)
    else if verb == "truncate" then TruncateClean(s, ts)
    else if verb in {"insert", "update", "delete", "with"} then TablesClean(s, ts, 0, true)
    else if verb == "comment" then CommentClean(s, ts)
    else false
  }
}
