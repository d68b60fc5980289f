/**
 The statement-aware scan of a module migration: the object that walks the tokens and collects errors, proved against
 `SqlRules`. Every method only adds errors, and adds none exactly when its part of the statement is clean.
 */
module SqlScan {
  import opened SqlTokens
  import opened SqlStatements
  import opened SqlRules

  datatype Rule = CrossSchema | UnsafeStatement

  /** Errors were only added, and none exactly when the text was clean. */
  ghost predicate Reports(before: seq<Rule>, after: seq<Rule>, clean: bool) {
    before <= after && (after == before <==> clean)
  }

  class Scan {
    const scope: Scope
    var errs: seq<Rule>

    constructor (scope: Scope)
      ensures this.scope == scope && errs == []
    {
      this.scope := scope;
      errs := [];
    }

    method Fail(rule: Rule)
      modifies this
      ensures errs == old(errs) + [rule]
    {
      errs := errs + [rule];
    }

    method CheckRef(r: Ref, target: bool)
      modifies this
      ensures Reports(old(errs), errs, InFence(scope, r, target))
    {
      if r.schema == scope.moduleKey {
        return;
      } else if r.schema == "audit" && scope.moduleKey + "__" <= r.name {
        return;
      } else if r.schema == "audit" && r.name == "reject_mutation" {
        if !target || scope.grandfathered { return; }
        Fail(CrossSchema);
        return;
      } else if r.schema == "public" && r.name == "schema_version_" + scope.moduleKey {
        return;
      }
      Fail(CrossSchema);
    }

    method CheckAll(refs: seq<Ref>, target: bool)
      modifies this
      ensures Reports(old(errs), errs, AllInFence(scope, refs, target))
    {
      for n := 0 to |refs|
        invariant Reports(old(errs), errs, AllInFence(scope, refs[..n], target))
      {
        CheckRef(refs[n], target);
      }
      assert refs[..|refs|] == refs;
    }

    method AllRefs(ts: Statement, from: nat, to: nat) returns (out: seq<Ref>)
      ensures out == Refs(ts, from, to)
    {
      hide RefAt, Refs;
      out := [];
      var i := from;
      while i < to
        invariant out + Refs(ts, i, to) == Refs(ts, from, to)
      {
        RefsStep(ts, i, to);
        var (r, next) := RefAt(ts, i);
        if next == i {
          i := i + 1;
          continue;
        }
        Regroup(out, if r.schema != "" then [r] else [], Refs(ts, next, to));
        if r.schema != "" {
          out := out + [r];
        }
        i := next;
      }
      RefsStep(ts, i, to);
    }

    method CheckTable(ts: Statement, i: nat, target: bool)
      modifies this
      ensures Reports(old(errs), errs, TableClean(scope, ts, i, target))
    {
      if Kw(ts, i) in TABLE_WORDS {
        var r := RefAt(ts, i + 1).0;
        if r.schema != "" { CheckRef(r, target); }
      }
    }

    method CheckTables(ts: Statement, from: nat, target: bool)
      modifies this
      ensures Reports(old(errs), errs, TablesClean(scope, ts, from, target))
    {
      hide TableClean;
      var i := from;
      while i < |ts|
        invariant from <= i
        invariant Reports(old(errs), errs, forall j :: from <= j < i && j < |ts| ==> TableClean(scope, ts, j, target))
      {
        CheckTable(ts, i, target);
        i := i + 1;
      }
    }

    method First(ts: Statement, i: nat, word: string) returns (j: nat)
      ensures j == FindKw(ts, i, word)
    {
      j := i;
      while j < |ts| && Kw(ts, j) != word
        invariant i <= j && FindKw(ts, j, word) == FindKw(ts, i, word)
      {
        j := j + 1;
      }
    }

    method Skip(ts: Statement, i: nat, words: set<string>) returns (j: nat)
      requires i <= |ts| && "" !in words
      ensures j == SkipKws(ts, i, words)
    {
      j := i;
      while Kw(ts, j) in words
        invariant i <= j <= |ts| && SkipKws(ts, j, words) == SkipKws(ts, i, words)
        decreases |ts| - j
      {
        j := j + 1;
      }
    }

    method ForbidAnywhere(ts: Statement)
      modifies this
      ensures Reports(old(errs), errs, NoneForbidden(ts))
    {
      for j := 0 to |ts|
        invariant Reports(old(errs), errs, forall k :: 0 <= k < j ==> !Forbidden(ts, k))
      {
        if Forbidden(ts, j) { Fail(UnsafeStatement); }
      }
    }

    method SkipArguments(ts: Statement, i: nat) returns (next: nat)
      requires i <= |ts|
      ensures next == SkipArgs(ts, i)
    {
      next := i;
      if IsPunct(ts, i, "(") {
        var depth := 0;
        while next < |ts|
          invariant i <= next <= |ts| && ArgsEnd(ts, next, depth) == ArgsEnd(ts, i, 0)
        {
          if IsPunct(ts, next, "(") {
            depth := depth + 1;
          } else if IsPunct(ts, next, ")") {
            depth := depth - 1;
            if depth == 0 {
              next := next + 1;
              break;
            }
          }
          next := next + 1;
        }
      }
    }

    /** The qualified items of a list; an unqualified one is refused. */
    method TargetList(ts: Statement, i: nat) returns (out: seq<Ref>)
      modifies this
      ensures Reports(old(errs), errs, AllQualified(Items(ts, i)))
      ensures out == Qualified(Items(ts, i))
    {
      hide RefAt, SkipArgs, AllQualified, Qualified, IsPunct, Items;
      out := [];
      var j := i;
      ghost var seen := [];
      NothingQualified();
      while j < |ts|
        invariant i <= j
        invariant seen + Items(ts, j) == Items(ts, i) && out == Qualified(seen)
        invariant Reports(old(errs), errs, AllQualified(seen))
        decreases |ts| - j
      {
        var (r, next) := RefAt(ts, j);
        ItemsStep(ts, j);
        if next == j { break; }
        if r.schema == "" {
          Fail(CrossSchema);
        } else {
          out := out + [r];
        }
        QualifiedSnoc(seen, r);
        AllQualifiedSnoc(seen, r);
        next := SkipArguments(ts, next);
        Regroup(seen, [r], if IsPunct(ts, next, ",") then Items(ts, next + 1) else []);
        seen := seen + [r];
        if IsPunct(ts, next, ",") {
          j := next + 1;
          continue;
        }
        j := |ts|;
        ItemsStep(ts, j);
      }
      ItemsStep(ts, j);
      assert Items(ts, i) == seen + [] == seen;
    }

    method CheckTargets(ts: Statement, i: nat)
      modifies this
      ensures Reports(old(errs), errs, ItemsClean(scope, Items(ts, i)))
    {
      hide Items, ItemsClean, AllQualified, AllInFence, Qualified;
      var refs := TargetList(ts, i);
      CheckAll(refs, true);
      ItemsCleanIff(scope, Items(ts, i));
    }

    method NameList(ts: Statement, i: nat) returns (out: seq<string>)
      ensures out == Names(ts, i)
    {
      hide Names, IsPunct;
      out := [];
      var j := i;
      while j < |ts| && ts[j].Ident?
        invariant i <= j && out + Names(ts, j) == Names(ts, i)
      {
        NamesStep(ts, j);
        Regroup(out, [ts[j].text], if IsPunct(ts, j + 1, ",") then Names(ts, j + 2) else []);
        out := out + [ts[j].text];
        if IsPunct(ts, j + 1, ",") {
          j := j + 2;
          continue;
        }
        return;
      }
      NamesStep(ts, j);
    }

    method CheckNames(names: seq<string>, allowed: set<string>, rule: Rule)
      modifies this
      ensures Reports(old(errs), errs, NamesIn(names, allowed))
    {
      for n := 0 to |names|
        invariant Reports(old(errs), errs, NamesIn(names[..n], allowed))
      {
        if names[n] !in allowed { Fail(rule); }
      }
      assert names[..|names|] == names;
    }

    // ---- statements -------------------------------------------------------------------------------------------

    method Create(ts: Statement)
      requires ts != []
      modifies this
      ensures Reports(old(errs), errs, CreateClean(scope, ts))
    {
      hide ObjectClean, RefAt, InFence;
      var i := Skip(ts, 1, CREATE_MODIFIERS);
      var kind := Kw(ts, i);
      if kind !in CREATE_KINDS {
        Fail(UnsafeStatement);
        return;
      }
      i := i + 1;
      if Kw(ts, i) == "concurrently" { i := i + 1; }
      var ifNotExists := Kw(ts, i) == "if" && Kw(ts, i + 1) == "not" && Kw(ts, i + 2) == "exists";
      if ifNotExists { i := i + 3; }
      if kind == "schema" {
        CreateSchema(ts, i, ifNotExists);
        return;
      } else if kind == "extension" {
        if Kw(ts, i) != "pgcrypto" || i + 1 != |ts| { Fail(UnsafeStatement); }
        return;
      }
      CreateObject(ts, kind, i);
    }

    method CreateSchema(ts: Statement, i: nat, ifNotExists: bool)
      modifies this
      ensures Reports(old(errs), errs, SchemaClean(scope, ts, i, ifNotExists))
    {
      var name := Kw(ts, i);
      if name != scope.moduleKey && !(name == "audit" && ifNotExists) { Fail(CrossSchema); }
      if Kw(ts, i + 1) == "authorization" && Kw(ts, i + 2) != "kiban" { Fail(UnsafeStatement); }
    }

    method CreateObject(ts: Statement, kind: string, i: nat)
      modifies this
      ensures Reports(old(errs), errs, ObjectClean(scope, ts, kind, i))
    {
      hide NoneForbidden, RefAt, InFence, OnClean, TablesClean, AllInFence, Refs, FindKw;
      ForbidAnywhere(ts);
      var (target, next) := RefAt(ts, i);
      if kind in SCHEMA_SCOPED_KINDS && target.schema == "" { Fail(CrossSchema); }
      if target.schema != "" { CheckRef(target, true); }
      CheckOn(ts, kind, next);
      var end := |ts|;
      if kind == "view" || kind == "table" {
        end := First(ts, next, "as");
        CheckTables(ts, end, false);
      }
      var refs := AllRefs(ts, next, end);
      CheckAll(refs, false);
    }

    /** The table after the first ON. */
    method CheckOn(ts: Statement, kind: string, from: nat)
      modifies this
      ensures Reports(old(errs), errs, OnClean(scope, ts, kind, FindKw(ts, from, "on")))
    {
      hide InFence, FindKw;
      var j := First(ts, from, "on");
      if j < |ts| {
        var (r, n) := RefAt(ts, j + 1);
        if n > j + 1 {
          if r.schema == "" && kind in {"index", "trigger", "policy"} {
            Fail(CrossSchema);
          } else if r.schema != "" {
            CheckRef(r, true);
          }
        }
      }
    }

    method ForbidMoves(ts: Statement, i: nat)
      modifies this
      ensures Reports(old(errs), errs, MovesNothing(ts, i))
    {
      hide Moves;
      var j := i;
      while j + 1 < |ts|
        invariant i <= j
        invariant Reports(old(errs), errs, forall k :: i <= k < j ==> !Moves(ts, k))
      {
        if Moves(ts, j) { Fail(UnsafeStatement); }
        j := j + 1;
      }
      LastMovesNothing(ts);
    }

    method Alter(ts: Statement)
      requires ts != []
      modifies this
      ensures Reports(old(errs), errs, AlterClean(scope, ts))
    {
      hide NoneForbidden, MovesNothing, RefAt, InFence, AllInFence, Refs, FindKw, SkipKws;
      var i := 1;
      if Kw(ts, i) == "materialized" { i := i + 1; }
      var kind := Kw(ts, i);
      if kind !in ALTER_KINDS {
        Fail(UnsafeStatement);
        return;
      }
      i := Skip(ts, i + 1, {"if", "exists", "only"});
      ForbidAnywhere(ts);
      ForbidMoves(ts, i);
      var (target, next) := RefAt(ts, i);
      if kind == "trigger" || kind == "policy" {
        var j := First(ts, next, "on");
        if j < |ts| {
          var (table, after) := RefAt(ts, j + 1);
          target, next := table, after;
        }
      }
      assert (target, next) == AlterTarget(ts);
      if target.schema == "" {
        Fail(CrossSchema);
      } else {
        CheckRef(target, true);
      }
      var refs := AllRefs(ts, next, |ts|);
      CheckAll(refs, false);
    }

    method Drop(ts: Statement)
      modifies this
      ensures Reports(old(errs), errs, DropClean(scope, ts))
    {
      hide ItemsClean, Items, FindKw;
      var kind := Kw(ts, 1);
      if kind !in DROP_KINDS {
        Fail(UnsafeStatement);
        return;
      }
      var i := 2;
      if Kw(ts, i) == "concurrently" { i := i + 1; }
      if Kw(ts, i) == "if" && Kw(ts, i + 1) == "exists" { i := i + 2; }
      if kind == "schema" {
        if Kw(ts, i) != scope.moduleKey { Fail(CrossSchema); }
        return;
      }
      if kind == "trigger" || kind == "policy" {
        var j := First(ts, i, "on");
        if j < |ts| { i := j + 1; }
      }
      CheckTargets(ts, i);
    }

    method Truncate(ts: Statement)
      requires ts != []
      modifies this
      ensures Reports(old(errs), errs, TruncateClean(scope, ts))
    {
      hide AllQualified, Qualified, Items;
      var i := Skip(ts, 1, {"table", "only"});
      var refs := TargetList(ts, i);
      for n := 0 to |refs|
        invariant Reports(old(errs), errs, AllQualified(Items(ts, i)) && OwnSchema(scope, refs[..n]))
      {
        if refs[n].schema != scope.moduleKey { Fail(UnsafeStatement); }
      }
      assert refs[..|refs|] == refs;
      TruncateCleanIff(scope, Items(ts, i));
    }

    method Grant(ts: Statement)
      requires Kw(ts, 0) == "grant" || Kw(ts, 0) == "revoke"
      modifies this
      ensures Reports(old(errs), errs, GrantClean(scope, ts))
    {
      hide NoGrantOption, GrantedClean, NamesIn, FindKw, Names;
      var on := First(ts, 0, "on");
      if on >= |ts| {
        Fail(UnsafeStatement);
        return;
      }
      ForbidGrantOption(ts);
      CheckGranted(ts, on + 1);
      var word := if Kw(ts, 0) == "revoke" then "from" else "to";
      var j := First(ts, on, word);
      var roles := NameList(ts, j + 1);
      CheckNames(roles, {"kiban_" + scope.moduleKey}, UnsafeStatement);
    }

    method ForbidGrantOption(ts: Statement)
      modifies this
      ensures Reports(old(errs), errs, NoGrantOption(ts))
    {
      for j := 0 to |ts|
        invariant Reports(old(errs), errs, forall k :: 0 <= k < j ==> !GrantOption(ts, k))
      {
        if GrantOption(ts, j) { Fail(UnsafeStatement); }
      }
    }

    /** What is granted on. */
    method CheckGranted(ts: Statement, i: nat)
      modifies this
      ensures Reports(old(errs), errs, GrantedClean(scope, ts, i))
    {
      hide NamesIn, FindKw, Names, Items, ItemsClean;
      var kind := Kw(ts, i);
      if kind == "schema" {
        var names := NameList(ts, i + 1);
        CheckNames(names, {scope.moduleKey, "audit"}, CrossSchema);
      } else if kind == "all" {
        var j := First(ts, i, "schema");
        var names := NameList(ts, j + 1);
        CheckNames(names, {scope.moduleKey}, CrossSchema);
      } else if kind in LISTED_GRANT_KINDS {
        CheckTargets(ts, i + 1);
      } else if kind in REFUSED_GRANT_KINDS {
        Fail(UnsafeStatement);
      } else {
        CheckTargets(ts, i);
      }
    }

    /** Describing the refused text of a lone COMMENT slices past its end. */
    method Comment(ts: Statement) returns (panicked: bool)
      requires Kw(ts, 0) == "comment"
      modifies this
      ensures panicked <==> |ts| == 1
      ensures Reports(old(errs), errs, panicked || CommentClean(scope, ts))
    {
      hide ItemsClean, Items, FindKw;
      panicked := false;
      var kind := Kw(ts, 2);
      if Kw(ts, 1) != "on" || kind !in COMMENT_KINDS {
        if |ts| < 2 { return true; }
        Fail(UnsafeStatement);
        return;
      }
      var i := 3;
      if kind == "trigger" || kind == "policy" || kind == "constraint" {
        var j := First(ts, i, "on");
        if j < |ts| { i := j + 1; }
      }
      CheckTargets(ts, i);
    }

    method CheckStatement(ts: Statement) returns (panicked: bool)
      requires ts != []
      modifies this
      ensures panicked <==> LoneComment(ts)
      ensures Reports(old(errs), errs, panicked || Clean(scope, ts))
    {
      hide CreateClean, AlterClean, DropClean, GrantClean, TruncateClean, TablesClean, CommentClean;
      panicked := false;
      var verb := Kw(ts, 0);
      if verb == "create" {
        Create(ts);
      } else if verb == "alter" {
        Alter(ts);
      } else if verb == "drop" {
        Drop(ts);
      } else if verb == "grant" || verb == "revoke" {
        Grant(ts);
      } else if verb == "truncate" {
        Truncate(ts);
      } else if verb in {"insert", "update", "delete", "with"} {
        CheckTables(ts, 0, true);
      } else if verb == "comment" {
        panicked := Comment(ts);
      } else {
        Fail(UnsafeStatement);
      }
    }
  }

  predicate LoneComment(ts: Statement) {
    |ts| == 1 && Kw(ts, 0) == "comment"
  }

  datatype Outcome = Reported(errs: seq<Rule>) | Panicked

  ghost predicate AllClean(s: Scope, statements: seq<Statement>) {
    forall ts :: ts in statements ==> ts != [] && Clean(s, ts)
  }

  /** The scan of a file: it completes exactly when no statement is a lone COMMENT, and it reports nothing exactly when
      every statement is clean. */
  method ScanMigration(moduleKey: string, grandfathered: bool, contents: string) returns (r: Outcome)
    ensures r.Panicked? <==> exists ts :: ts in Split(Tokens(contents, 0)) && LoneComment(ts)
    ensures r == Reported([]) <==> AllClean(Scope(moduleKey, grandfathered), Split(Tokens(contents, 0)))
  {
    hide Clean, LoneComment, Tokens, Split;
    var toks := Tokenize(contents);
    var statements := SplitStatements(toks);
    SplitConserves(toks);
    var scan := new Scan(Scope(moduleKey, grandfathered));
    for n := 0 to |statements|
      invariant scan.scope == Scope(moduleKey, grandfathered)
      invariant forall k :: 0 <= k < n ==> !LoneComment(statements[k])
      invariant Reports([], scan.errs, AllClean(scan.scope, statements[..n]))
    {
      assert statements[n] in Split(toks) && IsStatement(statements[n]);
      var panicked := scan.CheckStatement(statements[n]);
      if panicked {
        LoneCommentUnclean(scan.scope, statements[n]);
        return Panicked;
      }
      AllCleanSnoc(scan.scope, statements[..n], statements[n]);
      assert statements[..n + 1] == statements[..n] + [statements[n]];
    }
    assert statements[..|statements|] == statements;
    return Reported(scan.errs);
  }

  predicate AllQualified(refs: seq<Ref>) {
    forall i :: 0 <= i < |refs| ==> refs[i].schema != ""
  }

  function Qualified(refs: seq<Ref>): seq<Ref> {
    if refs == [] then [] else (if refs[0].schema == "" then [] else [refs[0]]) + Qualified(refs[1..])
  }

  lemma {:induction false} QualifiedSnoc(refs: seq<Ref>, r: Ref)
    ensures Qualified(refs + [r]) == Qualified(refs) + if r.schema == "" then [] else [r]
    decreases |refs|
  {
    if refs != [] {
      QualifiedSnoc(refs[1..], r);
      assert (refs + [r])[1..] == refs[1..] + [r];
    }
  }

  lemma AllCleanSnoc(s: Scope, statements: seq<Statement>, last: Statement)
    requires last != []
    ensures AllClean(s, statements + [last]) <==> AllClean(s, statements) && Clean(s, last)
  {
    hide Clean;
    assert forall ts :: ts in statements + [last] <==> ts in statements || ts == last;
  }

  lemma Regroup<T>(a: seq<T>, b: seq<T>, c: seq<T>)
    ensures a + (b + c) == a + b + c && a + [] == a && a + b + [] == a + b
  {
  }

  lemma RefsStep(ts: Statement, i: nat, to: nat)
    ensures i >= to ==> Refs(ts, i, to) == []
    ensures
      var (r, next) := RefAt(ts, i);
      i < to ==>
        Refs(ts, i, to) ==
          if next == i then Refs(ts, i + 1, to) else (if r.schema != "" then [r] else []) + Refs(ts, next, to)
  {
  }

  lemma NamesStep(ts: Statement, i: nat)
    ensures !IsName(ts, i) ==> Names(ts, i) == []
    ensures IsName(ts, i) ==> Names(ts, i) == [ts[i].text] + if IsPunct(ts, i + 1, ",") then Names(ts, i + 2) else []
  {
  }

  lemma LastMovesNothing(ts: Statement)
    ensures forall k :: k + 1 >= |ts| ==> !Moves(ts, k)
  {
  }

  lemma ItemsStep(ts: Statement, i: nat)
    ensures RefAt(ts, i).1 == i || i >= |ts| ==> Items(ts, i) == []
    ensures
      var (r, next) := RefAt(ts, i);
      next != i ==>
        && next <= |ts|
        && Items(ts, i) == [r] + if IsPunct(ts, SkipArgs(ts, next), ",") then Items(ts, SkipArgs(ts, next) + 1) else []
  {
  }

  lemma NothingQualified()
    ensures Qualified([]) == [] && AllQualified([])
  {
  }

  lemma AllQualifiedSnoc(refs: seq<Ref>, r: Ref)
    ensures AllQualified(refs + [r]) <==> AllQualified(refs) && r.schema != ""
  {
    var all := refs + [r];
    assert all[|refs|] == r;
    if AllQualified(all) {
      assert forall i :: 0 <= i < |refs| ==> refs[i] == all[i];
    }
  }

  predicate OwnSchema(s: Scope, refs: seq<Ref>) {
    forall i :: 0 <= i < |refs| ==> refs[i].schema == s.moduleKey
  }

  lemma AllInFenceCons(s: Scope, r: Ref, refs: seq<Ref>, target: bool)
    ensures AllInFence(s, [r] + refs, target) <==> InFence(s, r, target) && AllInFence(s, refs, target)
  {
    hide InFence;
    var all := [r] + refs;
    assert all[0] == r && all[1..] == refs;
    if AllInFence(s, all, target) {
      assert forall i :: 0 <= i < |refs| ==> refs[i] == all[i + 1];
    }
  }

  lemma {:induction false} ItemsCleanIff(s: Scope, items: seq<Ref>)
    ensures ItemsClean(s, items) <==> AllQualified(items) && AllInFence(s, Qualified(items), true)
    decreases |items|
  {
    hide InFence;
    if items != [] {
      ItemsCleanIff(s, items[1..]);
      var q := Qualified(items[1..]);
      assert items == [items[0]] + items[1..];
      AllInFenceCons(s, items[0], q, true);
    }
  }

  lemma {:induction false} TruncateCleanIff(s: Scope, items: seq<Ref>)
    ensures
      (forall i :: 0 <= i < |items| ==> items[i].schema != "" && items[i].schema == s.moduleKey)
      <==> AllQualified(items) && OwnSchema(s, Qualified(items))
    decreases |items|
  {
    if items != [] {
      TruncateCleanIff(s, items[1..]);
      var r, q := items[0], Qualified(items[1..]);
      assert items == [r] + items[1..];
      assert OwnSchema(s, [r] + q) ==> ([r] + q)[0] == r && ([r] + q)[1..] == q && OwnSchema(s, ([r] + q)[1..]);
    }
  }

  lemma LoneCommentUnclean(s: Scope, ts: Statement)
    requires LoneComment(ts)
    ensures !Clean(s, ts)
  {
  }
}
