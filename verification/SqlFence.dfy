/** What a clean migration cannot do, stated over how its statements are written. */
module SqlFence {
  import opened Options
  import opened SqlTokens
  import opened SqlRules

  // ---- every dotted name is seen ------------------------------------------------------------------------------

  /** A dotted name starts at p. */
  predicate Head(ts: Statement, p: int) {
    IsName(ts, p) && Dotted(ts, p + 1) && !(IsName(ts, p - 2) && IsPunct(ts, p - 1, "."))
  }

  function HeadRef(ts: Statement, p: int): Ref
    requires Head(ts, p)
  {
    Ref(ts[p].text, ts[p + 2].text, p)
  }

  lemma NoHeadInside(ts: Statement, from: nat, p: nat)
    requires from < p && Head(ts, p)
    ensures RefAt(ts, from).1 <= p
  {
    assert p == from + 1 ==> !Dotted(ts, from + 1);
    assert p == from + 3 ==> !Dotted(ts, from + 3);
  }

  lemma {:induction false} RefsQualified(ts: Statement, from: nat, to: nat)
    ensures forall r :: r in Refs(ts, from, to) ==> r.schema != ""
    decreases (to - from)
  {
    if from < to {
      var (r, next) := RefAt(ts, from);
      RefsQualified(ts, if next == from then from + 1 else next, to);
    }
  }

  lemma RefsStep(ts: Statement, from: nat, to: nat)
    requires from < to
    ensures
      var (r, next) := RefAt(ts, from);
      && r.pos == from && (next == from ==> r.schema == "")
      && Refs(ts, from, to) ==
        (if r.schema != "" then [r] else []) + Refs(ts, if next == from then from + 1 else next, to)
  {
  }

  lemma HeadAt(ts: Statement, p: nat)
    requires Head(ts, p)
    ensures RefAt(ts, p).0 == HeadRef(ts, p) && RefAt(ts, p).1 > p
  {
  }

  /** Going from name to name never jumps over the start of a dotted name; only an empty quoted schema is taken for no
      schema. */
  lemma {:induction false} HeadsSeen(ts: Statement, from: nat, to: nat, p: nat)
    requires from <= p < to && Head(ts, p)
    ensures HeadRef(ts, p) in Refs(ts, from, to) <==> ts[p].text != ""
    decreases p - from
  {
    hide Refs, RefAt;
    RefsStep(ts, from, to);
    var (r, next) := RefAt(ts, from);
    if from == p {
      HeadAt(ts, p);
      if ts[p].text == "" { RefsQualified(ts, next, to); }
    } else {
      NoHeadInside(ts, from, p);
      HeadsSeen(ts, if next == from then from + 1 else next, to, p);
    }
  }

  /** In a clean ALTER every dotted name from the target on lies in the module's fence. */
  lemma AlterFenced(s: Scope, ts: Statement, p: nat)
    requires ts != [] && AlterClean(s, ts)
    requires Head(ts, p) && AlterTarget(ts).0.pos <= p
    ensures ts[p].text != "" ==> InFence(s, HeadRef(ts, p), false)
    ensures p == AlterTarget(ts).0.pos ==> ts[p].text != "" && InFence(s, HeadRef(ts, p), true)
  {
    hide InFence, Refs, NoneForbidden, MovesNothing, FindKw, SkipKws, AlterTarget;
    var (target, next) := AlterTarget(ts);
    TargetShape(ts);
    if target.pos < p { NoHeadInside(ts, target.pos, p); }
    if next <= p {
      HeadsSeen(ts, next, |ts|, p);
    } else {
      TargetFence(s, target);
    }
  }

  /** The target is the qualified name at its own position. */
  lemma TargetShape(ts: Statement)
    requires ts != []
    ensures
      var (target, next) := AlterTarget(ts);
      0 <= target.pos && RefAt(ts, target.pos) == (target, next)
  {
    hide FindKw, SkipKws;
  }

  lemma TargetFence(s: Scope, r: Ref)
    ensures InFence(s, r, true) ==> InFence(s, r, false)
  {
  }

  // ---- lists as written ---------------------------------------------------------------------------------------

  /** The inside of an argument list up to and including its closing parenthesis. */
  datatype Args = Close | Next(t: Token, rest: Args) | Nest(inner: Args, rest: Args)

  /** A name of a list, qualified or not (schema "" is left out), with an argument list or none. */
  datatype Item = Item(schema: string, name: string, quoted: bool, args: Option<Args>)

  function ArgsTokens(a: Args): seq<Token> {
    match a
    case Close => [Punct(")")]
    case Next(t, rest) => [t] + ArgsTokens(rest)
    case Nest(inner, rest) => [Punct("(")] + ArgsTokens(inner) + ArgsTokens(rest)
  }

  predicate GoodArgs(a: Args) {
    match a
    case Close => true
    case Next(t, rest) => t != Punct("(") && t != Punct(")") && GoodArgs(rest)
    case Nest(inner, rest) => GoodArgs(inner) && GoodArgs(rest)
  }

  function NameTokens(item: Item): seq<Token> {
    if item.schema == "" then [Ident(item.name, item.quoted)]
    else [Ident(item.schema, item.quoted), Punct("."), Ident(item.name, item.quoted)]
  }

  function ArgListTokens(args: Option<Args>): seq<Token> {
    if args.None? then [] else [Punct("(")] + ArgsTokens(args.value)
  }

  function ItemTokens(item: Item): seq<Token> {
    NameTokens(item) + ArgListTokens(item.args)
  }

  predicate GoodItem(item: Item) {
    item.args.Some? ==> GoodArgs(item.args.value)
  }

  function ListTokens(items: seq<Item>): seq<Token>
    requires items != []
  {
    if |items| == 1 then ItemTokens(items[0]) else ItemTokens(items[0]) + ([Punct(",")] + ListTokens(items[1..]))
  }

  predicate Stands(ts: Statement, i: nat, w: seq<Token>) {
    i + |w| <= |ts| && ts[i..i + |w|] == w
  }

  /** Nothing at i carries a name or a list on. */
  predicate Ends(ts: Statement, i: nat) {
    !IsPunct(ts, i, ".") && !IsPunct(ts, i, "(") && !IsPunct(ts, i, ",")
  }

  lemma StandsSplit(ts: Statement, i: nat, a: seq<Token>, b: seq<Token>)
    requires Stands(ts, i, a + b)
    ensures Stands(ts, i, a) && Stands(ts, i + |a|, b)
  {
    assert ts[i..i + |a|] == (a + b)[..|a|];
    assert ts[i + |a|..i + |a| + |b|] == (a + b)[|a|..];
  }

  lemma StandsAt(ts: Statement, i: nat, w: seq<Token>, k: nat)
    requires Stands(ts, i, w) && k < |w|
    ensures ts[i + k] == w[k]
  {
    assert ts[i..i + |w|][k] == ts[i + k];
  }

  lemma ArgsStep(ts: Statement, i: nat, depth: int)
    requires i < |ts|
    ensures ts[i] == Punct("(") ==> ArgsEnd(ts, i, depth) == ArgsEnd(ts, i + 1, depth + 1)
    ensures ts[i] == Punct(")") ==> ArgsEnd(ts, i, depth) == if depth == 1 then i + 1 else ArgsEnd(ts, i + 1, depth - 1)
    ensures ts[i] != Punct("(") && ts[i] != Punct(")") ==> ArgsEnd(ts, i, depth) == ArgsEnd(ts, i + 1, depth)
  {
  }

  lemma {:induction false} ReadArgs(ts: Statement, i: nat, a: Args, depth: nat)
    requires Stands(ts, i, ArgsTokens(a)) && GoodArgs(a) && depth > 0
    ensures i + |ArgsTokens(a)| <= |ts|
    ensures
      var end := i + |ArgsTokens(a)|;
      ArgsEnd(ts, i, depth) == if depth == 1 then end else ArgsEnd(ts, end, depth - 1)
    decreases a
  {
    hide ArgsEnd, Stands;
    assert i + |ArgsTokens(a)| <= |ts| by { StandsFits(ts, i, ArgsTokens(a)); }
    StandsAt(ts, i, ArgsTokens(a), 0);
    ArgsStep(ts, i, depth);
    match a
    case Close => {}
    case Next(t, rest) => {
      StandsSplit(ts, i, [t], ArgsTokens(rest));
      ReadArgs(ts, i + 1, rest, depth);
    }
    case Nest(inner, rest) => {
      StandsSplit(ts, i, [Punct("(")] + ArgsTokens(inner), ArgsTokens(rest));
      StandsSplit(ts, i, [Punct("(")], ArgsTokens(inner));
      ReadArgs(ts, i + 1, inner, depth + 1);
      ReadArgs(ts, i + 1 + |ArgsTokens(inner)|, rest, depth);
    }
  }

  lemma StandsFits(ts: Statement, i: nat, w: seq<Token>)
    requires Stands(ts, i, w)
    ensures i + |w| <= |ts|
  {
  }

  lemma ReadItemName(ts: Statement, i: nat, item: Item)
    requires Stands(ts, i, NameTokens(item)) && !IsPunct(ts, i + |NameTokens(item)|, ".")
    ensures IsName(ts, i) && RefAt(ts, i) == (Ref(item.schema, item.name, i), i + |NameTokens(item)|)
  {
    hide Stands;
    var names := NameTokens(item);
    StandsFits(ts, i, names);
    StandsAt(ts, i, names, 0);
    if item.schema != "" {
      StandsAt(ts, i, names, 1);
      StandsAt(ts, i, names, 2);
    }
  }

  lemma ReadArgList(ts: Statement, i: nat, args: Option<Args>)
    requires Stands(ts, i, ArgListTokens(args)) && (args.Some? ==> GoodArgs(args.value))
    requires !IsPunct(ts, i + |ArgListTokens(args)|, "(")
    ensures i <= |ts| && SkipArgs(ts, i) == i + |ArgListTokens(args)|
    ensures args.Some? ==> IsPunct(ts, i, "(")
  {
    hide ArgsEnd, ArgsTokens, Stands;
    StandsFits(ts, i, ArgListTokens(args));
    if args.Some? {
      StandsAt(ts, i, ArgListTokens(args), 0);
      StandsSplit(ts, i, [Punct("(")], ArgsTokens(args.value));
      ReadArgs(ts, i + 1, args.value, 1);
    }
  }

  lemma ReadItem(ts: Statement, i: nat, item: Item)
    requires Stands(ts, i, ItemTokens(item)) && GoodItem(item)
    requires var end := i + |ItemTokens(item)|; Ends(ts, end) || IsPunct(ts, end, ",")
    ensures
      var (r, next) := RefAt(ts, i);
      && IsName(ts, i) && r == Ref(item.schema, item.name, i)
      && next <= |ts| && SkipArgs(ts, next) == i + |ItemTokens(item)|
  {
    hide RefAt, SkipArgs, NameTokens, Stands;
    StandsSplit(ts, i, NameTokens(item), ArgListTokens(item.args));
    ReadArgList(ts, i + |NameTokens(item)|, item.args);
    ReadItemName(ts, i, item);
  }

  /** A written list is read item by item, whatever its argument lists hold. */
  lemma {:induction false} ItemsAsWritten(ts: Statement, i: nat, items: seq<Item>, k: nat)
    requires items != [] && (forall n :: 0 <= n < |items| ==> GoodItem(items[n]))
    requires Stands(ts, i, ListTokens(items)) && Ends(ts, i + |ListTokens(items)|) && k < |items|
    ensures |Items(ts, i)| == |items|
    ensures Items(ts, i)[k].schema == items[k].schema && Items(ts, i)[k].name == items[k].name
    decreases |items|
  {
    hide RefAt, SkipArgs, ItemTokens, GoodItem, Stands, Items;
    ReadStep(ts, i);
    if |items| == 1 {
      ReadItem(ts, i, items[0]);
    } else {
      var first, rest := ItemTokens(items[0]), ListTokens(items[1..]);
      StandsSplit(ts, i, first, [Punct(",")] + rest);
      StandsSplit(ts, i + |first|, [Punct(",")], rest);
      StandsAt(ts, i + |first|, [Punct(",")], 0);
      ReadItem(ts, i, items[0]);
      ItemsAsWritten(ts, i + |first| + 1, items[1..], if k == 0 then 0 else k - 1);
    }
  }

  // ---- which names of a list are read ---------------------------------------------------------------------------

  /** The first comma from i on outside parentheses, `depth` of them being open at i, or the end. */
  function NextComma(ts: Statement, i: nat, depth: int): (j: nat)
    requires i <= |ts|
    ensures i <= j <= |ts| && (j < |ts| ==> IsPunct(ts, j, ","))
    decreases |ts| - i
  {
    if i == |ts| || (depth == 0 && IsPunct(ts, i, ",")) then i
    else NextComma(ts, i + 1, if IsPunct(ts, i, "(") then depth + 1 else if IsPunct(ts, i, ")") then depth - 1
      else depth)
  }

  /** The places where the list written from i on has its entries: i, and after each comma outside parentheses. */
  function Entries(ts: Statement, i: nat): (ps: seq<nat>)
    ensures ps != [] && ps[0] == i
    decreases |ts| - i
  {
    if i > |ts| then [i]
    else
      var c := NextComma(ts, i, 0);
      [i] + if c < |ts| then Entries(ts, c + 1) else []
  }

  ghost predicate IsRead(ts: Statement, i: nat, p: nat) {
    exists k :: 0 <= k < |Items(ts, i)| && Items(ts, i)[k].pos == p
  }

  /** The entry at p is a name and its argument list, and nothing more before the comma. */
  predicate Tight(ts: Statement, p: nat) {
    p <= |ts| && IsName(ts, p) && SkipArgs(ts, RefAt(ts, p).1) == NextComma(ts, p, 0)
  }

  /** Every entry starts with a name. */
  ghost predicate AllNames(ts: Statement, i: nat) {
    forall k :: 0 <= k < |Entries(ts, i)| ==> IsName(ts, Entries(ts, i)[k])
  }

  /** Every entry but the last is tight. */
  ghost predicate AllTight(ts: Statement, i: nat) {
    TightBefore(ts, Entries(ts, i), |Entries(ts, i)| - 1)
  }

  ghost predicate AllRead(ts: Statement, i: nat) {
    forall k :: 0 <= k < |Entries(ts, i)| ==> IsRead(ts, i, Entries(ts, i)[k])
  }

  /** The commas inside an argument list are not the list's. */
  lemma {:induction false} CommaAfterArgs(ts: Statement, i: nat, depth: nat)
    requires i <= |ts| && depth > 0
    ensures NextComma(ts, i, depth) == NextComma(ts, ArgsEnd(ts, i, depth), 0)
    decreases |ts| - i
  {
    if i < |ts| {
      if IsPunct(ts, i, "(") {
        CommaAfterArgs(ts, i + 1, depth + 1);
      } else if IsPunct(ts, i, ")") {
        if depth > 1 { CommaAfterArgs(ts, i + 1, depth - 1); }
      } else {
        CommaAfterArgs(ts, i + 1, depth);
      }
    }
  }

  lemma {:induction false} CommaAfterNames(ts: Statement, i: nat, j: nat)
    requires i <= j <= |ts| && forall k :: i <= k < j ==> ts[k].Ident? || ts[k] == Punct(".")
    ensures NextComma(ts, i, 0) == NextComma(ts, j, 0)
    decreases j - i
  {
    if i < j { CommaAfterNames(ts, i + 1, j); }
  }

  /** Nor is anything in an item: the comma after an item is the one that ends its entry. */
  lemma CommaAfterItem(ts: Statement, p: nat)
    requires IsName(ts, p)
    ensures RefAt(ts, p).1 <= |ts| && NextComma(ts, p, 0) == NextComma(ts, SkipArgs(ts, RefAt(ts, p).1), 0)
    ensures Tight(ts, p) && NextComma(ts, p, 0) < |ts| <==> IsPunct(ts, SkipArgs(ts, RefAt(ts, p).1), ",")
  {
    hide ArgsEnd;
    var next := RefAt(ts, p).1;
    CommaAfterNames(ts, p, next);
    if IsPunct(ts, next, "(") { CommaAfterArgs(ts, next + 1, 1); }
  }

  lemma ReadStep(ts: Statement, i: nat)
    ensures !IsName(ts, i) ==> Items(ts, i) == []
    ensures IsName(ts, i) ==>
      var end := SkipArgs(ts, RefAt(ts, i).1);
      && i < end && RefAt(ts, i).0.pos == i
      && Items(ts, i) == [RefAt(ts, i).0] + if IsPunct(ts, end, ",") then Items(ts, end + 1) else []
  {
  }

  /** What is read: the first entry if it is a name, and the rest of the list if that entry is tight. */
  lemma ReadEntry(ts: Statement, i: nat, p: nat)
    requires i <= |ts|
    ensures IsRead(ts, i, i) <==> IsName(ts, i)
    ensures p > i ==>
      var c := NextComma(ts, i, 0);
      IsRead(ts, i, p) <==> Tight(ts, i) && c < |ts| && IsRead(ts, c + 1, p)
  {
    hide RefAt, SkipArgs, NextComma, Items;
    ReadStep(ts, i);
    if IsName(ts, i) {
      CommaAfterItem(ts, i);
      var end := SkipArgs(ts, RefAt(ts, i).1);
      assert Items(ts, i)[0].pos == i;
      if IsPunct(ts, end, ",") {
        var rest := Items(ts, end + 1);
        assert Items(ts, i)[1..] == rest;
        if k :| 0 <= k < |rest| && rest[k].pos == p { assert Items(ts, i)[k + 1].pos == p; }
        if k :| 0 < k < |Items(ts, i)| && Items(ts, i)[k].pos == p { assert rest[k - 1].pos == p; }
      }
    }
  }

  lemma {:induction false} EntriesAscend(ts: Statement, i: nat, k: nat)
    requires i <= |ts| && k < |Entries(ts, i)|
    ensures i + k <= Entries(ts, i)[k] <= |ts|
    decreases k
  {
    if k > 0 { EntriesAscend(ts, NextComma(ts, i, 0) + 1, k - 1); }
  }

  ghost predicate TightBefore(ts: Statement, ps: seq<nat>, k: nat)
    requires k <= |ps|
  {
    forall j :: 0 <= j < k ==> Tight(ts, ps[j])
  }

  lemma TightCons(ts: Statement, i: nat, rest: seq<nat>, k: nat)
    requires 0 < k <= |rest|
    ensures TightBefore(ts, [i] + rest, k) <==> Tight(ts, i) && TightBefore(ts, rest, k - 1)
  {
    hide Tight;
    var ps := [i] + rest;
    assert ps[0] == i && ps[1..] == rest;
    if TightBefore(ts, ps, k) {
      forall j | 0 <= j < k - 1
        ensures Tight(ts, rest[j])
      {
        assert rest[j] == ps[j + 1];
      }
    }
  }

  /** Reading a written name takes every entry before it. */
  lemma {:induction false} NameIsRead(ts: Statement, i: nat, k: nat)
    requires i <= |ts| && k < |Entries(ts, i)|
    ensures IsRead(ts, i, Entries(ts, i)[k]) <==> IsName(ts, Entries(ts, i)[k]) && TightBefore(ts, Entries(ts, i), k)
    decreases k
  {
    hide IsRead, Tight, NextComma, Entries, TightBefore;
    EntriesStep(ts, i);
    ReadEntry(ts, i, Entries(ts, i)[k]);
    if k == 0 {
      TightNone(ts, Entries(ts, i));
    } else {
      var c := NextComma(ts, i, 0);
      var rest := Entries(ts, c + 1);
      EntriesAscend(ts, i, k);
      NameIsRead(ts, c + 1, k - 1);
      TightCons(ts, i, rest, k);
      assert ([i] + rest)[k] == rest[k - 1];
    }
  }

  lemma EntriesStep(ts: Statement, i: nat)
    ensures i > |ts| ==> Entries(ts, i) == [i]
    ensures i <= |ts| ==>
      var c := NextComma(ts, i, 0);
      Entries(ts, i) == if c < |ts| then [i] + Entries(ts, c + 1) else [i]
  {
  }

  lemma TightNone(ts: Statement, ps: seq<nat>)
    ensures TightBefore(ts, ps, 0)
  {
  }

  /** For every statement and every list in it: each written entry is read exactly when each is a name, and each but the
      last no more than a name and an argument list. */
  lemma EntriesReadIff(ts: Statement, i: nat)
    ensures AllRead(ts, i) <==> AllNames(ts, i) && AllTight(ts, i)
  {
    hide IsRead, Tight, Entries;
    var ps := Entries(ts, i);
    if i > |ts| {
      NothingRead(ts, i);
      return;
    }
    NameIsRead(ts, i, |ps| - 1);
    forall k | 0 <= k < |ps|
      ensures IsRead(ts, i, ps[k]) <==> IsName(ts, ps[k]) && TightBefore(ts, ps, k)
    {
      NameIsRead(ts, i, k);
    }
  }

  lemma NothingRead(ts: Statement, i: nat)
    requires i > |ts|
    ensures !IsRead(ts, i, Entries(ts, i)[0]) && !IsName(ts, Entries(ts, i)[0])
  {
  }

  // ---- DROP and TRUNCATE ----------------------------------------------------------------------------------------

  /** Where the list of a DROP or TRUNCATE begins. */
  function DestroyedAt(ts: Statement): nat
    requires ts != []
  {
    if Kw(ts, 0) == "truncate" then SkipKws(ts, 1, {"table", "only"})
    else if Kw(ts, 1) == "schema" then DropStart(ts)
    else ListStart(ts, Kw(ts, 1), DropStart(ts))
  }

  ghost predicate Destroys(ts: Statement) {
    ts != [] && (Kw(ts, 0) == "truncate" || Kw(ts, 0) == "drop")
  }

  predicate DropsSchema(ts: Statement) {
    Kw(ts, 0) == "drop" && Kw(ts, 1) == "schema"
  }

  /** The name at p is one the module may destroy: its own schema, an object of its fence, or, to truncate, a table of
      its own schema. */
  ghost predicate MayDestroy(s: Scope, ts: Statement, p: nat) {
    if DropsSchema(ts) then IsName(ts, p) && ts[p].text == s.moduleKey
    else
      var r := RefAt(ts, p).0;
      && r.schema != "" && InFence(s, r, true)
      && (Kw(ts, 0) == "truncate" ==> r.schema == s.moduleKey)
  }

  lemma {:induction false} ItemAt(ts: Statement, i: nat, k: nat)
    requires k < |Items(ts, i)|
    ensures 0 <= Items(ts, i)[k].pos && RefAt(ts, Items(ts, i)[k].pos).0 == Items(ts, i)[k]
    decreases k
  {
    hide SkipArgs;
    if k > 0 { ItemAt(ts, SkipArgs(ts, RefAt(ts, i).1) + 1, k - 1); }
  }

  /** Every name a clean DROP or TRUNCATE of objects has read is qualified and permitted. */
  lemma ReadIsPermitted(s: Scope, ts: Statement, p: nat)
    requires Destroys(ts) && Clean(s, ts) && !DropsSchema(ts)
    requires IsRead(ts, DestroyedAt(ts), p)
    ensures MayDestroy(s, ts, p)
  {
    hide Items, RefAt, ListStart, DropStart, SkipKws;
    var i := DestroyedAt(ts);
    var k :| 0 <= k < |Items(ts, i)| && Items(ts, i)[k].pos == p;
    ItemAt(ts, i, k);
    assert Items(ts, i)[k].schema != "" && InFence(s, Items(ts, i)[k], true);
  }

  /** The names written in a list. */
  ghost function NamesWritten(ts: Statement, i: nat): set<string> {
    set k | 0 <= k < |Entries(ts, i)| && IsName(ts, Entries(ts, i)[k]) :: ts[Entries(ts, i)[k]].text
  }

  /** A clean DROP SCHEMA names the module's own schema alone exactly when it names one schema: the scan reads the first
      name of the list. */
  lemma DropSchemaOwn(s: Scope, ts: Statement)
    requires s.moduleKey != "" && DropClean(s, ts) && DropsSchema(ts)
    ensures s.moduleKey in NamesWritten(ts, DropStart(ts))
    ensures NamesWritten(ts, DropStart(ts)) == {s.moduleKey} <==> |NamesWritten(ts, DropStart(ts))| == 1
  {
    hide Entries;
    var i := DropStart(ts);
    var names := NamesWritten(ts, i);
    assert Entries(ts, i)[0] == i && IsName(ts, i) && ts[i].text == s.moduleKey;
    if |names| == 1 { OneElement(names, s.moduleKey); }
  }

  /** The scan sees the whole list: its entries are names, and name one schema or have at most an argument list each
      before the next. */
  ghost predicate SeesAll(ts: Statement)
    requires ts != []
  {
    var i := DestroyedAt(ts);
    AllNames(ts, i) && if DropsSchema(ts) then |NamesWritten(ts, i)| == 1 else AllTight(ts, i)
  }

  /** A clean DROP or TRUNCATE whose list the scan sees names nothing but what the module may destroy. */
  lemma DestroysOnlyOwn(s: Scope, ts: Statement, k: nat)
    requires s.moduleKey != "" && Destroys(ts) && Clean(s, ts) && SeesAll(ts)
    requires k < |Entries(ts, DestroyedAt(ts))|
    ensures MayDestroy(s, ts, Entries(ts, DestroyedAt(ts))[k])
  {
    hide IsRead, Entries, AllTight, CreateClean, AlterClean, GrantClean, TruncateClean, CommentClean, ItemsClean, Items;
    var i := DestroyedAt(ts);
    if DropsSchema(ts) {
      DropSchemaOwn(s, ts);
      assert ts[Entries(ts, i)[k]].text in NamesWritten(ts, i);
    } else {
      EntriesReadIff(ts, i);
      ReadIsPermitted(s, ts, Entries(ts, i)[k]);
    }
  }

  lemma OneElement(names: set<string>, n: string)
    requires |names| == 1 && n in names
    ensures names == {n}
  {
    assert |names - {n}| == 0;
  }

  /** A clean statement starts with an allowed verb. */
  lemma CleanVerb(s: Scope, ts: Statement)
    requires ts != [] && Clean(s, ts)
    ensures Kw(ts, 0) in {"create", "alter", "drop", "grant", "revoke", "truncate", "insert", "update", "delete",
      "with", "comment"}
  {
    hide CreateClean, AlterClean, DropClean, GrantClean, TruncateClean, TablesClean, CommentClean;
  }
}
