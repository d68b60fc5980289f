/** Where a GRANT or REVOKE has its objects and its roles, and which of them the scan reads. */
module SqlGrants {
  import opened SqlTokens
  import opened SqlRules
  import opened SqlFence

  // ---- lists of bare names ----------------------------------------------------------------------------------------

  /** The entry at p is a bare name and nothing more before the comma. */
  predicate Bare(ts: Statement, p: nat) {
    p < |ts| && IsName(ts, p) && NextComma(ts, p, 0) == p + 1
  }

  ghost predicate BareBefore(ts: Statement, ps: seq<nat>, k: nat)
    requires k <= |ps|
  {
    forall j :: 0 <= j < k ==> Bare(ts, ps[j])
  }

  lemma NamesStep(ts: Statement, i: nat)
    ensures !IsName(ts, i) ==> Names(ts, i) == [] && !Bare(ts, i)
    ensures IsName(ts, i) ==>
      var c := NextComma(ts, i, 0);
      Names(ts, i) == [ts[i].text] + if c < |ts| && Bare(ts, i) then Names(ts, c + 1) else []
  {
    if IsName(ts, i) { assert NextComma(ts, i, 0) == NextComma(ts, i + 1, 0); }
  }

  /** A list of bare names is read up to the first entry that is more than a name. */
  lemma {:induction false} RoleIsRead(ts: Statement, i: nat, k: nat)
    requires k < |Entries(ts, i)|
    ensures k < |Names(ts, i)| <==> IsName(ts, Entries(ts, i)[k]) && BareBefore(ts, Entries(ts, i), k)
    ensures k < |Names(ts, i)| ==> Names(ts, i)[k] == ts[Entries(ts, i)[k]].text
    decreases k, 1
  {
    hide Bare, NextComma, Names, BareBefore;
    if k == 0 {
      BareNone(ts, Entries(ts, i));
      NamesStep(ts, i);
    } else {
      hide Entries;
      RoleIsReadStep(ts, i, k);
    }
  }

  lemma {:induction false} RoleIsReadStep(ts: Statement, i: nat, k: nat)
    requires 0 < k < |Entries(ts, i)|
    ensures k < |Names(ts, i)| <==> IsName(ts, Entries(ts, i)[k]) && BareBefore(ts, Entries(ts, i), k)
    ensures k < |Names(ts, i)| ==> Names(ts, i)[k] == ts[Entries(ts, i)[k]].text
    decreases k, 0
  {
    hide Bare, NextComma, Names, BareBefore, Entries, IsName;
    EntriesStep(ts, i);
    NamesStep(ts, i);
    var c := NextComma(ts, i, 0);
    var rest := Entries(ts, c + 1);
    assert Entries(ts, i) == [i] + rest && Entries(ts, i)[k] == rest[k - 1];
    RoleIsRead(ts, c + 1, k - 1);
    BareCons(ts, i, rest, k);
    if Names(ts, i) == [ts[i].text] + Names(ts, c + 1) {
      assert k < |Names(ts, i)| ==> Names(ts, i)[k] == Names(ts, c + 1)[k - 1];
    }
  }

  lemma BareNone(ts: Statement, ps: seq<nat>)
    ensures BareBefore(ts, ps, 0)
  {
  }

  lemma BareCons(ts: Statement, i: nat, rest: seq<nat>, k: nat)
    requires 0 < k <= |rest|
    ensures BareBefore(ts, [i] + rest, k) <==> Bare(ts, i) && BareBefore(ts, rest, k - 1)
  {
    hide Bare;
    var ps := [i] + rest;
    assert ps[0] == i && ps[1..] == rest;
    if BareBefore(ts, ps, k) {
      forall j | 0 <= j < k - 1
        ensures Bare(ts, rest[j])
      {
        assert rest[j] == ps[j + 1];
      }
    }
  }

  /** Each role written is read exactly when each is a name, and each but the last a bare one. */
  lemma RolesReadIff(ts: Statement, i: nat)
    ensures |Names(ts, i)| >= |Entries(ts, i)| <==> AllNames(ts, i) && AllBare(ts, i)
  {
    hide Names, Entries;
    RoleIsRead(ts, i, |Entries(ts, i)| - 1);
  }

  ghost predicate AllBare(ts: Statement, i: nat) {
    BareBefore(ts, Entries(ts, i), |Entries(ts, i)| - 1)
  }

  // ---- where a GRANT or REVOKE has its objects and its roles ------------------------------------------------------

  ghost predicate Grants(ts: Statement) {
    ts != [] && (Kw(ts, 0) == "grant" || Kw(ts, 0) == "revoke")
  }

  /** The word before the roles. */
  function RoleWord(ts: Statement): string {
    if Kw(ts, 0) == "revoke" then "from" else "to"
  }

  /** The word at i says what kind of objects follow; before a comma, a dot or the roles it is a name itself. */
  predicate KindWord(ts: Statement, i: nat) {
    Kw(ts, i) in LISTED_GRANT_KINDS + {"schema"} && IsName(ts, i + 1) && Kw(ts, i + 1) != RoleWord(ts)
  }

  /** The object list is one of schemas. */
  predicate OnSchemas(ts: Statement) {
    var i := FindKw(ts, 0, "on") + 1;
    Kw(ts, i) == "all" || (Kw(ts, i) == "schema" && KindWord(ts, i))
  }

  /** Where the object list is written. */
  function ObjectsAt(ts: Statement): (j: nat)
    ensures FindKw(ts, 0, "on") <= j
  {
    var i := FindKw(ts, 0, "on") + 1;
    if Kw(ts, i) == "all" then FindKw(ts, i, "schema") + 1 else if KindWord(ts, i) then i + 1 else i
  }

  /** Where a list of names at i ends: past the first name with its argument list that no comma follows. */
  function ItemsEnd(ts: Statement, i: nat): (j: nat)
    ensures i <= j
    decreases |ts| - i
  {
    if !IsName(ts, i) then i
    else
      var end := SkipArgs(ts, RefAt(ts, i).1);
      if IsPunct(ts, end, ",") then ItemsEnd(ts, end + 1) else end
  }

  lemma ItemsEndStep(ts: Statement, i: nat)
    requires IsName(ts, i)
    ensures
      var end := SkipArgs(ts, RefAt(ts, i).1);
      ItemsEnd(ts, i) == if IsPunct(ts, end, ",") then ItemsEnd(ts, end + 1) else end
  {
  }

  /** A written list ends where its last item does, whatever its argument lists hold. */
  lemma {:induction false} ItemsEndAsWritten(ts: Statement, i: nat, items: seq<Item>)
    requires items != [] && (forall n :: 0 <= n < |items| ==> GoodItem(items[n]))
    requires Stands(ts, i, ListTokens(items)) && Ends(ts, i + |ListTokens(items)|)
    ensures ItemsEnd(ts, i) == i + |ListTokens(items)|
    decreases |items|
  {
    hide RefAt, SkipArgs, ItemTokens, GoodItem, Stands, ItemsEnd;
    if |items| == 1 {
      ReadItem(ts, i, items[0]);
      ItemsEndStep(ts, i);
    } else {
      var first, rest := ItemTokens(items[0]), ListTokens(items[1..]);
      StandsSplit(ts, i, first, [Punct(",")] + rest);
      StandsSplit(ts, i + |first|, [Punct(",")], rest);
      StandsAt(ts, i + |first|, [Punct(",")], 0);
      ReadItem(ts, i, items[0]);
      ItemsEndStep(ts, i);
      ItemsEndAsWritten(ts, i + |first| + 1, items[1..]);
    }
  }

  function NamesEnd(ts: Statement, i: nat): (j: nat)
    ensures i <= j
    decreases |ts| - i
  {
    if !IsName(ts, i) then i else if IsPunct(ts, i + 1, ",") then NamesEnd(ts, i + 2) else i + 1
  }

  function ObjectsEnd(ts: Statement): (j: nat)
    ensures FindKw(ts, 0, "on") <= j
  {
    if OnSchemas(ts) then NamesEnd(ts, ObjectsAt(ts)) else ItemsEnd(ts, ObjectsAt(ts))
  }

  /** After the object list come the roles. */
  predicate RolesFollow(ts: Statement) {
    Kw(ts, ObjectsEnd(ts)) == RoleWord(ts)
  }

  /** No word of the object list is the one before the roles. */
  ghost predicate NoRoleWord(ts: Statement) {
    forall k :: FindKw(ts, 0, "on") <= k < ObjectsEnd(ts) ==> Kw(ts, k) != RoleWord(ts)
  }

  /** Where the scan looks for roles: after the first such word. */
  function RolesAt(ts: Statement): nat {
    FindKw(ts, FindKw(ts, 0, "on"), RoleWord(ts)) + 1
  }

  /** The scan looks where the roles are written exactly when no word of the object list is the one before the roles. */
  lemma RolesFoundIff(ts: Statement)
    requires RolesFollow(ts)
    ensures RolesAt(ts) == ObjectsEnd(ts) + 1 <==> NoRoleWord(ts)
  {
    hide ObjectsEnd, FindKw;
    var found := RolesAt(ts) - 1;
    assert Kw(ts, found) == RoleWord(ts) || found >= |ts|;
  }

  /** The scan sees every role. */
  ghost predicate SeesRoles(ts: Statement) {
    NoRoleWord(ts) && AllNames(ts, ObjectsEnd(ts) + 1) && AllBare(ts, ObjectsEnd(ts) + 1)
  }

  /** A clean GRANT or REVOKE whose roles the scan sees names the module's own role alone. */
  lemma GrantsToOwnRole(s: Scope, ts: Statement, k: nat)
    requires Grants(ts) && Clean(s, ts) && RolesFollow(ts) && SeesRoles(ts)
    requires k < |Entries(ts, ObjectsEnd(ts) + 1)|
    ensures ts[Entries(ts, ObjectsEnd(ts) + 1)[k]].text == "kiban_" + s.moduleKey
  {
    hide Entries, Names, BareBefore, FindKw, GrantedClean, NoGrantOption, ObjectsEnd, NoRoleWord, RolesFollow;
    RolesFoundIff(ts);
    RolesReadIff(ts, RolesAt(ts));
    RoleIsRead(ts, RolesAt(ts), k);
    assert GrantRoles(ts) == Names(ts, RolesAt(ts));
    assert GrantRoles(ts)[k] in {"kiban_" + s.moduleKey};
  }

  /** The objects written are ones the module may grant on. */
  ghost predicate MayGrantOn(s: Scope, ts: Statement) {
    var own := if Kw(ts, FindKw(ts, 0, "on") + 1) == "all" then {s.moduleKey} else {s.moduleKey, "audit"};
    if OnSchemas(ts) then NamesIn(Names(ts, ObjectsAt(ts)), own) else ItemsClean(s, Items(ts, ObjectsAt(ts)))
  }

  /** The first object is spelled like a kind, and the scan takes it for one. */
  predicate TakenForKind(ts: Statement) {
    var i := FindKw(ts, 0, "on") + 1;
    Kw(ts, i) in LISTED_GRANT_KINDS + {"schema"} && !KindWord(ts, i)
  }

  /** A clean GRANT or REVOKE names only objects the module may grant on, unless its first object is taken for a kind;
      before a comma or a dot that leaves the scan no object to refuse. */
  lemma GrantsOnOwnObjects(s: Scope, ts: Statement)
    requires Grants(ts)
    ensures Clean(s, ts) && !TakenForKind(ts) ==> MayGrantOn(s, ts)
    ensures TakenForKind(ts) && !IsName(ts, FindKw(ts, 0, "on") + 2) ==> GrantedClean(s, ts, FindKw(ts, 0, "on") + 1)
  {
    hide CreateClean, AlterClean, DropClean, TruncateClean, CommentClean, FindKw, InFence, RefAt, SkipArgs;
  }
}
