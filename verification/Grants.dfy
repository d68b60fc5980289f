/**
 The grants route: a chain of guards in front of the tuple table that keeps every module object bound to one
 company. `Admitted` is what the guards ask; `HandleGrants` is the handler; the lemmas say what the guards achieve,
 for one request and for whole runs of requests. A request is one atomic step.
 */
module Grants {
  import opened Options
  import opened AuthzTuple
  import opened AuthzEngine
  import opened Fragments

  datatype Operation = Grant | Revoke
  datatype Request = Request(op: Operation, company: string, tuples: seq<Tuple>)

  /** What other parts of the service answer about the bearer: the superadmin decision, decision steps 1 to 6 for the
      request's company per module, the modules the calling app registered, and the module-admin relation. */
  datatype Caller = Caller(superadmin: bool, passes: set<string>, owns: set<string>, moduleAdmin: bool)

  function AnchorId(company: string, moduleKey: string): string {
    company + "/" + moduleKey
  }

  // ---- the tuple table --------------------------------------------------------------------------------

  predicate OnObject(t: Tuple, objectType: string, objectId: string) {
    t.objectType == objectType && t.objectId == objectId
  }

  predicate SameObject(t: Tuple, u: Tuple) {
    OnObject(t, u.objectType, u.objectId)
  }

  /** The rows the one-anchor index covers. */
  predicate AnchorRow(t: Tuple) {
    t.relation == "company_module" && t.subjectType == "company_module"
  }

  predicate Complete(t: Tuple) {
    t.objectType != "" && t.objectId != "" && t.relation != "" && t.subjectType != "" && t.subjectId != ""
  }

  predicate SecondAnchor(tuples: set<Tuple>, t: Tuple) {
    AnchorRow(t) && exists u :: u in tuples && AnchorRow(u) && SameObject(u, t)
  }

  /** One write of a transaction; nothing when the table refuses it. Revoking an anchor takes the object's other
      tuples with it. */
  function WriteOne(tuples: set<Tuple>, op: Operation, t: Tuple): Option<set<Tuple>> {
    if !Complete(t) then None
    else match op
    case Grant => if t in tuples then Some(tuples) else if SecondAnchor(tuples, t) then None else Some(tuples + {t})
    case Revoke =>
      if t in tuples && AnchorRow(t) then Some(set u | u in tuples && !SameObject(u, t)) else Some(tuples - {t})
  }

  function WriteAll(tuples: set<Tuple>, op: Operation, ts: seq<Tuple>): Option<set<Tuple>>
    decreases |ts|
  {
    if ts == [] then Some(tuples) else
    match WriteOne(tuples, op, ts[0])
    case None => None
    case Some(next) => WriteAll(next, op, ts[1..])
  }

  method WriteTuples(tuples: set<Tuple>, op: Operation, ts: seq<Tuple>) returns (after: Option<set<Tuple>>)
    ensures after == if ts == [] then None else WriteAll(tuples, op, ts)
  {
    if ts == [] { return None; }
    var cur := tuples;
    for i := 0 to |ts|
      invariant WriteAll(cur, op, ts[i..]) == WriteAll(tuples, op, ts)
    {
      assert ts[i..][0] == ts[i] && ts[i..][1..] == ts[i + 1..];
      var next := WriteOne(cur, op, ts[i]);
      if next.None? { return None; }
      cur := next.value;
    }
    after := Some(cur);
  }

  /** An object carries at most one anchor row. */
  ghost predicate OneAnchor(tuples: set<Tuple>) {
    forall t, u :: t in tuples && u in tuples && AnchorRow(t) && AnchorRow(u) && SameObject(t, u) ==> t == u
  }

  function Anchor(objectType: string, objectId: string, anchor: string): Tuple {
    Tuple(objectType, objectId, "company_module", "company_module", anchor, "")
  }

  predicate Unanchored(tuples: set<Tuple>, objectType: string, objectId: string) {
    forall u :: u in tuples && AnchorRow(u) ==> !OnObject(u, objectType, objectId)
  }

  /** The object's anchor row, if any, names `anchor`. */
  predicate NoOtherAnchor(tuples: set<Tuple>, objectType: string, objectId: string, anchor: string) {
    forall u :: u in tuples && AnchorRow(u) && OnObject(u, objectType, objectId) ==> u.subjectId == anchor
  }

  // ---- the guards --------------------------------------------------------------------------------------

  predicate StartsWith(s: string, prefix: string) {
    |prefix| <= |s| && s[..|prefix|] == prefix
  }

  /** Rule 1: the module a tuple's object belongs to. */
  function ModuleOf(l: Loaded, company: string, t: Tuple): Option<string> {
    if t.objectType == "company_module" then
      var prefix := company + "/";
      if StartsWith(t.objectId, prefix) && t.objectId[|prefix|..] in l.known then Some(t.objectId[|prefix|..]) else None
    else if t.objectType in l.typeOwner && l.typeOwner[t.objectType] != "" then Some(l.typeOwner[t.objectType])
    else None
  }

  predicate SubjectDefined(l: Loaded, t: Tuple) {
    t.subjectRelation == "" || (t.subjectType in l.model && t.subjectRelation in l.model[t.subjectType])
  }

  /** The key of the handler's in-request anchor set. */
  function Key(t: Tuple): string {
    t.objectType + ":" + t.objectId
  }

  /** A key split at its first colon. */
  function Cut(key: string): (string, string) {
    if key == "" then ("", "")
    else if key[0] == ':' then ("", key[1..])
    else var (a, b) := Cut(key[1..]); ([key[0]] + a, b)
  }

  predicate AnchorsHere(req: Request, anchor: string, t: Tuple) {
    && req.op == Grant && t.relation == "company_module"
    && t.subjectType == "company_module" && t.subjectId == anchor && t.subjectRelation == ""
  }

  /** The object a key is taken to name has no other anchor. */
  predicate KeyFree(tuples: set<Tuple>, key: string, anchor: string) {
    NoOtherAnchor(tuples, Cut(key).0, Cut(key).1, anchor)
  }

  function CompanyCheck(tuples: set<Tuple>, l: Loaded, company: string): Env {
    Env(l.model, tuples, "company", company, "")
  }

  /** A position, group or member subject belongs to the company: the first two by a relation check, a member by its
      row. */
  ghost predicate SubjectInCompany(tuples: set<Tuple>, l: Loaded, company: string, t: Tuple) {
    if t.subjectType == "position" || t.subjectType == "group" then
      Derivable(CompanyCheck(tuples, l, company), Node(t.subjectType, t.subjectId, "company"))
    else InCompany(tuples, company, t.subjectType, t.subjectId)
  }

  function InRequestAnchors(req: Request, anchor: string): set<string> {
    set t | t in req.tuples && AnchorsHere(req, anchor, t) :: Key(t)
  }

  function AnchorCheck(tuples: set<Tuple>, l: Loaded, anchor: string): Env {
    Env(l.model, tuples, "company_module", anchor, "")
  }

  function AnchorNode(t: Tuple): Node {
    Node(t.objectType, t.objectId, "company_module")
  }

  /** Rules 2 and 4 for one tuple. */
  ghost predicate TupleAdmitted(tuples: set<Tuple>, l: Loaded, caller: Caller, req: Request, m: string, t: Tuple) {
    var anchor := AnchorId(req.company, m);
    var here := Key(t) in InRequestAnchors(req, anchor);
    if t.objectType == "company_module" then caller.moduleAdmin
    else
      && (req.op == Grant && t.relation == "company_module" ==> here)
      && (|| here
          || Derivable(AnchorCheck(tuples, l, anchor), AnchorNode(t))
          || (req.op == Revoke && m in caller.owns && Unanchored(tuples, t.objectType, t.objectId)))
  }

  /** Everything the guards ask of a request for module m, other than a company-administrator appointment. */
  ghost predicate Admitted(tuples: set<Tuple>, l: Loaded, caller: Caller, req: Request, m: string) {
    var anchor := AnchorId(req.company, m);
    && req.tuples != []
    && (forall t :: t in req.tuples ==> ModuleOf(l, req.company, t) == Some(m))
    && (req.op == Grant ==>
          forall t :: t in req.tuples ==> SubjectDefined(l, t) && SubjectInCompany(tuples, l, req.company, t))
    && (if m in caller.owns then m in l.known && l.known[m] else m in caller.passes)
    && (forall t :: t in req.tuples && AnchorsHere(req, anchor, t) ==> KeyFree(tuples, Key(t), anchor))
    && (forall t :: t in req.tuples ==> TupleAdmitted(tuples, l, caller, req, m, t))
  }

  predicate IsCompanyAdminAppointment(req: Request) {
    forall t :: t in req.tuples ==>
      t.objectType == "company" && t.objectId == req.company && t.relation == "admin" &&
      t.subjectType == "user" && t.subjectId != "" && t.subjectRelation == ""
  }

  /** What a request may do to the table: nothing, an appointment, or the write of an admitted request. */
  ghost predicate Effect(tuples: set<Tuple>, l: Loaded, caller: Caller, req: Request, after: set<Tuple>) {
    || after == tuples
    || (req.tuples != [] && IsCompanyAdminAppointment(req) && caller.superadmin &&
      WriteAll(tuples, req.op, req.tuples) == Some(after))
    || (exists m :: Admitted(tuples, l, caller, req, m) && WriteAll(tuples, req.op, req.tuples) == Some(after))
  }

  // ---- what the writes do ---------------------------------------------------------------------------------

  ghost predicate SameOn(tuples: set<Tuple>, after: set<Tuple>, objectType: string, objectId: string) {
    forall u :: OnObject(u, objectType, objectId) ==> (u in after <==> u in tuples)
  }

  /** A write never touches an object it does not name. */
  lemma {:induction false} UnnamedUntouched(tuples: set<Tuple>, op: Operation, ts: seq<Tuple>, objectType: string,
      objectId: string)
    requires WriteAll(tuples, op, ts).Some?
    requires forall t :: t in ts ==> !OnObject(t, objectType, objectId)
    ensures SameOn(tuples, WriteAll(tuples, op, ts).value, objectType, objectId)
    decreases |ts|
  {
    if ts != [] {
      var next := WriteOne(tuples, op, ts[0]).value;
      assert ts[0] in ts && SameOn(tuples, next, objectType, objectId);
      UnnamedUntouched(next, op, ts[1..], objectType, objectId);
    }
  }

  /** A committed grant adds exactly the tuples it names. */
  lemma {:induction false} GrantAdds(tuples: set<Tuple>, ts: seq<Tuple>)
    requires WriteAll(tuples, Grant, ts).Some?
    ensures forall u :: u in WriteAll(tuples, Grant, ts).value <==> u in tuples || u in ts
    decreases |ts|
  {
    if ts != [] {
      assert ts == [ts[0]] + ts[1..];
      GrantAdds(WriteOne(tuples, Grant, ts[0]).value, ts[1..]);
    }
  }

  /** A committed revoke keeps exactly the tuples it neither names nor finds on an object whose anchor it takes. */
  lemma {:induction false} RevokeRemoves(tuples: set<Tuple>, ts: seq<Tuple>)
    requires WriteAll(tuples, Revoke, ts).Some?
    ensures forall u :: u in WriteAll(tuples, Revoke, ts).value <==>
      u in tuples && u !in ts && !AnchorTaken(tuples, ts, u)
    decreases |ts|
  {
    if ts != [] {
      var next := WriteOne(tuples, Revoke, ts[0]).value;
      RevokeRemoves(next, ts[1..]);
      forall u
        ensures
          u in next && u !in ts[1..] && !AnchorTaken(next, ts[1..], u) <==>
            u in tuples && u !in ts && !AnchorTaken(tuples, ts, u)
      {
        RevokeStep(tuples, ts, u);
      }
    }
  }

  /** The revoke names an anchor row that u's object carries. */
  ghost predicate AnchorTaken(tuples: set<Tuple>, ts: seq<Tuple>, u: Tuple) {
    exists t :: t in ts && t in tuples && AnchorRow(t) && SameObject(u, t)
  }

  lemma RevokeStep(tuples: set<Tuple>, ts: seq<Tuple>, u: Tuple)
    requires ts != [] && Complete(ts[0])
    ensures
      var next := WriteOne(tuples, Revoke, ts[0]).value;
      u in next && u !in ts[1..] && !AnchorTaken(next, ts[1..], u) <==>
        u in tuples && u !in ts && !AnchorTaken(tuples, ts, u)
  {
    var first, rest := ts[0], ts[1..];
    var next := WriteOne(tuples, Revoke, first).value;
    assert forall t :: t in ts <==> t == first || t in rest;
  }

  lemma {:induction false} WritesKeepOneAnchor(tuples: set<Tuple>, op: Operation, ts: seq<Tuple>)
    requires OneAnchor(tuples) && WriteAll(tuples, op, ts).Some?
    ensures OneAnchor(WriteAll(tuples, op, ts).value)
    decreases |ts|
  {
    if ts != [] {
      WritesKeepOneAnchor(WriteOne(tuples, op, ts[0]).value, op, ts[1..]);
    }
  }

  // ---- what the guards achieve ------------------------------------------------------------------------------

  /** No `company_module` row has a userset for a subject. */
  ghost predicate NoLinks(tuples: set<Tuple>) {
    forall u :: u in tuples && u.relation == "company_module" ==> u.subjectRelation == ""
  }

  /** The request grants no such row. */
  predicate GrantsNoLink(req: Request) {
    req.op == Revoke || forall t :: t in req.tuples && t.relation == "company_module" ==> t.subjectRelation == ""
  }

  /** No tuple of the request shares the key of an object anchored by it without being on that object. */
  ghost predicate NoCollision(req: Request, anchor: string) {
    forall t, u :: t in req.tuples && u in req.tuples && AnchorsHere(req, anchor, u) && Key(t) == Key(u) ==>
      SameObject(t, u)
  }

  /** Keys collide only through colons in object types. */
  lemma KeyNamesObject(t: Tuple, u: Tuple)
    requires Key(t) == Key(u) && ':' !in t.objectType && ':' !in u.objectType
    ensures SameObject(t, u)
  {
    var a, b := t.objectType, u.objectType;
    assert Key(t)[|a|] == ':' && Key(u)[|b|] == ':';
    assert Key(t)[..|a|] == a && Key(u)[..|b|] == b;
    assert Key(t)[|a| + 1..] == t.objectId && Key(u)[|b| + 1..] == u.objectId;
  }

  lemma NoColonNoCollision(req: Request, anchor: string)
    requires forall t :: t in req.tuples ==> ':' !in t.objectType
    ensures NoCollision(req, anchor)
  {
    forall t, u | t in req.tuples && u in req.tuples && Key(t) == Key(u)
      ensures SameObject(t, u)
    {
      KeyNamesObject(t, u);
    }
  }

  /** Without links the engine's anchor check is the lookup of the anchor row. */
  lemma CheckIsLookup(tuples: set<Tuple>, l: Loaded, anchor: string, t: Tuple)
    requires NoLinks(tuples) && AnchoredOwned(l) && t.objectType in l.typeOwner
    ensures Derivable(AnchorCheck(tuples, l, anchor), AnchorNode(t)) <==>
      Anchor(t.objectType, t.objectId, anchor) in tuples
  {
    var env := AnchorCheck(tuples, l, anchor);
    var x := AnchorNode(t);
    DirectHolds(env, x);
    if u :|
      && u in env.tuples && RowOn(u, x, x.rel)
      && (NamesSubject(env, u) || (Expands(env, u) && Derivable(env, SubjectNode(u)))) {
      assert u == Anchor(t.objectType, t.objectId, anchor);
    }
    var a := Anchor(t.objectType, t.objectId, anchor);
    assert a in tuples ==> RowOn(a, x, x.rel) && NamesSubject(env, a);
  }

  // ---- tables with links ---------------------------------------------------------------------------------------

  /** A row that makes one object's anchor check follow another object's. */
  predicate IsLink(l: Loaded, u: Tuple) {
    && u.objectType in l.typeOwner && u.relation == "company_module"
    && u.subjectType in l.typeOwner && u.subjectRelation == "company_module"
  }

  /** The userset rows of anchors lead to anchors of module objects. */
  ghost predicate LinksOnly(tuples: set<Tuple>, l: Loaded) {
    forall u ::
      u in tuples && u.objectType in l.typeOwner && u.relation == "company_module" && u.subjectRelation != "" ==>
        IsLink(l, u)
  }

  /** An object carries every anchor of the objects it links to. */
  ghost predicate LinksAgree(tuples: set<Tuple>, l: Loaded) {
    forall u, a :: u in tuples && IsLink(l, u) && Anchor(u.subjectType, u.subjectId, a) in tuples ==>
      Anchor(u.objectType, u.objectId, a) in tuples
  }

  /** Every anchor check is the lookup of the anchor row. */
  ghost predicate ChecksAreLookups(tuples: set<Tuple>, l: Loaded) {
    forall t: Tuple, a :: t.objectType in l.typeOwner ==>
      (Derivable(AnchorCheck(tuples, l, a), AnchorNode(t)) <==> Anchor(t.objectType, t.objectId, a) in tuples)
  }

  /** A link to an anchored object opens the check of its anchor, in every table. */
  lemma LinkOpens(tuples: set<Tuple>, l: Loaded, u: Tuple, a: string)
    requires AnchoredOwned(l) && u in tuples && IsLink(l, u) && Anchor(u.subjectType, u.subjectId, a) in tuples
    ensures Derivable(AnchorCheck(tuples, l, a), AnchorNode(u))
  {
    var env := AnchorCheck(tuples, l, a);
    var y := SubjectNode(u);
    var row := Anchor(u.subjectType, u.subjectId, a);
    DirectHolds(env, y);
    assert RowOn(row, y, y.rel) && NamesSubject(env, row);
    DirectHolds(env, AnchorNode(u));
    assert RowOn(u, AnchorNode(u), "company_module") && Expands(env, u);
  }

  lemma {:induction false} LinksLeadNowhere(tuples: set<Tuple>, l: Loaded, x: Node, a: string, n: nat)
    requires AnchoredOwned(l) && LinksOnly(tuples, l) && LinksAgree(tuples, l)
    requires x.objType in l.typeOwner && x.rel == "company_module" && Holds(AnchorCheck(tuples, l, a), {}, x, n)
    ensures Anchor(x.objType, x.objId, a) in tuples
    decreases n
  {
    var env := AnchorCheck(tuples, l, a);
    assert Definition(env, x) == This;
    assert HoldsExpr(env, {}, x, This, n - 1);
    var u :| u in tuples && RowOn(u, x, x.rel) &&
      (NamesSubject(env, u) || (Expands(env, u) && Holds(env, {}, SubjectNode(u), n - 1)));
    if NamesSubject(env, u) {
      assert u == Anchor(x.objType, x.objId, a);
    } else {
      assert IsLink(l, u);
      LinksLeadNowhere(tuples, l, SubjectNode(u), a, n - 1);
    }
  }

  /** With links, anchor checks are lookups exactly when linked objects carry the same anchors. */
  lemma LookupsIff(tuples: set<Tuple>, l: Loaded)
    requires AnchoredOwned(l) && LinksOnly(tuples, l)
    ensures ChecksAreLookups(tuples, l) <==> LinksAgree(tuples, l)
  {
    if ChecksAreLookups(tuples, l) {
      forall u, a | u in tuples && IsLink(l, u) && Anchor(u.subjectType, u.subjectId, a) in tuples
        ensures Anchor(u.objectType, u.objectId, a) in tuples
      {
        LinkOpens(tuples, l, u, a);
      }
    } else if LinksAgree(tuples, l) {
      LookupsWhenAgreed(tuples, l);
    }
  }

  lemma LookupsWhenAgreed(tuples: set<Tuple>, l: Loaded)
    requires AnchoredOwned(l) && LinksOnly(tuples, l) && LinksAgree(tuples, l)
    ensures ChecksAreLookups(tuples, l)
  {
    forall t: Tuple, a | t.objectType in l.typeOwner
      ensures Derivable(AnchorCheck(tuples, l, a), AnchorNode(t)) <==> Anchor(t.objectType, t.objectId, a) in tuples
    {
      var env, x := AnchorCheck(tuples, l, a), AnchorNode(t);
      if Derivable(env, x) {
        var n :| Holds(env, {}, x, n);
        LinksLeadNowhere(tuples, l, x, a, n);
      }
      var row := Anchor(t.objectType, t.objectId, a);
      if row in tuples {
        DirectHolds(env, x);
        assert RowOn(row, x, x.rel) && NamesSubject(env, row);
      }
    }
  }

  // ---- the binding law --------------------------------------------------------------------------------------------

  /** The write of an admitted request names no object that is anchored elsewhere. */
  lemma NamesNoForeignObject(tuples: set<Tuple>, l: Loaded, caller: Caller, req: Request, m: string, t: Tuple,
      a: string)
    requires Admitted(tuples, l, caller, req, m) && t in req.tuples && t.objectType != "company_module"
    requires AnchoredOwned(l) && NoLinks(tuples) && OneAnchor(tuples) && NoCollision(req, AnchorId(req.company, m))
    requires WriteAll(tuples, req.op, req.tuples).Some? && Anchor(t.objectType, t.objectId, a) in tuples
    ensures a == AnchorId(req.company, m)
  {
    hide SubjectInCompany, WriteAll, NoLinks;
    var anchor := AnchorId(req.company, m);
    var row := Anchor(t.objectType, t.objectId, a);
    assert AnchorRow(row) && OnObject(row, t.objectType, t.objectId);
    assert TupleAdmitted(tuples, l, caller, req, m, t) && ModuleOf(l, req.company, t) == Some(m);
    if Key(t) in InRequestAnchors(req, anchor) {
      var u :| u in req.tuples && AnchorsHere(req, anchor, u) && Key(u) == Key(t);
      assert u == Anchor(t.objectType, t.objectId, anchor);
      GrantAdds(tuples, req.tuples);
      WritesKeepOneAnchor(tuples, Grant, req.tuples);
      assert AnchorRow(u) && SameObject(u, row);
    } else if Derivable(AnchorCheck(tuples, l, anchor), AnchorNode(t)) {
      CheckIsLookup(tuples, l, anchor, t);
      assert AnchorRow(Anchor(t.objectType, t.objectId, anchor));
    }
  }

  /** Whatever the key of an anchored object vouches for has the anchor itself, in the table or in the request. */
  ghost predicate KeysVouch(tuples: set<Tuple>, req: Request, anchor: string) {
    forall t :: t in req.tuples && t.objectType != "company_module" && Key(t) in InRequestAnchors(req, anchor) ==>
      var row := Anchor(t.objectType, t.objectId, anchor);
      row in tuples || row in req.tuples
  }

  ghost predicate Bound(tuples: set<Tuple>, t: Tuple, anchor: string) {
    Anchor(t.objectType, t.objectId, anchor) in tuples && NoOtherAnchor(tuples, t.objectType, t.objectId, anchor)
  }

  lemma NoCollisionVouches(tuples: set<Tuple>, req: Request, anchor: string)
    requires NoCollision(req, anchor)
    ensures KeysVouch(tuples, req, anchor)
  {
    forall t | t in req.tuples && t.objectType != "company_module" && Key(t) in InRequestAnchors(req, anchor)
      ensures Anchor(t.objectType, t.objectId, anchor) in req.tuples
    {
      var u :| u in req.tuples && AnchorsHere(req, anchor, u) && Key(u) == Key(t);
      assert u == Anchor(t.objectType, t.objectId, anchor);
    }
  }

  /** In a table without links an admitted grant binds every module object it names to exactly the request's company
      and module, if and only if its keys vouch for anchored objects only; without a collision they do. */
  lemma GrantBindsIff(tuples: set<Tuple>, l: Loaded, caller: Caller, req: Request, m: string)
    requires Admitted(tuples, l, caller, req, m) && req.op == Grant
    requires AnchoredOwned(l) && NoLinks(tuples) && OneAnchor(tuples) && WriteAll(tuples, Grant, req.tuples).Some?
    ensures
      var after := WriteAll(tuples, Grant, req.tuples).value;
      var anchor := AnchorId(req.company, m);
      (forall t :: t in req.tuples && t.objectType != "company_module" ==> Bound(after, t, anchor))
      <==> KeysVouch(tuples, req, anchor)
  {
    hide Admitted, NoLinks, AnchoredOwned, WriteAll, InRequestAnchors;
    var after := WriteAll(tuples, Grant, req.tuples).value;
    var anchor := AnchorId(req.company, m);
    GrantAdds(tuples, req.tuples);
    if KeysVouch(tuples, req, anchor) {
      WritesKeepOneAnchor(tuples, Grant, req.tuples);
      forall t | t in req.tuples && t.objectType != "company_module"
        ensures Bound(after, t, anchor)
      {
        VouchedIsAnchored(tuples, l, caller, req, m, t);
        OnlyAnchor(after, t, anchor);
      }
    }
  }

  lemma OnlyAnchor(tuples: set<Tuple>, t: Tuple, anchor: string)
    requires OneAnchor(tuples) && Anchor(t.objectType, t.objectId, anchor) in tuples
    ensures NoOtherAnchor(tuples, t.objectType, t.objectId, anchor)
  {
    assert AnchorRow(Anchor(t.objectType, t.objectId, anchor));
  }

  lemma VouchedIsAnchored(tuples: set<Tuple>, l: Loaded, caller: Caller, req: Request, m: string, t: Tuple)
    requires Admitted(tuples, l, caller, req, m) && req.op == Grant && t in req.tuples &&
      t.objectType != "company_module"
    requires AnchoredOwned(l) && NoLinks(tuples) && KeysVouch(tuples, req, AnchorId(req.company, m))
    ensures
      var row := Anchor(t.objectType, t.objectId, AnchorId(req.company, m));
      row in tuples || row in req.tuples
  {
    hide SubjectInCompany, NoLinks;
    var anchor := AnchorId(req.company, m);
    assert TupleAdmitted(tuples, l, caller, req, m, t) && ModuleOf(l, req.company, t) == Some(m);
    if Key(t) !in InRequestAnchors(req, anchor) { CheckIsLookup(tuples, l, anchor, t); }
  }

  /** A write leaves the table without links exactly when the request grants none. */
  lemma KeepsNoLinks(tuples: set<Tuple>, req: Request)
    requires NoLinks(tuples) && WriteAll(tuples, req.op, req.tuples).Some?
    ensures NoLinks(WriteAll(tuples, req.op, req.tuples).value) <==> GrantsNoLink(req)
  {
    if req.op == Grant {
      GrantAdds(tuples, req.tuples);
    } else {
      RevokeRemoves(tuples, req.tuples);
    }
  }

  /** Both conditions are needed, in every table. Past a link to an object anchored at the request's own company and
      module, the guard admits every other relation of the linked object. */
  lemma LinkAdmits(tuples: set<Tuple>, l: Loaded, caller: Caller, req: Request, m: string, t: Tuple, u: Tuple)
    requires AnchoredOwned(l) && u in tuples && IsLink(l, u) && SameObject(u, t) && t.relation != "company_module"
    requires t.objectType != "company_module"
    requires Anchor(u.subjectType, u.subjectId, AnchorId(req.company, m)) in tuples
    ensures TupleAdmitted(tuples, l, caller, req, m, t)
  {
    LinkOpens(tuples, l, u, AnchorId(req.company, m));
    assert AnchorNode(u) == AnchorNode(t);
  }

  /** And beside an anchor whose key collides, the guard admits every tuple, whatever its object is anchored to. */
  lemma CollisionAdmits(tuples: set<Tuple>, l: Loaded, caller: Caller, req: Request, m: string, t: Tuple, u: Tuple)
    requires t in req.tuples && u in req.tuples && AnchorsHere(req, AnchorId(req.company, m), u) && Key(t) == Key(u)
    requires t.objectType != "company_module"
    ensures TupleAdmitted(tuples, l, caller, req, m, t)
  {
    assert Key(u) in InRequestAnchors(req, AnchorId(req.company, m));
  }

  // ---- runs of requests ---------------------------------------------------------------------------------------

  /** One request as it met the service: the model in effect, the bearer, and the table it left. */
  datatype Served = Served(loaded: Loaded, caller: Caller, req: Request, after: set<Tuple>)

  ghost predicate IsRun(tuples: set<Tuple>, run: seq<Served>)
    decreases |run|
  {
    run == [] || (Effect(tuples, run[0].loaded, run[0].caller, run[0].req, run[0].after) &&
      IsRun(run[0].after, run[1..]))
  }

  function Final(tuples: set<Tuple>, run: seq<Served>): set<Tuple> {
    if run == [] then tuples else run[|run| - 1].after
  }

  /** The request resolves to the company and module `a`. */
  ghost predicate SpeaksFor(r: Served, a: string) {
    exists m :: (forall t :: t in r.req.tuples ==> ModuleOf(r.loaded, r.req.company, t) == Some(m)) &&
      AnchorId(r.req.company, m) == a
  }

  lemma EffectKeepsAnchors(tuples: set<Tuple>, r: Served)
    requires Effect(tuples, r.loaded, r.caller, r.req, r.after) && OneAnchor(tuples)
    ensures OneAnchor(r.after)
    ensures NoLinks(tuples) && GrantsNoLink(r.req) ==> NoLinks(r.after)
  {
    hide Admitted, NoLinks, GrantsNoLink, OneAnchor;
    if r.after != tuples {
      WritesKeepOneAnchor(tuples, r.req.op, r.req.tuples);
      if NoLinks(tuples) { KeepsNoLinks(tuples, r.req); }
    }
  }

  /** No collision with an anchor of the request, whatever module it resolves to. */
  ghost predicate CollisionFree(req: Request) {
    forall m :: NoCollision(req, AnchorId(req.company, m))
  }

  lemma EffectKeepsForeign(tuples: set<Tuple>, r: Served, objectType: string, objectId: string, a: string)
    requires Effect(tuples, r.loaded, r.caller, r.req, r.after)
    requires AnchoredOwned(r.loaded) && NoLinks(tuples) && OneAnchor(tuples) && CollisionFree(r.req) && !SpeaksFor(r, a)
    requires objectType != "company" && objectType != "company_module" && Anchor(objectType, objectId, a) in tuples
    ensures SameOn(tuples, r.after, objectType, objectId)
  {
    if r.after != tuples {
      forall t | t in r.req.tuples
        ensures !OnObject(t, objectType, objectId)
      {
        if m :| Admitted(tuples, r.loaded, r.caller, r.req, m) {
          if OnObject(t, objectType, objectId) {
            NamesNoForeignObject(tuples, r.loaded, r.caller, r.req, m, t, a);
          }
        }
      }
      UnnamedUntouched(tuples, r.req.op, r.req.tuples, objectType, objectId);
    }
  }

  /** Isolation: a run of requests, none of which speaks for the company and module an object is anchored to, leaves
      every tuple on that object as it was. */
  lemma {:induction false} RunKeepsForeign(tuples: set<Tuple>, run: seq<Served>, objectType: string, objectId: string,
      a: string)
    requires IsRun(tuples, run) && NoLinks(tuples) && OneAnchor(tuples)
    requires forall r :: r in run ==>
      AnchoredOwned(r.loaded) && GrantsNoLink(r.req) && CollisionFree(r.req) && !SpeaksFor(r, a)
    requires objectType != "company" && objectType != "company_module" && Anchor(objectType, objectId, a) in tuples
    ensures SameOn(tuples, Final(tuples, run), objectType, objectId)
    decreases |run|
  {
    if run != [] {
      var r := run[0];
      assert r in run;
      EffectKeepsForeign(tuples, r, objectType, objectId, a);
      EffectKeepsAnchors(tuples, r);
      assert OnObject(Anchor(objectType, objectId, a), objectType, objectId);
      RunKeepsForeign(r.after, run[1..], objectType, objectId, a);
      assert Final(tuples, run) == Final(r.after, run[1..]);
    }
  }

  /** Every run keeps one anchor per object, whatever the requests are. */
  lemma {:induction false} RunKeepsOneAnchor(tuples: set<Tuple>, run: seq<Served>)
    requires IsRun(tuples, run) && OneAnchor(tuples)
    ensures OneAnchor(Final(tuples, run))
    decreases |run|
  {
    if run != [] {
      EffectKeepsAnchors(tuples, run[0]);
      RunKeepsOneAnchor(run[0].after, run[1..]);
    }
  }

  /** The route never touches an object of a type no module owns, company administrators and company modules aside. */
  lemma UnownedTypesUntouched(tuples: set<Tuple>, r: Served, objectType: string, objectId: string)
    requires Effect(tuples, r.loaded, r.caller, r.req, r.after)
    requires objectType !in r.loaded.typeOwner && objectType != "company" && objectType != "company_module"
    ensures SameOn(tuples, r.after, objectType, objectId)
  {
    if r.after != tuples {
      forall t | t in r.req.tuples
        ensures !OnObject(t, objectType, objectId)
      {
        if m :| Admitted(tuples, r.loaded, r.caller, r.req, m) {
          assert ModuleOf(r.loaded, r.req.company, t) == Some(m);
        }
      }
      UnnamedUntouched(tuples, r.req.op, r.req.tuples, objectType, objectId);
    }
  }
}
