/** What the grants route admits and writes, said over the rows of the table and the tuples of the request. */
module GrantsLaws {
  import opened Options
  import opened AuthzTuple
  import opened AuthzEngine
  import opened Fragments
  import opened Grants

  // ---- what a write does -------------------------------------------------------------------------------------

  /** Two anchor rows of one object. */
  predicate Clash(t: Tuple, u: Tuple) {
    && t.relation == "company_module" && t.subjectType == "company_module"
    && u.relation == "company_module" && u.subjectType == "company_module"
    && t.objectType == u.objectType && t.objectId == u.objectId && t != u
  }

  ghost predicate NoClash(tuples: set<Tuple>) {
    forall t, u :: t in tuples && u in tuples ==> !Clash(t, u)
  }

  predicate Filled(t: Tuple) {
    "" !in [t.objectType, t.objectId, t.relation, t.subjectType, t.subjectId]
  }

  ghost predicate AllFilled(ts: seq<Tuple>) {
    forall t :: t in ts ==> Filled(t)
  }

  function Named(ts: seq<Tuple>): set<Tuple> {
    set t | t in ts
  }

  lemma OneAnchorIff(tuples: set<Tuple>)
    ensures OneAnchor(tuples) <==> NoClash(tuples)
  {
    if OneAnchor(tuples) {
      forall t, u | t in tuples && u in tuples
        ensures !Clash(t, u)
      {
        assert AnchorRow(t) && AnchorRow(u) && SameObject(t, u) ==> t == u;
      }
    }
    if NoClash(tuples) {
      forall t, u | t in tuples && u in tuples && AnchorRow(t) && AnchorRow(u) && SameObject(t, u)
        ensures t == u
      {
        assert !Clash(t, u);
      }
    }
  }

  /** A grant is written exactly when no field is empty and no object would have two anchors afterwards. */
  lemma {:induction false} GrantWritten(tuples: set<Tuple>, ts: seq<Tuple>)
    requires NoClash(tuples)
    ensures WriteAll(tuples, Grant, ts).Some? <==> AllFilled(ts) && NoClash(tuples + Named(ts))
    ensures WriteAll(tuples, Grant, ts).Some? ==> WriteAll(tuples, Grant, ts).value == tuples + Named(ts)
    decreases |ts|
  {
    if ts == [] {
      assert tuples + Named(ts) == tuples;
    } else {
      var next := tuples + {ts[0]};
      assert tuples + Named(ts) == next + Named(ts[1..]) by { assert ts == [ts[0]] + ts[1..]; }
      GrantOneWritten(tuples, ts[0]);
      assert AllFilled(ts) <==> Filled(ts[0]) && AllFilled(ts[1..]) by { assert ts == [ts[0]] + ts[1..]; }
      if NoClash(next) { GrantWritten(next, ts[1..]); }
    }
  }

  lemma GrantOneWritten(tuples: set<Tuple>, t: Tuple)
    requires NoClash(tuples)
    ensures WriteOne(tuples, Grant, t) == if Filled(t) && NoClash(tuples + {t}) then Some(tuples + {t}) else None
  {
    if t in tuples {
      assert tuples + {t} == tuples;
    } else if u :| u in tuples && AnchorRow(u) && SameObject(u, t) && AnchorRow(t) {
      assert Clash(u, t);
    }
  }

  /** A revoke is written exactly when no field is empty. */
  lemma {:induction false} RevokeWritten(tuples: set<Tuple>, ts: seq<Tuple>)
    ensures WriteAll(tuples, Revoke, ts).Some? <==> AllFilled(ts)
    decreases |ts|
  {
    if ts != [] {
      assert AllFilled(ts) <==> Filled(ts[0]) && AllFilled(ts[1..]) by { assert ts == [ts[0]] + ts[1..]; }
      if Complete(ts[0]) { RevokeWritten(WriteOne(tuples, Revoke, ts[0]).value, ts[1..]); }
    }
  }

  // ---- appointments ------------------------------------------------------------------------------------------

  /** Each tuple makes a user an administrator of the company. */
  ghost predicate NamesAdmins(company: string, ts: seq<Tuple>) {
    forall t :: t in ts ==> t.subjectId != "" && t == Tuple("company", company, "admin", "user", t.subjectId, "")
  }

  function Appointed(tuples: set<Tuple>, op: Operation, ts: seq<Tuple>): set<Tuple> {
    if op == Grant then tuples + Named(ts) else tuples - Named(ts)
  }

  lemma {:induction false} AdminsWritten(tuples: set<Tuple>, op: Operation, company: string, ts: seq<Tuple>)
    requires company != "" && NamesAdmins(company, ts)
    ensures WriteAll(tuples, op, ts) == Some(Appointed(tuples, op, ts))
    decreases |ts|
  {
    if ts == [] {
      assert Appointed(tuples, op, ts) == tuples;
    } else {
      var t := ts[0];
      assert ts == [t] + ts[1..];
      AdminWritten(tuples, op, company, t);
      var next := WriteOne(tuples, op, t).value;
      AdminsWritten(next, op, company, ts[1..]);
      assert Named(ts) == {t} + Named(ts[1..]);
      assert Appointed(next, op, ts[1..]) == Appointed(tuples, op, ts);
    }
  }

  lemma AdminWritten(tuples: set<Tuple>, op: Operation, company: string, t: Tuple)
    requires company != "" && t.subjectId != "" && t == Tuple("company", company, "admin", "user", t.subjectId, "")
    ensures WriteOne(tuples, op, t) == Some(if op == Grant then tuples + {t} else tuples - {t})
  {
    assert |"admin"| == 5 && |"company_module"| == 14;
    assert Complete(t) && !AnchorRow(t);
    assert t in tuples ==> tuples + {t} == tuples;
  }

  // ---- what is admitted --------------------------------------------------------------------------------------

  /** The caller speaks for the module: its app owns it while it is enabled, or the decision steps pass. */
  predicate Authorised(l: Loaded, caller: Caller, m: string) {
    (m in caller.owns ==> m in l.known && l.known[m]) && (m !in caller.owns ==> m in caller.passes)
  }

  /** The row anchors the object at a company and module. */
  predicate Anchors(u: Tuple, objectType: string, objectId: string) {
    && u.relation == "company_module" && u.subjectType == "company_module"
    && u.objectType == objectType && u.objectId == objectId
  }

  /** The object's type and id, joined as the handler joins them. */
  function Joined(t: Tuple): string {
    t.objectType + ":" + t.objectId
  }

  /** The request anchors at the company and module an object that is joined alike. */
  ghost predicate Vouched(req: Request, anchor: string, t: Tuple) {
    && req.op == Grant
    && exists u :: u in req.tuples && u == Anchor(u.objectType, u.objectId, anchor) && Joined(u) == Joined(t)
  }

  ghost predicate NowhereAnchored(tuples: set<Tuple>, t: Tuple) {
    forall u :: u in tuples ==> !Anchors(u, t.objectType, t.objectId)
  }

  /** The module may write the object: the request anchors it, or it is anchored there, or the owner cleans up. */
  ghost predicate ObjectAllowed(tuples: set<Tuple>, caller: Caller, req: Request, m: string, t: Tuple) {
    var anchor := req.company + "/" + m;
    || Vouched(req, anchor, t)
    || ((req.op == Revoke || t.relation != "company_module") && Anchor(t.objectType, t.objectId, anchor) in tuples)
    || (req.op == Revoke && m in caller.owns && NowhereAnchored(tuples, t))
  }

  /** The tuple is about the module's own company-module object, or about an object of one of its types. */
  ghost predicate TupleAllowed(tuples: set<Tuple>, l: Loaded, caller: Caller, req: Request, m: string, t: Tuple) {
    if t.objectType == "company_module" then t.objectId == req.company + "/" + m && m in l.known && caller.moduleAdmin
    else t.objectType in l.typeOwner && l.typeOwner[t.objectType] == m != "" && ObjectAllowed(tuples, caller, req, m, t)
  }

  /** A granted subject is defined, and a position, group or member of the request's company. */
  ghost predicate SubjectAllowed(tuples: set<Tuple>, l: Loaded, company: string, t: Tuple) {
    && (t.subjectRelation != "" ==> t.subjectType in l.model && t.subjectRelation in l.model[t.subjectType])
    && (t.subjectType == "member" ==>
          Tuple("company", company, "member", "member", t.subjectId, "mapped_user") in tuples)
    && (t.subjectType == "position" || t.subjectType == "group" ==>
          Derivable(Env(l.model, tuples, "company", company, ""), Node(t.subjectType, t.subjectId, "company")))
  }

  /** No row anchors elsewhere an object whose type has no colon and that is joined like t's. */
  ghost predicate AnchorFree(tuples: set<Tuple>, anchor: string, t: Tuple) {
    forall u :: u in tuples && Anchors(u, u.objectType, u.objectId) && ':' !in u.objectType && Joined(u) == Joined(t)
      ==> u.subjectId == anchor
  }

  /** The whole guard, in a table without links, said over rows. */
  ghost predicate Allowed(tuples: set<Tuple>, l: Loaded, caller: Caller, req: Request, m: string) {
    var anchor := req.company + "/" + m;
    && req.tuples != [] && Authorised(l, caller, m)
    && (forall t :: t in req.tuples ==> TupleAllowed(tuples, l, caller, req, m, t))
    && (req.op == Grant ==>
          forall t :: t in req.tuples ==>
            SubjectAllowed(tuples, l, req.company, t)
            && (t == Anchor(t.objectType, t.objectId, anchor) ==> AnchorFree(tuples, anchor, t)))
  }

  lemma {:induction false} CutKey(objectType: string, objectId: string)
    requires ':' !in objectType
    ensures Cut(objectType + ":" + objectId) == (objectType, objectId)
  {
    var key := objectType + ":" + objectId;
    if objectType == "" {
      assert key[1..] == objectId;
    } else {
      assert key[1..] == objectType[1..] + ":" + objectId;
      CutKey(objectType[1..], objectId);
      assert key[0] == objectType[0] && key[0] != ':';
      assert [objectType[0]] + objectType[1..] == objectType;
    }
  }

  /** A key with a colon is cut at the first one. */
  lemma {:induction false} CutJoins(key: string)
    requires ':' in key
    ensures ':' !in Cut(key).0 && Cut(key).0 + ":" + Cut(key).1 == key
  {
    if key[0] != ':' {
      assert key == [key[0]] + key[1..];
      CutJoins(key[1..]);
    }
  }

  lemma KeyFreeIff(tuples: set<Tuple>, anchor: string, t: Tuple)
    ensures KeyFree(tuples, Key(t), anchor) <==> AnchorFree(tuples, anchor, t)
  {
    assert Key(t)[|t.objectType|] == ':';
    CutJoins(Key(t));
    var (typ, id) := Cut(Key(t));
    forall u | u in tuples && Anchors(u, u.objectType, u.objectId)
      ensures OnObject(u, typ, id) <==> ':' !in u.objectType && Joined(u) == Joined(t)
    {
      if ':' !in u.objectType { CutKey(u.objectType, u.objectId); }
    }
  }

  lemma ModuleIs(l: Loaded, company: string, t: Tuple, m: string)
    ensures ModuleOf(l, company, t) == Some(m) <==>
      if t.objectType == "company_module" then t.objectId == company + "/" + m && m in l.known
      else t.objectType in l.typeOwner && l.typeOwner[t.objectType] == m != ""
  {
    if t.objectType == "company_module" {
      var prefix := company + "/";
      if StartsWith(t.objectId, prefix) { assert t.objectId == prefix + t.objectId[|prefix|..]; }
      if t.objectId == prefix + m { assert t.objectId[..|prefix|] == prefix && t.objectId[|prefix|..] == m; }
    }
  }

  lemma VouchedIff(req: Request, anchor: string, t: Tuple)
    ensures Key(t) in InRequestAnchors(req, anchor) <==> Vouched(req, anchor, t)
  {
    if Key(t) in InRequestAnchors(req, anchor) {
      var u :| u in req.tuples && AnchorsHere(req, anchor, u) && Key(u) == Key(t);
      assert u == Anchor(u.objectType, u.objectId, anchor) && Joined(u) == Joined(t);
    }
    if Vouched(req, anchor, t) {
      var u :| u in req.tuples && u == Anchor(u.objectType, u.objectId, anchor) && Joined(u) == Joined(t);
      assert AnchorsHere(req, anchor, u) && Key(u) == Key(t);
    }
  }

  lemma TupleAllowedIff(tuples: set<Tuple>, l: Loaded, caller: Caller, req: Request, m: string, t: Tuple)
    requires NoLinks(tuples) && AnchoredOwned(l)
    ensures ModuleOf(l, req.company, t) == Some(m) && TupleAdmitted(tuples, l, caller, req, m, t)
      <==> TupleAllowed(tuples, l, caller, req, m, t)
  {
    hide Vouched, NoLinks, InRequestAnchors, Derivable;
    var anchor := AnchorId(req.company, m);
    ModuleIs(l, req.company, t, m);
    VouchedIff(req, anchor, t);
    if t.objectType in l.typeOwner { CheckIsLookup(tuples, l, anchor, t); }
    assert Unanchored(tuples, t.objectType, t.objectId) <==> NowhereAnchored(tuples, t);
  }

  /** In a table without links a request is admitted exactly when it is allowed. */
  lemma AdmittedIff(tuples: set<Tuple>, l: Loaded, caller: Caller, req: Request, m: string)
    requires NoLinks(tuples) && AnchoredOwned(l)
    ensures Admitted(tuples, l, caller, req, m) <==> Allowed(tuples, l, caller, req, m)
  {
    hide NoLinks, TupleAllowed, TupleAdmitted, ModuleOf, KeyFree, AnchorFree, Derivable;
    var anchor := AnchorId(req.company, m);
    forall t | t in req.tuples
      ensures ModuleOf(l, req.company, t) == Some(m) && TupleAdmitted(tuples, l, caller, req, m, t)
        <==> TupleAllowed(tuples, l, caller, req, m, t)
      ensures KeyFree(tuples, Key(t), anchor) <==> AnchorFree(tuples, anchor, t)
    {
      TupleAllowedIff(tuples, l, caller, req, m, t);
      KeyFreeIff(tuples, anchor, t);
    }
    forall t | t in req.tuples
      ensures SubjectDefined(l, t) && SubjectInCompany(tuples, l, req.company, t)
        <==> SubjectAllowed(tuples, l, req.company, t)
      ensures AnchorsHere(req, anchor, t) <==> req.op == Grant && t == Anchor(t.objectType, t.objectId, anchor)
    {
    }
  }
}
