/** The handler of the grants route, with its loops and early answers. */
module GrantsRoute {
  import opened Options
  import opened AuthzTuple
  import opened AuthzEngine
  import opened Fragments
  import opened Grants
  import opened GrantsLaws

  datatype Reply = Written(tuples: set<Tuple>) | BadRequest | ValidationFailed | Denied | Unavailable

  /** Rule 1: one module for all tuples. */
  method ResolveModule(l: Loaded, req: Request) returns (m: Option<string>)
    requires req.tuples != []
    ensures m.Some? ==> forall t :: t in req.tuples ==> ModuleOf(l, req.company, t) == m
    ensures m.None? ==> forall k :: exists t :: t in req.tuples && ModuleOf(l, req.company, t) != Some(k)
  {
    m := None;
    for i := 0 to |req.tuples|
      invariant i > 0 <==> m.Some?
      invariant forall j :: 0 <= j < i ==> ModuleOf(l, req.company, req.tuples[j]) == m
    {
      var k := ModuleOf(l, req.company, req.tuples[i]);
      if k.None? {
        assert req.tuples[i] in req.tuples;
        return None;
      }
      if m.Some? && k != m {
        assert ModuleOf(l, req.company, req.tuples[0]) == m;
        assert req.tuples[0] in req.tuples && req.tuples[i] in req.tuples;
        return None;
      }
      m := k;
    }
  }

  /** The shape and the company of every subject of a grant. `inCompany` answers the relation checks of the company of a
      position or group. */
  method SubjectsAllowed(tuples: set<Tuple>, l: Loaded, req: Request, inCompany: Node -> Answer) returns (ok: bool,
      failed: bool)
    requires forall x :: inCompany(x).Ok? ==> inCompany(x).allowed == Derivable(CompanyCheck(tuples, l, req.company), x)
    ensures ok ==> forall t :: t in req.tuples ==> SubjectDefined(l, t) && SubjectInCompany(tuples, l, req.company, t)
    ensures !ok && !failed ==>
      exists t :: t in req.tuples && !(SubjectDefined(l, t) && SubjectInCompany(tuples, l, req.company, t))
    ensures failed ==> !ok && exists x :: !inCompany(x).Ok?
  {
    for i := 0 to |req.tuples|
      invariant forall j :: 0 <= j < i ==> SubjectDefined(l, req.tuples[j])
    {
      assert req.tuples[i] in req.tuples;
      if !SubjectDefined(l, req.tuples[i]) { return false, false; }
    }
    for i := 0 to |req.tuples|
      invariant forall j :: 0 <= j < i ==> SubjectInCompany(tuples, l, req.company, req.tuples[j])
    {
      var t := req.tuples[i];
      assert t in req.tuples;
      if t.subjectType == "position" || t.subjectType == "group" {
        var answer := inCompany(Node(t.subjectType, t.subjectId, "company"));
        if !answer.Ok? { return false, true; }
        if !answer.allowed { return false, false; }
      } else if !InCompany(tuples, req.company, t.subjectType, t.subjectId) {
        return false, false;
      }
    }
    return true, false;
  }

  /** The objects the request anchors at its own company and module. */
  method CollectAnchors(req: Request, anchor: string) returns (keys: set<string>)
    ensures keys == InRequestAnchors(req, anchor)
  {
    keys := {};
    for i := 0 to |req.tuples|
      invariant keys == set t | t in req.tuples[..i] && AnchorsHere(req, anchor, t) :: Key(t)
    {
      assert req.tuples[..i + 1] == req.tuples[..i] + [req.tuples[i]];
      if AnchorsHere(req, anchor, req.tuples[i]) { keys := keys + {Key(req.tuples[i])}; }
    }
    assert req.tuples[..|req.tuples|] == req.tuples;
  }

  /** The request's anchors against the table: no key is taken to name an object anchored elsewhere. */
  method AnchorsFree(tuples: set<Tuple>, req: Request, anchor: string, keys: set<string>) returns (ok: bool)
    requires keys == InRequestAnchors(req, anchor)
    ensures ok <==> forall t :: t in req.tuples && AnchorsHere(req, anchor, t) ==> KeyFree(tuples, Key(t), anchor)
  {
    var left := keys;
    while left != {}
      invariant left <= keys && forall key :: key in keys && key !in left ==> KeyFree(tuples, key, anchor)
      decreases left
    {
      var key :| key in left;
      if !KeyFree(tuples, key, anchor) { return false; }
      left := left - {key};
    }
    return true;
  }

  /** Rules 2 and 4, tuple by tuple. `check` is the relation evaluator. */
  method TuplesAdmitted(tuples: set<Tuple>, l: Loaded, caller: Caller, req: Request, m: string, keys: set<string>,
                        check: Node -> Answer) returns (ok: bool, failed: bool)
    requires keys == InRequestAnchors(req, AnchorId(req.company, m))
    requires forall x :: check(x).Ok? ==>
      check(x).allowed == Derivable(AnchorCheck(tuples, l, AnchorId(req.company, m)), x)
    ensures ok ==> forall t :: t in req.tuples ==> TupleAdmitted(tuples, l, caller, req, m, t)
    ensures !ok && !failed ==> exists t :: t in req.tuples && !TupleAdmitted(tuples, l, caller, req, m, t)
    ensures failed ==> !ok && exists x :: !check(x).Ok?
  {
    var adminChecked := false;
    for i := 0 to |req.tuples|
      invariant adminChecked ==> caller.moduleAdmin
      invariant forall j :: 0 <= j < i ==> TupleAdmitted(tuples, l, caller, req, m, req.tuples[j])
    {
      var t := req.tuples[i];
      assert t in req.tuples;
      if t.objectType == "company_module" {
        if adminChecked { continue; }
        if !caller.moduleAdmin { return false, false; }
        adminChecked := true;
        continue;
      }
      var here := Key(t) in keys;
      if t.relation == "company_module" && !here && req.op == Grant { return false, false; }
      if here { continue; }
      var anchored := check(AnchorNode(t));
      if !anchored.Ok? { return false, true; }
      if !anchored.allowed {
        if req.op == Revoke && m in caller.owns && Unanchored(tuples, t.objectType, t.objectId) { continue; }
        return false, false;
      }
    }
    return true, false;
  }

  ghost predicate Writable(tuples: set<Tuple>, l: Loaded, caller: Caller, req: Request, companyOk: bool, m: string) {
    && companyOk && !IsCompanyAdminAppointment(req) && Admitted(tuples, l, caller, req, m)
    && WriteAll(tuples, req.op, req.tuples).Some?
  }

  /** The route. `companyOk` is whether the company id parses; `inCompany` and `check` answer the relation checks of
      subjects and, for the module the request resolves to, of anchors. A written reply is the write of an admitted
      request or of an appointment by a superadmin, and a request that is admitted and that the table accepts is written
      unless a check fails. An appointment of company administrators is denied exactly to those who are no
      superadmin. */
  method HandleGrants(tuples: set<Tuple>, l: Loaded, caller: Caller, req: Request, companyOk: bool,
                      inCompany: Node -> Answer, check: (string, Node) -> Answer) returns (reply: Reply)
    requires forall x :: inCompany(x).Ok? ==> inCompany(x).allowed == Derivable(CompanyCheck(tuples, l, req.company), x)
    requires forall m, x :: check(m, x).Ok? ==>
      check(m, x).allowed == Derivable(AnchorCheck(tuples, l, AnchorId(req.company, m)), x)
    ensures reply.BadRequest? <==> req.tuples == [] || !companyOk
    ensures reply.Written? ==>
      && WriteAll(tuples, req.op, req.tuples) == Some(reply.tuples) && Effect(tuples, l, caller, req, reply.tuples)
      && (NamesAdmins(req.company, req.tuples) || exists m :: Admitted(tuples, l, caller, req, m))
    ensures companyOk && req.tuples != [] && req.company != "" && NamesAdmins(req.company, req.tuples) ==>
      reply == if caller.superadmin then Written(Appointed(tuples, req.op, req.tuples)) else Denied
    ensures
      (exists m :: Writable(tuples, l, caller, req, companyOk, m) && forall x ::
        check(m, x).Ok? && inCompany(x).Ok?) ==>
        reply.Written?
  {
    if req.tuples == [] { return BadRequest; }
    if !companyOk { return BadRequest; }
    if IsCompanyAdminAppointment(req) {
      if !caller.superadmin { return Denied; }
      reply := Write(tuples, req);
      if req.company != "" { AdminsWritten(tuples, req.op, req.company, req.tuples); }
      return;
    }
    var resolved := ResolveModule(l, req);
    if resolved.None? { return ValidationFailed; }
    var m := resolved.value;
    assert forall k :: Admitted(tuples, l, caller, req, k) ==> k == m by {
      assert req.tuples[0] in req.tuples;
    }
    if req.op == Grant {
      var subjects, failed := SubjectsAllowed(tuples, l, req, inCompany);
      if failed { return Unavailable; }
      if !subjects { return ValidationFailed; }
    }
    if m in caller.owns {
      if !(m in l.known && l.known[m]) { return Denied; }
    } else if m !in caller.passes {
      return Denied;
    }
    var anchor := AnchorId(req.company, m);
    var keys := CollectAnchors(req, anchor);
    var free := AnchorsFree(tuples, req, anchor, keys);
    if !free { return ValidationFailed; }
    var ok, failed := TuplesAdmitted(tuples, l, caller, req, m, keys, x => check(m, x));
    if failed {
      ghost var x :| !check(m, x).Ok?;
      return Unavailable;
    }
    if !ok { return ValidationFailed; }
    assert Admitted(tuples, l, caller, req, m);
    reply := Write(tuples, req);
  }

  method Write(tuples: set<Tuple>, req: Request) returns (reply: Reply)
    requires req.tuples != []
    ensures reply ==
      if WriteAll(tuples, req.op, req.tuples).Some? then Written(WriteAll(tuples, req.op, req.tuples).value)
                     else ValidationFailed
  {
    var after := WriteTuples(tuples, req.op, req.tuples);
    if after.None? { return ValidationFailed; }
    reply := Written(after.value);
  }
}
