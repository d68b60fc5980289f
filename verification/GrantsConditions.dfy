/**
 The two conditions of the binding law at real inputs: a table and a request for each, over a model a load yields, in
 which the guards admit a tuple on an object that is anchored to another company.
 */
module GrantsConditions {
  import opened Options
  import opened AuthzTuple
  import opened AuthzEngine
  import opened Fragments
  import opened Grants
  import opened GrantsLaws

  const RELATIONS := map["company_module" := This, "viewer" := This]
  const MEMBER := Caller(false, {"notes"}, {}, false)

  /** The fragment of module notes. A type name may hold a colon. */
  function NoteTypes(): Model {
    map["note" := RELATIONS, "note:old" := RELATIONS]
  }

  function NoteRows(): Rows {
    map["notes" := Fragment(NoteTypes(), true)]
  }

  /** What the load of base and fragment yields. */
  function Notes(base: Model): Loaded {
    Loaded(base + NoteTypes(), map["note" := "notes", "note:old" := "notes"], map["notes" := true])
  }

  ghost predicate Fits(base: Model) {
    TargetsDefined(base) && "note" !in base && "note:old" !in base
  }

  lemma NotesRegistered(base: Model)
    requires Fits(base)
    ensures Apply(base, map[], Upsert("notes", NoteTypes(), true)) == NoteRows()
  {
    var m := NoteTypes();
    assert m.Keys == {"note", "note:old"};
    assert SelfContained(m) && Anchored(m);
  }

  lemma NoteNames()
    ensures NoteTypes().Keys == {"note", "note:old"} && "note" != "note:old" && "note" != "company_module" &&
      "note:old" != "company_module"
    ensures forall t :: t in NoteTypes() ==> NoteTypes()[t] == RELATIONS
    ensures RELATIONS.Keys == {"company_module", "viewer"} && RELATIONS["company_module"] == This
  {
    assert |"note"| == 4 && |"note:old"| == 8 && |"company_module"| == 14 && |"viewer"| == 6;
  }

  lemma NotesOwned(base: Model)
    requires Fits(base)
    ensures
      var l := Notes(base);
      && OwnersDeclare(NoteRows(), map["notes" := true], {"notes"}, l)
      && DeclaredAreOwned(NoteRows(), map["notes" := true], {"notes"}, l)
  {
    hide NoteTypes, Fits, RELATIONS;
    NoteNames();
    assert Notes(base).typeOwner.Keys == {"note", "note:old"};
  }

  lemma NotesMerged(base: Model)
    requires Fits(base)
    ensures Merged(base, NoteRows(), map["notes" := true], {"notes"}, Notes(base)) && AnchoredOwned(Notes(base))
  {
    hide OwnersDeclare, DeclaredAreOwned, TargetsDefined, NoteTypes;
    NoteNames();
    NotesOwned(base);
    assert Notes(base).typeOwner.Keys == {"note", "note:old"};
  }

  lemma NoteModule(base: Model, company: string, t: Tuple)
    requires t.objectType == "note" || t.objectType == "note:old"
    ensures ModuleOf(Notes(base), company, t) == Some("notes") && t.objectType != "company_module"
  {
    hide NoteTypes;
    NoteNames();
    assert |"notes"| == 5;
  }

  lemma NotesTargets(base: Model)
    requires Fits(base)
    ensures TargetsResolve(base, NoteRows(), map["notes" := true])
  {
    var there := rel => InMerge(base, NoteRows(), map["notes" := true], rel);
    ModelTargetsGrow(base, rel => DefinesRelation(base, rel), there);
  }

  /** The model in effect is one the registry stores and a load yields. */
  lemma NotesEffective(base: Model)
    requires Fits(base)
    ensures Apply(base, map[], Upsert("notes", NoteTypes(), true)) == NoteRows()
    ensures IsEffective(base, NoteRows(), map["notes" := true], Notes(base))
  {
    hide Merged, TargetsResolve, TargetsDefined, AnchoredOwned, Apply, NoteTypes;
    NotesRegistered(base);
    NotesMerged(base);
    NotesTargets(base);
    assert NoteRows().Keys == {"notes"};
    MergeTargets(base, NoteRows(), map["notes" := true], Notes(base));
  }

  function NotesOf(company: string): (r: string)
    ensures r != ""
  {
    AnchorId(company, "notes")
  }

  lemma NotesOfDiffer(a: string, b: string)
    requires a != b
    ensures NotesOf(a) != NotesOf(b)
  {
    assert NotesOf(a)[..|a|] == a && NotesOf(b)[..|b|] == b;
  }

  // ---- links ---------------------------------------------------------------------------------------------------

  /** Note 1 belongs to company a, note 2 to company b. */
  function TwoNotes(a: string, b: string): set<Tuple> {
    {Anchor("note", "1", NotesOf(a)), Anchor("note", "2", NotesOf(b))}
  }

  function Link(): Tuple {
    Tuple("note", "1", "company_module", "note", "2", "company_module")
  }

  function LinkRequest(a: string): Request {
    Request(Grant, a, [Anchor("note", "1", NotesOf(a)), Link()])
  }

  function ViewerRequest(b: string): Request {
    Request(Grant, b, [Tuple("note", "1", "viewer", "user", "x", "")])
  }

  lemma LinkWritten(a: string, b: string)
    ensures OneAnchor(TwoNotes(a, b)) && NoLinks(TwoNotes(a, b)) && !GrantsNoLink(LinkRequest(a))
    ensures WriteAll(TwoNotes(a, b), Grant, LinkRequest(a).tuples) == Some(TwoNotes(a, b) + {Link()})
  {
    hide NotesOf;
    var notes, req := TwoNotes(a, b), LinkRequest(a);
    assert Link() in req.tuples;
    assert WriteOne(notes, Grant, req.tuples[0]) == Some(notes);
    assert req.tuples[1..] == [Link()] && [Link()][1..] == [];
    assert WriteOne(notes, Grant, Link()) == Some(notes + {Link()});
  }

  lemma LinkAdmitted(base: Model, a: string, b: string)
    requires Fits(base)
    ensures Admitted(TwoNotes(a, b), Notes(base), MEMBER, LinkRequest(a), "notes")
  {
    hide Derivable, TargetsDefined, ModuleOf, TupleAdmitted, KeyFree, AnchorId;
    var notes, req, l := TwoNotes(a, b), LinkRequest(a), Notes(base);
    var first, link := req.tuples[0], req.tuples[1];
    assert AnchorsHere(req, NotesOf(a), first) && Key(link) == Key(first);
    NoteNames();
    forall t | t in req.tuples
      ensures ModuleOf(l, a, t) == Some("notes") && TupleAdmitted(notes, l, MEMBER, req, "notes", t)
      ensures Key(t) == Key(first) && SubjectDefined(l, t) && SubjectInCompany(notes, l, a, t)
    {
      NoteModule(base, a, t);
      CollisionAdmits(notes, l, MEMBER, req, "notes", t, first);
    }
    NoteKeyFree(a, b);
  }

  lemma NoteKeyFree(a: string, b: string)
    ensures KeyFree(TwoNotes(a, b), "note" + ":" + "1", NotesOf(a))
  {
    hide NotesOf;
    CutKey("note", "1");
  }

  lemma ViewerAdmitted(base: Model, a: string, b: string)
    requires Fits(base)
    ensures Admitted(TwoNotes(a, b) + {Link()}, Notes(base), MEMBER, ViewerRequest(b), "notes")
  {
    hide Derivable, TargetsDefined, ModuleOf, TupleAdmitted, KeyFree, AnchoredOwned, AnchorId;
    var tuples, req, l := TwoNotes(a, b) + {Link()}, ViewerRequest(b), Notes(base);
    var t := req.tuples[0];
    NotesMerged(base);
    NoteModule(base, b, t);
    assert IsLink(l, Link());
    LinkAdmits(tuples, l, MEMBER, req, "notes", t, Link());
    assert forall u :: u in req.tuples ==> u == t;
  }

  /** For any two companies: once a link is written, a request for one is admitted on a note that is anchored to the
      other. */
  lemma LinkBreaksBinding(base: Model, a: string, b: string)
    requires Fits(base) && a != b
    ensures IsEffective(base, NoteRows(), map["notes" := true], Notes(base)) && NotesOf(a) != NotesOf(b)
    ensures Admitted(TwoNotes(a, b), Notes(base), MEMBER, LinkRequest(a), "notes")
    ensures
      var after := WriteAll(TwoNotes(a, b), Grant, LinkRequest(a).tuples);
      && after.Some? && Anchor("note", "1", NotesOf(a)) in after.value
      && Admitted(after.value, Notes(base), MEMBER, ViewerRequest(b), "notes")
  {
    hide Fits, Admitted, IsEffective, WriteAll, Notes, NotesOf;
    NotesEffective(base);
    NotesOfDiffer(a, b);
    LinkAdmitted(base, a, b);
    LinkWritten(a, b);
    ViewerAdmitted(base, a, b);
  }

  // ---- collisions ----------------------------------------------------------------------------------------------

  /** An old note of company b. */
  function OldNote(b: string): set<Tuple> {
    {Anchor("note:old", "1", NotesOf(b))}
  }

  /** A new note of company a whose id spells the old note's, and a viewer of the old note. */
  function CollidingRequest(a: string): Request {
    Request(Grant, a, [Anchor("note", "old:1", NotesOf(a)), Tuple("note:old", "1", "viewer", "user", "x", "")])
  }

  lemma CollisionWritten(a: string, b: string)
    ensures OneAnchor(OldNote(b)) && NoLinks(OldNote(b)) && GrantsNoLink(CollidingRequest(a))
    ensures WriteAll(OldNote(b), Grant, CollidingRequest(a).tuples).Some?
  {
    hide NotesOf;
    var table, req := OldNote(b), CollidingRequest(a);
    var next := table + {req.tuples[0]};
    assert WriteOne(table, Grant, req.tuples[0]) == Some(next);
    assert req.tuples[1..] == [req.tuples[1]] && [req.tuples[1]][1..] == [];
    assert WriteOne(next, Grant, req.tuples[1]) == Some(next + {req.tuples[1]});
    assert WriteAll(next, Grant, [req.tuples[1]]).Some?;
  }

  lemma CollisionAdmitted(base: Model, a: string, b: string)
    requires Fits(base)
    ensures Admitted(OldNote(b), Notes(base), MEMBER, CollidingRequest(a), "notes")
    ensures !NoCollision(CollidingRequest(a), NotesOf(a))
  {
    hide Derivable, TargetsDefined, ModuleOf, TupleAdmitted, KeyFree, AnchorId;
    var table, req, l := OldNote(b), CollidingRequest(a), Notes(base);
    var anchor, viewer := req.tuples[0], req.tuples[1];
    assert AnchorsHere(req, NotesOf(a), anchor);
    assert Key(anchor) == "note:old:1" == Key(viewer);
    NoteNames();
    assert anchor in req.tuples && viewer in req.tuples && !SameObject(viewer, anchor);
    forall t | t in req.tuples
      ensures ModuleOf(l, a, t) == Some("notes") && TupleAdmitted(table, l, MEMBER, req, "notes", t)
      ensures Key(t) == Key(anchor) && SubjectDefined(l, t) && SubjectInCompany(table, l, a, t)
    {
      NoteModule(base, a, t);
      CollisionAdmits(table, l, MEMBER, req, "notes", t, anchor);
    }
    OldKeyFree(a, b);
  }

  /** The key of both objects is taken to name the new note. */
  lemma OldKeyFree(a: string, b: string)
    ensures KeyFree(OldNote(b), "note:old:1", NotesOf(a))
  {
    hide NotesOf;
    CutKey("note", "old:1");
    NoteNames();
    assert "note" + ":" + "old:1" == "note:old:1";
  }

  /** For any two companies: a request for one is admitted on a note that is anchored to the other, in a table without
      links. */
  lemma CollisionBreaksBinding(base: Model, a: string, b: string)
    requires Fits(base) && a != b
    ensures IsEffective(base, NoteRows(), map["notes" := true], Notes(base)) && NotesOf(a) != NotesOf(b)
    ensures OneAnchor(OldNote(b)) && NoLinks(OldNote(b)) && GrantsNoLink(CollidingRequest(a))
    ensures WriteAll(OldNote(b), Grant, CollidingRequest(a).tuples).Some?
    ensures Admitted(OldNote(b), Notes(base), MEMBER, CollidingRequest(a), "notes")
    ensures Anchor("note:old", "1", NotesOf(b)) in OldNote(b) && !NoCollision(CollidingRequest(a), NotesOf(a))
  {
    hide Fits, Admitted, IsEffective, WriteAll, Notes, NoCollision, OneAnchor, NoLinks, GrantsNoLink, NotesOf;
    NotesEffective(base);
    NotesOfDiffer(a, b);
    CollisionWritten(a, b);
    CollisionAdmitted(base, a, b);
  }
}
