/** The bootstrap step that gives every position and group its missing company anchor. */
module OrgBackfill {
  import opened AuthzTuple
  import opened OrgTree
  import opened Org
  import opened OrgTuples
  import opened OrgGroups
  import opened OrgRuns

  datatype OrgObject = OrgObject(objType: string, id: Id, company: Id)

  function AnchorOf(o: OrgObject): Tuple {
    Tuple(o.objType, o.id, "company", "company", o.company, "")
  }

  function AnchorsOf(objs: seq<OrgObject>): set<Tuple> {
    set o | o in objs :: AnchorOf(o)
  }

  lemma NoAnchors()
    ensures AnchorsOf([]) == {}
  {
  }

  lemma AnchorsSnoc(objs: seq<OrgObject>, o: OrgObject)
    ensures AnchorsOf(objs + [o]) == AnchorsOf(objs) + {AnchorOf(o)}
  {
    hide AnchorOf;
    assert forall x :: x in objs + [o] <==> x in objs || x == o;
  }

  /** One object's transaction: the pre-check makes the write exactly once. */
  method GrantOnce(tuples: set<Tuple>, t: Tuple) returns (after: set<Tuple>, wrote: bool)
    ensures after == tuples + {t} && (wrote <==> t !in tuples)
    ensures |after| == |tuples| + if wrote then 1 else 0
    ensures !wrote ==> after == tuples
  {
    if t in tuples {
      return tuples, false;
    }
    return tuples + {t}, true;
  }

  /** The backfill over the listed objects: exactly the missing anchors are written, and the count of writes is
      reported. Running it again therefore writes nothing and reports zero. */
  method Backfill(tuples: set<Tuple>, objs: seq<OrgObject>) returns (after: set<Tuple>, applied: nat)
    ensures after == tuples + AnchorsOf(objs)
    ensures |after| == |tuples| + applied
    ensures applied == 0 <==> after == tuples
  {
    after, applied := tuples, 0;
    hide AnchorOf, AnchorsOf;
    NoAnchors();
    for i := 0 to |objs|
      invariant after == tuples + AnchorsOf(objs[..i])
      invariant |after| == |tuples| + applied
      invariant applied == 0 ==> after == tuples
    {
      assert objs[..i + 1] == objs[..i] + [objs[i]];
      AnchorsSnoc(objs[..i], objs[i]);
      var wrote;
      after, wrote := GrantOnce(after, AnchorOf(objs[i]));
      if wrote {
        applied := applied + 1;
      }
    }
    assert objs[..|objs|] == objs;
  }

  /** The listing the backfill reads: every position and every group, with its company. */
  ghost predicate Lists(s: State, objs: seq<OrgObject>) {
    && (forall o :: o in objs ==>
          || (o.objType == "position" && o.id in s.positions && s.positions[o.id].company == o.company)
          || (o.objType == "group" && o.id in s.groups && s.groups[o.id].company == o.company))
    && (forall p {:trigger s.positions[p]} :: p in s.positions ==>
      OrgObject("position", p, s.positions[p].company) in objs)
    && (forall g {:trigger s.groups[g]} :: g in s.groups ==> OrgObject("group", g, s.groups[g].company) in objs)
  }

  lemma ListedAnchors(s: State, objs: seq<OrgObject>, t: Tuple)
    requires Lists(s, objs) && t in AnchorsOf(objs)
    ensures
      || (t.objectId in s.positions && t == PositionAnchor(t.objectId, s.positions[t.objectId].company))
      || (t.objectId in s.groups && t == GroupAnchor(t.objectId, s.groups[t.objectId].company))
  {
    var o :| o in objs && t == AnchorOf(o);
  }

  lemma BackfillAnchors(s: State, objs: seq<OrgObject>)
    requires AnchorInv(s) && Lists(s, objs)
    ensures AnchorsExact(s.(tuples := s.tuples + AnchorsOf(objs)))
  {
    var filled := s.(tuples := s.tuples + AnchorsOf(objs));
    forall t | t in AnchorsOf(objs)
      ensures On(t, "position", "company") ==>
        t.objectId in s.positions && t == PositionAnchor(t.objectId, s.positions[t.objectId].company)
      ensures On(t, "group", "company") ==>
        t.objectId in s.groups && t == GroupAnchor(t.objectId, s.groups[t.objectId].company)
    {
      ListedAnchors(s, objs, t);
    }
    forall p | p in s.positions
      ensures PositionAnchor(p, s.positions[p].company) in filled.tuples
    {
      assert AnchorOf(OrgObject("position", p, s.positions[p].company)) in AnchorsOf(objs);
    }
  }

  /** After any run, create-and-assign included, a backfill leaves every position and group with exactly its anchor,
      and disturbs none of the other relations the store keeps. */
  lemma BackfillConverges(s: State, ops: seq<Op>, objs: seq<OrgObject>)
    requires Inv(s) && Lists(Run(s, ops), objs)
    ensures
      var end := Run(s, ops);
      var filled := end.(tuples := end.tuples + AnchorsOf(objs));
      && AnchorsExact(filled)
      && forall t :: t in filled.tuples && t !in end.tuples ==>
        On(t, "position", "company") || On(t, "group", "company")
  {
    RunKeepsInv(s, ops);
    BackfillAnchors(Run(s, ops), objs);
    forall t | t in AnchorsOf(objs)
      ensures On(t, "position", "company") || On(t, "group", "company")
    {
      ListedAnchors(Run(s, ops), objs, t);
    }
  }
}
