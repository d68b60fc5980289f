/** Runs from an empty store that reach each of the cases in which rows and tuples, or holder and handover, part. */
module OrgExamples {
  import opened Options
  import opened OrgTree
  import opened Org
  import opened OrgAssignments
  import opened OrgTuples
  import opened OrgGroups
  import opened OrgRuns

  lemma {:induction false} RunSplits(s: State, a: seq<Op>, b: seq<Op>)
    ensures Run(s, a + b) == Run(Run(s, a), b)
    decreases |a|
  {
    if a == [] {
      assert a + b == b;
    } else {
      assert (a + b)[1..] == a[1..] + b;
      RunSplits(Next(s, a[0]), a[1..], b);
    }
  }

  lemma RunThen(s: State, ops: seq<Op>, op: Op)
    ensures Run(s, ops + [op]) == Next(Run(s, ops), op)
  {
    RunSplits(s, ops, [op]);
    assert [op][1..] == [];
    var t := Run(s, ops);
    assert Run(t, [op]) == Run(Next(t, op), []);
  }

  // ---- one company, one member -------------------------------------------------------------------------------

  function Hire(): seq<Op> {
    [OpCreateOrgUnit("c", true, None)] + [OpCreateMember("m", "c", true)]
  }

  ghost function Hired(s: State): State {
    s.(units := map["c" := OrgUnit(true, None)], members := map["m" := Member("c", true, None)],
       tuples := s.tuples + {CompanyMemberTuple("c", "m")})
  }

  lemma HireRuns(s: State)
    requires Empty(s)
    ensures Run(s, Hire()) == Hired(s)
  {
    var founded := s.(units := map["c" := OrgUnit(true, None)]);
    RunThen(s, [], OpCreateOrgUnit("c", true, None));
    assert [] + [OpCreateOrgUnit("c", true, None)] == [OpCreateOrgUnit("c", true, None)];
    assert CreateOrgUnit(s, "c", true, None) == Committed(founded);
    RunThen(s, [OpCreateOrgUnit("c", true, None)], OpCreateMember("m", "c", true));
    assert CreateMember(founded, "m", "c", true) == Committed(Hired(s));
  }

  // ---- a first window that ends tomorrow -----------------------------------------------------------------------

  ghost function Appoint(s: State): Op {
    OpCreateAndAssign("p", "a", "c", "c", "m", s.today, Some(s.today + 1))
  }

  ghost function Appointed(s: State): State {
    WithFirstWindow(Hired(s), Position("c", "c"), "a", Assignment("p", "m", s.today, Some(s.today + 1)))
  }

  lemma AppointCommits(s: State)
    requires Empty(s)
    ensures Apply(Hired(s), Appoint(s)) == Committed(Appointed(s))
  {
    hide OrgOwned, Covers;
    var t := Hired(s);
    assert Ancestor(t.units, "c", 0) == Some("c");
    assert UnitUnderCompany(t.units, "c", "c");
  }

  /** After it the holder tuples are not the open windows, and the position has no anchor. */
  lemma AppointUntilTomorrow(s: State)
    requires Empty(s)
    ensures
      var end := Run(s, Hire() + [Appoint(s)]);
      && HolderTuple("p", "m") in end.tuples && !HasOpen(end.assignments, "p", "m") && !HoldersExact(end)
      && "p" in end.positions && !AnchorsExact(end)
  {
    hide Apply, Inv, HoldersExact, AnchorsExact, Empty, WindowInv, AnchorInv;
    HireRuns(s);
    RunThen(s, Hire(), Appoint(s));
    AppointCommits(s);
    HiredIsGood(s);
    var t := Hired(s);
    assert Next(t, Appoint(s)) == Appointed(s);
    CreateAndAssignHolders(t, Appoint(s));
    CreateAndAssignUnanchored(t, Appoint(s));
    AppointedRows(s);
  }

  lemma AppointedRows(s: State)
    requires Empty(s)
    ensures
      var end := Appointed(s);
      HolderTuple("p", "m") in end.tuples && !HasOpen(end.assignments, "p", "m") && "p" in end.positions
  {
    assert Appointed(s).assignments == map["a" := Assignment("p", "m", s.today, Some(s.today + 1))];
  }

  lemma HiredIsGood(s: State)
    requires Empty(s)
    ensures Inv(Hired(s)) && WindowInv(Hired(s)) && AnchorInv(Hired(s)) && HoldersExact(Hired(s)) &&
      LinksExact(Hired(s))
  {
    hide Empty, Run, HoldersExact, LinksExact, AnchorsExact, WindowInv, AnchorInv;
    HireRuns(s);
    EmptyIsGood(s);
    RunKeepsInv(s, Hire());
    NoBadHire(s);
    RunKeepsHolders(s, Hire());
    RunKeepsLinks(s, Hire());
  }

  lemma {:induction false} NoBadHire(s: State)
    ensures Never(s, Hire(), FutureEnd) && Never(s, Hire(), Relinks)
  {
    var first, second := OpCreateOrgUnit("c", true, None), OpCreateMember("m", "c", true);
    assert Hire()[0] == first && Hire()[1..] == [second] && [second][1..] == [];
  }

  // ---- a handover to the present holder --------------------------------------------------------------------------

  /** The window ends tomorrow; the handover commits and changes nothing, so tomorrow nobody holds the position. */
  lemma HandoverToTheHolder(s: State)
    requires Empty(s)
    ensures
      var before := Run(s, Hire() + [Appoint(s)]);
      var handover := OpHandover("b", "p", "m", None);
      && Apply(before, handover).Committed?
      && !HoldsOn(Run(s, Hire() + [Appoint(s)] + [handover]), "p", "m", s.today + 1)
  {
    hide Empty;
    HireRuns(s);
    RunThen(s, Hire(), Appoint(s));
    AppointCommits(s);
    var t := Appointed(s);
    assert Run(s, Hire() + [Appoint(s)]) == t;
    RunThen(s, Hire() + [Appoint(s)], OpHandover("b", "p", "m", None));
    HandoverStays(s);
  }

  lemma HandoverStays(s: State)
    requires Empty(s)
    ensures Handover(Appointed(s), "b", "p", "m", None) == Committed(Appointed(s))
    ensures !HoldsOn(Appointed(s), "p", "m", s.today + 1)
  {
    var t := Appointed(s);
    assert t.assignments == map["a" := Assignment("p", "m", s.today, Some(s.today + 1))];
    assert HeldBy(t.assignments, "p", t.today, "a");
    assert Current(t.assignments, "p", t.today) == "a";
  }

  // ---- a second link -----------------------------------------------------------------------------------------------

  function Link(): seq<Op> {
    [NewUser("u", "x")] + [NewUser("v", "y")] + [OpLinkUser("m", "x", true)]
  }

  ghost function Linked(s: State): State {
    var t := Hired(s);
    t.(users := map["u" := "x", "v" := "y"], members := map["m" := Member("c", true, Some("u"))],
       tuples := t.tuples + {MappedUserTuple("m", "x")})
  }

  lemma LinkRuns(s: State)
    requires Empty(s)
    ensures Run(Hired(s), Link()) == Linked(s)
  {
    hide OrgOwned;
    var t := Hired(s);
    var t1 := t.(users := map["u" := "x"]);
    var t2 := t.(users := map["u" := "x", "v" := "y"]);
    assert "x" != "y" && "x" != "";
    RunThen(t, [], NewUser("u", "x"));
    assert [] + [NewUser("u", "x")] == [NewUser("u", "x")];
    assert Next(t, NewUser("u", "x")) == t1;
    RunThen(t, [NewUser("u", "x")], NewUser("v", "y"));
    assert Next(t1, NewUser("v", "y")) == t2;
    RunThen(t, [NewUser("u", "x")] + [NewUser("v", "y")], OpLinkUser("m", "x", true));
    LinkFirst(s, t2);
  }

  lemma LinkFirst(s: State, t: State)
    requires Empty(s) && t == Hired(s).(users := map["u" := "x", "v" := "y"])
    ensures Next(t, OpLinkUser("m", "x", true)) == Linked(s)
  {
    hide OrgOwned;
    assert t.users["u"] == "x" && t.users["v"] == "y" && "x" != "y" && "x" != "";
    assert UserOf(t.users, "x") == "u";
    assert t.members.Keys == {"m"};
  }

  /** Linked to another user, the member keeps the first user's tuple: whoever holds it passes the check still. */
  lemma LinkedTwice(s: State)
    requires Empty(s)
    ensures
      var end := Run(s, Hire() + (Link() + [OpLinkUser("m", "y", true)]));
      && LinkedTo(end, "m", "y") && !LinkedTo(end, "m", "x")
      && MappedUserTuple("m", "x") in end.tuples && !LinksExact(end)
  {
    hide Empty, LinksExact;
    RunSplits(s, Hire(), Link() + [OpLinkUser("m", "y", true)]);
    HireRuns(s);
    RunThen(Hired(s), Link(), OpLinkUser("m", "y", true));
    LinkRuns(s);
    LinkSecond(s);
  }

  lemma LinkSecond(s: State)
    requires Empty(s)
    ensures
      var end := Next(Linked(s), OpLinkUser("m", "y", true));
      && LinkedTo(end, "m", "y") && !LinkedTo(end, "m", "x")
      && MappedUserTuple("m", "x") in end.tuples && !LinksExact(end)
  {
    hide OrgOwned;
    var t := Linked(s);
    assert t.users["u"] == "x" && t.users["v"] == "y" && "x" != "y" && "y" != "";
    assert UserOf(t.users, "y") == "v";
    assert t.members.Keys == {"m"};
    var end := Next(t, OpLinkUser("m", "y", true));
    assert end.members == map["m" := Member("c", true, Some("v"))];
    assert On(MappedUserTuple("m", "x"), "member", "mapped_user");
  }
}
