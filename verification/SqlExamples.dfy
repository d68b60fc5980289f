/** Migrations on which the scan does less than its rules say, for the module hr. */
module SqlExamples {
  import opened SqlTokens
  import opened SqlSpelling
  import opened SqlStatements
  import opened SqlRules
  import opened SqlScan
  import opened SqlFence
  import opened SqlGrants

  // ---- DROP and TRUNCATE ------------------------------------------------------------------------------------------

  const MODULE_HR := Scope("hr", false)

  function Unquoted(text: string): Token {
    Ident(text, false)
  }

  /** DROP SCHEMA hr, other CASCADE. */
  function DropTwoSchemas(): Statement {
    [Unquoted("drop"), Unquoted("schema"), Unquoted("hr"), Punct(","), Unquoted("other"), Unquoted("cascade")]
  }

  /** TRUNCATE hr.a *, other.b. */
  function TruncateStarred(): Statement {
    [Unquoted("truncate"), Unquoted("hr"), Punct("."), Unquoted("a"), Punct("*"), Punct(","),
      Unquoted("other"), Punct("."), Unquoted("b")]
  }

  lemma DropTwoSchemasClean()
    ensures Clean(MODULE_HR, DropTwoSchemas()) && !MayDestroy(MODULE_HR, DropTwoSchemas(), 4)
    ensures DestroyedAt(DropTwoSchemas()) == 2 && 4 in Entries(DropTwoSchemas(), 2)
  {
    var ts := DropTwoSchemas();
    assert DropStart(ts) == 2;
    assert NextComma(ts, 2, 0) == 3;
    assert Entries(ts, 2)[1] == 4;
  }

  lemma TruncateStarredClean()
    ensures Clean(MODULE_HR, TruncateStarred()) && DestroyedAt(TruncateStarred()) == 1
  {
    var ts := TruncateStarred();
    assert SkipKws(ts, 1, {"table", "only"}) == 1;
    assert RefAt(ts, 1) == (Ref("hr", "a", 1), 4);
    assert Items(ts, 1) == [Ref("hr", "a", 1)];
  }

  lemma TruncateStarredComma()
    ensures NextComma(TruncateStarred(), 1, 0) == 5
  {
    var ts := TruncateStarred();
    CommaAfterNames(ts, 1, 4);
    assert ts[4] == Punct("*") && ts[5] == Punct(",");
    assert NextComma(ts, 4, 0) == NextComma(ts, 5, 0);
  }

  lemma TruncateStarredUnread()
    ensures 6 in Entries(TruncateStarred(), 1) && !MayDestroy(MODULE_HR, TruncateStarred(), 6)
  {
    hide Clean, NextComma, InFence;
    var ts := TruncateStarred();
    TruncateStarredComma();
    assert Entries(ts, 1)[1] == 6;
    assert RefAt(ts, 6).0.schema == "other" && Kw(ts, 0) == "truncate";
  }

  /** TRUNCATE ONLY (other.b). */
  function TruncateEnclosed(): Statement {
    [Unquoted("truncate"), Unquoted("only"), Punct("("), Unquoted("other"), Punct("."), Unquoted("b"), Punct(")")]
  }

  lemma TruncateEnclosedClean()
    ensures Clean(MODULE_HR, TruncateEnclosed()) && !MayDestroy(MODULE_HR, TruncateEnclosed(), 3)
    ensures DestroyedAt(TruncateEnclosed()) == 2 && !AllNames(TruncateEnclosed(), 2)
  {
    var ts := TruncateEnclosed();
    assert SkipKws(ts, 1, {"table", "only"}) == 2;
    assert Items(ts, 2) == [];
    assert Entries(ts, 2)[0] == 2 && !IsName(ts, 2);
    assert RefAt(ts, 3).0.schema == "other";
  }

  // ---- GRANT ------------------------------------------------------------------------------------------------------

  /** GRANT SELECT ON hr.to, hr.y TO public. */
  function GrantOnTo(): Statement {
    [Unquoted("grant"), Unquoted("select"), Unquoted("on"), Unquoted("hr"), Punct("."), Unquoted("to"), Punct(","),
      Unquoted("hr"), Punct("."), Unquoted("y"), Unquoted("to"), Unquoted("public")]
  }

  /** GRANT SELECT ON sequence, other.b TO kiban_hr. */
  function GrantOnSequence(): Statement {
    [Unquoted("grant"), Unquoted("select"), Unquoted("on"), Unquoted("sequence"), Punct(","),
      Unquoted("other"), Punct("."), Unquoted("b"), Unquoted("to"), Unquoted("kiban_hr")]
  }

  lemma GrantOnToObjects()
    ensures FindKw(GrantOnTo(), 0, "on") == 2 && Items(GrantOnTo(), 3) == [Ref("hr", "to", 3), Ref("hr", "y", 7)]
    ensures ItemsEnd(GrantOnTo(), 3) == 10
  {
    var ts := GrantOnTo();
    assert RefAt(ts, 3) == (Ref("hr", "to", 3), 6);
    assert RefAt(ts, 7) == (Ref("hr", "y", 7), 10);
    assert Items(ts, 7) == [Ref("hr", "y", 7)] && ItemsEnd(ts, 7) == 10;
  }

  lemma GrantOnToRoles()
    ensures FindKw(GrantOnTo(), 2, "to") == 5 && Names(GrantOnTo(), 6) == [] && Names(GrantOnTo(), 11) == ["public"]
  {
    var ts := GrantOnTo();
    assert FindKw(ts, 4, "to") == 5;
  }

  /** Its roles are looked for after the first table's name, and none is found. */
  lemma GrantOnToClean()
    ensures Clean(MODULE_HR, GrantOnTo()) && RolesFollow(GrantOnTo())
    ensures RolesAt(GrantOnTo()) == 6 && GrantRoles(GrantOnTo()) == []
    ensures ObjectsEnd(GrantOnTo()) == 10 && Names(GrantOnTo(), 11) == ["public"]
  {
    hide Items, ItemsEnd, RefAt, SkipArgs, FindKw, Names;
    GrantOnToObjects();
    GrantOnToRoles();
  }

  lemma GrantOnSequenceParts()
    ensures FindKw(GrantOnSequence(), 0, "on") == 2 && FindKw(GrantOnSequence(), 2, "to") == 8
    ensures GrantRoles(GrantOnSequence()) == ["kiban_" + MODULE_HR.moduleKey]
  {
    var ts := GrantOnSequence();
    assert "kiban_" + "hr" == "kiban_hr";
    assert FindKw(ts, 6, "to") == 8;
    assert FindKw(ts, 4, "to") == FindKw(ts, 6, "to");
  }

  /** Its first table is taken for a kind, and no object is read. */
  lemma GrantOnSequenceClean()
    ensures Clean(MODULE_HR, GrantOnSequence()) && TakenForKind(GrantOnSequence())
    ensures ObjectsAt(GrantOnSequence()) == 3 && !MayGrantOn(MODULE_HR, GrantOnSequence())
  {
    hide FindKw, Names, SkipArgs, InFence, GrantedClean, GrantRoles;
    var ts := GrantOnSequence();
    GrantOnSequenceParts();
    GrantsOnOwnObjects(MODULE_HR, ts);
    assert RefAt(ts, 3).0 == Ref("", "sequence", 3);
    assert Items(ts, 3)[0].schema == "";
  }

  // ---- COMMENT ----------------------------------------------------------------------------------------------------

  /** The file COMMENT is one lone COMMENT, on which the scan fails. */
  lemma LoneCommentFile()
    ensures var statements := Split(Tokens("COMMENT", 0)); |statements| == 1 && LoneComment(statements[0])
  {
    hide Tokens, Split;
    var words := [Word(Name("COMMENT"), [])];
    CommentWord();
    assert Written([], words) == words && NoMark(words);
    StatementsAsWritten([], [], words, "");
    assert GapsText([]) + Script(words, "") == "COMMENT";
    assert Nonempty([], words) == [Meanings(words)];
  }

  lemma CommentWord()
    ensures GoodSpelling(Name("COMMENT")) && LowerAll("COMMENT") == "comment"
  {
    var name := "COMMENT";
    assert forall i :: 0 <= i < |name| ==> name[i] in {'C', 'O', 'M', 'E', 'N', 'T'};
    assert |LowerAll(name)| == 7;
  }
}
