/** Cutting a token stream into statements at its semicolons. */
module SqlStatements {
  import opened SqlTokens
  import opened SqlSpelling

  predicate IsSemicolon(t: Token) {
    t == Punct(";")
  }

  function Flush(statement: seq<Token>): seq<seq<Token>> {
    if statement == [] then [] else [statement]
  }

  /** The statements of ts, `open` being the tokens since the last semicolon. */
  function Cut(open: seq<Token>, ts: seq<Token>): seq<seq<Token>>
    decreases |ts|
  {
    if ts == [] then Flush(open)
    else if IsSemicolon(ts[0]) then Flush(open) + Cut([], ts[1..])
    else Cut(open + [ts[0]], ts[1..])
  }

  function Split(ts: seq<Token>): seq<seq<Token>> {
    Cut([], ts)
  }

  method SplitStatements(toks: seq<Token>) returns (out: seq<seq<Token>>)
    ensures out == Split(toks)
  {
    out := [];
    var cur := [];
    for i := 0 to |toks|
      invariant out + Cut(cur, toks[i..]) == Split(toks)
    {
      var t := toks[i];
      if IsSemicolon(t) {
        if |cur| > 0 {
          out := out + [cur];
        }
        cur := [];
        continue;
      }
      cur := cur + [t];
    }
    if |cur| > 0 {
      out := out + [cur];
    }
  }

  ghost predicate IsStatement(statement: seq<Token>) {
    statement != [] && forall t :: t in statement ==> !IsSemicolon(t)
  }

  function Concat(parts: seq<seq<Token>>): seq<Token> {
    if parts == [] then [] else parts[0] + Concat(parts[1..])
  }

  function WithoutSemicolons(ts: seq<Token>): seq<Token> {
    if ts == [] then []
    else (if IsSemicolon(ts[0]) then [] else [ts[0]]) + WithoutSemicolons(ts[1..])
  }

  lemma {:induction false} CutConserves(open: seq<Token>, ts: seq<Token>)
    requires forall t :: t in open ==> !IsSemicolon(t)
    ensures forall part :: part in Cut(open, ts) ==> IsStatement(part)
    ensures Concat(Cut(open, ts)) == open + WithoutSemicolons(ts)
    decreases |ts|
  {
    if ts == [] {
    } else if IsSemicolon(ts[0]) {
      CutConserves([], ts[1..]);
      var parts := Cut([], ts[1..]);
      assert (if open == [] then parts else ([open] + parts)[1..]) == parts;
      assert Cut(open, ts) == if open == [] then parts else [open] + parts;
    } else {
      CutConserves(open + [ts[0]], ts[1..]);
    }
  }

  /** Only the semicolons are dropped, the order is kept, and no statement is empty or holds a semicolon. */
  lemma SplitConserves(ts: seq<Token>)
    ensures forall part :: part in Split(ts) ==> IsStatement(part)
    ensures Concat(Split(ts)) == WithoutSemicolons(ts)
  {
    CutConserves([], ts);
  }

  lemma {:induction false} CutAtSemicolon(open: seq<Token>, a: seq<Token>, b: seq<Token>)
    ensures Cut(open, a + [Punct(";")] + b) == Cut(open, a) + Split(b)
    decreases |a|
  {
    var ts := a + [Punct(";")] + b;
    if a == [] {
      assert ts[1..] == b;
    } else {
      assert ts[1..] == a[1..] + [Punct(";")] + b;
      CutAtSemicolon(if IsSemicolon(a[0]) then [] else open + [a[0]], a[1..], b);
    }
  }

  /** Every semicolon ends a statement, and nothing else does. */
  lemma SplitAtSemicolon(a: seq<Token>, b: seq<Token>)
    ensures Split(a + [Punct(";")] + b) == Split(a) + Split(b)
    ensures (forall t :: t in a ==> !IsSemicolon(t)) ==> Split(a) == Flush(a)
  {
    CutAtSemicolon([], a, b);
    if forall t :: t in a ==> !IsSemicolon(t) {
      CutPlain([], a);
      assert [] + a == a;
    }
  }

  lemma {:induction false} CutPlain(open: seq<Token>, ts: seq<Token>)
    requires forall t :: t in ts ==> !IsSemicolon(t)
    ensures Cut(open, ts) == Flush(open + ts)
    decreases |ts|
  {
    if ts == [] {
      assert open + ts == open;
    } else {
      CutPlain(open + [ts[0]], ts[1..]);
      assert open + [ts[0]] + ts[1..] == open + ts;
    }
  }

  // ---- statements as written ----------------------------------------------------------------------------------

  /** A statement as written, with the gaps after its semicolon. */
  datatype Terminated = Terminated(words: seq<Word>, gaps: seq<Gap>)

  /** Statements written one after another, each with its semicolon but the last. */
  function Written(statements: seq<Terminated>, last: seq<Word>): seq<Word> {
    if statements == [] then last
    else statements[0].words + [Word(Mark(';'), statements[0].gaps)] + Written(statements[1..], last)
  }

  ghost predicate NoMark(words: seq<Word>) {
    forall i :: 0 <= i < |words| ==> words[i].spelling != Mark(';')
  }

  function Nonempty(statements: seq<Terminated>, last: seq<Word>): seq<seq<Token>> {
    if statements == [] then Flush(Meanings(last))
    else Flush(Meanings(statements[0].words)) + Nonempty(statements[1..], last)
  }

  ghost predicate GoodSpellings(words: seq<Word>) {
    forall i :: 0 <= i < |words| ==> GoodSpelling(words[i].spelling)
  }

  lemma GoodAround(a: seq<Word>, w: Word, b: seq<Word>)
    requires GoodSpellings(a + [w] + b)
    ensures GoodSpellings(a) && GoodSpellings(b)
  {
    hide GoodSpelling;
    var all := a + [w] + b;
    assert forall i :: 0 <= i < |a| ==> a[i] == all[i];
    assert forall i :: 0 <= i < |b| ==> b[i] == all[i + |a| + 1];
  }

  lemma PlainMeanings(words: seq<Word>)
    requires NoMark(words) && GoodSpellings(words)
    ensures forall t :: t in Meanings(words) ==> !IsSemicolon(t)
  {
    var ts := Meanings(words);
    forall t | t in ts
      ensures !IsSemicolon(t)
    {
      var k :| 0 <= k < |ts| && ts[k] == t;
      assert words[k].spelling != Mark(';');
    }
  }

  lemma {:induction false} GoodEach(words: seq<Word>, tail: string)
    requires GoodWords(words, tail)
    ensures GoodSpellings(words)
    decreases |words|
  {
    hide GoodSpelling, StopsBefore, GoodGaps;
    if words != [] { GoodEach(words[1..], tail); }
  }

  lemma {:induction false} SplitWritten(statements: seq<Terminated>, last: seq<Word>)
    requires GoodSpellings(Written(statements, last))
    requires NoMark(last) && forall i :: 0 <= i < |statements| ==> NoMark(statements[i].words)
    ensures Split(Meanings(Written(statements, last))) == Nonempty(statements, last)
    decreases |statements|
  {
    hide GoodSpellings, NoMark, Split, Meaning;
    if statements == [] {
      PlainMeanings(last);
      SplitAtSemicolon(Meanings(last), []);
    } else {
      var words, rest := statements[0].words, Written(statements[1..], last);
      var all := Written(statements, last);
      GoodAround(words, Word(Mark(';'), statements[0].gaps), rest);
      SplitWritten(statements[1..], last);
      PlainMeanings(words);
      assert Meanings(all) == Meanings(words) + [Meaning(Mark(';'))] + Meanings(rest);
      MarkMeans();
      SplitAtSemicolon(Meanings(words), Meanings(rest));
    }
  }

  lemma MarkMeans()
    ensures Meaning(Mark(';')) == Punct(";")
  {
  }

  /** A script's statements are the ones written, the last with or without its semicolon: no semicolon, quote or comment
      mark inside a literal, a quoted name or a comment ends or starts one. */
  lemma StatementsAsWritten(lead: seq<Gap>, statements: seq<Terminated>, last: seq<Word>, tail: string)
    requires GoodGaps(lead) && GoodWords(Written(statements, last), tail)
    requires NoMark(last) && forall i :: 0 <= i < |statements| ==> NoMark(statements[i].words)
    ensures Split(Tokens(GapsText(lead) + Script(Written(statements, last), tail), 0)) == Nonempty(statements, last)
  {
    hide Split, Nonempty, Written, GoodSpellings, Meanings, Script, GapsText, NoMark;
    GoodEach(Written(statements, last), tail);
    SplitWritten(statements, last);
    RoundTrip(lead, Written(statements, last), tail);
  }
}
