/**
 Writing SQL and reading it back. A script is a list of words, each a spelling of one token, with white space and
 comments between them or nothing where the next char cannot carry the token on. Whatever stands inside a literal, a
 quoted name or a comment, the tokenizer reads back exactly the tokens that were spelled.
 */
module SqlSpelling {
  import opened Options
  import opened SqlTokens

  /** The inside of a block comment up to and including its closing mark; comments nest. */
  datatype Comment = Close | Text(c: char, rest: Comment) | Nest(inner: Comment, rest: Comment)

  datatype Gap = Space(c: char) | Line(text: string) | Block(comment: Comment)

  datatype Spelling =
    | Name(name: string)
    | QuotedName(text: string)
    | Plain(text: string)
    | Escaped(text: string)
    | DollarQuoted(tag: string, text: string)
    | Numeral(text: string)
    | Parameter(digits: string)
    | Mark(c: char)

  datatype Word = Word(spelling: Spelling, gaps: seq<Gap>)

  function CommentText(k: Comment): (s: string)
    ensures |s| >= 2
  {
    match k
    case Close => "*/"
    case Text(c, rest) => [c] + CommentText(rest)
    case Nest(inner, rest) => "/*" + CommentText(inner) + CommentText(rest)
  }

  function GapText(g: Gap): string {
    match g
    case Space(c) => [c]
    case Line(text) => "--" + text + "\n"
    case Block(comment) => "/*" + CommentText(comment)
  }

  /** Each quote doubled. */
  function Doubled(text: string, quote: char): string {
    if text == "" then ""
    else (if text[0] == quote then [quote, quote] else [text[0]]) + Doubled(text[1..], quote)
  }

  /** A backslash before each quote and each backslash. */
  function Backslashed(text: string): string {
    if text == "" then ""
    else (if text[0] == '\'' || text[0] == '\\' then ['\\', text[0]] else [text[0]]) + Backslashed(text[1..])
  }

  function SpellingText(w: Spelling): string {
    match w
    case Name(name) => name
    case QuotedName(text) => "\"" + (Doubled(text, '"') + "\"")
    case Plain(text) => "'" + (Doubled(text, '\'') + "'")
    case Escaped(text) => "E'" + (Backslashed(text) + "'")
    case DollarQuoted(tag, text) => DollarTag(tag) + (text + DollarTag(tag))
    case Numeral(text) => text
    case Parameter(digits) => "$" + digits
    case Mark(c) => [c]
  }

  function DollarTag(tag: string): string {
    "$" + tag + "$"
  }

  function Meaning(w: Spelling): Token {
    match w
    case Name(name) => Ident(LowerAll(name), false)
    case QuotedName(text) => Ident(text, true)
    case Plain(text) => Literal(text)
    case Escaped(text) => Literal(text)
    case DollarQuoted(_, text) => Literal(text)
    case Numeral(text) => Number(text)
    case Parameter(_) => Number("$")
    case Mark(c) => Punct([c])
  }

  predicate IsMark(s: string) {
    s == "/*" || s == "*/"
  }

  /** No char of a comment's text starts a comment mark with the char after it. */
  predicate GoodComment(k: Comment) {
    match k
    case Close => true
    case Text(c, rest) => !IsMark([c, CommentText(rest)[0]]) && GoodComment(rest)
    case Nest(inner, rest) => GoodComment(inner) && GoodComment(rest)
  }

  predicate GoodGap(g: Gap) {
    match g
    case Space(c) => IsSpace(c)
    case Line(text) => '\n' !in text
    case Block(comment) => GoodComment(comment)
  }

  predicate All(s: string, p: char -> bool) {
    forall i :: 0 <= i < |s| ==> p(s[i])
  }

  predicate GoodMark(c: char) {
    !IsSpace(c) && !IsIdentStart(c) && !IsDigit(c) && c != '\'' && c != '"'
  }

  predicate GoodSpelling(w: Spelling) {
    match w
    case Name(name) => name != "" && IsIdentStart(name[0]) && All(name, IsIdentChar)
    case QuotedName(_) => true
    case Plain(_) => true
    case Escaped(_) => true
    case DollarQuoted(tag, text) => All(tag, IsTagChar) && (tag != "" ==> IsIdentStart(tag[0])) && EndsAtTag(tag, text)
    case Numeral(text) => text != "" && IsDigit(text[0]) && All(text, IsNumberChar)
    case Parameter(digits) => digits != "" && All(digits, IsDigit)
    case Mark(c) => GoodMark(c)
  }

  /** The closing tag is the first one after the opening. */
  predicate EndsAtTag(tag: string, text: string) {
    forall k :: 0 <= k < |text| ==> !At(text + DollarTag(tag), k, DollarTag(tag))
  }

  /** The char c after the spelling does not carry its token on. */
  predicate Stops(w: Spelling, c: char) {
    match w
    case Name(name) => !IsIdentChar(c) && ((name == "e" || name == "E") ==> c != '\'')
    case QuotedName(_) => c != '"'
    case Plain(_) => c != '\''
    case Escaped(_) => c != '\''
    case DollarQuoted(_, _) => true
    case Numeral(_) => !IsNumberChar(c)
    case Parameter(_) => !IsParameterChar(c)
    case Mark(m) => if m == '-' then c != '-' else if m == '/' then c != '*' else if m == '$' then !IsIdentChar(c)
      else true
  }

  predicate StopsBefore(w: Spelling, rest: string) {
    rest == "" || Stops(w, rest[0])
  }

  lemma SpaceStops(w: Spelling, c: char)
    requires IsSpace(c)
    ensures Stops(w, c)
  {
  }

  predicate GoodGaps(gaps: seq<Gap>) {
    forall i :: 0 <= i < |gaps| ==> GoodGap(gaps[i])
  }

  function GapsText(gaps: seq<Gap>): string {
    if gaps == [] then "" else GapText(gaps[0]) + GapsText(gaps[1..])
  }

  /** A script may end in a line comment without a newline. */
  predicate GoodTail(tail: string) {
    tail == "" || ("--" <= tail && '\n' !in tail)
  }

  function Script(words: seq<Word>, tail: string): string
    decreases |words|
  {
    if words == [] then tail
    else SpellingText(words[0].spelling) + GapsText(words[0].gaps) + Script(words[1..], tail)
  }

  /** Every word is well written, and what follows it does not carry its token on. */
  predicate GoodWords(words: seq<Word>, tail: string)
    decreases |words|
  {
    if words == [] then GoodTail(tail)
    else
      && GoodSpelling(words[0].spelling) && GoodGaps(words[0].gaps)
      && StopsBefore(words[0].spelling, GapsText(words[0].gaps) + Script(words[1..], tail))
      && GoodWords(words[1..], tail)
  }

  function Meanings(words: seq<Word>): (ts: seq<Token>) {
    seq(|words|, i requires 0 <= i < |words| => Meaning(words[i].spelling))
  }

  // ---- reading gaps -------------------------------------------------------------------------------------------

  lemma AtSplit(s: string, i: nat, a: string, b: string)
    requires At(s, i, a + b)
    ensures At(s, i, a) && At(s, i + |a|, b)
  {
    assert s[i..i + |a|] == (a + b)[..|a|];
    assert s[i + |a|..i + |a| + |b|] == (a + b)[|a|..];
  }

  lemma AtChar(s: string, i: nat, w: string, k: nat)
    requires At(s, i, w) && k < |w|
    ensures s[i + k] == w[k]
  {
    assert s[i..i + |w|][k] == s[i + k];
  }

  lemma BlockStep(s: string, i: nat, depth: int)
    requires i < |s|
    ensures At(s, i, "/*") ==> BlockEnd(s, i, depth) == BlockEnd(s, i + 2, depth + 1)
    ensures At(s, i, "*/") ==> BlockEnd(s, i, depth) == if depth == 1 then i + 2 else BlockEnd(s, i + 2, depth - 1)
    ensures !At(s, i, "/*") && !At(s, i, "*/") ==> BlockEnd(s, i, depth) == BlockEnd(s, i + 1, depth)
  {
    if At(s, i, "*/") { AtChar(s, i, "*/", 0); }
  }

  lemma TextStep(s: string, i: nat, c: char, w: string, depth: int)
    requires At(s, i, [c] + w) && w != "" && !IsMark([c, w[0]])
    ensures At(s, i + 1, w) && BlockEnd(s, i, depth) == BlockEnd(s, i + 1, depth)
  {
    hide BlockEnd;
    AtSplit(s, i, [c], w);
    AtChar(s, i, [c] + w, 0);
    AtChar(s, i, [c] + w, 1);
    assert s[i..i + 2] == [c, w[0]];
    BlockStep(s, i, depth);
  }

  lemma NestStep(s: string, i: nat, inner: string, rest: string, depth: int)
    requires At(s, i, "/*" + inner + rest)
    ensures At(s, i + 2, inner) && At(s, i + 2 + |inner|, rest) &&
      BlockEnd(s, i, depth) == BlockEnd(s, i + 2, depth + 1)
  {
    hide BlockEnd;
    AtSplit(s, i, "/*" + inner, rest);
    AtSplit(s, i, "/*", inner);
    BlockStep(s, i, depth);
  }

  lemma AtFits(s: string, i: nat, w: string)
    requires At(s, i, w)
    ensures i + |w| <= |s|
  {
  }

  /** Reading a comment at i comes to j, where it goes on one level further out. */
  ghost predicate Skips(s: string, i: nat, j: nat, depth: int) {
    i <= j <= |s| && BlockEnd(s, i, depth) == if depth == 1 then j else BlockEnd(s, j, depth - 1)
  }

  lemma NestSkips(s: string, i: nat, a: string, b: string, depth: nat)
    requires depth > 0 && At(s, i, "/*" + a + b)
    requires Skips(s, i + 2, i + 2 + |a|, depth + 1) && Skips(s, i + 2 + |a|, i + 2 + |a| + |b|, depth)
    ensures Skips(s, i, i + |"/*" + a + b|, depth)
  {
    hide BlockEnd, At;
    NestStep(s, i, a, b, depth);
  }

  lemma TextSkips(s: string, i: nat, c: char, w: string, depth: nat)
    requires depth > 0 && At(s, i, [c] + w) && w != "" && !IsMark([c, w[0]]) && Skips(s, i + 1, i + 1 + |w|, depth)
    ensures Skips(s, i, i + |[c] + w|, depth)
  {
    hide BlockEnd, At, IsMark;
    TextStep(s, i, c, w, depth);
  }

  lemma CloseSkips(s: string, i: nat, depth: nat)
    requires depth > 0 && At(s, i, "*/")
    ensures Skips(s, i, i + |"*/"|, depth)
  {
    hide BlockEnd;
    BlockStep(s, i, depth);
  }

  lemma CommentUnfolds(k: Comment)
    requires GoodComment(k)
    ensures k.Close? ==> CommentText(k) == "*/"
    ensures k.Text? ==>
      && GoodComment(k.rest) && CommentText(k) == [k.c] + CommentText(k.rest)
      && !IsMark([k.c, CommentText(k.rest)[0]])
    ensures k.Nest? ==>
      && GoodComment(k.inner) && GoodComment(k.rest)
      && CommentText(k) == "/*" + CommentText(k.inner) + CommentText(k.rest)
  {
    hide IsMark;
  }

  /** A comment's text is skipped, however deep the comments nest. */
  lemma {:induction false} ReadComment(s: string, i: nat, k: Comment, depth: nat)
    requires At(s, i, CommentText(k)) && GoodComment(k) && depth > 0
    ensures Skips(s, i, i + |CommentText(k)|, depth)
    decreases k
  {
    hide Skips, At, IsMark, CommentText, GoodComment;
    CommentUnfolds(k);
    if k.Close? {
      CloseSkips(s, i, depth);
    } else if k.Text? {
      var rest := CommentText(k.rest);
      TextStep(s, i, k.c, rest, depth);
      ReadComment(s, i + 1, k.rest, depth);
      TextSkips(s, i, k.c, rest, depth);
    } else {
      var inner, rest := CommentText(k.inner), CommentText(k.rest);
      NestStep(s, i, inner, rest, depth);
      ReadComment(s, i + 2, k.inner, depth + 1);
      ReadComment(s, i + 2 + |inner|, k.rest, depth);
      NestSkips(s, i, inner, rest, depth);
    }
  }

  /** A span is found by its two defining properties. */
  lemma SpanIs(s: string, i: nat, j: nat, p: char -> bool)
    requires i <= j <= |s| && (forall k :: i <= k < j ==> p(s[k])) && (j < |s| ==> !p(s[j]))
    ensures Span(s, i, p) == j
  {
    var j' := Span(s, i, p);
    assert j' < |s| ==> !p(s[j']);
  }

  lemma Skipped(s: string, i: nat, j: nat)
    requires i < |s| && Lexeme(s, i) == Lexed(None, j)
    ensures j <= |s| && Tokens(s, i) == Tokens(s, j)
  {
  }

  lemma ReadSpace(s: string, i: nat)
    requires i < |s| && IsSpace(s[i])
    ensures Tokens(s, i) == Tokens(s, i + 1)
  {
    Skipped(s, i, i + 1);
  }

  lemma ReadLine(s: string, i: nat, text: string)
    requires At(s, i, "--" + text + "\n") && '\n' !in text
    ensures Tokens(s, i) == Tokens(s, i + 3 + |text|)
  {
    hide Tokens;
    AtSplit(s, i, "--" + text, "\n");
    AtSplit(s, i, "--", text);
    var end := i + 2 + |text|;
    forall k | i + 2 <= k < end
      ensures NotNewline(s[k])
    {
      AtChar(s, i + 2, text, k - i - 2);
    }
    AtChar(s, end, "\n", 0);
    SpanIs(s, i + 2, end, NotNewline);
    AtChar(s, i, "--", 0);
    Skipped(s, i, end);
    ReadSpace(s, end);
  }

  lemma ReadBlock(s: string, i: nat, k: Comment)
    requires At(s, i, "/*" + CommentText(k)) && GoodComment(k)
    ensures Tokens(s, i) == Tokens(s, i + 2 + |CommentText(k)|)
  {
    hide Tokens, CommentText, GoodComment, BlockEnd;
    AtSplit(s, i, "/*", CommentText(k));
    ReadComment(s, i + 2, k, 1);
    AtChar(s, i, "/*", 0);
    assert s[i..i + 2] == "/*";
    Skipped(s, i, i + 2 + |CommentText(k)|);
  }

  lemma ReadGap(s: string, i: nat, g: Gap)
    requires At(s, i, GapText(g)) && GoodGap(g)
    ensures Tokens(s, i) == Tokens(s, i + |GapText(g)|)
  {
    hide Tokens, CommentText, GoodComment;
    match g
    case Space(c) => {
      AtChar(s, i, [c], 0);
      ReadSpace(s, i);
    }
    case Line(text) => ReadLine(s, i, text);
    case Block(comment) => ReadBlock(s, i, comment);
  }

  lemma {:induction false} ReadGaps(s: string, i: nat, gaps: seq<Gap>)
    requires At(s, i, GapsText(gaps)) && GoodGaps(gaps)
    ensures Tokens(s, i) == Tokens(s, i + |GapsText(gaps)|)
    decreases |gaps|
  {
    hide Tokens, GapText, GoodGap;
    if gaps != [] {
      AtSplit(s, i, GapText(gaps[0]), GapsText(gaps[1..]));
      ReadGap(s, i, gaps[0]);
      ReadGaps(s, i + |GapText(gaps[0])|, gaps[1..]);
    }
  }

  // ---- reading words ------------------------------------------------------------------------------------------

  lemma {:induction false} ReadDoubled(s: string, i: nat, text: string, quote: char)
    requires At(s, i, Doubled(text, quote) + [quote])
    requires var end := i + |Doubled(text, quote)| + 1; end < |s| ==> s[end] != quote
    ensures Quoted(s, i, quote, false) == (text, i + |Doubled(text, quote)| + 1)
    decreases |text|
  {
    hide Quoted, At;
    var w := Doubled(text, quote) + [quote];
    AtFits(s, i, w);
    AtChar(s, i, w, 0);
    QuotedStep(s, i, quote, false);
    if text != "" {
      var first := if text[0] == quote then [quote, quote] else [text[0]];
      assert w == first + (Doubled(text[1..], quote) + [quote]);
      AtSplit(s, i, first, Doubled(text[1..], quote) + [quote]);
      AtChar(s, i, w, 1);
      ReadDoubled(s, i + |first|, text[1..], quote);
      assert text == [text[0]] + text[1..];
    }
  }

  lemma {:induction false} ReadBackslashed(s: string, i: nat, text: string)
    requires At(s, i, Backslashed(text) + "'")
    requires var end := i + |Backslashed(text)| + 1; end < |s| ==> s[end] != '\''
    ensures Quoted(s, i, '\'', true) == (text, i + |Backslashed(text)| + 1)
    decreases |text|
  {
    hide Quoted, At;
    var w := Backslashed(text) + "'";
    AtFits(s, i, w);
    AtChar(s, i, w, 0);
    QuotedStep(s, i, '\'', true);
    if text != "" {
      var first := if text[0] == '\'' || text[0] == '\\' then ['\\', text[0]] else [text[0]];
      assert w == first + (Backslashed(text[1..]) + "'");
      AtSplit(s, i, first, Backslashed(text[1..]) + "'");
      AtChar(s, i, w, 1);
      ReadBackslashed(s, i + |first|, text[1..]);
      assert text == [text[0]] + text[1..];
    }
  }

  ghost predicate Reads(s: string, i: nat, w: Spelling) {
    var end := i + |SpellingText(w)|;
    i < |s| && Lexeme(s, i) == Lexed(Some(Meaning(w)), end)
  }

  /** A spelling stands at i and nothing after it carries its token on. */
  ghost predicate Stands(s: string, i: nat, w: Spelling) {
    var end := i + |SpellingText(w)|;
    At(s, i, SpellingText(w)) && GoodSpelling(w) && (end < |s| ==> Stops(w, s[end]))
  }

  lemma NotAt(s: string, i: nat, w: string, k: nat)
    requires k < |w| && i + k < |s| && s[i + k] != w[k]
    ensures !At(s, i, w)
  {
    if At(s, i, w) { AtChar(s, i, w, k); }
  }

  /** What is read at a char that opens neither white space nor a comment. */
  lemma Dispatch(s: string, i: nat)
    requires i < |s| && !IsSpace(s[i])
    requires s[i] == '-' && i + 1 < |s| ==> s[i + 1] != '-'
    requires s[i] == '/' && i + 1 < |s| ==> s[i + 1] != '*'
    ensures !At(s, i, "--") && !At(s, i, "/*")
  {
    if i + 1 < |s| {
      NotAt(s, i, "--", if s[i] == '-' then 1 else 0);
      NotAt(s, i, "/*", if s[i] == '/' then 1 else 0);
    }
  }

  /** A run of chars of one class is a span, read from any of its chars. */
  lemma ReadRun(s: string, i: nat, w: string, k: nat, p: char -> bool)
    requires At(s, i, w) && All(w, p) && (i + |w| < |s| ==> !p(s[i + |w|])) && k <= |w|
    ensures Span(s, i + k, p) == i + |w|
  {
    forall j | i <= j < i + |w|
      ensures p(s[j])
    {
      AtChar(s, i, w, j - i);
      assert p(w[j - i]);
    }
    SpanIs(s, i + k, i + |w|, p);
  }

  lemma ReadName(s: string, i: nat, w: Spelling)
    requires Stands(s, i, w) && w.Name?
    ensures Reads(s, i, w)
  {
    hide At, Span;
    AtChar(s, i, w.name, 0);
    if |w.name| > 1 {
      AtChar(s, i, w.name, 1);
      assert IsIdentChar(w.name[1]);
    }
    ReadRun(s, i, w.name, 1, IsIdentChar);
    Dispatch(s, i);
    Slice(s, i, w.name);
  }

  lemma Slice(s: string, i: nat, w: string)
    requires At(s, i, w)
    ensures i + |w| <= |s| && s[i..i + |w|] == w
  {
  }

  lemma ReadNumeral(s: string, i: nat, w: Spelling)
    requires Stands(s, i, w) && w.Numeral?
    ensures Reads(s, i, w)
  {
    hide At, Span;
    AtChar(s, i, w.text, 0);
    ReadRun(s, i, w.text, 1, IsNumberChar);
    Dispatch(s, i);
    Slice(s, i, w.text);
  }

  lemma ReadParameter(s: string, i: nat, w: Spelling)
    requires Stands(s, i, w) && w.Parameter?
    ensures Reads(s, i, w)
  {
    hide At, Span, Find;
    AtSplit(s, i, "$", w.digits);
    AtChar(s, i, "$", 0);
    AtChar(s, i + 1, w.digits, 0);
    assert IsTagChar(s[i + 1]) && Span(s, i + 1, IsTagChar) > i + 1;
    ReadRun(s, i + 1, w.digits, 0, IsParameterChar);
    Dispatch(s, i);
  }

  lemma ReadMark(s: string, i: nat, w: Spelling)
    requires Stands(s, i, w) && w.Mark?
    ensures Reads(s, i, w)
  {
    hide At, Find;
    AtFits(s, i, [w.c]);
    AtChar(s, i, [w.c], 0);
    Dispatch(s, i);
    if w.c == '$' { SpanIs(s, i + 1, i + 1, IsTagChar); }
  }

  lemma ReadQuoteBody(s: string, i: nat, text: string, quote: char)
    requires At(s, i, [quote] + (Doubled(text, quote) + [quote]))
    requires var end := i + 2 + |Doubled(text, quote)|; end < |s| ==> s[end] != quote
    ensures i < |s| && s[i] == quote && Quoted(s, i + 1, quote, false) == (text, i + 2 + |Doubled(text, quote)|)
  {
    hide At, Quoted, Doubled;
    AtSplit(s, i, [quote], Doubled(text, quote) + [quote]);
    AtFits(s, i, [quote]);
    AtChar(s, i, [quote], 0);
    ReadDoubled(s, i + 1, text, quote);
  }

  lemma ReadPlain(s: string, i: nat, w: Spelling)
    requires Stands(s, i, w) && w.Plain?
    ensures Reads(s, i, w)
  {
    hide At, Quoted, Doubled;
    assert "'" == ['\''];
    ReadQuoteBody(s, i, w.text, '\'');
    Dispatch(s, i);
  }

  lemma ReadQuotedName(s: string, i: nat, w: Spelling)
    requires Stands(s, i, w) && w.QuotedName?
    ensures Reads(s, i, w)
  {
    hide At, Quoted, Doubled;
    assert "\"" == ['"'];
    ReadQuoteBody(s, i, w.text, '"');
    Dispatch(s, i);
  }

  lemma ReadEscaped(s: string, i: nat, w: Spelling)
    requires Stands(s, i, w) && w.Escaped?
    ensures Reads(s, i, w)
  {
    hide At, Quoted, Backslashed;
    AtSplit(s, i, "E'", Backslashed(w.text) + "'");
    AtChar(s, i, "E'", 0);
    AtChar(s, i, "E'", 1);
    ReadBackslashed(s, i + 2, w.text);
    Dispatch(s, i);
  }

  lemma AtInside(s: string, i: nat, w: string, k: nat, t: string)
    requires At(s, i, w) && At(s, k, t) && i <= k && k + |t| <= i + |w|
    ensures At(w, k - i, t)
  {
    forall n | 0 <= n < |t|
      ensures w[k - i + n] == t[n]
    {
      AtChar(s, i, w, k - i + n);
      AtChar(s, k, t, n);
    }
  }

  /** The closing tag is found where it was written. */
  lemma FindTag(s: string, i: nat, tag: string, text: string)
    requires At(s, i, text + DollarTag(tag)) && EndsAtTag(tag, text)
    ensures Find(s, i, DollarTag(tag)) == Some(i + |text|)
  {
    var t := DollarTag(tag);
    AtSplit(s, i, text, t);
    forall k | i <= k < i + |text|
      ensures !At(s, k, t)
    {
      if At(s, k, t) { AtInside(s, i, text + t, k, t); }
    }
  }

  lemma TagSplits(s: string, i: nat, tag: string)
    requires At(s, i, DollarTag(tag))
    ensures At(s, i, "$") && At(s, i + 1, tag) && At(s, i + 1 + |tag|, "$") && |DollarTag(tag)| == |tag| + 2
  {
    hide At;
    AtSplit(s, i, "$" + tag, "$");
    AtSplit(s, i, "$", tag);
  }

  lemma ReadTag(s: string, i: nat, tag: string)
    requires At(s, i, DollarTag(tag)) && All(tag, IsTagChar) && (tag != "" ==> IsIdentStart(tag[0]))
    ensures
      var j := i + 1 + |tag|;
      && j < |s| && s[i] == '$' && Span(s, i + 1, IsTagChar) == j && OpensDollarQuote(s, i, j) &&
        s[i..j + 1] == DollarTag(tag)
  {
    hide Span, At, DollarTag;
    TagSplits(s, i, tag);
    Slice(s, i, DollarTag(tag));
    AtChar(s, i, "$", 0);
    AtChar(s, i + 1 + |tag|, "$", 0);
    if tag != "" { AtChar(s, i + 1, tag, 0); }
    ReadRun(s, i + 1, tag, 0, IsTagChar);
  }

  lemma ReadDollarBody(s: string, i: nat, tag: string, text: string)
    requires At(s, i, DollarTag(tag) + (text + DollarTag(tag))) && GoodSpelling(DollarQuoted(tag, text))
    ensures i < |s| && s[i] == '$'
    ensures Dollar(s, i) == Lexed(Some(Literal(text)), i + |DollarTag(tag) + (text + DollarTag(tag))|)
  {
    hide EndsAtTag, At, Span, Find, OpensDollarQuote, DollarTag;
    var t := DollarTag(tag);
    AtSplit(s, i, t, text + t);
    TagSplits(s, i, tag);
    ReadTag(s, i, tag);
    var j := i + 1 + |tag|;
    FindTag(s, j + 1, tag, text);
    AtSplit(s, j + 1, text, t);
    Slice(s, j + 1, text);
  }

  lemma ReadDollarQuoted(s: string, i: nat, w: Spelling)
    requires Stands(s, i, w) && w.DollarQuoted?
    ensures Reads(s, i, w)
  {
    hide EndsAtTag, At, Dollar, DollarTag;
    ReadDollarBody(s, i, w.tag, w.text);
    Dispatch(s, i);
  }

  lemma ReadSpelling(s: string, i: nat, w: Spelling)
    requires Stands(s, i, w)
    ensures Reads(s, i, w)
  {
    hide Stands, Reads;
    match w
    case Name(_) => ReadName(s, i, w);
    case QuotedName(_) => ReadQuotedName(s, i, w);
    case Plain(_) => ReadPlain(s, i, w);
    case Escaped(_) => ReadEscaped(s, i, w);
    case DollarQuoted(_, _) => ReadDollarQuoted(s, i, w);
    case Numeral(_) => ReadNumeral(s, i, w);
    case Parameter(_) => ReadParameter(s, i, w);
    case Mark(_) => ReadMark(s, i, w);
  }

  // ---- round trips --------------------------------------------------------------------------------------------

  lemma Emits(s: string, i: nat, w: Spelling)
    requires Reads(s, i, w)
    ensures i + |SpellingText(w)| <= |s| && Tokens(s, i) == [Meaning(w)] + Tokens(s, i + |SpellingText(w)|)
  {
    hide Lexeme, Meaning, SpellingText;
  }

  lemma ReadWord(s: string, i: nat, w: Word, rest: string)
    requires GoodSpelling(w.spelling) && GoodGaps(w.gaps) && StopsBefore(w.spelling, GapsText(w.gaps) + rest)
    requires At(s, i, SpellingText(w.spelling) + (GapsText(w.gaps) + rest))
    requires i + |SpellingText(w.spelling) + (GapsText(w.gaps) + rest)| == |s|
    ensures
      var end := i + |SpellingText(w.spelling)| + |GapsText(w.gaps)|;
      Tokens(s, i) == [Meaning(w.spelling)] + Tokens(s, end) && At(s, end, rest)
  {
    hide Lexeme, Tokens, At, SpellingText, GoodSpelling, GoodComment, GapsText, Meaning, GoodGaps, Reads, Stops;
    var text, gaps := SpellingText(w.spelling), GapsText(w.gaps);
    AtSplit(s, i, text, gaps + rest);
    if gaps + rest != "" { AtChar(s, i + |text|, gaps + rest, 0); }
    assert Stands(s, i, w.spelling);
    ReadSpelling(s, i, w.spelling);
    Emits(s, i, w.spelling);
    AtSplit(s, i + |text|, gaps, rest);
    ReadGaps(s, i + |text|, w.gaps);
  }

  lemma MeaningsCons(words: seq<Word>)
    ensures Meanings(words) == if words == [] then [] else [Meaning(words[0].spelling)] + Meanings(words[1..])
  {
  }

  lemma {:induction false} ReadWords(s: string, i: nat, words: seq<Word>, tail: string)
    requires GoodWords(words, tail) && At(s, i, Script(words, tail)) && i + |Script(words, tail)| == |s|
    ensures Tokens(s, i) == Meanings(words)
    decreases |words|
  {
    hide Tokens, Meaning, Meanings, At, SpellingText, GapsText, GoodSpelling, GoodGaps, StopsBefore, GoodTail;
    MeaningsCons(words);
    if words == [] {
      ReadTail(s, i, tail);
    } else {
      var text, gaps, rest := SpellingText(words[0].spelling), GapsText(words[0].gaps), Script(words[1..], tail);
      assert Script(words, tail) == text + (gaps + rest);
      ReadWord(s, i, words[0], rest);
      ReadWords(s, i + |text| + |gaps|, words[1..], tail);
    }
  }

  lemma ReadTail(s: string, i: nat, tail: string)
    requires GoodTail(tail) && At(s, i, tail) && i + |tail| == |s|
    ensures Tokens(s, i) == []
  {
    hide Tokens, At;
    AtWhole(s);
    if tail != "" {
      assert tail == "--" + tail[2..];
      AtSplit(s, i, "--", tail[2..]);
      AtChar(s, i, "--", 0);
      forall k | i + 2 <= k < |s|
        ensures NotNewline(s[k])
      {
        AtChar(s, i, tail, k - i);
      }
      SpanIs(s, i + 2, |s|, NotNewline);
      Skipped(s, i, |s|);
    }
  }

  lemma AtWhole(s: string)
    ensures At(s, 0, s) && Tokens(s, |s|) == []
  {
  }

  /** Reading a written script gives back exactly the tokens spelled. */
  lemma RoundTrip(lead: seq<Gap>, words: seq<Word>, tail: string)
    requires GoodGaps(lead) && GoodWords(words, tail)
    ensures Tokens(GapsText(lead) + Script(words, tail), 0) == Meanings(words)
  {
    hide GapsText, Script, GoodWords, GoodGaps, Meanings, At, Tokens;
    var s := GapsText(lead) + Script(words, tail);
    AtWhole(s);
    AtSplit(s, 0, GapsText(lead), Script(words, tail));
    ReadGaps(s, 0, lead);
    ReadWords(s, |GapsText(lead)|, words, tail);
  }

  /** The tokens there are. */
  predicate IsToken(t: Token) {
    match t
    case Ident(text, quoted) => quoted || (GoodSpelling(Name(text)) && LowerAll(text) == text)
    case Literal(_) => true
    case Number(text) => text == "$" || GoodSpelling(Numeral(text))
    case Punct(text) => |text| == 1 && GoodMark(text[0])
  }

  lemma LexemeIsToken(s: string, i: nat)
    requires i < |s| && Lexeme(s, i).token.Some?
    ensures IsToken(Lexeme(s, i).token.value)
  {
    hide Find, BlockEnd, Quoted, At;
    var t := Lexeme(s, i).token.value;
    if t.Ident? && !t.quoted {
      assert t.text == LowerAll(s[i..Span(s, i + 1, IsIdentChar)]);
    }
  }

  lemma {:induction false} TokensAreTokens(s: string, i: nat)
    requires i <= |s|
    ensures forall t :: t in Tokens(s, i) ==> IsToken(t)
    decreases |s| - i
  {
    hide Lexeme, IsToken;
    if i < |s| {
      if Lexeme(s, i).token.Some? { LexemeIsToken(s, i); }
      TokensAreTokens(s, Lexeme(s, i).next);
    }
  }

  function Spell(t: Token): Spelling
    requires IsToken(t)
  {
    match t
    case Ident(text, quoted) => if quoted then QuotedName(text) else Name(text)
    case Literal(text) => Plain(text)
    case Number(text) => if text == "$" then Parameter("1") else Numeral(text)
    case Punct(text) => Mark(text[0])
  }

  /** Tokens printed one by one with a space after each. */
  function Printed(ts: seq<Token>): seq<Word>
    requires forall t :: t in ts ==> IsToken(t)
  {
    seq(|ts|, i requires 0 <= i < |ts| => Word(Spell(ts[i]), [Space(' ')]))
  }

  lemma SpellMeans(t: Token)
    requires IsToken(t)
    ensures GoodSpelling(Spell(t)) && Meaning(Spell(t)) == t
  {
  }

  lemma {:induction false} PrintedIsGood(ts: seq<Token>)
    requires forall t :: t in ts ==> IsToken(t)
    ensures GoodWords(Printed(ts), "") && Meanings(Printed(ts)) == ts
    decreases |ts|
  {
    hide IsToken, Spell, GoodSpelling, Meaning, SpellingText, Stops;
    MeaningsCons(Printed(ts));
    if ts != [] {
      var t := ts[0];
      SpellMeans(t);
      PrintedIsGood(ts[1..]);
      assert Printed(ts)[1..] == Printed(ts[1..]);
      assert GapsText([Space(' ')])[0] == ' ';
      SpaceStops(Spell(t), ' ');
    }
  }

  /** For every text whatever, printing its tokens and reading them again gives the same tokens. */
  lemma Reprint(src: string)
    ensures forall t :: t in Tokens(src, 0) ==> IsToken(t)
    ensures Tokens(Script(Printed(Tokens(src, 0)), ""), 0) == Tokens(src, 0)
  {
    hide Script, Tokens, IsToken, Spell, GoodWords, Meanings, Printed;
    TokensAreTokens(src, 0);
    var ts := Tokens(src, 0);
    PrintedIsGood(ts);
    RoundTrip([], Printed(ts), "");
    assert GapsText([]) + Script(Printed(ts), "") == Script(Printed(ts), "");
  }
}
