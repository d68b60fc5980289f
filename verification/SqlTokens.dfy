/**
 The tokenizer of module migrations. Text is a sequence of bytes, one char each. `Lexeme` says what is read at an
 index and `Tokens` iterates it; `Tokenize` is the loop over indices, proved to compute `Tokens`.
 */
module SqlTokens {
  import opened Options

  /** A quoted identifier keeps its text verbatim and is never a keyword. */
  datatype Token =
    | Ident(text: string, quoted: bool)
    | Literal(text: string)
    | Number(text: string)
    | Punct(text: string)

  predicate IsSpace(c: char) {
    c == ' ' || c == '\t' || c == '\n' || c == '\r'
  }

  predicate IsDigit(c: char) {
    '0' <= c <= '9'
  }

  predicate IsIdentStart(c: char) {
    c == '_' || 'a' <= c <= 'z' || 'A' <= c <= 'Z' || c as int >= 0x80
  }

  predicate IsIdentChar(c: char) {
    IsIdentStart(c) || IsDigit(c) || c == '$'
  }

  predicate IsTagChar(c: char) {
    IsIdentChar(c) && c != '$'
  }

  predicate IsNumberChar(c: char) {
    IsIdentChar(c) || c == '.'
  }

  predicate IsParameterChar(c: char) {
    c == '$' || IsDigit(c)
  }

  predicate NotNewline(c: char) {
    c != '\n'
  }

  function Lower(c: char): char {
    if 'A' <= c <= 'Z' then (c as int + 32) as char else c
  }

  function LowerAll(s: string): string {
    seq(|s|, i requires 0 <= i < |s| => Lower(s[i]))
  }

  /** w stands at index i of s. */
  predicate At(s: string, i: nat, w: string) {
    i + |w| <= |s| && s[i..i + |w|] == w
  }

  // ---- what is read at an index ---------------------------------------------------------------------------

  /** The first index from i on whose char fails p, or the end. */
  function Span(s: string, i: nat, p: char -> bool): (j: nat)
    requires i <= |s|
    ensures i <= j <= |s| && (forall k :: i <= k < j ==> p(s[k])) && (j < |s| ==> !p(s[j]))
    decreases |s| - i
  {
    if i < |s| && p(s[i]) then Span(s, i + 1, p) else i
  }

  /** The index past a block comment, comments nested `depth` deep being open at i. */
  function BlockEnd(s: string, i: nat, depth: int): (j: nat)
    requires i <= |s|
    ensures i <= j <= |s|
    decreases |s| - i
  {
    if i == |s| then i
    else if At(s, i, "/*") then BlockEnd(s, i + 2, depth + 1)
    else if At(s, i, "*/") then (if depth == 1 then i + 2 else BlockEnd(s, i + 2, depth - 1))
    else BlockEnd(s, i + 1, depth)
  }

  /** The text from i to the closing quote, a doubled quote standing for one, and the index past the quote. */
  function Quoted(s: string, i: nat, quote: char, escaped: bool): (r: (string, nat))
    requires i <= |s|
    ensures i <= r.1 <= |s|
    decreases |s| - i
  {
    if i == |s| then ("", i)
    else if escaped && s[i] == '\\' && i + 1 < |s| then
      var rest := Quoted(s, i + 2, quote, escaped);
      ([s[i + 1]] + rest.0, rest.1)
    else if s[i] == quote then
      if i + 1 < |s| && s[i + 1] == quote then
        var rest := Quoted(s, i + 2, quote, escaped);
        ([quote] + rest.0, rest.1)
      else ("", i + 1)
    else
      var rest := Quoted(s, i + 1, quote, escaped);
      ([s[i]] + rest.0, rest.1)
  }

  /** The first index from i on where w stands. */
  function Find(s: string, i: nat, w: string): (r: Option<nat>)
    requires i <= |s|
    ensures r.Some? ==> i <= r.value && At(s, r.value, w) && forall k :: i <= k < r.value ==> !At(s, k, w)
    ensures r.None? ==> forall k :: i <= k <= |s| ==> !At(s, k, w)
    decreases |s| - i
  {
    if At(s, i, w) then Some(i)
    else if i == |s| then None
    else Find(s, i + 1, w)
  }

  datatype Lexed = Lexed(token: Option<Token>, next: nat)

  predicate OpensString(s: string, i: nat)
    requires i < |s|
  {
    s[i] == '\'' || ((s[i] == 'e' || s[i] == 'E') && i + 1 < |s| && s[i + 1] == '\'')
  }

  predicate OpensDollarQuote(s: string, i: nat, j: nat)
    requires i < |s| && i < j
  {
    j < |s| && s[j] == '$' && (j == i + 1 || IsIdentStart(s[i + 1]))
  }

  function Dollar(s: string, i: nat): (r: Lexed)
    requires i < |s| && s[i] == '$'
    ensures i < r.next <= |s|
  {
    var j := Span(s, i + 1, IsTagChar);
    if OpensDollarQuote(s, i, j) then
      var tag := s[i..j + 1];
      match Find(s, j + 1, tag)
      case None => Lexed(Some(Literal(s[j + 1..])), |s|)
      case Some(end) => Lexed(Some(Literal(s[j + 1..end])), end + |tag|)
    else if i + 1 < |s| && IsDigit(s[i + 1]) then Lexed(Some(Number("$")), Span(s, i + 1, IsParameterChar))
    else Lexed(Some(Punct("$")), i + 1)
  }

  function Lexeme(s: string, i: nat): (r: Lexed)
    requires i < |s|
    ensures i < r.next <= |s|
  {
    var c := s[i];
    if IsSpace(c) then Lexed(None, i + 1)
    else if At(s, i, "--") then Lexed(None, Span(s, i + 2, NotNewline))
    else if At(s, i, "/*") then Lexed(None, BlockEnd(s, i + 2, 1))
    else if OpensString(s, i) then
      var escaped := c != '\'';
      var body := Quoted(s, if escaped then i + 2 else i + 1, '\'', escaped);
      Lexed(Some(Literal(body.0)), body.1)
    else if c == '"' then
      var body := Quoted(s, i + 1, '"', false);
      Lexed(Some(Ident(body.0, true)), body.1)
    else if c == '$' then Dollar(s, i)
    else if IsIdentStart(c) then
      var j := Span(s, i + 1, IsIdentChar);
      Lexed(Some(Ident(LowerAll(s[i..j]), false)), j)
    else if IsDigit(c) then
      var j := Span(s, i + 1, IsNumberChar);
      Lexed(Some(Number(s[i..j])), j)
    else Lexed(Some(Punct([c])), i + 1)
  }

  function Emitted(token: Option<Token>): seq<Token> {
    if token.Some? then [token.value] else []
  }

  function Tokens(s: string, i: nat): seq<Token>
    requires i <= |s|
    decreases |s| - i
  {
    if i == |s| then [] else Emitted(Lexeme(s, i).token) + Tokens(s, Lexeme(s, i).next)
  }

  // ---- the loops --------------------------------------------------------------------------------------------

  method SkipWhile(s: string, i: nat, p: char -> bool) returns (j: nat)
    requires i <= |s|
    ensures j == Span(s, i, p)
  {
    j := i;
    while j < |s| && p(s[j])
      invariant i <= j <= |s| && Span(s, j, p) == Span(s, i, p)
    {
      j := j + 1;
    }
  }

  method SkipBlockComment(s: string, i: nat) returns (j: nat)
    requires At(s, i, "/*")
    ensures j == BlockEnd(s, i + 2, 1)
  {
    j := i;
    var depth := 0;
    while j < |s|
      invariant i <= j <= |s| && BlockEnd(s, j, depth) == BlockEnd(s, i, 0)
    {
      if At(s, j, "/*") {
        depth := depth + 1;
        j := j + 2;
      } else if At(s, j, "*/") {
        depth := depth - 1;
        j := j + 2;
        if depth == 0 { break; }
      } else {
        j := j + 1;
      }
    }
  }

  /** One step of reading quoted text. */
  lemma QuotedStep(s: string, i: nat, quote: char, escaped: bool)
    requires i < |s|
    ensures i + QuoteStep(s, i, quote, escaped) <= |s|
    ensures QuoteStep(s, i, quote, escaped) == 0 ==> Quoted(s, i, quote, escaped) == ("", i + 1)
    ensures QuoteStep(s, i, quote, escaped) > 0 ==>
      var rest := Quoted(s, i + QuoteStep(s, i, quote, escaped), quote, escaped);
      Quoted(s, i, quote, escaped) == ([QuotedChar(s, i, quote, escaped)] + rest.0, rest.1)
  {
  }

  /** How far the char at i goes, 0 for the closing quote. */
  function QuoteStep(s: string, i: nat, quote: char, escaped: bool): nat
    requires i < |s|
  {
    if escaped && s[i] == '\\' && i + 1 < |s| then 2
    else if s[i] == quote then (if i + 1 < |s| && s[i + 1] == quote then 2 else 0)
    else 1
  }

  function QuotedChar(s: string, i: nat, quote: char, escaped: bool): char
    requires i < |s|
  {
    if escaped && s[i] == '\\' && i + 1 < |s| then s[i + 1] else s[i]
  }

  method ReadQuoted(s: string, i: nat, quote: char, escaped: bool) returns (text: string, next: nat)
    requires i <= |s|
    ensures (text, next) == Quoted(s, i, quote, escaped)
  {
    text, next := "", i;
    while next < |s|
      invariant i <= next <= |s|
      invariant Continues(text, Quoted(s, next, quote, escaped), Quoted(s, i, quote, escaped))
    {
      hide Quoted, Continues;
      QuotedStep(s, next, quote, escaped);
      ContinuesStep(text, QuotedChar(s, next, quote, escaped), Quoted(s, next, quote, escaped),
        Quoted(s, i, quote, escaped));
      if escaped && s[next] == '\\' && next + 1 < |s| {
        text, next := text + [s[next + 1]], next + 2;
        continue;
      }
      if s[next] == quote {
        if next + 1 < |s| && s[next + 1] == quote {
          text, next := text + [quote], next + 2;
          continue;
        }
        next := next + 1;
        return;
      }
      text, next := text + [s[next]], next + 1;
    }
    assert text + "" == text;
  }

  /** Reading `rest` after `text` gives `whole`. */
  predicate Continues(text: string, rest: (string, nat), whole: (string, nat)) {
    text + rest.0 == whole.0 && rest.1 == whole.1
  }

  lemma ContinuesStep(text: string, c: char, rest: (string, nat), whole: (string, nat))
    requires Continues(text, rest, whole)
    ensures forall tail: string, n: nat {:trigger Continues(text + [c], (tail, n), whole)} ::
      rest == ([c] + tail, n) ==> Continues(text + [c], (tail, n), whole)
    ensures rest.0 == "" ==> whole == (text, rest.1)
  {
    forall tail: string
      ensures text + ([c] + tail) == text + [c] + tail
    {
    }
    assert text + "" == text;
  }

  method ReadDollar(s: string, i: nat) returns (r: Lexed)
    requires i < |s| && s[i] == '$'
    ensures r == Dollar(s, i)
  {
    var j := SkipWhile(s, i + 1, IsTagChar);
    if OpensDollarQuote(s, i, j) {
      var tag := s[i..j + 1];
      var end := Find(s, j + 1, tag);
      if end.None? {
        return Lexed(Some(Literal(s[j + 1..])), |s|);
      }
      return Lexed(Some(Literal(s[j + 1..end.value])), end.value + |tag|);
    }
    if i + 1 < |s| && IsDigit(s[i + 1]) {
      var k := SkipWhile(s, i, IsParameterChar);
      return Lexed(Some(Number("$")), k);
    }
    return Lexed(Some(Punct("$")), i + 1);
  }

  /** The switch on the char at i. */
  method Read(src: string, i: nat) returns (r: Lexed)
    requires i < |src|
    ensures r == Lexeme(src, i)
  {
    var c := src[i];
    if IsSpace(c) {
      return Lexed(None, i + 1);
    } else if At(src, i, "--") {
      var j := SkipWhile(src, i, NotNewline);
      assert Span(src, i, NotNewline) == Span(src, i + 1, NotNewline);
      return Lexed(None, j);
    } else if At(src, i, "/*") {
      var j := SkipBlockComment(src, i);
      return Lexed(None, j);
    } else if OpensString(src, i) {
      var escaped := c != '\'';
      var text, next := ReadQuoted(src, if escaped then i + 2 else i + 1, '\'', escaped);
      return Lexed(Some(Literal(text)), next);
    } else if c == '"' {
      var text, next := ReadQuoted(src, i + 1, '"', false);
      return Lexed(Some(Ident(text, true)), next);
    } else if c == '$' {
      r := ReadDollar(src, i);
    } else if IsIdentStart(c) {
      var j := SkipWhile(src, i, IsIdentChar);
      return Lexed(Some(Ident(LowerAll(src[i..j]), false)), j);
    } else if IsDigit(c) {
      var j := SkipWhile(src, i, IsNumberChar);
      return Lexed(Some(Number(src[i..j])), j);
    } else {
      return Lexed(Some(Punct([c])), i + 1);
    }
  }

  method Tokenize(src: string) returns (out: seq<Token>)
    ensures out == Tokens(src, 0)
  {
    hide Lexeme;
    out := [];
    var i := 0;
    while i < |src|
      invariant 0 <= i <= |src|
      invariant out + Tokens(src, i) == Tokens(src, 0)
    {
      var r := Read(src, i);
      out, i := out + Emitted(r.token), r.next;
    }
  }
}
