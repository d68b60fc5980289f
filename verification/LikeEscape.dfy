/** The member directory's substring filter: a user's text becomes an ILIKE pattern with its wildcards escaped. */
module LikeEscape {
  import opened Options

  predicate IsMeta(c: char) {
    c == '\\' || c == '%' || c == '_'
  }

  /** What the replacer makes of a text. */
  function Escape(q: string): string {
    if q == "" then "" else (if IsMeta(q[0]) then ['\\', q[0]] else [q[0]]) + Escape(q[1..])
  }

  /** LIKE with ESCAPE '\': % is any run of chars, _ any one, and an escaped char only itself. */
  predicate Like(p: string, t: string)
    decreases |p|, |t|
  {
    if p == "" then t == ""
    else if p[0] == '\\' then |p| > 1 && t != "" && t[0] == p[1] && Like(p[2..], t[1..])
    else if p[0] == '%' then Like(p[1..], t) || (t != "" && Like(p, t[1..]))
    else t != "" && (p[0] == '_' || t[0] == p[0]) && Like(p[1..], t[1..])
  }

  /** The case folding of ILIKE is taken one char at a time, and leaves the three special chars to themselves. */
  ghost predicate IsFold(fold: char -> char) {
    forall c :: (IsMeta(c) ==> fold(c) == c) && (IsMeta(fold(c)) ==> IsMeta(c))
  }

  function Folded(s: string, fold: char -> char): string {
    if s == "" then "" else [fold(s[0])] + Folded(s[1..], fold)
  }

  predicate ILike(p: string, t: string, fold: char -> char) {
    Like(Folded(p, fold), Folded(t, fold))
  }

  /** q occurs in t as a literal substring. */
  ghost predicate Occurs(q: string, t: string) {
    exists k :: 0 <= k <= |t| && q <= t[k..]
  }

  /** An escaped text matches itself and nothing else. */
  lemma {:induction false} EscapedMatchesItself(q: string, rest: string, t: string)
    ensures Like(Escape(q) + rest, t) <==> q <= t && Like(rest, t[|q|..])
    decreases |q|
  {
    if q == "" {
      assert Escape(q) + rest == rest && t[0..] == t;
    } else {
      var first := if IsMeta(q[0]) then ['\\', q[0]] else [q[0]];
      assert Escape(q) + rest == first + (Escape(q[1..]) + rest);
      assert (first + (Escape(q[1..]) + rest))[|first|..] == Escape(q[1..]) + rest;
      if t != "" {
        EscapedMatchesItself(q[1..], rest, t[1..]);
        assert q == [q[0]] + q[1..] && t == [t[0]] + t[1..];
        assert q <= t <==> q[0] == t[0] && q[1..] <= t[1..];
        if q <= t { assert t[|q|..] == t[1..][|q[1..]|..]; }
      }
    }
  }

  lemma {:induction false} PercentSkips(p: string, t: string)
    ensures Like("%" + p, t) <==> exists k :: 0 <= k <= |t| && Like(p, t[k..])
    decreases |t|
  {
    assert ("%" + p)[1..] == p && t[0..] == t;
    if t != "" {
      PercentSkips(p, t[1..]);
      forall k | 0 < k <= |t|
        ensures t[k..] == t[1..][k - 1..]
      {
      }
      if k :| 0 <= k <= |t| && Like(p, t[k..]) {
        if k > 0 { assert Like(p, t[1..][k - 1..]); }
      }
      if Like("%" + p, t[1..]) {
        var k :| 0 <= k <= |t[1..]| && Like(p, t[1..][k..]);
        assert t[1..][k..] == t[k + 1..];
      }
    }
  }

  lemma {:induction false} PercentMatchesAll(t: string)
    ensures Like("%", t)
    decreases |t|
  {
    if t != "" { PercentMatchesAll(t[1..]); }
  }

  /** The pattern finds exactly the literal occurrences. */
  lemma LiteralSubstring(q: string, t: string)
    ensures Like("%" + Escape(q) + "%", t) <==> Occurs(q, t)
  {
    assert "%" + Escape(q) + "%" == "%" + (Escape(q) + "%");
    PercentSkips(Escape(q) + "%", t);
    forall k | 0 <= k <= |t|
      ensures Like(Escape(q) + "%", t[k..]) <==> q <= t[k..]
    {
      EscapedMatchesItself(q, "%", t[k..]);
      if q <= t[k..] { PercentMatchesAll(t[k..][|q|..]); }
    }
  }

  lemma {:induction false} FoldedConcat(a: string, b: string, fold: char -> char)
    ensures Folded(a + b, fold) == Folded(a, fold) + Folded(b, fold)
    decreases |a|
  {
    if a == "" {
      assert a + b == b;
    } else {
      assert (a + b)[1..] == a[1..] + b;
      FoldedConcat(a[1..], b, fold);
    }
  }

  lemma {:induction false} FoldedEscape(q: string, fold: char -> char)
    requires IsFold(fold)
    ensures Folded(Escape(q), fold) == Escape(Folded(q, fold))
    decreases |q|
  {
    if q != "" {
      var first := if IsMeta(q[0]) then ['\\', q[0]] else [q[0]];
      FoldedEscape(q[1..], fold);
      FoldedConcat(first, Escape(q[1..]), fold);
      assert IsMeta('\\') && fold('\\') == '\\';
      assert Folded(first, fold) == if IsMeta(q[0]) then ['\\', fold(q[0])] else [fold(q[0])];
      assert Folded(q, fold)[1..] == Folded(q[1..], fold);
    }
  }

  /** For every query and text: the pattern built from q matches the text exactly when q occurs in it up to case. */
  lemma EscapedSearch(q: string, t: string, fold: char -> char)
    requires IsFold(fold)
    ensures ILike("%" + Escape(q) + "%", t, fold) <==> Occurs(Folded(q, fold), Folded(t, fold))
  {
    FoldedConcat("%" + Escape(q), "%", fold);
    FoldedConcat("%", Escape(q), fold);
    FoldedEscape(q, fold);
    assert IsMeta('%') && Folded("%", fold) == "%";
    LiteralSubstring(Folded(q, fold), Folded(t, fold));
  }

  // ---- the directory -----------------------------------------------------------------------------------------

  datatype Member = Member(displayName: string, email: Option<string>)

  /** The WHERE clause: an empty query passes no pattern; a missing email never matches. */
  predicate Selected(m: Member, q: string, fold: char -> char) {
    var pattern := "%" + Escape(q) + "%";
    q == "" || ILike(pattern, m.displayName, fold) || (m.email.Some? && ILike(pattern, m.email.value, fold))
  }

  /** A member is listed exactly when the query occurs, up to case, in the name or in the email. */
  lemma DirectorySearch(m: Member, q: string, fold: char -> char)
    requires IsFold(fold)
    ensures
      Selected(m, q, fold) <==>
        || Occurs(Folded(q, fold), Folded(m.displayName, fold))
        || (m.email.Some? && Occurs(Folded(q, fold), Folded(m.email.value, fold)))
  {
    EscapedSearch(q, m.displayName, fold);
    if m.email.Some? { EscapedSearch(q, m.email.value, fold); }
    if q == "" {
      var name := Folded(m.displayName, fold);
      assert Folded(q, fold) <= name[0..];
    }
  }
}
