/**
 Mounting the login server under /auth: the proxy strips the prefix from request paths, puts it on cookie paths and
 splices it into root-relative links. Text is a sequence of bytes, one char each.
 */
module AuthCookie {

  // ---- splitting and trimming ---------------------------------------------------------------------------------

  function Parts(s: string): (r: seq<string>)
    ensures |r| >= 1
  {
    if s == "" then [""]
    else
      var rest := Parts(s[1..]);
      if s[0] == ';' then [""] + rest else [[s[0]] + rest[0]] + rest[1..]
  }

  function Join(parts: seq<string>): string
    requires |parts| >= 1
  {
    if |parts| == 1 then parts[0] else parts[0] + ";" + Join(parts[1..])
  }

  predicate IsSpace(c: char) {
    c == ' ' || 9 <= c as int <= 13
  }

  function TrimLeft(s: string): (r: string)
    ensures r == "" || !IsSpace(r[0])
    ensures |r| <= |s| && r == s[|s| - |r|..] && forall k :: 0 <= k < |s| - |r| ==> IsSpace(s[k])
  {
    if s != "" && IsSpace(s[0]) then TrimLeft(s[1..]) else s
  }

  function TrimRight(s: string): (r: string)
    ensures r == "" || !IsSpace(r[|r| - 1])
    ensures r <= s && forall k :: |r| <= k < |s| ==> IsSpace(s[k])
  {
    if s != "" && IsSpace(s[|s| - 1]) then TrimRight(s[..|s| - 1]) else s
  }

  function Trim(s: string): string {
    TrimRight(TrimLeft(s))
  }

  function Lower(c: char): char {
    if 'A' <= c <= 'Z' then (c as int + 32) as char else c
  }

  predicate EqualFold(a: string, b: string) {
    |a| == |b| && forall i :: 0 <= i < |a| ==> Lower(a[i]) == Lower(b[i])
  }

  predicate NoSemicolon(parts: seq<string>) {
    forall i :: 0 <= i < |parts| ==> ';' !in parts[i]
  }

  lemma {:induction false} JoinParts(s: string)
    ensures Join(Parts(s)) == s && NoSemicolon(Parts(s))
    decreases |s|
  {
    if s != "" {
      var rest := Parts(s[1..]);
      JoinParts(s[1..]);
      if s[0] == ';' {
        assert ([""] + rest)[1..] == rest;
      } else {
        var parts := [[s[0]] + rest[0]] + rest[1..];
        assert parts[1..] == rest[1..];
        assert Join(parts) == [s[0]] + Join(rest);
      }
    }
  }

  lemma {:induction false} PartsNone(p: string)
    requires ';' !in p
    ensures Parts(p) == [p]
    decreases |p|
  {
    if p != "" {
      PartsNone(p[1..]);
      assert p == [p[0]] + p[1..];
    }
  }

  lemma {:induction false} PartsOfTwo(a: string, b: string)
    requires ';' !in a
    ensures Parts(a + ";" + b) == [a] + Parts(b)
    decreases |a|
  {
    var s := a + ";" + b;
    if a == "" {
      assert s[1..] == b;
    } else {
      assert s[1..] == a[1..] + ";" + b;
      PartsOfTwo(a[1..], b);
      assert a == [a[0]] + a[1..];
    }
  }

  lemma {:induction false} PartsJoin(parts: seq<string>)
    requires |parts| >= 1 && NoSemicolon(parts)
    ensures Parts(Join(parts)) == parts
    decreases |parts|
  {
    if |parts| == 1 {
      PartsNone(parts[0]);
    } else {
      PartsJoin(parts[1..]);
      PartsOfTwo(parts[0], Join(parts[1..]));
      assert parts == [parts[0]] + parts[1..];
    }
  }

  lemma {:induction false} PartsSnoc(s: string, p: string)
    requires ';' !in p
    ensures Parts(s + ";" + p) == Parts(s) + [p]
    decreases |s|
  {
    var all := s + ";" + p;
    if s == "" {
      assert all[1..] == p;
      PartsNone(p);
    } else {
      assert all[1..] == s[1..] + ";" + p;
      PartsSnoc(s[1..], p);
      assert all[0] == s[0];
    }
  }

  // ---- the cookie path ----------------------------------------------------------------------------------------

  predicate IsPath(p: string) {
    var trimmed := Trim(p);
    |trimmed| >= 5 && EqualFold(trimmed[..5], "path=")
  }

  function PathOf(p: string): string
    requires IsPath(p)
  {
    Trim(p)[5..]
  }

  function Mounted(path: string): string {
    if path == "/" then "/auth/" else "/auth" + path
  }

  function PathPart(value: string): string {
    " Path=" + value
  }

  function FirstPath(parts: seq<string>, i: nat): (j: nat)
    requires i <= |parts|
    ensures i <= j <= |parts| && (j < |parts| ==> IsPath(parts[j]))
    decreases |parts| - i
  {
    if i < |parts| && !IsPath(parts[i]) then FirstPath(parts, i + 1) else i
  }

  lemma {:induction false} FirstPathIsFirst(parts: seq<string>, i: nat)
    requires i <= |parts|
    ensures forall k :: i <= k < FirstPath(parts, i) ==> !IsPath(parts[k])
    decreases |parts| - i
  {
    hide IsPath;
    if i < |parts| && !IsPath(parts[i]) { FirstPathIsFirst(parts, i + 1); }
  }

  function Prefixed(setCookie: string): string {
    var parts := Parts(setCookie);
    var i := FirstPath(parts, 0);
    if i == |parts| then setCookie + ";" + PathPart("/auth/")
    else if "/auth" <= PathOf(parts[i]) then setCookie
    else Join(parts[i := PathPart(Mounted(PathOf(parts[i])))])
  }

  method PrefixCookiePath(setCookie: string) returns (r: string)
    ensures r == Prefixed(setCookie)
  {
    hide Trim, EqualFold, Join, Parts, PathPart;
    var parts := Parts(setCookie);
    for i := 0 to |parts|
      invariant FirstPath(parts, i) == FirstPath(parts, 0)
    {
      var trimmed := Trim(parts[i]);
      if |trimmed| < 5 || !EqualFold(trimmed[..5], "path=") {
        continue;
      }
      var path := trimmed[5..];
      if "/auth" <= path {
        return setCookie;
      }
      if path == "/" {
        path := "/auth/";
      } else {
        path := "/auth" + path;
      }
      return Join(parts[i := PathPart(path)]);
    }
    return setCookie + ";" + PathPart("/auth/");
  }

  lemma TrimBetween(lead: string, core: string)
    requires (forall k :: 0 <= k < |lead| ==> IsSpace(lead[k])) && core != "" && !IsSpace(core[0]) &&
      !IsSpace(core[|core| - 1])
    ensures Trim(lead + core) == core
  {
    var s := lead + core;
    var left := TrimLeft(s);
    assert s[|lead|] == core[0] && s[|s| - 1] == core[|core| - 1];
    assert |left| == |core|;
    assert left == s[|lead|..] == core;
    assert core[|core| - 1] == left[|left| - 1];
  }

  /** The value a Path part is rewritten to is read back as written. */
  lemma ReadPath(value: string)
    requires value != "" && !IsSpace(value[|value| - 1])
    ensures IsPath(PathPart(value)) && PathOf(PathPart(value)) == value
  {
    hide Trim;
    var core := "Path=" + value;
    assert PathPart(value) == " " + core;
    TrimBetween(" ", core);
    PathWord();
    assert core[..5] == "Path=" && core[5..] == value;
  }

  lemma PathWord()
    ensures EqualFold("Path=", "path=")
  {
  }

  lemma MountedIsPath(p: string)
    requires IsPath(p)
    ensures var value := Mounted(PathOf(p)); "/auth" <= value && !IsSpace(value[|value| - 1])
  {
    var trimmed := Trim(p);
    assert !IsSpace(trimmed[|trimmed| - 1]);
  }

  lemma TrimKeeps(p: string, c: char)
    requires c !in p
    ensures c !in Trim(p)
  {
  }

  function Rewritten(parts: seq<string>): seq<string> {
    var i := FirstPath(parts, 0);
    if i == |parts| then parts + [PathPart("/auth/")]
    else if "/auth" <= PathOf(parts[i]) then parts
    else parts[i := PathPart(Mounted(PathOf(parts[i])))]
  }

  lemma MountedNoSemicolon(p: string)
    requires IsPath(p) && ';' !in p
    ensures ';' !in PathPart(Mounted(PathOf(p)))
  {
    hide Trim;
    TrimKeeps(p, ';');
  }

  /** What a rewrite does to the parts: the first Path part becomes the mounted path, or one is added; every other
      part is kept byte for byte. */
  lemma PrefixedParts(s: string)
    ensures Parts(Prefixed(s)) == Rewritten(Parts(s))
    ensures |Parts(s)| <= |Parts(Prefixed(s))|
    ensures forall k :: 0 <= k < |Parts(s)| && k != FirstPath(Parts(s), 0) ==> Parts(Prefixed(s))[k] == Parts(s)[k]
  {
    hide IsPath, PathOf, Mounted, Join, Parts, PathPart;
    var parts := Parts(s);
    var i := FirstPath(parts, 0);
    JoinParts(s);
    if i == |parts| {
      AddedNoSemicolon();
      PartsSnoc(s, PathPart("/auth/"));
    } else {
      MountedNoSemicolon(parts[i]);
      PartsJoin(parts[i := PathPart(Mounted(PathOf(parts[i])))]);
    }
  }

  lemma AddedNoSemicolon()
    ensures ';' !in PathPart("/auth/")
  {
  }

  lemma FirstPathIs(parts: seq<string>, i: nat)
    requires i < |parts| && IsPath(parts[i]) && forall k :: 0 <= k < i ==> !IsPath(parts[k])
    ensures FirstPath(parts, 0) == i
  {
    hide IsPath;
    FirstPathIsFirst(parts, 0);
  }

  lemma AddedIsMounted()
    ensures "/auth" <= "/auth/" && !IsSpace("/auth/"[5]) && |"/auth/"| == 6
  {
  }

  /** A second pass changes nothing, whatever the string. */
  lemma PrefixedTwice(s: string)
    ensures Prefixed(Prefixed(s)) == Prefixed(s)
  {
    hide IsPath, PathOf, Mounted, Join, Parts, PathPart;
    var parts := Parts(s);
    var i := FirstPath(parts, 0);
    FirstPathIsFirst(parts, 0);
    PrefixedParts(s);
    if i == |parts| {
      AddedIsMounted();
      ReadPath("/auth/");
      FirstPathIs(Parts(Prefixed(s)), i);
    } else if !("/auth" <= PathOf(parts[i])) {
      MountedIsPath(parts[i]);
      ReadPath(Mounted(PathOf(parts[i])));
      FirstPathIs(Parts(Prefixed(s)), i);
    }
  }
}
