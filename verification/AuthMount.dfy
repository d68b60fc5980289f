/** Why the mount is transparent: which requests a browser sends a cookie with, before and after the rewrite. */
module AuthMount {
  import opened AuthCookie

  // ---- request paths ------------------------------------------------------------------------------------------

  /** Section 5.1.4 of RFC 6265: the cookie path matches the request path. */
  predicate PathMatch(cookie: string, request: string) {
    || cookie == request
    || (cookie <= request && cookie != "" && cookie[|cookie| - 1] == '/')
    || (cookie <= request && |cookie| < |request| && request[|cookie|] == '/')
  }

  predicate Rooted(path: string) {
    path != "" && path[0] == '/'
  }

  /** The path sent upstream. */
  function Strip(path: string): string {
    var rest := if "/auth" <= path then path[5..] else path;
    if rest == "" then "/" else rest
  }

  /** Stripping undoes the mount. */
  lemma StripMounted(r: string)
    requires Rooted(r)
    ensures Strip("/auth" + r) == r && Strip("/auth") == "/"
    ensures !("/auth" <= r) ==> Strip(r) == r
  {
    assert ("/auth" + r)[5..] == r;
  }

  /** The path prefixCookiePath gives a cookie of path p. */
  function RewrittenPath(p: string): string {
    if "/auth" <= p then p else Mounted(p)
  }

  ghost predicate MatchesTheSame(p: string, r: string) {
    PathMatch(p, r) <==> PathMatch(RewrittenPath(p), "/auth" + r)
  }

  lemma MountPrefix(p: string, r: string)
    ensures "/auth" + p <= "/auth" + r <==> p <= r
    ensures forall k :: 0 <= k < |r| ==> ("/auth" + r)[k + 5] == r[k]
  {
    var m, n := "/auth" + p, "/auth" + r;
    assert m[5..] == p && n[5..] == r && m[..5] == n[..5];
    if m <= n {
      assert forall k :: 0 <= k < |p| ==> p[k] == m[k + 5] == n[k + 5] == r[k];
    }
  }

  lemma MountedMatches(p: string, r: string)
    requires Rooted(p) && Rooted(r) && !("/auth" <= p)
    ensures MatchesTheSame(p, r)
  {
    var n := "/auth" + r;
    if p == "/" {
      assert n[..6] == "/auth/";
    } else {
      var m := "/auth" + p;
      MountPrefix(p, r);
      MountPrefix(r, p);
      assert m[|m| - 1] == p[|p| - 1];
      assert m == n ==> m[5..] == n[5..];
    }
  }

  /** A request path on which a cookie path starting with /auth matches differently once mounted. */
  function Witness(p: string): string
    requires "/auth" <= p
  {
    var w := p[5..];
    if w == "" then "/" else if w[0] == '/' then w else p
  }

  lemma WitnessDiffers(p: string)
    requires "/auth" <= p
    ensures Rooted(Witness(p)) && !MatchesTheSame(p, Witness(p))
  {
    var w := p[5..];
    assert p == "/auth" + w;
    assert p[0] == '/';
    if w == "" {
      assert ("/auth" + "/")[5] == '/';
    } else if w[0] != '/' {
      var n := "/auth" + p;
      assert n[5] == p[0] && p[5] == w[0];
    }
  }

  /** The rewrite keeps which requests a cookie goes with exactly for the paths that do not start with /auth. */
  lemma MountKeepsMatching(p: string)
    requires Rooted(p)
    ensures (forall r :: Rooted(r) ==> MatchesTheSame(p, r)) <==> !("/auth" <= p)
  {
    if "/auth" <= p {
      WitnessDiffers(p);
    } else {
      forall r | Rooted(r)
        ensures MatchesTheSame(p, r)
      {
        MountedMatches(p, r);
      }
    }
  }

  // ---- what the browser stores --------------------------------------------------------------------------------

  /** The first index of '=', or the end. */
  function Equals(p: string): (i: nat)
    ensures i <= |p| && (forall k :: 0 <= k < i ==> p[k] != '=') && (i < |p| ==> p[i] == '=')
  {
    if p == "" || p[0] == '=' then 0 else Equals(p[1..]) + 1
  }

  /** Section 5.2 of RFC 6265: an attribute's name and value. */
  function AttributeName(p: string): string {
    Trim(p[..Equals(p)])
  }

  function AttributeValue(p: string): string {
    if Equals(p) == |p| then "" else Trim(p[Equals(p) + 1..])
  }

  predicate IsPathAttribute(p: string) {
    EqualFold(AttributeName(p), "path")
  }

  /** Sections 5.2.4 and 5.3 of RFC 6265: the last Path attribute counts, and a value that is not rooted means the
      default path. The first part is the cookie's name and value. */
  function CookiePath(parts: seq<string>, default: string): string {
    if |parts| <= 1 then default
    else if IsPathAttribute(parts[|parts| - 1]) then
      var value := AttributeValue(parts[|parts| - 1]);
      if Rooted(value) then value else default
    else CookiePath(parts[..|parts| - 1], default)
  }

  /** A part the rewriter takes for a Path is one to the browser too, and a rooted value is the same to both. */
  lemma BothRead(p: string)
    requires IsPath(p)
    ensures IsPathAttribute(p) && (Rooted(PathOf(p)) ==> AttributeValue(p) == PathOf(p))
  {
    hide Trim, EqualFold, Equals, LeadOf, TrailOf, Blank;
    var lead, core, value, trail := LeadOf(p), Trim(p)[..4], PathOf(p), TrailOf(p);
    TrimSplits(p);
    PathWordSplits(Trim(p)[..5]);
    assert Trim(p)[..5][..4] == core;
    assert Trim(p) == core + "=" + value;
    assert p == lead + core + "=" + (value + trail);
    PathWordRead(lead, core);
    EqualsAt(p, lead + core, value + trail);
    if Rooted(value) { ValueRead(value, trail); }
  }

  function LeadOf(p: string): string {
    p[..|p| - |TrimLeft(p)|]
  }

  function TrailOf(p: string): string {
    TrimLeft(p)[|Trim(p)|..]
  }

  predicate Blank(s: string) {
    forall k :: 0 <= k < |s| ==> IsSpace(s[k])
  }

  lemma TrimSplits(p: string)
    ensures p == LeadOf(p) + Trim(p) + TrailOf(p) && Blank(LeadOf(p)) && Blank(TrailOf(p))
    ensures Trim(p) != "" ==> !IsSpace(Trim(p)[|Trim(p)| - 1])
  {
    hide TrimLeft, TrimRight;
    var left := TrimLeft(p);
    assert p == LeadOf(p) + left;
    assert left == Trim(p) + TrailOf(p);
  }

  lemma PathWordSplits(w: string)
    requires EqualFold(w, "path=")
    ensures |w| == 5 && w[4] == '=' && EqualFold(w[..4], "path")
  {
    assert Lower(w[4]) == '=';
    forall k | 0 <= k < 4
      ensures Lower(w[..4][k]) == Lower("path"[k])
    {
      assert w[..4][k] == w[k] && "path="[k] == "path"[k];
    }
  }

  lemma EqualsAt(p: string, a: string, b: string)
    requires p == a + "=" + b && '=' !in a
    ensures Equals(p) == |a| && p[..|a|] == a && p[|a| + 1..] == b
  {
    assert forall k :: 0 <= k < |a| ==> p[k] == a[k];
    assert p[|a|] == '=';
  }

  lemma PathWordRead(lead: string, core: string)
    requires Blank(lead) && EqualFold(core, "path")
    ensures '=' !in lead + core && Trim(lead + core) == core
  {
    hide Trim;
    forall k | 0 <= k < 4
      ensures core[k] != '=' && !IsSpace(core[k])
    {
      assert "path"[k] == 'p' || "path"[k] == 'a' || "path"[k] == 't' || "path"[k] == 'h';
      assert Lower(core[k]) == Lower("path"[k]);
    }
    TrimBetween(lead, core);
  }

  lemma ValueRead(value: string, trail: string)
    requires value != "" && !IsSpace(value[0]) && !IsSpace(value[|value| - 1]) && Blank(trail)
    ensures Trim(value + trail) == value
  {
    hide TrimLeft, TrimRight;
    var s := value + trail;
    var left := TrimLeft(s);
    assert s[0] == value[0] && s[|value| - 1] == value[|value| - 1];
    assert |left| == |s| && left == s[0..] == s;
    var r := TrimRight(s);
    assert |r| >= |value|;
    assert forall k :: |value| <= k < |s| ==> s[k] == trail[k - |value|];
    assert r == s[..|value|] == value;
  }

  /** The last Path attribute of a cookie, or 0 when it has none. */
  function LastPath(parts: seq<string>): (i: nat)
    ensures i < |parts| || i == 0
  {
    if |parts| <= 1 then 0
    else if IsPathAttribute(parts[|parts| - 1]) then |parts| - 1
    else LastPath(parts[..|parts| - 1])
  }

  lemma {:induction false} LastPathIsLast(parts: seq<string>)
    ensures LastPath(parts) > 0 ==> IsPathAttribute(parts[LastPath(parts)])
    ensures forall k :: 0 < k < |parts| && IsPathAttribute(parts[k]) ==> k <= LastPath(parts)
    decreases |parts|
  {
    hide IsPathAttribute;
    if |parts| > 1 && !IsPathAttribute(parts[|parts| - 1]) {
      var front := parts[..|parts| - 1];
      LastPathIsLast(front);
      assert forall k :: 0 <= k < |front| ==> front[k] == parts[k];
    }
  }

  /** The path the browser takes from an attribute. */
  function PathFrom(p: string, default: string): string {
    if Rooted(AttributeValue(p)) then AttributeValue(p) else default
  }

  lemma {:induction false} CookiePathIs(parts: seq<string>, default: string)
    ensures CookiePath(parts, default) ==
      if LastPath(parts) == 0 then default else PathFrom(parts[LastPath(parts)], default)
    decreases |parts|
  {
    hide IsPathAttribute, AttributeValue;
    if |parts| > 1 && !IsPathAttribute(parts[|parts| - 1]) { CookiePathIs(parts[..|parts| - 1], default); }
  }

  lemma LastPathIs(parts: seq<string>, i: nat)
    requires 0 < i < |parts| && IsPathAttribute(parts[i]) && forall k :: i < k < |parts| ==> !IsPathAttribute(parts[k])
    ensures LastPath(parts) == i
  {
    hide IsPathAttribute, LastPath;
    LastPathIsLast(parts);
  }

  /** The part a rewrite writes is a Path attribute to the browser, with the value written. */
  lemma WrittenPath(value: string, default: string)
    requires Rooted(value) && !IsSpace(value[|value| - 1])
    ensures IsPathAttribute(PathPart(value)) && PathFrom(PathPart(value), default) == value
  {
    hide IsPath, PathOf, IsPathAttribute, AttributeValue, PathPart;
    ReadPath(value);
    BothRead(PathPart(value));
  }

  /** What the browser stores after the rewrite, for every cookie: the whole mount when the rewriter finds no Path; the
      mounted value of the last Path attribute when that is the part the rewriter found; and otherwise what it stored
      before. */
  lemma StoredAfter(setCookie: string, default: string)
    ensures
      var parts := Parts(setCookie);
      var i := FirstPath(parts, 0);
      CookiePath(Parts(Prefixed(setCookie)), default) ==
        if i == |parts| then "/auth/"
        else if 0 < i == LastPath(parts) && !("/auth" <= PathOf(parts[i])) then Mounted(PathOf(parts[i]))
        else CookiePath(parts, default)
  {
    hide IsPath, PathOf, IsPathAttribute, AttributeValue, PathPart, Prefixed, Mounted, CookiePath, Parts;
    var parts := Parts(setCookie);
    var after := Parts(Prefixed(setCookie));
    var i := FirstPath(parts, 0);
    PrefixedParts(setCookie);
    CookiePathIs(parts, default);
    CookiePathIs(after, default);
    if i == |parts| {
      AddedIsMounted();
      WrittenPath("/auth/", default);
      LastPathIs(after, i);
    } else if !("/auth" <= PathOf(parts[i])) {
      var value := Mounted(PathOf(parts[i]));
      MountedIsPath(parts[i]);
      assert value[0] == "/auth"[0];
      WrittenPath(value, default);
      BothRead(parts[i]);
      SameLastPath(parts, after, i);
    }
  }

  lemma SameLastPath(a: seq<string>, b: seq<string>, i: nat)
    requires |a| == |b| && i < |a| && forall k :: 0 <= k < |a| && k != i ==> a[k] == b[k]
    requires i > 0 ==> IsPathAttribute(a[i]) && IsPathAttribute(b[i])
    ensures LastPath(a) == LastPath(b)
  {
    hide IsPathAttribute, LastPath;
    LastPathIsLast(a);
    LastPathIsLast(b);
    var j := LastPath(a);
    if j > 0 {
      assert IsPathAttribute(b[j]);
      LastPathIs(b, j);
    } else {
      assert LastPath(b) == 0;
    }
  }

  /** The last Path attribute is the first part the rewriter takes for a Path, with its value right after the sign; or
      the rewriter finds none and the path is the root. */
  ghost predicate FindsThePath(parts: seq<string>, path: string) {
    var i := FirstPath(parts, 0);
    || (0 < i < |parts| && i == LastPath(parts) && Rooted(PathOf(parts[i])))
    || (i == |parts| && path == "/")
  }

  /** A rooted stored path outside /auth is mounted exactly when the rewriter finds it. */
  lemma StoredIsMountedIff(setCookie: string, default: string)
    requires Rooted(CookiePath(Parts(setCookie), default)) && !("/auth" <= CookiePath(Parts(setCookie), default))
    ensures
      var path := CookiePath(Parts(setCookie), default);
      CookiePath(Parts(Prefixed(setCookie)), default) == Mounted(path) <==> FindsThePath(Parts(setCookie), path)
  {
    hide IsPath, PathOf, IsPathAttribute, AttributeValue, Prefixed, CookiePath, Parts;
    var parts := Parts(setCookie);
    var path := CookiePath(parts, default);
    var i := FirstPath(parts, 0);
    StoredAfter(setCookie, default);
    CookiePathIs(parts, default);
    MountedInjective("/", path);
    if i < |parts| {
      BothRead(parts[i]);
      MountedInjective(PathOf(parts[i]), path);
    }
  }

  /** A cookie without a usable path: with no Path attribute at all it becomes the whole mount's; with an unrooted value
      in the part the rewriter found, the value is glued to the mount's name. */
  lemma UnrootedStored(setCookie: string, default: string)
    ensures
      var parts := Parts(setCookie);
      var i := FirstPath(parts, 0);
      var after := CookiePath(Parts(Prefixed(setCookie)), default);
      && (LastPath(parts) == 0 && i == |parts| ==> CookiePath(parts, default) == default && after == "/auth/")
      && (0 < i < |parts| && i == LastPath(parts) && !Rooted(PathOf(parts[i])) ==> after == "/auth" + PathOf(parts[i]))
      && (i == 0 ==> after == CookiePath(parts, default))
  {
    hide IsPath, PathOf, IsPathAttribute, AttributeValue, Prefixed, CookiePath, Parts;
    StoredAfter(setCookie, default);
    CookiePathIs(Parts(setCookie), default);
    PartsNonempty(setCookie);
  }

  lemma PartsNonempty(s: string)
    ensures |Parts(s)| > 0
  {
  }

  lemma MountedInjective(p: string, q: string)
    ensures Mounted(p) == Mounted(q) <==> p == q
    ensures |Mounted(p)| > |p|
  {
    assert forall x :: ("/auth" + x)[5..] == x;
    assert "/auth" + "/" == "/auth/";
  }

  /** The login flow's cookies: such a cookie goes with the mounted request exactly when it went with the request behind
      the mount. */
  lemma CookieFollowsTheMount(setCookie: string, request: string, default: string)
    requires Rooted(request) && Rooted(CookiePath(Parts(setCookie), default))
    requires !("/auth" <= CookiePath(Parts(setCookie), default))
    requires FindsThePath(Parts(setCookie), CookiePath(Parts(setCookie), default))
    ensures
      PathMatch(CookiePath(Parts(setCookie), default), request)
      <==> PathMatch(CookiePath(Parts(Prefixed(setCookie)), default), "/auth" + request)
  {
    hide CookiePath, Prefixed, Parts, FindsThePath;
    StoredIsMountedIff(setCookie, default);
    MountedMatches(CookiePath(Parts(setCookie), default), request);
  }

  // ---- links --------------------------------------------------------------------------------------------------

  const LINK := "=\"/realms/"
  const MOUNTED_LINK := "=\"/auth/realms/"

  predicate LinkAt(s: string, i: nat) {
    i <= |s| && LINK <= s[i..]
  }

  /** Every link replaced, from the left. */
  function ReplaceLinks(s: string): string {
    if s == "" then ""
    else if LinkAt(s, 0) then MOUNTED_LINK + ReplaceLinks(s[|LINK|..])
    else [s[0]] + ReplaceLinks(s[1..])
  }

  /** Where a text and its rewritten form first differ, the rewritten one starts a link, as the text does. */
  lemma {:induction false} RewrittenPrefix(s: string, w: string)
    requires '=' !in w
    ensures w <= ReplaceLinks(s) <==> w <= s
    decreases |w|
  {
    if w != "" && s != "" {
      if LinkAt(s, 0) {
        assert s[0..] == s && s[0] == '=' && ReplaceLinks(s)[0] == '=';
        assert w[0] != '=';
      } else {
        RewrittenPrefix(s[1..], w[1..]);
        var r := ReplaceLinks(s);
        assert r[0] == s[0] && r[1..] == ReplaceLinks(s[1..]);
        assert w == [w[0]] + w[1..] && s == [s[0]] + s[1..] && r == [r[0]] + r[1..];
      }
    }
  }

  lemma MountedHasNoLink(rest: string, i: nat)
    requires i < |MOUNTED_LINK|
    ensures !LinkAt(MOUNTED_LINK + rest, i)
  {
    var r := MOUNTED_LINK + rest;
    assert r[i] == MOUNTED_LINK[i] && r[i..][0] == r[i] && r[0..][3] == MOUNTED_LINK[3];
  }

  lemma LinkTail(s: string)
    requires s != ""
    ensures LinkAt(s, 0) <==> s[0] == '=' && LINK[1..] <= s[1..]
    ensures '=' !in LINK[1..]
  {
    assert s[0..] == s == [s[0]] + s[1..];
    assert LINK == ['='] + LINK[1..];
  }

  /** No link is left. */
  lemma {:induction false} NoLinkLeft(s: string, i: nat)
    ensures !LinkAt(ReplaceLinks(s), i)
    decreases |s|
  {
    var r := ReplaceLinks(s);
    if s == "" {
    } else if LinkAt(s, 0) {
      if i < |MOUNTED_LINK| {
        MountedHasNoLink(ReplaceLinks(s[|LINK|..]), i);
      } else {
        NoLinkLeft(s[|LINK|..], i - |MOUNTED_LINK|);
        assert i <= |r| ==> r[i..] == ReplaceLinks(s[|LINK|..])[i - |MOUNTED_LINK|..];
      }
    } else if i == 0 {
      LinkTail(s);
      LinkTail(r);
      RewrittenPrefix(s[1..], LINK[1..]);
      assert r[1..] == ReplaceLinks(s[1..]);
    } else {
      NoLinkLeft(s[1..], i - 1);
      assert i <= |r| ==> r[i..] == ReplaceLinks(s[1..])[i - 1..];
    }
  }

  ghost predicate HasLink(s: string) {
    exists i: nat :: LinkAt(s, i)
  }

  lemma HasLinkStep(s: string)
    requires s != ""
    ensures HasLink(s) <==> LinkAt(s, 0) || HasLink(s[1..])
  {
    forall i: nat
      ensures LinkAt(s, i + 1) <==> LinkAt(s[1..], i)
    {
      assert i + 1 <= |s| ==> s[i + 1..] == s[1..][i..];
    }
    if i: nat :| LinkAt(s, i) {
      if i > 0 { assert LinkAt(s[1..], i - 1); }
    }
  }

  /** A body is left alone exactly when it holds no link. */
  lemma {:induction false} LinksUnchanged(s: string)
    ensures |ReplaceLinks(s)| >= |s|
    ensures ReplaceLinks(s) == s <==> !HasLink(s)
    decreases |s|
  {
    hide HasLink;
    if s == "" {
      NothingHasNoLink();
    } else {
      HasLinkStep(s);
      if LinkAt(s, 0) {
        LinksUnchanged(s[|LINK|..]);
      } else {
        LinksUnchanged(s[1..]);
        assert s == [s[0]] + s[1..];
        assert ReplaceLinks(s)[1..] == ReplaceLinks(s[1..]);
      }
    }
  }

  lemma NothingHasNoLink()
    ensures !HasLink("")
  {
  }

  /** A second pass over a rewritten body changes nothing. */
  lemma ReplacedTwice(s: string)
    ensures ReplaceLinks(ReplaceLinks(s)) == ReplaceLinks(s)
  {
    var r := ReplaceLinks(s);
    forall i: nat
      ensures !LinkAt(r, i)
    {
      NoLinkLeft(s, i);
    }
    LinksUnchanged(r);
  }

  lemma ReplaceStep(s: string)
    requires s != ""
    ensures ReplaceLinks(s) ==
      if LinkAt(s, 0) then MOUNTED_LINK + ReplaceLinks(s[|LINK|..]) else [s[0]] + ReplaceLinks(s[1..])
  {
  }

  lemma LinkShifts(s: string, i: nat)
    requires i < |s|
    ensures LinkAt(s[1..], i) <==> LinkAt(s, i + 1)
  {
    assert s[i + 1..] == s[1..][i..];
  }

  /** The first link of a body is mounted where it stands and the text before it is kept; so on for the rest. */
  lemma {:induction false} LinksReplaced(before: string, after: string)
    requires forall i :: 0 <= i < |before| ==> !LinkAt(before + "=\"/realms/" + after, i)
    ensures ReplaceLinks(before + "=\"/realms/" + after) == before + "=\"/auth/realms/" + ReplaceLinks(after)
    decreases |before|
  {
    hide ReplaceLinks;
    var s := before + LINK + after;
    ReplaceStep(s);
    if before == "" {
      assert s[0..] == s == LINK + after && s[|LINK|..] == after;
      assert LinkAt(s, 0);
    } else {
      hide LinkAt, LINK, MOUNTED_LINK;
      assert s[1..] == before[1..] + LINK + after && s[0] == before[0];
      forall i | 0 <= i < |before| - 1
        ensures !LinkAt(s[1..], i)
      {
        LinkShifts(s, i);
      }
      LinksReplaced(before[1..], after);
      assert before == [before[0]] + before[1..];
    }
  }
}
