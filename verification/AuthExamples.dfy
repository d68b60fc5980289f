/** Cookies a browser stores elsewhere than the mount expects. */
module AuthExamples {
  import opened AuthCookie
  import opened AuthMount

  const TWO_PATHS := "k=v; Path=/a; Path=/b"
  const SPACED_PATH := "k=v; Path = /x"
  const NAMED_PATH := "path=/x"
  const OTHER_PATH := "k=v; Path=/authors"

  lemma PairIsNoPath()
    ensures !IsPath("k=v")
  {
    hide Trim;
    assert "k=v" == "" + "k=v";
    TrimBetween("", "k=v");
  }

  lemma TwoPathsParts()
    ensures Parts(TWO_PATHS) == ["k=v", PathPart("/a"), PathPart("/b")]
  {
    var parts := ["k=v", PathPart("/a"), PathPart("/b")];
    assert parts[1..] == [PathPart("/a"), PathPart("/b")];
    assert Join(parts) == TWO_PATHS;
    PartsJoin(parts);
  }

  lemma TwoPathsFound()
    ensures FirstPath(Parts(TWO_PATHS), 0) == 1 && LastPath(Parts(TWO_PATHS)) == 2
  {
    hide Parts, IsPath, PathPart, IsPathAttribute, PathFrom, LastPath, FirstPath, PathOf;
    var parts := Parts(TWO_PATHS);
    TwoPathsParts();
    PairIsNoPath();
    ReadPath("/a");
    FirstPathIs(parts, 1);
    WrittenPath("/b", "");
    LastPathIs(parts, 2);
  }

  /** The first of two paths is mounted, the second is stored. */
  lemma TwoPathsStored(default: string)
    ensures CookiePath(Parts(TWO_PATHS), default) == "/b"
    ensures CookiePath(Parts(Prefixed(TWO_PATHS)), default) == "/b" != Mounted("/b")
  {
    hide Parts, IsPath, PathPart, PathFrom, PathOf, CookiePath, LastPath, FirstPath, Prefixed, Mounted;
    TwoPathsFound();
    TwoPathsParts();
    WrittenPath("/b", default);
    CookiePathIs(Parts(TWO_PATHS), default);
    StoredAfter(TWO_PATHS, default);
    MountedInjective("/b", "/b");
  }

  lemma SpacedPathParts()
    ensures Parts(SPACED_PATH) == ["k=v", " Path = /x"]
  {
    hide Parts;
    assert SPACED_PATH == "k=v" + ";" + " Path = /x";
    PartsOfTwo("k=v", " Path = /x");
    PartsNone(" Path = /x");
  }

  lemma SpacedPathRead()
    ensures !IsPath(" Path = /x") && IsPathAttribute(" Path = /x") && AttributeValue(" Path = /x") == "/x"
  {
    hide Trim;
    var p := " Path = /x";
    assert p == " " + "Path = /x" && p == " Path " + "=" + " /x";
    TrimBetween(" ", "Path = /x");
    assert "Path = /x"[..5][4] == ' ' && Lower(' ') != Lower("path="[4]);
    EqualsAt(p, " Path ", " /x");
    SpacedNameRead();
    assert " /x" == " " + "/x";
    TrimBetween(" ", "/x");
  }

  lemma SpacedNameRead()
    ensures Trim(" Path ") == "Path" && EqualFold("Path", "path")
  {
    hide TrimLeft, TrimRight;
    var s, t := " Path ", "Path ";
    assert IsSpace(s[0]) && !IsSpace(s[1]);
    assert |TrimLeft(s)| == 5;
    assert TrimLeft(s) == s[1..] == t;
    assert IsSpace(t[4]) && !IsSpace(t[3]);
    assert |TrimRight(t)| == 4;
    assert TrimRight(t) == t[..4] == "Path";
  }

  /** A space before the sign hides the path from the rewriter: the cookie becomes the whole mount's. */
  lemma SpacedPathStored(default: string)
    ensures CookiePath(Parts(SPACED_PATH), default) == "/x"
    ensures CookiePath(Parts(Prefixed(SPACED_PATH)), default) == "/auth/" != Mounted("/x")
  {
    hide Parts, IsPath, IsPathAttribute, AttributeValue, CookiePath, LastPath, Prefixed;
    var parts := Parts(SPACED_PATH);
    SpacedPathParts();
    PairIsNoPath();
    SpacedPathRead();
    assert FirstPath(parts, 1) == 2;
    LastPathIs(parts, 1);
    CookiePathIs(parts, default);
    StoredAfter(SPACED_PATH, default);
  }

  lemma NamedPathRead()
    ensures Parts(NAMED_PATH) == [NAMED_PATH] && IsPath(NAMED_PATH) && PathOf(NAMED_PATH) == "/x"
  {
    hide Trim, Parts;
    PartsNone(NAMED_PATH);
    assert NAMED_PATH == "" + NAMED_PATH;
    TrimBetween("", NAMED_PATH);
    assert NAMED_PATH[..5] == "path=" && NAMED_PATH[5..] == "/x";
  }

  /** A cookie named path is taken for one: its own name and value are rewritten, and its path is not. */
  lemma NamedPathRewritten(default: string)
    ensures Prefixed(NAMED_PATH) == " Path=/auth/x"
    ensures CookiePath(Parts(Prefixed(NAMED_PATH)), default) == CookiePath(Parts(NAMED_PATH), default) == default
  {
    hide Parts, IsPath, PathOf;
    NamedPathRead();
    FirstPathIs([NAMED_PATH], 0);
    assert !("/auth" <= "/x");
    PrefixedParts(NAMED_PATH);
    assert Mounted("/x") == "/auth/x";
    assert [NAMED_PATH][0 := PathPart("/auth/x")] == [PathPart("/auth/x")];
  }

  lemma OtherPathParts()
    ensures Parts(OTHER_PATH) == ["k=v", PathPart("/authors")]
  {
    hide Parts;
    assert OTHER_PATH == "k=v" + ";" + PathPart("/authors");
    PartsOfTwo("k=v", PathPart("/authors"));
    PartsNone(PathPart("/authors"));
  }

  /** A path that only starts with the letters of the mount is left outside it. */
  lemma OtherPathStored(default: string)
    ensures Prefixed(OTHER_PATH) == OTHER_PATH && CookiePath(Parts(OTHER_PATH), default) == "/authors"
    ensures !MatchesTheSame("/authors", "/authors")
  {
    hide Parts, IsPath, PathOf, PathPart, IsPathAttribute, PathFrom, CookiePath, LastPath, FirstPath;
    var parts := Parts(OTHER_PATH);
    OtherPathParts();
    PairIsNoPath();
    ReadPath("/authors");
    FirstPathIs(parts, 1);
    WrittenPath("/authors", default);
    LastPathIs(parts, 1);
    CookiePathIs(parts, default);
    WitnessDiffers("/authors");
  }
}
