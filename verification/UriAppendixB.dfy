/** The part-by-part parser against the regular expression of Appendix B of RFC 3986. */
module UriAppendixB {
  import opened Wrappers
  import opened UriText
  import opened UriQuery
  import opened UriParse
  import opened UriPrint
  import opened UriAcceptance

  /** The groups of the expression; None is "undefined". */
  datatype Components = Components(scheme: Option<string>, authority: Option<string>, path: string,
                                   query: Option<string>, fragment: Option<string>)

  /** Recomposition, section 5.3 of RFC 3986. */
  function Recompose(c: Components): string {
    (match c.scheme case None => "" case Some(s) => s + ":") + Hierarchy(c)
  }

  /** Everything after the scheme. */
  function Hierarchy(c: Components): string {
    Optional("//", c.authority) + Tail(c.path, c.query, c.fragment)
  }

  /** A non-empty text without delimiters and colons, followed by a colon. */
  predicate SchemeGroup(u: string, i: nat) {
    0 < i < |u| && u[i] == ':' && Free(u[..i], {':', '/', '?', '#'})
  }

  /** The groups after the scheme: each draws from its characters, and is defined and as long as
      it can be. */
  predicate Grouped(c: Components) {
    && (match c.authority
        case None => !("//" <= Hierarchy(c))
        case Some(a) => Free(a, {'/', '?', '#'}) && (c.path == "" || c.path[0] == '/'))
    && Free(c.path, {'?', '#'})
    && (c.query.Some? ==> Free(c.query.value, {'#'}))
  }

  /** The components are the groups that
      ^(([^:/?#]+):)?(//([^/?#]*))?([^?#]*)(\?([^#]*))?(#(.*))? matches in u: every group
      draws from its characters, and is defined and as long as it can be. */
  predicate Matches(u: string, c: Components) {
    && u == Recompose(c)
    && (match c.scheme
        case None => forall i :: 0 <= i < |u| ==> !SchemeGroup(u, i)
        case Some(s) => s != "" && Free(s, {':', '/', '?', '#'}))
    && Grouped(c)
  }

  // ---------------------------------------------------------------- the match exists

  function SplitQuery(u: string): (Option<string>, Option<string>)
    requires u == "" || u[0] in TAIL
  {
    if u == "" then (None, None)
    else if u[0] == '#' then (None, Some(u[1..]))
    else
      var k := FindFirstOf(u, {'#'});
      if k == |u| then (Some(u[1..]), None) else (Some(u[1..k]), Some(u[k + 1..]))
  }

  lemma SplitQueryComposes(u: string)
    requires u == "" || u[0] in TAIL
    ensures var (query, fragment) := SplitQuery(u);
            Optional("?", query) + Optional("#", fragment) == u && (query.Some? ==> Free(query.value, {'#'}))
  {
    hide FindFirstOf;
    if u != "" {
      assert u == [u[0]] + u[1..];
      if u[0] == '?' {
        var k := FindFirstOf(u, {'#'});
        assert u[..k][0] == '?' && k > 0;
        FreeSlice(u[..k], 1, k, {'#'});
        assert u[1..k] == u[..k][1..k];
        if k < |u| {
          assert u == "?" + u[1..k] + ("#" + u[k + 1..]);
        }
      }
    }
  }

  function SplitTail(u: string): (string, Option<string>, Option<string>) {
    var (path, rest) := PathSplit(u);
    var (query, fragment) := SplitQuery(rest);
    (path, query, fragment)
  }

  lemma SplitTailComposes(u: string)
    ensures var (path, query, fragment) := SplitTail(u);
            Tail(path, query, fragment) == u && Free(path, TAIL) && (query.Some? ==> Free(query.value, {'#'}))
    ensures SplitTail(u).0 == PathSplit(u).0
  {
    hide FindFirstOf, SplitQuery, Optional;
    var (path, rest) := PathSplit(u);
    SplitQueryComposes(rest);
    assert u == path + rest;
  }

  /** The greedy match. */
  function Groups(u: string): Components {
    var i := FindFirstOf(u, DELIMITERS + {':'});
    var hasScheme := SchemeGroup(u, i);
    var rest := if hasScheme then u[i + 1..] else u;
    var scheme := if hasScheme then Some(u[..i]) else None;
    if "//" <= rest then
      var j := FindFirstOf(rest[2..], DELIMITERS);
      var (path, query, fragment) := SplitTail(rest[2..][j..]);
      Components(scheme, Some(rest[2..][..j]), path, query, fragment)
    else
      var (path, query, fragment) := SplitTail(rest);
      Components(scheme, None, path, query, fragment)
  }

  lemma SchemeGroupUnique(u: string, i: nat)
    requires SchemeGroup(u, i)
    ensures FindFirstOf(u, DELIMITERS + {':'}) == i
  {
    assert u == u[..i] + u[i..];
    FirstHit(u[..i], u[i..], DELIMITERS + {':'});
  }

  lemma NoSchemeGroup(u: string)
    requires !SchemeGroup(u, FindFirstOf(u, DELIMITERS + {':'}))
    ensures forall i :: 0 <= i < |u| ==> !SchemeGroup(u, i)
  {
    hide SchemeGroup, FindFirstOf;
    forall i | 0 <= i < |u|
      ensures !SchemeGroup(u, i)
    {
      if SchemeGroup(u, i) {
        SchemeGroupUnique(u, i);
      }
    }
  }

  /** For every text the expression matches, and its groups recompose to the text. */
  lemma GroupsMatch(u: string)
    ensures Matches(u, Groups(u))
  {
    hide FindFirstOf, Hierarchy, SplitTail, SchemeGroup;
    var i := FindFirstOf(u, DELIMITERS + {':'});
    if SchemeGroup(u, i) {
      SchemeGroupParts(u, i);
      HierarchyComposes(u[i + 1..], Groups(u));
    } else {
      NoSchemeGroup(u);
      HierarchyComposes(u, Groups(u));
    }
  }

  lemma SchemeGroupParts(u: string, i: nat)
    requires SchemeGroup(u, i)
    ensures i < |u| && u[..i] + ":" + u[i + 1..] == u
    ensures u[..i] != "" && Free(u[..i], DELIMITERS + {':'})
  {}

  lemma HierarchyComposes(rest: string, c: Components)
    requires if "//" <= rest then
               var j := FindFirstOf(rest[2..], DELIMITERS);
               c.authority == Some(rest[2..][..j]) && (c.path, c.query, c.fragment) == SplitTail(rest[2..][j..])
             else c.authority == None && (c.path, c.query, c.fragment) == SplitTail(rest)
    ensures Hierarchy(c) == rest
    ensures Free(c.path, TAIL) && (c.query.Some? ==> Free(c.query.value, {'#'}))
    ensures c.authority.Some? ==> Free(c.authority.value, DELIMITERS) && (c.path == "" || c.path[0] == '/')
  {
    hide FindFirstOf, Tail, SplitTail, PathSplit;
    if "//" <= rest {
      var j := FindFirstOf(rest[2..], DELIMITERS);
      SplitTailComposes(rest[2..][j..]);
      assert rest == "//" + rest[2..][..j] + rest[2..][j..];
      AuthoritySplitShape(rest[2..]);
    } else {
      SplitTailComposes(rest);
    }
  }

  // ---------------------------------------------------------------- the match is unique

  /** The groups are a function of the text. */
  lemma MatchesExactly(u: string, c: Components)
    ensures Matches(u, c) <==> c == Groups(u)
  {
    hide Matches, Groups;
    GroupsMatch(u);
    if Matches(u, c) {
      MatchUnique(u, c, Groups(u));
    }
  }

  lemma MatchUnique(u: string, c: Components, d: Components)
    requires Matches(u, c) && Matches(u, d)
    ensures c == d
  {
    hide Hierarchy, Tail, SchemeGroup;
    SameScheme(u, c, d);
    HierarchyUnique(c, d);
  }

  lemma SameScheme(u: string, c: Components, d: Components)
    requires Matches(u, c) && Matches(u, d)
    ensures c.scheme == d.scheme && Hierarchy(c) == Hierarchy(d)
  {
    hide Hierarchy, SchemeGroup;
    if c.scheme.Some? {
      GroupIsScheme(u, c);
    }
    if d.scheme.Some? {
      GroupIsScheme(u, d);
    }
    if c.scheme.Some? && d.scheme.Some? {
      SameColon(u, c.scheme.value, Hierarchy(c), d.scheme.value, Hierarchy(d));
    }
    EmptyFirst(Hierarchy(c));
    EmptyFirst(Hierarchy(d));
  }

  lemma EmptyFirst(s: string)
    ensures "" + s == s
  {}

  /** The characters of a scheme group show that it is one. */
  lemma GroupIsScheme(u: string, c: Components)
    requires Matches(u, c) && c.scheme.Some?
    ensures |c.scheme.value| < |u| && SchemeGroup(u, |c.scheme.value|)
    ensures u == c.scheme.value + ":" + Hierarchy(c) && ':' !in c.scheme.value
  {
    hide Hierarchy;
    var s := c.scheme.value;
    assert u[..|s|] == s && u[|s|] == ':';
  }

  lemma HierarchyUnique(c: Components, d: Components)
    requires Hierarchy(c) == Hierarchy(d)
    requires Grouped(c) && Grouped(d)
    ensures c.authority == d.authority && c.path == d.path && c.query == d.query && c.fragment == d.fragment
  {
    hide Tail;
    var s, t := Tail(c.path, c.query, c.fragment), Tail(d.path, d.query, d.fragment);
    if c.authority.Some? {
      AuthorityFirst(c);
    }
    if d.authority.Some? {
      AuthorityFirst(d);
    }
    assert c.authority == d.authority;
    EmptyFirst(s);
    EmptyFirst(t);
    TailUnique(c, d);
  }

  lemma AuthorityFirst(c: Components)
    requires Grouped(c) && c.authority.Some?
    ensures "//" <= Hierarchy(c)
    ensures AuthoritySplit(Hierarchy(c)[2..]) == (c.authority.value, Tail(c.path, c.query, c.fragment))
  {
    hide Tail, AuthoritySplit;
    var a, tail := c.authority.value, Tail(c.path, c.query, c.fragment);
    TailLead(c.path, c.query, c.fragment);
    AuthoritySplits(a, tail);
    assert Hierarchy(c) == "//" + (a + tail);
    assert Hierarchy(c)[2..] == a + tail;
  }

  lemma TailUnique(c: Components, d: Components)
    requires Tail(c.path, c.query, c.fragment) == Tail(d.path, d.query, d.fragment)
    requires Grouped(c) && Grouped(d)
    ensures c.path == d.path && c.query == d.query && c.fragment == d.fragment
  {
    hide PathSplit, Hierarchy;
    TailSplits(c.path, c.query, c.fragment);
    TailSplits(d.path, d.query, d.fragment);
  }

  /** The tail determines its parts. */
  lemma TailSplits(path: string, query: Option<string>, fragment: Option<string>)
    requires Free(path, TAIL) && (query.Some? ==> Free(query.value, {'#'}))
    ensures SplitTail(Tail(path, query, fragment)) == (path, query, fragment)
  {
    hide PathSplit, FindFirstOf;
    var f := Optional("#", fragment);
    var rest := Optional("?", query) + f;
    assert Tail(path, query, fragment) == path + rest;
    PathSplits(path, rest);
    if query.Some? {
      var q := query.value;
      FirstHit("?" + q, f, {'#'});
      assert rest == "?" + q + f;
      assert rest[1..|q| + 1] == q;
      if fragment.Some? {
        assert rest[|q| + 2..] == fragment.value;
      } else {
        assert rest[1..] == q;
      }
    } else if fragment.Some? {
      assert rest == "#" + fragment.value;
      assert rest[1..] == fragment.value;
    }
  }

  // ---------------------------------------------------------------- agreement

  /** A data's parts are the components, undefined and empty identified, the scheme in lower
      case, and the authority read by the authority splitter. */
  predicate Agrees(d: UriData, c: Components) {
    && d.scheme == Lower(OrEmpty(c.scheme))
    && (if OrEmpty(c.authority) == "" then d.userinfo == "" && d.host == "" && d.port == 0
        else ParseAuthority(OrEmpty(c.authority)) == Some(Authority(d.userinfo, d.host, d.port)))
    && d.path == c.path
    && d.query == OrEmpty(c.query)
    && d.fragment == OrEmpty(c.fragment)
    && d.queryMap == QueryMap(OrEmpty(c.query))
  }

  /** A valid scheme in any case is a scheme group. */
  lemma SchemeText(text: string)
    requires ValidScheme(Lower(text))
    ensures text != "" && Free(text, DELIMITERS + {':'})
  {
    hide Lower, ToLower, IsSchemeChar;
    var s := Lower(text);
    forall i | 0 <= i < |text|
      ensures text[i] !in DELIMITERS + {':'}
    {
      assert s[i] in s;
      SchemeCharText(text[i]);
    }
  }

  lemma SchemeCharText(c: char)
    requires IsSchemeChar(ToLower(c))
    ensures c !in DELIMITERS + {':'}
  {}

  /** Two decompositions at a first colon are the same. */
  lemma SameColon(u: string, a: string, r: string, b: string, s: string)
    requires u == a + ":" + r && u == b + ":" + s
    requires ':' !in a && ':' !in b
    ensures a == b && r == s
  {
    assert a + ":" + r == a + (":" + r) && b + ":" + s == b + (":" + s);
    FirstHit(a, ":" + r, {':'});
    FirstHit(b, ":" + s, {':'});
    assert a == u[..|a|] && b == u[..|b|];
    assert r == u[|a| + 1..] && s == u[|b| + 1..];
  }

  /** For every accepted text with a scheme other than "file" the parser's parts are the
      groups of Appendix B. */
  lemma ParserAgrees(u: string, c: Components)
    requires Parse(u).Some? && BearsAuthority(Parse(u).value.scheme)
    requires Matches(u, c)
    ensures Agrees(Parse(u).value, c)
  {
    hide SchemeSplit, FromPath, Lower, Tail, AuthoritySplit, ParseAuthority, ValidScheme, QueryMap, Free, SchemeGroup;
    var (text, rest) := SchemeSplit(u);
    var d := EMPTY.(scheme := Lower(text));
    SchemeOfAccepted(u);
    SchemeDefined(u, text, rest, c);
    AuthorityDefined(rest, c);
    var a := c.authority.value;
    var tail := Tail(c.path, c.query, c.fragment);
    TailLead(c.path, c.query, c.fragment);
    AuthoritySplits(a, tail);
    if a == "" {
      TailParses(d, c.path, c.query, c.fragment);
    } else {
      var b := ParseAuthority(a).value;
      TailParses(d.(userinfo := b.userinfo, host := b.host, port := b.port), c.path, c.query, c.fragment);
    }
  }

  lemma SchemeOfAccepted(u: string)
    requires Parse(u).Some? && BearsAuthority(Parse(u).value.scheme)
    ensures var (text, rest) := SchemeSplit(u);
            && Lower(text) == Parse(u).value.scheme && ValidScheme(Lower(text))
            && u == text + "://" + rest
  {
    hide FromPath, Lower, AuthoritySplit, ParseAuthority, ValidScheme, SchemeSplit;
    var (text, rest) := SchemeSplit(u);
    var d := EMPTY.(scheme := Lower(text));
    SchemeStays(d, rest);
    LowerNothing();
    var i := SchemeSplitSome(u);
    SchemeSplitAt(u, i);
    assert u == u[..i] + u[i..i + 3] + u[i + 3..];
    assert u[i..i + 3] == "://";
  }

  lemma LowerNothing()
    ensures Lower("") == ""
  {}

  lemma SchemeDefined(u: string, text: string, rest: string, c: Components)
    requires u == text + "://" + rest && ValidScheme(Lower(text)) && Matches(u, c)
    ensures c.scheme == Some(text) && Hierarchy(c) == "//" + rest
  {
    hide Hierarchy, Lower, ValidScheme;
    SchemeText(text);
    assert u == text + ":" + ("//" + rest);
    assert u[..|text|] == text && u[|text|] == ':';
    assert SchemeGroup(u, |text|);
    SameColon(u, text, "//" + rest, c.scheme.value, Hierarchy(c));
  }

  lemma AuthorityDefined(rest: string, c: Components)
    requires Hierarchy(c) == "//" + rest && (c.authority == None ==> !("//" <= Hierarchy(c)))
    ensures c.authority.Some? && rest == c.authority.value + Tail(c.path, c.query, c.fragment)
  {
    hide Tail;
    assert "//" <= "//" + rest;
    assert Hierarchy(c) == "//" + (c.authority.value + Tail(c.path, c.query, c.fragment));
    assert ("//" + rest)[2..] == rest;
    assert Hierarchy(c)[2..] == c.authority.value + Tail(c.path, c.query, c.fragment);
  }

  // ---------------------------------------------------------------- the remaining texts

  /** The groups on which the program does not depart from the expression: it never looks for
      an authority after "file" or without a scheme, and it demands "://" after a scheme. */
  predicate Common(c: Components) {
    match c.scheme
    case None => c.authority == None
    case Some(s) => c.authority.Some? && (Lower(s) == "file" ==> c.authority == Some(""))
  }

  /** The parser's parts are the groups of Appendix B exactly for the common groups. */
  lemma ParserAgreesExactly(u: string, c: Components)
    requires Parse(u).Some? && Matches(u, c)
    ensures Agrees(Parse(u).value, c) <==> Common(c)
  {
    hide Parse, Matches, Agrees, Lower;
    var d := Parse(u).value;
    if BearsAuthority(d.scheme) {
      ParserAgrees(u, c);
      BearingGroups(u, c);
    } else if d.scheme == "file" {
      FileAgrees(u, c);
    } else {
      SchemelessAgrees(u, c);
      SchemelessGroups(u, c);
    }
  }

  /** The groups of an accepted text with a scheme other than "file". */
  lemma BearingGroups(u: string, c: Components)
    requires Parse(u).Some? && BearsAuthority(Parse(u).value.scheme) && Matches(u, c)
    ensures c.scheme.Some? && Lower(c.scheme.value) == Parse(u).value.scheme && c.authority.Some?
  {
    hide Parse, SchemeSplit, Lower, ValidScheme, Hierarchy;
    var (text, rest) := SchemeSplit(u);
    SchemeOfAccepted(u);
    SchemeDefined(u, text, rest, c);
    AuthorityDefined(rest, c);
  }

  /** Without a scheme of the parser's, a scheme group is not followed by an authority. */
  lemma SchemelessGroups(u: string, c: Components)
    requires Parse(u).Some? && Parse(u).value.scheme == "" && Matches(u, c)
    ensures c.scheme.Some? ==> c.authority == None
  {
    hide SchemeSplit, FromPath, FromAuthority, Lower, Tail, ValidScheme, SchemeGroup;
    var text := SchemeSplit(u).0;
    SchemeStays(EMPTY.(scheme := Lower(text)), SchemeSplit(u).1);
    LowerEmpty(text);
    if c.scheme.Some? && c.authority.Some? {
      var s, rest := c.scheme.value, c.authority.value + Tail(c.path, c.query, c.fragment);
      assert u == s + ":" + ("//" + c.authority.value + Tail(c.path, c.query, c.fragment));
      assert u == s + "://" + rest;
      SchemeSplits(s, rest);
    }
  }

  /** A text on which they differ: the host of a file is read as the start of its path. */
  lemma FileHostInPath()
    ensures var u := "file://h/p";
            var c := Components(Some("file"), Some("h"), "/p", None, None);
            Matches(u, c) && Parse(u) == Some(EMPTY.(scheme := "file", path := "h/p")) && !Agrees(Parse(u).value, c)
  {
    hide Parse, Lower, QueryMap, Agrees;
    var u := "file://h/p";
    var c := Components(Some("file"), Some("h"), "/p", None, None);
    var d := EMPTY.(scheme := "file", path := "h/p");
    assert Recompose(c) == u;
    EmptyQueryMap();
    assert Shaped(d);
    assert Assembled(d, true) == u;
    AssembledParses(d, true);
    LowerOfFile();
    ParserAgreesExactly(u, c);
  }

  lemma LowerOfFile()
    ensures Lower("file") == "file"
  {
    LowerOfValid("file");
  }

  lemma HostNeverEmpty(a: string)
    ensures ParseAuthority(a).Some? ==> ParseAuthority(a).value.host != ""
  {
    hide FindFirstOf, StrToL;
  }

  lemma FileAgrees(u: string, c: Components)
    requires Parse(u).Some? && Parse(u).value.scheme == "file" && Matches(u, c)
    ensures c.scheme.Some? && Lower(c.scheme.value) == "file" && c.authority.Some?
    ensures Agrees(Parse(u).value, c) <==> c.authority == Some("")
  {
    hide SchemeSplit, FromPath, Lower, Tail, ParseAuthority, ValidScheme, QueryMap, Free, SchemeGroup, Hierarchy;
    var (text, rest) := SchemeSplit(u);
    var d := EMPTY.(scheme := Lower(text));
    SchemeOfFile(u);
    FileIsValid();
    SchemeDefined(u, text, rest, c);
    AuthorityDefined(rest, c);
    HostNeverEmpty(c.authority.value);
    if c.authority.value == "" {
      assert rest == Tail(c.path, c.query, c.fragment);
      TailParses(d, c.path, c.query, c.fragment);
    } else {
      NoHost(d, rest);
    }
  }

  lemma SchemeOfFile(u: string)
    requires Parse(u).Some? && Parse(u).value.scheme == "file"
    ensures var (text, rest) := SchemeSplit(u); Lower(text) == "file" && u == text + "://" + rest
  {
    hide FromPath, Lower, AuthoritySplit, ParseAuthority, ValidScheme, SchemeSplit;
    var (text, rest) := SchemeSplit(u);
    SchemeStays(EMPTY.(scheme := Lower(text)), rest);
    LowerNothing();
    var i := SchemeSplitSome(u);
    SchemeSplitAt(u, i);
    assert u == u[..i] + u[i..i + 3] + u[i + 3..];
    assert u[i..i + 3] == "://";
  }

  /** Reading on from the path keeps the host. */
  lemma NoHost(d: UriData, u: string)
    ensures FromPath(d, u).Some? ==> FromPath(d, u).value.host == d.host
  {}

  lemma SchemelessAgrees(u: string, c: Components)
    requires Parse(u).Some? && Parse(u).value.scheme == "" && Matches(u, c)
    ensures Agrees(Parse(u).value, c) <==> c.scheme == None && c.authority == None
  {
    hide SchemeSplit, FromPath, Lower, Tail, ParseAuthority, ValidScheme, QueryMap, Free, SchemeGroup, FromAuthority;
    var (text, rest) := SchemeSplit(u);
    var d := EMPTY.(scheme := Lower(text));
    SchemeStays(d, rest);
    LowerEmpty(text);
    NoScheme(u);
    LowerNothing();
    if c.scheme.Some? {
      assert |Lower(c.scheme.value)| == |c.scheme.value|;
    } else if c.authority.Some? {
      HostNeverEmpty(c.authority.value);
      NoHost(d, u);
      LongerPath(d, u, c);
    } else {
      assert u == Tail(c.path, c.query, c.fragment);
      TailParses(d, c.path, c.query, c.fragment);
    }
  }

  /** Without a scheme the slashes and the authority stay in the path. */
  lemma LongerPath(d: UriData, u: string, c: Components)
    requires BeforePath(d) && c.scheme == None && c.authority.Some? && Matches(u, c)
    ensures FromPath(d, u).Some? ==> FromPath(d, u).value.path != c.path
  {
    hide QueryMap, SchemeGroup, FromPath, Optional;
    var a := c.authority.value;
    var path := "//" + a + c.path;
    assert u == "//" + a + Tail(c.path, c.query, c.fragment) by {
      assert Optional("//", c.authority) == "//" + a by { OptionalSome("//", a); }
    }
    Associate("//", a, c.path, Optional("?", c.query), Optional("#", c.fragment));
    FreePath(a, c.path);
    TailParses(d, path, c.query, c.fragment);
  }

  lemma FreePath(a: string, path: string)
    requires Free(a, DELIMITERS) && Free(path, TAIL)
    ensures Free("//" + a + path, TAIL)
  {
    assert Free(a, TAIL);
  }

  // ---------------------------------------------------------------- all texts

  /** The texts that are accepted and read as the expression reads them, by their groups. */
  ghost predicate ReadAlike(u: string, c: Components) {
    match c.scheme
    case None => c.authority == None && forall i: nat :: !SchemeAt(u, i)
    case Some(s) =>
      && ValidScheme(Lower(s)) && c.authority.Some?
      && (if Lower(s) == "file" then c.authority == Some("") else AuthorityAccepted(c.authority.value))
  }

  /** For every text and its groups: it is accepted with the parts of Appendix B exactly when
      there is neither a scheme group nor an authority group nor a "://" that would end a
      scheme, or a valid scheme, and after it an authority group, which is empty after "file"
      and of the accepted form after any other scheme. */
  lemma AcceptedAlikeExactly(u: string, c: Components)
    requires Matches(u, c)
    ensures Parse(u).Some? && Agrees(Parse(u).value, c) <==> ReadAlike(u, c)
  {
    hide Parse, Matches, Agrees, Lower, ValidScheme, SchemeAt, AuthorityAccepted;
    if Parse(u).Some? {
      ParserAgreesExactly(u, c);
      if Agrees(Parse(u).value, c) {
        AlikeFromParse(u, c);
      }
    }
    if ReadAlike(u, c) {
      ParseFromAlike(u, c);
    }
  }

  lemma AlikeFromParse(u: string, c: Components)
    requires Matches(u, c) && Common(c)
    requires Parse(u).Some? && Agrees(Parse(u).value, c)
    ensures ReadAlike(u, c)
  {
    hide Parse, Matches, Lower, ValidScheme, SchemeAt, AuthorityAccepted, ParseAuthority, QueryMap;
    var d := Parse(u).value;
    SchemeOfParse(u);
    match c.scheme
    case None =>
      LowerNothing();
    case Some(s) =>
      GroupNotEmpty(u, c);
      AuthorityAcceptedExactly(c.authority.value);
  }

  lemma GroupNotEmpty(u: string, c: Components)
    requires Matches(u, c) && c.scheme.Some?
    ensures Lower(c.scheme.value) != ""
  {
    hide Hierarchy, SchemeGroup;
    assert |Lower(c.scheme.value)| == |c.scheme.value|;
  }

  /** The scheme of an accepted text. */
  lemma SchemeOfParse(u: string)
    requires Parse(u).Some?
    ensures var s := Parse(u).value.scheme;
            (s != "" ==> ValidScheme(s)) && (s == "" ==> forall i: nat :: !SchemeAt(u, i))
  {
    hide SchemeSplit, FromPath, FromAuthority, Lower, ValidScheme, SchemeAt;
    var (text, rest) := SchemeSplit(u);
    SchemeStays(EMPTY.(scheme := Lower(text)), rest);
    if Parse(u).value.scheme == "" {
      LowerEmpty(text);
      forall i: nat
        ensures !SchemeAt(u, i)
      {
        if SchemeAt(u, i) {
          SchemeSplitAt(u, i);
          SchemePositive(u, i);
        }
      }
    }
  }

  lemma SchemePositive(u: string, i: nat)
    requires SchemeAt(u, i)
    ensures 0 < i <= |u| && u[..i] != ""
  {}

  lemma ParseFromAlike(u: string, c: Components)
    requires Matches(u, c) && ReadAlike(u, c)
    ensures Parse(u).Some? && Agrees(Parse(u).value, c)
  {
    hide Parse, Matches, Agrees, Lower, ValidScheme, SchemeAt, AuthorityAccepted, AcceptedAt;
    match c.scheme {
      case None => AcceptedWithoutScheme(u);
      case Some(s) =>
        GroupsAccepted(u, c);
        AcceptedExactly(u);
    }
    ParserAgreesExactly(u, c);
  }

  /** A scheme group followed by an authority group is where the parser finds them. */
  lemma GroupsAccepted(u: string, c: Components)
    requires Matches(u, c) && c.scheme.Some? && ReadAlike(u, c)
    ensures AcceptedAt(u, |c.scheme.value|)
  {
    hide Lower, ValidScheme, AuthorityAccepted, SchemeGroup, Tail, AuthoritySplit;
    var s, a, tail := c.scheme.value, c.authority.value, Tail(c.path, c.query, c.fragment);
    assert u == s + "://" + (a + tail) by {
      assert Hierarchy(c) == "//" + (a + tail);
      assert u == s + ":" + ("//" + (a + tail));
    }
    assert u[..|s|] == s && u[|s| + 3..] == a + tail;
    TailLead(c.path, c.query, c.fragment);
    AuthoritySplits(a, tail);
  }

  /** A text whose groups have neither scheme nor authority, and which is rejected: what stands
      before its "://" is no scheme. */
  lemma ColonFirstRejected()
    ensures var u := ":a://b";
            var c := Components(None, None, ":a://b", None, None);
            Matches(u, c) && Common(c) && Parse(u) == None
  {
    hide Parse, Matches, SchemeAt, Lower;
    ColonGroups(":a://b");
    ColonSeparator();
    ColonRejected(":a://b", 2);
  }

  lemma ColonSeparator()
    ensures SchemeAt(":a://b", 2)
  {
    assert ":a://b"[..2] == ":a";
  }

  lemma ColonGroups(u: string)
    requires u != "" && u[0] == ':' && Free(u, TAIL)
    ensures Matches(u, Components(None, None, u, None, None))
  {
    hide SchemeGroup;
    var c := Components(None, None, u, None, None);
    ColonIsFirst(u);
    assert Tail(u, None, None) == u && Hierarchy(c) == u && Recompose(c) == u;
  }

  lemma ColonRejected(u: string, i: nat)
    requires SchemeAt(u, i) && u[0] == ':'
    ensures Parse(u) == None
  {
    hide Parse, AuthorityAccepted, SchemeAt;
    AcceptedWithScheme(u, i);
    SchemePositive(u, i);
    assert Lower(u[..i])[0] == ':';
  }

  lemma ColonIsFirst(u: string)
    requires u != "" && u[0] == ':'
    ensures forall i :: 0 <= i < |u| ==> !SchemeGroup(u, i)
  {
    forall i | 0 <= i < |u|
      ensures !SchemeGroup(u, i)
    {
      if i > 0 {
        assert u[..i][0] == ':';
      }
    }
  }

  lemma ParserAgreesExactlyOnAccepted(u: string, c: Components)
    requires Matches(u, c) && Common(c) && Parse(u).Some?
    ensures Agrees(Parse(u).value, c)
  {
    hide Parse, Matches, Agrees;
    ParserAgreesExactly(u, c);
  }

  /** A text that is valid under RFC 3986 and rejected: the colons of an address in brackets
      are taken for the one before a port. */
  lemma BracketsRejected()
    ensures var u := "http://[::1]/";
            var c := Components(Some("http"), Some("[::1]"), "/", None, None);
            Matches(u, c) && Common(c) && Parse(u) == None
  {
    hide Parse, ParseAuthority, AcceptedAt;
    var u := "http://[::1]/";
    var c := Components(Some("http"), Some("[::1]"), "/", None, None);
    assert Recompose(c) == u;
    assert Matches(u, c);
    HttpIsValid();
    BracketsNoAuthority();
    hide AuthorityAccepted;
    AcceptedAlikeExactly(u, c);
    if Parse(u).Some? {
      ParserAgreesExactlyOnAccepted(u, c);
    }
  }

  lemma HttpIsValid()
    ensures Lower("http") == "http" && ValidScheme("http")
  {
    LowerOfValid("http");
  }

  lemma BracketsNoAuthority()
    ensures !AuthorityAccepted("[::1]")
  {
    hide AuthorityForm, FindFirstOf, StrToL, Number;
    var a := "[::1]";
    FirstAfter(a, '@', None);
    assert a + Optional("@", None) == a;
    assert a == "[" + Optional(":", Some(":1]"));
    FirstAfter("[", ':', Some(":1]"));
    NumberRead(":1]");
    NoNumber(":1]");
    AuthorityAcceptedExactly(a);
  }
}
