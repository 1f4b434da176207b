/** The URI printer, the shape of the data a parse can produce, and the exact condition
    under which parsing the printed text gives the data back. */
module UriPrint {
  import opened Wrappers
  import opened Numerals
  import opened UriText
  import opened UriQuery
  import opened UriParse

  // ---------------------------------------------------------------- the printer

  /** operator<< and to_string. */
  function Print(d: UriData): string {
    (if d.scheme != "" then d.scheme + "://" else "")
    + (if d.host != "" then
         (if d.userinfo != "" then d.userinfo + "@" else "")
         + d.host
         + (if d.port != 0 then ":" + Decimal(d.port) else "")
       else "")
    + d.path
    + (if d.query != "" then "?" + d.query else "")
    + (if d.fragment != "" then "#" + d.fragment else "")
  }

  // ---------------------------------------------------------------- what a parse produces

  predicate BearsAuthority(scheme: string) { scheme != "" && scheme != "file" }

  /** The data of accepted texts. */
  predicate Shaped(d: UriData) {
    && (d.scheme == "" || ValidScheme(d.scheme))
    && (d.scheme == "" ==> SchemeSplit(d.path).0 == "")
    && (!BearsAuthority(d.scheme) ==> d.host == "")
    && (BearsAuthority(d.scheme) ==> d.path == "" || d.path[0] == '/')
    && (d.host == "" ==> d.userinfo == "" && d.port == 0)
    && Free(d.host, DELIMITERS + {':'})
    && Free(d.userinfo, DELIMITERS + {'@'})
    && d.port < 0x1_0000
    && Free(d.path, TAIL)
    && Free(d.query, {'#'})
    && d.queryMap == QueryMap(d.query)
  }

  // ---------------------------------------------------------------- parsing assembled text

  function Optional(lead: string, part: Option<string>): string {
    match part case None => "" case Some(s) => lead + s
  }

  function OrEmpty(part: Option<string>): string {
    match part case None => "" case Some(s) => s
  }

  function Tail(path: string, query: Option<string>, fragment: Option<string>): string {
    path + Optional("?", query) + Optional("#", fragment)
  }

  /** Data before its path is read. */
  predicate BeforePath(d: UriData) {
    d.path == "" && d.query == "" && d.fragment == "" && d.queryMap == map[]
  }

  function WithTail(d: UriData, path: string, query: string, fragment: string): UriData {
    d.(path := path, query := query, fragment := fragment, queryMap := QueryMap(query))
  }

  lemma EmptyQueryMap()
    ensures QueryMap("") == map[]
  {
    EnterEmpty(map[]);
  }

  lemma FragmentParses(d: UriData, fragment: Option<string>)
    requires d.fragment == ""
    ensures FromFragment(d, Optional("#", fragment)) == Some(d.(fragment := OrEmpty(fragment)))
  {
    if fragment.Some? {
      assert ("#" + fragment.value)[1..] == fragment.value;
    }
  }

  lemma QueryParses(d: UriData, query: Option<string>, fragment: Option<string>)
    requires d.query == "" && d.fragment == "" && d.queryMap == map[]
    requires query.Some? ==> Free(query.value, {'#'})
    ensures var u := Optional("?", query) + Optional("#", fragment);
            (u == "" || u[0] in TAIL) &&
            FromQuery(d, u) == Some(WithTail(d, d.path, OrEmpty(query), OrEmpty(fragment)))
  {
    hide QueryMap, FromFragment;
    EmptyQueryMap();
    var f := Optional("#", fragment);
    var u := Optional("?", query) + f;
    var q := OrEmpty(query);
    FragmentParses(d.(query := q, queryMap := QueryMap(q)), fragment);
    if query.Some? {
      FirstHit("?" + q, f, {'#'});
      assert u[1..|q| + 1] == q && u[|q| + 1..] == f;
    } else if fragment.Some? {
      assert u == f;
      FirstHit("", f, {'#'});
      assert "" + f == f;
    }
  }

  /** A path free of '?' and '#' with an optional query and fragment is read as such. */
  lemma TailParses(d: UriData, path: string, query: Option<string>, fragment: Option<string>)
    requires BeforePath(d) && Free(path, TAIL)
    requires query.Some? ==> Free(query.value, {'#'})
    ensures FromPath(d, Tail(path, query, fragment)) ==
            Some(WithTail(d, path, OrEmpty(query), OrEmpty(fragment)))
  {
    hide FromQuery, QueryMap, PathSplit, Optional;
    var rest := Optional("?", query) + Optional("#", fragment);
    QueryParses(d.(path := path), query, fragment);
    PathSplits(path, rest);
    assert Tail(path, query, fragment) == path + rest;
  }

  lemma PathSplits(path: string, rest: string)
    requires Free(path, TAIL) && (rest == "" || rest[0] in TAIL)
    ensures PathSplit(path + rest) == (path, rest)
  {
    FirstHit(path, rest, TAIL);
    assert (path + rest)[..|path|] == path && (path + rest)[|path|..] == rest;
  }

  lemma SchemeSplits(s: string, rest: string)
    requires s != "" && Free(s, DELIMITERS)
    ensures SchemeSplit(s + "://" + rest) == (s, rest)
  {
    hide SchemeSplit;
    var u := s + "://" + rest;
    assert u[..|s|] == s && u[|s| + 3..] == rest;
    assert u[|s|..|s| + 3] == "://";
    SchemeSplitAt(u, |s|);
  }

  lemma AuthoritySplits(a: string, rest: string)
    requires Free(a, DELIMITERS) && (rest == "" || rest[0] in DELIMITERS)
    ensures AuthoritySplit(a + rest) == (a, rest)
  {
    FirstHit(a, rest, DELIMITERS);
    assert (a + rest)[..|a|] == a && (a + rest)[|a|..] == rest;
  }

  lemma LowerOfValid(s: string)
    requires forall i :: 0 <= i < |s| ==> IsSchemeChar(s[i])
    ensures Lower(s) == s
  {}

  // ---------------------------------------------------------------- the authority

  function PortText(port: nat): string {
    if port != 0 then ":" + Decimal(port) else ""
  }

  function AuthorityText(userinfo: string, at: bool, host: string, port: nat): string {
    (if at then userinfo + "@" else "") + host + PortText(port)
  }

  lemma PortTextFree(port: nat)
    ensures Free(PortText(port), DELIMITERS + {'@'})
  {
    hide Decimal;
  }

  /** The authorities that are accepted, and their parts: an '@' ends the userinfo at the first
      one, a ':' ends a non-empty host, and after it stands a whole number, cut to 16 bits. */
  ghost predicate AuthorityForm(a: string, r: Authority, at: bool, port: Option<string>) {
    && (if at then a == r.userinfo + Optional("@", Some(r.host + Optional(":", port))) && Free(r.userinfo, {'@'})
        else a == r.host + Optional(":", port) && r.userinfo == "" && Free(a, {'@'}))
    && r.host != "" && Free(r.host, {':'})
    && (match port
        case None => r.port == 0
        case Some(p) => IsNumber(p) && r.port == StrToL(p).value % 0x1_0000)
  }

  /** The splitter accepts exactly these texts, with exactly these parts. */
  lemma AuthorityExactly(a: string, r: Authority)
    ensures ParseAuthority(a) == Some(r) <==> exists at, port :: AuthorityForm(a, r, at, port)
  {
    hide ParseAuthority, AuthorityForm;
    if ParseAuthority(a) == Some(r) {
      var at, port := AuthorityParts(a);
    }
    if at, port :| AuthorityForm(a, r, at, port) {
      AuthorityFormParses(a, r, at, port);
    }
  }

  /** The text cut at its first c. */
  lemma CutAtFirst(s: string, c: char) returns (after: Option<string>)
    ensures var i := FindFirstOf(s, {c});
            after == (if i < |s| then Some(s[i + 1..]) else None) && s == s[..i] + Optional([c], after)
  {
    hide FindFirstOf;
    var i := FindFirstOf(s, {c});
    after := if i < |s| then Some(s[i + 1..]) else None;
    if i < |s| {
      assert s == s[..i] + ([c] + s[i + 1..]);
    }
  }

  lemma AuthorityParts(a: string) returns (at: bool, port: Option<string>)
    requires ParseAuthority(a).Some?
    ensures AuthorityForm(a, ParseAuthority(a).value, at, port)
  {
    hide FindFirstOf, StrToL, Number, Free, IsNumber, Optional;
    var i := FindFirstOf(a, {'@'});
    var tail := CutAtFirst(a, '@');
    at := i < |a|;
    var rest := if at then a[i + 1..] else a;
    var colon := FindFirstOf(rest, {':'});
    port := CutAtFirst(rest, ':');
    if port.Some? {
      NumberRead(port.value);
    }
    var r := ParseAuthority(a).value;
    assert r.host == rest[..colon];
    assert r.userinfo == if at then a[..i] else "";
    assert a[..|a|] == a;
    assert port.Some? ==> r.port == StrToL(port.value).value % 0x1_0000 && IsNumber(port.value);
    assert port.None? ==> r.port == 0;
    hide ParseAuthority;
  }

  lemma AuthorityFormParses(a: string, r: Authority, at: bool, port: Option<string>)
    requires AuthorityForm(a, r, at, port)
    ensures ParseAuthority(a) == Some(r)
  {
    hide FindFirstOf, StrToL, Number, Free, IsNumber, Optional;
    var rest := r.host + Optional(":", port);
    FirstAfter(r.host, ':', port);
    if at {
      FirstAfter(r.userinfo, '@', Some(rest));
    } else {
      FirstAfter(a, '@', None);
      NothingAfter(a, "@");
    }
    if port.Some? {
      NumberRead(port.value);
    }
  }

  lemma NothingAfter(s: string, lead: string)
    ensures s + Optional(lead, None) == s
  {}

  /** Cutting where a free text ends. */
  lemma FirstAfter(s: string, c: char, after: Option<string>)
    requires Free(s, {c})
    ensures var t := s + Optional([c], after);
            var i := FindFirstOf(t, {c});
            i == |s| && t[..i] == s && (if after.Some? then i < |t| && t[i + 1..] == after.value else i == |t|)
  {
    hide FindFirstOf;
    FirstHit(s, Optional([c], after), {c});
  }

  lemma PortOptional(port: nat)
    ensures PortText(port) == Optional(":", if port != 0 then Some(Decimal(port)) else None)
  {}

  lemma OptionalSome(lead: string, part: string)
    ensures Optional(lead, Some(part)) == lead + part
  {}

  /** An authority is read back when it has an '@' to split at, or no '@' at all. */
  lemma AuthorityParses(userinfo: string, at: bool, host: string, port: nat)
    requires host != "" && Free(host, {':'}) && port < 0x1_0000
    requires at ==> Free(userinfo, {'@'})
    requires !at ==> userinfo == "" && '@' !in host
    ensures AuthorityText(userinfo, at, host, port) != ""
    ensures ParseAuthority(AuthorityText(userinfo, at, host, port)) == Some(Authority(userinfo, host, port))
  {
    hide ParseAuthority, Decimal, StrToL, Number, Optional, AuthorityText, PortText, Free;
    var p := if port != 0 then Some(Decimal(port)) else None;
    DecimalRead(port);
    NumberRead(Decimal(port));
    PortOptional(port);
    AuthorityTextParts(userinfo, at, host, port);
    AuthorityFormParses(AuthorityText(userinfo, at, host, port), Authority(userinfo, host, port), at, p);
  }

  lemma AuthorityTextParts(userinfo: string, at: bool, host: string, port: nat)
    requires host != ""
    ensures var a, rest := AuthorityText(userinfo, at, host, port), host + PortText(port);
            && a != ""
            && (at ==> a == userinfo + Optional("@", Some(rest)))
            && (!at ==> a == rest && ('@' !in host ==> Free(a, {'@'})))
  {
    var p := PortText(port);
    if at {
      Regroup(userinfo, "@", host, p);
      OptionalSome("@", host + p);
    } else {
      assert "" + host + p == host + p;
      PortTextFree(port);
      hide PortText;
    }
  }

  /** Any decimal port is accepted, however large, but it is kept only when it fits 16 bits. */
  lemma PortKept(host: string, n: nat)
    requires host != "" && Free(host, {':', '@'})
    ensures var port := (if n > 0x7fff_ffff_ffff_ffff then 0x7fff_ffff_ffff_ffff else n) % 0x1_0000;
            && ParseAuthority(host + ":" + Decimal(n)) == Some(Authority("", host, port))
            && (port == n <==> n < 0x1_0000)
  {
    hide ParseAuthority, Decimal, StrToL, Number;
    var a := host + ":" + Decimal(n);
    DecimalRead(n);
    NumberRead(Decimal(n));
    assert forall c :: c in Decimal(n) ==> c != '@';
    assert a == host + (":" + Decimal(n));
    assert Free(host, {':'}) && Free(a, {'@'});
    var port := (if n > LONG_MAX then LONG_MAX else n) % 0x1_0000;
    AuthorityFormParses(a, Authority("", host, port), false, Some(Decimal(n)));
  }

  /** A host with an '@' and no userinfo before it is cut at that '@'. */
  lemma AuthorityMisread(host: string, port: nat)
    requires '@' in host && Free(host, {':'})
    ensures match ParseAuthority(AuthorityText("", false, host, port))
            case None => true
            case Some(a) => a.host != host
  {
    hide StrToL, PortText, FindFirstOf, Optional, Free, AuthorityText;
    var i, tail := HostCut(host, port);
    var p := if port != 0 then Some(Decimal(port)) else None;
    PortOptional(port);
    FirstAfter(host[..i], '@', Some(tail + PortText(port)));
    FirstAfter(tail, ':', p);
  }

  /** The host cut at its first '@'. */
  lemma HostCut(host: string, port: nat) returns (i: nat, tail: string)
    requires '@' in host && Free(host, {':'})
    ensures i < |host| && Free(host[..i], {'@'}) && Free(tail, {':'}) && |tail| < |host|
    ensures AuthorityText("", false, host, port) == host[..i] + Optional("@", Some(tail + PortText(port)))
  {
    hide PortText, FindFirstOf, AuthorityText, Optional, Free;
    i := FirstAt(host);
    tail := host[i + 1..];
    FreeSlice(host, i + 1, |host|, {':'});
    assert host[i + 1..|host|] == tail;
    assert host == host[..i] + "@" + tail;
    AuthorityTextParts("", false, host, port);
    Regroup(host[..i], "@", tail, PortText(port));
    OptionalSome("@", tail + PortText(port));
  }

  lemma Regroup(x: string, lead: string, tail: string, p: string)
    ensures x + lead + tail + p == x + (lead + (tail + p))
  {}

  lemma FirstAt(host: string) returns (i: nat)
    requires '@' in host
    ensures i == FindFirstOf(host, {'@'}) && i < |host| && host[i] == '@' && Free(host[..i], {'@'})
  {
    i := FindFirstOf(host, {'@'});
    assert host[..|host|] == host;
  }

  /** A host free of ':' that has an '@' only behind a userinfo, which must have none. */
  predicate Readable(userinfo: string, host: string, port: nat) {
    && host != "" && Free(host, {':'}) && port < 0x1_0000
    && Free(userinfo, {'@'}) && (userinfo == "" ==> '@' !in host)
  }

  /** The compound authority is read back exactly when it is readable. */
  lemma ReadableExactly(userinfo: string, host: string, port: nat)
    ensures ParseAuthority(AuthorityText(userinfo, userinfo != "", host, port)) == Some(Authority(userinfo, host, port))
            <==> Readable(userinfo, host, port)
  {
    hide ParseAuthority, AuthorityText;
    var a := AuthorityText(userinfo, userinfo != "", host, port);
    if ParseAuthority(a) == Some(Authority(userinfo, host, port)) {
      var at, p := AuthorityParts(a);
      if userinfo == "" && '@' in host {
        AuthorityMisread(host, port);
      }
    }
    if Readable(userinfo, host, port) {
      AuthorityParses(userinfo, userinfo != "", host, port);
    }
  }

  /** The compound authority has just the delimiters that its parts need. */
  lemma AuthorityTextForm(userinfo: string, host: string, port: nat)
    requires Readable(userinfo, host, port)
    ensures AuthorityForm(AuthorityText(userinfo, userinfo != "", host, port), Authority(userinfo, host, port),
                          userinfo != "", if port != 0 then Some(Decimal(port)) else None)
  {
    hide Decimal, StrToL, Number, Optional, AuthorityText, PortText, Free;
    DecimalRead(port);
    NumberRead(Decimal(port));
    PortOptional(port);
    AuthorityTextParts(userinfo, userinfo != "", host, port);
  }

  // ---------------------------------------------------------------- the round trip

  /** The printed text, with the '@' written whether or not there is a userinfo. */
  function Assembled(d: UriData, at: bool): string {
    (if d.scheme != "" then d.scheme + "://" else "")
    + (if d.host != "" then AuthorityText(d.userinfo, at, d.host, d.port) else "")
    + Tail(d.path, Given(d.query), Given(d.fragment))
  }

  function Given(s: string): Option<string> {
    if s != "" then Some(s) else None
  }

  lemma PrintAssembles(d: UriData)
    ensures Print(d) == Assembled(d, d.userinfo != "")
  {
    hide Decimal;
    var s := if d.scheme != "" then d.scheme + "://" else "";
    var a := if d.host != "" then AuthorityText(d.userinfo, d.userinfo != "", d.host, d.port) else "";
    Associate(s, a, d.path, Optional("?", Given(d.query)), Optional("#", Given(d.fragment)));
  }

  /** The printed text, part by part: a delimiter is written exactly for a part that is there. */
  lemma PrintForm(d: UriData) returns (authority: string)
    requires d.host != "" ==> Readable(d.userinfo, d.host, d.port)
    ensures d.host == "" ==> authority == ""
    ensures d.host != "" ==>
              AuthorityForm(authority, Authority(d.userinfo, d.host, d.port),
                            d.userinfo != "", if d.port != 0 then Some(Decimal(d.port)) else None)
    ensures Print(d) ==
            (if d.scheme != "" then d.scheme + "://" else "") + authority
            + (d.path + Optional("?", if d.query != "" then Some(d.query) else None)
               + Optional("#", if d.fragment != "" then Some(d.fragment) else None))
  {
    hide Decimal, AuthorityForm, AuthorityText, Print, Optional, Readable;
    authority := if d.host != "" then AuthorityText(d.userinfo, d.userinfo != "", d.host, d.port) else "";
    PrintAssembles(d);
    if d.host != "" {
      AuthorityTextForm(d.userinfo, d.host, d.port);
    }
  }

  lemma Associate(s: string, a: string, p: string, q: string, f: string)
    ensures s + a + (p + q + f) == s + a + p + q + f
  {}

  /** Without a scheme of its own, a path does not gain one from what follows it. */
  lemma SchemelessSplits(path: string, rest: string)
    requires SchemeSplit(path).0 == "" && Free(path, TAIL)
    requires rest == "" || rest[0] in TAIL
    ensures SchemeSplit(path + rest) == ("", path + rest)
  {
    hide SchemeSplit;
    var u := path + rest;
    if SchemeSplit(u).0 != "" {
      var i := SchemeSplitSome(u);
      assert forall n :: 0 <= n < i ==> u[n] in u[..i];
      assert rest != "" ==> u[|path|] == rest[0];
      assert i + 3 <= |path|;
      assert path[..i] == u[..i];
      SchemeSplitAt(path, i);
    }
    NoScheme(u);
  }

  lemma NoScheme(u: string)
    requires SchemeSplit(u).0 == ""
    ensures SchemeSplit(u) == ("", u)
  {}

  lemma TailLead(path: string, query: Option<string>, fragment: Option<string>)
    requires path == "" || path[0] == '/'
    ensures var u := Tail(path, query, fragment); u == "" || u[0] in DELIMITERS
  {}

  lemma AuthorityTextFree(userinfo: string, at: bool, host: string, port: nat)
    requires Free(userinfo, DELIMITERS) && Free(host, DELIMITERS)
    ensures Free(AuthorityText(userinfo, at, host, port), DELIMITERS)
  {
    hide PortText;
    PortTextFree(port);
  }

  /** What is read from an assembled text after its scheme. */
  lemma AuthorityRead(d: UriData, at: bool)
    requires Shaped(d) && BearsAuthority(d.scheme)
    ensures var a := if d.host != "" then AuthorityText(d.userinfo, at, d.host, d.port) else "";
            var tail := Tail(d.path, Given(d.query), Given(d.fragment));
            AuthoritySplit(a + tail) == (a, tail)
  {
    hide Tail, AuthoritySplit, AuthorityText, QueryMap, SchemeSplit;
    TailLead(d.path, Given(d.query), Given(d.fragment));
    if d.host != "" {
      AuthorityTextFree(d.userinfo, at, d.host, d.port);
    }
    var a := if d.host != "" then AuthorityText(d.userinfo, at, d.host, d.port) else "";
    AuthoritySplits(a, Tail(d.path, Given(d.query), Given(d.fragment)));
  }

  lemma TailOfData(d: UriData, e: UriData)
    requires Shaped(d) && BeforePath(e)
    ensures FromPath(e, Tail(d.path, Given(d.query), Given(d.fragment))) ==
            Some(e.(path := d.path, query := d.query, fragment := d.fragment, queryMap := d.queryMap))
  {
    hide FromPath, Tail, QueryMap, SchemeSplit;
    TailParses(e, d.path, Given(d.query), Given(d.fragment));
  }

  lemma SchemeFree(s: string)
    requires ValidScheme(s)
    ensures Free(s, DELIMITERS) && Lower(s) == s
  {
    hide Lower;
    assert forall i :: 0 <= i < |s| ==> s[i] in s;
    LowerOfValid(s);
  }

  lemma FileIsValid()
    ensures ValidScheme("file")
  {}

  /** An assembled text parses back to its data, for every shaped data. */
  lemma AssembledParses(d: UriData, at: bool)
    requires Shaped(d)
    requires at || (d.userinfo == "" && '@' !in d.host)
    ensures Parse(Assembled(d, at)) == Some(d)
  {
    hide SchemeSplit, FromPath, Lower, Tail, AuthoritySplit, ParseAuthority, ValidScheme, AuthorityText, QueryMap;
    var u := Assembled(d, at);
    var tail := Tail(d.path, Given(d.query), Given(d.fragment));
    var e := EMPTY.(scheme := d.scheme);
    if d.scheme == "" {
      assert u == tail;
      SchemelessTail(d.path, Given(d.query), Given(d.fragment));
      TailOfData(d, e);
    } else {
      var a := if d.host != "" then AuthorityText(d.userinfo, at, d.host, d.port) else "";
      assert u == d.scheme + "://" + (a + tail);
      SchemeFree(d.scheme);
      SchemeSplits(d.scheme, a + tail);
      if d.scheme == "file" {
        assert a + tail == tail;
        TailOfData(d, e);
      } else {
        AuthorityRead(d, at);
        if d.host == "" {
          TailOfData(d, e);
        } else {
          AuthorityParses(d.userinfo, at, d.host, d.port);
          TailOfData(d, e.(userinfo := d.userinfo, host := d.host, port := d.port));
        }
      }
    }
  }

  lemma SchemelessTail(path: string, query: Option<string>, fragment: Option<string>)
    requires SchemeSplit(path).0 == "" && Free(path, TAIL)
    ensures SchemeSplit(Tail(path, query, fragment)) == ("", Tail(path, query, fragment))
    ensures Lower("") == ""
  {
    hide SchemeSplit;
    var rest := Optional("?", query) + Optional("#", fragment);
    assert Tail(path, query, fragment) == path + rest;
    SchemelessSplits(path, rest);
  }

  /** For all data, however it was made: parsing the printed text returns the same scheme,
      userinfo, host, port, path, query, fragment and map exactly when the data is shaped and
      a host with an '@' has a userinfo before it. */
  lemma RoundTrip(d: UriData)
    ensures Parse(Print(d)) == Some(d) <==> Shaped(d) && (d.userinfo == "" ==> '@' !in d.host)
  {
    hide Parse, Assembled, Shaped, Print;
    if Parse(Print(d)) == Some(d) {
      ParseShaped(Print(d));
    }
    if Shaped(d) {
      PrintAssembles(d);
      if d.userinfo != "" || '@' !in d.host {
        AssembledParses(d, d.userinfo != "");
      } else {
        HostMisread(d);
      }
    }
  }

  lemma HostMisread(d: UriData)
    requires Shaped(d) && d.userinfo == "" && '@' in d.host
    ensures Parse(Assembled(d, false)) != Some(d)
  {
    hide SchemeSplit, FromPath, Lower, Tail, AuthoritySplit, ParseAuthority, ValidScheme, AuthorityText, QueryMap;
    var tail := Tail(d.path, Given(d.query), Given(d.fragment));
    var a := AuthorityText("", false, d.host, d.port);
    assert Assembled(d, false) == d.scheme + "://" + (a + tail);
    SchemeFree(d.scheme);
    SchemeSplits(d.scheme, a + tail);
    AuthorityRead(d, false);
    AuthorityMisread(d.host, d.port);
    AuthorityTextSome(d.host, d.port);
    match ParseAuthority(a)
    case None =>
    case Some(b) =>
      TailOfData(d, EMPTY.(scheme := d.scheme, userinfo := b.userinfo, host := b.host, port := b.port));
  }

  lemma AuthorityTextSome(host: string, port: nat)
    requires host != ""
    ensures AuthorityText("", false, host, port) != ""
  {}

  // ---------------------------------------------------------------- the image of the parser

  lemma AuthorityShape(a: string)
    requires Free(a, DELIMITERS) && ParseAuthority(a).Some?
    ensures var r := ParseAuthority(a).value;
            && r.host != "" && r.port < 0x1_0000
            && Free(r.host, DELIMITERS + {':'}) && Free(r.userinfo, DELIMITERS + {'@'})
  {
    hide FindFirstOf, StrToL, Free;
    var at := FindFirstOf(a, {'@'});
    var rest := if at == |a| then a else a[at + 1..];
    var colon := FindFirstOf(rest, {':'});
    FreeSlice(a, 0, at, DELIMITERS);
    FreeUnion(a[..at], DELIMITERS, {'@'});
    if at < |a| {
      FreeSlice(a, at + 1, |a|, DELIMITERS);
    }
    FreeSlice(rest, 0, colon, DELIMITERS);
    FreeUnion(rest[..colon], DELIMITERS, {':'});
    FreeEmpty(DELIMITERS + {'@'});
  }

  lemma FreeEmpty(chars: set<char>)
    ensures Free("", chars)
  {}

  lemma TailShape(d: UriData, u: string)
    requires BeforePath(d)
    ensures FromPath(d, u).Some?
    ensures var r := FromPath(d, u).value;
            && Free(r.path, TAIL) && Free(r.query, {'#'}) && r.queryMap == QueryMap(r.query)
            && r == d.(path := r.path, query := r.query, queryMap := r.queryMap, fragment := r.fragment)
            && r.path == PathSplit(u).0
  {
    hide FindFirstOf, QueryMap;
    EmptyQueryMap();
    var (path, rest) := PathSplit(u);
    if rest != "" {
      var i := FindFirstOf(rest, {'#'});
      if i > 0 {
        assert forall c :: c in rest[1..i] ==> c in rest[..i];
      }
    }
  }

  /** Every accepted text produces shaped data. */
  lemma ParseShaped(u: string)
    requires Parse(u).Some?
    ensures Shaped(Parse(u).value)
  {
    hide SchemeSplit, FromPath, Lower, AuthoritySplit, ParseAuthority, ValidScheme, QueryMap, Free, PathSplit;
    var (text, rest) := SchemeSplit(u);
    var scheme := Lower(text);
    var d := EMPTY.(scheme := scheme);
    FreeEmpty(DELIMITERS + {':'});
    FreeEmpty(DELIMITERS + {'@'});
    if scheme == "" {
      LowerEmpty(text);
      NoScheme(u);
      TailShape(d, u);
      SchemelessPath(u);
    } else if scheme == "file" {
      TailShape(d, rest);
    } else {
      var (a, r) := AuthoritySplit(rest);
      AuthoritySplitShape(rest);
      if a == "" {
        TailShape(d, r);
      } else {
        AuthorityShape(a);
        var b := ParseAuthority(a).value;
        TailShape(d.(userinfo := b.userinfo, host := b.host, port := b.port), r);
      }
    }
  }

  lemma LowerEmpty(s: string)
    requires Lower(s) == ""
    ensures s == ""
  {}

  lemma AuthoritySplitShape(u: string)
    ensures var (a, r) := AuthoritySplit(u);
            Free(a, DELIMITERS) && (PathSplit(r).0 == "" || PathSplit(r).0[0] == '/')
  {}

  /** The path of a text without a scheme has none either. */
  lemma SchemelessPath(u: string)
    requires SchemeSplit(u).0 == ""
    ensures SchemeSplit(PathSplit(u).0).0 == ""
  {
    hide SchemeSplit, FindFirstOf;
    var path := PathSplit(u).0;
    if SchemeSplit(path).0 != "" {
      var i := SchemeSplitSome(path);
      assert u[..i] == path[..i];
      SchemeSplitAt(u, i);
    }
  }

  /** The shape describes exactly the results of the parser. */
  lemma ShapedIsImage(d: UriData)
    ensures Shaped(d) <==> exists u :: Parse(u) == Some(d)
  {
    hide Parse, Shaped, Assembled;
    if Shaped(d) {
      AssembledParses(d, true);
    }
    if u :| Parse(u) == Some(d) {
      ParseShaped(u);
    }
  }

  /** For every accepted text: print and parse again, and nothing changes, exactly when the
      parsed host holds no '@' or a userinfo came before it. */
  lemma ParsePrintParse(u: string)
    requires Parse(u).Some?
    ensures var d := Parse(u).value;
            Parse(Print(d)) == Some(d) <==> (d.userinfo == "" ==> '@' !in d.host)
  {
    hide Parse, Shaped, Print;
    ParseShaped(u);
    RoundTrip(Parse(u).value);
  }

  /** An accepted text that does not survive: the '@' of an empty userinfo is not printed, so
      the second parse takes part of the host for the userinfo. */
  lemma EmptyUserinfoLost()
    ensures var d := EMPTY.(scheme := "foo", host := "a@b");
            Parse("foo://@a@b") == Some(d) && Print(d) == "foo://a@b" && Parse("foo://a@b") != Some(d)
  {
    hide Parse, Shaped, Print, Assembled;
    var d := EMPTY.(scheme := "foo", host := "a@b");
    LostShaped();
    LostTexts();
    assert d.host[1] == '@' && '@' in d.host;
    AssembledParses(d, true);
    RoundTrip(d);
  }

  lemma LostShaped()
    ensures Shaped(EMPTY.(scheme := "foo", host := "a@b"))
  {
    hide SchemeSplit, QueryMap;
    EmptyQueryMap();
    NoSchemeInNothing();
  }

  lemma LostTexts()
    ensures var d := EMPTY.(scheme := "foo", host := "a@b");
            Assembled(d, true) == "foo://@a@b" && Print(d) == "foo://a@b"
  {
    assert Tail("", None, None) == "";
  }

  lemma NoSchemeInNothing()
    ensures SchemeSplit("").0 == ""
  {}

  // ---------------------------------------------------------------- the documented example

  const EXAMPLE: string :=
    "http://" + ("bob@" + "www.example.com" + ":8080") + "/path/" + "?key=value&foo=bar" + "#fragment"

  const EXAMPLE_DATA: UriData :=
    UriData("http", "bob", "www.example.com", 8080, "/path/", "key=value&foo=bar", "fragment",
            map["key" := "value", "foo" := "bar"])

  /** The example of the header's documentation has the parts given there, and prints back. */
  lemma DocumentedExample()
    ensures Parse(EXAMPLE) == Some(EXAMPLE_DATA) && Print(EXAMPLE_DATA) == EXAMPLE
  {
    hide Parse, Shaped, Print;
    ExampleShaped();
    ExamplePrint();
    ExampleUserinfo();
    RoundTrip(EXAMPLE_DATA);
  }

  lemma ExampleUserinfo()
    ensures EXAMPLE_DATA.userinfo != ""
  {}

  lemma ExampleShaped()
    ensures Shaped(EXAMPLE_DATA)
  {
    hide SchemeSplit, QueryMap, Free, ValidScheme;
    ExampleQuery();
    ExampleShape();
  }

  lemma ExamplePrint()
    ensures Print(EXAMPLE_DATA) == EXAMPLE
  {
    hide Decimal;
    ExamplePort();
    ExampleJoins();
  }

  lemma ExampleJoins()
    ensures "http" + "://" == "http://" && "bob" + "@" == "bob@" && ":" + "8080" == ":8080"
    ensures "?" + "key=value&foo=bar" == "?key=value&foo=bar" && "#" + "fragment" == "#fragment"
  {}

  lemma ExampleShape()
    ensures ValidScheme("http")
    ensures Free("www.example.com", DELIMITERS + {':'}) && Free("bob", DELIMITERS + {'@'})
    ensures Free("/path/", TAIL) && Free("key=value&foo=bar", {'#'})
  {}

  lemma ExamplePort()
    ensures Decimal(8080) == "8080"
  {
    hide Digit, DigitValue;
    assert Printed(8, 10) == [Digit(8)];
    assert Printed(80, 10) == [Digit(8)] + [Digit(0)];
    assert Printed(808, 10) == [Digit(8)] + [Digit(0)] + [Digit(8)];
    assert Printed(8080, 10) == [Digit(8)] + [Digit(0)] + [Digit(8)] + [Digit(0)];
    ExampleDigits();
  }

  lemma ExampleDigits()
    ensures Digit(8) == '8' && Digit(0) == '0'
  {}

  lemma ExampleQuery()
    ensures QueryMap("key=value&foo=bar") == map["key" := "value", "foo" := "bar"]
  {
    hide Enter, EnterAll, Pieces;
    var p := ["key=value", "foo=bar"];
    assert Join(["foo=bar"], '&') == "foo=bar";
    assert p[1..] == ["foo=bar"];
    assert Join(p, '&') == "key=value&foo=bar";
    PiecesJoin(p, '&');
    ExampleEntries();
  }

  lemma ExampleEntries()
    ensures EnterAll(map[], ["key=value", "foo=bar"]) == map["key" := "value", "foo" := "bar"]
  {
    hide Enter;
    var p := ["key=value", "foo=bar"];
    assert p[1..] == ["foo=bar"] && ["foo=bar"][1..] == [];
    assert Entry("key", "value") == "key=value" && Entry("foo", "bar") == "foo=bar";
    EnterEntry(map[], "key", "value");
    EnterEntry(map["key" := "value"], "foo", "bar");
    var m := map["key" := "value"];
    assert map[]["key" := "value"] == m && m["foo" := "bar"] == map["key" := "value", "foo" := "bar"];
    assert Enter(m, "foo=bar") == m["foo" := "bar"];
    assert EnterAll(m, ["foo=bar"]) == EnterAll(m["foo" := "bar"], []);
  }
}
