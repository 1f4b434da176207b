/** The URI parser: a state machine that consumes its input part by part. */
module UriParse {
  import opened Wrappers
  import opened UriText
  import opened UriQuery

  datatype UriData = UriData(scheme: string, userinfo: string, host: string, port: nat,
                             path: string, query: string, fragment: string, queryMap: KVMap)

  const EMPTY := UriData("", "", "", 0, "", "", "", map[])

  const DELIMITERS: set<char> := {'/', '?', '#'}
  const TAIL: set<char> := {'?', '#'}

  // ---------------------------------------------------------------- the reference, part by part

  /** The scheme: the text before the first "://", unless that is at the start or a delimiter
      comes earlier; then there is none and nothing is consumed. */
  function SchemeSplit(u: string): (string, string) {
    var i := Find(u, "://");
    if i == |u| || i == 0 || FindFirstOf(u, DELIMITERS) < i then ("", u) else (u[..i], u[i + 3..])
  }

  /** Where a scheme ends: at a "://" before which there is text but no delimiter. */
  predicate SchemeAt(u: string, i: nat) {
    0 < i && i + 3 <= |u| && u[i] == ':' && u[i + 1] == '/' && u[i + 2] == '/' && Free(u[..i], DELIMITERS)
  }

  lemma NoEarlierSeparator(u: string, i: nat, n: nat)
    requires SchemeAt(u, i) && n < i
    ensures !("://" <= u[n..])
  {
    if n + 1 < i {
      assert u[..i][n + 1] in u[..i];
    }
    assert u[n + 1] != '/';
    assert u[n..][1] == u[n + 1] && "://"[1] == '/';
  }

  lemma SchemeSplitAt(u: string, i: nat)
    requires SchemeAt(u, i)
    ensures SchemeSplit(u) == (u[..i], u[i + 3..])
  {
    hide FindFirstOf, Find;
    var j := Find(u, "://");
    assert u[i..][..3] == "://";
    assert "://" <= u[i..];
    forall n | 0 <= n < i
      ensures !("://" <= u[n..])
    {
      NoEarlierSeparator(u, i, n);
    }
    assert j == i;
    assert u == u[..i] + u[i..];
    assert u == (u[..i] + ":") + u[i + 1..];
    FirstHit(u[..i] + ":", u[i + 1..], DELIMITERS);
  }

  lemma SchemeSplitSome(u: string) returns (i: nat)
    requires SchemeSplit(u).0 != ""
    ensures SchemeAt(u, i)
  {
    hide FindFirstOf, Find;
    i := Find(u, "://");
    var k := FindFirstOf(u, DELIMITERS);
    assert u[i..][0] == ':' && u[i..][1] == '/' && u[i..][2] == '/';
    assert u[..k][..i] == u[..i];
    assert forall n :: 0 <= n < i ==> u[..i][n] == u[..k][n];
  }

  function AuthoritySplit(u: string): (string, string) {
    var i := FindFirstOf(u, DELIMITERS);
    (u[..i], u[i..])
  }

  function PathSplit(u: string): (string, string) {
    var i := FindFirstOf(u, TAIL);
    (u[..i], u[i..])
  }

  /** Without its leading '?'; absent when the text starts with '#'. */
  function QuerySplit(u: string): (string, string)
    requires u != "" && u[0] in TAIL
  {
    var i := FindFirstOf(u, {'#'});
    if i == 0 then ("", u) else (u[1..i], u[i..])
  }

  function ToLower(c: char): char {
    if 'A' <= c <= 'Z' then c - 'A' + 'a' else c
  }

  function Lower(s: string): (r: string)
    ensures |r| == |s|
    ensures forall i :: 0 <= i < |s| ==> r[i] == ToLower(s[i])
  {
    if s == "" then "" else [ToLower(s[0])] + Lower(s[1..])
  }

  predicate IsLetter(c: char) { 'a' <= c <= 'z' }

  predicate IsSchemeChar(c: char) {
    IsLetter(c) || '0' <= c <= '9' || c == '+' || c == '-' || c == '.'
  }

  predicate ValidScheme(s: string) {
    s != "" && IsLetter(s[0]) && forall c :: c in s ==> IsSchemeChar(c)
  }

  /** A letter in either case, by its code. */
  predicate LetterCode(n: int) { 65 <= n <= 90 || 97 <= n <= 122 }

  /** The scheme of section 3.1 of RFC 3986, by codes: a letter, then letters, digits, plus,
      minus and dot. */
  predicate SchemeText(s: string) {
    && s != "" && LetterCode(s[0] as int)
    && forall i :: 0 <= i < |s| ==>
         var n := s[i] as int; LetterCode(n) || 48 <= n <= 57 || n == 43 || n == 45 || n == 46
  }

  lemma SchemeExactly(s: string)
    ensures ValidScheme(Lower(s)) <==> SchemeText(s)
  {
    hide Lower;
    var r := Lower(s);
    assert ValidScheme(r) <==> r != "" && IsLetter(r[0]) && forall i :: 0 <= i < |r| ==> IsSchemeChar(r[i]);
  }

  /** Lower case in numbers: capital letters move up by 32, nothing else changes. */
  lemma LowerCodes(s: string)
    ensures |Lower(s)| == |s|
    ensures forall k :: 0 <= k < |s| ==>
              Lower(s)[k] as int == s[k] as int + (if 65 <= s[k] as int <= 90 then 32 else 0)
  {}

  datatype Authority = Authority(userinfo: string, host: string, port: nat)

  /** Userinfo before the first '@', port after the next ':', host between; a port must be
      a number as a whole, a host must not be empty. */
  function ParseAuthority(a: string): Option<Authority> {
    var at := FindFirstOf(a, {'@'});
    var userinfo := if at == |a| then "" else a[..at];
    var rest := if at == |a| then a else a[at + 1..];
    var colon := FindFirstOf(rest, {':'});
    var host := rest[..colon];
    if host == "" then None
    else if colon == |rest| then Some(Authority(userinfo, host, 0))
    else
      var port := rest[colon + 1..];
      var number := StrToL(port);
      if port == "" || number.next != |port| then None
      else Some(Authority(userinfo, host, number.value % 0x1_0000))
  }

  function FromFragment(d: UriData, u: string): Option<UriData> {
    Some(if u == "" then d else d.(fragment := u[1..]))
  }

  function FromQuery(d: UriData, u: string): Option<UriData>
    requires u == "" || u[0] in TAIL
  {
    if u == "" then Some(d)
    else
      var (query, rest) := QuerySplit(u);
      FromFragment(d.(query := query, queryMap := QueryMap(query)), rest)
  }

  function FromPath(d: UriData, u: string): Option<UriData> {
    var (path, rest) := PathSplit(u);
    FromQuery(d.(path := path), rest)
  }

  function FromAuthority(d: UriData, u: string): Option<UriData> {
    var (text, rest) := AuthoritySplit(u);
    if text == "" then FromPath(d, rest)
    else
      match ParseAuthority(text)
      case None => None
      case Some(a) => FromPath(d.(userinfo := a.userinfo, host := a.host, port := a.port), rest)
  }

  function Parse(u: string): Option<UriData> {
    var (text, rest) := SchemeSplit(u);
    var scheme := Lower(text);
    var d := EMPTY.(scheme := scheme);
    if scheme == "" then FromPath(d, rest)
    else if !ValidScheme(scheme) then None
    else if scheme == "file" then FromPath(d, rest)
    else FromAuthority(d, rest)
  }

  // ---------------------------------------------------------------- the program

  datatype UriPart = SCHEME | AUTHORITY | PATH | QUERY | FRAGMENT {
    function Index(): (i: nat)
      ensures i < 5
    {
      match this case SCHEME => 0 case AUTHORITY => 1 case PATH => 2 case QUERY => 3 case FRAGMENT => 4
    }
  }

  const SEPARATORS: seq<string> := ["://", "/?#", "?#", "#", ""]
  const DISALLOWED: seq<string> := ["/?#", "", "", "", ""]
  const NEEDS_SEPARATOR: seq<bool> := [true, false, false, false, false]
  const SKIP: seq<nat> := [0, 0, 0, 1, 1]
  const POST_SKIP: seq<nat> := [3, 0, 0, 0, 0]

  function Chars(s: string): set<char> { set c | c in s }

  /** What the assertion on the first character demands. */
  predicate FirstAllowed(part: UriPart, input: string) {
    (part == QUERY ==> input != "" && input[0] in TAIL) && (part == FRAGMENT ==> input != "" && input[0] == '#')
  }

  /** The output and the remaining input of a part. */
  function PartSplit(part: UriPart, input: string): (string, string)
    requires FirstAllowed(part, input)
  {
    match part
    case SCHEME => SchemeSplit(input)
    case AUTHORITY => AuthoritySplit(input)
    case PATH => PathSplit(input)
    case QUERY => QuerySplit(input)
    case FRAGMENT => (input[1..], "")
  }

  /** The table-driven step; the two assertions of the source are assertions here. */
  method ParseUriPart(input: string, part: UriPart) returns (output: string, rest: string)
    requires input != "" && FirstAllowed(part, input)
    ensures (output, rest) == PartSplit(part, input)
  {
    TableSets();
    var p := part.Index();
    var pos;
    if part == SCHEME {
      pos := Find(input, SEPARATORS[p]);
    } else {
      pos := FindFirstOf(input, Chars(SEPARATORS[p]));
    }
    if pos == |input| {
      if NEEDS_SEPARATOR[p] {
        return "", input;
      }
    } else if pos == 0 || (DISALLOWED[p] != "" && FindFirstOf(input, Chars(DISALLOWED[p])) < pos) {
      assert input[..0] == "" && input[0..] == input;
      return "", input;
    }
    assert pos == 0 || ((part == QUERY ==> input[0] == '?') && (part == FRAGMENT ==> input[0] == '#'));
    assert |input| >= SKIP[p];
    assert input[pos..pos] == "" && input[..|input|] == input;
    output := input[SKIP[p]..pos];
    rest := if pos == |input| then "" else input[pos + POST_SKIP[p]..];
  }

  lemma TableSets()
    ensures Chars("/?#") == DELIMITERS && Chars("?#") == TAIL && Chars("#") == {'#'} && Chars("") == {}
  {
    assert forall c :: c in "/?#" <==> c == '/' || c == '?' || c == '#';
    assert forall c :: c in "?#" <==> c == '?' || c == '#';
    assert forall c :: c in "#" <==> c == '#';
  }

  /** The remaining result from a state of the machine. */
  function Resume(part: UriPart, d: UriData, u: string): Option<UriData>
    requires u == "" || FirstAllowed(part, u)
  {
    match part
    case SCHEME => Parse(u)
    case AUTHORITY => FromAuthority(d, u)
    case PATH => FromPath(d, u)
    case QUERY => FromQuery(d, u)
    case FRAGMENT => FromFragment(d, u)
  }

  lemma SchemeStep(u: string)
    ensures var (text, rest) := SchemeSplit(u);
            var d := EMPTY.(scheme := Lower(text));
            Parse(u) ==
            if d.scheme != "" && !ValidScheme(d.scheme) then None
            else Resume(if d.scheme == "file" || d.scheme == "" then PATH else AUTHORITY, d, rest)
  {
    hide FromPath, FromAuthority, ValidScheme;
  }

  lemma AuthorityStep(d: UriData, u: string)
    ensures var (text, rest) := AuthoritySplit(u);
            Resume(AUTHORITY, d, u) ==
            if text == "" then Resume(PATH, d, rest)
            else match ParseAuthority(text)
                 case None => None
                 case Some(a) => Resume(PATH, d.(userinfo := a.userinfo, host := a.host, port := a.port), rest)
  {
    hide FromPath, ParseAuthority;
  }

  lemma PathStep(d: UriData, u: string)
    ensures var (path, rest) := PathSplit(u);
            (rest == "" || FirstAllowed(QUERY, rest)) &&
            Resume(PATH, d, u) == Resume(QUERY, d.(path := path), rest)
  {
    hide FromQuery;
  }

  lemma QueryStep(d: UriData, u: string)
    requires FirstAllowed(QUERY, u)
    ensures var (query, rest) := QuerySplit(u);
            (rest == "" || FirstAllowed(FRAGMENT, rest)) &&
            Resume(QUERY, d, u) == Resume(FRAGMENT, d.(query := query, queryMap := QueryMap(query)), rest)
  {
    hide FromFragment;
  }

  lemma FragmentStep(d: UriData, u: string)
    requires FirstAllowed(FRAGMENT, u)
    ensures Resume(FRAGMENT, d, u) == Resume(FRAGMENT, d.(fragment := u[1..]), "")
  {}

  lemma ParseIsResume(u: string)
    ensures Resume(SCHEME, EMPTY, u) == Parse(u)
  {}

  /** When the input is used up the data is the result, whatever part comes next. */
  lemma ResumeEnd(part: UriPart, d: UriData)
    requires part == SCHEME ==> d == EMPTY
    requires part == AUTHORITY ==> d.path == ""
    requires part == PATH ==> d.path == ""
    ensures Resume(part, d, "") == Some(d)
  {}

  /** The state machine computes the reference: parts come in order, so the loop ends. */
  method ParseUri(uri: string) returns (r: Option<UriData>)
    ensures r == Parse(uri)
  {
    var data := EMPTY;
    var input := uri;
    var part := SCHEME;
    hide Resume, SchemeSplit, AuthoritySplit, PathSplit, QuerySplit, ParseAuthority, Parse, Lower, ValidScheme;
    ParseIsResume(uri);
    while input != ""
      invariant input == "" || FirstAllowed(part, input)
      invariant part == SCHEME ==> data == EMPTY
      invariant part == AUTHORITY || part == PATH ==> data.path == ""
      invariant Resume(part, data, input) == Parse(uri)
      decreases 5 - part.Index(), |input|
    {
      match part {
        case SCHEME =>
          ParseIsResume(input);
          SchemeStep(input);
          var scheme, rest := ParseUriPart(input, part);
          data, input := data.(scheme := Lower(scheme)), rest;
          if data.scheme != "" && !ValidScheme(data.scheme) {
            return None;
          }
          part := if data.scheme == "file" || data.scheme == "" then PATH else AUTHORITY;
        case AUTHORITY =>
          AuthorityStep(data, input);
          var authority, rest := ParseUriPart(input, part);
          input := rest;
          if authority != "" {
            match ParseAuthority(authority) {
              case None => return None;
              case Some(a) => data := data.(userinfo := a.userinfo, host := a.host, port := a.port);
            }
          }
          part := PATH;
        case PATH =>
          PathStep(data, input);
          var path, rest := ParseUriPart(input, part);
          data, input := data.(path := path), rest;
          part := QUERY;
        case QUERY =>
          QueryStep(data, input);
          var query, rest := ParseUriPart(input, part);
          data, input := data.(query := query), rest;
          var queryMap := ParseQueryMap(data.query);
          data := data.(queryMap := queryMap);
          part := FRAGMENT;
        case FRAGMENT =>
          var fragment, rest := ParseUriPart(input, part);
          FragmentStep(data, input);
          data, input := data.(fragment := fragment), rest;
      }
    }
    ResumeEnd(part, data);
    return Some(data);
  }

  /** A step splits the text into consumed and kept parts; nothing but delimiters is lost. */
  lemma PartConserves(part: UriPart, u: string)
    requires FirstAllowed(part, u)
    ensures var (output, rest) := PartSplit(part, u);
            match part
            case SCHEME => if output == "" then rest == u else u == output + "://" + rest
            case AUTHORITY => u == output + rest
            case PATH => u == output + rest
            case QUERY => (output == "" && rest == u && u[0] == '#') || u == "?" + output + rest
            case FRAGMENT => u == "#" + output && rest == ""
  {
    match part
    case SCHEME =>
      NoSeparatorLost(u);
    case QUERY =>
      var i := FindFirstOf(u, {'#'});
      if i > 0 {
        assert u == [u[0]] + u[1..i] + u[i..];
      }
    case _ =>
  }

  lemma NoSeparatorLost(u: string)
    ensures var (output, rest) := SchemeSplit(u);
            if output == "" then rest == u else u == output + "://" + rest
  {
    hide FindFirstOf;
    var (output, rest) := SchemeSplit(u);
    var i := Find(u, "://");
    if output != "" {
      assert u[i..][..3] == "://";
      assert u == u[..i] + u[i..][..3] + u[i + 3..];
    }
  }

  /** The text after the authority is the path, then "?" and the query, then "#" and the
      fragment; either may be missing. */
  predicate TailConserved(u: string, d: UriData, q: string, f: string) {
    && u == d.path + q + f
    && (q == "?" + d.query || (q == "" && d.query == ""))
    && (f == "#" + d.fragment || (f == "" && d.fragment == ""))
  }

  lemma TailConserves(d: UriData, u: string) returns (q: string, f: string)
    requires d.query == "" && d.fragment == ""
    ensures FromPath(d, u).Some? && TailConserved(u, FromPath(d, u).value, q, f)
    ensures var r := FromPath(d, u).value;
            r.scheme == d.scheme && r.userinfo == d.userinfo && r.host == d.host && r.port == d.port
  {
    hide QueryMap, FindFirstOf, QuerySplit;
    var (path, rest) := PathSplit(u);
    assert u == path + rest;
    q, f := "", "";
    if rest != "" {
      var (query, last) := QuerySplit(rest);
      q := if rest[0] == '#' then "" else "?" + query;
      f := last;
      FirstOfHash(rest);
      assert rest == q + f;
      assert u == path + q + f;
      if last != "" {
        assert last == "#" + last[1..];
      }
    }
  }

  lemma FirstOfHash(rest: string)
    requires rest != "" && rest[0] in TAIL
    ensures var (query, last) := QuerySplit(rest);
            (last == "" || last[0] == '#') && (rest[0] == '#' ==> query == "" && last == rest)
            && (rest[0] == '?' ==> rest == "?" + query + last)
  {
    PartConserves(QUERY, rest);
  }

  /** For every accepted text the parts, with the delimiters that are present, are the text:
      only the case of the scheme is lost. */
  lemma ParseConserves(u: string) returns (text: string, authority: string, q: string, f: string, rest: string)
    requires Parse(u).Some?
    ensures var d := Parse(u).value;
            && Lower(text) == d.scheme
            && u == text + (if d.scheme != "" then "://" else "") + authority + rest
            && (authority == "" ==> d.userinfo == "" && d.host == "" && d.port == 0)
            && (authority != "" ==> ParseAuthority(authority) == Some(Authority(d.userinfo, d.host, d.port)))
            && TailConserved(rest, d, q, f)
  {
    hide FromPath, SchemeSplit, AuthoritySplit, ParseAuthority, Lower, ValidScheme, TailConserved;
    NoSeparatorLost(u);
    text, rest := SchemeSplit(u).0, SchemeSplit(u).1;
    authority := "";
    var d := EMPTY.(scheme := Lower(text));
    NothingLower(text);
    if d.scheme == "" || d.scheme == "file" {
      q, f := TailConserves(d, rest);
    } else {
      PartConserves(AUTHORITY, rest);
      var (a, r) := AuthoritySplit(rest);
      authority, rest := a, r;
      if a == "" {
        q, f := TailConserves(d, r);
      } else {
        var b := ParseAuthority(a).value;
        q, f := TailConserves(d.(userinfo := b.userinfo, host := b.host, port := b.port), r);
      }
      assert u == text + "://" + (authority + rest);
    }
    assert u == text + (if d.scheme != "" then "://" else "") + authority + rest;
  }

  /** The scheme of an accepted text that has one is that part of the text in lower case. */
  lemma SchemeRead(u: string, i: nat)
    requires SchemeAt(u, i) && Parse(u).Some?
    ensures var s := Parse(u).value.scheme;
            && |s| == i
            && forall k :: 0 <= k < i ==>
                 s[k] as int == u[k] as int + (if 65 <= u[k] as int <= 90 then 32 else 0)
  {
    hide SchemeSplit, FromPath, FromAuthority, Lower, ValidScheme;
    SchemeSplitAt(u, i);
    LowerCodes(u[..i]);
    SchemeStays(EMPTY.(scheme := Lower(u[..i])), u[i + 3..]);
  }

  /** What is read after the scheme leaves it alone. */
  lemma SchemeStays(d: UriData, u: string)
    ensures FromPath(d, u).Some? ==> FromPath(d, u).value.scheme == d.scheme
    ensures FromAuthority(d, u).Some? ==> FromAuthority(d, u).value.scheme == d.scheme
  {
    hide ParseAuthority, QueryMap, FindFirstOf, QuerySplit;
  }

  lemma NothingLower(text: string)
    ensures Lower(text) == "" <==> text == ""
  {}
}
