/** The URI object: setters, queries, and the query map kept beside the query string. */
module UriObject {
  import opened Wrappers
  import opened UriText
  import opened StringOrder
  import opened UriQuery
  import opened UriParse
  import opened UriPrint

  // ---------------------------------------------------------------- the reference

  datatype Op =
    | SetScheme(scheme: string)
    | SetUserInfo(userinfo: string)
    | SetHost(host: string)
    | SetPort(port: nat)
    | SetPath(path: string)
    | SetQuery(query: string)
    | SetFragment(fragment: string)
    | AddQuery(key: string, value: string)

  function Apply(op: Op, d: UriData): UriData {
    match op
    case SetScheme(s) => d.(scheme := s)
    case SetUserInfo(s) => d.(userinfo := s)
    case SetHost(s) => d.(host := s)
    case SetPort(n) => d.(port := n)
    case SetPath(s) => d.(path := s)
    case SetQuery(q) => d.(query := q, queryMap := QueryMap(q))
    case SetFragment(s) => d.(fragment := s)
    case AddQuery(k, v) =>
      var m := d.queryMap[k := v];
      d.(queryMap := m, query := Rebuilt(m), fragment := "")
  }

  function ApplyAll(ops: seq<Op>, d: UriData): UriData {
    if ops == [] then d else ApplyAll(ops[1..], Apply(ops[0], d))
  }

  // ---------------------------------------------------------------- the object

  class Uri {
    var scheme: string
    var userinfo: string
    var host: string
    var port: nat
    var path: string
    var query: string
    var fragment: string
    var queryMap: KVMap

    ghost function View(): UriData
      reads this
    {
      UriData(scheme, userinfo, host, port, path, query, fragment, queryMap)
    }

    constructor (d: UriData)
      ensures View() == d
    {
      scheme, userinfo, host, port := d.scheme, d.userinfo, d.host, d.port;
      path, query, fragment, queryMap := d.path, d.query, d.fragment, d.queryMap;
    }

    /** The constructor from text; None where it throws. */
    static method FromText(text: string) returns (r: Option<Uri>)
      ensures r.Some? <==> Parse(text).Some?
      ensures r.Some? ==> fresh(r.value) && r.value.View() == Parse(text).value
    {
      hide Parse;
      var d := ParseUri(text);
      match d
      case None => r := None;
      case Some(data) =>
        var u := new Uri(data);
        r := Some(u);
    }

    method PutQuery(query: string)
      modifies this
      ensures View() == Apply(SetQuery(query), old(View()))
    {
      this.query := query;
      queryMap := ParseQueryMap(query);
    }

    method AddPair(key: string, value: string)
      modifies this
      ensures View() == Apply(AddQuery(key, value), old(View()))
    {
      queryMap := queryMap[key := value];
      fragment := "";
      query := RebuildQuery(queryMap);
    }

    /** The compound authority part: userinfo only if not empty, port only if not 0. */
    method GetAuthority() returns (authority: string)
      ensures authority == AuthorityText(userinfo, userinfo != "", host, port)
      ensures ParseAuthority(authority) == Some(Authority(userinfo, host, port)) <==> Readable(userinfo, host, port)
    {
      hide ParseAuthority, Decimal;
      authority := "";
      if userinfo != "" {
        authority := userinfo + "@";
      }
      authority := authority + host;
      if port != 0 {
        authority := authority + (":" + Decimal(port));
      }
      assert authority == AuthorityText(userinfo, userinfo != "", host, port);
      ReadableExactly(userinfo, host, port);
    }

    /** Any sequence of setters and additions. */
    method Perform(ops: seq<Op>)
      modifies this
      ensures View() == ApplyAll(ops, old(View()))
    {
      hide QueryMap, Rebuilt;
      var i := 0;
      while i < |ops|
        invariant i <= |ops|
        invariant ApplyAll(ops[i..], View()) == ApplyAll(ops, old(View()))
      {
        assert ops[i..][1..] == ops[i + 1..];
        match ops[i] {
          case SetScheme(s) => scheme := s;
          case SetUserInfo(s) => userinfo := s;
          case SetHost(s) => host := s;
          case SetPort(n) => port := n;
          case SetPath(s) => path := s;
          case SetQuery(q) => PutQuery(q);
          case SetFragment(s) => fragment := s;
          case AddQuery(k, v) => AddPair(k, v);
        }
        i := i + 1;
      }
    }
  }

  // ---------------------------------------------------------------- the other parts

  datatype Part = SchemePart | UserInfoPart | HostPart | PathPart | FragmentPart

  function Read(d: UriData, part: Part): string {
    match part
    case SchemePart => d.scheme
    case UserInfoPart => d.userinfo
    case HostPart => d.host
    case PathPart => d.path
    case FragmentPart => d.fragment
  }

  /** What an operation writes to a part, if anything: an addition clears the fragment. */
  function Written(op: Op, part: Part): Option<string> {
    match part
    case SchemePart => if op.SetScheme? then Some(op.scheme) else None
    case UserInfoPart => if op.SetUserInfo? then Some(op.userinfo) else None
    case HostPart => if op.SetHost? then Some(op.host) else None
    case PathPart => if op.SetPath? then Some(op.path) else None
    case FragmentPart => if op.SetFragment? then Some(op.fragment) else if op.AddQuery? then Some("") else None
  }

  function LastWritten(ops: seq<Op>, part: Part, start: string): string {
    if ops == [] then start
    else
      match Written(ops[0], part)
      case None => LastWritten(ops[1..], part, start)
      case Some(s) => LastWritten(ops[1..], part, s)
  }

  function LastPort(ops: seq<Op>, start: nat): nat {
    if ops == [] then start else LastPort(ops[1..], if ops[0].SetPort? then ops[0].port else start)
  }

  /** After every run each part holds what was last written to it, and what it held before if
      nothing was. */
  lemma {:induction false} PartsAfter(ops: seq<Op>, d: UriData, part: Part)
    ensures Read(ApplyAll(ops, d), part) == LastWritten(ops, part, Read(d, part))
    ensures ApplyAll(ops, d).port == LastPort(ops, d.port)
  {
    hide QueryMap, Rebuilt;
    if ops == [] {
    } else {
      PartsAfter(ops[1..], Apply(ops[0], d), part);
    }
  }

  /** A query that is set stays until another is set or a pair added. */
  lemma {:induction false} QueryAfter(q: string, ops: seq<Op>, d: UriData)
    requires d.query == q
    requires forall i :: 0 <= i < |ops| ==> !ops[i].SetQuery? && !ops[i].AddQuery?
    ensures ApplyAll(ops, d).query == q && ApplyAll(ops, d).queryMap == d.queryMap
  {
    if ops == [] {
    } else {
      QueryAfter(q, ops[1..], Apply(ops[0], d));
    }
  }

  // ---------------------------------------------------------------- the cache

  /** The map is the parse of the string. */
  predicate Synced(d: UriData) {
    d.queryMap == QueryMap(d.query)
  }

  /** What every operation keeps: one of the two was computed from the other. */
  predicate Derived(d: UriData) {
    Synced(d) || d.query == Rebuilt(d.queryMap)
  }

  lemma {:induction false} RunDerived(ops: seq<Op>, d: UriData)
    requires Derived(d)
    ensures Derived(ApplyAll(ops, d))
  {
    hide QueryMap, Rebuilt;
    if ops == [] {
    } else {
      RunDerived(ops[1..], Apply(ops[0], d));
    }
  }

  /** After every run from a constructed object, whatever was added, the map is the parse of
      the string exactly when each of its keys is non-empty and free of '=' and '&' and each
      of its values is free of '&'. */
  lemma CacheExact(ops: seq<Op>, text: string)
    requires Parse(text).Some?
    ensures var d := ApplyAll(ops, Parse(text).value);
            Synced(d) <==> GoodMap(d.queryMap)
  {
    hide QueryMap, Rebuilt, Parse, GoodMap, ApplyAll;
    ParseSynced(text);
    RunDerived(ops, Parse(text).value);
    var d := ApplyAll(ops, Parse(text).value);
    if Synced(d) {
      QueryMapGood(d.query);
    } else {
      RebuildParse(d.queryMap);
    }
  }

  lemma ParseSynced(text: string)
    requires Parse(text).Some?
    ensures Synced(Parse(text).value)
  {
    hide Parse, QueryMap, SchemeSplit;
    ParseShaped(text);
  }

  /** One addition to an object in step: it stays so exactly for a good key and value. */
  lemma AdditionKeepsStep(d: UriData, key: string, value: string)
    requires Synced(d)
    ensures Synced(Apply(AddQuery(key, value), d)) <==> GoodKey(key) && GoodValue(value)
  {
    hide QueryMap, Rebuilt, GoodMap;
    QueryMapGood(d.query);
    GoodAddition(d.queryMap, key, value);
    RebuildParse(d.queryMap[key := value]);
  }

  lemma GoodAddition(m: KVMap, key: string, value: string)
    requires GoodMap(m)
    ensures GoodMap(m[key := value]) <==> GoodKey(key) && GoodValue(value)
  {
    hide GoodKey, GoodValue;
    var m' := m[key := value];
    assert key in m' && m'[key] == value;
    forall k | k in m' && k != key
      ensures GoodKey(k) && GoodValue(m'[k])
    {
      assert k in m && m'[k] == m[k];
    }
  }

  /** A text and an addition that drive the map and the string apart. */
  lemma CacheDrifts()
    ensures Parse("") == Some(EMPTY) && !Synced(Apply(AddQuery("a=b", "c"), EMPTY))
  {
    hide Rebuilt, QueryMap, Parse, SchemeSplit;
    EmptyQueryMap();
    NoSchemeInNothing();
    assert Shaped(EMPTY);
    AssembledParses(EMPTY, true);
    assert Assembled(EMPTY, true) == "";
    BadKey();
    assert Synced(EMPTY);
    hide Synced, Apply, GoodKey;
    AdditionKeepsStep(EMPTY, "a=b", "c");
  }

  lemma BadKey()
    ensures !GoodKey("a=b")
  {
    assert "a=b"[1] == '=';
  }

  /** No later operation replaces what the map holds for the key. */
  predicate Survives(ops: seq<Op>, key: string) {
    forall i :: 0 <= i < |ops| ==> !ops[i].SetQuery? && !(ops[i].AddQuery? && ops[i].key == key)
  }

  /** The last pair added for each key since the last SetQuery is good. */
  predicate LastingGood(ops: seq<Op>) {
    ops != [] ==>
      && (ops[0].AddQuery? && Survives(ops[1..], ops[0].key) ==> GoodKey(ops[0].key) && GoodValue(ops[0].value))
      && LastingGood(ops[1..])
  }

  /** The entries of a map that the operations leave alone are good. */
  predicate SurvivorsGood(m: KVMap, ops: seq<Op>) {
    forall k :: k in m && Survives(ops, k) ==> GoodKey(k) && GoodValue(m[k])
  }

  lemma SurvivesStep(ops: seq<Op>, key: string)
    requires ops != []
    ensures Survives(ops, key) <==>
            !ops[0].SetQuery? && !(ops[0].AddQuery? && ops[0].key == key) && Survives(ops[1..], key)
  {
    if Survives(ops[1..], key) {
      assert forall i :: 1 <= i < |ops| ==> ops[i] == ops[1..][i - 1];
    }
  }

  lemma SurvivorsStep(d: UriData, ops: seq<Op>)
    requires ops != []
    ensures SurvivorsGood(Apply(ops[0], d).queryMap, ops[1..]) <==>
            && SurvivorsGood(d.queryMap, ops)
            && (ops[0].AddQuery? && Survives(ops[1..], ops[0].key) ==> GoodKey(ops[0].key) && GoodValue(ops[0].value))
  {
    hide QueryMap, Rebuilt, Survives, GoodKey, GoodValue;
    forall k: string
      ensures Survives(ops, k) <==>
              !ops[0].SetQuery? && !(ops[0].AddQuery? && ops[0].key == k) && Survives(ops[1..], k)
    {
      SurvivesStep(ops, k);
    }
    if ops[0].SetQuery? {
      QueryMapGood(ops[0].query);
    } else if ops[0].AddQuery? {
      assert ops[0].key in Apply(ops[0], d).queryMap;
    }
  }

  lemma {:induction false} LastingExactly(ops: seq<Op>, d: UriData)
    ensures GoodMap(ApplyAll(ops, d).queryMap) <==> LastingGood(ops) && SurvivorsGood(d.queryMap, ops)
  {
    hide Apply, GoodKey, GoodValue;
    if ops == [] {
    } else {
      hide Survives, SurvivorsGood, GoodMap;
      SurvivorsStep(d, ops);
      LastingExactly(ops[1..], Apply(ops[0], d));
    }
  }

  /** For every run from a constructed object, the map is the parse of the string exactly when
      the last pair added for each key since the last SetQuery has a key that is non-empty and
      free of '=' and '&' and a value free of '&'. */
  lemma CacheInStepExactly(ops: seq<Op>, text: string)
    requires Parse(text).Some?
    ensures Synced(ApplyAll(ops, Parse(text).value)) <==> LastingGood(ops)
  {
    hide QueryMap, Rebuilt, Parse, GoodKey, GoodValue, ApplyAll, LastingGood, Survives;
    ParseSynced(text);
    QueryMapGood(Parse(text).value.query);
    LastingExactly(ops, Parse(text).value);
    CacheExact(ops, text);
  }

  /** Only good keys and values are added. */
  predicate GoodOps(ops: seq<Op>) {
    forall i :: 0 <= i < |ops| && ops[i].AddQuery? ==> GoodKey(ops[i].key) && GoodValue(ops[i].value)
  }

  lemma {:induction false} GoodOpsLast(ops: seq<Op>)
    requires GoodOps(ops)
    ensures LastingGood(ops)
  {
    hide GoodKey, GoodValue, Survives;
    if ops == [] {
    } else {
      GoodOpsLast(ops[1..]);
    }
  }

  /** With good keys and values the cache never drifts from the string. */
  lemma CacheNeverDrifts(ops: seq<Op>, text: string)
    requires Parse(text).Some? && GoodOps(ops)
    ensures Synced(ApplyAll(ops, Parse(text).value))
  {
    hide Synced, Parse, GoodOps, LastingGood, ApplyAll;
    GoodOpsLast(ops);
    CacheInStepExactly(ops, text);
  }

  // ---------------------------------------------------------------- the order of additions

  /** The calls that add the pairs, in order. */
  function Additions(pairs: seq<Pair>): seq<Op> {
    if pairs == [] then [] else [AddQuery(pairs[0].key, pairs[0].value)] + Additions(pairs[1..])
  }

  /** After some additions the query is rebuilt from the final map, and the fragment is gone. */
  lemma {:induction false} AdditionsApplied(pairs: seq<Pair>, d: UriData)
    requires pairs != []
    ensures var m := AddAll(d.queryMap, pairs);
            ApplyAll(Additions(pairs), d) == d.(queryMap := m, query := Rebuilt(m), fragment := "")
  {
    hide Rebuilt;
    var p, rest := pairs[0], pairs[1..];
    var e := Apply(AddQuery(p.key, p.value), d);
    assert Additions(pairs)[1..] == Additions(rest);
    assert ApplyAll(Additions(pairs), d) == ApplyAll(Additions(rest), e);
    if rest == [] {
      assert AddAll(d.queryMap, pairs) == d.queryMap[p.key := p.value];
    } else {
      AdditionsApplied(rest, e);
    }
  }

  /** Adding the same distinct keys in any order leaves the same object: the same query string,
      the same map, the same other parts. */
  lemma AdditionsCommute(d: UriData, a: seq<Pair>, b: seq<Pair>)
    requires DistinctKeys(a) && DistinctKeys(b)
    requires forall p :: p in a <==> p in b
    ensures ApplyAll(Additions(a), d) == ApplyAll(Additions(b), d)
  {
    hide Rebuilt, AddAll, Apply;
    assert a != [] ==> a[0] in b;
    assert b != [] ==> b[0] in a;
    if a == [] {
      assert b == [];
    } else {
      AdditionsApplied(a, d);
      AdditionsApplied(b, d);
      AddAllSame(d.queryMap, a, b);
    }
  }

  // ---------------------------------------------------------------- queries keep URIs printable

  /** No '#' in any key or value. */
  predicate HashFree(m: KVMap) {
    forall k :: k in m ==> Free(k, {'#'}) && Free(m[k], {'#'})
  }

  lemma EnterHashFree(m: KVMap, piece: string)
    requires HashFree(m) && Free(piece, {'#'})
    ensures HashFree(Enter(m, piece))
  {
    hide Free, FindFirstOf;
    var eq := FindFirstOf(piece, {'='});
    FreeSlice(piece, 0, eq, {'#'});
    assert piece[0..eq] == piece[..eq];
    FreeEmpty({'#'});
    if eq < |piece| {
      FreeSlice(piece, eq + 1, |piece|, {'#'});
      assert piece[eq + 1..|piece|] == piece[eq + 1..];
    }
  }

  lemma {:induction false} QueryHashFree(m: KVMap, query: string)
    requires HashFree(m) && Free(query, {'#'})
    ensures HashFree(EnterAll(m, Pieces(query, '&')))
    decreases |query|
  {
    hide Free, FindFirstOf, Enter, EnterAll, Pieces, HashFree;
    var i := FindFirstOf(query, {'&'});
    EnterFirst(m, query);
    if i == |query| {
      EnterHashFree(m, query);
    } else {
      FreeSlice(query, 0, i, {'#'});
      assert query[0..i] == query[..i];
      FreeSlice(query, i + 1, |query|, {'#'});
      assert query[i + 1..|query|] == query[i + 1..];
      EnterHashFree(m, query[..i]);
      QueryHashFree(Enter(m, query[..i]), query[i + 1..]);
    }
  }

  lemma {:induction false} EntriesHashFree(m: KVMap, keys: seq<string>)
    requires HashFree(m) && forall k :: k in keys ==> k in m
    ensures Free(Join(Entries(m, keys), '&'), {'#'})
  {
    if keys == [] {
    } else {
      EntriesHashFree(m, keys[1..]);
      assert Free(Entry(keys[0], m[keys[0]]), {'#'});
    }
  }

  /** Setting a query keeps the data in the shape that the printer and parser agree on exactly
      when there is no '#' in it; adding a pair, exactly when moreover key and value are good. */
  lemma QueryKeepsShape(d: UriData, op: Op)
    requires Shaped(d)
    ensures op.SetQuery? ==> (Shaped(Apply(op, d)) <==> Free(op.query, {'#'}))
    ensures op.AddQuery? ==>
              (Shaped(Apply(op, d)) <==> GoodKey(op.key) && GoodValue(op.value)
                                         && Free(op.key, {'#'}) && Free(op.value, {'#'}))
  {
    hide EnterAll, Pieces, Free, SchemeSplit, ValidScheme, GoodKey, GoodValue, Entries, Join, SortedKeys, Rebuilt;
    if op.AddQuery? {
      AdditionKeepsStep(d, op.key, op.value);
      QueryHashFree(map[], d.query);
      RebuiltHashFree(d.queryMap, op.key, op.value);
    }
  }

  /** The string rebuilt after an addition, when it parses back to the map. */
  lemma RebuiltHashFree(m: KVMap, key: string, value: string)
    requires HashFree(m)
    ensures var m' := m[key := value];
            m' == QueryMap(Rebuilt(m')) ==> (Free(Rebuilt(m'), {'#'}) <==> Free(key, {'#'}) && Free(value, {'#'}))
  {
    hide EnterAll, Pieces, Free, Entries, Join, SortedKeys;
    var m' := m[key := value];
    if m' == QueryMap(Rebuilt(m')) && Free(Rebuilt(m'), {'#'}) {
      QueryHashFree(map[], Rebuilt(m'));
      assert key in m';
    }
    if Free(key, {'#'}) && Free(value, {'#'}) {
      EntriesHashFree(m', SortedKeys(m'.Keys));
    }
  }
}
