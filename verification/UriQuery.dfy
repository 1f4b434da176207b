/** The query map: the loop that fills it, the loop that rebuilds the string from it, and
    the exact conditions under which the two undo each other. */
module UriQuery {
  import opened Wrappers
  import opened UriText
  import opened StringOrder

  // ---------------------------------------------------------------- the reference

  /** The pieces between separators; at least one. */
  function Pieces(s: string, c: char): (p: seq<string>)
    ensures p != []
    ensures forall i :: 0 <= i < |p| ==> c !in p[i]
  {
    var i := FindFirstOf(s, {c});
    assert c !in s[..i] by {
      assert Free(s[..i], {c});
    }
    if i == |s| then [s] else [s[..i]] + Pieces(s[i + 1..], c)
  }

  /** A piece with an empty key is dropped; otherwise it is split on its first '='. */
  function Enter(m: KVMap, piece: string): KVMap {
    var eq := FindFirstOf(piece, {'='});
    if eq == 0 then m
    else m[piece[..eq] := if eq == |piece| then "" else piece[eq + 1..]]
  }

  /** The last of several pieces with the same key wins. */
  function EnterAll(m: KVMap, pieces: seq<string>): KVMap
    decreases pieces
  {
    if pieces == [] then m else EnterAll(Enter(m, pieces[0]), pieces[1..])
  }

  /** The map of a query string. */
  function QueryMap(query: string): KVMap {
    EnterAll(map[], Pieces(query, '&'))
  }

  /** Entering the pieces of a query one at a time. */
  lemma EnterFirst(m: KVMap, query: string)
    ensures var i := FindFirstOf(query, {'&'});
            EnterAll(m, Pieces(query, '&')) ==
            if i == |query| then Enter(m, query)
            else EnterAll(Enter(m, query[..i]), Pieces(query[i + 1..], '&'))
  {
    hide Enter;
    var i := FindFirstOf(query, {'&'});
    if i < |query| {
      assert Pieces(query, '&')[1..] == Pieces(query[i + 1..], '&');
    }
  }

  lemma EnterEmpty(m: KVMap)
    ensures Enter(m, "") == m
    ensures EnterAll(m, Pieces("", '&')) == m
  {
    EnterFirst(m, "");
  }

  /** The piece is the key alone, with an empty value, or key, '=' and value. */
  predicate Gives(piece: string, key: string, value: string) {
    (piece == key && value == "") || piece == key + "=" + value
  }

  /** The piece gives the key some value. */
  predicate Mentions(piece: string, key: string) {
    piece == key || key + "=" <= piece
  }

  /** The last piece that mentions the key gives it the value. */
  ghost predicate LastGives(pieces: seq<string>, key: string, value: string) {
    exists i :: 0 <= i < |pieces| && Gives(pieces[i], key, value)
                && forall j :: i < j < |pieces| ==> !Mentions(pieces[j], key)
  }

  predicate NoneMentions(pieces: seq<string>, key: string) {
    forall j :: 0 <= j < |pieces| ==> !Mentions(pieces[j], key)
  }

  lemma MentionedKey(piece: string, key: string)
    requires key != "" && '=' !in key
    ensures var eq := FindFirstOf(piece, {'='});
            Mentions(piece, key) <==> eq != 0 && piece[..eq] == key
  {
    hide FindFirstOf, Mentions;
    var eq := FindFirstOf(piece, {'='});
    if Mentions(piece, key) {
      MentionIsSplit(piece, key);
    }
    if eq != 0 && piece[..eq] == key {
      SplitIsMention(piece, key);
    }
  }

  lemma MentionIsSplit(piece: string, key: string)
    requires key != "" && '=' !in key && Mentions(piece, key)
    ensures FindFirstOf(piece, {'='}) == |key| && key <= piece
  {
    hide FindFirstOf;
    var rest := if piece == key then "" else "=" + piece[|key| + 1..];
    assert piece == key + rest;
    FirstHit(key, rest, {'='});
  }

  lemma SplitIsMention(piece: string, key: string)
    requires key == piece[..FindFirstOf(piece, {'='})]
    ensures Mentions(piece, key)
  {
    hide FindFirstOf;
    var eq := FindFirstOf(piece, {'='});
    if eq == |piece| {
      assert piece[..eq] == piece;
    } else {
      assert piece[..eq + 1] == key + "=";
    }
  }

  lemma EnterExactly(m: KVMap, piece: string, key: string, value: string)
    requires key != "" && '=' !in key
    ensures var r := Enter(m, piece);
            key in r && r[key] == value <==>
            Gives(piece, key, value) || (!Mentions(piece, key) && key in m && m[key] == value)
  {
    hide FindFirstOf;
    var eq := FindFirstOf(piece, {'='});
    MentionedKey(piece, key);
    assert key + "=" + value == key + ("=" + value);
    if Mentions(piece, key) {
      if eq == |piece| {
        assert piece[..eq] == piece;
      } else {
        assert piece == piece[..eq] + "=" + piece[eq + 1..];
        assert (key + "=" + value)[|key| + 1..] == value;
      }
    } else {
      assert piece == key + "=" + value ==> key + "=" <= piece;
    }
  }

  lemma LastGivesStep(pieces: seq<string>, key: string, value: string)
    requires pieces != []
    ensures LastGives(pieces, key, value) <==>
            LastGives(pieces[1..], key, value)
            || (Gives(pieces[0], key, value) && NoneMentions(pieces[1..], key))
    ensures NoneMentions(pieces, key) <==> !Mentions(pieces[0], key) && NoneMentions(pieces[1..], key)
  {
    hide Gives, Mentions;
    var rest := pieces[1..];
    assert forall i :: 0 <= i < |rest| ==> pieces[i + 1] == rest[i];
    assert forall i :: 1 <= i < |pieces| ==> pieces[i] == rest[i - 1];
    if i :| 0 <= i < |rest| && Gives(rest[i], key, value) && forall j :: i < j < |rest| ==> !Mentions(rest[j], key) {
      assert Gives(pieces[i + 1], key, value);
    }
    if i :| 0 <= i < |pieces| && Gives(pieces[i], key, value)
            && forall j :: i < j < |pieces| ==> !Mentions(pieces[j], key) {
      if i > 0 {
        assert Gives(rest[i - 1], key, value);
      }
    }
  }

  lemma {:induction false} EnterAllExactly(m: KVMap, pieces: seq<string>, key: string, value: string)
    requires key != "" && '=' !in key
    ensures var r := EnterAll(m, pieces);
            key in r && r[key] == value <==>
            LastGives(pieces, key, value) || (NoneMentions(pieces, key) && key in m && m[key] == value)
    decreases |pieces|
  {
    if pieces == [] {
    } else {
      hide Enter, Gives, Mentions, LastGives, NoneMentions;
      LastGivesStep(pieces, key, value);
      EnterExactly(m, pieces[0], key, value);
      EnterAllExactly(Enter(m, pieces[0]), pieces[1..], key, value);
    }
  }

  /** What a query string says: a key, never empty and free of '=', has the value that the last
      piece mentioning it gives. */
  lemma QueryMapExactly(query: string, key: string, value: string)
    ensures key in QueryMap(query) && QueryMap(query)[key] == value <==>
            key != "" && '=' !in key && LastGives(Pieces(query, '&'), key, value)
  {
    hide Pieces, EnterAll, LastGives;
    if key != "" && '=' !in key {
      EnterAllExactly(map[], Pieces(query, '&'), key, value);
    } else {
      QueryMapGood(query);
    }
  }

  // ---------------------------------------------------------------- the program's loop

  method ParseQueryMap(dataQuery: string) returns (queryMap: KVMap)
    ensures queryMap == QueryMap(dataQuery)
  {
    var query := dataQuery;
    queryMap := map[];
    hide EnterAll, Pieces;
    while query != ""
      invariant EnterAll(queryMap, Pieces(query, '&')) == QueryMap(dataQuery)
      decreases |query|
    {
      EnterFirst(queryMap, query);
      var nextPair := FindFirstOf(query, {'&'});
      if nextPair == 0 {
        EnterEmpty(queryMap);
        assert query[..0] == "";
        query := query[1..];
        continue;
      }
      var pair := query[..nextPair];
      if nextPair == |query| {
        assert pair == query;
        EnterEmpty(Enter(queryMap, pair));
        query := "";
      } else {
        query := query[nextPair + 1..];
      }
      var eq := FindFirstOf(pair, {'='});
      if eq == 0 {
        continue;
      }
      if eq == |pair| {
        assert pair[..eq] == pair;
        queryMap := queryMap[pair := ""];
      } else {
        queryMap := queryMap[pair[..eq] := pair[eq + 1..]];
      }
    }
    EnterEmpty(queryMap);
  }

  // ---------------------------------------------------------------- rebuilding the string

  function Entry(key: string, value: string): string { key + "=" + value }

  function Entries(m: KVMap, keys: seq<string>): (e: seq<string>)
    requires forall k :: k in keys ==> k in m
    ensures |e| == |keys|
  {
    if keys == [] then [] else [Entry(keys[0], m[keys[0]])] + Entries(m, keys[1..])
  }

  function Join(pieces: seq<string>, c: char): string {
    if pieces == [] then ""
    else if |pieces| == 1 then pieces[0]
    else pieces[0] + [c] + Join(pieces[1..], c)
  }

  /** The entries in ascending key order, separated by '&'. */
  function Rebuilt(m: KVMap): string {
    Join(Entries(m, SortedKeys(m.Keys)), '&')
  }

  lemma {:induction false} JoinAppend(pieces: seq<string>, last: string, c: char)
    ensures Join(pieces + [last], c) == if pieces == [] then last else Join(pieces, c) + [c] + last
  {
    if pieces == [] {
    } else {
      JoinAppend(pieces[1..], last, c);
      assert (pieces + [last])[1..] == pieces[1..] + [last];
    }
  }

  lemma {:induction false} EntriesAppend(m: KVMap, keys: seq<string>, k: string)
    requires k in m && forall j :: j in keys ==> j in m
    ensures Entries(m, keys + [k]) == Entries(m, keys) + [Entry(k, m[k])]
  {
    if keys == [] {
      assert [] + [k] == [k] && [k][1..] == [];
    } else {
      EntriesAppend(m, keys[1..], k);
      assert (keys + [k])[1..] == keys[1..] + [k];
    }
  }

  /** The loop of addQuery: the first entry found when the string is still empty. */
  method RebuildQuery(queryMap: KVMap) returns (query: string)
    ensures query == Rebuilt(queryMap)
  {
    query := "";
    var order := SortedKeys(queryMap.Keys);
    hide SortedKeys, Entries, Join;
    var i := 0;
    EntriesNone(queryMap);
    while i < |order|
      invariant i <= |order|
      invariant query == Join(Entries(queryMap, order[..i]), '&')
      invariant query == "" <==> i == 0
    {
      var k := order[i];
      assert k in order;
      assert order[..i + 1] == order[..i] + [k];
      EntriesAppend(queryMap, order[..i], k);
      JoinAppend(Entries(queryMap, order[..i]), Entry(k, queryMap[k]), '&');
      if query == "" {
        query := k + "=" + queryMap[k];
      } else {
        query := query + ("&" + k + "=" + queryMap[k]);
      }
      i := i + 1;
    }
    assert order[..|order|] == order;
  }

  lemma EntriesNone(m: KVMap)
    ensures Join(Entries(m, []), '&') == ""
  {}

  // ---------------------------------------------------------------- parse and rebuild

  predicate GoodKey(key: string) {
    key != "" && '=' !in key && '&' !in key
  }

  predicate GoodValue(value: string) {
    '&' !in value
  }

  predicate GoodMap(m: KVMap) {
    forall k :: k in m ==> GoodKey(k) && GoodValue(m[k])
  }

  lemma {:induction false} PiecesJoin(pieces: seq<string>, c: char)
    requires pieces != [] && forall i :: 0 <= i < |pieces| ==> c !in pieces[i]
    ensures Pieces(Join(pieces, c), c) == pieces
  {
    var first := pieces[0];
    if |pieces| == 1 {
      assert first + "" == first;
      FirstHit(first, "", {c});
    } else {
      var rest := Join(pieces[1..], c);
      var s := first + [c] + rest;
      assert s == first + ([c] + rest);
      FirstHit(first, [c] + rest, {c});
      assert s[..|first|] == first && s[|first| + 1..] == rest;
      PiecesJoin(pieces[1..], c);
    }
  }

  /** Joining the pieces of a string gives the string back. */
  lemma {:induction false} JoinPieces(s: string, c: char)
    ensures Join(Pieces(s, c), c) == s
    decreases |s|
  {
    var i := FindFirstOf(s, {c});
    if i == |s| {
    } else {
      JoinPieces(s[i + 1..], c);
      assert s == s[..i] + [c] + s[i + 1..];
      assert Pieces(s, c)[1..] == Pieces(s[i + 1..], c);
    }
  }

  lemma EnterEntry(m: KVMap, key: string, value: string)
    requires GoodKey(key)
    ensures Enter(m, Entry(key, value)) == m[key := value]
  {
    var piece := Entry(key, value);
    assert piece == key + ("=" + value);
    FirstHit(key, "=" + value, {'='});
    assert piece[..|key|] == key && piece[|key| + 1..] == value;
  }

  lemma {:induction false} EnterEntries(acc: KVMap, m: KVMap, keys: seq<string>)
    requires GoodMap(m) && forall k :: k in keys ==> k in m
    ensures var r := EnterAll(acc, Entries(m, keys));
            && (forall k :: k in r <==> k in acc || k in keys)
            && (forall k :: k in keys ==> r[k] == m[k])
            && (forall k :: k in acc && k !in keys ==> r[k] == acc[k])
    decreases |keys|
  {
    hide Enter, GoodKey, GoodValue;
    if keys == [] {
    } else {
      var k := keys[0];
      EnterEntry(acc, k, m[k]);
      EnterEntries(acc[k := m[k]], m, keys[1..]);
      assert keys == [k] + keys[1..];
    }
  }

  lemma EntryFree(key: string, value: string)
    requires GoodKey(key) && GoodValue(value)
    ensures '&' !in Entry(key, value)
  {}

  lemma {:induction false} EntriesFree(m: KVMap, keys: seq<string>)
    requires GoodMap(m) && forall k :: k in keys ==> k in m
    ensures forall i :: 0 <= i < |keys| ==> '&' !in Entries(m, keys)[i]
  {
    hide GoodKey, GoodValue, Entry;
    if keys == [] {
    } else {
      EntryFree(keys[0], m[keys[0]]);
      EntriesFree(m, keys[1..]);
    }
  }

  lemma GoodRebuild(m: KVMap)
    requires GoodMap(m)
    ensures QueryMap(Rebuilt(m)) == m
  {
    hide SortedKeys, Enter, Pieces, Entries, EnterAll, Join;
    var order := SortedKeys(m.Keys);
    if order == [] {
      assert forall k :: k !in m.Keys;
      assert m == map[];
      EntriesNone(m);
      EnterEmpty(map[]);
    } else {
      EntriesFree(m, order);
      PiecesJoin(Entries(m, order), '&');
      EnterEntries(map[], m, order);
      assert EnterAll(map[], Entries(m, order)) == m;
    }
  }

  lemma EnterGood(m: KVMap, piece: string)
    requires GoodMap(m) && '&' !in piece
    ensures GoodMap(Enter(m, piece))
  {
    var eq := FindFirstOf(piece, {'='});
    if eq != 0 {
      var key := piece[..eq];
      assert '=' !in key by {
        assert Free(key, {'='});
      }
      assert GoodKey(key);
    }
  }

  lemma {:induction false} EnterAllGood(m: KVMap, pieces: seq<string>)
    requires GoodMap(m) && forall i :: 0 <= i < |pieces| ==> '&' !in pieces[i]
    ensures GoodMap(EnterAll(m, pieces))
    decreases |pieces|
  {
    hide Enter, GoodMap;
    if pieces == [] {
    } else {
      EnterGood(m, pieces[0]);
      EnterAllGood(Enter(m, pieces[0]), pieces[1..]);
    }
  }

  /** Parsing never produces a key or value that could not be parsed again. */
  lemma QueryMapGood(query: string)
    ensures GoodMap(QueryMap(query))
  {
    EnterAllGood(map[], Pieces(query, '&'));
  }

  /** Parsing the rebuilt string gives the map back exactly when every key is non-empty and
      free of '=' and '&' and every value is free of '&'. */
  lemma RebuildParse(m: KVMap)
    ensures QueryMap(Rebuilt(m)) == m <==> GoodMap(m)
  {
    hide QueryMap, GoodMap;
    QueryMapGood(Rebuilt(m));
    if GoodMap(m) {
      GoodRebuild(m);
    }
  }

  /** Parse, rebuild, parse is parse, for every query string. */
  lemma ParseRebuildParse(query: string)
    ensures QueryMap(Rebuilt(QueryMap(query))) == QueryMap(query)
  {
    hide QueryMap;
    QueryMapGood(query);
    GoodRebuild(QueryMap(query));
  }

  // ---------------------------------------------------------------- the order of additions

  datatype Pair = Pair(key: string, value: string)

  function AddAll(m: KVMap, pairs: seq<Pair>): KVMap
    decreases pairs
  {
    if pairs == [] then m else AddAll(m[pairs[0].key := pairs[0].value], pairs[1..])
  }

  predicate DistinctKeys(pairs: seq<Pair>) {
    forall i, j :: 0 <= i < j < |pairs| ==> pairs[i].key != pairs[j].key
  }

  /** The map after several additions, described by its contents. */
  lemma {:induction false} AddAllContents(m: KVMap, pairs: seq<Pair>)
    requires DistinctKeys(pairs)
    ensures AddAll(m, pairs).Keys == m.Keys + set p | p in pairs :: p.key
    ensures forall p :: p in pairs ==> AddAll(m, pairs)[p.key] == p.value
    ensures forall k :: k in m && (forall p :: p in pairs ==> p.key != k) ==> AddAll(m, pairs)[k] == m[k]
    decreases |pairs|
  {
    if pairs == [] {
    } else {
      var p := pairs[0];
      AddAllContents(m[p.key := p.value], pairs[1..]);
      assert pairs == [p] + pairs[1..];
    }
  }

  /** Adding the same distinct keys in any order gives the same map. */
  lemma AddAllSame(m: KVMap, a: seq<Pair>, b: seq<Pair>)
    requires DistinctKeys(a) && DistinctKeys(b)
    requires forall p :: p in a <==> p in b
    ensures AddAll(m, a) == AddAll(m, b)
  {
    hide AddAll;
    AddAllContents(m, a);
    AddAllContents(m, b);
    var x, y := AddAll(m, a), AddAll(m, b);
    forall k | k in x.Keys
      ensures k in y.Keys && x[k] == y[k]
    {
      if p :| p in a && p.key == k {
        assert p in b;
      } else {
        assert forall p :: p in b ==> p in a;
      }
    }
    assert x == y;
  }

  /** Hence the same final string. */
  lemma AddInAnyOrder(m: KVMap, a: seq<Pair>, b: seq<Pair>)
    requires DistinctKeys(a) && DistinctKeys(b)
    requires forall p :: p in a <==> p in b
    ensures Rebuilt(AddAll(m, a)) == Rebuilt(AddAll(m, b))
  {
    hide AddAll, Rebuilt;
    AddAllSame(m, a, b);
  }
}
