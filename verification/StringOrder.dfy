/** The lexicographic order of std::string, and the ascending order in which std::map and
    std::set are iterated. */
module StringOrder {

  predicate Less(a: string, b: string) {
    if b == "" then false
    else if a == "" then true
    else if a[0] != b[0] then a[0] < b[0]
    else Less(a[1..], b[1..])
  }

  /** The order of the first difference; a proper prefix comes first. */
  ghost predicate FirstDifference(a: string, b: string, k: nat) {
    && k <= |a| && k < |b| && a[..k] == b[..k]
    && (k < |a| ==> a[k] < b[k])
  }

  lemma {:induction false} LessExactly(a: string, b: string)
    ensures Less(a, b) <==> exists k: nat :: FirstDifference(a, b, k)
  {
    if a == "" || b == "" || a[0] != b[0] {
      if b != "" && (a == "" || a[0] < b[0]) {
        assert FirstDifference(a, b, 0);
      }
      forall k: nat | FirstDifference(a, b, k)
        ensures Less(a, b)
      {
        if k > 0 {
          assert a[..k][0] == b[..k][0];
        }
      }
    } else {
      LessExactly(a[1..], b[1..]);
      if k: nat :| FirstDifference(a[1..], b[1..], k) {
        assert a[..k + 1] == [a[0]] + a[1..][..k] && b[..k + 1] == [b[0]] + b[1..][..k];
        assert FirstDifference(a, b, k + 1);
      }
      if k: nat :| FirstDifference(a, b, k) {
        assert k > 0;
        assert a[1..][..k - 1] == a[..k][1..] && b[1..][..k - 1] == b[..k][1..];
        assert FirstDifference(a[1..], b[1..], k - 1);
      }
    }
  }

  lemma {:induction false} LessIrreflexive(a: string)
    ensures !Less(a, a)
  {
    if a == "" {
    } else {
      LessIrreflexive(a[1..]);
    }
  }

  lemma {:induction false} LessTotal(a: string, b: string)
    ensures Less(a, b) || Less(b, a) || a == b
  {
    if a == "" || b == "" || a[0] != b[0] {
    } else {
      LessTotal(a[1..], b[1..]);
      assert a == [a[0]] + a[1..] && b == [b[0]] + b[1..];
    }
  }

  lemma {:induction false} LessTransitive(a: string, b: string, c: string)
    requires Less(a, b) && Less(b, c)
    ensures Less(a, c)
  {
    if a == "" || a[0] != b[0] || b[0] != c[0] {
    } else {
      LessTransitive(a[1..], b[1..], c[1..]);
    }
  }

  /** No other key comes before k. */
  predicate IsFirst(k: string, keys: set<string>) {
    k in keys && forall j :: j in keys && j != k ==> Less(k, j)
  }

  lemma {:induction false} FirstExists(keys: set<string>)
    requires keys != {}
    ensures exists k :: IsFirst(k, keys)
    decreases |keys|
  {
    var x :| x in keys;
    var rest := keys - {x};
    if rest == {} {
      assert keys == {x};
      assert IsFirst(x, keys);
    } else {
      FirstExists(rest);
      var y :| IsFirst(y, rest);
      LessTotal(x, y);
      if Less(x, y) {
        forall j | j in keys && j != x
          ensures Less(x, j)
        {
          if j != y {
            LessTransitive(x, y, j);
          }
        }
        assert IsFirst(x, keys);
      } else {
        assert IsFirst(y, keys);
      }
    }
  }

  lemma FirstUnique(keys: set<string>)
    ensures forall a, b :: IsFirst(a, keys) && IsFirst(b, keys) ==> a == b
  {
    forall a, b | IsFirst(a, keys) && IsFirst(b, keys)
      ensures a == b
    {
      if a != b {
        LessTransitive(a, b, a);
        LessIrreflexive(a);
      }
    }
  }

  function FirstKey(keys: set<string>): (k: string)
    requires keys != {}
    ensures IsFirst(k, keys)
  {
    FirstExists(keys);
    FirstUnique(keys);
    var k :| k in keys && IsFirst(k, keys);
    k
  }

  predicate Ascending(s: seq<string>) {
    forall i, j :: 0 <= i < j < |s| ==> Less(s[i], s[j])
  }

  /** The keys in iteration order. */
  function SortedKeys(keys: set<string>): (s: seq<string>)
    ensures forall k :: k in s <==> k in keys
    ensures Ascending(s)
    decreases |keys|
  {
    if keys == {} then []
    else
      var k := FirstKey(keys);
      [k] + SortedKeys(keys - {k})
  }

  /** Iterating over the keys of a map and appending each to a list. */
  method CollectKeys(keys: set<string>) returns (s: seq<string>)
    ensures s == SortedKeys(keys)
  {
    hide FirstKey;
    s := [];
    var rest := keys;
    while rest != {}
      invariant s + SortedKeys(rest) == SortedKeys(keys)
      decreases |rest|
    {
      var k := FirstKey(rest);
      s := s + [k];
      rest := rest - {k};
    }
  }

  /** A strictly ascending sequence is determined by its elements. */
  lemma {:induction false} SortedUnique(s: seq<string>, keys: set<string>)
    requires Ascending(s) && forall k :: k in s <==> k in keys
    ensures s == SortedKeys(keys)
    decreases |s|
  {
    if s == [] {
      assert keys == {};
    } else {
      var k := s[0];
      assert k in s;
      forall j | j in keys && j != k
        ensures Less(k, j)
      {
        assert j in s;
        var i :| 0 <= i < |s| && s[i] == j;
      }
      assert IsFirst(k, keys);
      FirstUnique(keys);
      var rest := s[1..];
      assert s == [k] + rest;
      LessIrreflexive(k);
      assert k !in rest;
      SortedUnique(rest, keys - {k});
    }
  }
}
