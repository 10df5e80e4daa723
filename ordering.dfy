/** Stable ordering by an integer key, as Python's `list.sort(key=..., reverse=True)`
    and `Counter.most_common` do it, plus the existence of a maximal element, which
    the SQL `ORDER BY ... LIMIT` queries rely on. */
module Ordering {

  /** Keys never increase from left to right. */
  ghost predicate SortedDesc<T>(s: seq<T>, key: T -> int)
  {
    forall i, j :: 0 <= i < j < |s| ==> key(s[i]) >= key(s[j])
  }

  /** Keys never increase, and among equal keys `ord` strictly increases. */
  ghost predicate LexSorted<T>(s: seq<T>, key: T -> int, ord: T -> int)
  {
    forall i, j :: 0 <= i < j < |s| ==>
      key(s[i]) > key(s[j]) || (key(s[i]) == key(s[j]) && ord(s[i]) < ord(s[j]))
  }

  ghost predicate StrictlyIncreasing<T>(s: seq<T>, ord: T -> int)
  {
    forall i, j :: 0 <= i < j < |s| ==> ord(s[i]) < ord(s[j])
  }

  /** No element occurs twice. */
  ghost predicate Distinct<T>(s: seq<T>)
  {
    forall i, j :: 0 <= i < j < |s| ==> s[i] != s[j]
  }

  /** A sequence has no repeated element exactly when no element counts more than once. */
  lemma {:induction false} DistinctCounts<T>(s: seq<T>)
    ensures Distinct(s) <==> forall x :: multiset(s)[x] <= 1
  {
    if s != [] {
      var t := s[1..];
      DistinctCounts(t);
      assert s == [s[0]] + t;
      assert multiset(s) == multiset{s[0]} + multiset(t);
      if Distinct(s) {
        forall i, j | 0 <= i < j < |t| ensures t[i] != t[j] {
          assert t[i] == s[i + 1] && t[j] == s[j + 1];
        }
        forall k | 0 <= k < |t| ensures t[k] != s[0] {
          assert s[k + 1] == t[k];
        }
      }
      if forall x :: multiset(s)[x] <= 1 {
        assert forall x :: multiset(t)[x] <= 1 by {
          forall x ensures multiset(t)[x] <= 1 {
            assert multiset(t)[x] <= multiset(s)[x];
          }
        }
        assert s[0] !in multiset(t) by {
          assert multiset(s)[s[0]] == 1 + multiset(t)[s[0]];
        }
        forall i, j | 0 <= i < j < |s| ensures s[i] != s[j] {
          assert s[j] == t[j - 1];
          if i == 0 {
            assert t[j - 1] in multiset(t);
          } else {
            assert s[i] == t[i - 1];
          }
        }
      }
    }
  }

  /** Reordering keeps a sequence free of repeats. */
  lemma PermutationKeepsDistinct<T>(a: seq<T>, b: seq<T>)
    requires multiset(a) == multiset(b) && Distinct(a)
    ensures Distinct(b)
  {
    DistinctCounts(a);
    DistinctCounts(b);
  }

  /** The elements of `s` whose key is `k`, in their order in `s`. */
  function KeyFilter<T>(s: seq<T>, key: T -> int, k: int): seq<T>
  {
    if s == [] then []
    else (if key(s[0]) == k then [s[0]] else []) + KeyFilter(s[1..], key, k)
  }

  /** The contribution of one element to a key filter. */
  function KeyHead<T>(x: T, key: T -> int, k: int): seq<T>
  {
    if key(x) == k then [x] else []
  }

  lemma KeyFilterCons<T>(x: T, s: seq<T>, key: T -> int, k: int)
    ensures KeyFilter([x] + s, key, k) == KeyHead(x, key, k) + KeyFilter(s, key, k)
  {
    assert ([x] + s)[1..] == s;
  }

  lemma {:induction false} KeyFilterAppend<T>(a: seq<T>, b: seq<T>, key: T -> int, k: int)
    ensures KeyFilter(a + b, key, k) == KeyFilter(a, key, k) + KeyFilter(b, key, k)
  {
    if a == [] {
      assert a + b == b;
    } else {
      var h, t := a[0], a[1..];
      assert a == [h] + t;
      assert a + b == [h] + (t + b);
      KeyFilterAppend(t, b, key, k);
      KeyFilterCons(h, t + b, key, k);
      KeyFilterCons(h, t, key, k);
      calc {
        KeyFilter(a + b, key, k);
        KeyHead(h, key, k) + KeyFilter(t + b, key, k);
        KeyHead(h, key, k) + (KeyFilter(t, key, k) + KeyFilter(b, key, k));
        (KeyHead(h, key, k) + KeyFilter(t, key, k)) + KeyFilter(b, key, k);
        KeyFilter(a, key, k) + KeyFilter(b, key, k);
      }
    }
  }

  /** Inserts `x` in front of the first element whose key is not above `x`'s. */
  function Insert<T>(x: T, r: seq<T>, key: T -> int): (res: seq<T>)
    ensures |res| == |r| + 1
    ensures multiset(res) == multiset(r) + multiset{x}
  {
    if r == [] || key(x) >= key(r[0]) then [x] + r
    else
      assert r == [r[0]] + r[1..];
      [r[0]] + Insert(x, r[1..], key)
  }

  /** Stable insertion sort by descending key: Python's sort with `reverse=True`. */
  function SortByKeyDesc<T>(s: seq<T>, key: T -> int): (r: seq<T>)
    ensures |r| == |s|
    ensures multiset(r) == multiset(s)
  {
    if s == [] then []
    else
      assert s == [s[0]] + s[1..];
      Insert(s[0], SortByKeyDesc(s[1..], key), key)
  }

  /** The first `n` elements of the stable descending sort: `sorted(s, reverse=True)[:n]`. */
  function TopN<T>(s: seq<T>, key: T -> int, n: nat): seq<T>
  {
    var r := SortByKeyDesc(s, key);
    r[..if n <= |r| then n else |r|]
  }

  lemma {:induction false} InsertSorted<T>(x: T, r: seq<T>, key: T -> int)
    requires SortedDesc(r, key)
    ensures SortedDesc(Insert(x, r, key), key)
  {
    if r == [] || key(x) >= key(r[0]) {
    } else {
      var tail := Insert(x, r[1..], key);
      InsertSorted(x, r[1..], key);
      forall j | 0 <= j < |tail| ensures key(r[0]) >= key(tail[j]) {
        assert tail[j] in multiset(tail);
        if tail[j] != x {
          assert tail[j] in multiset(r[1..]);
          var k :| 0 <= k < |r[1..]| && r[1..][k] == tail[j];
          assert r[k + 1] == tail[j];
        }
      }
      assert Insert(x, r, key) == [r[0]] + tail;
    }
  }

  lemma {:induction false} SortSorted<T>(s: seq<T>, key: T -> int)
    ensures SortedDesc(SortByKeyDesc(s, key), key)
  {
    if s != [] {
      SortSorted(s[1..], key);
      InsertSorted(s[0], SortByKeyDesc(s[1..], key), key);
    }
  }

  /** Insertion skips only elements with a larger key than `x`, so no element with
      `x`'s key is passed over. */
  lemma {:induction false} InsertStable<T>(x: T, r: seq<T>, key: T -> int, k: int)
    ensures KeyFilter(Insert(x, r, key), key, k) == KeyFilter([x] + r, key, k)
  {
    if r == [] || key(x) >= key(r[0]) {
    } else {
      var h, t := r[0], r[1..];
      var tail := Insert(x, t, key);
      InsertStable(x, t, key, k);
      assert Insert(x, r, key) == [h] + tail;
      assert r == [h] + t;
      KeyFilterCons(h, tail, key, k);
      KeyFilterCons(x, t, key, k);
      KeyFilterCons(x, r, key, k);
      KeyFilterCons(h, t, key, k);
      assert KeyHead(h, key, k) == [] || KeyHead(x, key, k) == [];
      calc {
        KeyFilter(Insert(x, r, key), key, k);
        KeyHead(h, key, k) + KeyFilter(tail, key, k);
        KeyHead(h, key, k) + (KeyHead(x, key, k) + KeyFilter(t, key, k));
        KeyHead(x, key, k) + (KeyHead(h, key, k) + KeyFilter(t, key, k));
        KeyHead(x, key, k) + KeyFilter(r, key, k);
        KeyFilter([x] + r, key, k);
      }
    }
  }

  /** Sorting keeps, for every key, the elements with that key in their input order. */
  lemma {:induction false} SortStable<T>(s: seq<T>, key: T -> int, k: int)
    ensures KeyFilter(SortByKeyDesc(s, key), key, k) == KeyFilter(s, key, k)
  {
    if s != [] {
      var rest := SortByKeyDesc(s[1..], key);
      InsertStable(s[0], rest, key, k);
      SortStable(s[1..], key, k);
      assert ([s[0]] + rest)[1..] == rest;
    }
  }

  /** In a descending sequence, whatever lies past position `m` has a key no greater than
      anything before it. */
  lemma PrefixDominates<T>(r: seq<T>, key: T -> int, m: nat)
    requires SortedDesc(r, key) && m <= |r|
    ensures multiset(r) == multiset(r[..m]) + multiset(r[m..])
    ensures forall v :: v in multiset(r[m..]) ==> forall i :: 0 <= i < m ==> key(r[i]) >= key(v)
  {
    assert r == r[..m] + r[m..];
    forall v | v in multiset(r[m..]) ensures forall i :: 0 <= i < m ==> key(r[i]) >= key(v) {
      var j :| 0 <= j < |r[m..]| && r[m..][j] == v;
      assert r[m + j] == v;
    }
  }

  /** The first `n` of the sort are min(n, |s|) elements of `s`, by descending key, and
      every element left out has a key no greater than any chosen one. */
  lemma TopNSpec<T>(s: seq<T>, key: T -> int, n: nat)
    ensures var t := TopN(s, key, n);
      && |t| == (if n <= |s| then n else |s|)
      && SortedDesc(t, key)
      && multiset(t) <= multiset(s)
      && (forall v :: v in multiset(s) - multiset(t) ==> forall i :: 0 <= i < |t| ==> key(t[i]) >= key(v))
  {
    var r := SortByKeyDesc(s, key);
    var m := if n <= |r| then n else |r|;
    SortSorted(s, key);
    PrefixDominates(r, key, m);
  }

  /** For every key, the chosen elements with that key are the first ones with that key
      in `s`. */
  lemma TopNStable<T>(s: seq<T>, key: T -> int, n: nat, k: int)
    ensures KeyFilter(TopN(s, key, n), key, k) <= KeyFilter(s, key, k)
  {
    var r := SortByKeyDesc(s, key);
    var m := if n <= |r| then n else |r|;
    assert r == r[..m] + r[m..];
    KeyFilterAppend(r[..m], r[m..], key, k);
    SortStable(s, key, k);
  }

  lemma {:induction false} InsertLex<T>(x: T, r: seq<T>, key: T -> int, ord: T -> int)
    requires LexSorted(r, key, ord)
    requires forall y :: y in r ==> ord(x) < ord(y)
    ensures LexSorted(Insert(x, r, key), key, ord)
  {
    if r == [] || key(x) >= key(r[0]) {
      var res := [x] + r;
      forall i, j | 0 <= i < j < |res|
        ensures key(res[i]) > key(res[j]) || (key(res[i]) == key(res[j]) && ord(res[i]) < ord(res[j]))
      {
        if i == 0 {
          assert res[j] == r[j - 1] && res[j] in r;
          if j > 1 { assert key(r[0]) >= key(r[j - 1]); }
        }
      }
    } else {
      var tail := Insert(x, r[1..], key);
      InsertLex(x, r[1..], key, ord);
      var res := [r[0]] + tail;
      forall j | 0 <= j < |tail|
        ensures key(r[0]) > key(tail[j]) || (key(r[0]) == key(tail[j]) && ord(r[0]) < ord(tail[j]))
      {
        assert tail[j] in multiset(tail);
        if tail[j] != x {
          assert tail[j] in multiset(r[1..]);
          var k :| 0 <= k < |r[1..]| && r[1..][k] == tail[j];
          assert r[k + 1] == tail[j];
        }
      }
      assert Insert(x, r, key) == res;
    }
  }

  /** When the input is strictly increasing in `ord`, the stable sort breaks key ties by `ord`. */
  lemma {:induction false} SortLex<T>(s: seq<T>, key: T -> int, ord: T -> int)
    requires StrictlyIncreasing(s, ord)
    ensures LexSorted(SortByKeyDesc(s, key), key, ord)
  {
    if s != [] {
      var rest := SortByKeyDesc(s[1..], key);
      SortLex(s[1..], key, ord);
      forall y | y in rest ensures ord(s[0]) < ord(y) {
        assert y in multiset(rest);
        assert y in multiset(s[1..]);
        var k :| 0 <= k < |s[1..]| && s[1..][k] == y;
        assert s[k + 1] == y;
      }
      InsertLex(s[0], rest, key, ord);
    }
  }

  /** Every finite non-empty set has an element that is at least every other one under a
      total preorder on the values a map gives its keys. */
  lemma {:induction false} MaximalExists<K, V>(s: set<K>, m: map<K, V>, geq: (V, V) -> bool)
    returns (best: K)
    requires s != {} && s <= m.Keys
    requires forall a, b :: geq(a, b) || geq(b, a)
    requires forall a, b, c :: geq(a, b) && geq(b, c) ==> geq(a, c)
    ensures best in s
    ensures forall o :: o in s ==> geq(m[best], m[o])
    decreases s
  {
    var x :| x in s;
    if s == {x} {
      best := x;
    } else {
      var other := MaximalExists(s - {x}, m, geq);
      best := if geq(m[other], m[x]) then other else x;
    }
  }
}
