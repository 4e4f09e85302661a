/** Finite-collection helpers shared by the queries: ordered enumeration of
    an id set, a sum over a map, an arg-max, and a sort by an integer key
    with a LIMIT on top. They stand for what `ORDER BY`, `LIMIT`, `SUM` and
    `Stream.sorted` do in the source. */
module Collections {

  /** A non-empty set of ids has an element. The set is paired up first
      because the solver finds witnesses for tuples more readily than for
      boxed integers. */
  lemma HasElement(s: set<int>)
    requires s != {}
    ensures exists x :: x in s
  {
    var pairs := set x | x in s :: (x, 0);
    assert pairs != {} by { assert forall x :: x in s ==> (x, 0) in pairs; }
    var p :| p in pairs;
  }

  lemma MinExists(s: set<int>)
    requires s != {}
    ensures exists m :: m in s && forall x :: x in s ==> m <= x
    decreases |s|
  {
    HasElement(s);
    var x :| x in s;
    if s != {x} {
      var s' := s - {x};
      MinExists(s');
      var m :| m in s' && forall y :: y in s' ==> m <= y;
      if x < m {
        assert forall y :: y in s ==> x <= y by {
          forall y | y in s ensures x <= y { if y != x { assert y in s'; } }
        }
      } else {
        assert forall y :: y in s ==> m <= y by {
          forall y | y in s ensures m <= y { if y != x { assert y in s'; } }
        }
        assert m in s;
      }
    } else {
      assert forall y :: y in s ==> y == x;
    }
  }

  /** The least element of a non-empty set of ids. */
  function MinOf(s: set<int>): (m: int)
    requires s != {}
    ensures m in s && forall x :: x in s ==> m <= x
  {
    MinExists(s);
    var m :| m in s && forall x :: x in s ==> m <= x;
    m
  }

  predicate StrictlyIncreasing(xs: seq<int>) {
    forall i, j :: 0 <= i < j < |xs| ==> xs[i] < xs[j]
  }

  /** A strictly increasing sequence lists as many values as it has
      elements. */
  lemma {:induction false} IncreasingCard(xs: seq<int>)
    requires StrictlyIncreasing(xs)
    ensures |(set x | x in xs)| == |xs|
  {
    if xs != [] {
      var rest := xs[1..];
      assert StrictlyIncreasing(rest) by {
        forall i, j | 0 <= i < j < |rest| ensures rest[i] < rest[j] {
          assert rest[i] == xs[i + 1] && rest[j] == xs[j + 1];
        }
      }
      IncreasingCard(rest);
      assert (set x | x in xs) == {xs[0]} + (set x | x in rest) by {
        assert xs == [xs[0]] + rest;
      }
      assert xs[0] !in (set x | x in rest) by {
        forall k | 0 <= k < |rest| ensures rest[k] != xs[0] {
          assert rest[k] == xs[k + 1];
        }
      }
    }
  }

  /** The elements of `s` in ascending order. */
  function Ascending(s: set<int>): (xs: seq<int>)
    ensures StrictlyIncreasing(xs)
    ensures forall x :: x in xs <==> x in s
    ensures |xs| == |s|
    decreases |s|
  {
    if s == {} then []
    else
      var m := MinOf(s);
      [m] + Ascending(s - {m})
  }

  /** The ascending listing of a set lists exactly that set. */
  lemma AscendingSet(s: set<int>)
    ensures (set x | x in Ascending(s)) == s
  {
    var xs := Ascending(s);
    assert forall x :: x in (set y | y in xs) <==> x in s;
  }

  /** The values under the given keys, in that order. */
  function ValuesAt<T>(m: map<int, T>, keys: seq<int>): (r: seq<T>)
    requires forall i :: 0 <= i < |keys| ==> keys[i] in m
    ensures |r| == |keys| && forall i :: 0 <= i < |keys| ==> r[i] == m[keys[i]]
  {
    seq(|keys|, i requires 0 <= i < |keys| => m[keys[i]])
  }

  /** Listing the values under every key of a map lists all its values and
      nothing else. */
  lemma ValuesListed<T>(m: map<int, T>, keys: seq<int>)
    requires forall i :: 0 <= i < |keys| ==> keys[i] in m
    requires forall k :: k in m ==> k in keys
    ensures forall k :: k in m ==> m[k] in ValuesAt(m, keys)
    ensures forall v :: v in ValuesAt(m, keys) <==> v in m.Values
  {
    var r := ValuesAt(m, keys);
    forall k | k in m ensures m[k] in r {
      var i :| 0 <= i < |keys| && keys[i] == k;
      assert r[i] == m[k];
    }
    forall v | v in r ensures v in m.Values {
      var i :| 0 <= i < |r| && r[i] == v;
      assert keys[i] in m;
    }
  }

  /** The values of a map, listed in ascending key order. */
  function MapValues<T(==,!new)>(m: map<int, T>): (r: seq<T>)
    ensures |r| == |m|
    ensures forall k :: k in m ==> m[k] in r
    ensures forall v :: v in r <==> v in m.Values
  {
    var keys := Ascending(m.Keys);
    assert forall i :: 0 <= i < |keys| ==> keys[i] in keys;
    ValuesListed(m, keys);
    ValuesAt(m, keys)
  }


  /** The key an identity column hands out next: above every key in use.
      The model keeps the guarantee a caller relies on (the new key is
      unused) rather than the database's exact sequence. */
  function NextKey(keys: set<int>): (k: int)
    ensures k >= 1 && k !in keys
    ensures forall x :: x in keys ==> x < k
  {
    var xs := Ascending(keys);
    if xs == [] then 1
    else
      var top := xs[|xs| - 1];
      assert forall x :: x in keys ==> x <= top by {
        forall x | x in keys ensures x <= top {
          var i :| 0 <= i < |xs| && xs[i] == x;
        }
      }
      if top < 1 then 1 else top + 1
  }

  /** The sum of the values of a map with id keys. */
  function MapSum(m: map<int, int>): int
    decreases |m|
  {
    if m == map[] then 0
    else
      var k := MinOf(m.Keys);
      m[k] + MapSum(m - {k})
  }

  /** The sum does not depend on which key is taken out first. */
  lemma {:induction false} MapSumRemove(m: map<int, int>, k: int)
    requires k in m
    ensures MapSum(m) == m[k] + MapSum(m - {k})
    decreases |m|
  {
    var first := MinOf(m.Keys);
    if first != k {
      var rest := m - {first};
      assert k in rest;
      MapSumRemove(rest, k);
      var without := m - {k};
      assert first in without.Keys;
      assert MinOf(without.Keys) == first;
      assert without - {first} == rest - {k};
    }
  }

  /** Replacing or inserting the value at one key changes the sum by the
      difference, so an upsert never counts a key twice. */
  lemma MapSumUpdate(m: map<int, int>, k: int, v: int)
    ensures MapSum(m[k := v]) == MapSum(m) - (if k in m then m[k] else 0) + v
  {
    var m' := m[k := v];
    MapSumRemove(m', k);
    assert m' - {k} == m - {k};
    if k in m {
      MapSumRemove(m, k);
    } else {
      assert m - {k} == m;
    }
  }

  /** Removing a key takes its value out of the sum. */
  lemma MapSumDelete(m: map<int, int>, k: int)
    ensures MapSum(m - {k}) == MapSum(m) - (if k in m then m[k] else 0)
  {
    if k in m {
      MapSumRemove(m, k);
    } else {
      assert m - {k} == m;
    }
  }

  /** The keys of `m` whose value is `v`. */
  function KeysWithValue(m: map<int, int>, v: int): set<int> {
    set k | k in m && m[k] == v
  }

  lemma KeysWithValueRemove(m: map<int, int>, k: int, v: int)
    requires k in m
    ensures KeysWithValue(m, v) == KeysWithValue(m - {k}, v) + (if m[k] == v then {k} else {})
  {
  }

  /** When every value is +1 or -1, the sum is the number of +1 keys minus
      the number of -1 keys. */
  lemma {:induction false} MapSumOfSigns(m: map<int, int>)
    requires forall k :: k in m ==> m[k] == 1 || m[k] == -1
    ensures MapSum(m) == |KeysWithValue(m, 1)| - |KeysWithValue(m, -1)|
    decreases |m|
  {
    if m != map[] {
      var k := MinOf(m.Keys);
      var rest := m - {k};
      MapSumOfSigns(rest);
      KeysWithValueRemove(m, k, 1);
      KeysWithValueRemove(m, k, -1);
      assert k !in KeysWithValue(rest, 1) && k !in KeysWithValue(rest, -1);
    }
  }

  /** The key whose score is greatest, the least such key on ties. */
  function ArgMax(s: set<int>, score: int -> int): (best: int)
    requires s != {}
    ensures best in s
    ensures forall x :: x in s ==> score(x) <= score(best)
    ensures forall x :: x in s && score(x) == score(best) ==> best <= x
    decreases |s|
  {
    var m := MinOf(s);
    if s == {m} then m
    else
      var r := ArgMax(s - {m}, score);
      if score(m) >= score(r) then m else r
  }

  predicate SortedBy<T>(xs: seq<T>, key: T -> int) {
    forall i, j :: 0 <= i < j < |xs| ==> key(xs[i]) <= key(xs[j])
  }

  /** An element no greater than every element of a sorted sequence can
      go in front of it. */
  lemma ConsSorted<T>(y: T, ys: seq<T>, key: T -> int)
    requires SortedBy(ys, key)
    requires forall k :: 0 <= k < |ys| ==> key(y) <= key(ys[k])
    ensures SortedBy([y] + ys, key)
  {
    var zs := [y] + ys;
    forall i, j | 0 <= i < j < |zs| ensures key(zs[i]) <= key(zs[j]) {
      assert zs[j] == ys[j - 1];
      if i > 0 {
        assert zs[i] == ys[i - 1];
      }
    }
  }

  /** The tail of a sorted sequence is sorted. */
  lemma SortedTail<T>(xs: seq<T>, key: T -> int)
    requires xs != [] && SortedBy(xs, key)
    ensures SortedBy(xs[1..], key)
  {
    var t := xs[1..];
    forall i, j | 0 <= i < j < |t| ensures key(t[i]) <= key(t[j]) {
      assert t[i] == xs[i + 1] && t[j] == xs[j + 1];
    }
  }

  /** The recursive step of `Insert`: the head of `xs` goes back in front of
      the insertion into its tail. */
  lemma InsertBehind<T>(x: T, xs: seq<T>, r': seq<T>, key: T -> int)
    requires xs != [] && SortedBy(xs, key) && key(xs[0]) < key(x)
    requires SortedBy(r', key) && multiset(r') == multiset(xs[1..]) + multiset{x}
    requires xs[1..] == [] ==> r' == [x]
    requires xs[1..] != [] ==> r'[0] == (if key(x) <= key(xs[1]) then x else xs[1])
    ensures SortedBy([xs[0]] + r', key)
    ensures multiset([xs[0]] + r') == multiset(xs) + multiset{x}
  {
    assert |r'| == |multiset(r')| == |xs| > 0;
    assert key(xs[0]) <= key(r'[0]) by {
      if xs[1..] != [] {
        assert xs[1..][0] == xs[1];
      }
    }
    assert forall k :: 0 <= k < |r'| ==> key(xs[0]) <= key(r'[k]) by {
      forall k | 0 <= k < |r'| ensures key(xs[0]) <= key(r'[k]) {
        if k > 0 {
          assert key(r'[0]) <= key(r'[k]);
        }
      }
    }
    ConsSorted(xs[0], r', key);
    assert xs == [xs[0]] + xs[1..];
  }

  function Insert<T>(x: T, xs: seq<T>, key: T -> int): (r: seq<T>)
    requires SortedBy(xs, key)
    ensures SortedBy(r, key)
    ensures multiset(r) == multiset(xs) + multiset{x}
    ensures xs == [] ==> r == [x]
    ensures xs != [] ==> r[0] == (if key(x) <= key(xs[0]) then x else xs[0])
  {
    if xs == [] then [x]
    else if key(x) <= key(xs[0]) then
      ConsSorted(x, xs, key);
      [x] + xs
    else
      SortedTail(xs, key);
      var r' := Insert(x, xs[1..], key);
      InsertBehind(x, xs, r', key);
      [xs[0]] + r'
  }

  /** Insertion sort by ascending key: a sorted permutation of `xs`. */
  function SortBy<T>(xs: seq<T>, key: T -> int): (r: seq<T>)
    ensures SortedBy(r, key)
    ensures multiset(r) == multiset(xs)
    ensures |r| == |xs|
  {
    if xs == [] then []
    else
      assert xs == [xs[0]] + xs[1..];
      Insert(xs[0], SortBy(xs[1..], key), key)
  }

  function Min(a: int, b: int): int {
    if a < b then a else b
  }

  /** No element occurs twice. */
  predicate Distinct<T(==)>(xs: seq<T>) {
    forall i, j :: 0 <= i < j < |xs| ==> xs[i] != xs[j]
  }

  /** A sequence is duplicate-free exactly when no element has
      multiplicity above one. */
  lemma {:induction false} DistinctMultiplicity<T>(xs: seq<T>)
    ensures Distinct(xs) <==> forall x :: multiset(xs)[x] <= 1
    decreases |xs|
  {
    if xs != [] {
      var t := xs[1..];
      assert xs == [xs[0]] + t;
      assert forall x :: multiset(xs)[x] == multiset(t)[x] + (if x == xs[0] then 1 else 0);
      DistinctMultiplicity(t);
      if Distinct(xs) {
        assert Distinct(t) by {
          forall i, j | 0 <= i < j < |t| ensures t[i] != t[j] {
            assert t[i] == xs[i + 1] && t[j] == xs[j + 1];
          }
        }
        assert xs[0] !in t by {
          forall k | 0 <= k < |t| ensures t[k] != xs[0] {
            assert t[k] == xs[k + 1];
          }
        }
      } else {
        var i, j :| 0 <= i < j < |xs| && xs[i] == xs[j];
        if i == 0 {
          assert xs[j] == t[j - 1];
          assert multiset(xs)[xs[0]] >= 2;
        } else {
          assert t[i - 1] == t[j - 1];
          assert !Distinct(t);
        }
      }
    }
  }

  /** Taking part of a duplicate-free sequence keeps it duplicate-free. */
  lemma DistinctSubMultiset<T>(r: seq<T>, xs: seq<T>)
    requires multiset(r) <= multiset(xs) && Distinct(xs)
    ensures Distinct(r)
  {
    DistinctMultiplicity(xs);
    DistinctMultiplicity(r);
  }

  /** Every element of a sub-multiset occurs in the larger sequence. */
  lemma SubMultisetMembers<T>(r: seq<T>, xs: seq<T>)
    requires multiset(r) <= multiset(xs)
    ensures forall x :: x in r ==> x in xs
  {
    forall x | x in r ensures x in xs {
      assert x in multiset(r);
    }
  }

  /** In a sorted sequence every element before the cut has a key no greater
      than any element after it. */
  lemma SortedPrefixBelowSuffix<T>(sorted: seq<T>, key: T -> int, cut: nat, x: T, y: T)
    requires SortedBy(sorted, key) && cut <= |sorted|
    requires x in sorted && x !in sorted[..cut] && y in sorted[..cut]
    ensures key(y) <= key(x)
  {
    var i :| 0 <= i < |sorted| && sorted[i] == x;
    var j :| 0 <= j < cut && sorted[..cut][j] == y;
    assert forall k :: 0 <= k < cut ==> sorted[..cut][k] != x;
    assert i >= cut;
  }

  /** A prefix of a sorted sequence is sorted and a sub-multiset of it. */
  lemma SortedPrefix<T>(sorted: seq<T>, key: T -> int, cut: nat)
    requires SortedBy(sorted, key) && cut <= |sorted|
    ensures SortedBy(sorted[..cut], key)
    ensures multiset(sorted[..cut]) <= multiset(sorted)
    ensures cut == |sorted| ==> sorted[..cut] == sorted
  {
    assert sorted == sorted[..cut] + sorted[cut..];
    assert multiset(sorted) == multiset(sorted[..cut]) + multiset(sorted[cut..]);
  }

  /** What a sorted permutation cut after `cut` leaves out is no smaller
      than what it keeps. */
  lemma PrefixKeepsSmallest<T>(xs: seq<T>, sorted: seq<T>, key: T -> int, cut: nat)
    requires SortedBy(sorted, key) && multiset(sorted) == multiset(xs) && cut <= |sorted|
    ensures forall x, y :: x in xs && x !in sorted[..cut] && y in sorted[..cut] ==> key(y) <= key(x)
  {
    forall x, y | x in xs && x !in sorted[..cut] && y in sorted[..cut]
      ensures key(y) <= key(x)
    {
      assert x in multiset(sorted);
      SortedPrefixBelowSuffix(sorted, key, cut, x, y);
    }
  }

  /** `ORDER BY key LIMIT n`: the first `n` elements of `xs` in ascending key
      order. Only the elements, their order and the cut are determined; the
      order among equal keys is not. */
  function TopBy<T(==)>(xs: seq<T>, key: T -> int, n: nat): (r: seq<T>)
    ensures |r| == Min(n, |xs|)
    ensures multiset(r) <= multiset(xs)
    ensures SortedBy(r, key)
    ensures forall x, y :: x in xs && x !in r && y in r ==> key(y) <= key(x)
    ensures n >= |xs| ==> multiset(r) == multiset(xs)
    ensures Distinct(xs) ==> Distinct(r)
  {
    var sorted := SortBy(xs, key);
    var cut := Min(n, |xs|);
    SortedPrefix(sorted, key, cut);
    PrefixKeepsSmallest(xs, sorted, key, cut);
    var r := sorted[..cut];
    assert Distinct(xs) ==> Distinct(r) by {
      if Distinct(xs) {
        DistinctSubMultiset(r, xs);
      }
    }
    r
  }
}
