/** Sequence machinery shared by the sibling position sequencer and the section filter
    engine: `where` (Filter), `orderBy('position')` (a stable insertion sort), `limit`
    (Take), `max(...) + 1` (NextAfterMax) and the id-list checks that guard a reorder. */
module Positions {

  /** Keeps, in order, the elements that satisfy `p`. */
  function Filter<T(!new)>(s: seq<T>, p: T -> bool): (r: seq<T>)
    ensures |r| <= |s|
    ensures forall x :: x in r <==> x in s && p(x)
  {
    if s == [] then []
    else (if p(s[0]) then [s[0]] else []) + Filter(s[1..], p)
  }

  ghost predicate SortedBy<T>(s: seq<T>, key: T -> int)
  {
    forall i, j :: 0 <= i < j < |s| ==> key(s[i]) <= key(s[j])
  }

  /** Puts `x` in front of the first element whose key is not below `x`'s. */
  function Insert<T>(x: T, s: seq<T>, key: T -> int): (r: seq<T>)
    ensures |r| == |s| + 1
  {
    if s == [] then [x]
    else if key(x) <= key(s[0]) then [x] + s
    else [s[0]] + Insert(x, s[1..], key)
  }

  lemma {:induction false} InsertPermutes<T>(x: T, s: seq<T>, key: T -> int)
    ensures multiset(Insert(x, s, key)) == multiset(s) + multiset{x}
  {
    if s != [] && key(x) > key(s[0]) {
      InsertPermutes(x, s[1..], key);
      assert s == [s[0]] + s[1..];
    }
  }

  lemma {:induction false} InsertSorted<T>(x: T, s: seq<T>, key: T -> int)
    requires SortedBy(s, key)
    ensures SortedBy(Insert(x, s, key), key)
  {
    if s != [] && key(x) > key(s[0]) {
      var t := s[1..];
      InsertSorted(x, t, key);
      InsertPermutes(x, t, key);
      var rest := Insert(x, t, key);
      forall j | 0 <= j < |rest| ensures key(s[0]) <= key(rest[j]) {
        assert rest[j] in multiset(rest);
        assert rest[j] in multiset(t) || rest[j] == x;
        if rest[j] != x {
          var k :| 0 <= k < |t| && t[k] == rest[j];
          assert t[k] == s[k + 1];
        }
      }
      SortedCons(s[0], rest, key);
    }
  }

  /** A sorted sequence stays sorted behind a head whose key is not above any of its keys. */
  lemma SortedCons<T>(h: T, rest: seq<T>, key: T -> int)
    requires SortedBy(rest, key)
    requires forall j :: 0 <= j < |rest| ==> key(h) <= key(rest[j])
    ensures SortedBy([h] + rest, key)
  {
    var r := [h] + rest;
    forall i, j | 0 <= i < j < |r| ensures key(r[i]) <= key(r[j]) {
      assert r[j] == rest[j - 1];
      if i > 0 { assert r[i] == rest[i - 1]; }
    }
  }

  /** Stable sort by `key`: of two elements with equal keys, the earlier stays earlier. */
  function Sort<T>(s: seq<T>, key: T -> int): (r: seq<T>)
    ensures SortedBy(r, key)
    ensures multiset(r) == multiset(s)
    ensures |r| == |s|
  {
    if s == [] then []
    else
      assert s == [s[0]] + s[1..];
      var rest := Sort(s[1..], key);
      InsertSorted(s[0], rest, key);
      InsertPermutes(s[0], rest, key);
      Insert(s[0], rest, key)
  }

  /** Sorting an already sorted sequence changes nothing. */
  lemma {:induction false} SortSorted<T>(s: seq<T>, key: T -> int)
    requires SortedBy(s, key)
    ensures Sort(s, key) == s
  {
    if s != [] {
      SortSorted(s[1..], key);
      assert s == [s[0]] + s[1..];
    }
  }

  /** The element with the largest key sorts last. */
  lemma MaxSortsLast<T>(s: seq<T>, key: T -> int, x: T)
    requires x in s
    requires forall y :: y in s && y != x ==> key(y) < key(x)
    ensures |Sort(s, key)| > 0 && Sort(s, key)[|s| - 1] == x
  {
    var r := Sort(s, key);
    assert x in r by {
      assert x in multiset(r);
    }
    var last := r[|r| - 1];
    assert last in s by {
      assert last in multiset(r);
    }
    var i := IndexOf(r, x);
    SortedLast(r, key, i);
  }

  lemma SortedLast<T>(r: seq<T>, key: T -> int, i: nat)
    requires SortedBy(r, key) && i < |r|
    ensures key(r[i]) <= key(r[|r| - 1])
  {
  }

  /** `where` distributes over concatenation. */
  lemma {:induction false} FilterAppend<T(!new)>(s: seq<T>, t: seq<T>, p: T -> bool)
    ensures Filter(s + t, p) == Filter(s, p) + Filter(t, p)
  {
    if s == [] {
      assert s + t == t;
    } else {
      var u := s + t;
      var tail := s[1..];
      assert u[0] == s[0] && u[1..] == tail + t;
      FilterAppend(tail, t, p);
      var head := if p(s[0]) then [s[0]] else [];
      var a := Filter(tail, p);
      var b := Filter(t, p);
      assert Filter(u, p) == head + Filter(tail + t, p);
      assert Filter(tail + t, p) == a + b;
      assert Filter(s, p) == head + a;
      assert head + (a + b) == (head + a) + b;
    }
  }

  /** `where` keeps a sequence whose every element matches and drops one where none does. */
  lemma {:induction false} FilterAllOrNone<T(!new)>(s: seq<T>, p: T -> bool)
    ensures (forall x :: x in s ==> p(x)) ==> Filter(s, p) == s
    ensures (forall x :: x in s ==> !p(x)) ==> Filter(s, p) == []
  {
    if s != [] {
      FilterAllOrNone(s[1..], p);
      assert s == [s[0]] + s[1..];
    }
  }

  /** `limit(n)` for a positive limit; no limit otherwise. */
  function Take<T>(s: seq<T>, limit: int): (r: seq<T>)
    ensures 0 < limit < |s| ==> r == s[..limit]
    ensures limit <= 0 || |s| <= limit ==> r == s
  {
    if 0 < limit < |s| then s[..limit] else s
  }

  /** `max(key) + 1` over the siblings, or 1 when there are none (SQL MAX of no rows is
      null, and null + 1 is 1 in PHP). */
  function NextAfterMax<T>(s: seq<T>, key: T -> int): (r: int)
    ensures forall x :: x in s ==> key(x) < r
    ensures s == [] ==> r == 1
    ensures s != [] ==> exists x :: x in s && key(x) == r - 1
  {
    if s == [] then 1
    else
      var rest := NextAfterMax(s[1..], key);
      assert s == [s[0]] + s[1..];
      if s[1..] == [] || key(s[0]) + 1 >= rest then key(s[0]) + 1 else rest
  }

  function SetOf<T(!new)>(s: seq<T>): (r: set<T>)
    ensures forall x :: x in r <==> x in s
  {
    set x | x in s
  }

  predicate Distinct<T(==)>(s: seq<T>)
  {
    forall i, j :: 0 <= i < j < |s| ==> s[i] != s[j]
  }

  /** The first index at which `x` occurs in `s`. */
  function IndexOf<T(==)>(s: seq<T>, x: T): (k: nat)
    requires x in s
    ensures k < |s| && s[k] == x && x !in s[..k]
  {
    if s[0] == x then 0
    else
      var k := 1 + IndexOf(s[1..], x);
      assert s[..k] == [s[0]] + s[1..][..k - 1];
      k
  }

  lemma {:induction false} DistinctCard<T(!new)>(s: seq<T>)
    ensures |SetOf(s)| <= |s|
    ensures |SetOf(s)| == |s| <==> Distinct(s)
  {
    if s != [] {
      var t := s[1..];
      DistinctCard(t);
      DistinctCons(s);
      assert s == [s[0]] + t;
      assert SetOf(s) == SetOf(t) + {s[0]};
      if s[0] in t {
        assert SetOf(s) == SetOf(t);
      } else {
        assert |SetOf(s)| == |SetOf(t)| + 1;
      }
    }
  }

  /** A non-empty sequence is duplicate-free when its head is not repeated and its tail is
      duplicate-free. */
  lemma DistinctCons<T>(s: seq<T>)
    requires s != []
    ensures Distinct(s) <==> s[0] !in s[1..] && Distinct(s[1..])
  {
    var t := s[1..];
    if s[0] in t {
      var j := IndexOf(t, s[0]);
      assert s[0] == s[j + 1];
    } else if Distinct(t) {
      forall i, j | 0 <= i < j < |s| ensures s[i] != s[j] {
        if i > 0 { assert s[i] == t[i - 1] && s[j] == t[j - 1]; }
        else { assert s[j] == t[j - 1]; }
      }
    }
    if Distinct(s) {
      forall i, j | 0 <= i < j < |t| ensures t[i] != t[j] {
        assert t[i] == s[i + 1] && t[j] == s[j + 1];
      }
    }
  }

  lemma SubsetCard<T>(a: set<T>, b: set<T>)
    requires a <= b
    ensures |a| <= |b|
    ensures |a| == |b| ==> a == b
  {
    assert b == a + (b - a);
    assert |b| == |a| + |b - a|;
    if |a| == |b| {
      assert |b - a| == 0;
      assert b - a == {};
    }
  }

  /** `array_diff` is empty exactly for a subset. */
  lemma SubsetDiff<T>(a: set<T>, b: set<T>)
    ensures a <= b <==> a - b == {}
  {
    if !(a <= b) {
      var x :| x in a && x !in b;
      assert x in a - b;
    }
  }

  /** Applies `f` to every element, in order. */
  function Map<T, U>(s: seq<T>, f: T -> U): (r: seq<U>)
    ensures |r| == |s|
    ensures forall i :: 0 <= i < |s| ==> r[i] == f(s[i])
  {
    seq(|s|, i requires 0 <= i < |s| => f(s[i]))
  }

  /** No two elements share a key: the primary-key constraint of a table. */
  ghost predicate UniqueBy<T>(s: seq<T>, key: T -> int)
  {
    forall i, j :: 0 <= i < j < |s| ==> key(s[i]) != key(s[j])
  }

  /** A `where` clause keeps keys unique. */
  lemma {:induction false} FilterUnique<T(!new)>(s: seq<T>, key: T -> int, p: T -> bool)
    requires UniqueBy(s, key)
    ensures UniqueBy(Filter(s, p), key)
  {
    if s != [] {
      var t := s[1..];
      assert UniqueBy(t, key) by {
        forall i, j | 0 <= i < j < |t| ensures key(t[i]) != key(t[j]) {
          assert t[i] == s[i + 1] && t[j] == s[j + 1];
        }
      }
      FilterUnique(t, key, p);
      var rest := Filter(t, p);
      if p(s[0]) {
        var r := [s[0]] + rest;
        assert Filter(s, p) == r;
        forall i, j | 0 <= i < j < |r| ensures key(r[i]) != key(r[j]) {
          if i == 0 {
            assert r[j] == rest[j - 1];
            assert rest[j - 1] in t;
            var m := IndexOf(t, rest[j - 1]);
            assert s[m + 1] == r[j];
          } else {
            assert r[i] == rest[i - 1] && r[j] == rest[j - 1];
          }
        }
      } else {
        assert Filter(s, p) == rest;
      }
    }
  }

  /** Keys are unique exactly when the sequence of keys is duplicate-free. */
  lemma UniqueKeysDistinct<T>(s: seq<T>, key: T -> int)
    ensures UniqueBy(s, key) <==> Distinct(Map(s, key))
  {
  }

  /** Extending a prefix does not move the first occurrence of an element already in it. */
  lemma IndexOfExtend<T>(s: seq<T>, k: nat, x: T)
    requires k < |s| && x in s[..k]
    ensures IndexOf(s[..k + 1], x) == IndexOf(s[..k], x)
  {
  }

  /** In a duplicate-free sequence the first occurrence of `s[k]` is at `k`. */
  lemma IndexOfDistinct<T>(s: seq<T>, k: nat)
    requires Distinct(s) && k < |s|
    ensures IndexOf(s, s[k]) == k
  {
  }

  /** The integers 1..n. */
  function Range(n: nat): (r: set<int>)
    ensures forall i :: i in r <==> 1 <= i <= n
  {
    if n == 0 then {} else Range(n - 1) + {n}
  }

  lemma {:induction false} RangeCard(n: nat)
    ensures |Range(n)| == n
  {
    if n > 0 {
      RangeCard(n - 1);
    }
  }

  /** The reorder guard: the number of sibling rows whose id occurs in the list (each row
      once, as `whereIn` returns it) must equal the length of the list. */
  predicate CountMatches<T(!new)>(ids: seq<T>, siblings: set<T>)
  {
    |SetOf(ids) * siblings| == |ids|
  }

  /** The guard holds exactly for duplicate-free lists of sibling ids. */
  lemma CountMatchesMeaning<T(!new)>(ids: seq<T>, siblings: set<T>)
    ensures CountMatches(ids, siblings) <==> Distinct(ids) && SetOf(ids) <= siblings
  {
    var k := SetOf(ids);
    DistinctCard(ids);
    SubsetCard(k * siblings, k);
    if k <= siblings {
      assert k * siblings == k;
    }
  }

  /** A nondecreasing run of n integers inside 1..n that takes every value of 1..n is
      exactly 1, 2, ..., n. */
  lemma {:induction false} CoveringRunIsIota(s: seq<int>)
    requires forall i :: 0 <= i < |s| ==> 1 <= s[i] <= |s|
    requires forall i, j :: 0 <= i < j < |s| ==> s[i] <= s[j]
    requires Range(|s|) <= SetOf(s)
    ensures forall i :: 0 <= i < |s| ==> s[i] == i + 1
  {
    assert SetOf(s) == Range(|s|);
    RangeCard(|s|);
    DistinctCard(s);
    StrictRunIsIota(s);
  }

  /** A strictly increasing run of `n` integers inside 1..n is exactly 1, 2, ..., n. */
  lemma {:induction false} StrictRunIsIota(s: seq<int>)
    requires forall i :: 0 <= i < |s| ==> 1 <= s[i] <= |s|
    requires forall i, j :: 0 <= i < j < |s| ==> s[i] < s[j]
    ensures forall i :: 0 <= i < |s| ==> s[i] == i + 1
  {
    forall i | 0 <= i < |s| ensures s[i] == i + 1 {
      GapAtLeast(s, 0, i);
      GapAtLeast(s, i, |s| - 1);
    }
  }

  lemma {:induction false} GapAtLeast(s: seq<int>, i: nat, j: nat)
    requires i <= j < |s|
    requires forall a, b :: 0 <= a < b < |s| ==> s[a] < s[b]
    ensures s[j] - s[i] >= j - i
    decreases j - i
  {
    if i < j {
      GapAtLeast(s, i + 1, j);
    }
  }

  /** Filtering commutes with inserting into a sorted sequence. */
  lemma {:induction false} FilterInsert<T(!new)>(x: T, s: seq<T>, key: T -> int, p: T -> bool)
    requires SortedBy(s, key)
    ensures Filter(Insert(x, s, key), p) == if p(x) then Insert(x, Filter(s, p), key) else Filter(s, p)
  {
    if s == [] {
      assert Insert(x, s, key) == [x];
      assert Filter([x], p) == (if p(x) then [x] else []) + Filter([], p);
    } else if key(x) <= key(s[0]) {
      FilterInsertFront(x, s, key, p);
    } else {
      var t := s[1..];
      assert SortedBy(t, key) by {
        forall i, j | 0 <= i < j < |t| ensures key(t[i]) <= key(t[j]) {
          assert t[i] == s[i + 1] && t[j] == s[j + 1];
        }
      }
      FilterInsert(x, t, key, p);
      var ins := Insert(x, t, key);
      var ft := Filter(t, p);
      var whole := [s[0]] + ins;
      assert Insert(x, s, key) == whole;
      assert whole[0] == s[0] && whole[1..] == ins;
      var fw := Filter(whole, p);
      assert fw == (if p(s[0]) then [s[0]] else []) + Filter(ins, p);
      if p(s[0]) {
        var sf := [s[0]] + ft;
        assert Filter(s, p) == sf;
        if p(x) {
          assert sf[0] == s[0] && sf[1..] == ft;
          assert Insert(x, sf, key) == [s[0]] + Insert(x, ft, key);
          assert fw == [s[0]] + Insert(x, ft, key);
        } else {
          assert fw == sf;
        }
      } else {
        assert Filter(s, p) == ft;
        assert fw == Filter(ins, p);
      }
    }
  }

  /** The case of FilterInsert where `x` goes in front. */
  lemma FilterInsertFront<T(!new)>(x: T, s: seq<T>, key: T -> int, p: T -> bool)
    requires SortedBy(s, key)
    requires s != [] && key(x) <= key(s[0])
    ensures Filter(Insert(x, s, key), p) == if p(x) then Insert(x, Filter(s, p), key) else Filter(s, p)
  {
    var xs := [x] + s;
    assert Insert(x, s, key) == xs;
    assert xs[0] == x && xs[1..] == s;
    assert Filter(xs, p) == (if p(x) then [x] else []) + Filter(s, p);
    var fs := Filter(s, p);
    if p(x) && fs != [] {
      assert fs[0] in s;
      var k :| 0 <= k < |s| && s[k] == fs[0];
      assert key(s[0]) <= key(s[k]);
      assert Insert(x, fs, key) == [x] + fs;
    }
  }

  /** Filtering after ordering equals ordering after filtering: the `where` clauses of a
      query may be applied before or after its `orderBy`. */
  lemma {:induction false} FilterSort<T(!new)>(s: seq<T>, key: T -> int, p: T -> bool)
    ensures Filter(Sort(s, key), p) == Sort(Filter(s, p), key)
  {
    if s != [] {
      var t := s[1..];
      var st := Sort(t, key);
      var ft := Filter(t, p);
      assert Sort(s, key) == Insert(s[0], st, key);
      FilterSort(t, key, p);
      assert Filter(st, p) == Sort(ft, key);
      FilterInsert(s[0], st, key, p);
      if p(s[0]) {
        var sf := [s[0]] + ft;
        assert Filter(s, p) == sf;
        assert sf[0] == s[0] && sf[1..] == ft;
        assert Sort(sf, key) == Insert(s[0], Sort(ft, key), key);
        assert Filter(Sort(s, key), p) == Insert(s[0], Sort(ft, key), key);
      } else {
        assert Filter(s, p) == ft;
        assert Filter(Sort(s, key), p) == Sort(ft, key);
      }
    }
  }

  /** Both predicates at once. */
  function Both<T>(p: T -> bool, q: T -> bool): T -> bool
  {
    x => p(x) && q(x)
  }

  /** Two `where` clauses in a row keep what both keep. */
  lemma {:induction false} FilterFilter<T(!new)>(s: seq<T>, p: T -> bool, q: T -> bool)
    ensures Filter(Filter(s, p), q) == Filter(s, Both(p, q))
  {
    if s != [] {
      FilterFilter(s[1..], p, q);
      var fp := Filter(s[1..], p);
      var b := Both(p, q);
      assert b(s[0]) == (p(s[0]) && q(s[0]));
      assert Filter(s, b) == (if b(s[0]) then [s[0]] else []) + Filter(s[1..], b);
      if p(s[0]) {
        var sf := [s[0]] + fp;
        assert Filter(s, p) == sf;
        assert sf[0] == s[0] && sf[1..] == fp;
        assert Filter(sf, q) == (if q(s[0]) then [s[0]] else []) + Filter(fp, q);
      } else {
        assert Filter(s, p) == fp;
      }
    }
  }

  /** Two predicates that agree on every element keep the same elements. */
  lemma {:induction false} FilterCongruent<T(!new)>(s: seq<T>, p: T -> bool, q: T -> bool)
    requires forall x :: x in s ==> p(x) == q(x)
    ensures Filter(s, p) == Filter(s, q)
  {
    if s != [] {
      assert forall x :: x in s[1..] ==> x in s;
      FilterCongruent(s[1..], p, q);
    }
  }

  /** The keys of the elements that satisfy `p`. */
  ghost function KeysWhere<T(!new)>(s: seq<T>, key: T -> int, p: T -> bool): (r: set<int>)
    ensures forall x :: x in s && p(x) ==> key(x) in r
  {
    set x | x in s && p(x) :: key(x)
  }

  /** With unique keys, a `where` returns one row per matching key. */
  lemma {:induction false} FilterKeyCount<T(!new)>(s: seq<T>, key: T -> int, p: T -> bool)
    requires UniqueBy(s, key)
    ensures |Filter(s, p)| == |KeysWhere(s, key, p)|
  {
    var kept := Filter(s, p);
    var keys := Map(kept, key);
    FilterUnique(s, key, p);
    UniqueKeysDistinct(kept, key);
    DistinctCard(keys);
    forall k | k in KeysWhere(s, key, p) ensures k in SetOf(keys) {
      var x :| x in s && p(x) && key(x) == k;
      assert x in kept;
      var i := IndexOf(kept, x);
      assert keys[i] == k;
    }
    forall k | k in SetOf(keys) ensures k in KeysWhere(s, key, p) {
      var i :| 0 <= i < |keys| && keys[i] == k;
      assert kept[i] in kept;
    }
    assert SetOf(keys) == KeysWhere(s, key, p);
  }

  /** Rows sorted by position whose positions `ps` name slots 1..n of an id list, the id
      of the slot being the row's key in `ks`, one row per slot, are exactly the list in
      order. */
  lemma DenseOrder(ps: seq<int>, ks: seq<int>, ids: seq<int>)
    requires |ps| == |ks| == |ids|
    requires forall i, j :: 0 <= i < j < |ps| ==> ps[i] <= ps[j]
    requires forall i :: 0 <= i < |ps| ==> 1 <= ps[i] <= |ids| && ks[i] == ids[ps[i] - 1]
    requires Range(|ids|) <= SetOf(ps)
    ensures forall k :: 0 <= k < |ps| ==> ks[k] == ids[k] && ps[k] == k + 1
  {
    CoveringRunIsIota(ps);
  }


}
