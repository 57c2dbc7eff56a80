/** Sequence operations that stand for the query clauses (`where`, `order by`,
    paging) and for the stream pipelines (`filter`, `map`, `distinct`) of the
    backend. */
module SeqUtil {
  import opened Outcomes

  // ---------------------------------------------------------------------------
  // where / filter
  // ---------------------------------------------------------------------------

  /** The complement of a row predicate: what a `delete ... where p` keeps. */
  function Not<T>(p: T -> bool): T -> bool
  {
    x => !p(x)
  }

  /** The elements of `s` that satisfy `p`, in their original order. */
  function Filter<T(!new)>(s: seq<T>, p: T -> bool): (r: seq<T>)
    ensures |r| <= |s|
    ensures forall x :: x in r <==> x in s && p(x)
  {
    if s == [] then []
    else if p(s[0]) then [s[0]] + Filter(s[1..], p)
    else Filter(s[1..], p)
  }

  /** Filtering keeps relative order: it distributes over concatenation. */
  lemma {:induction false} FilterConcat<T(!new)>(s: seq<T>, t: seq<T>, p: T -> bool)
    ensures Filter(s + t, p) == Filter(s, p) + Filter(t, p)
  {
    if s == [] {
      assert s + t == t;
    } else {
      assert (s + t)[0] == s[0];
      assert (s + t)[1..] == s[1..] + t;
      FilterConcat(s[1..], t, p);
    }
  }

  lemma {:induction false} FilterAll<T(!new)>(s: seq<T>, p: T -> bool)
    requires forall x :: x in s ==> p(x)
    ensures Filter(s, p) == s
  {
    if s != [] {
      FilterAll(s[1..], p);
    }
  }

  lemma {:induction false} FilterNone<T(!new)>(s: seq<T>, p: T -> bool)
    requires forall x :: x in s ==> !p(x)
    ensures Filter(s, p) == []
  {
    if s != [] {
      FilterNone(s[1..], p);
    }
  }

  /** Filtering twice is filtering once by the conjunction. */
  lemma {:induction false} FilterFilter<T(!new)>(s: seq<T>, p: T -> bool, q: T -> bool, pq: T -> bool)
    requires forall x :: pq(x) == (p(x) && q(x))
    ensures Filter(Filter(s, p), q) == Filter(s, pq)
  {
    if s != [] {
      FilterFilter(s[1..], p, q, pq);
    }
  }

  /** Two predicates that agree on `s` filter it alike. */
  lemma {:induction false} FilterCongruent<T(!new)>(s: seq<T>, p: T -> bool, q: T -> bool)
    requires forall x :: x in s ==> p(x) == q(x)
    ensures Filter(s, p) == Filter(s, q)
  {
    if s != [] {
      FilterCongruent(s[1..], p, q);
    }
  }

  /** The number of elements of `s` that satisfy `p` (`count(*) ... where p`). */
  function Count<T(!new)>(s: seq<T>, p: T -> bool): nat
  {
    |Filter(s, p)|
  }

  lemma {:induction false} CountPositive<T(!new)>(s: seq<T>, p: T -> bool)
    ensures Count(s, p) > 0 <==> exists x :: x in s && p(x)
  {
    if Count(s, p) > 0 {
      assert Filter(s, p)[0] in Filter(s, p);
    }
  }

  /** No two elements of `s` share a key: a unique constraint on a table. */
  predicate KeysUnique<T, K(==)>(s: seq<T>, key: T -> K)
  {
    forall i, j :: 0 <= i < j < |s| ==> key(s[i]) != key(s[j])
  }

  lemma KeysUniqueSub<T, K>(s: seq<T>, key: T -> K)
    requires |s| > 0 && KeysUnique(s, key)
    ensures KeysUnique(s[1..], key)
    ensures forall x :: x in s[1..] ==> key(x) != key(s[0])
  {
    forall x | x in s[1..] ensures key(x) != key(s[0]) {
      var j :| 0 <= j < |s[1..]| && s[1..][j] == x;
      assert s[j + 1] == x;
    }
  }

  /** Under a unique key, at most one element has any given key. */
  lemma {:induction false} AtMostOneWithKey<T(!new), K>(s: seq<T>, key: T -> K, k: K, p: T -> bool)
    requires KeysUnique(s, key)
    requires forall x :: p(x) == (key(x) == k)
    ensures |Filter(s, p)| <= 1
  {
    if s != [] {
      KeysUniqueSub(s, key);
      AtMostOneWithKey(s[1..], key, k, p);
      if p(s[0]) {
        FilterNone(s[1..], p);
      }
    }
  }

  /** A filtered table keeps its unique keys. */
  lemma {:induction false} KeysUniqueFilter<T(!new), K>(s: seq<T>, key: T -> K, p: T -> bool)
    requires KeysUnique(s, key)
    ensures KeysUnique(Filter(s, p), key)
  {
    if s != [] {
      KeysUniqueSub(s, key);
      KeysUniqueFilter(s[1..], key, p);
      var rest := Filter(s[1..], p);
      if p(s[0]) {
        var r := [s[0]] + rest;
        forall i, j | 0 <= i < j < |r| ensures key(r[i]) != key(r[j]) {
          if i == 0 {
            assert r[j] in s[1..];
          } else {
            assert r[i] == rest[i - 1] && r[j] == rest[j - 1];
          }
        }
      }
    }
  }

  // ---------------------------------------------------------------------------
  // map
  // ---------------------------------------------------------------------------

  /** `stream().map(f)` */
  function Map<T, U>(s: seq<T>, f: T -> U): (r: seq<U>)
    ensures |r| == |s|
    ensures forall i :: 0 <= i < |s| ==> r[i] == f(s[i])
  {
    seq(|s|, i requires 0 <= i < |s| => f(s[i]))
  }

  /** `stream().filter(Optional::isPresent).map(Optional::get)` */
  function Somes<T(!new)>(s: seq<Option<T>>): (r: seq<T>)
    ensures |r| <= |s|
    ensures forall x :: x in r <==> Some(x) in s
  {
    if s == [] then []
    else match s[0]
      case Some(v) => [v] + Somes(s[1..])
      case None => Somes(s[1..])
  }

  lemma {:induction false} SomesConcat<T(!new)>(s: seq<Option<T>>, t: seq<Option<T>>)
    ensures Somes(s + t) == Somes(s) + Somes(t)
  {
    if s == [] {
      assert s + t == t;
    } else {
      assert (s + t)[0] == s[0];
      assert (s + t)[1..] == s[1..] + t;
      SomesConcat(s[1..], t);
    }
  }

  lemma MapConcat<T, U>(s: seq<T>, t: seq<T>, f: T -> U)
    ensures Map(s + t, f) == Map(s, f) + Map(t, f)
  {
    assert forall i :: 0 <= i < |s| ==> (s + t)[i] == s[i];
    assert forall i :: |s| <= i < |s| + |t| ==> (s + t)[i] == t[i - |s|];
  }

  /** Whether looking `k` up finds an element that `keep` accepts. */
  function Kept<K, V>(look: K -> Option<V>, keep: V -> bool): K -> bool
  {
    k => look(k).Some? && keep(look(k).value)
  }

  /** `keys.stream().map(look).filter(Optional::isPresent).map(Optional::get).filter(keep)`:
      the elements found for the keys, in key order, without the keys that
      find nothing or find an element `keep` refuses. */
  function LookUpAll<K, V(!new)>(keys: seq<K>, look: K -> Option<V>, keep: V -> bool): seq<V>
  {
    Filter(Somes(Map(keys, look)), keep)
  }

  lemma LookUpOneKey<K(!new), V(!new)>(k: K, look: K -> Option<V>, keep: V -> bool, keyOf: V -> K)
    requires look(k).Some? ==> keyOf(look(k).value) == k
    ensures Map(LookUpAll([k], look, keep), keyOf) == Filter([k], Kept(look, keep))
  {
    assert Map([k], look) == [look(k)];
    assert [look(k)][1..] == [];
    if look(k).Some? {
      assert Somes([look(k)]) == [look(k).value];
      assert Filter([look(k).value], keep) == if keep(look(k).value) then [look(k).value] else [];
    } else {
      assert Somes([look(k)]) == [];
    }
    assert Filter([k], Kept(look, keep)) == if Kept(look, keep)(k) then [k] else [];
  }

  /** When every element found carries the key it was found under, the
      pipeline's keys are exactly the kept keys, in their original order. */
  lemma {:induction false} LookUpAllKeys<K(!new), V(!new)>(keys: seq<K>, look: K -> Option<V>, keep: V -> bool, keyOf: V -> K)
    requires forall k :: look(k).Some? ==> keyOf(look(k).value) == k
    ensures Map(LookUpAll(keys, look, keep), keyOf) == Filter(keys, Kept(look, keep))
  {
    if keys != [] {
      var k := keys[0];
      var rest := keys[1..];
      assert keys == [k] + rest;
      MapConcat([k], rest, look);
      SomesConcat(Map([k], look), Map(rest, look));
      FilterConcat(Somes(Map([k], look)), Somes(Map(rest, look)), keep);
      assert LookUpAll(keys, look, keep) == LookUpAll([k], look, keep) + LookUpAll(rest, look, keep);
      MapConcat(LookUpAll([k], look, keep), LookUpAll(rest, look, keep), keyOf);
      LookUpOneKey(k, look, keep, keyOf);
      LookUpAllKeys(rest, look, keep, keyOf);
      FilterConcat([k], rest, Kept(look, keep));
    }
  }

  /** The first index at which `p` holds. */
  function FindFirst<T>(s: seq<T>, p: T -> bool): (r: Option<nat>)
    ensures r.Some? ==> r.value < |s| && p(s[r.value])
    ensures r.Some? ==> forall j :: 0 <= j < r.value ==> !p(s[j])
    ensures r.None? <==> forall j :: 0 <= j < |s| ==> !p(s[j])
  {
    if s == [] then None
    else if p(s[0]) then Some(0)
    else match FindFirst(s[1..], p)
      case None => None
      case Some(k) => Some(k + 1)
  }

  /** The first element that satisfies `p` (`findBy...` returning `Optional`). */
  function First<T>(s: seq<T>, p: T -> bool): (r: Option<T>)
    ensures r.Some? ==> r.value in s && p(r.value)
    ensures r.None? <==> forall j :: 0 <= j < |s| ==> !p(s[j])
  {
    match FindFirst(s, p)
    case None => None
    case Some(k) => Some(s[k])
  }

  /** Under a unique key, the element found by key is the only one with it. */
  lemma FirstUnique<T, K>(s: seq<T>, key: T -> K, k: K, p: T -> bool, x: T)
    requires KeysUnique(s, key)
    requires forall y :: p(y) == (key(y) == k)
    requires x in s && p(x)
    ensures First(s, p) == Some(x)
  {
    var i := FindFirst(s, p).value;
    var j :| 0 <= j < |s| && s[j] == x;
    if i < j {
      assert key(s[i]) == key(s[j]);
    } else if j < i {
      assert !p(s[j]);
    }
  }

  // ---------------------------------------------------------------------------
  // duplicates
  // ---------------------------------------------------------------------------

  /** No element occurs twice in `s`. */
  predicate NoDuplicates<T(==)>(s: seq<T>)
  {
    forall i, j :: 0 <= i < j < |s| ==> s[i] != s[j]
  }

  /** A table with a unique key holds no row twice. */
  lemma KeysUniqueNoDuplicates<T, K>(s: seq<T>, key: T -> K)
    requires KeysUnique(s, key)
    ensures NoDuplicates(s)
  {
  }

  /** An element at two positions is counted twice. */
  lemma TwiceCounted<T>(s: seq<T>, i: nat, j: nat)
    requires i < j < |s| && s[i] == s[j]
    ensures multiset(s)[s[i]] >= 2
  {
    assert s == s[..j] + [s[j]] + s[j + 1..];
    assert s[i] == s[..j][i];
    assert s[i] in multiset(s[..j]);
  }

  /** Without duplicates, every element is counted at most once. */
  lemma {:induction false} NoDuplicatesCountedOnce<T>(s: seq<T>)
    requires NoDuplicates(s)
    ensures forall x :: multiset(s)[x] <= 1
  {
    if s != [] {
      var front := s[..|s| - 1];
      assert NoDuplicates(front) by {
        forall i, j | 0 <= i < j < |front| ensures front[i] != front[j] {
          assert front[i] == s[i] && front[j] == s[j];
        }
      }
      NoDuplicatesCountedOnce(front);
      assert s == front + [s[|s| - 1]];
      assert s[|s| - 1] !in front;
    }
  }

  /** A permutation has the same elements. */
  lemma PermutationSameElements<T>(s: seq<T>, r: seq<T>)
    requires multiset(r) == multiset(s)
    ensures forall x :: x in r <==> x in s
  {
    assert forall x :: x in r <==> x in multiset(r);
    assert forall x :: x in s <==> x in multiset(s);
  }

  /** A permutation of a sequence without duplicates has none either. */
  lemma PermutationNoDuplicates<T>(s: seq<T>, r: seq<T>)
    requires multiset(r) == multiset(s) && NoDuplicates(s)
    ensures NoDuplicates(r)
  {
    NoDuplicatesCountedOnce(s);
    forall i, j | 0 <= i < j < |r| ensures r[i] != r[j] {
      if r[i] == r[j] {
        TwiceCounted(r, i, j);
      }
    }
  }

  // ---------------------------------------------------------------------------
  // order by / paging
  // ---------------------------------------------------------------------------

  /** `s` is ordered by `key`, smallest first. */
  predicate SortedBy<T>(s: seq<T>, key: T -> int)
  {
    forall i, j :: 0 <= i < j < |s| ==> key(s[i]) <= key(s[j])
  }

  /** `s` is ordered by `key`, largest first (`order by key desc`). */
  predicate SortedDescBy<T>(s: seq<T>, key: T -> int)
  {
    forall i, j :: 0 <= i < j < |s| ==> key(s[i]) >= key(s[j])
  }

  function InsertSorted<T>(x: T, s: seq<T>, key: T -> int): (r: seq<T>)
    requires SortedBy(s, key)
    ensures SortedBy(r, key)
    ensures multiset(r) == multiset(s) + multiset{x}
    ensures |r| == |s| + 1
    ensures forall j :: 0 <= j < |r| ==> r[j] == x || r[j] in s
  {
    if s == [] then [x]
    else if key(x) <= key(s[0]) then [x] + s
    else
      var rest := InsertSorted(x, s[1..], key);
      assert s == [s[0]] + s[1..];
      LowerBoundOfInsert(x, s, key, rest);
      [s[0]] + rest
  }

  lemma LowerBoundOfInsert<T>(x: T, s: seq<T>, key: T -> int, rest: seq<T>)
    requires |s| > 0 && SortedBy(s, key) && key(s[0]) < key(x)
    requires forall j :: 0 <= j < |rest| ==> rest[j] == x || rest[j] in s[1..]
    ensures forall j :: 0 <= j < |rest| ==> key(s[0]) <= key(rest[j])
  {
    forall j | 0 <= j < |rest| ensures key(s[0]) <= key(rest[j]) {
      if rest[j] != x {
        var k :| 0 <= k < |s[1..]| && s[1..][k] == rest[j];
        assert s[k + 1] == rest[j];
      }
    }
  }

  /** Insertion sort by `key`, smallest first; among equal keys the original
      order is kept. */
  function SortBy<T>(s: seq<T>, key: T -> int): (r: seq<T>)
    ensures SortedBy(r, key)
    ensures multiset(r) == multiset(s)
  {
    if s == [] then []
    else
      assert s == [s[0]] + s[1..];
      InsertSorted(s[0], SortBy(s[1..], key), key)
  }

  /** `order by key desc`: a permutation of `s`, largest key first. */
  function SortDescBy<T(!new)>(s: seq<T>, key: T -> int): (r: seq<T>)
    ensures SortedDescBy(r, key)
    ensures multiset(r) == multiset(s)
    ensures |r| == |s|
    ensures forall x :: x in r <==> x in s
  {
    var neg := (x: T) => 0 - key(x);
    var r := SortBy(s, neg);
    assert forall i, j :: 0 <= i < j < |r| ==> neg(r[i]) <= neg(r[j]);
    assert |r| == |multiset(r)| == |multiset(s)| == |s|;
    assert forall x :: x in r <==> x in multiset(r);
    r
  }

  function Min(a: int, b: int): int { if a <= b then a else b }

  /** A page request: which window of an ordered result to return. */
  datatype Pageable = PageRequest(page: nat, size: nat)

  /** `PageRequest.of(page, size)`: a negative page or a size below 1 is an
      `IllegalArgumentException`. */
  function PageRequestOf(page: int, size: int): (r: Result<Pageable>)
    ensures r.Ok? <==> page >= 0 && size >= 1
    ensures r.Ok? ==> r.value.page == page && r.value.size == size
    ensures r.Err? ==> r.error == UncheckedException
  {
    if page < 0 || size < 1 then Err(UncheckedException) else Ok(PageRequest(page, size))
  }

  /** `PageRequest.of(page, size)` applied to an ordered result: the `page`-th
      window of `size` elements. */
  function Page<T>(s: seq<T>, page: nat, size: nat): (r: seq<T>)
    ensures |r| <= size
    ensures page * size >= |s| ==> r == []
    ensures page == 0 ==> r == s[..Min(size, |s|)]
    ensures forall x :: x in r ==> x in s
  {
    var lo := Min(page * size, |s|);
    var hi := Min(page * size + size, |s|);
    s[lo..hi]
  }

  /** The window of a result that is in `order by key desc` order is in that order too. */
  lemma PageKeepsOrder<T>(s: seq<T>, page: nat, size: nat, key: T -> int)
    requires SortedDescBy(s, key)
    ensures SortedDescBy(Page(s, page, size), key)
  {
    var lo := Min(page * size, |s|);
    var hi := Min(page * size + size, |s|);
    forall i, j | 0 <= i < j < hi - lo ensures key(s[lo..hi][i]) >= key(s[lo..hi][j]) {
      assert s[lo..hi][i] == s[lo + i] && s[lo..hi][j] == s[lo + j];
    }
  }

  /** A query with `order by key desc` and a `Pageable`: one window of the
      results, newest first. A first page that can hold every result holds all
      of them; a first page that cannot is full. */
  function NewestFirstPage<T(!new)>(s: seq<T>, p: Pageable, key: T -> int): (r: seq<T>)
    ensures |r| <= p.size
    ensures forall x :: x in r ==> x in s
    ensures SortedDescBy(r, key)
    ensures p.page == 0 && |s| <= p.size ==> multiset(r) == multiset(s)
    ensures p.page == 0 && |s| > p.size ==> |r| == p.size
  {
    var all := SortDescBy(s, key);
    PageKeepsOrder(all, p.page, p.size, key);
    assert p.page == 0 && |s| <= p.size ==> Page(all, p.page, p.size) == all;
    Page(all, p.page, p.size)
  }

  // ---------------------------------------------------------------------------
  // distinct
  // ---------------------------------------------------------------------------

  /** `stream().distinct()`: the first occurrence of each element, in order. */
  function Distinct<T(==,!new)>(s: seq<T>): (r: seq<T>)
    ensures forall x :: x in r <==> x in s
    ensures forall i, j :: 0 <= i < j < |r| ==> r[i] != r[j]
    decreases |s|
  {
    if s == [] then []
    else
      var last := s[|s| - 1];
      var front := Distinct(s[..|s| - 1]);
      assert forall x :: x in s <==> x in s[..|s| - 1] || x == last;
      if last in front then front else front + [last]
  }

  /** `count(distinct key)`: the number of different keys among the elements. */
  function DistinctCount<T, K(==,!new)>(s: seq<T>, key: T -> K): nat
  {
    |Distinct(Map(s, key))|
  }

  /** A sequence has no more distinct elements than elements, and none only when empty. */
  lemma {:induction false} DistinctLength<T(!new)>(s: seq<T>)
    ensures |Distinct(s)| <= |s|
    ensures |s| > 0 ==> |Distinct(s)| > 0
    ensures (forall i, j :: 0 <= i < j < |s| ==> s[i] != s[j]) ==> Distinct(s) == s
    decreases |s|
  {
    if s != [] {
      var front := s[..|s| - 1];
      DistinctLength(front);
      assert s[|s| - 1] in Distinct(s);
      if forall i, j :: 0 <= i < j < |s| ==> s[i] != s[j] {
        assert forall i, j :: 0 <= i < j < |front| ==> front[i] != front[j] by {
          forall i, j | 0 <= i < j < |front| ensures front[i] != front[j] {
            assert front[i] == s[i] && front[j] == s[j];
          }
        }
        assert s[|s| - 1] !in front;
        assert s == front + [s[|s| - 1]];
      }
    }
  }

  /** There are never more distinct keys than elements. */
  lemma DistinctCountBound<T, K(!new)>(s: seq<T>, key: T -> K)
    ensures DistinctCount(s, key) <= |s|
    ensures |s| > 0 ==> DistinctCount(s, key) > 0
  {
    DistinctLength(Map(s, key));
  }

  /** Under a unique key, every element contributes its own key. */
  lemma DistinctCountOfUnique<T, K(!new)>(s: seq<T>, key: T -> K)
    requires KeysUnique(s, key)
    ensures DistinctCount(s, key) == |s|
  {
    DistinctLength(Map(s, key));
  }
}
