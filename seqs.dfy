/**
 * Sequence operations that the pages perform with JavaScript's array methods:
 * `reduce` into a sum, `filter`, `find`, the stable `sort` by a numeric key, and
 * de-duplication through `[...new Set(xs)]`.
 */
module Seqs {
  import opened Wrappers

  /** `xs.reduce((sum, x) => sum + f(x), 0)`, folding from the left. */
  function SumOf<T>(s: seq<T>, f: T -> int): int
  {
    if s == [] then 0 else SumOf(s[..|s| - 1], f) + f(s[|s| - 1])
  }

  /** A sum only grows when each summand does. */
  lemma {:induction false} SumOfMonotonic<T>(s: seq<T>, f: T -> int, g: T -> int)
    requires forall x :: x in s ==> f(x) <= g(x)
    ensures SumOf(s, f) <= SumOf(s, g)
  {
    if s != [] {
      SumOfMonotonic(s[..|s| - 1], f, g);
    }
  }

  /** Summing non-negative terms gives a non-negative total. */
  lemma {:induction false} SumOfNonNegative<T>(s: seq<T>, f: T -> int)
    requires forall x :: x in s ==> 0 <= f(x)
    ensures 0 <= SumOf(s, f)
  {
    if s != [] {
      SumOfNonNegative(s[..|s| - 1], f);
    }
  }

  /** The sum of a concatenation is the sum of its parts. */
  lemma {:induction false} SumOfAppend<T>(a: seq<T>, b: seq<T>, f: T -> int)
    ensures SumOf(a + b, f) == SumOf(a, f) + SumOf(b, f)
  {
    if b != [] {
      assert (a + b)[..|a + b| - 1] == a + b[..|b| - 1];
      SumOfAppend(a, b[..|b| - 1], f);
    } else {
      assert a + b == a;
    }
  }

  /** Two functions that agree on every element give the same sum. */
  lemma {:induction false} SumOfCongruent<T>(s: seq<T>, f: T -> int, g: T -> int)
    requires forall x :: x in s ==> f(x) == g(x)
    ensures SumOf(s, f) == SumOf(s, g)
  {
    if s != [] {
      SumOfCongruent(s[..|s| - 1], f, g);
    }
  }

  /** Reordering the terms does not change a sum. */
  lemma {:induction false} SumOfPermutation<T>(a: seq<T>, b: seq<T>, f: T -> int)
    requires multiset(a) == multiset(b)
    ensures SumOf(a, f) == SumOf(b, f)
  {
    if a == [] {
      assert |b| == |multiset(b)| == 0;
    } else {
      var x := a[|a| - 1];
      var init := a[..|a| - 1];
      assert a == init + [x];
      assert multiset(a) == multiset(init) + multiset{x};
      assert x in multiset(b);
      var j :| 0 <= j < |b| && b[j] == x;
      MultisetWithout(b, j);
      SumOfPermutation(init, b[..j] + b[j + 1..], f);
      SumOfWithout(b, j, f);
    }
  }

  /** Taking out the element at `j` takes one copy of it out of the multiset. */
  lemma {:induction false} MultisetWithout<T>(b: seq<T>, j: nat)
    requires j < |b|
    ensures multiset(b[..j] + b[j + 1..]) == multiset(b) - multiset{b[j]}
  {
    SplitAt(b, j);
  }

  /** Taking out the element at `j` takes its term out of the sum. */
  lemma {:induction false} SumOfWithout<T>(b: seq<T>, j: nat, f: T -> int)
    requires j < |b|
    ensures SumOf(b, f) == SumOf(b[..j] + b[j + 1..], f) + f(b[j])
  {
    SplitAt(b, j);
    SumOfMiddle(b[..j], b[j], b[j + 1..], f);
  }

  /** A sequence is its part before `j`, its element at `j` and its part after `j`. */
  lemma {:induction false} SplitAt<T>(b: seq<T>, j: nat)
    requires j < |b|
    ensures b == b[..j] + [b[j]] + b[j + 1..]
  {
  }

  /** An element in the middle adds its own term to the sum of the rest. */
  lemma {:induction false} SumOfMiddle<T>(left: seq<T>, x: T, right: seq<T>, f: T -> int)
    ensures SumOf(left + [x] + right, f) == SumOf(left + right, f) + f(x)
  {
    SumOfAppend(left + [x], right, f);
    SumOfAppend(left, right, f);
    assert (left + [x])[..|left|] == left;
  }

  /** `xs.map(f)`. */
  function Map<T, U>(s: seq<T>, f: T -> U): (r: seq<U>)
    ensures |r| == |s| && forall i :: 0 <= i < |s| ==> r[i] == f(s[i])
  {
    seq(|s|, i requires 0 <= i < |s| => f(s[i]))
  }

  /** Summing `g` over the images of `f` is summing `g` after `f`. */
  lemma {:induction false} SumOfMap<T, U>(s: seq<T>, f: T -> U, g: U -> int, h: T -> int)
    requires forall x :: h(x) == g(f(x))
    ensures SumOf(Map(s, f), g) == SumOf(s, h)
  {
    if s != [] {
      assert Map(s, f)[..|s| - 1] == Map(s[..|s| - 1], f);
      SumOfMap(s[..|s| - 1], f, g, h);
    }
  }

  /** `xs.filter(p)`: the elements satisfying `p`, in their original order. */
  function Filter<T(!new)>(s: seq<T>, p: T -> bool): (r: seq<T>)
    ensures |r| <= |s|
    ensures forall x :: x in r <==> x in s && p(x)
  {
    if s == [] then [] else (if p(s[0]) then [s[0]] else []) + Filter(s[1..], p)
  }

  /** Nothing matches, so nothing is kept. */
  lemma {:induction false} NoMatchFilter<T(!new)>(rows: seq<T>, p: T -> bool)
    requires forall j :: 0 <= j < |rows| ==> !p(rows[j])
    ensures Filter(rows, p) == []
  {
    if rows != [] {
      NoMatchFilter(rows[1..], p);
    }
  }

  /** `xs.filter(p).length`. */
  function Count<T(!new)>(s: seq<T>, p: T -> bool): nat
  {
    |Filter(s, p)|
  }

  /** Filtering by a predicate and by its negation splits a sequence into two parts. */
  lemma {:induction false} CountSplit<T(!new)>(s: seq<T>, p: T -> bool, q: T -> bool)
    requires forall x :: q(x) <==> !p(x)
    ensures Count(s, p) + Count(s, q) == |s|
  {
    if s != [] {
      CountSplit(s[1..], p, q);
    }
  }

  /** A filter whose predicate implies another keeps no more elements than the other. */
  lemma {:induction false} CountMonotonic<T(!new)>(s: seq<T>, p: T -> bool, q: T -> bool)
    requires forall x :: x in s && p(x) ==> q(x)
    ensures Count(s, p) <= Count(s, q)
  {
    if s != [] {
      CountMonotonic(s[1..], p, q);
    }
  }

  /** Filtering a concatenation filters each part. */
  lemma {:induction false} FilterAppend<T(!new)>(a: seq<T>, b: seq<T>, p: T -> bool)
    ensures Filter(a + b, p) == Filter(a, p) + Filter(b, p)
  {
    if a == [] {
      assert a + b == b;
    } else {
      assert (a + b)[1..] == a[1..] + b;
      FilterAppend(a[1..], b, p);
    }
  }

  /** Filtering one more element at the end keeps it exactly when it satisfies `p`. */
  lemma {:induction false} FilterSnoc<T(!new)>(s: seq<T>, x: T, p: T -> bool)
    ensures Filter(s + [x], p) == Filter(s, p) + (if p(x) then [x] else [])
    ensures Count(s + [x], p) == Count(s, p) + (if p(x) then 1 else 0)
  {
    FilterAppend(s, [x], p);
    assert [x][1..] == [];
  }

  /** Predicates that agree on every element filter alike. */
  lemma {:induction false} FilterCongruent<T(!new)>(s: seq<T>, p: T -> bool, q: T -> bool)
    requires forall x :: x in s ==> p(x) == q(x)
    ensures Filter(s, p) == Filter(s, q)
  {
    if s != [] {
      assert forall x :: x in s[1..] ==> x in s;
      FilterCongruent(s[1..], p, q);
    }
  }

  /** Narrowing a sequence to a superset of the matches first does not change what `find` returns. */
  lemma {:induction false} FindInFiltered<T(!new)>(s: seq<T>, q: T -> bool, p: T -> bool)
    requires forall x :: p(x) ==> q(x)
    ensures Find(Filter(s, q), p) == Find(s, p)
  {
    if s != [] {
      FindInFiltered(s[1..], q, p);
      var head := if q(s[0]) then [s[0]] else [];
      assert Filter(s, q) == head + Filter(s[1..], q);
      if p(s[0]) {
        assert FindIndex(Filter(s, q), p) == Some(0);
      } else {
        FindIndexShift(head, Filter(s[1..], q), p);
        FindIndexShift([s[0]], s[1..], p);
        assert [s[0]] + s[1..] == s;
      }
    }
  }

  /** A prefix without matches only shifts where the first match is found. */
  lemma {:induction false} FindIndexShift<T>(a: seq<T>, b: seq<T>, p: T -> bool)
    requires forall i :: 0 <= i < |a| ==> !p(a[i])
    ensures Find(a + b, p) == Find(b, p)
  {
    if a != [] {
      assert (a + b)[1..] == a[1..] + b;
      FindIndexShift(a[1..], b, p);
    } else {
      assert a + b == b;
    }
  }

  /** Filtering keeps each element that satisfies `p` as often as it occurs, and no other. */
  lemma {:induction false} FilterMultiplicity<T(!new)>(s: seq<T>, p: T -> bool, x: T)
    ensures multiset(Filter(s, p))[x] == if p(x) then multiset(s)[x] else 0
  {
    if s != [] {
      FilterMultiplicity(s[1..], p, x);
      assert s == [s[0]] + s[1..];
    }
  }

  /** Filtering two permutations of each other gives permutations of each other. */
  lemma {:induction false} FilterPermutation<T(!new)>(a: seq<T>, b: seq<T>, p: T -> bool)
    requires multiset(a) == multiset(b)
    ensures multiset(Filter(a, p)) == multiset(Filter(b, p))
  {
    forall x ensures multiset(Filter(a, p))[x] == multiset(Filter(b, p))[x] {
      FilterMultiplicity(a, p, x);
      FilterMultiplicity(b, p, x);
    }
  }

  /** Filtering by `p` and by its negation splits a sequence into two parts that together are a permutation of it. */
  lemma {:induction false} FilterSplitMultiset<T(!new)>(s: seq<T>, p: T -> bool, q: T -> bool)
    requires forall x :: q(x) <==> !p(x)
    ensures multiset(Filter(s, p)) + multiset(Filter(s, q)) == multiset(s)
  {
    forall x ensures (multiset(Filter(s, p)) + multiset(Filter(s, q)))[x] == multiset(s)[x] {
      FilterMultiplicity(s, p, x);
      FilterMultiplicity(s, q, x);
    }
  }

  /** Filtering first by a weaker predicate changes nothing. */
  lemma {:induction false} FilterOfFilter<T(!new)>(s: seq<T>, q: T -> bool, p: T -> bool)
    requires forall x :: p(x) ==> q(x)
    ensures Filter(Filter(s, q), p) == Filter(s, p)
  {
    if s != [] {
      FilterOfFilter(s[1..], q, p);
      var head := if q(s[0]) then [s[0]] else [];
      FilterAppend(head, Filter(s[1..], q), p);
      if q(s[0]) {
        assert head[1..] == [];
      }
    }
  }

  /** Every earlier element stands in relation `before` to every later one. */
  predicate Pairwise<T>(s: seq<T>, before: (T, T) -> bool)
  {
    forall i, j :: 0 <= i < j < |s| ==> before(s[i], s[j])
  }

  /** Filtering keeps the relative order of the elements it keeps. */
  lemma {:induction false} FilterKeepsPairwise<T(!new)>(s: seq<T>, p: T -> bool, before: (T, T) -> bool)
    requires Pairwise(s, before)
    ensures Pairwise(Filter(s, p), before)
  {
    if s != [] {
      FilterKeepsPairwise(s[1..], p, before);
      var rest := Filter(s[1..], p);
      assert forall k :: 0 <= k < |rest| ==> before(s[0], rest[k]) by {
        forall k | 0 <= k < |rest| ensures before(s[0], rest[k]) {
          assert rest[k] in rest;
          var j :| 0 <= j < |s[1..]| && s[1..][j] == rest[k];
          assert s[j + 1] == rest[k];
        }
      }
    }
  }

  /** Two sequences whose elements agree on `p` position by position have the same count. */
  lemma {:induction false} CountPointwise<T(!new)>(a: seq<T>, b: seq<T>, p: T -> bool)
    requires |a| == |b| && forall i :: 0 <= i < |a| ==> p(a[i]) == p(b[i])
    ensures Count(a, p) == Count(b, p)
  {
    if a != [] {
      CountPointwise(a[1..], b[1..], p);
    }
  }

  /** An element that satisfies `p` makes the count positive. */
  lemma {:induction false} CountPositive<T(!new)>(s: seq<T>, p: T -> bool, i: nat)
    requires i < |s| && p(s[i])
    ensures Count(s, p) >= 1
  {
    assert s[i] in Filter(s, p);
  }

  /** Changing one element from failing to passing `p`, and no other verdict, adds one to the count. */
  lemma {:induction false} CountOneChange<T(!new)>(a: seq<T>, b: seq<T>, k: nat, p: T -> bool)
    requires |a| == |b| && k < |a| && !p(a[k]) && p(b[k])
    requires forall i :: 0 <= i < |a| && i != k ==> p(a[i]) == p(b[i])
    ensures Count(b, p) == Count(a, p) + 1
  {
    if k == 0 {
      CountPointwise(a[1..], b[1..], p);
    } else {
      CountOneChange(a[1..], b[1..], k - 1, p);
    }
  }

  /** Filtering keeps a sorted sequence sorted. */
  lemma {:induction false} FilterKeepsSorted<T(!new)>(s: seq<T>, p: T -> bool, key: T -> int)
    requires SortedBy(s, key)
    ensures SortedBy(Filter(s, p), key)
  {
    if s != [] {
      FilterKeepsSorted(s[1..], p, key);
      var rest := Filter(s[1..], p);
      assert forall k :: 0 <= k < |rest| ==> key(s[0]) <= key(rest[k]) by {
        forall k | 0 <= k < |rest| ensures key(s[0]) <= key(rest[k]) {
          assert rest[k] in rest;
          var j :| 0 <= j < |s[1..]| && s[1..][j] == rest[k];
          assert s[j + 1] == rest[k];
        }
      }
    }
  }

  /** `xs.find(p)`, returning the position of the first match. */
  function FindIndex<T>(s: seq<T>, p: T -> bool): (r: Option<nat>)
    ensures r.Some? ==> r.value < |s| && p(s[r.value]) && forall j :: 0 <= j < r.value ==> !p(s[j])
    ensures r.None? ==> forall j :: 0 <= j < |s| ==> !p(s[j])
  {
    if s == [] then None
    else if p(s[0]) then Some(0)
    else match FindIndex(s[1..], p)
      case None => None
      case Some(i) => Some(i + 1)
  }

  /** Two sequences on which `p` holds at the same positions have their first match at the same position. */
  lemma {:induction false} FindIndexPointwise<T>(a: seq<T>, b: seq<T>, p: T -> bool)
    requires |a| == |b| && forall i :: 0 <= i < |a| ==> p(a[i]) == p(b[i])
    ensures FindIndex(a, p) == FindIndex(b, p)
  {
    if a != [] && !p(a[0]) {
      FindIndexPointwise(a[1..], b[1..], p);
    }
  }

  /** `xs.find(p)`, returning the element. */
  function Find<T>(s: seq<T>, p: T -> bool): (r: Option<T>)
    ensures r.Some? ==> r.value in s && p(r.value)
    ensures r.None? ==> forall x :: x in s ==> !p(x)
  {
    match FindIndex(s, p)
    case None => None
    case Some(i) => Some(s[i])
  }

  /** Sorted in non-decreasing order of `key`. */
  predicate SortedBy<T>(s: seq<T>, key: T -> int)
  {
    forall i, j :: 0 <= i < j < |s| ==> key(s[i]) <= key(s[j])
  }

  /** Inserts `x` after every element whose key is not greater than its own. */
  function InsertByKey<T(!new)>(x: T, s: seq<T>, key: T -> int): (r: seq<T>)
    requires SortedBy(s, key)
    ensures |r| == |s| + 1
    ensures SortedBy(r, key)
    ensures multiset(r) == multiset(s) + multiset{x}
  {
    if s == [] then [x]
    else if key(x) < key(s[0]) then [x] + s
    else
      var rest := InsertByKey(x, s[1..], key);
      assert s == [s[0]] + s[1..];
      InsertedAboveHead(s, x, rest, key);
      [s[0]] + rest
  }

  /** Inserting an element no smaller than a sorted sequence's head into its tail keeps the head first. */
  lemma {:induction false} InsertedAboveHead<T>(s: seq<T>, x: T, rest: seq<T>, key: T -> int)
    requires s != [] && SortedBy(s, key) && key(s[0]) <= key(x)
    requires SortedBy(rest, key) && multiset(rest) == multiset(s[1..]) + multiset{x}
    ensures SortedBy([s[0]] + rest, key)
  {
    forall k | 0 <= k < |rest| ensures key(s[0]) <= key(rest[k]) {
      assert rest[k] in multiset(rest);
      assert rest[k] in s[1..] || rest[k] == x;
    }
    var r := [s[0]] + rest;
    forall i, j | 0 <= i < j < |r| ensures key(r[i]) <= key(r[j]) {
      assert r[j] == rest[j - 1];
      if i > 0 {
        assert r[i] == rest[i - 1];
      }
    }
  }

  /**
   * A stable sort by a numeric key (stability is `SortByKeyStable`): JavaScript's
   * `Array.prototype.sort` with the comparator `(a, b) => key(a) - key(b)`, and the
   * `order by` of a query on a numeric column.
   */
  function SortByKey<T(!new)>(s: seq<T>, key: T -> int): (r: seq<T>)
    ensures SortedBy(r, key)
    ensures multiset(r) == multiset(s)
    ensures |r| == |s|
  {
    if s == [] then []
    else
      assert s == s[..|s| - 1] + [s[|s| - 1]];
      InsertByKey(s[|s| - 1], SortByKey(s[..|s| - 1], key), key)
  }

  /** The elements whose key is `k`. */
  function KeyEquals<T>(key: T -> int, k: int): T -> bool { (x: T) => key(x) == k }

  /** Inserting `x` puts it after every element of equal key and moves no element past another. */
  lemma {:induction false} InsertByKeyStable<T(!new)>(x: T, s: seq<T>, key: T -> int, k: int)
    requires SortedBy(s, key)
    ensures Filter(InsertByKey(x, s, key), KeyEquals(key, k))
      == Filter(s, KeyEquals(key, k)) + (if key(x) == k then [x] else [])
  {
    var p := KeyEquals(key, k);
    if s == [] {
      FilterSnoc(s, x, p);
    } else if key(x) < key(s[0]) {
      InsertedBelowAll(x, s, key, k);
    } else {
      InsertedAfterHead(x, s, key);
      InsertByKeyStable(x, s[1..], key, k);
      FilterConsStep(InsertByKey(x, s[1..], key), s, p, if key(x) == k then [x] else []);
    }
  }

  /** An element with a key below all of a sorted sequence's keys goes in front, and still after every equal key. */
  lemma {:induction false} InsertedBelowAll<T(!new)>(x: T, s: seq<T>, key: T -> int, k: int)
    requires SortedBy(s, key) && s != [] && key(x) < key(s[0])
    ensures Filter([x] + s, KeyEquals(key, k)) == Filter(s, KeyEquals(key, k)) + (if key(x) == k then [x] else [])
  {
    var p := KeyEquals(key, k);
    FilterAppend([x], s, p);
    FilterSnoc([], x, p);
    assert [] + [x] == [x];
    if key(x) == k {
      forall j | 0 <= j < |s| ensures !p(s[j]) {
        assert key(s[0]) <= key(s[j]);
      }
      NoMatchFilter(s, p);
    }
  }

  /** Putting back the head of `s` in front of a sequence that filters like its tail, plus `extra`, filters like `s`, plus `extra`. */
  lemma {:induction false} FilterConsStep<T(!new)>(a: seq<T>, s: seq<T>, p: T -> bool, extra: seq<T>)
    requires s != [] && Filter(a, p) == Filter(s[1..], p) + extra
    ensures Filter([s[0]] + a, p) == Filter(s, p) + extra
  {
    var head := if p(s[0]) then [s[0]] else [];
    var c := [s[0]] + a;
    assert c[0] == s[0] && c[1..] == a;
    assert Filter(c, p) == head + Filter(a, p);
    assert Filter(s, p) == head + Filter(s[1..], p);
  }

  /** An element no smaller than the head is inserted into the tail. */
  lemma {:induction false} InsertedAfterHead<T(!new)>(x: T, s: seq<T>, key: T -> int)
    requires SortedBy(s, key) && s != [] && key(s[0]) <= key(x)
    ensures SortedBy(s[1..], key)
    ensures InsertByKey(x, s, key) == [s[0]] + InsertByKey(x, s[1..], key)
  {
    SortedTail(s, key);
  }

  /** The tail of a sorted sequence is sorted. */
  lemma {:induction false} SortedTail<T>(s: seq<T>, key: T -> int)
    requires s != [] && SortedBy(s, key)
    ensures SortedBy(s[1..], key)
  {
    forall i, j | 0 <= i < j < |s[1..]| ensures key(s[1..][i]) <= key(s[1..][j]) {
      assert s[1..][i] == s[i + 1] && s[1..][j] == s[j + 1];
    }
  }

  /** Sorting keeps the elements of each key in their original order. */
  lemma {:induction false} SortByKeyStable<T(!new)>(s: seq<T>, key: T -> int, k: int)
    ensures Filter(SortByKey(s, key), KeyEquals(key, k)) == Filter(s, KeyEquals(key, k))
  {
    if s != [] {
      var init := s[..|s| - 1];
      var x := s[|s| - 1];
      assert s == init + [x];
      SortByKeyLast(s, key, k);
      SortByKeyStable(init, key, k);
      FilterSnoc(init, x, KeyEquals(key, k));
    }
  }

  /** Sorting one more element at the end adds it after the sorted elements of its key. */
  lemma {:induction false} SortByKeyLast<T(!new)>(s: seq<T>, key: T -> int, k: int)
    requires s != []
    ensures Filter(SortByKey(s, key), KeyEquals(key, k))
      == Filter(SortByKey(s[..|s| - 1], key), KeyEquals(key, k)) + (if key(s[|s| - 1]) == k then [s[|s| - 1]] else [])
  {
    var sorted := SortByKey(s[..|s| - 1], key);
    InsertByKeyStable(s[|s| - 1], sorted, key, k);
  }

  /** `[...new Set(xs)]`: the distinct elements, each at the place of its first occurrence. */
  function Dedupe<T(==,!new)>(s: seq<T>): (r: seq<T>)
    ensures forall x :: x in r <==> x in s
    ensures forall i, j :: 0 <= i < j < |r| ==> r[i] != r[j]
    ensures |r| <= |s|
  {
    if s == [] then []
    else
      var d := Dedupe(s[..|s| - 1]);
      assert forall x :: x in s <==> x in s[..|s| - 1] || x == s[|s| - 1];
      if s[|s| - 1] in d then d else d + [s[|s| - 1]]
  }
}
