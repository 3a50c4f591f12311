/** Stable sorting by a comparator, the behaviour of Rust's `slice::sort_by`
    that the service reducers rely on, counting and search over sequences,
    and the string order Rust's `str` comparison uses. */
module Sorting {
  import opened Common


  /** `le(a, b)`: the comparator does not put `b` strictly before `a`. A
      comparator built from `Ordering` is total in this sense. */
  ghost predicate Total<T(!new)>(le: (T, T) -> bool) {
    forall a: T, b: T :: le(a, b) || le(b, a)
  }

  /** Every element may stand before its successor. */
  predicate Sorted<T>(xs: seq<T>, le: (T, T) -> bool) {
    forall i :: 0 < i < |xs| ==> le(xs[i - 1], xs[i])
  }

  /** Places `x` before the first element it may precede; equal elements
      keep `x` in front, which is what makes the sort stable. */
  function Insert<T>(x: T, xs: seq<T>, le: (T, T) -> bool): seq<T>
  {
    if xs == [] || le(x, xs[0]) then [x] + xs else [xs[0]] + Insert(x, xs[1..], le)
  }

  function InsertionSort<T>(xs: seq<T>, le: (T, T) -> bool): seq<T>
  {
    if xs == [] then [] else Insert(xs[0], InsertionSort(xs[1..], le), le)
  }

  lemma {:induction false} InsertPerm<T>(x: T, xs: seq<T>, le: (T, T) -> bool)
    ensures multiset(Insert(x, xs, le)) == multiset{x} + multiset(xs)
  {
    if xs != [] && !le(x, xs[0]) {
      InsertPerm(x, xs[1..], le);
      assert xs == [xs[0]] + xs[1..];
    }
  }

  lemma {:induction false} InsertSorted<T(!new)>(x: T, xs: seq<T>, le: (T, T) -> bool)
    requires Total(le) && Sorted(xs, le)
    ensures Sorted(Insert(x, xs, le), le)
    ensures |Insert(x, xs, le)| == |xs| + 1
    ensures Insert(x, xs, le)[0] == x || Insert(x, xs, le)[0] == xs[0]
  {
    if xs != [] && !le(x, xs[0]) {
      var tail := xs[1..];
      assert Sorted(tail, le);
      InsertSorted(x, tail, le);
      var r := Insert(x, tail, le);
      assert le(xs[0], x);
      assert tail != [] ==> le(xs[0], tail[0]);
      assert [xs[0]] + r == Insert(x, xs, le);
    }
  }

  lemma {:induction false} InsertionSortPerm<T>(xs: seq<T>, le: (T, T) -> bool)
    ensures multiset(InsertionSort(xs, le)) == multiset(xs)
  {
    if xs != [] {
      InsertionSortPerm(xs[1..], le);
      InsertPerm(xs[0], InsertionSort(xs[1..], le), le);
      assert xs == [xs[0]] + xs[1..];
    }
  }

  lemma {:induction false} InsertionSortSorted<T(!new)>(xs: seq<T>, le: (T, T) -> bool)
    requires Total(le)
    ensures Sorted(InsertionSort(xs, le), le)
  {
    if xs != [] {
      InsertionSortSorted(xs[1..], le);
      InsertSorted(xs[0], InsertionSort(xs[1..], le), le);
    }
  }

  /** `sort_by`: a permutation of the input in which, for a total
      comparator, every element may stand before its successor. */
  function SortBy<T(!new)>(xs: seq<T>, le: (T, T) -> bool): (r: seq<T>)
    ensures multiset(r) == multiset(xs)
    ensures |r| == |xs|
    ensures Total(le) ==> Sorted(r, le)
  {
    InsertionSortPerm(xs, le);
    assert |InsertionSort(xs, le)| == |multiset(InsertionSort(xs, le))|;
    SortedWhenTotal(xs, le);
    InsertionSort(xs, le)
  }

  lemma SortedWhenTotal<T(!new)>(xs: seq<T>, le: (T, T) -> bool)
    ensures Total(le) ==> Sorted(InsertionSort(xs, le), le)
  {
    if Total(le) {
      InsertionSortSorted(xs, le);
    }
  }

  /** The comparator chains: what may precede `b` may precede whatever `b`
      may precede. Orderings built from `cmp` are transitive. */
  ghost predicate Transitive<T(!new)>(le: (T, T) -> bool) {
    forall a: T, b: T, c: T :: le(a, b) && le(b, c) ==> le(a, c)
  }

  /** `a` and `e` tie: the comparator answers `Equal` for them. */
  predicate Tie<T>(le: (T, T) -> bool, e: T, a: T) {
    le(a, e) && le(e, a)
  }

  /** Inserting never moves `x` past an element that ties with it, and
      never reorders the elements already there. */
  lemma {:induction false} InsertStable<T(!new)>(x: T, xs: seq<T>, le: (T, T) -> bool, e: T)
    requires Transitive(le)
    ensures Filter(Insert(x, xs, le), a => Tie(le, e, a)) == Filter([x] + xs, a => Tie(le, e, a))
  {
    var p := a => Tie(le, e, a);
    if xs != [] && !le(x, xs[0]) {
      InsertStable(x, xs[1..], le, e);
      assert Insert(x, xs, le) == [xs[0]] + Insert(x, xs[1..], le);
      assert !(p(x) && p(xs[0]));
      assert ([x] + xs)[1..] == xs;
      assert ([x] + xs[1..])[1..] == xs[1..];
      assert xs[1..] == ([xs[0]] + xs[1..])[1..];
      assert xs == [xs[0]] + xs[1..];
    }
  }

  lemma {:induction false} InsertionSortStable<T(!new)>(xs: seq<T>, le: (T, T) -> bool, e: T)
    requires Transitive(le)
    ensures Filter(InsertionSort(xs, le), a => Tie(le, e, a)) == Filter(xs, a => Tie(le, e, a))
  {
    if xs != [] {
      var p := a => Tie(le, e, a);
      InsertionSortStable(xs[1..], le, e);
      InsertStable(xs[0], InsertionSort(xs[1..], le), le, e);
      assert ([xs[0]] + InsertionSort(xs[1..], le))[1..] == InsertionSort(xs[1..], le);
    }
  }

  /** `sort_by` is stable: the elements that tie with any `e` come out in
      the order they went in. */
  lemma SortByStable<T(!new)>(xs: seq<T>, le: (T, T) -> bool, e: T)
    requires Transitive(le)
    ensures Filter(SortBy(xs, le), a => Tie(le, e, a)) == Filter(xs, a => Tie(le, e, a))
  {
    InsertionSortStable(xs, le, e);
  }

  /** A key the comparator respects is non-decreasing along a sorted
      sequence, between any two positions and not only neighbours. */
  lemma {:induction false} SortedKeyMonotone<T(!new)>(xs: seq<T>, le: (T, T) -> bool, key: T -> int, i: nat, j: nat)
    requires Sorted(xs, le)
    requires forall a: T, b: T :: le(a, b) ==> key(a) <= key(b)
    requires i <= j < |xs|
    ensures key(xs[i]) <= key(xs[j])
    decreases j - i
  {
    if i < j {
      SortedKeyMonotone(xs, le, key, i + 1, j);
      assert le(xs[i], xs[i + 1]);
    }
  }

  // ------------------------------------------------------------ counting

  /** How many elements satisfy `p`: Rust's `iter().filter(p).count()`. */
  function Count<T>(xs: seq<T>, p: T -> bool): nat
  {
    if xs == [] then 0 else (if p(xs[0]) then 1 else 0) + Count(xs[1..], p)
  }

  lemma {:induction false} CountConcat<T>(a: seq<T>, b: seq<T>, p: T -> bool)
    ensures Count(a + b, p) == Count(a, p) + Count(b, p)
  {
    if a == [] {
      assert a + b == b;
    } else {
      assert (a + b)[1..] == a[1..] + b;
      CountConcat(a[1..], b, p);
    }
  }

  /** Taking out position `k` takes one copy of `b[k]` out of the multiset. */
  lemma RemoveAtMultiset<T>(b: seq<T>, k: nat)
    requires k < |b|
    ensures multiset(b[..k] + b[k + 1..]) == multiset(b) - multiset{b[k]}
  {
    assert b == b[..k] + [b[k]] + b[k + 1..];
  }

  /** Taking out position `k` takes its contribution out of the count. */
  lemma RemoveAtCount<T>(b: seq<T>, k: nat, p: T -> bool)
    requires k < |b|
    ensures Count(b, p) == Count(b[..k] + b[k + 1..], p) + (if p(b[k]) then 1 else 0)
  {
    var pre, mid, post := b[..k], [b[k]] + b[k + 1..], b[k + 1..];
    assert b == pre + mid;
    assert mid[1..] == post;
    CountConcat(pre, mid, p);
    CountConcat(pre, post, p);
  }

  /** Counting does not depend on the order: a sort keeps every count. */
  lemma {:induction false} CountPerm<T>(a: seq<T>, b: seq<T>, p: T -> bool)
    requires multiset(a) == multiset(b)
    ensures Count(a, p) == Count(b, p)
    decreases |a|
  {
    if a == [] {
      assert |b| == |multiset(b)| == 0;
    } else {
      assert a[0] in multiset(b);
      var k :| 0 <= k < |b| && b[k] == a[0];
      RemoveAtMultiset(b, k);
      RemoveAtCount(b, k, p);
      assert a == [a[0]] + a[1..];
      CountPerm(a[1..], b[..k] + b[k + 1..], p);
    }
  }

  /** No element satisfies `p` exactly when the count is zero. */
  lemma {:induction false} CountZero<T>(xs: seq<T>, p: T -> bool)
    ensures Count(xs, p) == 0 <==> forall i :: 0 <= i < |xs| ==> !p(xs[i])
  {
    if xs != [] {
      CountZero(xs[1..], p);
      assert forall i :: 1 <= i < |xs| ==> xs[i] == xs[1..][i - 1];
    }
  }

  /** When the elements satisfying `p` form a prefix, that prefix is as long
      as their count. */
  lemma {:induction false} PrefixCount<T>(xs: seq<T>, p: T -> bool)
    requires forall i, j :: 0 <= i <= j < |xs| && p(xs[j]) ==> p(xs[i])
    ensures forall i :: 0 <= i < |xs| ==> (p(xs[i]) <==> i < Count(xs, p))
  {
    if xs != [] {
      var tail := xs[1..];
      if p(xs[0]) {
        assert forall i :: 1 <= i < |xs| ==> xs[i] == tail[i - 1];
        PrefixCount(tail, p);
      } else {
        CountZero(xs, p);
      }
    }
  }

  /** The elements satisfying `p`, in order: `iter().filter(p).collect()`. */
  function Filter<T>(xs: seq<T>, p: T -> bool): (r: seq<T>)
    ensures |r| == Count(xs, p)
    ensures forall i :: 0 <= i < |r| ==> p(r[i]) && r[i] in xs
  {
    if xs == [] then []
    else
      var rest := Filter(xs[1..], p);
      assert forall i :: 0 <= i < |rest| ==> rest[i] in xs by {
        forall i | 0 <= i < |rest| ensures rest[i] in xs { assert rest[i] in xs[1..]; }
      }
      if p(xs[0]) then [xs[0]] + rest else rest
  }

  /** Nothing that satisfies `p` is filtered out. */
  lemma {:induction false} FilterComplete<T>(xs: seq<T>, p: T -> bool)
    ensures forall i :: 0 <= i < |xs| && p(xs[i]) ==> xs[i] in Filter(xs, p)
  {
    if xs != [] {
      FilterComplete(xs[1..], p);
      forall i | 1 <= i < |xs| && p(xs[i]) ensures xs[i] in Filter(xs, p) {
        assert xs[i] == xs[1..][i - 1];
      }
    }
  }

  /** Filtering keeps the input's order: filtering a concatenation filters
      each part in turn. */
  lemma {:induction false} FilterConcat<T>(a: seq<T>, b: seq<T>, p: T -> bool)
    ensures Filter(a + b, p) == Filter(a, p) + Filter(b, p)
  {
    if a == [] {
      assert a + b == b;
    } else {
      assert (a + b)[1..] == a[1..] + b;
      FilterConcat(a[1..], b, p);
    }
  }

  /** The first position whose element satisfies `p`: Rust's
      `iter().position(p)`, and `find` through it. */
  function FirstWhere<T>(xs: seq<T>, p: T -> bool): (r: Option<nat>)
    ensures r.Some? ==> r.value < |xs| && p(xs[r.value]) && forall k :: 0 <= k < r.value ==> !p(xs[k])
    ensures r.None? ==> forall k :: 0 <= k < |xs| ==> !p(xs[k])
  {
    if xs == [] then None
    else if p(xs[0]) then Some(0)
    else match FirstWhere(xs[1..], p)
      case None => None
      case Some(i) => Some(i + 1)
  }

  // ------------------------------------------------------------ strings

  /** Lexicographic order on code points, which is the order Rust's `Ord`
      for `str` gives through the UTF-8 bytes. */
  predicate StrLe(a: string, b: string) {
    a == [] || (b != [] && (a[0] < b[0] || (a[0] == b[0] && StrLe(a[1..], b[1..]))))
  }

  lemma {:induction false} StrLeTotal(a: string, b: string)
    ensures StrLe(a, b) || StrLe(b, a)
  {
    if a != [] && b != [] && a[0] == b[0] {
      StrLeTotal(a[1..], b[1..]);
    }
  }

  lemma {:induction false} StrLeAntisymmetric(a: string, b: string)
    requires StrLe(a, b) && StrLe(b, a)
    ensures a == b
  {
    if a != [] {
      StrLeAntisymmetric(a[1..], b[1..]);
      assert a == [a[0]] + a[1..] && b == [b[0]] + b[1..];
    }
  }

  /** `a` is a proper prefix of `b`: it sorts first. */
  lemma {:induction false} PrefixFirst(a: string, b: string)
    requires |a| < |b| && a == b[..|a|]
    ensures StrLe(a, b) && !StrLe(b, a)
  {
    if a != [] {
      assert a[1..] == b[1..][..|a| - 1];
      PrefixFirst(a[1..], b[1..]);
    }
  }
}
