/**
 * Sequence operations behind the scripts' list handling: the order-preserving
 * filter that every `for x in xs: if ...: result.append(x)` loop and list
 * comprehension computes, the subsequence relation it guarantees, and
 * Python's stable `sorted(xs, key=..., reverse=...)`.
 */
module Seqs {
  import opened Strings

  /** The elements of `s` satisfying `p`, in their order in `s`. */
  function Filter<T>(s: seq<T>, p: T -> bool): (r: seq<T>)
    ensures |r| <= |s|
  {
    if s == [] then []
    else Filter(s[..|s| - 1], p) + (if p(s[|s| - 1]) then [s[|s| - 1]] else [])
  }

  /** One more element at the end filters to one more element at the end, or to nothing new. */
  lemma FilterSnoc<T>(s: seq<T>, x: T, p: T -> bool)
    ensures Filter(s + [x], p) == Filter(s, p) + (if p(x) then [x] else [])
  {
    assert (s + [x])[..|s|] == s;
  }

  /** `a` is obtained from `b` by deleting elements, the rest keeping their order. */
  predicate Subseq<T(==)>(a: seq<T>, b: seq<T>)
    decreases |b|
  {
    if a == [] then true
    else if b == [] then false
    else (a[|a| - 1] == b[|b| - 1] && Subseq(a[..|a| - 1], b[..|b| - 1])) || Subseq(a, b[..|b| - 1])
  }

  lemma {:induction false} FilterIsSubseq<T>(s: seq<T>, p: T -> bool)
    ensures Subseq(Filter(s, p), s)
  {
    if s != [] {
      var init := s[..|s| - 1];
      FilterIsSubseq(init, p);
      var f := Filter(init, p);
      if p(s[|s| - 1]) {
        var a := f + [s[|s| - 1]];
        assert Filter(s, p) == a;
        assert a[..|a| - 1] == f && a[|a| - 1] == s[|s| - 1];
        assert s[..|s| - 1] == init;
        assert Subseq(a[..|a| - 1], s[..|s| - 1]);
      } else {
        assert Filter(s, p) == f + [] == f;
        SubseqDropLast(f, s);
      }
    }
  }

  lemma SubseqDropLast<T>(a: seq<T>, b: seq<T>)
    requires b != [] && Subseq(a, b[..|b| - 1])
    ensures Subseq(a, b)
  {
  }

  lemma {:induction false} SubseqTransitive<T>(a: seq<T>, b: seq<T>, c: seq<T>)
    requires Subseq(a, b) && Subseq(b, c)
    ensures Subseq(a, c)
    decreases |c|
  {
    if a != [] {
      var b' := b[..|b| - 1];
      var c' := c[..|c| - 1];
      if b[|b| - 1] == c[|c| - 1] && Subseq(b', c') {
        if a[|a| - 1] == b[|b| - 1] && Subseq(a[..|a| - 1], b') {
          SubseqTransitive(a[..|a| - 1], b', c');
        } else {
          SubseqTransitive(a, b', c');
        }
      } else {
        SubseqTransitive(a, b, c');
      }
    }
  }

  /** Exactly the elements of `s` that satisfy `p` survive the filter. */
  lemma {:induction false} FilterMembership<T>(s: seq<T>, p: T -> bool, x: T)
    ensures x in Filter(s, p) <==> x in s && p(x)
  {
    if s != [] {
      var init := s[..|s| - 1];
      FilterMembership(init, p, x);
      assert s == init + [s[|s| - 1]];
    }
  }

  /** Nothing is dropped when every element passes. */
  lemma {:induction false} FilterAll<T>(s: seq<T>, p: T -> bool)
    requires forall i :: 0 <= i < |s| ==> p(s[i])
    ensures Filter(s, p) == s
  {
    if s != [] {
      FilterAll(s[..|s| - 1], p);
    }
  }

  /** Everything is dropped when no element passes. */
  lemma {:induction false} FilterNone<T>(s: seq<T>, p: T -> bool)
    requires forall i :: 0 <= i < |s| ==> !p(s[i])
    ensures Filter(s, p) == []
  {
    if s != [] {
      FilterNone(s[..|s| - 1], p);
    }
  }

  /** Filtering a concatenation filters each part. */
  lemma {:induction false} FilterConcat<T>(a: seq<T>, b: seq<T>, p: T -> bool)
    ensures Filter(a + b, p) == Filter(a, p) + Filter(b, p)
    decreases |b|
  {
    if b == [] {
      assert a + b == a;
    } else {
      var last := b[|b| - 1];
      var init := b[..|b| - 1];
      FilterConcat(a, init, p);
      assert a + b == (a + init) + [last];
      FilterSnoc(a + init, last, p);
      FilterSnoc(init, last, p);
      assert b == init + [last];
    }
  }

  /** A relation that holds between every earlier and later element still holds after filtering. */
  lemma {:induction false} FilterKeepsPairwise<T>(s: seq<T>, p: T -> bool, r: (T, T) -> bool)
    requires forall i, j :: 0 <= i < j < |s| ==> r(s[i], s[j])
    ensures forall i, j :: 0 <= i < j < |Filter(s, p)| ==> r(Filter(s, p)[i], Filter(s, p)[j])
  {
    if s != [] {
      var init := s[..|s| - 1];
      var last := s[|s| - 1];
      FilterKeepsPairwise(init, p, r);
      var f := Filter(init, p);
      forall x | x in f
        ensures r(x, last)
      {
        FilterMembership(init, p, x);
        var i :| 0 <= i < |init| && init[i] == x;
      }
    }
  }

  /** The concatenation of `f(x)` for the elements `x` of `s`, in order. */
  function ConcatMap<T, U>(s: seq<T>, f: T -> seq<U>): (r: seq<U>)
  {
    if s == [] then [] else ConcatMap(s[..|s| - 1], f) + f(s[|s| - 1])
  }

  /** An element is in the concatenation exactly when it is in one of the pieces. */
  lemma {:induction false} ConcatMapMembership<T, U>(s: seq<T>, f: T -> seq<U>, y: U)
    ensures y in ConcatMap(s, f) <==> exists i :: 0 <= i < |s| && y in f(s[i])
  {
    if s != [] {
      var init := s[..|s| - 1];
      ConcatMapMembership(init, f, y);
      if exists i :: 0 <= i < |s| && y in f(s[i]) {
        var i :| 0 <= i < |s| && y in f(s[i]);
        if i < |s| - 1 {
          assert init[i] == s[i];
        }
      }
    }
  }

  /** `a` comes strictly before `b` in ascending (or, when `descending`, descending) order. */
  predicate Before(a: string, b: string, descending: bool)
  {
    if descending then Less(b, a) else Less(a, b)
  }

  /** `a` may come before `b` in ascending (or descending) order. */
  predicate InOrder(a: string, b: string, descending: bool)
  {
    if descending then LessEq(b, a) else LessEq(a, b)
  }

  predicate SortedBy<T>(s: seq<T>, key: T -> string, descending: bool)
  {
    forall i, j :: 0 <= i < j < |s| ==> InOrder(key(s[i]), key(s[j]), descending)
  }

  /** Inserts `x` after every element it does not strictly precede, so equal keys keep their order. */
  function Insert<T>(s: seq<T>, x: T, key: T -> string, descending: bool): (r: seq<T>)
    ensures multiset(r) == multiset(s) + multiset{x}
  {
    if s == [] then [x]
    else if Before(key(x), key(s[0]), descending) then [x] + s
    else
      assert s == [s[0]] + s[1..];
      [s[0]] + Insert(s[1..], x, key, descending)
  }

  /**
   * Python's `sorted(s, key=key, reverse=descending)`, as an insertion sort:
   * each element, taken in input order, goes after every element already
   * placed that it does not strictly precede. This is the tie rule of Python's
   * stable sort, also with `reverse=True`.
   */
  function SortBy<T>(s: seq<T>, key: T -> string, descending: bool): (r: seq<T>)
    ensures multiset(r) == multiset(s)
  {
    if s == [] then []
    else
      assert s == s[..|s| - 1] + [s[|s| - 1]];
      Insert(SortBy(s[..|s| - 1], key, descending), s[|s| - 1], key, descending)
  }

  lemma InOrderFromNotBefore(a: string, b: string, descending: bool)
    requires !Before(a, b, descending)
    ensures InOrder(b, a, descending)
  {
    LessEqTotal(a, b);
  }

  lemma BeforeInOrderTransitive(a: string, b: string, c: string, descending: bool)
    requires Before(a, b, descending) && InOrder(b, c, descending)
    ensures InOrder(a, c, descending)
  {
    if descending {
      LessEqLessTransitive(c, b, a);
    } else {
      LessLessEqTransitive(a, b, c);
    }
  }

  /** An element in order with every element of a sorted sequence can go in front of it. */
  lemma ConsSorted<T>(y: T, rest: seq<T>, key: T -> string, descending: bool)
    requires SortedBy(rest, key, descending)
    requires forall z :: z in rest ==> InOrder(key(y), key(z), descending)
    ensures SortedBy([y] + rest, key, descending)
  {
    var r := [y] + rest;
    forall i, j | 0 <= i < j < |r|
      ensures InOrder(key(r[i]), key(r[j]), descending)
    {
      if i > 0 {
        assert r[i] == rest[i - 1] && r[j] == rest[j - 1];
      } else {
        assert r[j] in rest;
      }
    }
  }

  lemma {:induction false} InsertSorted<T>(s: seq<T>, x: T, key: T -> string, descending: bool)
    requires SortedBy(s, key, descending)
    ensures SortedBy(Insert(s, x, key, descending), key, descending)
  {
    if s == [] {
    } else if Before(key(x), key(s[0]), descending) {
      forall z | z in s
        ensures InOrder(key(x), key(z), descending)
      {
        var j :| 0 <= j < |s| && s[j] == z;
        if j > 0 {
          BeforeInOrderTransitive(key(x), key(s[0]), key(s[j]), descending);
        } else {
          LessEqTotal(key(x), key(s[0]));
        }
      }
      ConsSorted(x, s, key, descending);
    } else {
      var rest := Insert(s[1..], x, key, descending);
      assert SortedBy(s[1..], key, descending) by {
        forall i, j | 0 <= i < j < |s[1..]|
          ensures InOrder(key(s[1..][i]), key(s[1..][j]), descending)
        {
          assert s[1..][i] == s[i + 1] && s[1..][j] == s[j + 1];
        }
      }
      InsertSorted(s[1..], x, key, descending);
      InOrderFromNotBefore(key(x), key(s[0]), descending);
      forall y | y in rest
        ensures InOrder(key(s[0]), key(y), descending)
      {
        assert y in multiset(rest);
        if y != x {
          assert y in multiset(s[1..]);
          var j :| 0 <= j < |s[1..]| && s[1..][j] == y;
          assert s[j + 1] == y;
        }
      }
      ConsSorted(s[0], rest, key, descending);
    }
  }

  /** The result of the sort is in key order. */
  lemma {:induction false} SortBySorted<T>(s: seq<T>, key: T -> string, descending: bool)
    ensures SortedBy(SortBy(s, key, descending), key, descending)
  {
    if s != [] {
      SortBySorted(s[..|s| - 1], key, descending);
      InsertSorted(SortBy(s[..|s| - 1], key, descending), s[|s| - 1], key, descending);
    }
  }

  /** `f` applied to each element, in order. */
  function MapSeq<T, U>(s: seq<T>, f: T -> U): (r: seq<U>)
    ensures |r| == |s|
    ensures forall i :: 0 <= i < |s| ==> r[i] == f(s[i])
  {
    seq(|s|, i requires 0 <= i < |s| => f(s[i]))
  }

  lemma MapSeqCons<T, U>(x: T, s: seq<T>, f: T -> U)
    ensures MapSeq([x] + s, f) == [f(x)] + MapSeq(s, f)
  {
  }

  lemma MapSeqSnoc<T, U>(s: seq<T>, x: T, f: T -> U)
    ensures MapSeq(s + [x], f) == MapSeq(s, f) + [f(x)]
  {
  }

  /** Inserting `x` adds exactly `f(x)` to the mapped values. */
  lemma {:induction false} MapSeqInsert<T, U>(s: seq<T>, x: T, key: T -> string, descending: bool, f: T -> U)
    ensures multiset(MapSeq(Insert(s, x, key, descending), f)) == multiset(MapSeq(s, f)) + multiset{f(x)}
  {
    if s == [] {
      assert Insert(s, x, key, descending) == [x];
    } else if Before(key(x), key(s[0]), descending) {
      assert Insert(s, x, key, descending) == [x] + s;
      MapSeqCons(x, s, f);
    } else {
      assert s == [s[0]] + s[1..];
      MapSeqCons(s[0], s[1..], f);
      var r := Insert(s[1..], x, key, descending);
      assert Insert(s, x, key, descending) == [s[0]] + r;
      MapSeqCons(s[0], r, f);
      MapSeqInsert(s[1..], x, key, descending, f);
    }
  }

  /** Sorting keeps the mapped values, each as often as it occurs. */
  lemma {:induction false} MapSeqSortBy<T, U>(s: seq<T>, key: T -> string, descending: bool, f: T -> U)
    ensures multiset(MapSeq(SortBy(s, key, descending), f)) == multiset(MapSeq(s, f))
  {
    if s != [] {
      var init := s[..|s| - 1];
      var last := s[|s| - 1];
      assert s == init + [last];
      MapSeqSnoc(init, last, f);
      var sortedInit := SortBy(init, key, descending);
      assert SortBy(s, key, descending) == Insert(sortedInit, last, key, descending);
      MapSeqSortBy(init, key, descending, f);
      MapSeqInsert(sortedInit, last, key, descending, f);
    }
  }
}
