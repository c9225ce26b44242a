// Orders, sorting, and sums over sequences, shared by several models.

module Ordering {

  /** Lexicographic order on code units, as the relational operators on strings give it. */
  predicate StringLe(a: string, b: string) {
    a == "" || (b != "" && (a[0] < b[0] || (a[0] == b[0] && StringLe(a[1..], b[1..]))))
  }

  lemma {:induction false} StringLeTotal(a: string, b: string)
    ensures StringLe(a, b) || StringLe(b, a)
  {
    if a != "" && b != "" && a[0] == b[0] {
      StringLeTotal(a[1..], b[1..]);
    }
  }

  lemma {:induction false} StringLeAntisymmetric(a: string, b: string)
    requires StringLe(a, b) && StringLe(b, a)
    ensures a == b
  {
    if a != "" && b != "" {
      StringLeAntisymmetric(a[1..], b[1..]);
      assert a == [a[0]] + a[1..] && b == [b[0]] + b[1..];
    }
  }

  lemma {:induction false} StringLeTransitive(a: string, b: string, c: string)
    requires StringLe(a, b) && StringLe(b, c)
    ensures StringLe(a, c)
  {
    if a != "" && a[0] == b[0] == c[0] {
      StringLeTransitive(a[1..], b[1..], c[1..]);
    }
  }

  /** Either `a` begins `b`, or it has the smaller code unit at the first place where they differ. */
  lemma {:induction false} StringLeMeaning(a: string, b: string)
    ensures StringLe(a, b) <==> a <= b || exists k | 0 <= k < |a| && k < |b| :: a[..k] == b[..k] && a[k] < b[k]
    decreases |a|
  {
    if a != "" && b != "" && a[0] == b[0] {
      StringLeMeaning(a[1..], b[1..]);
      assert a == [a[0]] + a[1..] && b == [b[0]] + b[1..];
      if k :| 0 <= k < |a[1..]| && k < |b[1..]| && a[1..][..k] == b[1..][..k] && a[1..][k] < b[1..][k] {
        assert a[..k + 1] == [a[0]] + a[1..][..k] && b[..k + 1] == [b[0]] + b[1..][..k];
        assert a[k + 1] < b[k + 1];
      }
      if k :| 0 <= k < |a| && k < |b| && a[..k] == b[..k] && a[k] < b[k] {
        assert a[1..][..k - 1] == a[..k][1..] && b[1..][..k - 1] == b[..k][1..];
        assert a[1..][k - 1] < b[1..][k - 1];
      }
    } else if a != "" && b != "" {
      assert a[..0] == b[..0];
    }
  }

  ghost predicate TotalPreorder<T(!new)>(le: (T, T) -> bool) {
    && (forall a, b :: le(a, b) || le(b, a))
    && (forall a, b, c :: le(a, b) && le(b, c) ==> le(a, c))
  }

  ghost predicate Sorted<T(!new)>(s: seq<T>, le: (T, T) -> bool) {
    forall i, j | 0 <= i < j < |s| :: le(s[i], s[j])
  }

  /** Puts `x` in front of the first element it precedes strictly, so sorting is stable. */
  function InsertInOrder<T>(x: T, s: seq<T>, le: (T, T) -> bool): seq<T> {
    if s == [] then [x]
    else if le(s[0], x) then [s[0]] + InsertInOrder(x, s[1..], le)
    else [x] + s
  }

  function Sort<T>(s: seq<T>, le: (T, T) -> bool): seq<T> {
    if s == [] then [] else InsertInOrder(s[|s| - 1], Sort(s[..|s| - 1], le), le)
  }

  lemma {:induction false} InsertInOrderKeeps<T>(x: T, s: seq<T>, le: (T, T) -> bool)
    ensures multiset(InsertInOrder(x, s, le)) == multiset(s) + multiset{x}
    decreases |s|
  {
    if s != [] {
      assert s == [s[0]] + s[1..];
      InsertInOrderKeeps(x, s[1..], le);
    }
  }

  lemma {:induction false} InsertInOrderSorts<T(!new)>(x: T, s: seq<T>, le: (T, T) -> bool)
    requires TotalPreorder(le) && Sorted(s, le)
    ensures Sorted(InsertInOrder(x, s, le), le)
    decreases |s|
  {
    if s != [] {
      var rest := InsertInOrder(x, s[1..], le);
      InsertInOrderSorts(x, s[1..], le);
      InsertInOrderKeeps(x, s[1..], le);
      if le(s[0], x) {
        forall k | 0 <= k < |rest| ensures le(s[0], rest[k]) {
          assert rest[k] in multiset(rest);
          assert rest[k] in s[1..] || rest[k] == x;
        }
      }
    }
  }

  lemma {:induction false} SortSorts<T(!new)>(s: seq<T>, le: (T, T) -> bool)
    requires TotalPreorder(le)
    ensures Sorted(Sort(s, le), le) && multiset(Sort(s, le)) == multiset(s)
    decreases |s|
  {
    if s != [] {
      var front, last := s[..|s| - 1], s[|s| - 1];
      assert s == front + [last];
      SortSorts(front, le);
      InsertInOrderSorts(last, Sort(front, le), le);
      InsertInOrderKeeps(last, Sort(front, le), le);
    }
  }

  lemma LeastFirst<T(!new)>(s: seq<T>, x: T, le: (T, T) -> bool)
    requires Sorted(s, le) && x in s
    ensures x == s[0] || le(s[0], x)
    ensures Sorted(s[1..], le) && multiset(s[1..]) == multiset(s) - multiset{s[0]}
  {
    assert s == [s[0]] + s[1..];
  }

  /** There is one way to sort elements no two of which are equal in the order. */
  lemma {:induction false} SortedOnce<T(!new)>(a: seq<T>, b: seq<T>, le: (T, T) -> bool)
    requires Sorted(a, le) && Sorted(b, le) && multiset(a) == multiset(b)
    requires forall x, y | x in multiset(a) && y in multiset(a) && le(x, y) && le(y, x) :: x == y
    ensures a == b
    decreases |a|
  {
    hide Sorted;
    assert |multiset(a)| == |a| && |multiset(b)| == |b|;
    if a != [] {
      var x, y := a[0], b[0];
      assert x in multiset(b) && y in multiset(a);
      LeastFirst(a, y, le);
      LeastFirst(b, x, le);
      assert x == y;
      forall z | z in multiset(a[1..]) ensures z in multiset(a) {
        assert z in multiset(a) - multiset{x};
      }
      assert a == [x] + a[1..] && b == [y] + b[1..];
      SortedOnce(a[1..], b[1..], le);
    }
  }

  predicate NoDuplicates<T(==)>(s: seq<T>) {
    forall i, j | 0 <= i < j < |s| :: s[i] != s[j]
  }

  lemma {:induction false} DistinctCounts<T>(s: seq<T>)
    requires NoDuplicates(s)
    ensures forall x :: multiset(s)[x] == if x in s then 1 else 0
    decreases |s|
  {
    if s != [] {
      var front, last := s[..|s| - 1], s[|s| - 1];
      assert s == front + [last];
      DistinctCounts(front);
    }
  }

  lemma {:induction false} CountedOnceIsDistinct<T>(s: seq<T>)
    requires forall x :: multiset(s)[x] <= 1
    ensures NoDuplicates(s)
    decreases |s|
  {
    if s != [] {
      var front, last := s[..|s| - 1], s[|s| - 1];
      assert s == front + [last];
      assert forall x :: multiset(front)[x] <= multiset(s)[x];
      CountedOnceIsDistinct(front);
      assert multiset(front)[last] == 0;
    }
  }

  lemma SameElementsSameMultiset<T>(a: seq<T>, b: seq<T>)
    requires NoDuplicates(a) && NoDuplicates(b)
    requires forall x :: x in a <==> x in b
    ensures multiset(a) == multiset(b)
  {
    DistinctCounts(a);
    DistinctCounts(b);
  }

  function Sum<T>(s: seq<T>, f: T -> nat): nat {
    if s == [] then 0 else Sum(s[..|s| - 1], f) + f(s[|s| - 1])
  }

  lemma {:induction false} SumRemove<T>(s: seq<T>, f: T -> nat, k: nat)
    requires k < |s|
    ensures Sum(s, f) == Sum(s[..k] + s[k + 1..], f) + f(s[k])
    ensures multiset(s) == multiset(s[..k] + s[k + 1..]) + multiset{s[k]}
    decreases |s|
  {
    var front, last := s[..|s| - 1], s[|s| - 1];
    var t := s[..k] + s[k + 1..];
    assert s == front + [last];
    if k == |s| - 1 {
      assert t == front;
    } else {
      SumRemove(front, f, k);
      assert t[..|t| - 1] == front[..k] + front[k + 1..];
      assert t == (front[..k] + front[k + 1..]) + [last];
    }
  }

  lemma {:induction false} SumNext<T>(s: seq<T>, x: T, f: T -> nat)
    ensures Sum(s + [x], f) == Sum(s, f) + f(x) && Sum([], f) == 0
  {
    assert (s + [x])[..|s|] == s;
  }

  lemma MultisetIndex<T>(s: seq<T>, x: T) returns (k: nat)
    requires x in multiset(s)
    ensures k < |s| && s[k] == x
  {
    k :| 0 <= k < |s| && s[k] == x;
  }

  /** The order of the terms does not matter. */
  lemma {:induction false} SumPermutation<T>(a: seq<T>, b: seq<T>, f: T -> nat)
    requires multiset(a) == multiset(b)
    ensures Sum(a, f) == Sum(b, f)
    decreases |a|
  {
    assert |multiset(a)| == |a| && |multiset(b)| == |b|;
    if a != [] {
      hide Sum;
      var front, last := a[..|a| - 1], a[|a| - 1];
      assert a == front + [last];
      var k := MultisetIndex(b, last);
      var b' := b[..k] + b[k + 1..];
      SumRemove(b, f, k);
      assert multiset(front) == multiset(a) - multiset{last} == multiset(b');
      SumPermutation(front, b', f);
      SumNext(front, last, f);
    }
  }

  lemma {:induction false} SumMonotonic<T>(s: seq<T>, f: T -> nat, g: T -> nat)
    requires forall x | x in s :: f(x) <= g(x)
    ensures Sum(s, f) <= Sum(s, g)
    decreases |s|
  {
    if s != [] {
      SumMonotonic(s[..|s| - 1], f, g);
    }
  }

  lemma {:induction false} ListedSet<T>(s: set<T>) returns (r: seq<T>)
    ensures NoDuplicates(r) && forall x :: x in r <==> x in s
    decreases |s|
  {
    if s == {} {
      r := [];
    } else {
      var x :| x in s;
      var rest := ListedSet(s - {x});
      r := rest + [x];
    }
  }

  lemma {:induction false} SumHasTerm<T>(s: seq<T>, f: T -> nat, x: T)
    requires x in s
    ensures f(x) <= Sum(s, f)
    decreases |s|
  {
    if x != s[|s| - 1] {
      SumHasTerm(s[..|s| - 1], f, x);
    }
  }

  /** The values of a set, each once, in whatever order. */
  method ToSequence<T(==)>(s: set<T>) returns (r: seq<T>)
    ensures NoDuplicates(r) && forall x :: x in r <==> x in s
  {
    r := [];
    var rest := s;
    while rest != {}
      invariant rest <= s && NoDuplicates(r)
      invariant forall x :: x in r <==> x in s && x !in rest
      decreases rest
    {
      var x :| x in rest;
      rest := rest - {x};
      r := r + [x];
    }
  }
}
