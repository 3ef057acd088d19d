/** Python's `sorted` over a total order: the result is a permutation in order,
    and there is only one. */
module Sorting {

  /** An order by some key: total and transitive. */
  ghost predicate KeyOrder<T(!new)>(le: (T, T) -> bool) {
    && (forall x, y :: le(x, y) || le(y, x))
    && (forall x, y, z :: le(x, y) && le(y, z) ==> le(x, z))
  }

  ghost predicate TotalOrder<T(!new)>(le: (T, T) -> bool) {
    KeyOrder(le) && forall x, y :: le(x, y) && le(y, x) ==> x == y
  }

  ghost predicate InOrder<T>(xs: seq<T>, le: (T, T) -> bool) {
    forall i, j :: 0 <= i < j < |xs| ==> le(xs[i], xs[j])
  }

  function Insert<T>(x: T, xs: seq<T>, le: (T, T) -> bool): (r: seq<T>)
    ensures multiset(r) == multiset(xs) + multiset{x}
  {
    if xs == [] then [x]
    else if le(x, xs[0]) then [x] + xs
    else
      assert xs == [xs[0]] + xs[1..];
      [xs[0]] + Insert(x, xs[1..], le)
  }

  function Sorted<T>(xs: seq<T>, le: (T, T) -> bool): (r: seq<T>)
    ensures multiset(r) == multiset(xs)
    ensures |r| == |xs|
  {
    if xs == [] then []
    else
      assert xs == [xs[0]] + xs[1..];
      var r := Insert(xs[0], Sorted(xs[1..], le), le);
      assert |multiset(r)| == |r|;
      r
  }

  lemma {:induction false} InsertInOrder<T(!new)>(x: T, xs: seq<T>, le: (T, T) -> bool)
    requires KeyOrder(le) && InOrder(xs, le)
    ensures InOrder(Insert(x, xs, le), le)
  {
    if xs != [] && !le(x, xs[0]) {
      InsertInOrder(x, xs[1..], le);
      var r := Insert(x, xs[1..], le);
      forall y | y in r
        ensures le(xs[0], y)
      {
        assert y in multiset(r);
        assert y == x || y in xs[1..];
      }
    }
  }

  lemma {:induction false} SortedInOrder<T(!new)>(xs: seq<T>, le: (T, T) -> bool)
    requires KeyOrder(le)
    ensures InOrder(Sorted(xs, le), le)
  {
    if xs != [] {
      SortedInOrder(xs[1..], le);
      InsertInOrder(xs[0], Sorted(xs[1..], le), le);
    }
  }

  /** Two sequences with the same elements, both in order, are the same. */
  lemma {:induction false} OrderIsUnique<T(!new)>(xs: seq<T>, ys: seq<T>, le: (T, T) -> bool)
    requires TotalOrder(le) && InOrder(xs, le) && InOrder(ys, le) && multiset(xs) == multiset(ys)
    ensures xs == ys
  {
    if xs == [] {
      assert |multiset(ys)| == |ys|;
    } else {
      assert xs[0] in multiset(ys) && |multiset(xs)| == |xs| && |multiset(ys)| == |ys|;
      assert ys[0] in multiset(xs);
      assert xs == [xs[0]] + xs[1..] && ys == [ys[0]] + ys[1..];
      assert xs[0] == ys[0];
      assert multiset(xs[1..]) == multiset(xs) - multiset{xs[0]};
      OrderIsUnique(xs[1..], ys[1..], le);
    }
  }

  /** Sorting sees only which elements there are, not how they came. */
  lemma SortedIgnoresOrder<T(!new)>(xs: seq<T>, ys: seq<T>, le: (T, T) -> bool)
    requires TotalOrder(le) && multiset(xs) == multiset(ys)
    ensures Sorted(xs, le) == Sorted(ys, le)
  {
    SortedInOrder(xs, le);
    SortedInOrder(ys, le);
    OrderIsUnique(Sorted(xs, le), Sorted(ys, le), le);
  }

  lemma RemoveAt<T>(s: seq<T>, k: nat)
    requires k < |s|
    ensures multiset(s) == multiset(s[..k] + s[k + 1..]) + multiset{s[k]}
  {
    assert s == s[..k] + [s[k]] + s[k + 1..];
  }

  lemma Cancel<T>(a: multiset<T>, b: multiset<T>, x: T)
    requires a + multiset{x} == b + multiset{x}
    ensures a == b
  {
    assert a == (a + multiset{x}) - multiset{x};
    assert b == (b + multiset{x}) - multiset{x};
  }

  lemma Swap<T>(a: multiset<T>, b: multiset<T>, c: multiset<T>)
    ensures a + b + c == a + c + b
  {}

  /** The last of `xs` has a match in any rearrangement `ys`; what is left of the
      two is again a rearrangement. */
  lemma MatchLast<T>(xs: seq<T>, ys: seq<T>) returns (k: nat)
    requires xs != [] && multiset(xs) == multiset(ys)
    ensures k < |ys| && ys[k] == xs[|xs| - 1]
    ensures multiset(xs[..|xs| - 1]) == multiset(ys[..k] + ys[k + 1..])
  {
    var l := |xs| - 1;
    assert xs[l] in multiset(ys);
    k :| 0 <= k < |ys| && ys[k] == xs[l];
    RemoveAt(xs, l);
    assert xs[..l] + xs[l + 1..] == xs[..l];
    RemoveAt(ys, k);
    Cancel(multiset(xs[..l]), multiset(ys[..k] + ys[k + 1..]), xs[l]);
  }

  lemma EmptyMatch<T>(ys: seq<T>)
    requires multiset(ys) == multiset{}
    ensures ys == []
  {
    assert |multiset(ys)| == |ys|;
  }

  predicate IntLe(a: int, b: int) { a <= b }

  lemma IntsAreOrdered()
    ensures TotalOrder(IntLe)
  {}

  // --- the order of Python strings ----------------------------------------

  predicate NameLe(a: string, b: string) {
    if a == [] then true
    else if b == [] then false
    else if a[0] != b[0] then a[0] < b[0]
    else NameLe(a[1..], b[1..])
  }

  lemma {:induction false} NameTotal(a: string, b: string)
    ensures NameLe(a, b) || NameLe(b, a)
    ensures NameLe(a, b) && NameLe(b, a) ==> a == b
  {
    if a != [] && b != [] && a[0] == b[0] {
      NameTotal(a[1..], b[1..]);
      assert a == [a[0]] + a[1..] && b == [b[0]] + b[1..];
    }
  }

  lemma {:induction false} NameTransitive(a: string, b: string, c: string)
    requires NameLe(a, b) && NameLe(b, c)
    ensures NameLe(a, c)
  {
    if a != [] && b != [] && c != [] && a[0] == b[0] == c[0] {
      NameTransitive(a[1..], b[1..], c[1..]);
    }
  }

  lemma NamesAreOrdered()
    ensures TotalOrder(NameLe)
  {
    forall a, b
      ensures NameLe(a, b) || NameLe(b, a)
      ensures NameLe(a, b) && NameLe(b, a) ==> a == b
    {
      NameTotal(a, b);
    }
    forall a, b, c | NameLe(a, b) && NameLe(b, c)
      ensures NameLe(a, c)
    {
      NameTransitive(a, b, c);
    }
  }

  /** `a` and `b` first differ at `k`, where `a` has the smaller character. */
  ghost predicate SmallerAt(a: string, b: string, k: nat) {
    k < |a| && k < |b| && a[..k] == b[..k] && a[k] < b[k]
  }

  lemma SameStart(a: string, b: string, k: nat)
    requires SmallerAt(a, b, k)
    ensures k > 0 ==> a[0] == b[0]
  {
    assert k > 0 ==> a[..k][0] == a[0] && b[..k][0] == b[0];
  }

  /** The dictionary order: a prefix comes first, else the first difference decides. */
  lemma {:induction false} NameOrderIs(a: string, b: string)
    ensures NameLe(a, b) <==> a <= b || exists k :: SmallerAt(a, b, k)
  {
    if a != [] && b != [] {
      if a[0] == b[0] {
        NameOrderIs(a[1..], b[1..]);
        assert a == [a[0]] + a[1..] && b == [b[0]] + b[1..];
        if k: nat :| SmallerAt(a[1..], b[1..], k) {
          assert a[..k + 1] == [a[0]] + a[1..][..k] && b[..k + 1] == [b[0]] + b[1..][..k];
          assert SmallerAt(a, b, k + 1);
        }
        if k: nat :| SmallerAt(a, b, k) {
          assert k > 0 && a[1..][..k - 1] == a[..k][1..] && b[1..][..k - 1] == b[..k][1..];
          assert SmallerAt(a[1..], b[1..], k - 1);
        }
      } else {
        if a[0] < b[0] {
          assert SmallerAt(a, b, 0);
        }
        if k: nat :| SmallerAt(a, b, k) {
          SameStart(a, b, k);
        }
      }
    }
  }
}
