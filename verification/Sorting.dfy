/** Sorting by a total preorder, and the lexicographic order of code points. */
module Sorting {

  ghost predicate TotalPreorder<T(!new)>(leq: (T, T) -> bool) {
    && (forall a, b :: leq(a, b) || leq(b, a))
    && (forall a, b, c :: leq(a, b) && leq(b, c) ==> leq(a, c))
  }

  ghost predicate Sorted<T>(s: seq<T>, leq: (T, T) -> bool) {
    forall i, j :: 0 <= i < j < |s| ==> leq(s[i], s[j])
  }

  function Insert<T>(x: T, s: seq<T>, leq: (T, T) -> bool): seq<T> {
    if s == [] || leq(x, s[0]) then [x] + s else [s[0]] + Insert(x, s[1..], leq)
  }

  function SortBy<T>(s: seq<T>, leq: (T, T) -> bool): seq<T> {
    if s == [] then [] else Insert(s[0], SortBy(s[1..], leq), leq)
  }

  lemma {:induction false} InsertSorted<T(!new)>(x: T, s: seq<T>, leq: (T, T) -> bool)
    requires TotalPreorder(leq) && Sorted(s, leq)
    ensures multiset(Insert(x, s, leq)) == multiset(s) + multiset{x}
    ensures Sorted(Insert(x, s, leq), leq)
  {
    if s != [] && !leq(x, s[0]) {
      InsertSorted(x, s[1..], leq);
      var rest := Insert(x, s[1..], leq);
      assert s == [s[0]] + s[1..];
      forall j | 0 <= j < |rest| ensures leq(s[0], rest[j]) {
        assert rest[j] in multiset(rest);
        assert rest[j] == x || rest[j] in s[1..];
      }
    }
  }

  /** The result is ordered and holds exactly the elements of the input. */
  lemma {:induction false} SortBySorts<T(!new)>(s: seq<T>, leq: (T, T) -> bool)
    requires TotalPreorder(leq)
    ensures multiset(SortBy(s, leq)) == multiset(s)
    ensures Sorted(SortBy(s, leq), leq)
  {
    if s != [] {
      SortBySorts(s[1..], leq);
      InsertSorted(s[0], SortBy(s[1..], leq), leq);
      assert s == [s[0]] + s[1..];
    }
  }

  /** Elements of the collection that the order does not separate are the same. */
  ghost predicate TellsApart<T(!new)>(m: multiset<T>, leq: (T, T) -> bool) {
    forall x, y :: x in m && y in m && leq(x, y) && leq(y, x) ==> x == y
  }

  lemma FirstIsLeast<T>(s: seq<T>, x: T, leq: (T, T) -> bool)
    requires Sorted(s, leq) && x in s
    ensures x == s[0] || leq(s[0], x)
  {
  }

  lemma Tail<T>(s: seq<T>)
    requires s != []
    ensures multiset(s[1..]) == multiset(s) - multiset{s[0]}
    ensures s == [s[0]] + s[1..]
  {
    assert s == [s[0]] + s[1..];
  }

  lemma SameFirst<T(!new)>(a: seq<T>, b: seq<T>, leq: (T, T) -> bool)
    requires Sorted(a, leq) && Sorted(b, leq) && multiset(a) == multiset(b) && a != []
    requires TellsApart(multiset(a), leq)
    ensures b != [] && a[0] == b[0]
  {
    assert a[0] in multiset(b);
    assert b[0] in multiset(a);
    FirstIsLeast(a, b[0], leq);
    FirstIsLeast(b, a[0], leq);
  }

  lemma SortedTail<T(!new)>(s: seq<T>, leq: (T, T) -> bool)
    requires Sorted(s, leq) && s != []
    ensures Sorted(s[1..], leq)
  {
  }

  /** Two ordered arrangements of the same elements are equal when the order tells them apart. */
  lemma {:induction false} SortedIsUnique<T(!new)>(a: seq<T>, b: seq<T>, leq: (T, T) -> bool)
    requires Sorted(a, leq) && Sorted(b, leq) && multiset(a) == multiset(b)
    requires TellsApart(multiset(a), leq)
    ensures a == b
  {
    if a == [] {
      assert |b| == |multiset(b)|;
    } else {
      SameFirst(a, b, leq);
      Tail(a);
      Tail(b);
      SortedTail(a, leq);
      SortedTail(b, leq);
      assert TellsApart(multiset(a[1..]), leq) by {
        assert multiset(a[1..]) <= multiset(a);
      }
      SortedIsUnique(a[1..], b[1..], leq);
    }
  }

  /** Lexicographic order of code points, which is also the byte order of their UTF-8 form. */
  predicate LexLeq(a: seq<int>, b: seq<int>) {
    a == [] || (b != [] && (a[0] < b[0] || (a[0] == b[0] && LexLeq(a[1..], b[1..]))))
  }

  lemma {:induction false} LexTotal(a: seq<int>, b: seq<int>)
    ensures LexLeq(a, b) || LexLeq(b, a)
    ensures LexLeq(a, b) && LexLeq(b, a) ==> a == b
  {
    if a != [] && b != [] {
      LexTotal(a[1..], b[1..]);
      assert a == [a[0]] + a[1..] && b == [b[0]] + b[1..];
    }
  }

  lemma {:induction false} LexTransitive(a: seq<int>, b: seq<int>, c: seq<int>)
    requires LexLeq(a, b) && LexLeq(b, c)
    ensures LexLeq(a, c)
  {
    if a != [] {
      if a[0] == b[0] == c[0] {
        LexTransitive(a[1..], b[1..], c[1..]);
      }
    }
  }

  /** A prefix, or smaller at the first place of difference. */
  ghost predicate Precedes(a: seq<int>, b: seq<int>) {
    a <= b || exists k :: SmallerFirst(a, b, k)
  }

  ghost predicate SmallerFirst(a: seq<int>, b: seq<int>, k: int) {
    0 <= k < |a| && k < |b| && a[..k] == b[..k] && a[k] < b[k]
  }

  lemma {:induction false} LexIsPrecedes(a: seq<int>, b: seq<int>)
    ensures LexLeq(a, b) <==> Precedes(a, b)
  {
    if a != [] && b != [] {
      if a[0] == b[0] {
        LexIsPrecedes(a[1..], b[1..]);
        SmallerTail(a, b);
      } else {
        assert a[0] < b[0] <==> SmallerFirst(a, b, 0);
        DifferAtOnce(a, b);
      }
    }
  }

  lemma DifferAtOnce(a: seq<int>, b: seq<int>)
    requires a != [] && b != [] && a[0] != b[0]
    ensures forall k :: SmallerFirst(a, b, k) ==> k == 0
    ensures !(a <= b)
  {
    forall k | SmallerFirst(a, b, k) ensures k == 0 {
      assert forall i :: 0 <= i < k ==> a[..k][i] == a[i] && b[..k][i] == b[i];
    }
  }

  lemma SmallerTail(a: seq<int>, b: seq<int>)
    requires a != [] && b != [] && a[0] == b[0]
    ensures Precedes(a, b) <==> Precedes(a[1..], b[1..])
  {
    var x, y := a[1..], b[1..];
    assert a == [a[0]] + x && b == [b[0]] + y;
    assert a <= b <==> x <= y by {
      if x <= y { assert b[..|a|] == a; }
      if a <= b { assert y[..|x|] == b[..|a|][1..]; }
    }
    forall k | SmallerFirst(a, b, k) ensures SmallerFirst(x, y, k - 1) {
      assert x[..k - 1] == a[..k][1..] && y[..k - 1] == b[..k][1..];
    }
    forall k | SmallerFirst(x, y, k) ensures SmallerFirst(a, b, k + 1) {
      assert a[..k + 1] == [a[0]] + x[..k] && b[..k + 1] == [b[0]] + y[..k];
    }
  }

  function Codes(s: string): (r: seq<int>)
    ensures |r| == |s| && forall i :: 0 <= i < |s| ==> r[i] == s[i] as int
  {
    seq(|s|, i requires 0 <= i < |s| => s[i] as int)
  }

  lemma CodesInjective(a: string, b: string)
    requires Codes(a) == Codes(b)
    ensures a == b
  {
    forall i | 0 <= i < |a| ensures a[i] == b[i] {
      assert a[i] as int == Codes(a)[i];
      assert b[i] as int == Codes(b)[i];
    }
  }
}
