/**
 The order Python uses on `str`, and a stable sort over any total order.
 Sorting by distinct keys is canonical: the result depends on the elements only, not on the order they came in.
 */
module Ordering {

  /** a <= b, code point by code point. */
  predicate Below(a: string, b: string)
    decreases |a|
  {
    |a| == 0 || (|b| > 0 && (a[0] < b[0] || (a[0] == b[0] && Below(a[1..], b[1..]))))
  }

  /** `p` characters are the same, and then `a` ends or has the smaller one. */
  ghost predicate BelowAfter(a: string, b: string, p: nat) {
    p <= |a| && p <= |b| && a[..p] == b[..p] && (p == |a| || (p < |b| && a[p] < b[p]))
  }

  lemma {:induction false} BelowMeans(a: string, b: string)
    ensures Below(a, b) <==> exists p :: BelowAfter(a, b, p)
    decreases |a|
  {
    if |a| == 0 {
      assert BelowAfter(a, b, 0);
    } else if |b| > 0 {
      if a[0] < b[0] {
        assert BelowAfter(a, b, 0);
      } else if a[0] == b[0] {
        BelowMeans(a[1..], b[1..]);
        SameFirst(a, b);
      }
    }
  }

  lemma SameFirst(a: string, b: string)
    requires |a| > 0 && |b| > 0 && a[0] == b[0]
    ensures (exists p :: BelowAfter(a[1..], b[1..], p)) <==> exists p :: BelowAfter(a, b, p)
  {
    if p: nat :| BelowAfter(a[1..], b[1..], p) {
      assert a[..p + 1] == [a[0]] + a[1..][..p] && b[..p + 1] == [b[0]] + b[1..][..p];
      assert BelowAfter(a, b, p + 1);
    }
    if p: nat :| BelowAfter(a, b, p) {
      assert a[1..][..p - 1] == a[..p][1..] && b[1..][..p - 1] == b[..p][1..];
      assert BelowAfter(a[1..], b[1..], p - 1);
    }
  }

  lemma {:induction false} BelowTotal(a: string, b: string)
    ensures Below(a, b) || Below(b, a)
    decreases |a|
  {
    if |a| > 0 && |b| > 0 && a[0] == b[0] {
      BelowTotal(a[1..], b[1..]);
    }
  }

  lemma {:induction false} BelowAntisymmetric(a: string, b: string)
    requires Below(a, b) && Below(b, a)
    ensures a == b
    decreases |a|
  {
    if |a| > 0 && |b| > 0 {
      BelowAntisymmetric(a[1..], b[1..]);
      assert a == [a[0]] + a[1..] && b == [b[0]] + b[1..];
    }
  }

  lemma {:induction false} BelowTransitive(a: string, b: string, c: string)
    requires Below(a, b) && Below(b, c)
    ensures Below(a, c)
    decreases |a|
  {
    if |a| > 0 && a[0] == b[0] == c[0] {
      BelowTransitive(a[1..], b[1..], c[1..]);
    }
  }

  ghost predicate Orders<T(!new)>(leq: (T, T) -> bool) {
    && (forall x, y :: leq(x, y) || leq(y, x))
    && (forall x, y, z :: leq(x, y) && leq(y, z) ==> leq(x, z))
  }

  ghost predicate Sorted<T>(s: seq<T>, leq: (T, T) -> bool) {
    forall i, j :: 0 <= i < j < |s| ==> leq(s[i], s[j])
  }

  /** The order tells different elements of `s` apart, as sorting by a key that is unique in `s` does. */
  ghost predicate Separates<T>(s: multiset<T>, leq: (T, T) -> bool) {
    forall x, y :: x in s && y in s && leq(x, y) && leq(y, x) ==> x == y
  }

  function Insert<T>(x: T, s: seq<T>, leq: (T, T) -> bool): seq<T> {
    if |s| == 0 || leq(x, s[0]) then [x] + s else [s[0]] + Insert(x, s[1..], leq)
  }

  function Sort<T>(s: seq<T>, leq: (T, T) -> bool): seq<T> {
    if |s| == 0 then [] else Insert(s[0], Sort(s[1..], leq), leq)
  }

  lemma {:induction false} InsertElements<T>(x: T, s: seq<T>, leq: (T, T) -> bool)
    ensures multiset(Insert(x, s, leq)) == multiset{x} + multiset(s)
  {
    if |s| == 0 || leq(x, s[0]) {
      assert multiset([x] + s) == multiset{x} + multiset(s);
    } else {
      var rest := Insert(x, s[1..], leq);
      InsertElements(x, s[1..], leq);
      assert s == [s[0]] + s[1..];
      assert multiset([s[0]] + rest) == multiset{s[0]} + multiset(rest);
    }
  }

  lemma {:induction false} InsertSorts<T(!new)>(x: T, s: seq<T>, leq: (T, T) -> bool)
    requires Orders(leq) && Sorted(s, leq)
    ensures Sorted(Insert(x, s, leq), leq)
  {
    if |s| == 0 || leq(x, s[0]) {
      PrependSorted(x, s, leq);
    } else {
      var rest := Insert(x, s[1..], leq);
      InsertSorts(x, s[1..], leq);
      InsertElements(x, s[1..], leq);
      forall j | 0 <= j < |rest|
        ensures leq(s[0], rest[j])
      {
        assert rest[j] in multiset(rest);
        assert rest[j] == x || rest[j] in s[1..];
      }
      PrependSorted(s[0], rest, leq);
    }
  }

  lemma PrependSorted<T(!new)>(x: T, s: seq<T>, leq: (T, T) -> bool)
    requires Orders(leq) && Sorted(s, leq)
    requires |s| > 0 ==> leq(x, s[0])
    ensures Sorted([x] + s, leq)
  {
    forall j | 0 <= j < |s|
      ensures leq(x, s[j])
    {
      assert j == 0 || leq(s[0], s[j]);
    }
  }

  lemma {:induction false} SortSorts<T(!new)>(s: seq<T>, leq: (T, T) -> bool)
    requires Orders(leq)
    ensures multiset(Sort(s, leq)) == multiset(s)
    ensures Sorted(Sort(s, leq), leq)
    ensures |Sort(s, leq)| == |s|
  {
    if |s| > 0 {
      SortSorts(s[1..], leq);
      InsertElements(s[0], Sort(s[1..], leq), leq);
      InsertSorts(s[0], Sort(s[1..], leq), leq);
      assert s == [s[0]] + s[1..];
    }
    assert |multiset(Sort(s, leq))| == |multiset(s)|;
  }

  lemma TailElements<T>(s: seq<T>)
    requires |s| > 0
    ensures multiset(s[1..]) == multiset(s) - multiset{s[0]}
  {
    assert s == [s[0]] + s[1..];
  }

  /** A sorted list whose elements the order tells apart is determined by its elements. */
  lemma {:induction false} SortedUnique<T(!new)>(a: seq<T>, b: seq<T>, leq: (T, T) -> bool)
    requires multiset(a) == multiset(b) && Separates(multiset(a), leq) && Orders(leq)
    requires Sorted(a, leq) && Sorted(b, leq)
    ensures a == b
  {
    hide Orders;
    assert |multiset(a)| == |multiset(b)|;
    if |a| > 0 {
      SameHead(a, b, leq);
      TailElements(a);
      TailElements(b);
      SortedUnique(a[1..], b[1..], leq);
      assert a == [a[0]] + a[1..] && b == [b[0]] + b[1..];
    }
  }

  lemma SameHead<T(!new)>(a: seq<T>, b: seq<T>, leq: (T, T) -> bool)
    requires multiset(a) == multiset(b) && Separates(multiset(a), leq) && Orders(leq)
    requires Sorted(a, leq) && Sorted(b, leq) && |a| > 0 && |b| > 0
    ensures a[0] == b[0]
  {
    assert a[0] in multiset(b) && b[0] in multiset(a);
    var i :| 0 <= i < |b| && b[i] == a[0];
    var j :| 0 <= j < |a| && a[j] == b[0];
    assert leq(a[0], a[j]) && leq(b[0], b[i]);
  }

  /** Sorting by a key that is unique gives one result, whatever order the elements came in. */
  lemma SortCanonical<T(!new)>(a: seq<T>, b: seq<T>, leq: (T, T) -> bool)
    requires Orders(leq) && multiset(a) == multiset(b) && Separates(multiset(a), leq)
    ensures Sort(a, leq) == Sort(b, leq)
  {
    SortSorts(a, leq);
    SortSorts(b, leq);
    SortedUnique(Sort(a, leq), Sort(b, leq), leq);
  }
}
