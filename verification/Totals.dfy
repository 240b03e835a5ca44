/** Sums and selections over sequences. */
module Totals {

  function Total<T>(s: seq<T>, f: T -> real): real {
    if |s| == 0 then 0.0 else f(s[0]) + Total(s[1..], f)
  }

  function Select<T(!new)>(s: seq<T>, p: T -> bool): (r: seq<T>)
    ensures forall x :: x in r <==> x in s && p(x)
  {
    if |s| == 0 then [] else (if p(s[0]) then [s[0]] else []) + Select(s[1..], p)
  }

  lemma {:induction false} TotalConcat<T>(a: seq<T>, b: seq<T>, f: T -> real)
    ensures Total(a + b, f) == Total(a, f) + Total(b, f)
  {
    if |a| == 0 {
      assert a + b == b;
    } else {
      assert (a + b)[1..] == a[1..] + b;
      TotalConcat(a[1..], b, f);
    }
  }

  /** An element of one permutation can be taken out of the other. */
  lemma TakeOut<T>(a: seq<T>, b: seq<T>) returns (k: nat)
    requires multiset(a) == multiset(b) && |a| > 0
    ensures k < |b| && b[k] == a[0] && multiset(a[1..]) == multiset(b[..k] + b[k + 1..])
  {
    assert a[0] in multiset(b);
    k :| 0 <= k < |b| && b[k] == a[0];
    assert b == b[..k] + [b[k]] + b[k + 1..];
    assert a == [a[0]] + a[1..];
    assert multiset(a) - multiset{a[0]} == multiset(a[1..]);
    assert multiset(b) - multiset{b[k]} == multiset(b[..k] + b[k + 1..]);
  }

  lemma TotalWithout<T>(b: seq<T>, k: nat, f: T -> real)
    requires k < |b|
    ensures Total(b, f) == f(b[k]) + Total(b[..k] + b[k + 1..], f)
  {
    assert b == b[..k] + ([b[k]] + b[k + 1..]);
    TotalConcat(b[..k], [b[k]] + b[k + 1..], f);
    TotalCons(b[k], b[k + 1..], f);
    TotalConcat(b[..k], b[k + 1..], f);
  }

  lemma {:induction false} TotalPermutes<T>(a: seq<T>, b: seq<T>, f: T -> real)
    requires multiset(a) == multiset(b)
    ensures Total(a, f) == Total(b, f)
  {
    assert |b| == |multiset(b)| == |multiset(a)| == |a|;
    if |a| > 0 {
      var k := TakeOut(a, b);
      TotalPermutes(a[1..], b[..k] + b[k + 1..], f);
      TotalWithout(b, k, f);
    }
  }

  lemma {:induction false} SelectCounts<T(!new)>(s: seq<T>, p: T -> bool, x: T)
    ensures multiset(Select(s, p))[x] == if p(x) then multiset(s)[x] else 0
  {
    if |s| > 0 {
      assert s == [s[0]] + s[1..];
      SelectCounts(s[1..], p, x);
    }
  }

  lemma TotalCons<T>(x: T, rest: seq<T>, f: T -> real)
    ensures Total([x] + rest, f) == f(x) + Total(rest, f)
  {
    assert ([x] + rest)[1..] == rest;
  }

  lemma SelectTotal<T(!new)>(s: seq<T>, p: T -> bool, f: T -> real)
    requires |s| > 0
    ensures Total(Select(s, p), f) == (if p(s[0]) then f(s[0]) else 0.0) + Total(Select(s[1..], p), f)
  {
    TotalCons(s[0], Select(s[1..], p), f);
    assert [] + Select(s[1..], p) == Select(s[1..], p);
  }

  lemma SelectsSome<T(!new)>(s: seq<T>, p: T -> bool)
    ensures Select(s, p) != [] <==> exists x <- s :: p(x)
  {
    if exists x <- s :: p(x) {
      var x :| x in s && p(x);
      assert x in Select(s, p);
    } else {
      assert forall i :: 0 <= i < |Select(s, p)| ==> Select(s, p)[i] in Select(s, p);
    }
  }

  lemma {:induction false} SelectAppend<T(!new)>(s: seq<T>, x: T, p: T -> bool)
    ensures Select(s + [x], p) == if p(x) then Select(s, p) + [x] else Select(s, p)
  {
    if |s| == 0 {
      assert s + [x] == [x];
    } else {
      assert (s + [x])[1..] == s[1..] + [x];
      SelectAppend(s[1..], x, p);
    }
  }

  lemma SelectPermutes<T(!new)>(a: seq<T>, b: seq<T>, p: T -> bool)
    requires multiset(a) == multiset(b)
    ensures multiset(Select(a, p)) == multiset(Select(b, p))
  {
    forall x: T
      ensures multiset(Select(a, p))[x] == multiset(Select(b, p))[x]
    {
      SelectCounts(a, p, x);
      SelectCounts(b, p, x);
    }
  }

  lemma {:induction false} TotalPositive<T>(s: seq<T>, f: T -> real)
    requires forall x <- s :: f(x) > 0.0
    ensures Total(s, f) >= 0.0 && (Total(s, f) > 0.0 <==> s != [])
  {
    if |s| > 0 {
      assert s[0] in s;
      assert forall x <- s[1..] :: x in s;
      TotalPositive(s[1..], f);
    }
  }

  lemma {:induction false} TotalPairwise<T>(a: seq<T>, b: seq<T>, f: T -> real)
    requires |a| == |b| && forall i :: 0 <= i < |a| ==> f(a[i]) <= f(b[i])
    ensures Total(a, f) <= Total(b, f)
    ensures (forall i :: 0 <= i < |a| ==> f(a[i]) == f(b[i])) ==> Total(a, f) == Total(b, f)
  {
    if |a| > 0 {
      assert forall i :: 0 <= i < |a[1..]| ==> a[1..][i] == a[i + 1] && b[1..][i] == b[i + 1];
      TotalPairwise(a[1..], b[1..], f);
    }
  }

  ghost predicate Between(lo: real, hi: real, weights: real, sum: real) {
    lo * weights <= sum <= hi * weights
  }

  ghost predicate AtTop(hi: real, weights: real, sum: real) {
    sum == hi * weights
  }

  lemma AddWeighted(w: real, v: real, wv: real, weights: real, sum: real, lo: real, hi: real)
    requires w > 0.0 && lo <= v <= hi && wv == w * v && Between(lo, hi, weights, sum)
    ensures Between(lo, hi, w + weights, wv + sum)
    ensures AtTop(hi, w + weights, wv + sum) <==> v == hi && AtTop(hi, weights, sum)
  {
    MulBounds(w, lo, v, hi);
    assert hi * (w + weights) == hi * w + hi * weights && lo * (w + weights) == lo * w + lo * weights;
  }

  /** Positive weights, values between `lo` and `hi`, and their products. */
  ghost predicate Weighted<T>(s: seq<T>, w: T -> real, v: T -> real, wv: T -> real, lo: real, hi: real) {
    forall x <- s :: w(x) > 0.0 && lo <= v(x) <= hi && wv(x) == w(x) * v(x)
  }

  ghost predicate AllAre<T>(s: seq<T>, v: T -> real, value: real) {
    forall x <- s :: v(x) == value
  }

  lemma HeadAndTail<T>(s: seq<T>, w: T -> real, v: T -> real, wv: T -> real, lo: real, hi: real)
    requires |s| > 0 && Weighted(s, w, v, wv, lo, hi)
    ensures w(s[0]) > 0.0 && lo <= v(s[0]) <= hi && wv(s[0]) == w(s[0]) * v(s[0])
    ensures Weighted(s[1..], w, v, wv, lo, hi)
    ensures AllAre(s, v, hi) <==> v(s[0]) == hi && AllAre(s[1..], v, hi)
  {
    assert s == [s[0]] + s[1..];
  }

  lemma OneMoreWeighted<T>(s: seq<T>, w: T -> real, v: T -> real, wv: T -> real, lo: real, hi: real)
    requires |s| > 0 && Weighted(s, w, v, wv, lo, hi) && Between(lo, hi, Total(s[1..], w), Total(s[1..], wv))
    requires AtTop(hi, Total(s[1..], w), Total(s[1..], wv)) <==> AllAre(s[1..], v, hi)
    ensures Between(lo, hi, Total(s, w), Total(s, wv))
    ensures AtTop(hi, Total(s, w), Total(s, wv)) <==> AllAre(s, v, hi)
  {
    hide Weighted, AllAre, Between, AtTop;
    HeadAndTail(s, w, v, wv, lo, hi);
    AddWeighted(w(s[0]), v(s[0]), wv(s[0]), Total(s[1..], w), Total(s[1..], wv), lo, hi);
  }

  lemma NothingWeighted(lo: real, hi: real)
    ensures Between(lo, hi, 0.0, 0.0) && AtTop(hi, 0.0, 0.0)
  {
  }

  /** Weighted sums of values between `lo` and `hi` stay between the multiples of the weight. */
  lemma {:induction false} WeightedBetween<T>(s: seq<T>, w: T -> real, v: T -> real, wv: T -> real, lo: real, hi: real)
    requires Weighted(s, w, v, wv, lo, hi)
    ensures Between(lo, hi, Total(s, w), Total(s, wv))
    ensures AtTop(hi, Total(s, w), Total(s, wv)) <==> AllAre(s, v, hi)
  {
    hide Between, AtTop;
    if |s| == 0 {
      NothingWeighted(lo, hi);
    } else {
      WeightedBetween(s[1..], w, v, wv, lo, hi);
      OneMoreWeighted(s, w, v, wv, lo, hi);
    }
  }

  /** A weighted mean lies between any bounds of the values it averages. */
  lemma MeanBetween<T>(s: seq<T>, w: T -> real, v: T -> real, wv: T -> real, lo: real, hi: real)
    requires s != [] && Weighted(s, w, v, wv, lo, hi)
    ensures Total(s, w) > 0.0 && lo <= Total(s, wv) / Total(s, w) <= hi
    ensures Total(s, wv) / Total(s, w) == hi <==> AllAre(s, v, hi)
  {
    TotalPositive(s, w);
    hide Weighted, AllAre, Between, AtTop;
    WeightedBetween(s, w, v, wv, lo, hi);
    Divide(Total(s, wv), Total(s, w), lo, hi);
  }

  lemma MulBounds(w: real, lo: real, v: real, hi: real)
    requires w > 0.0 && lo <= v <= hi
    ensures lo * w <= w * v <= hi * w && (w * v == hi * w <==> v == hi)
  {
    assert hi * w - w * v == w * (hi - v) && w * v - lo * w == w * (v - lo);
  }

  lemma Cancel(q: real, h: real, w: real)
    requires w > 0.0
    ensures q * w <= h * w <==> q <= h
    ensures q * w == h * w <==> q == h
  {
    assert h * w - q * w == (h - q) * w;
  }

  lemma Divide(n: real, w: real, lo: real, hi: real)
    requires w > 0.0 && Between(lo, hi, w, n)
    ensures lo <= n / w <= hi && (n / w == hi <==> AtTop(hi, w, n))
  {
    assert n / w * w == n;
    Cancel(n / w, hi, w);
    Cancel(lo, n / w, w);
  }

  lemma QuotientsOrdered(a: real, b: real, w: real)
    requires w > 0.0 && a <= b
    ensures a / w <= b / w
  {
    assert a / w * w == a && b / w * w == b;
    Cancel(a / w, b / w, w);
  }

  /** The positions of the elements that satisfy `p`. */
  ghost function Where<T>(s: seq<T>, p: T -> bool): set<int> {
    set i | 0 <= i < |s| && p(s[i])
  }

  lemma WhereLast<T>(front: seq<T>, x: T, p: T -> bool)
    ensures |Where(front + [x], p)| == |Where(front, p)| + (if p(x) then 1 else 0)
  {
    var n := |front|;
    assert Where(front + [x], p) == Where(front, p) + (if p(x) then {n} else {});
    assert n !in Where(front, p);
  }

  lemma {:induction false} SelectIsWhere<T(!new)>(s: seq<T>, p: T -> bool)
    ensures |Select(s, p)| == |Where(s, p)|
  {
    if |s| == 0 {
      assert Where(s, p) == {};
    } else {
      var front, x := s[..|s| - 1], s[|s| - 1];
      assert s == front + [x];
      SelectIsWhere(front, p);
      SelectAppend(front, x, p);
      WhereLast(front, x, p);
      hide Select, Where;
    }
  }
}
