/** When two JSON values are the same, without canonical forms: what the identity of array items stands for. */
module JsonEquality {
  import opened Wrappers
  import opened Ordering
  import opened JsonValues
  import opened CanonicalJson
  import opened CanonicalRoundTrip

  function Tens(k: nat): int {
    if k == 0 then 1 else 10 * Tens(k - 1)
  }

  /** The same number, however it is written: 1, 1.0 and 10e-1. */
  predicate SameNumber(m: Number, n: Number) {
    if m.exponent >= n.exponent then m.coefficient * Tens(m.exponent - n.exponent) == n.coefficient
    else m.coefficient == n.coefficient * Tens(n.exponent - m.exponent)
  }

  /** The same value: arrays item by item, objects by what they hold under each key, in whatever order they hold it. */
  ghost predicate Same(a: Json, b: Json)
    decreases a
  {
    match a
    case Num(m) => b.Num? && SameNumber(m, b.number)
    case Obj(members) =>
      b.Obj? && |members| == |b.members|
      && forall m <- members :: exists n <- b.members :: n.key == m.key && Same(m.value, n.value)
    case Arr(items) => b.Arr? && |items| == |b.items| && forall i :: 0 <= i < |items| ==> Same(items[i], b.items[i])
    case _ => a == b
  }

  // ---- numbers ---------------------------------------------------------------------------------

  lemma {:induction false} PowerPositive(e: int)
    ensures Pow10(e) > 0.0
    decreases if e < 0 then -e else e
  {
    if e > 0 { PowerPositive(e - 1); } else if e < 0 { PowerPositive(e + 1); }
  }

  lemma NextPower(e: int)
    ensures Pow10(e + 1) == 10.0 * Pow10(e)
  {
  }

  lemma {:induction false} PowersApart(e: int, k: nat)
    ensures Pow10(e + k) == Tens(k) as real * Pow10(e)
    decreases k
  {
    if k > 0 {
      PowersApart(e, k - 1);
      NextPower(e + k - 1);
      Shift(Tens(k - 1), Pow10(e), Pow10(e + k - 1));
      assert Tens(k) == 10 * Tens(k - 1);
    }
  }

  lemma Shift(t: int, p: real, q: real)
    requires q == t as real * p
    ensures 10.0 * q == (10 * t) as real * p
  {
  }

  /** A common factor can be dropped. */
  lemma Cancel(a: real, b: real, p: real)
    requires p > 0.0
    ensures a * p == b * p <==> a == b
  {
    assert a * p - b * p == (a - b) * p;
  }

  lemma Scaled(c: int, t: int, p: real, q: real)
    requires q == t as real * p
    ensures c as real * q == (c * t) as real * p
  {
  }

  lemma SameNumberIs(m: Number, n: Number)
    requires m.exponent >= n.exponent
    ensures Value(m) == Value(n) <==> m.coefficient * Tens(m.exponent - n.exponent) == n.coefficient
  {
    hide Pow10, Tens;
    var k := m.exponent - n.exponent;
    var p := Pow10(n.exponent);
    PowersApart(n.exponent, k);
    PowerPositive(n.exponent);
    Scaled(m.coefficient, Tens(k), p, Pow10(m.exponent));
    Cancel((m.coefficient * Tens(k)) as real, n.coefficient as real, p);
  }

  lemma NumberIdentity(m: Number, n: Number)
    ensures Value(m) == Value(n) <==> SameNumber(m, n)
  {
    hide Value, Tens;
    if m.exponent >= n.exponent { SameNumberIs(m, n); } else { SameNumberIs(n, m); }
  }

  // ---- objects ---------------------------------------------------------------------------------

  /** Lists without repetitions, as long as each other, one within the other, are permutations. */
  lemma {:induction false} WithinIsPermutation<T>(a: seq<T>, b: seq<T>)
    requires |a| == |b| && (forall i, j :: 0 <= i < j < |a| ==> a[i] != a[j]) && forall x <- a :: x in b
    ensures multiset(a) == multiset(b)
  {
    if |a| > 0 {
      assert a[0] in b;
      var k :| 0 <= k < |b| && b[k] == a[0];
      var rest := b[..k] + b[k + 1..];
      assert b == b[..k] + [b[k]] + b[k + 1..];
      forall x | x in a[1..]
        ensures x in rest
      {
        assert x != a[0] && x in b;
      }
      WithinIsPermutation(a[1..], rest);
      assert a == [a[0]] + a[1..];
      assert multiset(b) == multiset(rest) + multiset{a[0]};
    }
  }

  lemma SortedAlike(a: seq<Keyed<Identity>>, b: seq<Keyed<Identity>>)
    requires KeysDiffer(a)
    ensures Sort(a, KeyLeq) == Sort(b, KeyLeq) <==> multiset(a) == multiset(b)
  {
    KeyLeqOrders<Identity>();
    hide Orders, KeysDiffer;
    SortSorts(a, KeyLeq);
    SortSorts(b, KeyLeq);
    if multiset(a) == multiset(b) {
      KeysSeparate(a);
      SortCanonical(a, b, KeyLeq);
    }
  }

  lemma PermutationIsWithin(a: seq<Keyed<Identity>>, b: seq<Keyed<Identity>>)
    requires KeysDiffer(a)
    ensures multiset(a) == multiset(b) <==> |a| == |b| && forall x <- a :: x in b
  {
    if multiset(a) == multiset(b) {
      assert |a| == |multiset(a)| == |b|;
      forall x | x in a
        ensures x in b
      {
        assert x in multiset(b);
      }
    }
    if |a| == |b| && forall x <- a :: x in b {
      WithinIsPermutation(a, b);
    }
  }

  ghost predicate Holds(ns: seq<Member>, key: string, identity: Identity) {
    exists n <- ns :: n.key == key && IdentityOf(n.value) == identity
  }

  lemma {:induction false} IdentityMembersAre(members: seq<Member>)
    ensures forall i :: 0 <= i < |members| ==>
              IdentityMembers(members)[i] == Keyed(members[i].key, IdentityOf(members[i].value))
  {
    hide IdentityOf;
    if |members| > 0 { IdentityMembersAre(members[1..]); }
  }

  lemma IdentityHeld(members: seq<Member>, key: string, identity: Identity)
    ensures Keyed(key, identity) in IdentityMembers(members) <==> Holds(members, key, identity)
  {
    IdentityMembersAre(members);
    hide IdentityOf;
    if Holds(members, key, identity) {
      var n :| n in members && n.key == key && IdentityOf(n.value) == identity;
      var i :| 0 <= i < |members| && members[i] == n;
      assert IdentityMembers(members)[i] == Keyed(key, identity);
    }
  }

  lemma ObjectsAlike(ms: seq<Member>, ns: seq<Member>)
    requires Unique(ms)
    ensures var a, b := IdentityMembers(ms), IdentityMembers(ns);
            IdentityOf(Obj(ms)) == IdentityOf(Obj(ns)) <==> |a| == |b| && forall x <- a :: x in b
  {
    var a, b := IdentityMembers(ms), IdentityMembers(ns);
    assert IdentityOf(Obj(ms)) == OfObject(Sort(a, KeyLeq)) && IdentityOf(Obj(ns)) == OfObject(Sort(b, KeyLeq));
    hide IdentityOf, Sort, IdentityMembers;
    assert KeysDiffer(a);
    SortedAlike(a, b);
    PermutationIsWithin(a, b);
  }

  /** Objects are the same when each member of one has its like in the other. */
  lemma ObjectIdentity(ms: seq<Member>, ns: seq<Member>)
    requires Unique(ms)
    ensures IdentityOf(Obj(ms)) == IdentityOf(Obj(ns)) <==>
              |ms| == |ns| && forall m <- ms :: Holds(ns, m.key, IdentityOf(m.value))
  {
    hide IdentityOf, IdentityMembers, Holds;
    var a, b := IdentityMembers(ms), IdentityMembers(ns);
    ObjectsAlike(ms, ns);
    IdentityMembersAre(ms);
    forall i | 0 <= i < |ms|
      ensures a[i] in b <==> Holds(ns, ms[i].key, IdentityOf(ms[i].value))
    {
      IdentityHeld(ns, ms[i].key, IdentityOf(ms[i].value));
    }
    assert (forall x <- a :: x in b) <==> forall i :: 0 <= i < |ms| ==> a[i] in b;
  }

  lemma ArrayIdentity(xs: seq<Json>, ys: seq<Json>)
    ensures IdentityOf(Arr(xs)) == IdentityOf(Arr(ys)) <==>
              |xs| == |ys| && forall i :: 0 <= i < |xs| ==> IdentityOf(xs[i]) == IdentityOf(ys[i])
  {
    var a, b := IdentityItems(xs), IdentityItems(ys);
    assert IdentityOf(Arr(xs)) == OfArray(a) && IdentityOf(Arr(ys)) == OfArray(b);
    assert forall i :: 0 <= i < |xs| ==> a[i] == IdentityOf(xs[i]);
    assert forall i :: 0 <= i < |ys| ==> b[i] == IdentityOf(ys[i]);
    hide IdentityOf, IdentityItems;
  }

  // ---- all values ------------------------------------------------------------------------------

  /** Two values whose keys are unique have one identity exactly when they are the same. */
  lemma {:induction false} IdentityIsSameness(a: Json, b: Json)
    requires UniqueKeys(a) && UniqueKeys(b)
    ensures IdentityOf(a) == IdentityOf(b) <==> Same(a, b)
    decreases a
  {
    match a
    case Num(m) => if b.Num? { NumberIdentity(m, b.number); }
    case Obj(members) => if b.Obj? { SameObjects(members, b.members); }
    case Arr(items) => if b.Arr? { SameArrays(items, b.items); }
    case _ =>
  }

  lemma {:induction false} SameObjects(ms: seq<Member>, ns: seq<Member>)
    requires UniqueKeys(Obj(ms)) && UniqueKeys(Obj(ns))
    ensures IdentityOf(Obj(ms)) == IdentityOf(Obj(ns)) <==> Same(Obj(ms), Obj(ns))
    decreases Obj(ms), 0
  {
    ObjectIdentity(ms, ns);
    forall m, n | m in ms && n in ns
      ensures IdentityOf(m.value) == IdentityOf(n.value) <==> Same(m.value, n.value)
    {
      IdentityIsSameness(m.value, n.value);
    }
    hide IdentityOf;
  }

  lemma {:induction false} SameArrays(xs: seq<Json>, ys: seq<Json>)
    requires UniqueKeys(Arr(xs)) && UniqueKeys(Arr(ys))
    ensures IdentityOf(Arr(xs)) == IdentityOf(Arr(ys)) <==> Same(Arr(xs), Arr(ys))
    decreases Arr(xs), 0
  {
    ArrayIdentity(xs, ys);
    forall i | 0 <= i < |xs| && i < |ys|
      ensures IdentityOf(xs[i]) == IdentityOf(ys[i]) <==> Same(xs[i], ys[i])
    {
      IdentityIsSameness(xs[i], ys[i]);
    }
    hide IdentityOf;
  }

  /** What an array check demands: a length within the bounds, and no two items that are the same value. */
  lemma ArrayCheckMeans(items: seq<Json>, rule: ArrayRule)
    requires UniqueKeys(Arr(items))
    ensures ArrayHolds(items, rule) <==>
              && (rule.minItems != None ==> |items| >= rule.minItems.value)
              && (rule.maxItems != None ==> |items| <= rule.maxItems.value)
              && (rule.uniqueItems ==> forall i, j :: 0 <= i < j < |items| ==> !Same(items[i], items[j]))
  {
    forall i, j | 0 <= i < j < |items|
      ensures IdentityOf(items[i]) == IdentityOf(items[j]) <==> Same(items[i], items[j])
    {
      IdentityIsSameness(items[i], items[j]);
    }
    hide IdentityOf, Same;
  }
}
