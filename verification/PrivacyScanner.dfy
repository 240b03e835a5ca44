/** What a scan counts, read off the rows: every non-null leaf of every value, with its path. */
module ScanMeaning {
  import opened JsonValues
  import opened JsonPointer
  import opened Totals

  /** A column of a row, and one non-null leaf of its value. */
  datatype Cell = Cell(column: string, value: Json)
  datatype Leaf = Leaf(column: string, path: string, value: Json)

  /** The leaves of a value that is not null, in document order; array elements share the path component `*`. */
  function Leaves(column: string, path: string, v: Json): seq<Leaf>
    decreases v
  {
    match v
    case Obj(members) => MemberLeaves(column, path, members)
    case Arr(items) => ItemLeaves(column, path, items)
    case _ => [Leaf(column, path, v)]
  }

  function MemberLeaves(column: string, path: string, members: seq<Member>): seq<Leaf>
    decreases members
  {
    if |members| == 0 then []
    else
      (if members[0].value.Null? then [] else Leaves(column, path + "/" + Escape(members[0].key), members[0].value))
      + MemberLeaves(column, path, members[1..])
  }

  function ItemLeaves(column: string, path: string, items: seq<Json>): seq<Leaf>
    decreases items
  {
    if |items| == 0 then []
    else (if items[0].Null? then [] else Leaves(column, path + "/*", items[0])) + ItemLeaves(column, path, items[1..])
  }

  function CellLeaves(c: Cell): seq<Leaf> {
    if c.value.Null? then [] else Leaves(c.column, "", c.value)
  }

  function RowLeaves(row: seq<Cell>): seq<Leaf> {
    if |row| == 0 then [] else RowLeaves(row[..|row| - 1]) + CellLeaves(row[|row| - 1])
  }

  function AllLeaves(rows: seq<seq<Cell>>): seq<Leaf> {
    if |rows| == 0 then [] else AllLeaves(rows[..|rows| - 1]) + RowLeaves(rows[|rows| - 1])
  }

  /** Detectors by key: `matches` looks at the value of a leaf, `names` at column names. Rule ids keep keys apart. */
  datatype Detectors = Detectors(valueKeys: seq<string>, nameKeys: seq<string>,
                                 matches: (string, string, Json) -> bool, names: (string, string) -> bool)

  ghost predicate KeysApart(d: Detectors) {
    && (forall i, j :: 0 <= i < j < |d.valueKeys| ==> d.valueKeys[i] != d.valueKeys[j])
    && (forall k <- d.valueKeys :: k !in d.nameKeys)
  }

  predicate AtPath(l: Leaf, column: string, path: string) {
    l.column == column && l.path == path
  }

  predicate Hits(d: Detectors, l: Leaf, key: string) {
    key in d.valueKeys && d.matches(key, l.column, l.value)
  }

  function Observed(leaves: seq<Leaf>, column: string, path: string): nat {
    |Select(leaves, (l: Leaf) => AtPath(l, column, path))|
  }

  function Matched(d: Detectors, leaves: seq<Leaf>, column: string, path: string, key: string): nat {
    |Select(leaves, (l: Leaf) => AtPath(l, column, path) && Hits(d, l, key))|
  }

  function Paths(leaves: seq<Leaf>): set<(string, string)> {
    set l <- leaves :: (l.column, l.path)
  }

  function Columns(rows: seq<seq<Cell>>): set<string> {
    set row <- rows, c <- row :: c.column
  }

  const MAX_DISTINCT_PATHS := 10_000

  // ---- order does not matter -------------------------------------------------------------------

  lemma CountsPermute(d: Detectors, a: seq<Leaf>, b: seq<Leaf>, column: string, path: string, key: string)
    requires multiset(a) == multiset(b)
    ensures Observed(a, column, path) == Observed(b, column, path)
    ensures Matched(d, a, column, path, key) == Matched(d, b, column, path, key)
  {
    var p, q := (l: Leaf) => AtPath(l, column, path), (l: Leaf) => AtPath(l, column, path) && Hits(d, l, key);
    SelectPermutes(a, b, p);
    SelectPermutes(a, b, q);
    assert |Select(a, p)| == |multiset(Select(a, p))| && |Select(b, p)| == |multiset(Select(b, p))|;
    assert |Select(a, q)| == |multiset(Select(a, q))| && |Select(b, q)| == |multiset(Select(b, q))|;
  }

  lemma PathsPermute(a: seq<Leaf>, b: seq<Leaf>)
    requires multiset(a) == multiset(b)
    ensures Paths(a) == Paths(b)
  {
    assert forall l :: l in a <==> l in multiset(a);
    assert forall l :: l in b <==> l in multiset(b);
  }

  lemma {:induction false} MatchedWithinObserved(d: Detectors, leaves: seq<Leaf>, column: string, path: string,
                                                 key: string)
    ensures Matched(d, leaves, column, path, key) <= Observed(leaves, column, path)
  {
    if |leaves| > 0 { MatchedWithinObserved(d, leaves[1..], column, path, key); }
  }

  lemma {:induction false} LeavesConcat(a: seq<seq<Cell>>, b: seq<seq<Cell>>)
    ensures AllLeaves(a + b) == AllLeaves(a) + AllLeaves(b)
    decreases |b|
  {
    hide RowLeaves;
    if |b| == 0 {
      assert a + b == a;
    } else {
      assert (a + b)[..|a + b| - 1] == a + b[..|b| - 1];
      LeavesConcat(a, b[..|b| - 1]);
    }
  }

  lemma LeavesLast(rows: seq<seq<Cell>>, row: seq<Cell>)
    ensures AllLeaves(rows + [row]) == AllLeaves(rows) + RowLeaves(row)
  {
    assert (rows + [row])[..|rows|] == rows;
  }

  lemma LeavesWithout(rows: seq<seq<Cell>>, k: nat)
    requires k < |rows|
    ensures multiset(AllLeaves(rows)) == multiset(RowLeaves(rows[k])) + multiset(AllLeaves(rows[..k] + rows[k + 1..]))
  {
    hide AllLeaves, RowLeaves;
    assert rows == (rows[..k] + [rows[k]]) + rows[k + 1..];
    LeavesConcat(rows[..k] + [rows[k]], rows[k + 1..]);
    LeavesConcat(rows[..k], rows[k + 1..]);
    LeavesLast(rows[..k], rows[k]);
  }

  /** The rows in any order have the same leaves. */
  lemma {:induction false} LeavesPermute(a: seq<seq<Cell>>, b: seq<seq<Cell>>)
    requires multiset(a) == multiset(b)
    ensures multiset(AllLeaves(a)) == multiset(AllLeaves(b))
  {
    assert |b| == |multiset(b)| == |multiset(a)| == |a|;
    if |a| > 0 {
      var k := TakeOut(a, b);
      LeavesWithout(a, 0);
      assert a[..0] + a[1..] == a[1..];
      LeavesWithout(b, k);
      LeavesPermute(a[1..], b[..k] + b[k + 1..]);
    }
  }
}

/** The streaming scanner: counters and path sets updated leaf by leaf. */
module PrivacyScanning {
  import opened Wrappers
  import opened JsonValues
  import opened JsonPointer
  import opened Totals
  import opened ScanMeaning

  datatype Entry = Entry(path: string, value: Json)

  function StackLeaves(column: string, stack: seq<Entry>): multiset<Leaf> {
    if |stack| == 0 then multiset{}
    else
      var top := stack[|stack| - 1];
      StackLeaves(column, stack[..|stack| - 1]) + multiset(Leaves(column, top.path, top.value))
  }

  function Size(v: Json): nat
    decreases v
  {
    match v
    case Obj(members) => 1 + MemberSize(members)
    case Arr(items) => 1 + ItemSize(items)
    case _ => 1
  }

  function MemberSize(members: seq<Member>): nat
    decreases members
  {
    if |members| == 0 then 0 else Size(members[0].value) + MemberSize(members[1..])
  }

  function ItemSize(items: seq<Json>): nat
    decreases items
  {
    if |items| == 0 then 0 else Size(items[0]) + ItemSize(items[1..])
  }

  function StackSize(stack: seq<Entry>): nat {
    if |stack| == 0 then 0 else StackSize(stack[..|stack| - 1]) + Size(stack[|stack| - 1].value)
  }

  lemma Push(column: string, stack: seq<Entry>, e: Entry)
    ensures StackLeaves(column, stack + [e]) == StackLeaves(column, stack) + multiset(Leaves(column, e.path, e.value))
    ensures StackSize(stack + [e]) == StackSize(stack) + Size(e.value)
  {
    assert (stack + [e])[..|stack|] == stack;
  }

  lemma {:induction false} SizePositive(v: Json)
    ensures Size(v) >= 1
  {
  }

  method PushMembers(column: string, stack: seq<Entry>, path: string, members: seq<Member>) returns (r: seq<Entry>)
    ensures StackLeaves(column, r) == StackLeaves(column, stack) + multiset(MemberLeaves(column, path, members))
    ensures StackSize(r) <= StackSize(stack) + MemberSize(members)
  {
    r := stack;
    for i := 0 to |members|
      invariant StackLeaves(column, r) + multiset(MemberLeaves(column, path, members[i..])) ==
                StackLeaves(column, stack) + multiset(MemberLeaves(column, path, members))
      invariant StackSize(r) + MemberSize(members[i..]) <= StackSize(stack) + MemberSize(members)
    {
      assert members[i..][1..] == members[i + 1..];
      if !members[i].value.Null? {
        var e := Entry(path + "/" + Escape(members[i].key), members[i].value);
        Push(column, r, e);
        r := r + [e];
      }
    }
  }

  method PushItems(column: string, stack: seq<Entry>, path: string, items: seq<Json>) returns (r: seq<Entry>)
    ensures StackLeaves(column, r) == StackLeaves(column, stack) + multiset(ItemLeaves(column, path, items))
    ensures StackSize(r) <= StackSize(stack) + ItemSize(items)
  {
    r := stack;
    for i := 0 to |items|
      invariant StackLeaves(column, r) + multiset(ItemLeaves(column, path, items[i..])) ==
                StackLeaves(column, stack) + multiset(ItemLeaves(column, path, items))
      invariant StackSize(r) + ItemSize(items[i..]) <= StackSize(stack) + ItemSize(items)
    {
      assert items[i..][1..] == items[i + 1..];
      if !items[i].Null? {
        Push(column, r, Entry(path + "/*", items[i]));
        r := r + [Entry(path + "/*", items[i])];
      }
    }
  }

  lemma Pop(column: string, stack: seq<Entry>)
    requires |stack| > 0
    ensures var rest, top := stack[..|stack| - 1], stack[|stack| - 1];
            && StackLeaves(column, stack) == StackLeaves(column, rest) + multiset(Leaves(column, top.path, top.value))
            && StackSize(stack) == StackSize(rest) + Size(top.value) && Size(top.value) >= 1
  {
    SizePositive(stack[|stack| - 1].value);
  }

  /** One turn of the walk: a container is replaced by its children, anything else is a leaf. */
  method Turn(column: string, stack: seq<Entry>, top: Entry, leaves: seq<Leaf>)
      returns (stack': seq<Entry>, leaves': seq<Leaf>)
    ensures multiset(leaves') + StackLeaves(column, stack') ==
            multiset(leaves) + (StackLeaves(column, stack) + multiset(Leaves(column, top.path, top.value)))
    ensures StackSize(stack') < StackSize(stack) + Size(top.value)
  {
    stack', leaves' := stack, leaves;
    SizePositive(top.value);
    match top.value
    case Obj(members) => stack' := PushMembers(column, stack, top.path, members);
    case Arr(items) => stack' := PushItems(column, stack, top.path, items);
    case _ => leaves' := leaves + [Leaf(column, top.path, top.value)];
  }

  /** Collects the leaves of a value with an explicit stack: exactly those of the recursive reading, in some order. */
  method Walk(column: string, v: Json) returns (leaves: seq<Leaf>)
    requires !v.Null?
    ensures multiset(leaves) == multiset(Leaves(column, "", v))
  {
    var stack := [Entry("", v)];
    leaves := [];
    Push(column, [], Entry("", v));
    assert [] + [Entry("", v)] == stack;
    hide Leaves, Size;
    while |stack| > 0
      invariant multiset(leaves) + StackLeaves(column, stack) == multiset(Leaves(column, "", v))
      decreases StackSize(stack)
    {
      Pop(column, stack);
      stack, leaves := Turn(column, stack[..|stack| - 1], stack[|stack| - 1], leaves);
    }
  }

  // ---- counters --------------------------------------------------------------------------------

  function Lookup<K>(m: map<K, nat>, k: K): nat {
    if k in m then m[k] else 0
  }

  /** The counters say what the leaves say, and hold no zeros. */
  ghost predicate ObservedFits(observed: map<(string, string), nat>, leaves: seq<Leaf>) {
    && (forall c, p :: Lookup(observed, (c, p)) == Observed(leaves, c, p))
    && (forall at <- observed :: observed[at] > 0)
  }

  ghost predicate MatchedFits(matched: map<(string, string, string), nat>, d: Detectors, leaves: seq<Leaf>) {
    forall c, p, k :: Lookup(matched, (c, p, k)) == Matched(d, leaves, c, p, k)
  }

  /** The hits of a leaf for the first `n` detectors have been counted. */
  ghost predicate HitsCounted(before: map<(string, string, string), nat>, after: map<(string, string, string), nat>,
                              d: Detectors, l: Leaf, n: nat)
    requires n <= |d.valueKeys|
  {
    forall c, p, k ::
      Lookup(after, (c, p, k)) ==
        Lookup(before, (c, p, k))
        + (if AtPath(l, c, p) && k in d.valueKeys[..n] && d.matches(k, l.column, l.value) then 1 else 0)
  }

  lemma ObservedStep(observed: map<(string, string), nat>, leaves: seq<Leaf>, l: Leaf)
    requires ObservedFits(observed, leaves)
    ensures ObservedFits(observed[(l.column, l.path) := Lookup(observed, (l.column, l.path)) + 1], leaves + [l])
  {
    forall c, p
      ensures Observed(leaves + [l], c, p) == Observed(leaves, c, p) + (if AtPath(l, c, p) then 1 else 0)
    {
      SelectAppend(leaves, l, (x: Leaf) => AtPath(x, c, p));
    }
    hide Observed;
  }

  lemma MatchedStep(before: map<(string, string, string), nat>, after: map<(string, string, string), nat>, d: Detectors,
                    leaves: seq<Leaf>, l: Leaf)
    requires MatchedFits(before, d, leaves) && HitsCounted(before, after, d, l, |d.valueKeys|)
    ensures MatchedFits(after, d, leaves + [l])
  {
    assert d.valueKeys[..|d.valueKeys|] == d.valueKeys;
    forall c, p, k
      ensures Matched(d, leaves + [l], c, p, k) ==
                Matched(d, leaves, c, p, k) + (if AtPath(l, c, p) && Hits(d, l, k) then 1 else 0)
    {
      SelectAppend(leaves, l, (x: Leaf) => AtPath(x, c, p) && Hits(d, x, k));
    }
    hide Matched;
  }

  lemma HitStep(before: map<(string, string, string), nat>, after: map<(string, string, string), nat>, d: Detectors,
                l: Leaf, n: nat)
    requires KeysApart(d) && n < |d.valueKeys| && HitsCounted(before, after, d, l, n)
    ensures var key := d.valueKeys[n];
            var at := (l.column, l.path, key);
            HitsCounted(before, if d.matches(key, l.column, l.value) then after[at := Lookup(after, at) + 1]
                        else after, d, l, n + 1)
  {
    assert d.valueKeys[..n + 1] == d.valueKeys[..n] + [d.valueKeys[n]];
    assert d.valueKeys[n] !in d.valueKeys[..n];
  }

  lemma PathsGrow(leaves: seq<Leaf>, l: Leaf)
    ensures Paths(leaves + [l]) == Paths(leaves) + {(l.column, l.path)}
  {
  }

  lemma {:induction false} SubsetSize<T>(a: set<T>, b: set<T>)
    requires a <= b
    ensures |a| <= |b|
  {
    if a != {} {
      var x :| x in a;
      SubsetSize(a - {x}, b - {x});
    }
  }

  /** More leaves, no fewer paths. */
  lemma PathsMonotone(a: seq<Leaf>, b: seq<Leaf>)
    ensures |Paths(a)| <= |Paths(a + b)|
  {
    SubsetSize(Paths(a), Paths(a + b));
  }

  /** The same leaves, in whatever order. */
  ghost predicate Same(a: seq<Leaf>, b: seq<Leaf>) {
    multiset(a) == multiset(b)
  }

  lemma SameReflexive(a: seq<Leaf>)
    ensures Same(a, a)
  {
  }

  /** `now` is `then` with `more`, and `then` is `base` with `some`. */
  lemma SameExtend(now: seq<Leaf>, before: seq<Leaf>, base: seq<Leaf>, some: seq<Leaf>, more: seq<Leaf>)
    requires Same(before, base + some)
    requires Same(now, before + more)
    ensures Same(now, base + (some + more))
  {
    assert multiset(now) == multiset(before) + multiset(more);
    assert multiset(base + (some + more)) == multiset(base + some) + multiset(more);
  }

  lemma SamePaths(a: seq<Leaf>, b: seq<Leaf>)
    requires Same(a, b)
    ensures Paths(a) == Paths(b)
  {
    PathsPermute(a, b);
  }

  lemma {:induction false} RowLeavesConcat(a: seq<Cell>, b: seq<Cell>)
    ensures RowLeaves(a + b) == RowLeaves(a) + RowLeaves(b)
    decreases |b|
  {
    hide CellLeaves;
    if |b| == 0 {
      assert a + b == a;
    } else {
      assert (a + b)[..|a + b| - 1] == a + b[..|b| - 1];
      RowLeavesConcat(a, b[..|b| - 1]);
    }
  }

  lemma RowLeavesLast(row: seq<Cell>, i: nat)
    requires i < |row|
    ensures RowLeaves(row[..i + 1]) == RowLeaves(row[..i]) + CellLeaves(row[i])
  {
    assert row[..i + 1][..i] == row[..i];
  }

  /** Past the limit after part of a row is past the limit after the row. */
  lemma LimitStays(base: seq<Leaf>, row: seq<Cell>, i: nat)
    requires i <= |row|
    ensures |Paths(base + RowLeaves(row[..i]))| <= |Paths(base + RowLeaves(row))|
  {
    hide RowLeaves, Paths;
    assert row == row[..i] + row[i..];
    RowLeavesConcat(row[..i], row[i..]);
    assert base + RowLeaves(row) == base + RowLeaves(row[..i]) + RowLeaves(row[i..]);
    PathsMonotone(base + RowLeaves(row[..i]), RowLeaves(row[i..]));
  }

  lemma NoCellsYet(base: seq<Leaf>, row: seq<Cell>)
    ensures base + RowLeaves(row[..0]) == base
  {
  }

  /** The accumulator. `log` remembers, for the proof only, every leaf counted so far. */
  class PrivacyScanner {
    const detectors: Detectors
    var seenPaths: set<(string, string)>
    var observedCounts: map<(string, string), nat>
    var matchedCounts: map<(string, string, string), nat>
    var topLevelColumns: set<string>
    var totalRows: nat
    ghost var log: seq<Leaf>

    ghost predicate Valid()
      reads this
    {
      && KeysApart(detectors)
      && seenPaths == Paths(log) && |seenPaths| <= MAX_DISTINCT_PATHS
      && ObservedFits(observedCounts, log) && MatchedFits(matchedCounts, detectors, log)
    }

    constructor (detectors: Detectors, schema: set<string>)
      requires KeysApart(detectors)
      ensures Valid() && log == [] && totalRows == 0 && topLevelColumns == schema && this.detectors == detectors
    {
      this.detectors := detectors;
      seenPaths, observedCounts, matchedCounts, topLevelColumns, totalRows := {}, map[], map[], schema, 0;
      log := [];
    }

    /** Notes the path of a leaf; false when it is one too many. */
    method NotePath(l: Leaf) returns (ok: bool)
      requires seenPaths == Paths(log) && |seenPaths| <= MAX_DISTINCT_PATHS
      modifies `seenPaths
      ensures ok <==> |Paths(log + [l])| <= MAX_DISTINCT_PATHS
      ensures ok ==> seenPaths == Paths(log + [l])
    {
      var at := (l.column, l.path);
      PathsGrow(log, l);
      hide Paths;
      if at !in seenPaths {
        if |seenPaths| >= MAX_DISTINCT_PATHS {
          return false;
        }
        seenPaths := seenPaths + {at};
      } else {
        assert seenPaths + {at} == seenPaths;
      }
      ok := true;
    }

    /** Counts one leaf; false when its path is one too many. */
    method CountLeaf(l: Leaf) returns (ok: bool)
      requires Valid()
      modifies `seenPaths, `observedCounts, `matchedCounts, `log
      ensures ok <==> |Paths(old(log) + [l])| <= MAX_DISTINCT_PATHS
      ensures ok ==> Valid() && log == old(log) + [l]
    {
      hide Paths, MatchedFits, ObservedFits, KeysApart, HitsCounted;
      ok := NotePath(l);
      if ok {
        var at := (l.column, l.path);
        ObservedStep(observedCounts, log, l);
        observedCounts := observedCounts[at := Lookup(observedCounts, at) + 1];
        CountHits(l);
        MatchedStep(old(matchedCounts), matchedCounts, detectors, log, l);
        log := log + [l];
      }
    }

    method CountHits(l: Leaf)
      requires KeysApart(detectors)
      modifies `matchedCounts
      ensures HitsCounted(old(matchedCounts), matchedCounts, detectors, l, |detectors.valueKeys|)
    {
      hide KeysApart;
      for i := 0 to |detectors.valueKeys|
        invariant HitsCounted(old(matchedCounts), matchedCounts, detectors, l, i)
      {
        var key := detectors.valueKeys[i];
        HitStep(old(matchedCounts), matchedCounts, detectors, l, i);
        hide HitsCounted;
        if detectors.matches(key, l.column, l.value) {
          matchedCounts := matchedCounts[(l.column, l.path, key) := Lookup(matchedCounts, (l.column, l.path, key)) + 1];
        }
      }
    }

    method FeedLeaves(leaves: seq<Leaf>) returns (ok: bool)
      requires Valid()
      modifies `seenPaths, `observedCounts, `matchedCounts, `log
      ensures ok <==> |Paths(old(log) + leaves)| <= MAX_DISTINCT_PATHS
      ensures ok ==> Valid() && log == old(log) + leaves
    {
      hide Valid, Paths;
      for i := 0 to |leaves|
        invariant Valid() && log == old(log) + leaves[..i]
      {
        ok := CountLeaf(leaves[i]);
        assert old(log) + leaves[..i] + [leaves[i]] == old(log) + leaves[..i + 1];
        if !ok {
          assert old(log) + leaves == old(log) + leaves[..i + 1] + leaves[i + 1..];
          PathsMonotone(old(log) + leaves[..i + 1], leaves[i + 1..]);
          return;
        }
      }
      assert leaves[..|leaves|] == leaves;
      WithinLimit();
      ok := true;
    }

    /** Counts the leaves of one value. */
    method FeedValue(column: string, v: Json) returns (ok: bool)
      requires Valid() && !v.Null?
      modifies `seenPaths, `observedCounts, `matchedCounts, `log
      ensures ok <==> |Paths(old(log) + Leaves(column, "", v))| <= MAX_DISTINCT_PATHS
      ensures ok ==> Valid() && Same(log, old(log) + Leaves(column, "", v))
    {
      var leaves := Walk(column, v);
      hide Valid, Paths, Leaves;
      assert Same(old(log) + leaves, old(log) + Leaves(column, "", v));
      hide Same;
      SamePaths(old(log) + leaves, old(log) + Leaves(column, "", v));
      ok := FeedLeaves(leaves);
    }

    lemma WithinLimit()
      requires Valid()
      ensures |Paths(log)| <= MAX_DISTINCT_PATHS
    {
    }

    /** Counts the leaves of the values of a row. */
    method FeedValues(row: seq<Cell>) returns (ok: bool)
      requires Valid()
      modifies `seenPaths, `observedCounts, `matchedCounts, `log
      ensures ok <==> |Paths(old(log) + RowLeaves(row))| <= MAX_DISTINCT_PATHS
      ensures ok ==> Valid() && Same(log, old(log) + RowLeaves(row))
    {
      hide Valid, Paths, RowLeaves, Same, Leaves;
      NoCellsYet(log, row);
      SameReflexive(log);
      for i := 0 to |row|
        invariant Valid() && Same(log, old(log) + RowLeaves(row[..i]))
      {
        RowLeavesLast(row, i);
        if row[i].value.Null? {
          assert RowLeaves(row[..i]) + [] == RowLeaves(row[..i]);
        } else {
          ghost var before := log;
          ok := FeedValue(row[i].column, row[i].value);
          PathsAfter(before, old(log), RowLeaves(row[..i]), CellLeaves(row[i]));
          if !ok {
            LimitStays(old(log), row, i + 1);
            return;
          }
          SameExtend(log, before, old(log), RowLeaves(row[..i]), CellLeaves(row[i]));
        }
      }
      assert row[..|row|] == row;
      SamePaths(log, old(log) + RowLeaves(row));
      WithinLimit();
      ok := true;
    }

    /** Counts one row; false when the path limit is passed. */
    method FeedRow(row: seq<Cell>) returns (ok: bool)
      requires Valid()
      modifies this
      ensures ok <==> |Paths(old(log) + RowLeaves(row))| <= MAX_DISTINCT_PATHS
      ensures ok ==> Valid() && Same(log, old(log) + RowLeaves(row))
      ensures totalRows == old(totalRows) + 1 && topLevelColumns == old(topLevelColumns) + set c <- row :: c.column
    {
      totalRows := totalRows + 1;
      topLevelColumns := topLevelColumns + set c <- row :: c.column;
      ok := FeedValues(row);
    }

    /** Every name detector that matches a column claims all its observed values, or all rows when none was observed. */
    method MarkColumn(column: string)
      modifies `observedCounts, `matchedCounts
      ensures ColumnMarked(old(observedCounts), observedCounts, old(matchedCounts), matchedCounts, detectors, column,
                           totalRows, |detectors.nameKeys|)
    {
      for i := 0 to |detectors.nameKeys|
        invariant ColumnMarked(old(observedCounts), observedCounts, old(matchedCounts), matchedCounts, detectors,
                               column, totalRows, i)
      {
        var key := detectors.nameKeys[i];
        MarkStep(old(observedCounts), observedCounts, old(matchedCounts), matchedCounts, detectors, column, totalRows,
                 i);
        hide ColumnMarked;
        if detectors.names(key, column) {
          var claimed := if (column, "") in observedCounts then observedCounts[(column, "")] else totalRows;
          matchedCounts := matchedCounts[(column, "", key) := claimed];
          observedCounts := observedCounts[(column, "") := claimed];
        }
      }
    }

    /** Column-name matches, then one finding for every key that matched anything. */
    method Finish() returns (findings: map<(string, string, string), Finding>)
      requires Valid()
      modifies this
      ensures Describes(findings, detectors, old(log), old(totalRows), old(topLevelColumns))
    {
      var remaining := topLevelColumns;
      ghost var done: set<string> := {};
      StartsMarked(observedCounts, matchedCounts, detectors, log, totalRows);
      hide Valid, AllMarked;
      while remaining != {}
        invariant unchanged(`log) && unchanged(`totalRows) && unchanged(`topLevelColumns)
        invariant done !! remaining && done + remaining == topLevelColumns
        invariant AllMarked(observedCounts, matchedCounts, detectors, log, totalRows, done)
        decreases |remaining|
      {
        var column :| column in remaining;
        remaining := remaining - {column};
        ghost var observed, matched := observedCounts, matchedCounts;
        MarkColumn(column);
        MarksGrow(observed, observedCounts, matched, matchedCounts, detectors, log, totalRows, done, column);
        done := done + {column};
      }
      findings := map at <- matchedCounts | matchedCounts[at] > 0 ::
        Finding(matchedCounts[at], if (at.0, at.1) in observedCounts then observedCounts[(at.0, at.1)]
                else matchedCounts[at]);
      assert done == topLevelColumns;
      AllDescribed(findings, observedCounts, matchedCounts, detectors, log, totalRows, done);
    }
  }

  // ---- what a finished scan reports ------------------------------------------------------------

  datatype Finding = Finding(matched: nat, observed: nat)

  ghost function Claimed(leaves: seq<Leaf>, rows: nat, column: string): nat {
    if Observed(leaves, column, "") > 0 then Observed(leaves, column, "") else rows
  }

  ghost predicate NameMatches(d: Detectors, column: string, key: string) {
    key in d.nameKeys && d.names(key, column)
  }

  ghost function FinalMatched(d: Detectors, leaves: seq<Leaf>, rows: nat, columns: set<string>, c: string, p: string,
                              k: string): nat {
    if p == "" && c in columns && NameMatches(d, c, k) then Claimed(leaves, rows, c) else Matched(d, leaves, c, p, k)
  }

  ghost function FinalObserved(d: Detectors, leaves: seq<Leaf>, rows: nat, columns: set<string>, c: string,
                               p: string): nat {
    if p == "" && c in columns && (exists k <- d.nameKeys :: NameMatches(d, c, k)) then Claimed(leaves, rows, c)
    else Observed(leaves, c, p)
  }

  /** The findings are exactly the keys that matched, each with its counts. */
  ghost predicate Describes(findings: map<(string, string, string), Finding>, d: Detectors, leaves: seq<Leaf>,
                            rows: nat, columns: set<string>) {
    forall c, p, k ::
      && ((c, p, k) in findings <==> FinalMatched(d, leaves, rows, columns, c, p, k) > 0)
      && ((c, p, k) in findings ==>
            findings[(c, p, k)] == Finding(FinalMatched(d, leaves, rows, columns, c, p, k),
                                           FinalObserved(d, leaves, rows, columns, c, p)))
  }

  ghost predicate ColumnMarked(observed: map<(string, string), nat>, observed': map<(string, string), nat>,
                               matched: map<(string, string, string), nat>,
                                 matched': map<(string, string, string), nat>,
                               d: Detectors, column: string, rows: nat, n: nat)
    requires n <= |d.nameKeys|
  {
    var claimed := if (column, "") in observed then observed[(column, "")] else rows;
    && observed' == (if exists i :: 0 <= i < n && d.names(d.nameKeys[i], column) then observed[(column, "") := claimed]
                     else observed)
    && forall c, p, k ::
         Lookup(matched', (c, p, k)) ==
           if c == column && p == "" && k in d.nameKeys[..n] && d.names(k, column) then claimed
              else Lookup(matched, (c, p, k))
  }

  lemma MarkStep(observed: map<(string, string), nat>, observed': map<(string, string), nat>,
                 matched: map<(string, string, string), nat>, matched': map<(string, string, string), nat>,
                 d: Detectors, column: string, rows: nat, n: nat)
    requires n < |d.nameKeys| && ColumnMarked(observed, observed', matched, matched', d, column, rows, n)
    ensures var key := d.nameKeys[n];
            var claimed := if (column, "") in observed' then observed'[(column, "")] else rows;
            var hit := d.names(key, column);
            ColumnMarked(observed, if hit then observed'[(column, "") := claimed] else observed',
                         matched, if hit then matched'[(column, "", key) := claimed]
                           else matched', d, column, rows, n + 1)
  {
    assert d.nameKeys[..n + 1] == d.nameKeys[..n] + [d.nameKeys[n]];
  }

  /** The columns in `done` have been marked. */
  ghost predicate AllMarked(observed: map<(string, string), nat>, matched: map<(string, string, string), nat>,
                            d: Detectors, leaves: seq<Leaf>, rows: nat, done: set<string>)
  {
    && (forall c, p, k :: Lookup(matched, (c, p, k)) == FinalMatched(d, leaves, rows, done, c, p, k))
    && (forall c, p :: Lookup(observed, (c, p)) == FinalObserved(d, leaves, rows, done, c, p))
    && (forall c, p :: c !in done ==> ((c, p) in observed <==> Observed(leaves, c, p) > 0))
  }

  lemma StartsMarked(observed: map<(string, string), nat>, matched: map<(string, string, string), nat>, d: Detectors,
                     leaves: seq<Leaf>, rows: nat)
    requires ObservedFits(observed, leaves) && MatchedFits(matched, d, leaves)
    ensures AllMarked(observed, matched, d, leaves, rows, {})
  {
    hide Observed, Matched;
  }

  lemma NamesIndexed(d: Detectors, column: string)
    ensures (exists i :: 0 <= i < |d.nameKeys| && d.names(d.nameKeys[i], column)) <==>
              (exists k <- d.nameKeys :: NameMatches(d, column, k))
  {
    if i :| 0 <= i < |d.nameKeys| && d.names(d.nameKeys[i], column) {
      assert NameMatches(d, column, d.nameKeys[i]);
    }
  }

  lemma MarksGrow(observed: map<(string, string), nat>, observed': map<(string, string), nat>,
                  matched: map<(string, string, string), nat>, matched': map<(string, string, string), nat>,
                  d: Detectors, leaves: seq<Leaf>, rows: nat, done: set<string>, column: string)
    requires AllMarked(observed, matched, d, leaves, rows, done) && column !in done
    requires ColumnMarked(observed, observed', matched, matched', d, column, rows, |d.nameKeys|)
    ensures AllMarked(observed', matched', d, leaves, rows, done + {column})
  {
    hide Observed, Matched;
    assert d.nameKeys[..|d.nameKeys|] == d.nameKeys;
    assert (if (column, "") in observed then observed[(column, "")] else rows) == Claimed(leaves, rows, column) by {
      assert Lookup(observed, (column, "")) == FinalObserved(d, leaves, rows, done, column, "");
    }
    NamesIndexed(d, column);
    forall c, p, k
      ensures Lookup(matched', (c, p, k)) == FinalMatched(d, leaves, rows, done + {column}, c, p, k)
    {
      assert Lookup(matched, (c, p, k)) == FinalMatched(d, leaves, rows, done, c, p, k);
    }
    forall c, p
      ensures Lookup(observed', (c, p)) == FinalObserved(d, leaves, rows, done + {column}, c, p)
    {
      assert Lookup(observed, (c, p)) == FinalObserved(d, leaves, rows, done, c, p);
    }
  }

  lemma AllDescribed(findings: map<(string, string, string), Finding>, observed: map<(string, string), nat>,
                     matched: map<(string, string, string), nat>, d: Detectors, leaves: seq<Leaf>, rows: nat,
                       columns: set<string>)
    requires AllMarked(observed, matched, d, leaves, rows, columns)
    requires findings == map at <- matched | matched[at] > 0 ::
               Finding(matched[at], if (at.0, at.1) in observed then observed[(at.0, at.1)] else matched[at])
    ensures Describes(findings, d, leaves, rows, columns)
  {
    forall c, p, k | Lookup(matched, (c, p, k)) > 0
      ensures (c, p) in observed
    {
      FinalWithin(d, leaves, rows, columns, c, p, k);
    }
    hide Observed, Matched;
  }

  /** A finding never matches more than was observed at its path. */
  lemma FinalWithin(d: Detectors, leaves: seq<Leaf>, rows: nat, columns: set<string>, c: string, p: string, k: string)
    ensures FinalMatched(d, leaves, rows, columns, c, p, k) <= FinalObserved(d, leaves, rows, columns, c, p)
  {
    MatchedWithinObserved(d, leaves, c, p, k);
    hide Observed, Matched;
  }

  /** Every reported finding has at least one match and no more matches than observations. */
  lemma FindingsAreConsistent(findings: map<(string, string, string), Finding>, d: Detectors, leaves: seq<Leaf>,
                              rows: nat, columns: set<string>)
    requires Describes(findings, d, leaves, rows, columns)
    ensures forall at <- findings :: 0 < findings[at].matched <= findings[at].observed
  {
    forall at | at in findings
      ensures 0 < findings[at].matched <= findings[at].observed
    {
      var (c, p, k) := at;
      FinalWithin(d, leaves, rows, columns, c, p, k);
    }
  }

  // ---- a whole scan ----------------------------------------------------------------------------

  /** Feeds all rows; false when the path limit is passed. */
  method FeedAll(scanner: PrivacyScanner, rows: seq<seq<Cell>>) returns (ok: bool)
    requires scanner.Valid() && scanner.log == [] && scanner.totalRows == 0
    modifies scanner
    ensures ok <==> |Paths(AllLeaves(rows))| <= MAX_DISTINCT_PATHS
    ensures ok ==>
              && scanner.Valid() && Same(scanner.log, AllLeaves(rows)) && scanner.totalRows == |rows|
              && scanner.topLevelColumns == old(scanner.topLevelColumns) + Columns(rows)
  {
    SameReflexive([]);
    NoRows(rows);
    hide Paths, RowLeaves, Same, Columns, AllLeaves;
    for i := 0 to |rows|
      invariant scanner.Valid() && scanner.totalRows == i
      invariant scanner.topLevelColumns == old(scanner.topLevelColumns) + Columns(rows[..i])
      invariant Same(scanner.log, AllLeaves(rows[..i]))
    {
      RowStep(rows, i);
      ghost var before := scanner.log;
      ok := scanner.FeedRow(rows[i]);
      RowFed(scanner.log, before, AllLeaves(rows[..i]), RowLeaves(rows[i]), ok);
      if !ok {
        return;
      }
    }
    assert rows[..|rows|] == rows;
    SamePaths(scanner.log, AllLeaves(rows));
    scanner.WithinLimit();
    ok := true;
  }

  lemma RowFed(after: seq<Leaf>, before: seq<Leaf>, some: seq<Leaf>, more: seq<Leaf>, ok: bool)
    requires Same(before, some) && (ok ==> Same(after, before + more))
    ensures Paths(before + more) == Paths(some + more)
    ensures ok ==> Same(after, some + more)
  {
    assert multiset(before + more) == multiset(some + more);
    PathsPermute(before + more, some + more);
  }

  /** Scans all rows; None when the path limit is passed. */
  method ScanRows(d: Detectors, schema: set<string>, rows: seq<seq<Cell>>)
      returns (r: Option<map<(string, string, string), Finding>>)
    requires KeysApart(d)
    ensures r.None? <==> |set l <- AllLeaves(rows) :: (l.column, l.path)| > 10_000
    ensures r.Some? ==> Describes(r.value, d, AllLeaves(rows), |rows|, schema + Columns(rows))
  {
    var scanner := new PrivacyScanner(d, schema);
    hide Describes, Paths, Same, Columns, AllLeaves;
    var ok := FeedAll(scanner, rows);
    if !ok {
      return None;
    }
    ghost var log := scanner.log;
    var findings := scanner.Finish();
    DescribesSame(findings, d, log, AllLeaves(rows), |rows|, schema + Columns(rows));
    r := Some(findings);
  }

  /** The leaves at one path of a column, and those of them in which the detector `k` finds what it looks for. */
  ghost function SeenAt(leaves: seq<Leaf>, c: string, p: string): set<int> {
    set i | 0 <= i < |leaves| && leaves[i].column == c && leaves[i].path == p
  }

  ghost function FoundAt(d: Detectors, leaves: seq<Leaf>, c: string, p: string, k: string): set<int> {
    set i <- SeenAt(leaves, c, p) | k in d.valueKeys && d.matches(k, c, leaves[i].value)
  }

  lemma SeenIs(leaves: seq<Leaf>, c: string, p: string)
    ensures Observed(leaves, c, p) == |SeenAt(leaves, c, p)|
  {
    SelectIsWhere(leaves, (l: Leaf) => AtPath(l, c, p));
    assert Where(leaves, (l: Leaf) => AtPath(l, c, p)) == SeenAt(leaves, c, p);
    hide Select;
  }

  lemma FoundIs(d: Detectors, leaves: seq<Leaf>, c: string, p: string, k: string)
    ensures Matched(d, leaves, c, p, k) == |FoundAt(d, leaves, c, p, k)|
  {
    SelectIsWhere(leaves, (l: Leaf) => AtPath(l, c, p) && Hits(d, l, k));
    assert Where(leaves, (l: Leaf) => AtPath(l, c, p) && Hits(d, l, k)) == FoundAt(d, leaves, c, p, k);
    hide Select;
  }

  /**
   What the report says of a column, a path and a detector, in numbers of leaves. A detector of values reports the
   leaves in which it found something, if any, out of those there. A detector of names reports at the root of every
   column whose name it knows, and claims all the values seen there, or all rows when none was.
   */
  lemma ReportExactly(findings: map<(string, string, string), Finding>, d: Detectors, leaves: seq<Leaf>, rows: nat,
                      columns: set<string>, c: string, p: string, k: string)
    requires Describes(findings, d, leaves, rows, columns)
    ensures var seen, found := |SeenAt(leaves, c, p)|, |FoundAt(d, leaves, c, p, k)|;
            var claimed := if seen > 0 then seen else rows;
            var named := p == "" && c in columns && k in d.nameKeys && d.names(k, c);
            var anyNamed := p == "" && c in columns && exists key <- d.nameKeys :: d.names(key, c);
            && ((c, p, k) in findings <==> (if named then claimed else found) > 0)
            && ((c, p, k) in findings ==>
                  findings[(c, p, k)] == Finding(if named then claimed else found, if anyNamed then claimed else seen))
  {
    SeenIs(leaves, c, p);
    SeenIs(leaves, c, "");
    FoundIs(d, leaves, c, p, k);
    assert (exists key <- d.nameKeys :: NameMatches(d, c, key)) <==> exists key <- d.nameKeys :: d.names(key, c);
    hide Observed, Matched, SeenAt, FoundAt;
  }

  lemma NoRows(rows: seq<seq<Cell>>)
    ensures Columns(rows[..0]) == {} && AllLeaves(rows[..0]) == []
  {
  }

  lemma ColumnsLast(rows: seq<seq<Cell>>, row: seq<Cell>)
    ensures Columns(rows + [row]) == Columns(rows) + set c <- row :: c.column
  {
  }

  lemma RowStep(rows: seq<seq<Cell>>, i: nat)
    requires i < |rows|
    ensures AllLeaves(rows[..i + 1]) == AllLeaves(rows[..i]) + RowLeaves(rows[i])
    ensures Columns(rows[..i + 1]) == Columns(rows[..i]) + set c <- rows[i] :: c.column
    ensures |Paths(AllLeaves(rows[..i + 1]))| <= |Paths(AllLeaves(rows))|
  {
    hide AllLeaves, Paths, Columns, RowLeaves;
    assert rows[..i + 1] == rows[..i] + [rows[i]];
    LeavesLast(rows[..i], rows[i]);
    ColumnsLast(rows[..i], rows[i]);
    assert rows == rows[..i + 1] + rows[i + 1..];
    LeavesConcat(rows[..i + 1], rows[i + 1..]);
    PathsMonotone(AllLeaves(rows[..i + 1]), AllLeaves(rows[i + 1..]));
  }

  lemma DescribesSame(findings: map<(string, string, string), Finding>, d: Detectors, a: seq<Leaf>, b: seq<Leaf>,
                      rows: nat, columns: set<string>)
    requires Same(a, b)
    ensures Describes(findings, d, a, rows, columns) <==> Describes(findings, d, b, rows, columns)
  {
    forall c, p, k
      ensures FinalMatched(d, a, rows, columns, c, p, k) == FinalMatched(d, b, rows, columns, c, p, k)
      ensures FinalObserved(d, a, rows, columns, c, p) == FinalObserved(d, b, rows, columns, c, p)
    {
      CountsPermute(d, a, b, c, p, k);
      CountsPermute(d, a, b, c, "", k);
    }
    hide FinalMatched, FinalObserved;
  }

  /** The report determines the findings. */
  lemma DescribesOne(f: map<(string, string, string), Finding>, g: map<(string, string, string), Finding>, d: Detectors,
                     leaves: seq<Leaf>, rows: nat, columns: set<string>)
    requires Describes(f, d, leaves, rows, columns) && Describes(g, d, leaves, rows, columns)
    ensures f == g
  {
    hide FinalMatched, FinalObserved;
    forall at | at in f || at in g
      ensures at in f && at in g && f[at] == g[at]
    {
      var (c, p, k) := at;
    }
  }

  /** Row order decides neither the findings nor whether the path limit is passed. */
  lemma RowOrderDoesNotMatter(a: seq<seq<Cell>>, b: seq<seq<Cell>>, d: Detectors, schema: set<string>,
                              f: map<(string, string, string), Finding>, g: map<(string, string, string), Finding>)
    requires multiset(a) == multiset(b)
    requires Describes(f, d, AllLeaves(a), |a|, schema + Columns(a))
             && Describes(g, d, AllLeaves(b), |b|, schema + Columns(b))
    ensures f == g && Paths(AllLeaves(a)) == Paths(AllLeaves(b))
  {
    LeavesPermute(a, b);
    assert |b| == |multiset(b)| == |multiset(a)| == |a|;
    SameColumns(a, b);
    assert Same(AllLeaves(a), AllLeaves(b));
    hide Same, Describes, AllLeaves, Columns, Paths;
    SamePaths(AllLeaves(a), AllLeaves(b));
    DescribesSame(g, d, AllLeaves(a), AllLeaves(b), |b|, schema + Columns(b));
    DescribesOne(f, g, d, AllLeaves(a), |a|, schema + Columns(a));
  }

  lemma SameColumns(a: seq<seq<Cell>>, b: seq<seq<Cell>>)
    requires multiset(a) == multiset(b)
    ensures Columns(a) == Columns(b)
  {
    assert forall r :: r in a <==> r in multiset(a);
    assert forall r :: r in b <==> r in multiset(b);
  }

  lemma PathsAfter(before: seq<Leaf>, base: seq<Leaf>, some: seq<Leaf>, more: seq<Leaf>)
    requires Same(before, base + some)
    ensures Paths(before + more) == Paths(base + (some + more))
  {
    SameReflexive(before + more);
    SameExtend(before + more, before, base, some, more);
    hide Same;
    SamePaths(before + more, base + (some + more));
  }
}
