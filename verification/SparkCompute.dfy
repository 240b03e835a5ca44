/**
 Counting records into buckets. Conditions have SQL's three values; a CASE WHEN counts a row only when its condition is
 true. Rows and compiled conditions are given; which rows a condition holds for is not modelled.
 */
module SparkCompute {
  import opened Wrappers
  import opened ScoringModels
  import opened Totals
  import opened RuleScoring

  datatype Sql = Yes | No | Null

  function Not(a: Sql): Sql {
    match a case Yes => No case No => Yes case Null => Null
  }

  function And(a: Sql, b: Sql): Sql {
    if a.No? || b.No? then No else if a.Yes? && b.Yes? then Yes else Null
  }

  /** What the compiled expressions of one rule say of one row. */
  datatype Flags = Flags(outOfScope: Sql, missing: Sql, miscast: Sql, failed: Sql)

  predicate IsNotApplicable(f: Flags) { f.outOfScope.Yes? }
  predicate IsMissing(f: Flags) { And(Not(f.outOfScope), f.missing).Yes? }
  predicate IsMiscast(f: Flags) { And(And(Not(f.outOfScope), Not(f.missing)), f.miscast).Yes? }
  predicate IsFailed(f: Flags) { And(And(And(Not(f.outOfScope), Not(f.missing)), Not(f.miscast)), f.failed).Yes? }
  predicate IsPassed(f: Flags) { And(And(And(Not(f.outOfScope), Not(f.missing)), Not(f.miscast)), Not(f.failed)).Yes? }

  function Count(rows: seq<Flags>, p: Flags -> bool): nat {
    if |rows| == 0 then 0 else Count(rows[..|rows| - 1], p) + (if p(rows[|rows| - 1]) then 1 else 0)
  }

  /** The five sums and their total. */
  function CountsOf(rows: seq<Flags>): Counts {
    var passed, failed := Count(rows, IsPassed), Count(rows, IsFailed);
    var missing, miscast, na := Count(rows, IsMissing), Count(rows, IsMiscast), Count(rows, IsNotApplicable);
    Counts(passed, failed, missing, miscast, na, passed + failed + missing + miscast + na)
  }

  /** The first condition in scope order that is not plainly false is plainly true, or none is. */
  predicate Decided(f: Flags) {
    || f.outOfScope.Yes?
    || (f.outOfScope.No? && (f.missing.Yes? || (f.missing.No?
                                                && (f.miscast.Yes? || (f.miscast.No? && !f.failed.Null?)))))
  }

  function In(f: Flags): nat {
    (if IsPassed(f) then 1 else 0) + (if IsFailed(f) then 1 else 0) + (if IsMissing(f) then 1 else 0)
    + (if IsMiscast(f) then 1 else 0) + (if IsNotApplicable(f) then 1 else 0)
  }

  /** A row lands in one bucket when its conditions decide it, and in none otherwise. */
  lemma OneBucket(f: Flags)
    ensures In(f) == if Decided(f) then 1 else 0
  {
  }

  lemma CountLast(rows: seq<Flags>, f: Flags, p: Flags -> bool)
    ensures Count(rows + [f], p) == Count(rows, p) + (if p(f) then 1 else 0)
  {
    assert (rows + [f])[..|rows|] == rows;
  }

  lemma CountsLast(rows: seq<Flags>, f: Flags)
    ensures CountsOf(rows + [f]).total == CountsOf(rows).total + In(f)
  {
    CountLast(rows, f, IsPassed);
    CountLast(rows, f, IsFailed);
    CountLast(rows, f, IsMissing);
    CountLast(rows, f, IsMiscast);
    CountLast(rows, f, IsNotApplicable);
    hide Count, IsPassed, IsFailed, IsMissing, IsMiscast, IsNotApplicable;
  }

  lemma NothingCounted()
    ensures CountsOf([]).total == 0 && Count([], Decided) == 0
  {
  }

  lemma TotalIsSum(rows: seq<Flags>)
    ensures PartitionHolds(CountsOf(rows))
  {
    hide Count;
  }

  /** The buckets partition the decided rows: the observed total counts exactly those. */
  lemma {:induction false} BucketsPartition(rows: seq<Flags>)
    ensures CountsOf(rows).total == Count(rows, Decided) <= |rows|
    ensures CountsOf(rows).total == |rows| <==> forall f <- rows :: Decided(f)
    ensures PartitionHolds(CountsOf(rows))
  {
    hide CountsOf, Count, In, Decided, PartitionHolds;
    TotalIsSum(rows);
    if |rows| > 0 {
      var n := |rows| - 1;
      BucketsPartition(rows[..n]);
      assert rows == rows[..n] + [rows[n]];
      CountsLast(rows[..n], rows[n]);
      CountLast(rows[..n], rows[n], Decided);
      OneBucket(rows[n]);
    } else {
      NothingCounted();
    }
  }

  /**
   The conditions in scope order: the first that holds of a row decides its bucket, and none may be unknown before it.
   */
  predicate Excluded(f: Flags) { f.outOfScope == Yes }
  predicate Lacking(f: Flags) { f.outOfScope == No && f.missing == Yes }
  predicate Malformed(f: Flags) { f.outOfScope == No && f.missing == No && f.miscast == Yes }
  predicate Violating(f: Flags) { f.outOfScope == No && f.missing == No && f.miscast == No && f.failed == Yes }
  predicate Satisfying(f: Flags) { f.outOfScope == No && f.missing == No && f.miscast == No && f.failed == No }

  lemma {:induction false} CountIsWhere(rows: seq<Flags>, p: Flags -> bool, q: Flags -> bool)
    requires forall f :: p(f) <==> q(f)
    ensures Count(rows, p) == |Where(rows, q)|
  {
    if |rows| == 0 {
      assert Where(rows, q) == {};
    } else {
      var front, f := rows[..|rows| - 1], rows[|rows| - 1];
      assert rows == front + [f];
      CountIsWhere(front, p, q);
      WhereLast(front, f, q);
      hide Where;
    }
  }

  /** Each count is the number of rows that its own conditions, and no others before them, pick out. */
  lemma BucketsExactly(rows: seq<Flags>)
    ensures var c := CountsOf(rows);
            && c.notApplicable == |Where(rows, Excluded)| && c.missing == |Where(rows, Lacking)|
            && c.miscast == |Where(rows, Malformed)| && c.failed == |Where(rows, Violating)|
            && c.passed == |Where(rows, Satisfying)|
            && c.total == c.passed + c.failed + c.missing + c.miscast + c.notApplicable
  {
    CountIsWhere(rows, IsNotApplicable, Excluded);
    CountIsWhere(rows, IsMissing, Lacking);
    CountIsWhere(rows, IsMiscast, Malformed);
    CountIsWhere(rows, IsFailed, Violating);
    CountIsWhere(rows, IsPassed, Satisfying);
    hide Where, Count;
  }

  /** One pass over the rows, five running sums. */
  method Aggregate(rows: seq<Flags>) returns (c: Counts)
    ensures c == CountsOf(rows)
  {
    var passed, failed, missing, miscast, na := 0, 0, 0, 0, 0;
    for i := 0 to |rows|
      invariant passed == Count(rows[..i], IsPassed) && failed == Count(rows[..i], IsFailed)
      invariant missing == Count(rows[..i], IsMissing) && miscast == Count(rows[..i], IsMiscast)
      invariant na == Count(rows[..i], IsNotApplicable)
    {
      var f := rows[i];
      assert rows[..i + 1][..i] == rows[..i];
      if IsNotApplicable(f) { na := na + 1; }
      if IsMissing(f) { missing := missing + 1; }
      if IsMiscast(f) { miscast := miscast + 1; }
      if IsFailed(f) { failed := failed + 1; }
      if IsPassed(f) { passed := passed + 1; }
    }
    assert rows[..|rows|] == rows;
    c := Counts(passed, failed, missing, miscast, na, passed + failed + missing + miscast + na);
  }

  // ---- a run over all rules --------------------------------------------------------------------

  /** What one rule reports: its counts when it compiled, a technical failure when it did not. */
  function OutputOf(id: string, compiled: Option<seq<Flags>>): Output {
    match compiled
    case None => Output(id, Counts(0, 0, 0, 0, 0, 0), FailedToMeasure)
    case Some(rows) =>
      var c := CountsOf(rows);
      Output(id, c, if c.total == 0 then NotApplicable else Measured)
  }

  /** Every rule is reported, in order, and on its own: a rule that does not compile takes nothing from the others. */
  method ExecuteRules(totalRows: nat, ids: seq<string>, compile: string -> Option<seq<Flags>>)
      returns (outputs: seq<Output>)
    ensures |outputs| == |ids|
    ensures totalRows == 0 ==> forall i :: 0 <= i < |ids| ==>
              outputs[i] == Output(ids[i], Counts(0, 0, 0, 0, 0, 0), NotMeasurable)
    ensures totalRows > 0 ==> forall i :: 0 <= i < |ids| ==> outputs[i] == OutputOf(ids[i], compile(ids[i]))
  {
    outputs := [];
    if totalRows == 0 {
      for i := 0 to |ids|
        invariant |outputs| == i
        invariant forall k :: 0 <= k < i ==> outputs[k] == Output(ids[k], Counts(0, 0, 0, 0, 0, 0), NotMeasurable)
      {
        outputs := outputs + [Output(ids[i], Counts(0, 0, 0, 0, 0, 0), NotMeasurable)];
      }
      return;
    }
    var compiled: map<string, seq<Flags>> := map[];
    var failed: map<string, Output> := map[];
    for i := 0 to |ids|
      invariant forall id <- compiled :: compile(id) == Some(compiled[id])
      invariant forall id <- failed :: compile(id) == None && failed[id] == OutputOf(id, None)
      invariant forall k :: 0 <= k < i ==> ids[k] in failed || ids[k] in compiled
    {
      match compile(ids[i])
      case None => failed := failed[ids[i] := Output(ids[i], Counts(0, 0, 0, 0, 0, 0), FailedToMeasure)];
      case Some(rows) => compiled := compiled[ids[i] := rows];
    }
    hide CountsOf;
    for i := 0 to |ids|
      invariant |outputs| == i
      invariant forall k :: 0 <= k < i ==> outputs[k] == OutputOf(ids[k], compile(ids[k]))
    {
      if ids[i] in failed {
        outputs := outputs + [failed[ids[i]]];
      } else {
        var c := Aggregate(compiled[ids[i]]);
        outputs := outputs + [Output(ids[i], c, if c.total == 0 then NotApplicable else Measured)];
      }
    }
  }

  // ---- uniqueness ------------------------------------------------------------------------------

  /** A compiled rule: its expressions, row by row. Without a scope expression every row is in scope. */
  datatype Compiled<!T> = Compiled(uniqueness: bool, scope: Option<T -> Sql>, missing: T -> Sql, miscast: T -> Sql,
                                   failed: T -> Sql)

  function Truth(b: bool): Sql { if b then Yes else No }

  /** The helper behind the compilers: no scope expression, and conditions nobody gives are never true. */
  function CompileRule<T>(missing: T -> Sql, miscast: Option<T -> Sql>, failed: Option<T -> Sql>,
                          uniqueness: bool): Compiled<T> {
    var never := (_: T) => No;
    Compiled(uniqueness, None, missing, if miscast.Some? then miscast.value
             else never, if failed.Some? then failed.value else never)
  }

  /** The cell of the rule's column, None for null. */
  type Cell = Option<string>

  predicate Missing(c: Cell, blank: string -> bool) {
    c.None? || blank(c.value)
  }

  function CompileUniqueness(blank: string -> bool): Compiled<Cell> {
    CompileRule((c: Cell) => Truth(Missing(c, blank)), None, None, true)
  }

  /** The conditions of a row with its row_number() among the rows of its value. */
  function FlagsOf<T>(rule: Compiled<T>, row: T, number: nat): Flags {
    var missing := rule.missing(row);
    Flags(if rule.scope.Some? then rule.scope.value(row) else No, missing, rule.miscast(row),
          if rule.uniqueness then And(Not(missing), Truth(number > 1)) else rule.failed(row))
  }

  function Occurrences(cells: seq<Cell>, c: Cell): nat {
    if |cells| == 0 then 0
    else Occurrences(cells[..|cells| - 1], c) + (if cells[|cells| - 1] == c then 1 else 0)
  }

  /** The rows numbered within their values in the order given; the query fixes no order. */
  function Numbered(rule: Compiled<Cell>, cells: seq<Cell>): (r: seq<Flags>)
    ensures |r| == |cells|
  {
    if |cells| == 0 then []
    else
      var n := |cells| - 1;
      Numbered(rule, cells[..n]) + [FlagsOf(rule, cells[n], Occurrences(cells[..n], cells[n]) + 1)]
  }

  function Distinct(cells: seq<Cell>, blank: string -> bool): set<Cell> {
    set c <- cells | !Missing(c, blank)
  }

  function Present(cells: seq<Cell>, blank: string -> bool): nat {
    |Select(cells, (c: Cell) => !Missing(c, blank))|
  }

  lemma {:induction false} Occurs(cells: seq<Cell>, c: Cell)
    ensures Occurrences(cells, c) > 0 <==> c in cells
  {
    if |cells| > 0 {
      Occurs(cells[..|cells| - 1], c);
      assert cells == cells[..|cells| - 1] + [cells[|cells| - 1]];
    }
  }

  lemma DistinctLast(front: seq<Cell>, c: Cell, blank: string -> bool)
    ensures |Distinct(front + [c], blank)| ==
              |Distinct(front, blank)| + (if !Missing(c, blank) && Occurrences(front, c) == 0 then 1 else 0)
  {
    Occurs(front, c);
    hide Occurrences, Missing;
    assert Distinct(front + [c], blank) == Distinct(front, blank) + (if Missing(c, blank) then {} else {c});
    if Missing(c, blank) {
      assert Distinct(front, blank) + {} == Distinct(front, blank);
    } else if c in Distinct(front, blank) {
      assert Distinct(front, blank) + {c} == Distinct(front, blank);
    }
  }

  /** What a compiled uniqueness rule says of a row: always in scope, never miscast, failed when it repeats a value. */
  lemma UniquenessFlags(c: Cell, number: nat, blank: string -> bool)
    ensures FlagsOf(CompileUniqueness(blank), c, number) ==
              Flags(No, Truth(Missing(c, blank)), No, Truth(!Missing(c, blank) && number > 1))
  {
  }

  /** One more row: it is missing, or the first of its value and passes, or a repetition and fails. */
  lemma OneMore(rows: seq<Flags>, c: Cell, before: nat, blank: string -> bool)
    ensures var k, m := CountsOf(rows), CountsOf(rows + [FlagsOf(CompileUniqueness(blank), c, before + 1)]);
            var first := !Missing(c, blank) && before == 0;
            && m.passed == k.passed + (if first then 1 else 0)
            && m.passed + m.failed == k.passed + k.failed + (if Missing(c, blank) then 0 else 1)
            && m.missing == k.missing + (if Missing(c, blank) then 1 else 0)
            && m.miscast == k.miscast && m.notApplicable == k.notApplicable
  {
    var f := FlagsOf(CompileUniqueness(blank), c, before + 1);
    UniquenessFlags(c, before + 1, blank);
    CountLast(rows, f, IsPassed);
    CountLast(rows, f, IsFailed);
    CountLast(rows, f, IsMissing);
    CountLast(rows, f, IsMiscast);
    CountLast(rows, f, IsNotApplicable);
    hide Count, FlagsOf, CompileUniqueness, Missing;
  }

  lemma {:induction false} PassedAreDistinct(cells: seq<Cell>, blank: string -> bool)
    ensures var k := CountsOf(Numbered(CompileUniqueness(blank), cells));
            && k.passed == |Distinct(cells, blank)|
            && k.passed + k.failed == Present(cells, blank)
            && k.missing == |cells| - Present(cells, blank) && k.miscast == 0 && k.notApplicable == 0
  {
    if |cells| > 0 {
      var n := |cells| - 1;
      var front, c := cells[..n], cells[n];
      var rule := CompileUniqueness(blank);
      assert cells == front + [c];
      assert Numbered(rule, cells) == Numbered(rule, front) + [FlagsOf(rule, c, Occurrences(front, c) + 1)];
      hide Numbered, CountsOf, Distinct, Occurrences, FlagsOf, CompileUniqueness, Missing;
      PassedAreDistinct(front, blank);
      DistinctLast(front, c, blank);
      SelectAppend(front, c, (d: Cell) => !Missing(d, blank));
      OneMore(Numbered(rule, front), c, Occurrences(front, c), blank);
    }
  }

  lemma PresentPermutes(a: seq<Cell>, b: seq<Cell>, blank: string -> bool)
    requires multiset(a) == multiset(b)
    ensures Present(a, blank) == Present(b, blank)
  {
    var p := (c: Cell) => !Missing(c, blank);
    SelectPermutes(a, b, p);
    assert |Select(a, p)| == |multiset(Select(a, p))| == |multiset(Select(b, p))| == |Select(b, p)|;
  }

  /** Every distinct value passes once, its repetitions fail, and the rest is missing. */
  function UniquenessCounts(cells: seq<Cell>, blank: string -> bool): Counts {
    var passed, present := |Distinct(cells, blank)|, Present(cells, blank);
    Counts(passed, present - passed, |cells| - present, 0, 0, |cells|)
  }

  lemma CountsAre(cells: seq<Cell>, blank: string -> bool)
    ensures CountsOf(Numbered(CompileUniqueness(blank), cells)) == UniquenessCounts(cells, blank)
  {
    PassedAreDistinct(cells, blank);
    hide Count, Numbered, Distinct, Present;
  }

  /**
   The query numbers the rows of a value in an order it does not fix. Whatever order the engine picks, a uniqueness rule
   passes once per distinct value and fails every repetition, so it scores the distinct values out of the values
   present, or out of all rows when missing counts.
   */
  lemma UniquenessScore(cells: seq<Cell>, ordered: seq<Cell>, blank: string -> bool, nullPolicy: string)
    requires multiset(cells) == multiset(ordered)
    requires FailsMissing(nullPolicy) || DropsMissing(nullPolicy)
    ensures var counts := CountsOf(Numbered(CompileUniqueness(blank), ordered));
            var of := if FailsMissing(nullPolicy) then |cells| else Present(cells, blank);
            && counts == UniquenessCounts(cells, blank)
            && ComputeRuleScore(counts, nullPolicy) ==
                 Some(if of == 0 then (NotMeasurable, None)
                      else (Measured, Some(Percent(|Distinct(cells, blank)|, of))))
  {
    hide CountsOf, Numbered, CompileUniqueness, Distinct, Present, ComputeRuleScore, FailsMissing, DropsMissing,
         Percent;
    SameCells(cells, ordered, blank);
    PresentPermutes(cells, ordered, blank);
    CountsAre(ordered, blank);
    ScoreOfCounts(UniquenessCounts(cells, blank), nullPolicy);
  }

  lemma SameCells(a: seq<Cell>, b: seq<Cell>, blank: string -> bool)
    requires multiset(a) == multiset(b)
    ensures |a| == |b| && Distinct(a, blank) == Distinct(b, blank)
  {
    assert forall c :: c in a <==> c in multiset(a);
    assert forall c :: c in b <==> c in multiset(b);
    assert |a| == |multiset(a)| == |b|;
  }

  lemma ScoreOfCounts(c: Counts, nullPolicy: string)
    requires c.miscast == 0 && (FailsMissing(nullPolicy) || DropsMissing(nullPolicy))
    ensures var of := if FailsMissing(nullPolicy) then c.passed + c.failed + c.missing else c.passed + c.failed;
            ComputeRuleScore(c, nullPolicy) ==
              Some(if of == 0 then (NotMeasurable, None) else (Measured, Some(Percent(c.passed, of))))
  {
    hide Percent, FailsMissing, DropsMissing;
  }
}
