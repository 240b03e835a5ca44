/**
 Versioned detector rules of one tenant: append-only revisions and the config version that names each state of them.
 UUIDs are strings; a fresh one is a parameter, and a clash with an existing one is refused by the primary key.
 */
module DetectorRules {
  import opened Wrappers
  import opened Ordering

  const MAX_ENABLED_RULES := 100

  datatype Category = StandardData | BasicPersonal | SensitivePersonal | ConfidentialBusiness
  datatype Kind = Builtin(builtinCode: string) | ColumnName | ValuePattern
  datatype MatchMode = Full | Search
  datatype Body = Body(category: Category, enabled: bool, matchMode: MatchMode, caseSensitive: bool,
                       columns: seq<string>)
  datatype Rule = Rule(id: string, revision: nat, code: string, kind: Kind, pattern: Option<string>, body: Body)

  /** One tenant's rows, oldest first, and its config version. */
  datatype Book = Book(version: nat, rows: seq<Rule>)

  datatype Creation = Creation(code: string, onColumnNames: bool, pattern: string, body: Body)
  datatype Revision = Revision(expectedRevision: nat, pattern: Option<string>, body: Body)
  datatype Refusal = NotFound | CodeConflict | LimitExceeded | RevisionConflict | InvalidRule | IdTaken

  /** A pin: the rules a scan must use, in rule-id order, with the config version they were read at. */
  datatype Pinned = Pinned(rules: seq<Rule>, configVersion: nat)

  // ---- queries ---------------------------------------------------------------------------------

  predicate IsLatest(rows: seq<Rule>, r: Rule) {
    forall q <- rows :: q.id == r.id ==> q.revision <= r.revision
  }

  /** The latest revision of every rule, where enabled. */
  function LatestEnabled(rows: seq<Rule>): set<Rule> {
    set r <- rows | IsLatest(rows, r) && r.body.enabled
  }

  /** ORDER BY revision DESC LIMIT 1 over the rows of one rule. */
  function LatestOf(rows: seq<Rule>, id: string): Option<Rule> {
    if |rows| == 0 then None
    else
      var best := LatestOf(rows[..|rows| - 1], id);
      var last := rows[|rows| - 1];
      if last.id == id && (best.None? || best.value.revision < last.revision) then Some(last) else best
  }

  predicate RuleLeq(a: Rule, b: Rule) {
    Below(a.id, b.id)
  }

  function Pin(rules: seq<Rule>, version: nat): Pinned {
    Pinned(Sort(rules, RuleLeq), version)
  }

  /** The rows of `rows` that are in `wanted`, in table order. */
  function Select(rows: seq<Rule>, wanted: set<Rule>): seq<Rule> {
    if |rows| == 0 then []
    else (if rows[0] in wanted then [rows[0]] else []) + Select(rows[1..], wanted)
  }

  /** One statement: the latest enabled rules together with the version they belong to. */
  function Load(b: Book): Pinned {
    Pin(Select(b.rows, LatestEnabled(b.rows)), b.version)
  }

  // ---- transactions ----------------------------------------------------------------------------

  const BUILTINS: seq<(string, Category)> := [
    ("EMAIL", BasicPersonal), ("PHONE", BasicPersonal), ("CARD", ConfidentialBusiness),
    ("SSN", SensitivePersonal), ("VN_ID", SensitivePersonal), ("PERSON_NAME", BasicPersonal),
    ("ADDRESS", BasicPersonal), ("BANK_ACCOUNT", ConfidentialBusiness), ("SECRET", ConfidentialBusiness)]

  /** uuid5 of the code; the tenant part of the name is implied by the book the row sits in. */
  function BuiltinRule(code: string, category: Category): Rule {
    Rule(code, 1, code, Builtin(code), None, Body(category, true, Full, true, []))
  }

  function SeedBook(): Book {
    Book(1, seq(|BUILTINS|, i requires 0 <= i < |BUILTINS| => BuiltinRule(BUILTINS[i].0, BUILTINS[i].1)))
  }

  function CreateRule(b: Book, id: string, p: Creation): Result<Book, Refusal> {
    if exists r <- b.rows :: r.code == p.code then Failure(CodeConflict)
    else if p.body.enabled && |LatestEnabled(b.rows)| >= MAX_ENABLED_RULES then Failure(LimitExceeded)
    else if exists r <- b.rows :: r.id == id then Failure(IdTaken)
    else
      var kind := if p.onColumnNames then ColumnName else ValuePattern;
      Success(Book(b.version + 1, b.rows + [Rule(id, 1, p.code, kind, Some(p.pattern), p.body)]))
  }

  function UpdateRule(b: Book, id: string, p: Revision): Result<Book, Refusal> {
    match LatestOf(b.rows, id)
    case None => Failure(NotFound)
    case Some(previous) =>
      if previous.revision != p.expectedRevision then Failure(RevisionConflict)
      else if previous.kind.Builtin? != p.pattern.None? then Failure(InvalidRule)
      else if p.body.enabled && !previous.body.enabled && |LatestEnabled(b.rows)| >= MAX_ENABLED_RULES then
        Failure(LimitExceeded)
      else
        Success(Book(b.version + 1,
                     b.rows + [Rule(id, previous.revision + 1, previous.code, previous.kind, p.pattern, p.body)]))
  }

  // ---- what every book keeps -------------------------------------------------------------------

  ghost predicate AppendOnly(rows: seq<Rule>) {
    && (forall r <- rows :: r.revision >= 1)
    && (forall i, j :: 0 <= i < j < |rows| && rows[i].id == rows[j].id ==> rows[i].revision < rows[j].revision)
    && (forall j :: 0 <= j < |rows| && rows[j].revision > 1 ==>
          exists i :: 0 <= i < j && rows[i].id == rows[j].id && rows[i].revision == rows[j].revision - 1)
  }

  /** A code belongs to one rule for ever; the kind of a rule never changes; patterns fit the kind. */
  ghost predicate Identity(rows: seq<Rule>) {
    && (forall p <- rows, q <- rows :: p.code == q.code <==> p.id == q.id)
    && (forall p <- rows, q <- rows :: p.id == q.id ==> p.kind == q.kind)
    && (forall r <- rows :: r.kind.Builtin? <==> r.pattern.None?)
  }

  ghost predicate WellFormed(b: Book) {
    && b.version >= 1
    && AppendOnly(b.rows)
    && Identity(b.rows)
    && |LatestEnabled(b.rows)| <= MAX_ENABLED_RULES
  }

  lemma {:induction false} LatestOfIsLatest(rows: seq<Rule>, id: string)
    ensures LatestOf(rows, id).None? <==> forall r <- rows :: r.id != id
    ensures LatestOf(rows, id).Some? ==>
              var r := LatestOf(rows, id).value; r in rows && r.id == id && IsLatest(rows, r)
  {
    if |rows| > 0 {
      var front := rows[..|rows| - 1];
      LatestOfIsLatest(front, id);
      assert rows == front + [rows[|rows| - 1]];
    }
  }

  lemma BuiltinCodesDistinct()
    ensures forall i, j :: 0 <= i < j < |BUILTINS| ==> BUILTINS[i].0 != BUILTINS[j].0
  {
    var lengths := [5, 5, 4, 3, 5, 11, 7, 12, 6];
    assert forall i :: 0 <= i < |BUILTINS| ==> |BUILTINS[i].0| == lengths[i];
    assert BUILTINS[0].0[0] == 'E' && BUILTINS[1].0[0] == 'P' && BUILTINS[4].0[0] == 'V';
  }

  lemma FirstRevisionsWellFormed(rows: seq<Rule>)
    requires forall i, j :: 0 <= i < j < |rows| ==> rows[i].id != rows[j].id
    requires forall r <- rows :: r.revision == 1 && r.code == r.id && r.kind == Builtin(r.id) && r.pattern == None
    requires |rows| <= MAX_ENABLED_RULES
    ensures AppendOnly(rows) && Identity(rows) && |LatestEnabled(rows)| <= MAX_ENABLED_RULES
  {
    SetOfSeqBound(rows);
    CardinalityMonotone(LatestEnabled(rows), set r <- rows);
  }

  lemma SeedWellFormed()
    ensures WellFormed(SeedBook())
  {
    BuiltinCodesDistinct();
    FirstRevisionsWellFormed(SeedBook().rows);
  }

  lemma {:induction false} SetOfSeqBound<T>(s: seq<T>)
    ensures |(set x <- s)| <= |s|
  {
    if |s| == 0 {
      assert (set x <- s) == {};
    } else {
      SetOfSeqBound(s[1..]);
      assert (set x <- s) == (set x <- s[1..]) + {s[0]};
    }
  }

  lemma {:induction false} CardinalityMonotone<T>(a: set<T>, b: set<T>)
    requires a <= b
    ensures |a| <= |b|
  {
    if a != {} {
      var x :| x in a;
      CardinalityMonotone(a - {x}, b - {x});
    }
  }

  /** After a later revision of rule `r.id`, the latest rows are `r` and the old latest rows of the other rules. */
  lemma AppendLatest(rows: seq<Rule>, r: Rule)
    requires AppendOnly(rows + [r])
    ensures forall q <- rows + [r] :: IsLatest(rows + [r], q) <==>
              q == r || (q in rows && IsLatest(rows, q) && q.id != r.id)
  {
    var grown := rows + [r];
    assert forall i :: 0 <= i < |rows| && rows[i].id == r.id ==> grown[i].revision < grown[|rows|].revision;
    assert forall q :: q in grown <==> q in rows || q == r;
  }

  /** Adding a row replaces its own rule in the enabled set and leaves every other rule alone. */
  lemma AppendLatestEnabled(rows: seq<Rule>, r: Rule, old_: set<Rule>)
    requires AppendOnly(rows + [r])
    requires old_ == set q <- LatestEnabled(rows) | q.id == r.id
    ensures LatestEnabled(rows + [r]) == LatestEnabled(rows) - old_ + (if r.body.enabled then {r} else {})
  {
    AppendLatest(rows, r);
    hide IsLatest, AppendOnly;
    assert forall q :: q in rows + [r] <==> q in rows || q == r;
    NotAmongEarlier(rows, r);
  }

  lemma NotAmongEarlier(rows: seq<Rule>, r: Rule)
    requires AppendOnly(rows + [r])
    ensures r !in rows
  {
    var grown := rows + [r];
    forall i | 0 <= i < |rows|
      ensures rows[i] != r
    {
      assert grown[i].id == grown[|rows|].id ==> grown[i].revision < grown[|rows|].revision;
    }
  }

  lemma CreateKeepsAppendOnly(rows: seq<Rule>, r: Rule)
    requires AppendOnly(rows) && r.revision == 1
    requires forall q <- rows :: q.id != r.id
    ensures AppendOnly(rows + [r])
  {
    var grown := rows + [r];
    forall j | 0 <= j < |grown| && grown[j].revision > 1
      ensures exists i :: 0 <= i < j && grown[i].id == grown[j].id && grown[i].revision == grown[j].revision - 1
    {
      var i :| 0 <= i < j && rows[i].id == rows[j].id && rows[i].revision == rows[j].revision - 1;
      assert grown[i] == rows[i];
    }
  }

  lemma CreateKeepsBound(rows: seq<Rule>, r: Rule)
    requires AppendOnly(rows + [r]) && |LatestEnabled(rows)| <= MAX_ENABLED_RULES
    requires r.body.enabled ==> |LatestEnabled(rows)| < MAX_ENABLED_RULES
    requires forall q <- rows :: q.id != r.id
    ensures |LatestEnabled(rows + [r])| <= MAX_ENABLED_RULES
  {
    assert (set q <- LatestEnabled(rows) | q.id == r.id) == {};
    AppendLatestEnabled(rows, r, {});
  }

  lemma IdentityAppend(rows: seq<Rule>, r: Rule)
    requires Identity(rows) && (r.kind.Builtin? <==> r.pattern.None?)
    requires forall q <- rows :: (q.id == r.id <==> q.code == r.code) && (q.id == r.id ==> q.kind == r.kind)
    ensures Identity(rows + [r])
  {
  }

  lemma CreateKeeps(b: Book, id: string, p: Creation)
    requires WellFormed(b) && CreateRule(b, id, p).Success?
    ensures WellFormed(CreateRule(b, id, p).value)
    ensures CreateRule(b, id, p).value.version == b.version + 1
    ensures var rows := CreateRule(b, id, p).value.rows;
            && |rows| == |b.rows| + 1 && rows[..|b.rows|] == b.rows
            && var r := rows[|b.rows|];
               && r.id == id && r.revision == 1 && r.code == p.code && r.body == p.body
               && forall q <- b.rows :: q.id != id && q.code != p.code
  {
    var grown := CreateRule(b, id, p).value.rows;
    var r := grown[|b.rows|];
    assert grown == b.rows + [r];
    CreateKeepsAppendOnly(b.rows, r);
    CreateKeepsBound(b.rows, r);
    IdentityAppend(b.rows, r);
  }

  lemma UpdateKeepsAppendOnly(rows: seq<Rule>, previous: Rule, r: Rule)
    requires AppendOnly(rows) && previous in rows && IsLatest(rows, previous)
    requires r.id == previous.id && r.revision == previous.revision + 1
    ensures AppendOnly(rows + [r])
  {
    var grown := rows + [r];
    forall i, j | 0 <= i < j < |grown| && grown[i].id == grown[j].id
      ensures grown[i].revision < grown[j].revision
    {
      assert grown[i] in rows;
    }
    forall j | 0 <= j < |grown| && grown[j].revision > 1
      ensures exists i :: 0 <= i < j && grown[i].id == grown[j].id && grown[i].revision == grown[j].revision - 1
    {
      if j < |rows| {
        var i :| 0 <= i < j && rows[i].id == rows[j].id && rows[i].revision == rows[j].revision - 1;
        assert grown[i] == rows[i];
      } else {
        var i :| 0 <= i < |rows| && rows[i] == previous;
        assert grown[i] == previous;
      }
    }
  }

  lemma UpdateKeepsBound(rows: seq<Rule>, previous: Rule, r: Rule)
    requires AppendOnly(rows + [r]) && previous in rows && IsLatest(rows, previous) && r.id == previous.id
    requires AppendOnly(rows)
    requires |LatestEnabled(rows)| <= MAX_ENABLED_RULES
    requires r.body.enabled && !previous.body.enabled ==> |LatestEnabled(rows)| < MAX_ENABLED_RULES
    ensures |LatestEnabled(rows + [r])| <= MAX_ENABLED_RULES
  {
    var before := LatestEnabled(rows);
    var mine := set q <- before | q.id == r.id;
    AppendLatestEnabled(rows, r, mine);
    if previous.body.enabled {
      assert previous in mine;
      CardinalityMonotone(before - mine, before - {previous});
    } else {
      CardinalityMonotone(before - mine, before);
    }
  }

  lemma UpdateKeeps(b: Book, id: string, p: Revision)
    requires WellFormed(b) && UpdateRule(b, id, p).Success?
    ensures WellFormed(UpdateRule(b, id, p).value)
    ensures UpdateRule(b, id, p).value.version == b.version + 1
    ensures var rows := UpdateRule(b, id, p).value.rows;
            && |rows| == |b.rows| + 1 && rows[..|b.rows|] == b.rows
            && var r := rows[|b.rows|];
               && r.id == id && r.revision == p.expectedRevision + 1 && r.body == p.body
               && (exists q <- b.rows ::
                   q.id == id && q.revision == p.expectedRevision && q.code == r.code && q.kind == r.kind)
               && (forall q <- b.rows :: q.id == id ==> q.revision <= p.expectedRevision)
  {
    LatestOfIsLatest(b.rows, id);
    var previous := LatestOf(b.rows, id).value;
    var grown := UpdateRule(b, id, p).value.rows;
    var r := grown[|b.rows|];
    assert grown == b.rows + [r];
    UpdateKeepsAppendOnly(b.rows, previous, r);
    UpdateKeepsBound(b.rows, previous, r);
    IdentityAppend(b.rows, r);
  }

  // ---- theorems --------------------------------------------------------------------------------

  /** Revisions are dense: below every stored revision, all the earlier ones are stored, each exactly once. */
  lemma {:induction false} RevisionsDense(rows: seq<Rule>, j: nat, k: nat)
    requires AppendOnly(rows) && j < |rows| && 1 <= k <= rows[j].revision
    ensures exists i :: 0 <= i <= j && rows[i].id == rows[j].id && rows[i].revision == k
    ensures forall a, b | 0 <= a < |rows| && 0 <= b < |rows| && rows[a].id == rows[b].id ::
              rows[a].revision == rows[b].revision ==> a == b
    decreases j
  {
    if rows[j].revision > k {
      var i :| 0 <= i < j && rows[i].id == rows[j].id && rows[i].revision == rows[j].revision - 1;
      RevisionsDense(rows, i, k);
    }
    forall a, b | 0 <= a < |rows| && 0 <= b < |rows| && rows[a].id == rows[b].id && rows[a].revision == rows[b].revision
      ensures a == b
    {
      assert a < b || b < a || a == b;
    }
  }

  lemma RuleOrder()
    ensures Orders(RuleLeq)
  {
    forall x: Rule, y: Rule
      ensures RuleLeq(x, y) || RuleLeq(y, x)
    {
      BelowTotal(x.id, y.id);
    }
    forall x: Rule, y: Rule, z: Rule | RuleLeq(x, y) && RuleLeq(y, z)
      ensures RuleLeq(x, z)
    {
      BelowTransitive(x.id, y.id, z.id);
    }
  }

  lemma {:induction false} SelectElements(rows: seq<Rule>, wanted: set<Rule>)
    requires forall i, j :: 0 <= i < j < |rows| ==> rows[i] != rows[j]
    ensures multiset(Select(rows, wanted)) == multiset(wanted * (set r <- rows))
  {
    if |rows| > 0 {
      SelectElements(rows[1..], wanted);
      var rest := wanted * (set r <- rows[1..]);
      assert rows[0] !in rows[1..];
      assert (set r <- rows) == (set r <- rows[1..]) + {rows[0]};
      var all := wanted * (set r <- rows);
      assert all == if rows[0] in wanted then rest + {rows[0]} else rest;
    }
  }

  /**
   Pinning is order-free and complete: in whatever order the query returns the latest enabled rules, each one once,
   the pin is the same, and it holds exactly those rules in strictly increasing rule-id order.
   */
  lemma PinIsOrderFree(b: Book, rows: seq<Rule>)
    requires WellFormed(b) && multiset(rows) == multiset(LatestEnabled(b.rows))
    ensures Pin(rows, b.version) == Load(b)
    ensures multiset(Load(b).rules) == multiset(LatestEnabled(b.rows))
    ensures |Load(b).rules| <= MAX_ENABLED_RULES
    ensures forall i, j :: 0 <= i < j < |Load(b).rules| ==>
              Below(Load(b).rules[i].id, Load(b).rules[j].id) && Load(b).rules[i].id != Load(b).rules[j].id
  {
    var wanted := LatestEnabled(b.rows);
    assert forall i, j :: 0 <= i < j < |b.rows| ==> b.rows[i] != b.rows[j];
    SelectElements(b.rows, wanted);
    assert wanted * (set r <- b.rows) == wanted;
    var selected := Select(b.rows, wanted);
    assert multiset(selected) == multiset(wanted);
    RuleOrder();
    forall x, y | x in multiset(selected) && y in multiset(selected) && RuleLeq(x, y) && RuleLeq(y, x)
      ensures x == y
    {
      BelowAntisymmetric(x.id, y.id);
      SameRevisionSameRow(b.rows, x, y);
    }
    SortCanonical(selected, rows, RuleLeq);
    SortSorts(selected, RuleLeq);
    StrictlySorted(b, Load(b).rules);
  }

  lemma LoadIsLatestEnabled(b: Book)
    requires WellFormed(b)
    ensures Load(b).configVersion == b.version
    ensures multiset(Load(b).rules) == multiset(LatestEnabled(b.rows)) && |Load(b).rules| <= MAX_ENABLED_RULES
    ensures forall i, j :: 0 <= i < j < |Load(b).rules| ==>
              Below(Load(b).rules[i].id, Load(b).rules[j].id) && Load(b).rules[i].id != Load(b).rules[j].id
  {
    assert forall i, j :: 0 <= i < j < |b.rows| ==> b.rows[i] != b.rows[j];
    SelectElements(b.rows, LatestEnabled(b.rows));
    assert LatestEnabled(b.rows) * (set r <- b.rows) == LatestEnabled(b.rows);
    PinIsOrderFree(b, Select(b.rows, LatestEnabled(b.rows)));
  }

  lemma SameRevisionSameRow(rows: seq<Rule>, x: Rule, y: Rule)
    requires AppendOnly(rows) && x in LatestEnabled(rows) && y in LatestEnabled(rows) && x.id == y.id
    ensures x == y
  {
    assert x.revision == y.revision;
    var i :| 0 <= i < |rows| && rows[i] == x;
    var j :| 0 <= j < |rows| && rows[j] == y;
    assert i < j || j < i || i == j;
  }

  lemma StrictlySorted(b: Book, rules: seq<Rule>)
    requires WellFormed(b) && multiset(rules) == multiset(LatestEnabled(b.rows)) && Sorted(rules, RuleLeq)
    ensures |rules| <= MAX_ENABLED_RULES
    ensures forall i, j :: 0 <= i < j < |rules| ==> Below(rules[i].id, rules[j].id) && rules[i].id != rules[j].id
  {
    assert |rules| == |multiset(rules)| == |LatestEnabled(b.rows)|;
    forall i, j | 0 <= i < j < |rules|
      ensures Below(rules[i].id, rules[j].id) && rules[i].id != rules[j].id
    {
      assert RuleLeq(rules[i], rules[j]);
      assert rules[i] in multiset(rules) && rules[j] in multiset(rules);
      if rules[i].id == rules[j].id {
        SameRevisionSameRow(b.rows, rules[i], rules[j]);
        OnceInSet(rules, LatestEnabled(b.rows), i, j);
      }
    }
  }

  lemma OnceInSet<T>(s: seq<T>, elements: set<T>, i: nat, j: nat)
    requires multiset(s) == multiset(elements) && i < j < |s|
    ensures s[i] != s[j]
  {
    if s[i] == s[j] {
      TwicePresent(s, i, j);
    }
  }

  lemma TwicePresent<T>(s: seq<T>, i: nat, j: nat)
    requires i < j < |s| && s[i] == s[j]
    ensures multiset(s)[s[i]] >= 2
  {
    assert s == s[..i] + [s[i]] + s[i + 1..j] + [s[j]] + s[j + 1..];
  }
}
