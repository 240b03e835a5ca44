/** Reparsing canonical text loses nothing that array checks look at. */
module CanonicalRoundTrip {
  import opened Wrappers
  import opened Ordering
  import opened JsonValues
  import opened JsonPointer
  import opened CanonicalJson

  // ---- printing is plain printing of the canonical value ---------------------------------------

  function Plain(v: Json): seq<Token>
    decreases v
  {
    match v
    case Obj(members) => [LBrace] + Entries(PlainMembers(members)) + [RBrace]
    case Arr(items) => [LBracket] + PlainItems(items) + [RBracket]
    case _ => [Scalar(v)]
  }

  function PlainMembers(members: seq<Member>): (r: seq<Keyed<seq<Token>>>)
    ensures |r| == |members|
    decreases members
  {
    if |members| == 0 then [] else [Keyed(members[0].key, Plain(members[0].value))] + PlainMembers(members[1..])
  }

  function PlainItems(items: seq<Json>): seq<Token>
    decreases items
  {
    if |items| == 0 then []
    else if |items| == 1 then Plain(items[0])
    else Plain(items[0]) + [Comma] + PlainItems(items[1..])
  }

  function PlainKeyed(k: Keyed<Json>): Keyed<seq<Token>> {
    Keyed(k.key, Plain(k.value))
  }

  lemma MapCons<A, B>(x: A, s: seq<A>, f: A -> B)
    ensures Map([x] + s, f) == [f(x)] + Map(s, f)
  {
  }

  lemma {:induction false} PlainOfMembers(ks: seq<Keyed<Json>>)
    ensures PlainMembers(AsMembers(ks)) == Map(ks, PlainKeyed)
  {
    if |ks| > 0 {
      assert AsMembers(ks)[1..] == AsMembers(ks[1..]);
      PlainOfMembers(ks[1..]);
      assert Map(ks, PlainKeyed) == [PlainKeyed(ks[0])] + Map(ks[1..], PlainKeyed);
    }
  }

  lemma {:induction false} PrintIsPlain(v: Json)
    ensures Print(v) == Plain(Canon(v))
    decreases v
  {
    match v
    case Obj(members) =>
      PrintMembersPlain(members);
      SortMap(CanonMembers(members), PlainKeyed);
      PlainOfMembers(Sort(CanonMembers(members), KeyLeq));
    case Arr(items) => PrintItemsPlain(items);
    case _ =>
  }

  lemma {:induction false} PrintMembersPlain(members: seq<Member>)
    ensures PrintMembers(members) == Map(CanonMembers(members), PlainKeyed)
    decreases members
  {
    if |members| > 0 {
      PrintIsPlain(members[0].value);
      PrintMembersPlain(members[1..]);
      MapCons(Keyed(members[0].key, Canon(members[0].value)), CanonMembers(members[1..]), PlainKeyed);
    }
  }

  lemma {:induction false} PrintItemsPlain(items: seq<Json>)
    ensures PrintItems(items) == PlainItems(CanonItems(items))
    decreases items
  {
    if |items| > 0 {
      PrintIsPlain(items[0]);
      PrintItemsPlain(items[1..]);
      assert CanonItems(items)[1..] == CanonItems(items[1..]);
    }
  }

  // ---- parsing undoes plain printing -----------------------------------------------------------

  lemma PlainStarts(v: Json)
    ensures |Plain(v)| > 0 && (Plain(v)[0].Scalar? || Plain(v)[0].LBrace? || Plain(v)[0].LBracket?)
  {
  }

  lemma {:induction false} ParsePlain(v: Json, rest: seq<Token>)
    requires UniqueKeys(v)
    ensures ParseValue(Plain(v) + rest) == Some((v, rest))
    decreases v, 1
  {
    var ts := Plain(v) + rest;
    match v
    case Obj(members) =>
      if |members| == 0 {
        assert ts == [LBrace, RBrace] + rest;
        assert ts[2..] == rest;
      } else {
        assert ts[1..] == Entries(PlainMembers(members)) + ([RBrace] + rest);
        ParsePlainMembers(members, [RBrace] + rest);
        assert ([RBrace] + rest)[1..] == rest;
        EntriesStart(PlainMembers(members));
      }
    case Arr(items) =>
      if |items| == 0 {
        assert ts == [LBracket, RBracket] + rest;
        assert ts[2..] == rest;
      } else {
        assert ts[1..] == PlainItems(items) + ([RBracket] + rest);
        ParsePlainItems(items, [RBracket] + rest);
        assert ([RBracket] + rest)[1..] == rest;
        ItemsStart(items);
      }
    case _ => assert ts[1..] == rest;
  }

  lemma EntriesStart(es: seq<Keyed<seq<Token>>>)
    requires |es| > 0
    ensures |Entries(es)| > 0 && Entries(es)[0].Scalar?
  {
  }

  lemma ItemsStart(items: seq<Json>)
    requires |items| > 0
    ensures |PlainItems(items)| > 0 && !PlainItems(items)[0].RBracket?
  {
    PlainStarts(items[0]);
  }

  lemma MoreItems(x: Json, value: seq<Token>, others: seq<Token>, xs: seq<Json>, rest: seq<Token>)
    requires ParseValue(value + ([Comma] + others + rest)) == Some((x, [Comma] + others + rest))
    requires ParseItems(others + rest) == Some((xs, rest))
    ensures ParseItems(value + [Comma] + others + rest) == Some(([x] + xs, rest))
  {
    hide ParseValue;
    assert value + [Comma] + others + rest == value + ([Comma] + others + rest);
    assert ([Comma] + others + rest)[1..] == others + rest;
  }

  lemma {:induction false} ParsePlainItems(items: seq<Json>, rest: seq<Token>)
    requires |items| > 0 && (forall x <- items :: UniqueKeys(x)) && |rest| > 0 && !rest[0].Comma?
    ensures ParseItems(PlainItems(items) + rest) == Some((items, rest))
    decreases items, 0
  {
    hide UniqueKeys, Plain, ParseValue;
    assert items == [items[0]] + items[1..];
    if |items| == 1 {
      assert items == [items[0]];
      ParsePlain(items[0], rest);
    } else {
      hide ParseItems;
      var others := PlainItems(items[1..]);
      ParsePlain(items[0], [Comma] + others + rest);
      ParsePlainItems(items[1..], rest);
      MoreItems(items[0], Plain(items[0]), others, items[1..], rest);
    }
  }

  /** An entry, up to its value. */
  lemma EntryTokens(key: string, value: seq<Token>, after: seq<Token>)
    ensures var ts := Entry(Keyed(key, value)) + after;
            |ts| >= 2 && ts[0] == Scalar(Str(key)) && ts[1] == Colon && ts[2..] == value + after
  {
  }

  /** Parsing the tokens of one entry, given that its value parses. */
  lemma ParseEntry(m: Member, value: seq<Token>, after: seq<Token>)
    requires |value| > 0 && |after| > 0 && ParseValue(value + after) == Some((m.value, after))
    ensures ParseMembers(Entry(Keyed(m.key, value)) + after) ==
              if after[0] != Comma then Some(([m], after))
              else match ParseMembers(after[1..])
                   case None => None
                   case Some((more, rest)) => Some(([m] + more, rest))
  {
    EntryTokens(m.key, value, after);
  }

  lemma PlainMembersUnfold(members: seq<Member>)
    requires |members| > 0
    ensures PlainMembers(members) == [Keyed(members[0].key, Plain(members[0].value))] + PlainMembers(members[1..])
  {
  }

  lemma EntriesUnfold(e: Keyed<seq<Token>>, more: seq<Keyed<seq<Token>>>, rest: seq<Token>)
    ensures Entries([e] + more) + rest == Entry(e) + (if more == [] then rest else [Comma] + Entries(more) + rest)
  {
    assert ([e] + more)[1..] == more;
  }

  lemma MoreMembers(m: Member, value: seq<Token>, others: seq<Token>, ms: seq<Member>, rest: seq<Token>)
    requires |value| > 0 && ParseValue(value + ([Comma] + others + rest)) == Some((m.value, [Comma] + others + rest))
    requires ParseMembers(others + rest) == Some((ms, rest))
    ensures ParseMembers(Entry(Keyed(m.key, value)) + ([Comma] + others + rest)) == Some(([m] + ms, rest))
  {
    hide ParseValue, ParseMembers, Entry;
    ParseEntry(m, value, [Comma] + others + rest);
    assert ([Comma] + others + rest)[1..] == others + rest;
  }

  lemma {:induction false} ParsePlainMembers(members: seq<Member>, rest: seq<Token>)
    requires |members| > 0 && (forall m <- members :: UniqueKeys(m.value)) && |rest| > 0 && !rest[0].Comma?
    ensures ParseMembers(Entries(PlainMembers(members)) + rest) == Some((members, rest))
    decreases members, 0
  {
    var m := members[0];
    PlainStarts(m.value);
    PlainMembersUnfold(members);
    hide *;
    var more := PlainMembers(members[1..]);
    EntriesUnfold(Keyed(m.key, Plain(m.value)), more, rest);
    assert members == [m] + members[1..];
    if |members| == 1 {
      assert members == [m] && |more| == 0;
      ParsePlain(m.value, rest);
      ParseEntry(m, Plain(m.value), rest);
    } else {
      ParsePlain(m.value, [Comma] + Entries(more) + rest);
      ParsePlainMembers(members[1..], rest);
      MoreMembers(m, Plain(m.value), Entries(more), members[1..], rest);
    }
  }

  // ---- identity --------------------------------------------------------------------------------

  function Pow10(e: int): real
    decreases if e < 0 then -e else e
  {
    if e == 0 then 1.0 else if e > 0 then 10.0 * Pow10(e - 1) else Pow10(e + 1) / 10.0
  }

  /** The value of a decimal; 1 and 1.0 are equal. */
  function Value(n: Number): real {
    n.coefficient as real * Pow10(n.exponent)
  }

  /** What makes two array items the same: numbers by value, objects by their members in key order, all kinds apart. */
  datatype Identity =
    | OfNumber(value: real)
    | OfObject(members: seq<Keyed<Identity>>)
    | OfArray(items: seq<Identity>)
    | OfOther(json: Json)

  function IdentityOf(v: Json): Identity
    decreases v
  {
    match v
    case Num(n) => OfNumber(Value(n))
    case Obj(members) => OfObject(Sort(IdentityMembers(members), KeyLeq))
    case Arr(items) => OfArray(IdentityItems(items))
    case _ => OfOther(v)
  }

  function IdentityMembers(members: seq<Member>): (r: seq<Keyed<Identity>>)
    ensures |r| == |members|
    ensures forall i :: 0 <= i < |r| ==> r[i].key == members[i].key
    decreases members
  {
    if |members| == 0 then [] else [Keyed(members[0].key, IdentityOf(members[0].value))] + IdentityMembers(members[1..])
  }

  function IdentityItems(items: seq<Json>): (r: seq<Identity>)
    ensures |r| == |items|
    ensures forall i :: 0 <= i < |r| ==> r[i] == IdentityOf(items[i])
    decreases items
  {
    if |items| == 0 then [] else [IdentityOf(items[0])] + IdentityItems(items[1..])
  }

  function IdentityKeyed(k: Keyed<Json>): Keyed<Identity> {
    Keyed(k.key, IdentityOf(k.value))
  }

  lemma {:induction false} IdentityOfMembers(ks: seq<Keyed<Json>>)
    ensures IdentityMembers(AsMembers(ks)) == Map(ks, IdentityKeyed)
  {
    hide IdentityOf;
    if |ks| > 0 {
      assert AsMembers(ks)[1..] == AsMembers(ks[1..]);
      IdentityOfMembers(ks[1..]);
      assert ks == [ks[0]] + ks[1..];
      MapCons(ks[0], ks[1..], IdentityKeyed);
      hide Map;
    }
  }

  lemma KeyLeqOrders<T(!new)>()
    ensures Orders<Keyed<T>>(KeyLeq)
  {
    forall x: Keyed<T>, y: Keyed<T>
      ensures KeyLeq(x, y) || KeyLeq(y, x)
    {
      BelowTotal(x.key, y.key);
    }
    forall x: Keyed<T>, y: Keyed<T>, z: Keyed<T> | KeyLeq(x, y) && KeyLeq(y, z)
      ensures KeyLeq(x, z)
    {
      BelowTransitive(x.key, y.key, z.key);
    }
  }

  ghost predicate KeysDiffer<T>(ks: seq<Keyed<T>>) {
    forall i, j :: 0 <= i < j < |ks| ==> ks[i].key != ks[j].key
  }

  lemma KeysSeparate<T(!new)>(ks: seq<Keyed<T>>)
    requires KeysDiffer(ks)
    ensures Separates(multiset(ks), KeyLeq)
  {
    forall x, y | x in multiset(ks) && y in multiset(ks) && KeyLeq(x, y) && KeyLeq(y, x)
      ensures x == y
    {
      BelowAntisymmetric(x.key, y.key);
      assert x in ks && y in ks;
    }
  }

  lemma SortTwice<T(!new)>(ks: seq<Keyed<T>>)
    requires KeysDiffer(ks)
    ensures Sort(Sort(ks, KeyLeq), KeyLeq) == Sort(ks, KeyLeq)
  {
    KeyLeqOrders<T>();
    hide Orders, KeysDiffer;
    KeysSeparate(ks);
    SortSorts(ks, KeyLeq);
    SortCanonical(ks, Sort(ks, KeyLeq), KeyLeq);
  }

  lemma {:induction false} CanonKeepsIdentity(v: Json)
    requires UniqueKeys(v)
    ensures IdentityOf(Canon(v)) == IdentityOf(v)
    decreases v
  {
    match v
    case Obj(members) =>
      CanonKeepsMembers(members);
      IdentityOfMembers(Sort(CanonMembers(members), KeyLeq));
      SortMap(CanonMembers(members), IdentityKeyed);
      assert KeysDiffer(IdentityMembers(members));
      SortTwice(IdentityMembers(members));
    case Arr(items) => CanonKeepsItems(items);
    case _ =>
  }

  lemma {:induction false} CanonKeepsMembers(members: seq<Member>)
    requires forall m <- members :: UniqueKeys(m.value)
    ensures Map(CanonMembers(members), IdentityKeyed) == IdentityMembers(members)
    decreases members
  {
    hide UniqueKeys;
    if |members| > 0 {
      CanonKeepsIdentity(members[0].value);
      CanonKeepsMembers(members[1..]);
      MapCons(Keyed(members[0].key, Canon(members[0].value)), CanonMembers(members[1..]), IdentityKeyed);
    }
  }

  lemma {:induction false} CanonKeepsItems(items: seq<Json>)
    requires forall x <- items :: UniqueKeys(x)
    ensures IdentityItems(CanonItems(items)) == IdentityItems(items)
    decreases items
  {
    hide UniqueKeys;
    if |items| > 0 {
      CanonKeepsIdentity(items[0]);
      CanonKeepsItems(items[1..]);
      assert CanonItems(items)[1..] == CanonItems(items[1..]);
    }
  }

  // ---- what the parser accepts stays accepted --------------------------------------------------

  lemma {:induction false} CanonMembersAre(members: seq<Member>)
    ensures forall i :: 0 <= i < |members| ==>
              CanonMembers(members)[i] == Keyed(members[i].key, Canon(members[i].value))
  {
    if |members| > 0 { CanonMembersAre(members[1..]); }
  }

  lemma {:induction false} CanonItemsAre(items: seq<Json>)
    ensures forall i :: 0 <= i < |items| ==> CanonItems(items)[i] == Canon(items[i])
  {
    if |items| > 0 { CanonItemsAre(items[1..]); }
  }

  /** Every member of a canonical object is a member of the object, made canonical. */
  lemma SortedMembersFrom(members: seq<Member>)
    ensures forall m <- AsMembers(Sort(CanonMembers(members), KeyLeq)) :: exists n <- members ::
              m == Member(n.key, Canon(n.value))
  {
    KeyLeqOrders<Json>();
    SortSorts(CanonMembers(members), KeyLeq);
    CanonMembersAre(members);
    var sorted := Sort(CanonMembers(members), KeyLeq);
    hide Orders, Sort;
    forall i | 0 <= i < |sorted|
      ensures exists n <- members :: Member(sorted[i].key, sorted[i].value) == Member(n.key, Canon(n.value))
    {
      assert sorted[i] in multiset(sorted) && sorted[i] in multiset(CanonMembers(members));
      var j :| 0 <= j < |members| && CanonMembers(members)[j] == sorted[i];
      assert members[j] in members;
    }
  }

  lemma SortedKeysDiffer<T(!new)>(ks: seq<Keyed<T>>)
    requires KeysDiffer(ks)
    ensures KeysDiffer(Sort(ks, KeyLeq))
  {
    KeyLeqOrders<T>();
    SortSorts(ks, KeyLeq);
    hide Orders, Sort;
    PermutedKeysDiffer(ks, Sort(ks, KeyLeq));
  }

  lemma PermutedKeysDiffer<T>(a: seq<Keyed<T>>, b: seq<Keyed<T>>)
    requires KeysDiffer(a) && multiset(a) == multiset(b)
    ensures KeysDiffer(b)
  {
    forall i, j | 0 <= i < j < |b|
      ensures b[i].key != b[j].key
    {
      if b[i].key == b[j].key {
        assert b[i] in multiset(a) && b[j] in multiset(a);
        assert b[i] == b[j];
        assert b == b[..i] + [b[i]] + b[i + 1..j] + [b[j]] + b[j + 1..];
        assert multiset(b)[b[i]] >= 2;
        OnceOnly(a, b[i]);
        assert false;
      }
    }
  }

  lemma OnceOnly<T>(a: seq<Keyed<T>>, x: Keyed<T>)
    requires KeysDiffer(a)
    ensures multiset(a)[x] <= 1
  {
    if x in a {
      var k :| 0 <= k < |a| && a[k] == x;
      assert a == a[..k] + [x] + a[k + 1..];
      assert x !in a[..k] && x !in a[k + 1..];
    }
  }

  lemma {:induction false} CanonKeepsShape(v: Json, room: nat)
    ensures DepthWithin(v, room) ==> DepthWithin(Canon(v), room)
    ensures UniqueKeys(v) ==> UniqueKeys(Canon(v))
    decreases v
  {
    match v
    case Obj(members) =>
      forall m | m in members
        ensures room > 0 && DepthWithin(m.value, room - 1) ==> DepthWithin(Canon(m.value), room - 1)
        ensures UniqueKeys(m.value) ==> UniqueKeys(Canon(m.value))
      {
        CanonKeepsShape(m.value, if room > 0 then room - 1 else 0);
      }
      SortedMembersFrom(members);
      CanonMembersAre(members);
      if UniqueKeys(v) {
        SortedKeysDiffer(CanonMembers(members));
        assert Unique(AsMembers(Sort(CanonMembers(members), KeyLeq)));
      }
    case Arr(items) =>
      CanonItemsAre(items);
      forall x | x in items
        ensures room > 0 && DepthWithin(x, room - 1) ==> DepthWithin(Canon(x), room - 1)
        ensures UniqueKeys(x) ==> UniqueKeys(Canon(x))
      {
        CanonKeepsShape(x, if room > 0 then room - 1 else 0);
      }
    case _ =>
  }

  /** Printing an accepted value and parsing the text gives its canonical form, which has the same identity. */
  lemma ReparsingLosesNothing(v: Json)
    requires UniqueKeys(v) && DepthWithin(v, MAX_DEPTH)
    ensures ParseStructured(Print(v)) == Success(Canon(v))
    ensures IdentityOf(Canon(v)) == IdentityOf(v)
    ensures v.Arr? ==> Canon(v).Arr? && IdentityItems(Canon(v).items) == IdentityItems(v.items)
  {
    CanonKeepsShape(v, MAX_DEPTH);
    CanonKeepsIdentity(v);
    PrintIsPlain(v);
    assert Plain(Canon(v)) + [] == Plain(Canon(v));
    hide Print, Plain, Canon, UniqueKeys, DepthWithin;
    ParsePlain(Canon(v), []);
    if v.Arr? { CanonOfArray(v.items); }
  }

  lemma CanonOfArray(items: seq<Json>)
    ensures Canon(Arr(items)) == Arr(CanonItems(items))
    ensures IdentityOf(Canon(Arr(items))) == OfArray(IdentityItems(CanonItems(items)))
    ensures IdentityOf(Arr(items)) == OfArray(IdentityItems(items))
  {
  }

  // ---- array checks ----------------------------------------------------------------------------

  datatype ArrayRule = ArrayRule(minItems: Option<int>, maxItems: Option<int>, uniqueItems: bool)
  datatype Verdict = Passed | Failed | VerdictMissing | VerdictMiscast | ParseFailed

  ghost predicate NoRepeats(items: seq<Json>) {
    forall i, j :: 0 <= i < j < |items| ==> IdentityOf(items[i]) != IdentityOf(items[j])
  }

  /** What the checks mean on an array: the bounds on its length, and no two items with one identity. */
  ghost predicate ArrayHolds(items: seq<Json>, rule: ArrayRule) {
    && (rule.minItems.Some? ==> rule.minItems.value <= |items|)
    && (rule.maxItems.Some? ==> |items| <= rule.maxItems.value)
    && (rule.uniqueItems ==> NoRepeats(items))
  }

  /** The loop over the items with the set of identities seen so far. */
  method CheckItems(items: seq<Json>, rule: ArrayRule) returns (ok: bool)
    ensures ok == ArrayHolds(items, rule)
  {
    if rule.minItems.Some? && |items| < rule.minItems.value {
      return false;
    }
    if rule.maxItems.Some? && |items| > rule.maxItems.value {
      return false;
    }
    if rule.uniqueItems {
      var seen: set<Identity> := {};
      for k := 0 to |items|
        invariant forall x :: x in seen <==> exists i :: 0 <= i < k && IdentityOf(items[i]) == x
        invariant NoRepeats(items[..k])
      {
        var identity := IdentityOf(items[k]);
        if identity in seen {
          return false;
        }
        seen := seen + {identity};
      }
      assert items[..|items|] == items;
    }
    ok := true;
  }

  /** Finds the array, prints it, parses the text again and checks what comes back. */
  method EvaluateArray(document: Option<Option<Json>>, path: string, toInt: string -> Option<int>, rule: ArrayRule)
      returns (r: Verdict)
    requires document.Some? && document.value.Some? ==>
               UniqueKeys(document.value.value) && DepthWithin(document.value.value, MAX_DEPTH)
    ensures var place := Extract(document, path, toInt);
            r == match place
                 case Missing => VerdictMissing
                 case Miscast => VerdictMiscast
                 case Present(v) =>
                      if !v.Arr? then VerdictMiscast else if ArrayHolds(v.items, rule) then Passed else Failed
  {
    var place := ExtractField(document, path, toInt);
    match place
    case Missing => r := VerdictMissing;
    case Miscast => r := VerdictMiscast;
    case Present(v) =>
      if !v.Arr? {
        return VerdictMiscast;
      }
      PartsAreAccepted(document, path, toInt);
      ReparsingLosesNothing(v);
      var parsed := ParseStructured(Print(v));
      if parsed.Failure? {
        return ParseFailed;
      }
      SameIdentitiesSameVerdict(v.items, parsed.value.items, rule);
      var ok := CheckItems(parsed.value.items, rule);
      r := if ok then Passed else Failed;
  }

  lemma SameIdentitiesSameVerdict(a: seq<Json>, b: seq<Json>, rule: ArrayRule)
    requires IdentityItems(a) == IdentityItems(b)
    ensures ArrayHolds(a, rule) == ArrayHolds(b, rule)
  {
    assert |a| == |IdentityItems(a)| == |b|;
    assert forall i :: 0 <= i < |a| ==> IdentityOf(a[i]) == IdentityItems(a)[i] == IdentityOf(b[i]);
  }

  /** Part of an accepted document is accepted. */
  lemma PartsAreAccepted(document: Option<Option<Json>>, path: string, toInt: string -> Option<int>)
    requires document.Some? && document.value.Some? && UniqueKeys(document.value.value)
             && DepthWithin(document.value.value, MAX_DEPTH)
    requires Extract(document, path, toInt).Present?
    ensures var v := Extract(document, path, toInt).value; UniqueKeys(v) && DepthWithin(v, MAX_DEPTH)
  {
    FollowAccepted(document.value.value, Tokens(path).value, toInt, MAX_DEPTH);
  }

  lemma {:induction false} FollowAccepted(v: Json, tokens: seq<string>, toInt: string -> Option<int>, room: nat)
    requires UniqueKeys(v) && DepthWithin(v, room) && Follow(v, tokens, toInt).Present?
    ensures UniqueKeys(Follow(v, tokens, toInt).value) && DepthWithin(Follow(v, tokens, toInt).value, room)
    decreases |tokens|
  {
    if |tokens| > 0 {
      ChildAccepted(v, tokens[0], toInt, room);
      var child := Child(v, tokens[0], toInt).value;
      DeeperRoom(child, room - 1);
      FollowAccepted(child, tokens[1..], toInt, room);
    }
  }

  lemma ChildAccepted(v: Json, token: string, toInt: string -> Option<int>, room: nat)
    requires UniqueKeys(v) && DepthWithin(v, room) && Child(v, token, toInt).Present?
    ensures var c := Child(v, token, toInt).value; room > 0 && UniqueKeys(c) && DepthWithin(c, room - 1)
  {
    match v
    case Obj(members) => assert Member(token, Find(members, token).value) in members;
    case Arr(items) => assert items[toInt(token).value] in items;
  }

  lemma {:induction false} DeeperRoom(v: Json, room: nat)
    requires DepthWithin(v, room)
    ensures DepthWithin(v, room + 1)
    decreases v
  {
    match v
    case Obj(members) => forall m | m in members ensures DepthWithin(m.value, room) { DeeperRoom(m.value, room - 1); }
    case Arr(items) => forall x | x in items ensures DepthWithin(x, room) { DeeperRoom(x, room - 1); }
    case _ =>
  }
}
