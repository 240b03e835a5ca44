/**
 Canonical JSON text as tokens, the parser that reads it back (sections 4 and 5 of RFC 8259), and array checks made on
 reparsed text. Strings and numbers are single tokens.
 */
module CanonicalJson {
  import opened Wrappers
  import opened Ordering
  import opened JsonValues

  datatype Token = LBrace | RBrace | LBracket | RBracket | Comma | Colon | Scalar(value: Json)

  /** Printed members are sorted by key, whatever their values. */
  datatype Keyed<T> = Keyed(key: string, value: T)

  predicate KeyLeq<T>(a: Keyed<T>, b: Keyed<T>) {
    Below(a.key, b.key)
  }

  // ---- printing --------------------------------------------------------------------------------

  function Print(v: Json): seq<Token>
    decreases v
  {
    match v
    case Obj(members) => [LBrace] + Entries(Sort(PrintMembers(members), KeyLeq)) + [RBrace]
    case Arr(items) => [LBracket] + PrintItems(items) + [RBracket]
    case _ => [Scalar(v)]
  }

  function PrintMembers(members: seq<Member>): (r: seq<Keyed<seq<Token>>>)
    ensures |r| == |members|
    decreases members
  {
    if |members| == 0 then [] else [Keyed(members[0].key, Print(members[0].value))] + PrintMembers(members[1..])
  }

  /** Items joined by commas. */
  function PrintItems(items: seq<Json>): seq<Token>
    decreases items
  {
    if |items| == 0 then []
    else if |items| == 1 then Print(items[0])
    else Print(items[0]) + [Comma] + PrintItems(items[1..])
  }

  function Entry(e: Keyed<seq<Token>>): seq<Token> {
    [Scalar(Str(e.key)), Colon] + e.value
  }

  /** Entries joined by commas. */
  function Entries(es: seq<Keyed<seq<Token>>>): seq<Token> {
    if |es| == 0 then []
    else if |es| == 1 then Entry(es[0])
    else Entry(es[0]) + [Comma] + Entries(es[1..])
  }

  // ---- parsing ---------------------------------------------------------------------------------

  type Parsed<T> = Option<(T, seq<Token>)>

  /** A value and the tokens after it. */
  function ParseValue(ts: seq<Token>): (r: Parsed<Json>)
    ensures r.Some? ==> |r.value.1| < |ts|
    decreases |ts|, 0
  {
    if |ts| == 0 then None
    else
      match ts[0]
      case Scalar(v) => if Container(v) then None else Some((v, ts[1..]))
      case LBrace =>
        if |ts| >= 2 && ts[1] == RBrace then Some((Obj([]), ts[2..]))
        else
          (match ParseMembers(ts[1..])
           case None => None
           case Some((members, rest)) =>
             if |rest| > 0 && rest[0] == RBrace && Unique(members) then Some((Obj(members), rest[1..])) else None)
      case LBracket =>
        if |ts| >= 2 && ts[1] == RBracket then Some((Arr([]), ts[2..]))
        else
          (match ParseItems(ts[1..])
           case None => None
           case Some((items, rest)) =>
                if |rest| > 0 && rest[0] == RBracket then Some((Arr(items), rest[1..])) else None)
      case _ => None
  }

  /** One or more members. */
  function ParseMembers(ts: seq<Token>): (r: Parsed<seq<Member>>)
    ensures r.Some? ==> |r.value.1| < |ts|
    decreases |ts|, 1
  {
    if |ts| < 3 || !ts[0].Scalar? || !ts[0].value.Str? || ts[1] != Colon then None
    else
      match ParseValue(ts[2..])
      case None => None
      case Some((v, rest)) =>
        var m := Member(ts[0].value.text, v);
        if |rest| > 0 && rest[0] == Comma then
          (match ParseMembers(rest[1..])
           case None => None
           case Some((more, after)) => Some(([m] + more, after)))
        else Some(([m], rest))
  }

  /** One or more items. */
  function ParseItems(ts: seq<Token>): (r: Parsed<seq<Json>>)
    ensures r.Some? ==> |r.value.1| < |ts|
    decreases |ts|, 1
  {
    match ParseValue(ts)
    case None => None
    case Some((v, rest)) =>
      if |rest| > 0 && rest[0] == Comma then
        (match ParseItems(rest[1..])
         case None => None
         case Some((more, after)) => Some(([v] + more, after)))
      else Some(([v], rest))
  }

  /** The check of the object hook: no key twice. */
  predicate Unique(members: seq<Member>) {
    forall i, j :: 0 <= i < j < |members| ==> members[i].key != members[j].key
  }

  const MAX_DEPTH := 32

  /** Containers nested at most `room` deep below a value that may itself be one. */
  predicate DepthWithin(v: Json, room: nat)
    decreases v
  {
    match v
    case Obj(members) => room > 0 && forall m <- members :: DepthWithin(m.value, room - 1)
    case Arr(items) => room > 0 && forall x <- items :: DepthWithin(x, room - 1)
    case _ => true
  }

  datatype ParseError = InvalidJson | NestingTooDeep

  /** The whole text is one value, nested at most 32 deep. */
  function ParseStructured(ts: seq<Token>): Result<Json, ParseError> {
    match ParseValue(ts)
    case None => Failure(InvalidJson)
    case Some((v, rest)) =>
      if rest != [] then Failure(InvalidJson)
         else if DepthWithin(v, MAX_DEPTH) then Success(v) else Failure(NestingTooDeep)
  }

  /** What the parser accepts: keys are unique at every level. */
  predicate UniqueKeys(v: Json)
    decreases v
  {
    match v
    case Obj(members) => Unique(members) && forall m <- members :: UniqueKeys(m.value)
    case Arr(items) => forall x <- items :: UniqueKeys(x)
    case _ => true
  }

  // ---- the canonical value ---------------------------------------------------------------------

  /** The same value with the members of every object in key order. */
  function Canon(v: Json): Json
    decreases v
  {
    match v
    case Obj(members) => Obj(AsMembers(Sort(CanonMembers(members), KeyLeq)))
    case Arr(items) => Arr(CanonItems(items))
    case _ => v
  }

  function CanonMembers(members: seq<Member>): (r: seq<Keyed<Json>>)
    ensures |r| == |members|
    decreases members
  {
    if |members| == 0 then [] else [Keyed(members[0].key, Canon(members[0].value))] + CanonMembers(members[1..])
  }

  function CanonItems(items: seq<Json>): (r: seq<Json>)
    ensures |r| == |items|
    decreases items
  {
    if |items| == 0 then [] else [Canon(items[0])] + CanonItems(items[1..])
  }

  function AsMembers(ks: seq<Keyed<Json>>): (r: seq<Member>)
    ensures |r| == |ks|
  {
    seq(|ks|, i requires 0 <= i < |ks| => Member(ks[i].key, ks[i].value))
  }

  // ---- sorting by key --------------------------------------------------------------------------

  function Map<A, B>(s: seq<A>, f: A -> B): (r: seq<B>)
    ensures |r| == |s|
  {
    seq(|s|, i requires 0 <= i < |s| => f(s[i]))
  }

  lemma {:induction false} InsertMap<A, B>(x: Keyed<A>, s: seq<Keyed<A>>, f: Keyed<A> -> Keyed<B>)
    requires forall k :: f(k).key == k.key
    ensures Insert(f(x), Map(s, f), KeyLeq) == Map(Insert(x, s, KeyLeq), f)
  {
    if |s| > 0 && !KeyLeq(x, s[0]) {
      InsertMap(x, s[1..], f);
      assert Map(s, f)[1..] == Map(s[1..], f);
    }
  }

  /** Sorting by key and changing values by a function that keeps keys can be done in either order. */
  lemma {:induction false} SortMap<A, B>(s: seq<Keyed<A>>, f: Keyed<A> -> Keyed<B>)
    requires forall k :: f(k).key == k.key
    ensures Sort(Map(s, f), KeyLeq) == Map(Sort(s, KeyLeq), f)
  {
    if |s| > 0 {
      SortMap(s[1..], f);
      assert Map(s, f)[1..] == Map(s[1..], f);
      InsertMap(s[0], Sort(s[1..], KeyLeq), f);
    }
  }
}
