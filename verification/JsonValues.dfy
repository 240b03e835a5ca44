/** JSON values as the parser builds them; object members keep their order, numbers are exact decimals. */
module JsonValues {
  import opened Wrappers

  datatype Number = Number(coefficient: int, exponent: int)

  datatype Json =
    | Null
    | Bool(truth: bool)
    | Num(number: Number)
    | Str(text: string)
    | Obj(members: seq<Member>)
    | Arr(items: seq<Json>)

  datatype Member = Member(key: string, value: Json)

  predicate Container(v: Json) {
    v.Obj? || v.Arr?
  }

  function Find(members: seq<Member>, key: string): (r: Option<Json>)
    ensures r.Some? <==> exists m <- members :: m.key == key
    ensures r.Some? ==> Member(key, r.value) in members
  {
    if |members| == 0 then None
    else if members[0].key == key then Some(members[0].value)
    else Find(members[1..], key)
  }

  ghost predicate DistinctKeys(members: seq<Member>) {
    forall i, j :: 0 <= i < j < |members| ==> members[i].key != members[j].key
  }
}

/** Paths into JSON documents: the scanner's way of writing them and the extractor's way of reading them, RFC 6901. */
module JsonPointer {
  import opened Wrappers
  import opened JsonValues

  // ---- writing ---------------------------------------------------------------------------------

  /** str.replace of a character. */
  function Replace(s: string, c: char, with: string): string {
    if |s| == 0 then "" else (if s[0] == c then with else [s[0]]) + Replace(s[1..], c, with)
  }

  /** Section 3: ~ becomes ~0 and / becomes ~1. */
  function Escape(key: string): string {
    Replace(Replace(key, '~', "~0"), '/', "~1")
  }

  /** The path the scanner records for a leaf below the given keys. */
  function Join(keys: seq<string>): string {
    if |keys| == 0 then "" else Join(keys[..|keys| - 1]) + "/" + Escape(keys[|keys| - 1])
  }

  // ---- reading ---------------------------------------------------------------------------------

  /** str.replace of a pair of characters, leftmost first. */
  function ReplacePair(s: string, a: char, b: char, with: char): string {
    if |s| < 2 then s
    else if s[0] == a && s[1] == b then [with] + ReplacePair(s[2..], a, b, with)
    else [s[0]] + ReplacePair(s[1..], a, b, with)
  }

  /** Section 4: first ~1 becomes /, then ~0 becomes ~. */
  function Decode(token: string): string {
    ReplacePair(ReplacePair(token, '~', '1', '/'), '~', '0', '~')
  }

  function Split(s: string): (r: seq<string>)
    ensures |r| >= 1
  {
    if |s| == 0 then [""]
    else if s[0] == '/' then [""] + Split(s[1..])
    else
      var rest := Split(s[1..]);
      [[s[0]] + rest[0]] + rest[1..]
  }

  function DecodeAll(tokens: seq<string>): (r: seq<string>)
    ensures |r| == |tokens|
  {
    seq(|tokens|, i requires 0 <= i < |tokens| => Decode(tokens[i]))
  }

  /** The keys a path stands for; None when it is not empty and does not start with a slash. */
  function Tokens(path: string): Option<seq<string>> {
    if path == "" then Some([])
    else if path[0] != '/' then None
    else Some(DecodeAll(Split(path[1..])))
  }

  // ---- escape and decode undo each other -------------------------------------------------------

  lemma {:induction false} DecodeEscape(key: string)
    ensures Decode(Escape(key)) == key
  {
    SlashesBack(key);
    TildesBack(key);
  }

  function EscapeChar(c: char): string {
    if c == '~' then "~0" else if c == '/' then "~1" else [c]
  }

  lemma EscapeHead(key: string)
    requires |key| > 0
    ensures Escape(key) == EscapeChar(key[0]) + Escape(key[1..])
  {
    var rest := Replace(key[1..], '~', "~0");
    if key[0] == '~' {
      assert Replace(key, '~', "~0") == ['~'] + (['0'] + rest);
      ReplaceCons('~', ['0'] + rest, '/', "~1");
      ReplaceCons('0', rest, '/', "~1");
    } else {
      ReplaceCons(key[0], rest, '/', "~1");
    }
  }

  lemma PairHead(c: char, e: string)
    ensures ReplacePair(EscapeChar(c) + e, '~', '1', '/') ==
              (if c == '~' then "~0" else [c]) + ReplacePair(e, '~', '1', '/')
  {
    if c == '~' {
      assert ("~0" + e)[1..] == "0" + e && ("0" + e)[1..] == e;
      PairStep("~0" + e);
      PairStep("0" + e);
    } else if c == '/' {
      assert ("~1" + e)[2..] == e;
    } else {
      assert ([c] + e)[1..] == e;
      PairStep([c] + e);
    }
  }

  lemma {:induction false} SlashesBack(key: string)
    ensures ReplacePair(Escape(key), '~', '1', '/') == Replace(key, '~', "~0")
  {
    if |key| > 0 {
      SlashesBack(key[1..]);
      EscapeHead(key);
      hide Escape, ReplacePair, EscapeChar;
      PairHead(key[0], Escape(key[1..]));
    } else {
      assert Escape(key) == "";
    }
  }

  lemma ReplaceCons(x: char, s: string, c: char, with: string)
    ensures Replace([x] + s, c, with) == (if x == c then with else [x]) + Replace(s, c, with)
  {
    assert ([x] + s)[1..] == s;
  }

  /** A character that does not start the pair stays. */
  lemma PairStep(s: string)
    requires |s| > 0 && !(|s| >= 2 && s[0] == '~' && s[1] == '1')
    ensures ReplacePair(s, '~', '1', '/') == [s[0]] + ReplacePair(s[1..], '~', '1', '/')
  {
    if |s| == 1 { assert s == [s[0]] + s[1..]; }
  }

  lemma {:induction false} TildesBack(key: string)
    ensures ReplacePair(Replace(key, '~', "~0"), '~', '0', '~') == key
  {
    if |key| > 0 {
      var rest := Replace(key[1..], '~', "~0");
      TildesBack(key[1..]);
      if key[0] == '~' {
        assert ("~0" + rest)[2..] == rest;
      } else {
        var s := [key[0]] + rest;
        assert s[1..] == rest;
        if |s| == 1 { assert rest == ""; }
      }
    }
  }

  lemma {:induction false} ReplaceRemoves(s: string, c: char, with: string)
    requires c !in with
    ensures c !in Replace(s, c, with)
  {
    if |s| > 0 { ReplaceRemoves(s[1..], c, with); }
  }

  // ---- join and split undo each other ----------------------------------------------------------

  lemma {:induction false} SplitPlain(s: string)
    requires '/' !in s
    ensures Split(s) == [s]
  {
    if |s| > 0 {
      assert s[0] in s && forall c <- s[1..] :: c in s;
      SplitPlain(s[1..]);
      assert [s[0]] + s[1..] == s;
    }
  }

  lemma {:induction false} SplitAtSlash(s: string, rest: string)
    ensures Split(s + "/" + rest) == Split(s) + Split(rest)
  {
    if |s| == 0 {
      assert s + "/" + rest == "/" + rest && ("/" + rest)[1..] == rest;
    } else {
      assert (s + "/" + rest)[1..] == s[1..] + "/" + rest;
      SplitAtSlash(s[1..], rest);
    }
  }

  lemma EscapedToken(key: string)
    ensures Split(Escape(key)) == [Escape(key)] && Decode(Escape(key)) == key
  {
    ReplaceRemoves(Replace(key, '~', "~0"), '/', "~1");
    SplitPlain(Escape(key));
    DecodeEscape(key);
  }

  lemma DecodeAppend(tokens: seq<string>, last: string)
    ensures DecodeAll(tokens + [last]) == DecodeAll(tokens) + [Decode(last)]
  {
    hide Decode;
  }

  lemma {:induction false} SplitJoin(keys: seq<string>)
    requires |keys| > 0
    ensures Join(keys) != "" && Join(keys)[0] == '/'
    ensures DecodeAll(Split(Join(keys)[1..])) == keys
  {
    var n := |keys| - 1;
    var last := Escape(keys[n]);
    EscapedToken(keys[n]);
    hide Escape, Decode, DecodeAll, Split;
    assert keys == keys[..n] + [keys[n]];
    if n == 0 {
      assert Join(keys[..0]) == "";
      assert Join(keys)[1..] == last;
      DecodeAppend([], last);
      assert DecodeAll([]) == [];
      assert [] + [last] == [last];
    } else {
      SplitJoin(keys[..n]);
      var front := Join(keys[..n]);
      assert Join(keys)[1..] == front[1..] + "/" + last;
      SplitAtSlash(front[1..], last);
      DecodeAppend(Split(front[1..]), last);
    }
  }

  /** Reading back a recorded path gives the keys it was made of. */
  lemma PathsReadBack(keys: seq<string>)
    ensures Tokens(Join(keys)) == Some(keys)
  {
    if |keys| > 0 { SplitJoin(keys); }
  }

  /** Different key sequences never get the same path. */
  lemma PathsAreDistinct(a: seq<string>, b: seq<string>)
    requires Join(a) == Join(b)
    ensures a == b
  {
    PathsReadBack(a);
    PathsReadBack(b);
  }

  // ---- following a path ------------------------------------------------------------------------

  datatype Place = Present(value: Json) | Missing | Miscast

  /** One step down; `toInt` reads an array index as int() does, None where it raises. */
  function Child(v: Json, token: string, toInt: string -> Option<int>): Place {
    match v
    case Obj(members) => (match Find(members, token) case Some(x) => Present(x) case None => Missing)
    case Arr(items) =>
      (match toInt(token)
       case None => Missing
       case Some(i) => if i < 0 || i >= |items| then Missing else Present(items[i]))
    case _ => Miscast
  }

  function Follow(v: Json, tokens: seq<string>, toInt: string -> Option<int>): Place {
    if |tokens| == 0 then Present(v)
    else
      var next := Child(v, tokens[0], toInt);
      if next.Present? then Follow(next.value, tokens[1..], toInt) else next
  }

  /** extract_json_field up to its target: an absent value or a null target is missing, unparsable text is miscast. */
  function Extract(document: Option<Option<Json>>, path: string, toInt: string -> Option<int>): Place {
    match document
    case None => Missing
    case Some(None) => Miscast
    case Some(Some(root)) =>
      match Tokens(path)
      case None => Miscast
      case Some(tokens) =>
        var place := Follow(root, tokens, toInt);
        if place.Present? && place.value.Null? then Missing else place
  }

  /** The loop that walks `cur` down the document. */
  method ExtractField(document: Option<Option<Json>>, path: string, toInt: string -> Option<int>) returns (r: Place)
    ensures r == Extract(document, path, toInt)
  {
    if document.None? {
      return Missing;
    }
    if document.value.None? {
      return Miscast;
    }
    var root := document.value.value;
    var tokens := Tokens(path);
    if tokens.None? {
      return Miscast;
    }
    var cur := root;
    for i := 0 to |tokens.value|
      invariant Follow(root, tokens.value, toInt) == Follow(cur, tokens.value[i..], toInt)
    {
      var next := Child(cur, tokens.value[i], toInt);
      assert tokens.value[i..][1..] == tokens.value[i + 1..];
      if !next.Present? {
        return next;
      }
      cur := next.value;
    }
    r := if cur.Null? then Missing else Present(cur);
  }

  /** The way from a value to something inside it: a key of an object, or None for some element of an array. */
  type Way = seq<Option<string>>

  ghost predicate Reaches(v: Json, way: Way, target: Json)
    decreases |way|
  {
    if |way| == 0 then v == target
    else if way[0].Some? then
      v.Obj? && DistinctKeys(v.members) && exists m <- v.members ::
          m.key == way[0].value && Reaches(m.value, way[1..], target)
    else v.Arr? && exists x <- v.items :: Reaches(x, way[1..], target)
  }

  function Name(step: Option<string>): string {
    if step.Some? then step.value else "*"
  }

  function Names(way: Way): (r: seq<string>)
    ensures |r| == |way|
  {
    seq(|way|, i requires 0 <= i < |way| => Name(way[i]))
  }

  /** The same step, or an array element against a key named `*`. */
  predicate Alike(a: Option<string>, b: Option<string>) {
    a == b || (a == None && b == Some("*")) || (a == Some("*") && b == None)
  }

  lemma NamesTail(way: Way)
    requires |way| > 0
    ensures Names(way)[0] == Name(way[0]) && Names(way)[1..] == Names(way[1..])
  {
  }

  /** Keys lead down again; the first array on the way is asked for an element named `*` and has none. */
  lemma {:induction false} FollowsWay(v: Json, way: Way, target: Json, toInt: string -> Option<int>)
    requires Reaches(v, way, target) && toInt("*") == None
    ensures Follow(v, Names(way), toInt) == (if None in way then Missing else Present(target))
    decreases |way|
  {
    if |way| > 0 {
      NamesTail(way);
      if way[0].Some? {
        var m :| m in v.members && m.key == way[0].value && Reaches(m.value, way[1..], target);
        var found := Find(v.members, way[0].value).value;
        assert Member(way[0].value, found) == m;
        FollowsWay(m.value, way[1..], target, toInt);
        assert way == [way[0]] + way[1..];
      } else {
        assert Child(v, "*", toInt) == Missing;
      }
    }
  }

  /** The path recorded for a leaf leads the extractor back to it exactly when no array is on the way. */
  lemma RecordedPathsLeadBack(root: Json, way: Way, leaf: Json, toInt: string -> Option<int>)
    requires Reaches(root, way, leaf) && !leaf.Null? && toInt("*") == None
    ensures Extract(Some(Some(root)), Join(Names(way)), toInt) == (if None in way then Missing else Present(leaf))
  {
    PathsReadBack(Names(way));
    FollowsWay(root, way, leaf, toInt);
  }

  /** Two ways in get the same path exactly when they differ at most in array elements against keys named `*`. */
  lemma WaysShareAPath(a: Way, b: Way)
    ensures Join(Names(a)) == Join(Names(b)) <==>
              |a| == |b| && forall i :: 0 <= i < |a| ==> Alike(a[i], b[i])
  {
    if Join(Names(a)) == Join(Names(b)) {
      PathsAreDistinct(Names(a), Names(b));
      forall i | 0 <= i < |a|
        ensures Name(a[i]) == Name(b[i])
      {
        assert Names(a)[i] == Names(b)[i];
      }
    }
    if |a| == |b| && forall i :: 0 <= i < |a| ==> Alike(a[i], b[i]) {
      assert Names(a) == Names(b);
    }
  }
}
