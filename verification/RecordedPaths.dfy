/** The paths the scanner records, read by the extractor. */
module RecordedPaths {
  import opened Wrappers
  import opened JsonValues
  import opened JsonPointer
  import opened ScanMeaning

  lemma {:induction false} MemberLeavesIncluded(column: string, path: string, members: seq<Member>, m: Member)
    requires m in members && !m.value.Null?
    ensures forall l <- Leaves(column, path + "/" + Escape(m.key), m.value) :: l in MemberLeaves(column, path, members)
    decreases |members|
  {
    hide Escape;
    if members[0] != m {
      MemberLeavesIncluded(column, path, members[1..], m);
    }
  }

  lemma {:induction false} ItemLeavesIncluded(column: string, path: string, items: seq<Json>, x: Json)
    requires x in items && !x.Null?
    ensures forall l <- Leaves(column, path + "/*", x) :: l in ItemLeaves(column, path, items)
    decreases |items|
  {
    if items[0] != x {
      ItemLeavesIncluded(column, path, items[1..], x);
    }
  }

  lemma JoinStar(above: seq<string>)
    ensures Join(above + ["*"]) == Join(above) + "/*"
  {
    assert Replace("*", '~', "~0") == "*" && Escape("*") == "*";
    assert (above + ["*"])[..|above|] == above;
    assert Join(above) + "/" + "*" == Join(above) + "/*";
  }

  /** One step further down appends the name of the step. */
  lemma JoinNext(above: seq<string>, way: Way)
    requires |way| > 0
    ensures Join(above + [Name(way[0])]) == Join(above) + "/" + Escape(Name(way[0]))
    ensures above + [Name(way[0])] + Names(way[1..]) == above + Names(way)
  {
    assert (above + [Name(way[0])])[..|above|] == above;
    NamesTail(way);
    assert Names(way) == [Names(way)[0]] + Names(way)[1..];
  }

  /** A scalar is counted under exactly the path made of the names on its way. */
  lemma {:induction false} ScalarIsRecorded(column: string, above: seq<string>, v: Json, way: Way, leaf: Json)
    requires Reaches(v, way, leaf) && !Container(leaf) && !leaf.Null?
    ensures Leaf(column, Join(above + Names(way)), leaf) in Leaves(column, Join(above), v)
    decreases |way|
  {
    if |way| == 0 {
      assert above + Names(way) == above;
    } else {
      JoinNext(above, way);
      var next := above + [Name(way[0])];
      if way[0].Some? {
        var m :| m in v.members && m.key == way[0].value && Reaches(m.value, way[1..], leaf);
        ScalarIsRecorded(column, next, m.value, way[1..], leaf);
        hide Escape, Join, Reaches, Names;
        MemberLeavesIncluded(column, Join(above), v.members, m);
      } else {
        var x :| x in v.items && Reaches(x, way[1..], leaf);
        ScalarIsRecorded(column, next, x, way[1..], leaf);
        JoinStar(above);
        hide Escape, Join, Reaches, Names;
        ItemLeavesIncluded(column, Join(above), v.items, x);
      }
    }
  }

  /**
   Every scalar of a document is recorded under the path of its way, arrays included, and that path leads the extractor
   back to the scalar exactly when no array is on the way; an element of an array is never found again.
   */
  lemma ScannerAndExtractorAgree(column: string, root: Json, way: Way, leaf: Json, toInt: string -> Option<int>)
    requires Reaches(root, way, leaf) && !Container(leaf) && !leaf.Null? && toInt("*") == None
    ensures Leaf(column, Join(Names(way)), leaf) in Leaves(column, "", root)
    ensures Extract(Some(Some(root)), Join(Names(way)), toInt) == (if None in way then Missing else Present(leaf))
  {
    assert [] + Names(way) == Names(way) && Join([]) == "";
    ScalarIsRecorded(column, [], root, way, leaf);
    RecordedPathsLeadBack(root, way, leaf, toInt);
  }

  // ---- nothing else is recorded ----------------------------------------------------------------

  /** The parser refuses repeated keys. */
  ghost predicate Parsed(v: Json)
    decreases v
  {
    match v
    case Obj(members) => DistinctKeys(members) && forall m <- members :: Parsed(m.value)
    case Arr(items) => forall x <- items :: Parsed(x)
    case _ => true
  }

  ghost predicate Recorded(column: string, above: seq<string>, v: Json, way: Way, l: Leaf) {
    Reaches(v, way, l.value) && l == Leaf(column, Join(above + Names(way)), l.value)
  }

  lemma StepDown(column: string, above: seq<string>, v: Json, step: Option<string>, x: Json, way: Way, l: Leaf)
    requires Recorded(column, above + [Name(step)], x, way, l)
    requires if step.Some? then v.Obj? && DistinctKeys(v.members) && Member(step.value, x) in v.members
             else v.Arr? && x in v.items
    ensures Recorded(column, above, v, [step] + way, l)
  {
    var longer := [step] + way;
    assert longer[1..] == way;
    JoinNext(above, longer);
    hide Join, Escape;
  }

  /** Every leaf the scanner counts is a scalar of the document, recorded under the path of a way that leads to it. */
  lemma {:induction false} LeavesAreReached(column: string, above: seq<string>, v: Json, l: Leaf) returns (way: Way)
    requires Parsed(v) && !v.Null? && l in Leaves(column, Join(above), v)
    ensures Recorded(column, above, v, way, l) && !Container(l.value) && !l.value.Null?
    decreases v
  {
    way := [];
    assert above + Names(way) == above;
    match v
    case Obj(members) =>
      var k := MemberOf(column, Join(above), members, l);
      assert Join(above + [members[k].key]) == Join(above) + "/" + Escape(members[k].key) by {
        assert (above + [members[k].key])[..|above|] == above;
      }
      var rest := LeavesAreReached(column, above + [members[k].key], members[k].value, l);
      way := [Some(members[k].key)] + rest;
      StepDown(column, above, v, Some(members[k].key), members[k].value, rest, l);
    case Arr(items) =>
      var k := ItemOf(column, Join(above), items, l);
      JoinStar(above);
      var rest := LeavesAreReached(column, above + ["*"], items[k], l);
      way := [None] + rest;
      StepDown(column, above, v, None, items[k], rest, l);
    case _ =>
  }

  lemma {:induction false} MemberOf(column: string, path: string, members: seq<Member>, l: Leaf) returns (k: nat)
    requires l in MemberLeaves(column, path, members)
    ensures k < |members| && !members[k].value.Null?
            && l in Leaves(column, path + "/" + Escape(members[k].key), members[k].value)
    decreases |members|
  {
    hide Escape;
    if !members[0].value.Null? && l in Leaves(column, path + "/" + Escape(members[0].key), members[0].value) {
      k := 0;
    } else {
      var n := MemberOf(column, path, members[1..], l);
      k := n + 1;
    }
  }

  lemma {:induction false} ItemOf(column: string, path: string, items: seq<Json>, l: Leaf) returns (k: nat)
    requires l in ItemLeaves(column, path, items)
    ensures k < |items| && !items[k].Null? && l in Leaves(column, path + "/*", items[k])
    decreases |items|
  {
    if !items[0].Null? && l in Leaves(column, path + "/*", items[0]) {
      k := 0;
    } else {
      var n := ItemOf(column, path, items[1..], l);
      k := n + 1;
    }
  }

  /** So the extractor reads a recorded leaf back exactly when the scanner met no array above it. */
  lemma RecordedLeavesAreScalars(column: string, root: Json, l: Leaf, toInt: string -> Option<int>) returns (way: Way)
    requires Parsed(root) && !root.Null? && toInt("*") == None && l in Leaves(column, "", root)
    ensures Reaches(root, way, l.value) && l == Leaf(column, Join(Names(way)), l.value) && !Container(l.value)
            && !l.value.Null?
    ensures Extract(Some(Some(root)), l.path, toInt) == (if None in way then Missing else Present(l.value))
  {
    assert Join([]) == "";
    way := LeavesAreReached(column, [], root, l);
    assert [] + Names(way) == Names(way);
    RecordedPathsLeadBack(root, way, l.value, toInt);
  }

  // ---- what the extractor finds ----------------------------------------------------------------

  /** The keys lead from `v` to `w`: by name through objects, by position through arrays. */
  ghost predicate Leads(v: Json, keys: seq<string>, toInt: string -> Option<int>, w: Json)
    decreases |keys|
  {
    if |keys| == 0 then w == v
    else
      match v
      case Obj(members) => exists m <- members :: m.key == keys[0] && Leads(m.value, keys[1..], toInt, w)
      case Arr(items) =>
        var at := toInt(keys[0]);
        at.Some? && 0 <= at.value < |items| && Leads(items[at.value], keys[1..], toInt, w)
      case _ => false
  }

  /** The first `k` keys lead to a scalar or to null, below which there is nothing. */
  ghost predicate StopsAt(v: Json, keys: seq<string>, toInt: string -> Option<int>, k: nat) {
    k < |keys| && exists u :: Leads(v, keys[..k], toInt, u) && !Container(u)
  }

  lemma MemberFound(members: seq<Member>, m: Member)
    requires DistinctKeys(members) && m in members
    ensures Find(members, m.key) == Some(m.value)
  {
    var found := Find(members, m.key).value;
    assert Member(m.key, found) in members;
  }

  /** What one key leads to, there is only one of. */
  lemma ChildLeads(v: Json, key: string, rest: seq<string>, toInt: string -> Option<int>, w: Json)
    requires Parsed(v)
    ensures var next := Child(v, key, toInt);
            && (Leads(v, [key] + rest, toInt, w) <==> next.Present? && Leads(next.value, rest, toInt, w))
            && (next.Miscast? <==> !Container(v)) && (next.Present? ==> Parsed(next.value))
  {
    assert ([key] + rest)[1..] == rest;
    if v.Obj? {
      forall m | m in v.members
        ensures Find(v.members, m.key) == Some(m.value)
      {
        MemberFound(v.members, m);
      }
    }
    hide Find, DistinctKeys;
    match v
    case Obj(members) =>
      if Find(members, key).Some? { assert Member(key, Find(members, key).value) in members; }
    case Arr(items) =>
      if Child(v, key, toInt).Present? { assert Child(v, key, toInt).value in items; }
    case _ =>
  }

  lemma {:induction false} FollowsExactly(v: Json, keys: seq<string>, toInt: string -> Option<int>, w: Json)
    requires Parsed(v)
    ensures Follow(v, keys, toInt) == Present(w) <==> Leads(v, keys, toInt, w)
    decreases |keys|
  {
    if |keys| > 0 {
      assert keys == [keys[0]] + keys[1..];
      ChildLeads(v, keys[0], keys[1..], toInt, w);
      hide Leads, Parsed, Child;
      var next := Child(v, keys[0], toInt);
      if next.Present? { FollowsExactly(next.value, keys[1..], toInt, w); }
    }
  }

  lemma StopsHere(v: Json, keys: seq<string>, toInt: string -> Option<int>)
    requires |keys| > 0
    ensures StopsAt(v, keys, toInt, 0) <==> !Container(v)
  {
    assert keys[..0] == [];
    assert Leads(v, [], toInt, v);
  }

  lemma StopsBelow(v: Json, keys: seq<string>, toInt: string -> Option<int>, k: nat)
    requires |keys| > 0 && Parsed(v)
    ensures var next := Child(v, keys[0], toInt);
            StopsAt(v, keys, toInt, k + 1) <==> next.Present? && StopsAt(next.value, keys[1..], toInt, k)
  {
    var next := Child(v, keys[0], toInt);
    if k < |keys| - 1 {
      assert keys[..k + 1] == [keys[0]] + keys[1..][..k];
      forall u
        ensures Leads(v, keys[..k + 1], toInt, u) <==> next.Present? && Leads(next.value, keys[1..][..k], toInt, u)
      {
        ChildLeads(v, keys[0], keys[1..][..k], toInt, u);
      }
      hide Leads, Parsed, Child;
    }
  }

  ghost predicate Stops(v: Json, keys: seq<string>, toInt: string -> Option<int>) {
    exists k :: StopsAt(v, keys, toInt, k)
  }

  lemma StopsNow(v: Json, keys: seq<string>, toInt: string -> Option<int>)
    requires |keys| > 0 && Parsed(v)
    ensures var next := Child(v, keys[0], toInt);
            Stops(v, keys, toInt) <==> next.Miscast? || (next.Present? && Stops(next.value, keys[1..], toInt))
  {
    var next := Child(v, keys[0], toInt);
    StopsHere(v, keys, toInt);
    ChildLeads(v, keys[0], keys[1..], toInt, v);
    hide StopsAt, Child, Parsed, Leads;
    if k: nat :| StopsAt(v, keys, toInt, k) {
      if k > 0 { StopsBelow(v, keys, toInt, k - 1); }
    }
    if next.Present? {
      if k: nat :| StopsAt(next.value, keys[1..], toInt, k) { StopsBelow(v, keys, toInt, k); }
    }
  }

  lemma {:induction false} MiscastExactly(v: Json, keys: seq<string>, toInt: string -> Option<int>)
    requires Parsed(v)
    ensures Follow(v, keys, toInt) == Miscast <==> Stops(v, keys, toInt)
    decreases |keys|
  {
    if |keys| > 0 {
      StopsNow(v, keys, toInt);
      ChildLeads(v, keys[0], keys[1..], toInt, v);
      hide Stops, Parsed, Child, Leads;
      var next := Child(v, keys[0], toInt);
      if next.Present? { MiscastExactly(next.value, keys[1..], toInt); }
    }
  }

  /**
   The extractor's answer for the path of some keys: what the keys lead to, if anything but null; a type error exactly
   when they lead below a scalar or null; and missing otherwise. No document is missing, an unreadable one or a path
   without its slash is a type error.
   */
  lemma ExtractExactly(root: Json, keys: seq<string>, toInt: string -> Option<int>, path: string)
    requires Parsed(root)
    ensures var place := Extract(Some(Some(root)), Join(keys), toInt);
            && (forall w :: place == Present(w) <==> Leads(root, keys, toInt, w) && w != Null)
            && (place == Miscast <==> Stops(root, keys, toInt))
    ensures Extract(None, path, toInt) == Missing && Extract(Some(None), path, toInt) == Miscast
    ensures path != "" && path[0] != '/' ==> Extract(Some(Some(root)), path, toInt) == Miscast
  {
    PathsReadBack(keys);
    MiscastExactly(root, keys, toInt);
    forall w
      ensures Follow(root, keys, toInt) == Present(w) <==> Leads(root, keys, toInt, w)
    {
      FollowsExactly(root, keys, toInt, w);
    }
    hide Leads, Stops, Join, Follow, Parsed;
  }
}
