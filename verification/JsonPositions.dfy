/** The totals of a tree told from its positions: where its values are, how deep, and what each holds of its own. */
module JsonPositions {
  import opened Bytes
  import opened Json
  import opened JsonBudget
  import opened Wrappers

  /** The items of an array or the values of an object. */
  function Children(j: Json): seq<Json> {
    match j
    case Array(items) => items
    case Object(members) => seq(|members|, i requires 0 <= i < |members| => members[i].value)
    case _ => []
  }

  /** The value that a path of child numbers leads to, if there is one. */
  function At(j: Json, path: seq<nat>): Option<Json>
    decreases |path|
  {
    if path == [] then Some(j)
    else if path[0] < |Children(j)| then At(Children(j)[path[0]], path[1..])
    else None
  }

  /** The bytes of a value itself: a text's own, or those of an object's keys. */
  function OwnBytes(j: Json): nat {
    match j
    case Text(text) => Utf8Length(text)
    case Object(members) => KeyBytes(members)
    case _ => 0
  }

  function KeyBytes(members: seq<Member>): nat {
    if members == [] then 0 else KeyBytes(members[..|members| - 1]) + Utf8Length(members[|members| - 1].key)
  }

  // ------------------------------------------------------------------ objects are like arrays

  lemma {:induction false} MembersAreItems(members: seq<Member>)
    ensures var values := Children(Object(members));
            && NodesOf(values) == NodesOfMembers(members)
            && HeightOf(values) == HeightOfMembers(members)
            && BytesOf(values) + KeyBytes(members) == BytesOfMembers(members)
  {
    if members != [] {
      var n := |members| - 1;
      MembersAreItems(members[..n]);
      assert Children(Object(members))[..n] == Children(Object(members[..n]));
    }
  }

  lemma ByChildren(j: Json)
    ensures Nodes(j) == 1 + NodesOf(Children(j))
    ensures Height(j) == 1 + HeightOf(Children(j))
    ensures StringBytes(j) == OwnBytes(j) + BytesOf(Children(j))
  {
    if j.Object? {
      MembersAreItems(j.members);
    }
  }

  // ------------------------------------------------------------------ all positions, in the order of the walk

  function Below(k: nat, paths: seq<seq<nat>>): seq<seq<nat>> {
    seq(|paths|, i requires 0 <= i < |paths| => [k] + paths[i])
  }

  function Positions(j: Json): seq<seq<nat>>
    decreases Nodes(j), 0
  {
    ByChildren(j);
    [[]] + PositionsIn(Children(j))
  }

  function PositionsIn(items: seq<Json>): seq<seq<nat>>
    decreases NodesOf(items), 1, |items|
  {
    if items == [] then []
    else PositionsIn(items[..|items| - 1]) + Below(|items| - 1, Positions(items[|items| - 1]))
  }

  predicate Leads(items: seq<Json>, path: seq<nat>) {
    path != [] && path[0] < |items| && At(items[path[0]], path[1..]).Some?
  }

  /** Every position is listed, and nothing else. */
  lemma {:induction false} PositionsAreAll(j: Json, path: seq<nat>)
    ensures path in Positions(j) <==> At(j, path).Some?
    decreases Nodes(j), 0
  {
    ByChildren(j);
    PositionsInAreAll(Children(j), path);
    assert path in Positions(j) <==> path == [] || path in PositionsIn(Children(j));
  }

  lemma PathsBelow(k: nat, paths: seq<seq<nat>>, path: seq<nat>)
    ensures path in Below(k, paths) <==> path != [] && path[0] == k && path[1..] in paths
  {
    if path != [] && path[0] == k && path[1..] in paths {
      var i :| 0 <= i < |paths| && paths[i] == path[1..];
      assert Below(k, paths)[i] == path;
    }
  }

  lemma {:induction false} PositionsInAreAll(items: seq<Json>, path: seq<nat>)
    ensures path in PositionsIn(items) <==> Leads(items, path)
    decreases NodesOf(items), 1, |items|
  {
    if items != [] {
      var n := |items| - 1;
      PositionsInAreAll(items[..n], path);
      PathsBelow(n, Positions(items[n]), path);
      if path != [] {
        PositionsAreAll(items[n], path[1..]);
      }
    }
  }

  ghost predicate Distinct(paths: seq<seq<nat>>) {
    forall i, k :: 0 <= i < k < |paths| ==> paths[i] != paths[k]
  }

  lemma {:induction false} PositionsAreDistinct(j: Json)
    ensures Distinct(Positions(j))
    decreases Nodes(j), 0
  {
    ByChildren(j);
    PositionsInAreDistinct(Children(j));
    PositionsInAreAll(Children(j), []);
  }

  lemma {:induction false} PositionsInAreDistinct(items: seq<Json>)
    ensures Distinct(PositionsIn(items))
    decreases NodesOf(items), 1, |items|
  {
    if items != [] {
      var n := |items| - 1;
      var front, paths := PositionsIn(items[..n]), Positions(items[n]);
      PositionsInAreDistinct(items[..n]);
      PositionsAreDistinct(items[n]);
      forall path | path in front
        ensures path != [] && path[0] < n
      {
        PositionsInAreAll(items[..n], path);
      }
      forall i, k | 0 <= i < k < |paths|
        ensures Below(n, paths)[i] != Below(n, paths)[k]
      {
        assert Below(n, paths)[i][1..] == paths[i] && Below(n, paths)[k][1..] == paths[k];
      }
      assert forall k :: 0 <= k < |paths| ==> Below(n, paths)[k][0] == n;
    }
  }

  lemma {:induction false} CountOfPositions(j: Json)
    ensures |Positions(j)| == Nodes(j)
    decreases Nodes(j), 0
  {
    ByChildren(j);
    CountOfPositionsIn(Children(j));
  }

  lemma {:induction false} CountOfPositionsIn(items: seq<Json>)
    ensures |PositionsIn(items)| == NodesOf(items)
    decreases NodesOf(items), 1, |items|
  {
    if items != [] {
      CountOfPositionsIn(items[..|items| - 1]);
      CountOfPositions(items[|items| - 1]);
    }
  }

  /** The node figure of a tree is the number of its positions. */
  lemma NodesAreCounted(j: Json)
    ensures |Positions(j)| == Nodes(j) && Distinct(Positions(j))
    ensures forall path :: path in Positions(j) <==> At(j, path).Some?
  {
    CountOfPositions(j);
    PositionsAreDistinct(j);
    forall path
      ensures path in Positions(j) <==> At(j, path).Some?
    {
      PositionsAreAll(j, path);
    }
  }

  // ------------------------------------------------------------------ the depth

  lemma {:induction false} NoPathIsLonger(j: Json, path: seq<nat>)
    requires At(j, path).Some?
    ensures |path| < Height(j)
    decreases |path|
  {
    ByChildren(j);
    if path != [] {
      NoPathIsLonger(Children(j)[path[0]], path[1..]);
      HeightOfAll(Children(j), path[0]);
    }
  }

  lemma {:induction false} HeightOfAll(items: seq<Json>, i: nat)
    requires i < |items|
    ensures Height(items[i]) <= HeightOf(items)
  {
    if i < |items| - 1 {
      HeightOfAll(items[..|items| - 1], i);
    }
  }

  lemma {:induction false} Highest(items: seq<Json>) returns (i: nat)
    requires items != []
    ensures i < |items| && Height(items[i]) == HeightOf(items)
  {
    i := |items| - 1;
    if |items| > 1 && HeightOf(items[..|items| - 1]) > Height(items[|items| - 1]) {
      i := Highest(items[..|items| - 1]);
    }
  }

  lemma {:induction false} LongestPath(j: Json) returns (path: seq<nat>)
    ensures At(j, path).Some? && |path| == Height(j) - 1
    decreases Height(j)
  {
    ByChildren(j);
    path := [];
    if Children(j) != [] {
      var i := Highest(Children(j));
      HeightIsPositive(Children(j)[i]);
      var rest := LongestPath(Children(j)[i]);
      path := [i] + rest;
      assert path[1..] == rest;
    }
  }

  /** The depth figure is one more than the length of the longest path. */
  lemma HeightIsLongestPath(j: Json)
    ensures forall path :: At(j, path).Some? ==> |path| + 1 <= Height(j)
    ensures exists path :: At(j, path).Some? && |path| + 1 == Height(j)
  {
    forall path | At(j, path).Some?
      ensures |path| + 1 <= Height(j)
    {
      NoPathIsLonger(j, path);
    }
    var path := LongestPath(j);
  }

  // ------------------------------------------------------------------ containers and texts

  /** The container limit holds exactly if no value anywhere has more children. */
  lemma NarrowIsEverywhere(j: Json, most: nat)
    ensures Narrow(j, most) <==> forall path :: At(j, path).Some? ==> |Children(At(j, path).value)| <= most
  {
    if Narrow(j, most) {
      forall path | At(j, path).Some?
        ensures |Children(At(j, path).value)| <= most
      {
        NarrowBelow(j, most, path);
      }
    } else {
      var path := WideAt(j, most);
    }
  }

  lemma {:induction false} NarrowBelow(j: Json, most: nat, path: seq<nat>)
    requires Narrow(j, most) && At(j, path).Some?
    ensures |Children(At(j, path).value)| <= most
    decreases |path|
  {
    if path != [] {
      assert Narrow(Children(j)[path[0]], most);
      NarrowBelow(Children(j)[path[0]], most, path[1..]);
    }
  }

  lemma {:induction false} WideAt(j: Json, most: nat) returns (path: seq<nat>)
    requires !Narrow(j, most)
    ensures At(j, path).Some? && |Children(At(j, path).value)| > most
    decreases Height(j)
  {
    path := [];
    if |Children(j)| <= most {
      var i: nat :| i < |Children(j)| && !Narrow(Children(j)[i], most);
      ByChildren(j);
      HeightOfAll(Children(j), i);
      var rest := WideAt(Children(j)[i], most);
      path := [i] + rest;
      assert path[1..] == rest;
    }
  }

  /** The bytes that the values at these positions hold themselves. */
  function BytesAt(j: Json, paths: seq<seq<nat>>): nat
    requires forall path :: path in paths ==> At(j, path).Some?
  {
    if paths == [] then 0
    else BytesAt(j, paths[..|paths| - 1]) + OwnBytes(At(j, paths[|paths| - 1]).value)
  }

  lemma {:induction false} BytesAtConcat(j: Json, a: seq<seq<nat>>, b: seq<seq<nat>>)
    requires forall path :: path in a + b ==> At(j, path).Some?
    ensures BytesAt(j, a + b) == BytesAt(j, a) + BytesAt(j, b)
  {
    if b == [] {
      assert a + b == a;
    } else {
      var n := |b| - 1;
      assert (a + b)[..|a + b| - 1] == a + b[..n];
      BytesAtConcat(j, a, b[..n]);
    }
  }

  lemma {:induction false} BytesBelow(j: Json, k: nat, paths: seq<seq<nat>>)
    requires k < |Children(j)|
    requires forall path :: path in paths ==> At(Children(j)[k], path).Some?
    ensures forall path :: path in Below(k, paths) ==> At(j, path).Some?
    ensures BytesAt(j, Below(k, paths)) == BytesAt(Children(j)[k], paths)
  {
    forall path | path in Below(k, paths)
      ensures At(j, path).Some?
    {
      var i :| 0 <= i < |paths| && Below(k, paths)[i] == path;
      assert path[1..] == paths[i];
    }
    if paths != [] {
      var n := |paths| - 1;
      assert Below(k, paths)[..n] == Below(k, paths[..n]);
      assert Below(k, paths)[n][1..] == paths[n];
      BytesBelow(j, k, paths[..n]);
    }
  }

  /** The string figure is the total of what the values at all positions hold themselves. */
  lemma {:induction false} StringBytesAreTotal(j: Json)
    ensures forall path :: path in Positions(j) ==> At(j, path).Some?
    ensures StringBytes(j) == BytesAt(j, Positions(j))
    decreases Nodes(j), 0, 0
  {
    NodesAreCounted(j);
    ByChildren(j);
    var all := PositionsIn(Children(j));
    BytesOfChildren(j, |Children(j)|);
    assert Children(j)[..|Children(j)|] == Children(j);
    BytesAtConcat(j, [[]], all);
    assert BytesAt(j, [[]]) == BytesAt(j, []) + OwnBytes(j);
  }

  lemma {:induction false} BytesOfChildren(j: Json, n: nat)
    requires n <= |Children(j)|
    ensures forall path :: path in PositionsIn(Children(j)[..n]) ==> At(j, path).Some?
    ensures BytesAt(j, PositionsIn(Children(j)[..n])) == BytesOf(Children(j)[..n])
    decreases Nodes(j) - 1, 1, n
  {
    var items := Children(j)[..n];
    if n > 0 {
      assert items[..n - 1] == Children(j)[..n - 1];
      BytesOfChildren(j, n - 1);
      ByChildren(j);
      NodesOfAll(Children(j), n - 1);
      StringBytesAreTotal(items[n - 1]);
      BytesBelow(j, n - 1, Positions(items[n - 1]));
      BytesAtConcat(j, PositionsIn(items[..n - 1]), Below(n - 1, Positions(items[n - 1])));
    }
  }

  lemma {:induction false} NodesOfAll(items: seq<Json>, i: nat)
    requires i < |items|
    ensures Nodes(items[i]) <= NodesOf(items)
  {
    if i < |items| - 1 {
      NodesOfAll(items[..|items| - 1], i);
    }
  }

  // ------------------------------------------------------------------ the order of the walk

  /** The depths of the values that are charged, in order. */
  function DepthsIn(charges: seq<Charge>): seq<nat> {
    if charges == [] then []
    else
      var last := charges[|charges| - 1];
      DepthsIn(charges[..|charges| - 1]) + (if last.Value? then [last.depth] else [])
  }

  lemma {:induction false} DepthsConcat(a: seq<Charge>, b: seq<Charge>)
    ensures DepthsIn(a + b) == DepthsIn(a) + DepthsIn(b)
  {
    if b == [] {
      assert a + b == a;
    } else {
      assert (a + b)[..|a + b| - 1] == a + b[..|b| - 1];
      DepthsConcat(a, b[..|b| - 1]);
    }
  }

  lemma {:induction false} DepthsCons(c: Charge, rest: seq<Charge>)
    ensures DepthsIn([c] + rest) == (if c.Value? then [c.depth] else []) + DepthsIn(rest)
  {
    assert [c][..0] == [];
    DepthsConcat([c], rest);
  }

  lemma {:induction false} DepthsOfMember(front: seq<Charge>, items: seq<Charge>, m: Member, depth: nat)
    requires DepthsIn(front) == DepthsIn(items)
    ensures DepthsIn(front + ChargesOfMember(m, depth)) == DepthsIn(items + Charges(m.value, depth))
  {
    DepthsCons(Characters(Utf8Length(m.key)), Charges(m.value, depth));
    DepthsConcat(front, ChargesOfMember(m, depth));
    DepthsConcat(items, Charges(m.value, depth));
  }

  lemma {:induction false} MembersChargedLikeItems(members: seq<Member>, depth: nat)
    ensures DepthsIn(ChargesOfMembers(members, depth)) == DepthsIn(ChargesOf(Children(Object(members)), depth))
  {
    if members != [] {
      var n := |members| - 1;
      MembersChargedLikeItems(members[..n], depth);
      assert Children(Object(members))[..n] == Children(Object(members[..n]));
      DepthsOfMember(ChargesOfMembers(members[..n], depth), ChargesOf(Children(Object(members[..n])), depth),
                     members[n], depth);
    }
  }

  lemma {:induction false} DepthsOfContainer(depth: nat, size: nat, contents: seq<Charge>)
    ensures DepthsIn([Value(depth)] + ([Container(size)] + contents)) == [depth] + DepthsIn(contents)
  {
    DepthsCons(Value(depth), [Container(size)] + contents);
    DepthsCons(Container(size), contents);
  }

  lemma {:induction false} DepthsOfLeaf(j: Json, depth: nat)
    requires !j.Array? && !j.Object?
    ensures DepthsIn(Charges(j, depth)) == [depth] && Children(j) == []
  {
    DepthsCons(Value(depth), []);
    if j.Text? {
      var own := Characters(Utf8Length(j.text));
      DepthsCons(Value(depth), [own]);
      DepthsCons(own, []);
      assert [own] + [] == [own];
    }
  }

  lemma {:induction false} ChargedThenChildren(j: Json, depth: nat)
    ensures DepthsIn(Charges(j, depth)) == [depth] + DepthsIn(ChargesOf(Children(j), depth + 1))
  {
    match j
    case Array(items) => DepthsOfContainer(depth, |items|, ChargesOf(items, depth + 1));
    case Object(members) =>
      DepthsOfContainer(depth, |members|, ChargesOfMembers(members, depth + 1));
      MembersChargedLikeItems(members, depth + 1);
    case _ => DepthsOfLeaf(j, depth);
  }

  function DepthsAt(depth: nat, paths: seq<seq<nat>>): seq<nat> {
    seq(|paths|, i requires 0 <= i < |paths| => depth + |paths[i]|)
  }

  lemma {:induction false} DepthsFollowOn(depth: nat, front: seq<seq<nat>>, k: nat, paths: seq<seq<nat>>)
    ensures DepthsAt(depth, front + Below(k, paths)) == DepthsAt(depth, front) + DepthsAt(depth + 1, paths)
  {
  }

  lemma {:induction false} DepthsFromRoot(depth: nat, paths: seq<seq<nat>>)
    ensures DepthsAt(depth, [[]] + paths) == [depth] + DepthsAt(depth, paths)
  {
  }

  /** The values of a tree are charged one by one in the order of its positions, each at its depth. */
  lemma {:induction false} ChargedInOrder(j: Json, depth: nat)
    ensures DepthsIn(Charges(j, depth)) == DepthsAt(depth, Positions(j))
    decreases Nodes(j), 0
  {
    ByChildren(j);
    ChargedThenChildren(j, depth);
    ItemsChargedInOrder(Children(j), depth);
    DepthsFromRoot(depth, PositionsIn(Children(j)));
  }

  lemma {:induction false} ItemsChargedInOrder(items: seq<Json>, depth: nat)
    ensures DepthsIn(ChargesOf(items, depth + 1)) == DepthsAt(depth, PositionsIn(items))
    decreases NodesOf(items), 1, |items|
  {
    if items != [] {
      var n := |items| - 1;
      ItemsChargedInOrder(items[..n], depth);
      ChargedInOrder(items[n], depth + 1);
      DepthsConcat(ChargesOf(items[..n], depth + 1), Charges(items[n], depth + 1));
      DepthsFollowOn(depth, PositionsIn(items[..n]), n, Positions(items[n]));
    }
  }
}
