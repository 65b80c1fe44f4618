/** The size budget of an imported project: one recursive walk with early exit, against plain totals of the tree. */
module JsonBudget {
  import opened Bytes
  import opened Json
  import opened Wrappers

  datatype Failure = NodeLimit | DepthLimit | ContainerLimit | StringLimit

  datatype Limits = Limits(depth: nat, nodes: nat, stringBytes: nat, containerElements: nat)

  // ------------------------------------------------------------------ totals of a tree

  function Nodes(j: Json): nat {
    match j
    case Array(items) => 1 + NodesOf(items)
    case Object(members) => 1 + NodesOfMembers(members)
    case _ => 1
  }

  function NodesOf(items: seq<Json>): nat {
    if items == [] then 0 else NodesOf(items[..|items| - 1]) + Nodes(items[|items| - 1])
  }

  function NodesOfMembers(members: seq<Member>): nat {
    if members == [] then 0 else NodesOfMembers(members[..|members| - 1]) + Nodes(members[|members| - 1].value)
  }

  /** Bytes of all keys and all string values, in UTF-8. */
  function StringBytes(j: Json): nat {
    match j
    case Text(text) => Utf8Length(text)
    case Array(items) => BytesOf(items)
    case Object(members) => BytesOfMembers(members)
    case _ => 0
  }

  function BytesOf(items: seq<Json>): nat {
    if items == [] then 0 else BytesOf(items[..|items| - 1]) + StringBytes(items[|items| - 1])
  }

  function BytesOfMembers(members: seq<Member>): nat {
    if members == [] then 0
    else BytesOfMembers(members[..|members| - 1]) + MemberBytes(members[|members| - 1])
  }

  function MemberBytes(m: Member): nat { Utf8Length(m.key) + StringBytes(m.value) }

  /** Levels of the tree: 1 for a leaf or an empty container. */
  function Height(j: Json): nat {
    match j
    case Array(items) => 1 + HeightOf(items)
    case Object(members) => 1 + HeightOfMembers(members)
    case _ => 1
  }

  function HeightOf(items: seq<Json>): nat {
    if items == [] then 0 else Max(HeightOf(items[..|items| - 1]), Height(items[|items| - 1]))
  }

  function HeightOfMembers(members: seq<Member>): nat {
    if members == [] then 0 else Max(HeightOfMembers(members[..|members| - 1]), Height(members[|members| - 1].value))
  }

  /** No container anywhere in the tree has more elements than allowed. */
  predicate Narrow(j: Json, most: nat) {
    match j
    case Array(items) => |items| <= most && forall i :: 0 <= i < |items| ==> Narrow(items[i], most)
    case Object(members) => |members| <= most && forall i :: 0 <= i < |members| ==> Narrow(members[i].value, most)
    case _ => true
  }

  // ------------------------------------------------------------------ the charges of a tree, one after the other

  /** One value at a depth, the size of a container, or the bytes of a key or a text. */
  datatype Charge = Value(depth: nat) | Container(size: nat) | Characters(bytes: nat)

  /** A value, then its size or its text, then what it contains, each key before its value. */
  function Charges(j: Json, depth: nat): seq<Charge>
    decreases j, 1
  {
    [Value(depth)] + match j
                     case Text(text) => [Characters(Utf8Length(text))]
                     case Array(items) => [Container(|items|)] + ChargesOf(items, depth + 1)
                     case Object(members) => [Container(|members|)] + ChargesOfMembers(members, depth + 1)
                     case _ => []
  }

  function ChargesOf(items: seq<Json>, depth: nat): seq<Charge>
    decreases items, 0
  {
    if items == [] then []
    else ChargesOf(items[..|items| - 1], depth) + Charges(items[|items| - 1], depth)
  }

  function ChargesOfMembers(members: seq<Member>, depth: nat): seq<Charge>
    decreases members, 0
  {
    if members == [] then []
    else ChargesOfMembers(members[..|members| - 1], depth) + ChargesOfMember(members[|members| - 1], depth)
  }

  function ChargesOfMember(m: Member, depth: nat): seq<Charge>
    decreases m, 2
  {
    [Characters(Utf8Length(m.key))] + Charges(m.value, depth)
  }

  function ValuesIn(charges: seq<Charge>): nat {
    if charges == [] then 0
    else ValuesIn(charges[..|charges| - 1]) + (if charges[|charges| - 1].Value? then 1 else 0)
  }

  function BytesIn(charges: seq<Charge>): nat {
    if charges == [] then 0
    else
      var last := charges[|charges| - 1];
      BytesIn(charges[..|charges| - 1]) + (if last.Characters? then last.bytes else 0)
  }

  /** The saturating comparison of the source: it never goes below zero. */
  function Room(used: nat, limit: nat): nat { limit - Min(used, limit) }

  /** What is wrong with a charge after so many values and bytes. */
  function Fault(limits: Limits, nodes: nat, bytes: nat, c: Charge): Option<Failure> {
    match c
    case Value(depth) =>
      if nodes >= limits.nodes then Some(NodeLimit) else if depth > limits.depth then Some(DepthLimit) else None
    case Container(size) => if size > limits.containerElements then Some(ContainerLimit) else None
    case Characters(more) => if more > Room(bytes, limits.stringBytes) then Some(StringLimit) else None
  }

  /** The first fault in a list of charges. */
  function FirstFault(limits: Limits, nodes: nat, bytes: nat, charges: seq<Charge>): Option<Failure> {
    if charges == [] then None
    else
      var front := charges[..|charges| - 1];
      var earlier := FirstFault(limits, nodes, bytes, front);
      if earlier.Some? then earlier
      else Fault(limits, nodes + ValuesIn(front), bytes + BytesIn(front), charges[|charges| - 1])
  }

  lemma {:induction false} TotalsConcat(a: seq<Charge>, b: seq<Charge>)
    ensures ValuesIn(a + b) == ValuesIn(a) + ValuesIn(b) && BytesIn(a + b) == BytesIn(a) + BytesIn(b)
  {
    if b == [] {
      assert a + b == a;
    } else {
      assert (a + b)[..|a + b| - 1] == a + b[..|b| - 1];
      TotalsConcat(a, b[..|b| - 1]);
    }
  }

  lemma {:induction false} FaultConcat(limits: Limits, nodes: nat, bytes: nat, a: seq<Charge>, b: seq<Charge>)
    ensures FirstFault(limits, nodes, bytes, a + b)
         == if FirstFault(limits, nodes, bytes, a).Some? then FirstFault(limits, nodes, bytes, a)
            else FirstFault(limits, nodes + ValuesIn(a), bytes + BytesIn(a), b)
  {
    if b == [] {
      assert a + b == a;
    } else {
      var front := b[..|b| - 1];
      assert (a + b)[..|a + b| - 1] == a + front;
      FaultConcat(limits, nodes, bytes, a, front);
      TotalsConcat(a, front);
    }
  }

  lemma {:induction false} FaultCons(limits: Limits, nodes: nat, bytes: nat, c: Charge, rest: seq<Charge>)
    ensures FirstFault(limits, nodes, bytes, [c] + rest)
         == if Fault(limits, nodes, bytes, c).Some? then Fault(limits, nodes, bytes, c)
            else FirstFault(limits, nodes + (if c.Value? then 1 else 0), bytes + (if c.Characters? then c.bytes else 0),
                            rest)
  {
    assert [c][..0] == [];
    FaultConcat(limits, nodes, bytes, [c], rest);
  }

  lemma {:induction false} ChargesTotal(j: Json, depth: nat)
    ensures ValuesIn(Charges(j, depth)) == Nodes(j) && BytesIn(Charges(j, depth)) == StringBytes(j)
    decreases j, 1
  {
    var head := [Value(depth)];
    assert head[..0] == [];
    match j
    case Text(text) =>
      TotalsConcat(head, [Characters(Utf8Length(text))]);
    case Array(items) =>
      ChargesOfTotal(items, depth + 1);
      TotalsConcat([Container(|items|)], ChargesOf(items, depth + 1));
      TotalsConcat(head, [Container(|items|)] + ChargesOf(items, depth + 1));
    case Object(members) =>
      ChargesOfMembersTotal(members, depth + 1);
      TotalsConcat([Container(|members|)], ChargesOfMembers(members, depth + 1));
      TotalsConcat(head, [Container(|members|)] + ChargesOfMembers(members, depth + 1));
    case _ =>
      assert head + [] == head;
  }

  lemma {:induction false} ChargesOfTotal(items: seq<Json>, depth: nat)
    ensures ValuesIn(ChargesOf(items, depth)) == NodesOf(items) && BytesIn(ChargesOf(items, depth)) == BytesOf(items)
    decreases items, 0
  {
    if items != [] {
      var n := |items| - 1;
      ChargesOfTotal(items[..n], depth);
      ChargesTotal(items[n], depth);
      TotalsConcat(ChargesOf(items[..n], depth), Charges(items[n], depth));
    }
  }

  lemma {:induction false} ChargesOfMemberTotal(m: Member, depth: nat)
    ensures ValuesIn(ChargesOfMember(m, depth)) == Nodes(m.value)
    ensures BytesIn(ChargesOfMember(m, depth)) == MemberBytes(m)
    decreases m, 2
  {
    ChargesTotal(m.value, depth);
    TotalsConcat([Characters(Utf8Length(m.key))], Charges(m.value, depth));
  }

  lemma {:induction false} ChargesOfMembersTotal(members: seq<Member>, depth: nat)
    ensures ValuesIn(ChargesOfMembers(members, depth)) == NodesOfMembers(members)
    ensures BytesIn(ChargesOfMembers(members, depth)) == BytesOfMembers(members)
    decreases members, 0
  {
    if members != [] {
      var n := |members| - 1;
      ChargesOfMembersTotal(members[..n], depth);
      ChargesOfMemberTotal(members[n], depth);
      TotalsConcat(ChargesOfMembers(members[..n], depth), ChargesOfMember(members[n], depth));
    }
  }

  // ------------------------------------------------------------------ the first fault against the totals

  lemma {:induction false} FaultOfContainer(limits: Limits, nodes: nat, bytes: nat, depth: nat, size: nat,
                                            contents: seq<Charge>)
    ensures FirstFault(limits, nodes, bytes, [Value(depth)] + ([Container(size)] + contents))
         == if nodes >= limits.nodes then Some(NodeLimit)
            else if depth > limits.depth then Some(DepthLimit)
            else if size > limits.containerElements then Some(ContainerLimit)
            else FirstFault(limits, nodes + 1, bytes, contents)
  {
    FaultCons(limits, nodes, bytes, Value(depth), [Container(size)] + contents);
    FaultCons(limits, nodes + 1, bytes, Container(size), contents);
  }

  lemma {:induction false} FaultOfText(limits: Limits, nodes: nat, bytes: nat, depth: nat, more: nat)
    ensures FirstFault(limits, nodes, bytes, [Value(depth)] + [Characters(more)])
         == if nodes >= limits.nodes then Some(NodeLimit)
            else if depth > limits.depth then Some(DepthLimit)
            else if more > Room(bytes, limits.stringBytes) then Some(StringLimit) else None
  {
    FaultCons(limits, nodes, bytes, Value(depth), [Characters(more)]);
    FaultCons(limits, nodes + 1, bytes, Characters(more), []);
    assert [Characters(more)] + [] == [Characters(more)];
  }

  /** The first fault of a value, by its kind. */
  lemma {:induction false} FaultOfValue(limits: Limits, nodes: nat, bytes: nat, j: Json, depth: nat)
    ensures FirstFault(limits, nodes, bytes, Charges(j, depth))
         == if nodes >= limits.nodes then Some(NodeLimit)
            else if depth > limits.depth then Some(DepthLimit)
            else
              match j
              case Text(text) => if Utf8Length(text) > Room(bytes, limits.stringBytes) then Some(StringLimit) else None
              case Array(items) =>
                if |items| > limits.containerElements then Some(ContainerLimit)
                else FirstFault(limits, nodes + 1, bytes, ChargesOf(items, depth + 1))
              case Object(members) =>
                if |members| > limits.containerElements then Some(ContainerLimit)
                else FirstFault(limits, nodes + 1, bytes, ChargesOfMembers(members, depth + 1))
              case _ => None
  {
    match j
    case Text(text) => FaultOfText(limits, nodes, bytes, depth, Utf8Length(text));
    case Array(items) => FaultOfContainer(limits, nodes, bytes, depth, |items|, ChargesOf(items, depth + 1));
    case Object(members) =>
      FaultOfContainer(limits, nodes, bytes, depth, |members|, ChargesOfMembers(members, depth + 1));
    case _ => FaultCons(limits, nodes, bytes, Value(depth), []);
  }

  lemma {:induction false} HeightIsPositive(j: Json)
    ensures Height(j) >= 1
  {
  }

  /** What a list of values amounts to, and whether every container in it is narrow enough. */
  datatype Totals = Totals(nodes: nat, bytes: nat, height: nat, narrow: bool)

  function Joined(a: Totals, b: Totals): Totals {
    Totals(a.nodes + b.nodes, a.bytes + b.bytes, Max(a.height, b.height), a.narrow && b.narrow)
  }

  /** What is left of the budget covers the totals, counted from this depth. */
  predicate Covers(limits: Limits, nodes: nat, bytes: nat, depth: nat, t: Totals) {
    && nodes + t.nodes <= limits.nodes
    && t.bytes <= Room(bytes, limits.stringBytes)
    && (t.height > 0 ==> depth + t.height - 1 <= limits.depth)
    && t.narrow
  }

  /** The limit that a failure names is one the totals exceed. */
  predicate Exceeds(limits: Limits, nodes: nat, bytes: nat, depth: nat, t: Totals, f: Failure) {
    match f
    case NodeLimit => nodes + t.nodes > limits.nodes
    case DepthLimit => t.height > 0 && depth + t.height - 1 > limits.depth
    case ContainerLimit => !t.narrow
    case StringLimit => t.bytes > Room(bytes, limits.stringBytes)
  }

  /** There is no fault exactly if the totals are covered, and a fault names a limit that they exceed. */
  predicate Explained(limits: Limits, nodes: nat, bytes: nat, depth: nat, t: Totals, fault: Option<Failure>) {
    && (nodes <= limits.nodes ==> (fault == None <==> Covers(limits, nodes, bytes, depth, t)))
    && (fault.Some? ==> Exceeds(limits, nodes, bytes, depth, t, fault.value))
  }

  /** The charges amount to the totals, and their first fault is explained by them, whatever came before. */
  ghost predicate Charged(limits: Limits, depth: nat, charges: seq<Charge>, t: Totals) {
    && ValuesIn(charges) == t.nodes && BytesIn(charges) == t.bytes
    && forall nodes, bytes :: Explained(limits, nodes, bytes, depth, t, FirstFault(limits, nodes, bytes, charges))
  }

  lemma {:induction false} JoinedIsExplained(limits: Limits, nodes: nat, bytes: nat, depth: nat, a: Totals, b: Totals,
                                             first: Option<Failure>, second: Option<Failure>)
    requires Explained(limits, nodes, bytes, depth, a, first)
    requires Explained(limits, nodes + a.nodes, bytes + a.bytes, depth, b, second)
    ensures Explained(limits, nodes, bytes, depth, Joined(a, b), if first.Some? then first else second)
  {
  }

  lemma {:induction false} JoinedIsCharged(limits: Limits, depth: nat, a: seq<Charge>, b: seq<Charge>, t: Totals,
                                           u: Totals)
    requires Charged(limits, depth, a, t) && Charged(limits, depth, b, u)
    ensures Charged(limits, depth, a + b, Joined(t, u))
  {
    TotalsConcat(a, b);
    forall nodes: nat, bytes: nat
      ensures Explained(limits, nodes, bytes, depth, Joined(t, u), FirstFault(limits, nodes, bytes, a + b))
    {
      FaultConcat(limits, nodes, bytes, a, b);
      JoinedIsExplained(limits, nodes, bytes, depth, t, u, FirstFault(limits, nodes, bytes, a),
                        FirstFault(limits, nodes + t.nodes, bytes + t.bytes, b));
    }
  }

  /** One level further up everything is one level higher. */
  lemma {:induction false} RaisedIsCharged(limits: Limits, depth: nat, charges: seq<Charge>, t: Totals)
    requires Charged(limits, depth + 1, charges, t)
    ensures Charged(limits, depth, charges, t.(height := if t.height == 0 then 0 else t.height + 1))
  {
    forall nodes: nat, bytes: nat
      ensures Explained(limits, nodes, bytes, depth, t.(height := if t.height == 0 then 0 else t.height + 1),
                        FirstFault(limits, nodes, bytes, charges))
    {
      assert Explained(limits, nodes, bytes, depth + 1, t, FirstFault(limits, nodes, bytes, charges));
    }
  }

  lemma {:induction false} OneIsCharged(limits: Limits, depth: nat, c: Charge)
    requires c.Value? ==> c.depth == depth
    ensures Charged(limits, depth, [c],
                    match c
                    case Value(_) => Totals(1, 0, 1, true)
                    case Container(size) => Totals(0, 0, 0, size <= limits.containerElements)
                    case Characters(bytes) => Totals(0, bytes, 0, true))
  {
    assert [c][..0] == [];
  }

  function TotalsOf(j: Json, most: nat): Totals { Totals(Nodes(j), StringBytes(j), Height(j), Narrow(j, most)) }

  function TotalsOfItems(items: seq<Json>, most: nat): Totals {
    Totals(NodesOf(items), BytesOf(items), HeightOf(items), forall k :: 0 <= k < |items| ==> Narrow(items[k], most))
  }

  function TotalsOfMembers(members: seq<Member>, most: nat): Totals {
    Totals(NodesOfMembers(members), BytesOfMembers(members), HeightOfMembers(members),
           forall k :: 0 <= k < |members| ==> Narrow(members[k].value, most))
  }

  lemma {:induction false} ItemsJoin(items: seq<Json>, most: nat)
    requires items != []
    ensures TotalsOfItems(items, most)
         == Joined(TotalsOfItems(items[..|items| - 1], most), TotalsOf(items[|items| - 1], most))
  {
    assert items == items[..|items| - 1] + [items[|items| - 1]];
  }

  lemma {:induction false} MembersJoin(members: seq<Member>, most: nat)
    requires members != []
    ensures TotalsOfMembers(members, most)
         == Joined(TotalsOfMembers(members[..|members| - 1], most),
                   Joined(Totals(0, Utf8Length(members[|members| - 1].key), 0, true),
                          TotalsOf(members[|members| - 1].value, most)))
  {
    assert members == members[..|members| - 1] + [members[|members| - 1]];
    assert MemberBytes(members[|members| - 1])
        == Utf8Length(members[|members| - 1].key) + StringBytes(members[|members| - 1].value);
  }

  lemma {:induction false} NothingIsCharged(limits: Limits, depth: nat)
    ensures Charged(limits, depth, [], Totals(0, 0, 0, true))
  {
  }

  lemma {:induction false} SizeIsCharged(limits: Limits, depth: nat, size: nat, contents: seq<Charge>, t: Totals)
    requires Charged(limits, depth, contents, t)
    ensures Charged(limits, depth, [Container(size)] + contents,
                    t.(narrow := size <= limits.containerElements && t.narrow))
  {
    OneIsCharged(limits, depth, Container(size));
    JoinedIsCharged(limits, depth, [Container(size)], contents, Totals(0, 0, 0, size <= limits.containerElements), t);
  }

  lemma {:induction false} ValueIsCharged(limits: Limits, depth: nat, contents: seq<Charge>, t: Totals)
    requires Charged(limits, depth, contents, t)
    ensures Charged(limits, depth, [Value(depth)] + contents, Joined(Totals(1, 0, 1, true), t))
  {
    OneIsCharged(limits, depth, Value(depth));
    JoinedIsCharged(limits, depth, [Value(depth)], contents, Totals(1, 0, 1, true), t);
  }

  /** A container: the value, its size, and its contents one level further down. */
  lemma {:induction false} ContainerIsCharged(limits: Limits, depth: nat, size: nat, contents: seq<Charge>, t: Totals)
    requires Charged(limits, depth + 1, contents, t)
    ensures Charged(limits, depth, [Value(depth)] + ([Container(size)] + contents),
                    Totals(1 + t.nodes, t.bytes, 1 + t.height, size <= limits.containerElements && t.narrow))
  {
    var raised := t.(height := if t.height == 0 then 0 else t.height + 1);
    var sized := raised.(narrow := size <= limits.containerElements && t.narrow);
    RaisedIsCharged(limits, depth, contents, t);
    SizeIsCharged(limits, depth, size, contents, raised);
    ValueIsCharged(limits, depth, [Container(size)] + contents, sized);
  }

  lemma {:induction false} LeafIsCharged(limits: Limits, depth: nat, j: Json)
    requires !j.Array? && !j.Object?
    ensures Charged(limits, depth, Charges(j, depth), TotalsOf(j, limits.containerElements))
  {
    OneIsCharged(limits, depth, Value(depth));
    if j.Text? {
      var own := Characters(Utf8Length(j.text));
      OneIsCharged(limits, depth, own);
      JoinedIsCharged(limits, depth, [Value(depth)], [own], Totals(1, 0, 1, true), Totals(0, own.bytes, 0, true));
    } else {
      assert [Value(depth)] + [] == [Value(depth)];
    }
  }

  lemma {:induction false} ArrayIsCharged(limits: Limits, depth: nat, items: seq<Json>)
    requires Charged(limits, depth + 1, ChargesOf(items, depth + 1), TotalsOfItems(items, limits.containerElements))
    ensures Charged(limits, depth, Charges(Array(items), depth), TotalsOf(Array(items), limits.containerElements))
  {
    ContainerIsCharged(limits, depth, |items|, ChargesOf(items, depth + 1),
                       TotalsOfItems(items, limits.containerElements));
  }

  lemma {:induction false} ObjectIsCharged(limits: Limits, depth: nat, members: seq<Member>)
    requires Charged(limits, depth + 1, ChargesOfMembers(members, depth + 1),
                     TotalsOfMembers(members, limits.containerElements))
    ensures Charged(limits, depth, Charges(Object(members), depth), TotalsOf(Object(members), limits.containerElements))
  {
    ContainerIsCharged(limits, depth, |members|, ChargesOfMembers(members, depth + 1),
                       TotalsOfMembers(members, limits.containerElements));
  }

  /** Charging a tree finds no fault exactly if its totals are within the limits; a fault names one they exceed. */
  lemma {:induction false} TreeIsCharged(limits: Limits, depth: nat, j: Json)
    ensures Charged(limits, depth, Charges(j, depth), TotalsOf(j, limits.containerElements))
    decreases j, 1
  {
    match j
    case Array(items) =>
      ItemsAreCharged(limits, depth + 1, items);
      ArrayIsCharged(limits, depth, items);
    case Object(members) =>
      MembersAreCharged(limits, depth + 1, members);
      ObjectIsCharged(limits, depth, members);
    case _ => LeafIsCharged(limits, depth, j);
  }

  lemma {:induction false} ItemsAreCharged(limits: Limits, depth: nat, items: seq<Json>)
    ensures Charged(limits, depth, ChargesOf(items, depth), TotalsOfItems(items, limits.containerElements))
    decreases items, 0
  {
    if items == [] {
      NothingIsCharged(limits, depth);
    } else {
      var front, last := items[..|items| - 1], items[|items| - 1];
      ItemsAreCharged(limits, depth, front);
      TreeIsCharged(limits, depth, last);
      JoinedIsCharged(limits, depth, ChargesOf(front, depth), Charges(last, depth),
                      TotalsOfItems(front, limits.containerElements), TotalsOf(last, limits.containerElements));
      ItemsJoin(items, limits.containerElements);
    }
  }

  lemma {:induction false} MembersAreCharged(limits: Limits, depth: nat, members: seq<Member>)
    ensures Charged(limits, depth, ChargesOfMembers(members, depth), TotalsOfMembers(members, limits.containerElements))
    decreases members, 0
  {
    if members == [] {
      NothingIsCharged(limits, depth);
    } else {
      var most := limits.containerElements;
      var front, last := members[..|members| - 1], members[|members| - 1];
      var key := Totals(0, Utf8Length(last.key), 0, true);
      MembersAreCharged(limits, depth, front);
      OneIsCharged(limits, depth, Characters(Utf8Length(last.key)));
      TreeIsCharged(limits, depth, last.value);
      JoinedIsCharged(limits, depth, [Characters(Utf8Length(last.key))], Charges(last.value, depth), key,
                      TotalsOf(last.value, most));
      JoinedIsCharged(limits, depth, ChargesOfMembers(front, depth), ChargesOfMember(last, depth),
                      TotalsOfMembers(front, most), Joined(key, TotalsOf(last.value, most)));
      MembersJoin(members, most);
    }
  }

  // ------------------------------------------------------------------ the walk

  /** The accumulator the source passes by reference. */
  class JsonMetrics {
    var nodes: nat
    var stringBytes: nat
    var maximumDepth: nat

    constructor ()
      ensures nodes == 0 && stringBytes == 0 && maximumDepth == 0
    {
      nodes, stringBytes, maximumDepth := 0, 0, 0;
    }
  }

  /** What the accumulator holds. */
  datatype Figures = Figures(nodes: nat, stringBytes: nat, depth: nat)

  function Held(metrics: JsonMetrics): Figures
    reads metrics
  {
    Figures(metrics.nodes, metrics.stringBytes, metrics.maximumDepth)
  }

  /** The figures with a value at this depth added to them; with the items or members of a container there. */
  function WithValue(f: Figures, depth: nat, j: Json): Figures {
    Figures(f.nodes + Nodes(j), f.stringBytes + StringBytes(j), Max(f.depth, depth + Height(j) - 1))
  }

  function WithItems(f: Figures, depth: nat, items: seq<Json>): Figures {
    Figures(f.nodes + NodesOf(items), f.stringBytes + BytesOf(items), Max(f.depth, depth + HeightOf(items)))
  }

  function WithMember(f: Figures, depth: nat, m: Member): Figures {
    WithValue(f.(stringBytes := f.stringBytes + Utf8Length(m.key)), depth, m.value)
  }

  function WithMembers(f: Figures, depth: nat, members: seq<Member>): Figures {
    Figures(f.nodes + NodesOfMembers(members), f.stringBytes + BytesOfMembers(members),
            Max(f.depth, depth + HeightOfMembers(members)))
  }

  /** The first fault of the charges, after what the figures hold. */
  function FaultAfter(limits: Limits, f: Figures, charges: seq<Charge>): Option<Failure> {
    FirstFault(limits, f.nodes, f.stringBytes, charges)
  }

  /** What the earlier charges leave decides the next ones. */
  lemma {:induction false} FaultContinues(limits: Limits, f: Figures, g: Figures, before: seq<Charge>, own: seq<Charge>)
    requires FaultAfter(limits, f, before) == None
    requires g.nodes == f.nodes + ValuesIn(before) && g.stringBytes == f.stringBytes + BytesIn(before)
    ensures FaultAfter(limits, f, before + own) == FaultAfter(limits, g, own)
  {
    FaultConcat(limits, f.nodes, f.stringBytes, before, own);
  }

  /** A fault stays the first whatever follows. */
  lemma {:induction false} FaultStays(limits: Limits, f: Figures, charges: seq<Charge>, rest: seq<Charge>)
    requires FaultAfter(limits, f, charges).Some?
    ensures FaultAfter(limits, f, charges + rest) == FaultAfter(limits, f, charges)
  {
    FaultConcat(limits, f.nodes, f.stringBytes, charges, rest);
  }

  lemma DepthsMerge(deepest: nat, depth: nat, a: nat, b: nat)
    ensures Max(Max(deepest, depth + a), depth + b) == Max(deepest, depth + Max(a, b))
  {
  }

  lemma {:induction false} WithNextItem(f: Figures, depth: nat, items: seq<Json>, i: nat)
    requires i < |items|
    ensures WithValue(WithItems(f, depth, items[..i]), depth + 1, items[i]) == WithItems(f, depth, items[..i + 1])
  {
    assert items[..i + 1][..i] == items[..i];
    DepthsMerge(f.depth, depth, HeightOf(items[..i]), Height(items[i]));
  }

  lemma {:induction false} ChargesOfNext(items: seq<Json>, i: nat, depth: nat)
    requires i < |items|
    ensures ChargesOf(items[..i + 1], depth) == ChargesOf(items[..i], depth) + Charges(items[i], depth)
  {
    assert items[..i + 1][..i] == items[..i];
  }

  lemma {:induction false} ChargesOfRest(items: seq<Json>, i: nat, depth: nat) returns (rest: seq<Charge>)
    requires i <= |items|
    ensures ChargesOf(items, depth) == ChargesOf(items[..i], depth) + rest
    decreases |items| - i
  {
    if i < |items| {
      rest := ChargesOfRest(items, i + 1, depth);
      ChargesOfNext(items, i, depth);
      rest := Charges(items[i], depth) + rest;
    } else {
      assert items[..i] == items;
      rest := [];
    }
  }

  /** The charges before an item, its own, and those after it. */
  lemma {:induction false} ChargesAround(items: seq<Json>, i: nat, depth: nat)
    returns (before: seq<Charge>, own: seq<Charge>, rest: seq<Charge>)
    requires i < |items|
    ensures before == ChargesOf(items[..i], depth) && own == Charges(items[i], depth)
    ensures before + own == ChargesOf(items[..i + 1], depth) && before + own + rest == ChargesOf(items, depth)
    ensures ValuesIn(before) == NodesOf(items[..i]) && BytesIn(before) == BytesOf(items[..i])
  {
    before, own := ChargesOf(items[..i], depth), Charges(items[i], depth);
    ChargesOfNext(items, i, depth);
    ChargesOfTotal(items[..i], depth);
    rest := ChargesOfRest(items, i + 1, depth);
  }

  /** What the earlier items leave decides the next one, and a fault there is that of them all. */
  lemma {:induction false} ItemDecides(limits: Limits, f: Figures, depth: nat, items: seq<Json>, i: nat)
    requires i < |items|
    requires FaultAfter(limits, f, ChargesOf(items[..i], depth + 1)) == None
    ensures var fault := FaultAfter(limits, WithItems(f, depth, items[..i]), Charges(items[i], depth + 1));
            && FaultAfter(limits, f, ChargesOf(items[..i + 1], depth + 1)) == fault
            && (fault.Some? ==> FaultAfter(limits, f, ChargesOf(items, depth + 1)) == fault)
  {
    var before, own, rest := ChargesAround(items, i, depth + 1);
    FaultContinues(limits, f, WithItems(f, depth, items[..i]), before, own);
    if FaultAfter(limits, f, before + own).Some? {
      FaultStays(limits, f, before + own, rest);
    }
  }

  lemma {:induction false} WithNextMember(f: Figures, depth: nat, members: seq<Member>, i: nat)
    requires i < |members|
    ensures WithMember(WithMembers(f, depth, members[..i]), depth + 1, members[i])
         == WithMembers(f, depth, members[..i + 1])
  {
    assert members[..i + 1][..i] == members[..i];
    assert MemberBytes(members[i]) == Utf8Length(members[i].key) + StringBytes(members[i].value);
    DepthsMerge(f.depth, depth, HeightOfMembers(members[..i]), Height(members[i].value));
  }

  lemma {:induction false} ChargesOfNextMember(members: seq<Member>, i: nat, depth: nat)
    requires i < |members|
    ensures ChargesOfMembers(members[..i + 1], depth)
         == ChargesOfMembers(members[..i], depth) + ChargesOfMember(members[i], depth)
  {
    assert members[..i + 1][..i] == members[..i];
  }

  lemma {:induction false} ChargesOfMembersRest(members: seq<Member>, i: nat, depth: nat) returns (rest: seq<Charge>)
    requires i <= |members|
    ensures ChargesOfMembers(members, depth) == ChargesOfMembers(members[..i], depth) + rest
    decreases |members| - i
  {
    if i < |members| {
      rest := ChargesOfMembersRest(members, i + 1, depth);
      ChargesOfNextMember(members, i, depth);
      rest := ChargesOfMember(members[i], depth) + rest;
    } else {
      assert members[..i] == members;
      rest := [];
    }
  }

  lemma {:induction false} ChargesAroundMember(members: seq<Member>, i: nat, depth: nat)
    returns (before: seq<Charge>, own: seq<Charge>, rest: seq<Charge>)
    requires i < |members|
    ensures before == ChargesOfMembers(members[..i], depth) && own == ChargesOfMember(members[i], depth)
    ensures before + own == ChargesOfMembers(members[..i + 1], depth)
    ensures before + own + rest == ChargesOfMembers(members, depth)
    ensures ValuesIn(before) == NodesOfMembers(members[..i]) && BytesIn(before) == BytesOfMembers(members[..i])
  {
    before, own := ChargesOfMembers(members[..i], depth), ChargesOfMember(members[i], depth);
    ChargesOfNextMember(members, i, depth);
    ChargesOfMembersTotal(members[..i], depth);
    rest := ChargesOfMembersRest(members, i + 1, depth);
  }

  lemma {:induction false} MemberDecides(limits: Limits, f: Figures, depth: nat, members: seq<Member>, i: nat)
    requires i < |members|
    requires FaultAfter(limits, f, ChargesOfMembers(members[..i], depth + 1)) == None
    ensures var g := WithMembers(f, depth, members[..i]);
            var fault := FaultAfter(limits, g, ChargesOfMember(members[i], depth + 1));
            && FaultAfter(limits, f, ChargesOfMembers(members[..i + 1], depth + 1)) == fault
            && (fault.Some? ==> FaultAfter(limits, f, ChargesOfMembers(members, depth + 1)) == fault)
  {
    var before, own, rest := ChargesAroundMember(members, i, depth + 1);
    FaultContinues(limits, f, WithMembers(f, depth, members[..i]), before, own);
    if FaultAfter(limits, f, before + own).Some? {
      FaultStays(limits, f, before + own, rest);
    }
  }

  /** The first fault of a value by its kind, the value itself once counted. */
  lemma {:induction false} ValueDecides(limits: Limits, f: Figures, depth: nat, j: Json)
    ensures var g := Figures(f.nodes + 1, f.stringBytes, Max(f.depth, depth));
            FaultAfter(limits, f, Charges(j, depth))
            == (if g.nodes > limits.nodes then Some(NodeLimit)
                else if depth > limits.depth then Some(DepthLimit)
                else
                  match j
                  case Text(text) =>
                    if Utf8Length(text) > Room(f.stringBytes, limits.stringBytes) then Some(StringLimit) else None
                  case Array(items) =>
                    if |items| > limits.containerElements then Some(ContainerLimit)
                    else FaultAfter(limits, g, ChargesOf(items, depth + 1))
                  case Object(members) =>
                    if |members| > limits.containerElements then Some(ContainerLimit)
                    else FaultAfter(limits, g, ChargesOfMembers(members, depth + 1))
                  case _ => None)
  {
    FaultOfValue(limits, f.nodes, f.stringBytes, j, depth);
  }

  /** None stands for a normal return, a failure for the exception. */
  method Measure(value: Json, limits: Limits, metrics: JsonMetrics, depth: nat) returns (failure: Option<Failure>)
    modifies metrics
    ensures failure == FaultAfter(limits, old(Held(metrics)), Charges(value, depth))
    ensures failure.None? ==> Held(metrics) == WithValue(old(Held(metrics)), depth, value)
    decreases value, 1
  {
    ValueDecides(limits, Held(metrics), depth, value);
    metrics.nodes := metrics.nodes + 1;
    metrics.maximumDepth := Max(metrics.maximumDepth, depth);
    if metrics.nodes > limits.nodes {
      return Some(NodeLimit);
    }
    if depth > limits.depth {
      return Some(DepthLimit);
    }
    if (value.Array? && |value.items| > limits.containerElements)
       || (value.Object? && |value.members| > limits.containerElements)
    {
      return Some(ContainerLimit);
    }
    if value.Text? {
      if Utf8Length(value.text) > Room(metrics.stringBytes, limits.stringBytes) {
        return Some(StringLimit);
      }
      metrics.stringBytes := metrics.stringBytes + Utf8Length(value.text);
      return None;
    }
    if value.Object? {
      failure := MeasureMembers(value, limits, metrics, depth);
    } else if value.Array? {
      failure := MeasureItems(value, limits, metrics, depth);
    } else {
      failure := None;
    }
  }

  /** The loop over the items of an array. */
  method MeasureItems(value: Json, limits: Limits, metrics: JsonMetrics, depth: nat) returns (failure: Option<Failure>)
    requires value.Array? && depth <= metrics.maximumDepth
    modifies metrics
    ensures failure == FaultAfter(limits, old(Held(metrics)), ChargesOf(value.items, depth + 1))
    ensures failure.None? ==> Held(metrics) == WithItems(old(Held(metrics)), depth, value.items)
    decreases value, 0
  {
    var items := value.items;
    ghost var start := Held(metrics);
    for i := 0 to |items|
      invariant Held(metrics) == WithItems(start, depth, items[..i])
      invariant FaultAfter(limits, start, ChargesOf(items[..i], depth + 1)) == None
    {
      ItemDecides(limits, start, depth, items, i);
      failure := Measure(items[i], limits, metrics, depth + 1);
      if failure.Some? {
        return;
      }
      WithNextItem(start, depth, items, i);
    }
    assert items[..|items|] == items;
    failure := None;
  }

  /** One member of an object: the bytes of its key are charged before its value. */
  method MeasureMember(member: Member, limits: Limits, metrics: JsonMetrics, depth: nat)
    returns (failure: Option<Failure>)
    modifies metrics
    ensures failure == FaultAfter(limits, old(Held(metrics)), ChargesOfMember(member, depth))
    ensures failure.None? ==> Held(metrics) == WithMember(old(Held(metrics)), depth, member)
    decreases member, 2
  {
    FaultCons(limits, metrics.nodes, metrics.stringBytes, Characters(Utf8Length(member.key)),
              Charges(member.value, depth));
    if Utf8Length(member.key) > Room(metrics.stringBytes, limits.stringBytes) {
      return Some(StringLimit);
    }
    metrics.stringBytes := metrics.stringBytes + Utf8Length(member.key);
    failure := Measure(member.value, limits, metrics, depth);
  }

  /** The loop over the members of an object. */
  method MeasureMembers(value: Json, limits: Limits, metrics: JsonMetrics, depth: nat)
    returns (failure: Option<Failure>)
    requires value.Object? && depth <= metrics.maximumDepth
    modifies metrics
    ensures failure == FaultAfter(limits, old(Held(metrics)), ChargesOfMembers(value.members, depth + 1))
    ensures failure.None? ==> Held(metrics) == WithMembers(old(Held(metrics)), depth, value.members)
    decreases value, 0
  {
    var members := value.members;
    ghost var start := Held(metrics);
    for i := 0 to |members|
      invariant Held(metrics) == WithMembers(start, depth, members[..i])
      invariant FaultAfter(limits, start, ChargesOfMembers(members[..i], depth + 1)) == None
    {
      MemberDecides(limits, start, depth, members, i);
      failure := MeasureMember(members[i], limits, metrics, depth + 1);
      if failure.Some? {
        return;
      }
      WithNextMember(start, depth, members, i);
    }
    assert members[..|members|] == members;
    failure := None;
  }

  datatype Result = Measured(nodes: nat, stringBytes: nat, maximumDepth: nat) | Rejected(failure: Failure)

  /**
   * The budget is exact: a document is accepted exactly when its node count, its depth, every container and
   * its total of key and string bytes are within limits. The figures are then its exact totals; otherwise the
   * failure is that of the first charge that exceeds its limit, and the document as a whole exceeds that limit.
   */
  method MeasureDocument(root: Json, limits: Limits) returns (result: Result)
    ensures result.Measured? <==>
              && Nodes(root) <= limits.nodes && Height(root) <= limits.depth
              && StringBytes(root) <= limits.stringBytes && Narrow(root, limits.containerElements)
    ensures result.Measured? ==> result == Measured(Nodes(root), StringBytes(root), Height(root))
    ensures result.Rejected? ==>
              && FirstFault(limits, 0, 0, Charges(root, 1)) == Some(result.failure)
              && Exceeds(limits, 0, 0, 1, TotalsOf(root, limits.containerElements), result.failure)
  {
    var metrics := new JsonMetrics();
    HeightIsPositive(root);
    TreeIsCharged(limits, 1, root);
    assert Explained(limits, 0, 0, 1, TotalsOf(root, limits.containerElements),
                     FirstFault(limits, 0, 0, Charges(root, 1)));
    var failure := Measure(root, limits, metrics, 1);
    result := if failure.Some? then Rejected(failure.value)
              else Measured(metrics.nodes, metrics.stringBytes, metrics.maximumDepth);
  }

  /** A tree is at least as large as it is high, and a node budget alone bounds its depth. */
  lemma {:induction false} HeightAtMostNodes(j: Json)
    ensures Height(j) <= Nodes(j)
    decreases j, 1
  {
    match j
    case Array(items) => HeightAtMostNodesOf(items);
    case Object(members) => HeightAtMostNodesOfMembers(members);
    case _ =>
  }

  lemma {:induction false} HeightAtMostNodesOf(items: seq<Json>)
    ensures HeightOf(items) <= NodesOf(items)
    decreases items, 0
  {
    if items != [] {
      HeightAtMostNodesOf(items[..|items| - 1]);
      HeightAtMostNodes(items[|items| - 1]);
    }
  }

  lemma {:induction false} HeightAtMostNodesOfMembers(members: seq<Member>)
    ensures HeightOfMembers(members) <= NodesOfMembers(members)
    decreases members, 0
  {
    if members != [] {
      HeightAtMostNodesOfMembers(members[..|members| - 1]);
      HeightAtMostNodes(members[|members| - 1].value);
    }
  }
}
