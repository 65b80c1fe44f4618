/**
 * A library that meets what the store assumes of its JSON library: trees printed in a prefix-free code (numbers
 * in unary), and read back by looking for the tree that has the text. It shows that the assumption can be met.
 */
module ReferenceLibrary {
  import opened Bytes
  import opened Envelopes
  import opened Json
  import opened Wrappers

  function NatCode(n: nat): ByteString { if n == 0 then [0] else [1] + NatCode(n - 1) }

  function IntegerCode(n: int): ByteString { if n < 0 then [1] + NatCode(-n) else [0] + NatCode(n) }

  function TextCode(text: string): ByteString {
    if text == "" then [0] else [1] + (NatCode(text[0] as int) + TextCode(text[1..]))
  }

  function Code(j: Json): ByteString {
    match j
    case Null => [0]
    case Bool(flag) => [1] + IntegerCode(if flag then 1 else 0)
    case Integer(n) => [2] + IntegerCode(n)
    case Real(d) => [3] + NatCode(d)
    case Text(text) => [4] + TextCode(text)
    case Array(items) => [5] + ItemsCode(items)
    case Object(members) => [6] + MembersCode(members)
  }

  function ItemsCode(items: seq<Json>): ByteString {
    if items == [] then [0] else [1] + (Code(items[0]) + ItemsCode(items[1..]))
  }

  function MembersCode(members: seq<Member>): ByteString {
    if members == [] then [0]
    else [1] + (MemberCode(members[0]) + MembersCode(members[1..]))
  }

  function MemberCode(m: Member): ByteString { TextCode(m.key) + Code(m.value) }

  // ------------------------------------------------------------------ what follows a code does not change it

  lemma Tagged(x: Byte, s: ByteString, r: ByteString, y: Byte, t: ByteString, q: ByteString)
    requires ([x] + s) + r == ([y] + t) + q
    ensures x == y && s + r == t + q
  {
    assert (([x] + s) + r)[0] == x && (([x] + s) + r)[1..] == s + r;
    assert (([y] + t) + q)[0] == y && (([y] + t) + q)[1..] == t + q;
  }

  lemma Grouped(a: ByteString, b: ByteString, c: ByteString)
    ensures (a + b) + c == a + (b + c)
  {
  }

  lemma First(s: ByteString, r: ByteString, t: ByteString, q: ByteString)
    requires s != [] && t != [] && s + r == t + q
    ensures s[0] == t[0]
  {
    assert (s + r)[0] == s[0] && (t + q)[0] == t[0];
  }

  lemma Leaf(r: ByteString, q: ByteString)
    requires [0] + r == [0] + q
    ensures r == q
  {
    assert ([0] + r)[1..] == r && ([0] + q)[1..] == q;
  }

  lemma {:induction false} NatReads(m: nat, r: ByteString, n: nat, q: ByteString)
    requires NatCode(m) + r == NatCode(n) + q
    ensures m == n && r == q
  {
    First(NatCode(m), r, NatCode(n), q);
    if m == 0 {
      Leaf(r, q);
    } else {
      Tagged(1, NatCode(m - 1), r, 1, NatCode(n - 1), q);
      NatReads(m - 1, r, n - 1, q);
    }
  }

  lemma IntegerReads(m: int, r: ByteString, n: int, q: ByteString)
    requires IntegerCode(m) + r == IntegerCode(n) + q
    ensures m == n && r == q
  {
    var a, b := if m < 0 then -m else m, if n < 0 then -n else n;
    Tagged(if m < 0 then 1 else 0, NatCode(a), r, if n < 0 then 1 else 0, NatCode(b), q);
    NatReads(a, r, b, q);
  }

  lemma {:induction false} TextReads(s: string, r: ByteString, t: string, q: ByteString)
    requires TextCode(s) + r == TextCode(t) + q
    ensures s == t && r == q
  {
    First(TextCode(s), r, TextCode(t), q);
    if s == "" {
      Leaf(r, q);
    } else {
      var a, b := NatCode(s[0] as int), NatCode(t[0] as int);
      Tagged(1, a + TextCode(s[1..]), r, 1, b + TextCode(t[1..]), q);
      Grouped(a, TextCode(s[1..]), r);
      Grouped(b, TextCode(t[1..]), q);
      NatReads(s[0] as int, TextCode(s[1..]) + r, t[0] as int, TextCode(t[1..]) + q);
      TextReads(s[1..], r, t[1..], q);
      assert s == [s[0]] + s[1..] && t == [t[0]] + t[1..];
    }
  }

  lemma {:induction false} ItemsRead(s: seq<Json>, r: ByteString, t: seq<Json>, q: ByteString)
    requires ItemsCode(s) + r == ItemsCode(t) + q
    ensures s == t && r == q
    decreases s
  {
    First(ItemsCode(s), r, ItemsCode(t), q);
    if s == [] {
      Leaf(r, q);
    } else {
      var a, b := Code(s[0]), Code(t[0]);
      Tagged(1, a + ItemsCode(s[1..]), r, 1, b + ItemsCode(t[1..]), q);
      Grouped(a, ItemsCode(s[1..]), r);
      Grouped(b, ItemsCode(t[1..]), q);
      TreeReads(s[0], ItemsCode(s[1..]) + r, t[0], ItemsCode(t[1..]) + q);
      ItemsRead(s[1..], r, t[1..], q);
      assert s == [s[0]] + s[1..] && t == [t[0]] + t[1..];
    }
  }

  lemma {:induction false} MemberReads(m: Member, r: ByteString, n: Member, q: ByteString)
    requires MemberCode(m) + r == MemberCode(n) + q
    ensures m == n && r == q
    decreases m, 1
  {
    Grouped(TextCode(m.key), Code(m.value), r);
    Grouped(TextCode(n.key), Code(n.value), q);
    TextReads(m.key, Code(m.value) + r, n.key, Code(n.value) + q);
    TreeReads(m.value, r, n.value, q);
  }

  lemma {:induction false} MembersRead(s: seq<Member>, r: ByteString, t: seq<Member>, q: ByteString)
    requires MembersCode(s) + r == MembersCode(t) + q
    ensures s == t && r == q
    decreases s
  {
    First(MembersCode(s), r, MembersCode(t), q);
    if s == [] {
      Leaf(r, q);
    } else {
      var a, b := MemberCode(s[0]), MemberCode(t[0]);
      Tagged(1, a + MembersCode(s[1..]), r, 1, b + MembersCode(t[1..]), q);
      Grouped(a, MembersCode(s[1..]), r);
      Grouped(b, MembersCode(t[1..]), q);
      MemberReads(s[0], MembersCode(s[1..]) + r, t[0], MembersCode(t[1..]) + q);
      MembersRead(s[1..], r, t[1..], q);
      assert s == [s[0]] + s[1..] && t == [t[0]] + t[1..];
    }
  }

  /** No code is the beginning of another one. */
  lemma {:induction false} TreeReads(j: Json, r: ByteString, k: Json, q: ByteString)
    requires Code(j) + r == Code(k) + q
    ensures j == k && r == q
    decreases j
  {
    First(Code(j), r, Code(k), q);
    var s, t := Code(j)[1..], Code(k)[1..];
    assert Code(j) == [Code(j)[0]] + s && Code(k) == [Code(k)[0]] + t;
    Tagged(Code(j)[0], s, r, Code(k)[0], t, q);
    match j
    case Null => assert s + r == r && t + q == q;
    case Bool(flag) => IntegerReads(if flag then 1 else 0, r, if k.flag then 1 else 0, q);
    case Integer(n) => IntegerReads(n, r, k.number, q);
    case Real(d) => NatReads(d, r, k.quantity, q);
    case Text(text) => TextReads(text, r, k.text, q);
    case Array(items) => ItemsRead(items, r, k.items, q);
    case Object(members) => MembersRead(members, r, k.members, q);
  }

  // ------------------------------------------------------------------ the library

  /** The tree that has this text, if there is one. */
  ghost function Read(text: ByteString): Option<Json> {
    if exists j: Json :: Code(j) + [NEWLINE] == text then
      var j: Json :| Code(j) + [NEWLINE] == text;
      Some(j)
    else None
  }

  ghost function TheLibrary(): Library {
    Library(j => Code(j), j => Code(j), text => Read(text))
  }

  lemma ReadsTheTree(j: Json, n: nat)
    requires n <= |Code(j) + [NEWLINE]|
    ensures Read((Code(j) + [NEWLINE])[..n]) in {None, Some(j)}
    ensures n == |Code(j) + [NEWLINE]| ==> Read((Code(j) + [NEWLINE])[..n]) == Some(j)
  {
    var whole := Code(j) + [NEWLINE];
    if Read(whole[..n]).Some? {
      var k := Read(whole[..n]).value;
      Grouped(Code(k), [NEWLINE], whole[n..]);
      assert whole[..n] + whole[n..] == whole;
      TreeReads(k, [NEWLINE] + whole[n..], j, [NEWLINE]);
    }
    if n == |whole| {
      assert Code(j) + [NEWLINE] == whole[..n];
    }
  }

  lemma TheLibraryIsFaithful()
    ensures Faithful(TheLibrary())
  {
    var lib := TheLibrary();
    forall j: Json, n: nat | n <= |Printed(lib, j)|
      ensures lib.parse(Printed(lib, j)[..n]) in {None, Some(j)}
      ensures n == |Printed(lib, j)| ==> lib.parse(Printed(lib, j)[..n]) == Some(j)
    {
      ReadsTheTree(j, n);
    }
    forall j: Json
      ensures lib.parse(Printed(lib, j)) == Some(j)
    {
      ReadsTheTree(j, |Printed(lib, j)|);
      assert Printed(lib, j)[..|Printed(lib, j)|] == Printed(lib, j);
    }
  }
}
