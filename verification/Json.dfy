/** JSON values as trees; object members keep their order. */
module Json {
  import opened Doubles
  import opened Wrappers

  /** The integers the library keeps as such. */
  type Number = n: int | -0x8000_0000_0000_0000 <= n < 0x1_0000_0000_0000_0000

  datatype Json =
    | Null
    | Bool(flag: bool)
    | Integer(number: Number)
    | Real(quantity: FiniteDouble)
    | Text(text: string)
    | Array(items: seq<Json>)
    | Object(members: seq<Member>)

  datatype Member = Member(key: string, value: Json)

  function Find(members: seq<Member>, key: string): Option<Json> {
    if members == [] then None
    else if members[0].key == key then Some(members[0].value)
    else Find(members[1..], key)
  }

  function Get(j: Json, key: string): Option<Json> {
    if j.Object? then Find(j.members, key) else None
  }

  ghost predicate DistinctKeys(members: seq<Member>) {
    forall i, j :: 0 <= i < j < |members| ==> members[i].key != members[j].key
  }

  lemma {:induction false} FindAt(members: seq<Member>, i: nat)
    requires DistinctKeys(members) && i < |members|
    ensures Find(members, members[i].key) == Some(members[i].value)
  {
    if i > 0 {
      FindAt(members[1..], i - 1);
    }
  }

  /** In an object with distinct keys every member is found under its key. */
  lemma FindEach(members: seq<Member>)
    requires DistinctKeys(members)
    ensures forall i :: 0 <= i < |members| ==> Find(members, members[i].key) == Some(members[i].value)
  {
    forall i | 0 <= i < |members|
      ensures Find(members, members[i].key) == Some(members[i].value)
    {
      FindAt(members, i);
    }
  }

  // ------------------------------------------------------------------ the order of keys

  /** The order of texts in the library's sorted maps. */
  predicate KeyBefore(s: string, t: string) {
    t != "" && (s == "" || s[0] < t[0] || (s[0] == t[0] && KeyBefore(s[1..], t[1..])))
  }

  lemma {:induction false} OrderIsTotal(s: string, t: string)
    ensures s == t || KeyBefore(s, t) || KeyBefore(t, s)
  {
    if s != "" && t != "" && s[0] == t[0] {
      OrderIsTotal(s[1..], t[1..]);
      assert s == [s[0]] + s[1..] && t == [t[0]] + t[1..];
    }
  }

  predicate Ascending(members: seq<Member>) {
    forall i :: 0 < i < |members| ==> KeyBefore(members[i - 1].key, members[i].key)
  }

  /** The trees the library can hold: it keeps the members of an object sorted by their keys, one for each. */
  predicate Canonical(j: Json) {
    match j
    case Array(items) => forall i :: 0 <= i < |items| ==> Canonical(items[i])
    case Object(members) =>
      Ascending(members) && forall i :: 0 <= i < |members| ==> Canonical(members[i].value)
    case _ => true
  }
}
