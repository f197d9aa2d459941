/** Decoded JSON in the shape the wire carried it: members in document order,
    numbers as their literals. */
module Document {
  import opened Options

  datatype Value =
    | Null
    | Bool(b: bool)
    | Number(literal: string)
    | Text(s: string)
    | Arr(items: seq<Value>)
    | Obj(members: seq<Member>)

  /** An insertion-ordered dict is a list of these with distinct keys. */
  datatype Pair<+V> = Member(key: string, value: V)
  type Member = Pair<Value>

  /** The value under a key; keys of a decoded object are distinct. */
  function Get<V>(members: seq<Pair<V>>, key: string): Option<V> {
    if members == [] then None
    else if members[0].key == key then Some(members[0].value)
    else Get(members[1..], key)
  }

  /** `d[key] = value`: a key already there keeps its place, a new one goes last. */
  function With<V>(members: seq<Pair<V>>, key: string, value: V): seq<Pair<V>> {
    if members == [] then [Member(key, value)]
    else if members[0].key == key then [Member(key, value)] + members[1..]
    else [members[0]] + With(members[1..], key, value)
  }

  ghost predicate DistinctKeys<V>(members: seq<Pair<V>>) {
    forall i, j | 0 <= i < j < |members| :: members[i].key != members[j].key
  }

  /** Distinct keys at every depth. */
  ghost predicate WellFormed(v: Value) {
    match v
    case Arr(items) => forall x | x in items :: WellFormed(x)
    case Obj(members) => DistinctKeys(members) && forall m | m in members :: WellFormed(m.value)
    case _ => true
  }

  lemma {:induction false} GetMember<V>(members: seq<Pair<V>>, key: string)
    ensures Get(members, key).Some? ==> Member(key, Get(members, key).value) in members
    ensures Get(members, key).None? ==> forall m | m in members :: m.key != key
  {
    if members != [] && members[0].key != key {
      GetMember(members[1..], key);
      assert members == [members[0]] + members[1..];
    }
  }

  lemma {:induction false} GetAt<V>(members: seq<Pair<V>>, i: nat)
    requires i < |members| && DistinctKeys(members)
    ensures Get(members, members[i].key) == Some(members[i].value)
  {
    if i > 0 {
      GetAt(members[1..], i - 1);
    }
  }
}
