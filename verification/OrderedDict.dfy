/** The insertion-ordered dict the collectors keep three times over: bazarr's
    `jsonValue.set`, docker's `members.set` and bazarr's `factRow.set`. */
module OrderedDict {
  import opened Options
  import opened Document

  // ── what assignment means ─────────────────────────────────────────────

  /** A dict after a run of assignments. */
  function Assigned<V>(pairs: seq<Pair<V>>): seq<Pair<V>> {
    if pairs == [] then []
    else
      var n := |pairs| - 1;
      With(Assigned(pairs[..n]), pairs[n].key, pairs[n].value)
  }

  lemma {:induction false} WithGet<V>(members: seq<Pair<V>>, key: string, value: V, k: string)
    ensures Get(With(members, key, value), k) == if k == key then Some(value) else Get(members, k)
  {
    if members != [] && members[0].key != key {
      WithGet(members[1..], key, value, k);
    }
  }

  /** The keys afterwards: as they were, a new one at the end. */
  lemma {:induction false} WithKeys<V>(members: seq<Pair<V>>, key: string, value: V)
    ensures Keys(With(members, key, value))
      == if key in Keys(members) then Keys(members) else Keys(members) + [key]
  {
    if members != [] {
      var first, rest := members[0], members[1..];
      KeysFirst(first, rest);
      assert members == [first] + rest;
      if first.key == key {
        KeysFirst(Member(key, value), rest);
      } else {
        WithKeys(rest, key, value);
        KeysFirst(first, With(rest, key, value));
      }
    }
  }

  lemma KeysFirst<V>(first: Pair<V>, rest: seq<Pair<V>>)
    ensures Keys([first] + rest) == [first.key] + Keys(rest)
  {}

  function Keys<V>(members: seq<Pair<V>>): (keys: seq<string>)
    ensures |keys| == |members|
  {
    seq(|members|, i requires 0 <= i < |members| => members[i].key)
  }

  /** Where a key was first assigned. */
  function FirstAt<V>(pairs: seq<Pair<V>>, key: string): nat {
    if pairs == [] || pairs[0].key == key then 0 else 1 + FirstAt(pairs[1..], key)
  }

  /** What it was last assigned. */
  function LastOf<V>(pairs: seq<Pair<V>>, key: string): Option<V> {
    if pairs == [] then None
    else
      var n := |pairs| - 1;
      if pairs[n].key == key then Some(pairs[n].value) else LastOf(pairs[..n], key)
  }

  lemma {:induction false} FirstGrows<V>(pairs: seq<Pair<V>>, e: Pair<V>, key: string)
    ensures key in Keys(pairs) ==> FirstAt(pairs + [e], key) == FirstAt(pairs, key) < |pairs|
    ensures key !in Keys(pairs) ==> FirstAt(pairs, key) == |pairs|
    ensures key !in Keys(pairs) && e.key == key ==> FirstAt(pairs + [e], key) == |pairs|
  {
    if pairs != [] {
      assert Keys(pairs) == [pairs[0].key] + Keys(pairs[1..]);
      assert (pairs + [e])[1..] == pairs[1..] + [e];
      if pairs[0].key != key {
        FirstGrows(pairs[1..], e, key);
      }
    }
  }

  ghost predicate FirstPositions<V>(pairs: seq<Pair<V>>, dict: seq<Pair<V>>) {
    && (forall k :: k in Keys(dict) <==> k in Keys(pairs))
    && (forall i, j | 0 <= i < j < |dict| :: FirstAt(pairs, dict[i].key) < FirstAt(pairs, dict[j].key))
  }

  ghost predicate LastValues<V>(pairs: seq<Pair<V>>, dict: seq<Pair<V>>) {
    forall k :: Get(dict, k) == LastOf(pairs, k)
  }

  /** A repeated key takes its last value at its first position. */
  lemma {:induction false} FirstPositionLastValue<V>(pairs: seq<Pair<V>>)
    ensures DistinctKeys(Assigned(pairs))
    ensures FirstPositions(pairs, Assigned(pairs)) && LastValues(pairs, Assigned(pairs))
  {
    if pairs != [] {
      var n := |pairs| - 1;
      var before, e := pairs[..n], pairs[n];
      assert pairs == before + [e];
      FirstPositionLastValue(before);
      WithKeys(Assigned(before), e.key, e.value);
      PositionsGrow(before, e, Assigned(before), Assigned(pairs));
      forall k ensures Get(Assigned(pairs), k) == LastOf(pairs, k) {
        WithGet(Assigned(before), e.key, e.value, k);
      }
    }
  }

  lemma PositionsGrow<V>(pairs: seq<Pair<V>>, e: Pair<V>, was: seq<Pair<V>>, dict: seq<Pair<V>>)
    requires FirstPositions(pairs, was) && DistinctKeys(was)
    requires Keys(dict) == if e.key in Keys(was) then Keys(was) else Keys(was) + [e.key]
    ensures FirstPositions(pairs + [e], dict) && DistinctKeys(dict)
  {
    assert Keys(pairs + [e]) == Keys(pairs) + [e.key];
    forall i, j | 0 <= i < j < |dict|
      ensures FirstAt(pairs + [e], dict[i].key) < FirstAt(pairs + [e], dict[j].key)
    {
      var a, b := dict[i].key, dict[j].key;
      assert a == Keys(dict)[i] == Keys(was)[i] == was[i].key;
      FirstGrows(pairs, e, a);
      FirstGrows(pairs, e, b);
      assert a in Keys(was);
      if j < |was| {
        assert b == Keys(dict)[j] == Keys(was)[j] == was[j].key;
        assert b in Keys(was);
      } else {
        assert b == Keys(dict)[j] == e.key && b !in Keys(pairs);
      }
    }
    forall i, j | 0 <= i < j < |dict| ensures dict[i].key != dict[j].key {
      assert FirstAt(pairs + [e], dict[i].key) < FirstAt(pairs + [e], dict[j].key);
    }
  }

  /** Assigning distinct keys in turn spells the list out. */
  lemma {:induction false} AssignedDistinct<V>(members: seq<Pair<V>>)
    requires DistinctKeys(members)
    ensures Assigned(members) == members
  {
    if members != [] {
      var n := |members| - 1;
      AssignedDistinct(members[..n]);
      WithNew(members[..n], members[n].key, members[n].value);
      assert members == members[..n] + [members[n]];
    }
  }

  // ── bazarr's decoded object: one list, rewritten in place ─────────────

  class MemberList<V> {
    var members: seq<Pair<V>>

    constructor ()
      ensures members == []
    {
      members := [];
    }

    method Set(key: string, value: V)
      modifies this
      ensures members == With(old(members), key, value)
    {
      for i := 0 to |members|
        invariant members == old(members)
        invariant forall j | 0 <= j < i :: members[j].key != key
      {
        if members[i].key == key {
          WithAt(members, i, key, value);
          members := members[i := Member(key, value)];
          return;
        }
      }
      WithNew(members, key, value);
      members := members + [Member(key, value)];
    }
  }

  lemma {:induction false} WithAt<V>(members: seq<Pair<V>>, i: nat, key: string, value: V)
    requires i < |members| && members[i].key == key && forall j | 0 <= j < i :: members[j].key != key
    ensures With(members, key, value) == members[i := Member(key, value)]
  {
    if i > 0 {
      WithAt(members[1..], i - 1, key, value);
    }
  }

  lemma {:induction false} WithNew<V>(members: seq<Pair<V>>, key: string, value: V)
    requires forall j | 0 <= j < |members| :: members[j].key != key
    ensures With(members, key, value) == members + [Member(key, value)]
  {
    if members != [] {
      WithNew(members[1..], key, value);
    }
  }

  // ── docker's members and bazarr's factRow: an order beside a map ──────

  function Entries<V>(keys: seq<string>, byKey: map<string, V>): (members: seq<Pair<V>>)
    requires forall k | k in keys :: k in byKey
    ensures Keys(members) == keys
  {
    seq(|keys|, i requires 0 <= i < |keys| => Member(keys[i], byKey[keys[i]]))
  }

  class KeyedStore<V> {
    var keys: seq<string>
    var byKey: map<string, V>

    ghost predicate Valid()
      reads this
    {
      (forall k :: k in keys <==> k in byKey) && (forall i, j | 0 <= i < j < |keys| :: keys[i] != keys[j])
    }

    ghost function Contents(): seq<Pair<V>>
      reads this
      requires Valid()
    {
      Entries(keys, byKey)
    }

    constructor ()
      ensures Valid() && Contents() == []
    {
      keys, byKey := [], map[];
    }

    method Set(key: string, value: V)
      requires Valid()
      modifies this
      ensures Valid() && Contents() == With(old(Contents()), key, value)
    {
      if key !in byKey {
        EntriesNew(keys, byKey, key, value);
        keys := keys + [key];
      } else {
        EntriesOld(keys, byKey, key, value);
      }
      byKey := byKey[key := value];
    }
  }

  lemma EntriesNew<V>(keys: seq<string>, byKey: map<string, V>, key: string, value: V)
    requires (forall k | k in keys :: k in byKey) && key !in keys
    ensures Entries(keys + [key], byKey[key := value]) == With(Entries(keys, byKey), key, value)
  {
    WithNew(Entries(keys, byKey), key, value);
  }

  lemma EntriesOld<V>(keys: seq<string>, byKey: map<string, V>, key: string, value: V)
    requires (forall k | k in keys :: k in byKey) && key in keys
    requires forall i, j | 0 <= i < j < |keys| :: keys[i] != keys[j]
    ensures Entries(keys, byKey[key := value]) == With(Entries(keys, byKey), key, value)
  {
    var i :| 0 <= i < |keys| && keys[i] == key;
    WithAt(Entries(keys, byKey), i, key, value);
  }
}
