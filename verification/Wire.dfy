/** Values as the Python judge reads them off the wire, and the three notions
    of equality and nullness it applies to them. */
module Wire {
  import opened Options

  /** A Python float: JSON text can spell NaN and the infinities too. */
  datatype Float = Finite(r: real) | Infinite(negative: bool) | NotANumber

  /** A decoded JSON value. Dict is a map: no rule below looks at member order. */
  datatype Json =
    | Null
    | Bool(b: bool)
    | Int(i: int)
    | Float(f: Float)
    | Str(s: string)
    | List(items: seq<Json>)
    | Dict(members: map<string, Json>)

  type Record = map<string, Json>

  /** `dict.get`: a missing member reads as null. */
  function Get(r: Record, member: string): Json {
    if member in r then r[member] else Null
  }

  /** One equality test of a typed reader: corpus.py `typed_equal`. */
  predicate TypedEqual(a: Json, b: Json) {
    if a.Bool? || b.Bool? then a.Bool? && b.Bool? && a.b == b.b
    else if a.Dict? && b.Dict? then
      a.members.Keys == b.members.Keys
      && forall k | k in a.members :: TypedEqual(a.members[k], b.members[k])
    else if a.List? && b.List? then
      |a.items| == |b.items|
      && forall i | 0 <= i < |a.items| :: TypedEqual(a.items[i], b.items[i])
    else
      match (a, b)
      case (Null, Null) => true
      case (Int(x), Int(y)) => x == y
      case (Float(x), Float(y)) => x == y && !x.NotANumber?
      case (Str(x), Str(y)) => x == y
      case _ => false
  }

  predicate NaNFree(v: Json) {
    match v
    case Float(f) => !f.NotANumber?
    case List(items) => forall x | x in items :: NaNFree(x)
    case Dict(members) => forall k | k in members :: NaNFree(members[k])
    case _ => true
  }

  /** typed_equal is structural equality, NaN being the one value it denies. */
  lemma {:induction false} TypedEqualIsStructural(a: Json, b: Json)
    ensures TypedEqual(a, b) <==> a == b && NaNFree(a)
  {
    if a.Dict? && b.Dict? {
      var m, n := a.members, b.members;
      forall k | k in m && k in n
        ensures TypedEqual(m[k], n[k]) <==> m[k] == n[k] && NaNFree(m[k])
      {
        TypedEqualIsStructural(m[k], n[k]);
      }
      if TypedEqual(a, b) {
        assert m == n;
      }
    } else if a.List? && b.List? {
      var x, y := a.items, b.items;
      forall i | 0 <= i < |x| && i < |y|
        ensures TypedEqual(x[i], y[i]) <==> x[i] == y[i] && NaNFree(x[i])
      {
        TypedEqualIsStructural(x[i], y[i]);
      }
      if TypedEqual(a, b) {
        assert x == y;
      }
    }
  }

  /** The number Python's `==` sees: True is 1 and 20 is 20.0. */
  function Numeric(v: Json): Option<real> {
    match v
    case Bool(b) => Some(if b then 1.0 else 0.0)
    case Int(i) => Some(i as real)
    case Float(Finite(r)) => Some(r)
    case _ => None
  }

  /** Python's own `==` between two decoded values. */
  predicate LooseEqual(a: Json, b: Json) {
    if Numeric(a).Some? && Numeric(b).Some? then Numeric(a) == Numeric(b)
    else if a.Dict? && b.Dict? then
      a.members.Keys == b.members.Keys
      && forall k | k in a.members :: LooseEqual(a.members[k], b.members[k])
    else if a.List? && b.List? then
      |a.items| == |b.items|
      && forall i | 0 <= i < |a.items| :: LooseEqual(a.items[i], b.items[i])
    else TypedEqual(a, b)
  }

  lemma {:induction false} TypedImpliesLoose(a: Json, b: Json)
    requires TypedEqual(a, b)
    ensures LooseEqual(a, b)
  {
    if a.Dict? && b.Dict? {
      forall k | k in a.members ensures LooseEqual(a.members[k], b.members[k]) {
        TypedImpliesLoose(a.members[k], b.members[k]);
      }
    } else if a.List? && b.List? {
      forall i | 0 <= i < |a.items| ensures LooseEqual(a.items[i], b.items[i]) {
        TypedImpliesLoose(a.items[i], b.items[i]);
      }
    }
  }

  // ── nulls inside a fact value ─────────────────────────────────────────

  datatype Step = Key(name: string) | Index(at: nat)

  /** Every path at which a null sits inside a value: replay.py `_null_paths`. */
  function NullPaths(v: Json): set<seq<Step>> {
    match v
    case Null => {[]}
    case Dict(members) =>
      set k, p | k in members && p in NullPaths(members[k]) :: [Key(k)] + p
    case List(items) =>
      set i, p | 0 <= i < |items| && p in NullPaths(items[i]) :: [Index(i)] + p
    case _ => {}
  }

  /** Following `path` member by member from `v` arrives at a null. */
  predicate LeadsToNull(v: Json, path: seq<Step>)
    decreases |path|
  {
    if path == [] then v == Null
    else match path[0]
      case Key(k) => v.Dict? && k in v.members && LeadsToNull(v.members[k], path[1..])
      case Index(i) => v.List? && i < |v.items| && LeadsToNull(v.items[i], path[1..])
  }

  predicate HasNull(v: Json) {
    match v
    case Null => true
    case Dict(members) => exists k | k in members :: HasNull(members[k])
    case List(items) => exists x | x in items :: HasNull(x)
    case _ => false
  }

  /** _null_paths misses no null and invents none, at any depth. */
  lemma {:induction false} NullPathsExact(v: Json, path: seq<Step>)
    ensures path in NullPaths(v) <==> LeadsToNull(v, path)
    decreases v
  {
    if path != [] {
      var tail := path[1..];
      match v
      case Dict(members) =>
        forall k | k in members
          ensures tail in NullPaths(members[k]) <==> LeadsToNull(members[k], tail)
        {
          NullPathsExact(members[k], tail);
        }
        forall k, p | k in members && p in NullPaths(members[k]) && path == [Key(k)] + p
          ensures p == tail && path[0] == Key(k) {}
        if LeadsToNull(v, path) {
          assert path == [Key(path[0].name)] + tail;
        }
      case List(items) =>
        forall i | 0 <= i < |items|
          ensures tail in NullPaths(items[i]) <==> LeadsToNull(items[i], tail)
        {
          NullPathsExact(items[i], tail);
        }
        forall i, p | 0 <= i < |items| && p in NullPaths(items[i]) && path == [Index(i)] + p
          ensures p == tail && path[0] == Index(i) {}
        if LeadsToNull(v, path) {
          assert path == [Index(path[0].at)] + tail;
        }
      case _ =>
    }
  }

  lemma {:induction false} NullPathsEmptyIffNullFree(v: Json)
    ensures NullPaths(v) == {} <==> !HasNull(v)
  {
    match v
    case Null => assert [] in NullPaths(v);
    case Dict(members) =>
      forall k | k in members ensures NullPaths(members[k]) == {} <==> !HasNull(members[k]) {
        NullPathsEmptyIffNullFree(members[k]);
      }
      if k, p :| k in members && p in NullPaths(members[k]) {
        assert [Key(k)] + p in NullPaths(v);
      }
      if k :| k in members && HasNull(members[k]) {
        var p :| p in NullPaths(members[k]);
        assert [Key(k)] + p in NullPaths(v);
      }
    case List(items) =>
      forall i | 0 <= i < |items| ensures NullPaths(items[i]) == {} <==> !HasNull(items[i]) {
        NullPathsEmptyIffNullFree(items[i]);
      }
      if x :| x in items && HasNull(x) {
        var i :| 0 <= i < |items| && items[i] == x;
        var p :| p in NullPaths(items[i]);
        assert [Index(i)] + p in NullPaths(v);
      }
    case _ =>
  }
}
