/** The comparison of two streams: replay.py `normalise`, `_key`, `diff` and
    `_fact_differences`. */
module StreamDiff {
  import opened Wire
  import opened Judge

  /** Members that legitimately differ between two runs, by record kind. */
  function RunVarying(kind: Json): set<string> {
    if kind == Str("begin") then {"request", "batch", "boot_id", "generations", "declaration"}
    else if kind == Str("object") then {"at"}
    else if kind == Str("commit") then {"cpu_ms", "generation"}
    else if kind == Str("end") then {"request", "batch", "cpu_ms", "wall_ms"}
    else {}
  }

  /** Which collections were requested. The source lists the sorted keys; the
      key set, written as a dict of nulls, carries the same information. */
  function Requested(r: Record): Json {
    match GenerationsOf(r)
    case None => Dict(map[])
    case Some(m) => Dict(map k | k in m :: Null)
  }

  function Claim(r: Record): Record {
    var kept := r - RunVarying(Get(r, "record"));
    if IsKind(r, "begin") then kept["generations" := Requested(r)] else kept
  }

  function Normalise(records: seq<Record>): (out: seq<Record>)
    ensures |out| == |records|
    ensures forall i | 0 <= i < |records| :: out[i] == Claim(records[i])
  {
    seq(|records|, i requires 0 <= i < |records| => Claim(records[i]))
  }

  /** A record's full identity; an assertion's includes its facts. */
  datatype Identity = Identity(record: Json, collection: Json, name: Json, fact: Json, kind: Json,
                               targetKind: Json, targetName: Json, facts: Json)

  function GetOr(r: Record, member: string, default: Json): Json {
    if member in r then r[member] else default
  }

  /** A scalar as a dict key sees it: True, 1 and 1.0 are one key. */
  function Hashed(v: Json): Json {
    match v
    case Bool(b) => Int(if b then 1 else 0)
    case Float(Finite(x)) => if x == x.Floor as real then Int(x.Floor) else v
    case _ => v
  }

  predicate Scalar(v: Json) {
    !v.List? && !v.Dict? && v != Float(NotANumber)
  }

  /** Scalars share a place in a dict exactly when Python's `==` holds of them. */
  lemma HashedIsLoose(a: Json, b: Json)
    requires Scalar(a) && Scalar(b)
    ensures Hashed(a) == Hashed(b) <==> LooseEqual(a, b)
  {
    if Numeric(a).Some? && Numeric(b).Some? {
      HashedKeeps(a);
      HashedKeeps(b);
    }
  }

  lemma HashedKeeps(v: Json)
    requires Numeric(v).Some?
    ensures var x := Numeric(v).value;
      Hashed(v) == if x == x.Floor as real then Int(x.Floor) else Json.Float(Finite(x))
  {}

  function Keyed(r: Record, member: string): Json {
    Hashed(GetOr(r, member, Str("")))
  }

  /** The facts are keyed by their canonical text, which tells every type apart. */
  function KeyOf(r: Record): Identity {
    var target := match Get(r, "target") case Dict(m) => m case _ => map[];
    var none := Str("");
    Identity(Keyed(r, "record"), Keyed(r, "collection"), Keyed(r, "name"), Keyed(r, "fact"),
             Keyed(r, "type"), Keyed(target, "kind"), Keyed(target, "name"),
             if IsKind(r, "relation_assertion") then GetOr(r, "facts", Dict(map[])) else none)
  }

  /** The records under one identity, in stream order. */
  function Under(records: seq<Record>, k: Identity): seq<Record> {
    if records == [] then []
    else
      var r := records[|records| - 1];
      Under(records[..|records| - 1], k) + (if KeyOf(r) == k then [r] else [])
  }

  datatype Difference =
    | Missing(k: Identity)
    | Unexpected(k: Identity)
    | Multiplicity(k: Identity, expected: nat, emitted: nat)
    | MemberAdded(k: Identity, member: string)
    | MemberDropped(k: Identity, member: string)
    | MemberDiffers(k: Identity, member: string, want: Json, got: Json)
    | FactAdded(k: Identity, fact: string)
    | FactDropped(k: Identity, fact: string)
    | FactRetyped(k: Identity, fact: string)
    | FactDiffers(k: Identity, fact: string, want: Json, got: Json)

  /** type(a) is type(b) */
  predicate SameType(a: Json, b: Json) {
    match a
    case Null => b.Null?
    case Bool(_) => b.Bool?
    case Int(_) => b.Int?
    case Float(_) => b.Float?
    case Str(_) => b.Str?
    case List(_) => b.List?
    case Dict(_) => b.Dict?
  }

  /** One fact, present on both sides: a moving one is held to its type only. */
  predicate FactAgrees(moving: set<string>, fact: string, a: Json, b: Json) {
    if fact in moving then SameType(a, b) else TypedEqual(a, b)
  }

  ghost predicate FactsDiffer(k: Identity, want: Json, got: Json, moving: set<string>,
                               d: Difference) {
    if want.Dict? && got.Dict? then
      var a, b := want.members, got.members;
      match d
      case FactAdded(key, f) => key == k && f in b && f !in a
      case FactDropped(key, f) => key == k && f in a && f !in b
      case FactRetyped(key, f) =>
        key == k && f in a && f in b && f in moving && !SameType(a[f], b[f])
      case FactDiffers(key, f, x, y) =>
        key == k && f in a && f in b && f !in moving && x == a[f] && y == b[f] && !TypedEqual(x, y)
      case _ => false
    else d == MemberDiffers(k, "facts", want, got) && !TypedEqual(want, got)
  }

  ghost predicate PairDiffers(k: Identity, a: Record, b: Record, moving: set<string>,
                              d: Difference) {
    || (d.MemberAdded? && d.k == k && d.member in b && d.member !in a)
    || (d.MemberDropped? && d.k == k && d.member in a && d.member !in b)
    || (d.MemberDiffers? && d.k == k && d.member in a && d.member in b
        && !(d.member == "facts" && moving != {})
        && d.want == a[d.member] && d.got == b[d.member] && !TypedEqual(d.want, d.got))
    || ("facts" in a && "facts" in b && moving != {}
        && FactsDiffer(k, a["facts"], b["facts"], moving, d))
  }

  /** The differences of two groups of one identity, paired in stream order. */
  ghost predicate GroupDiffers(k: Identity, a: seq<Record>, b: seq<Record>, moving: set<string>,
                               d: Difference) {
    || (d == Multiplicity(k, |a|, |b|) && |a| != |b|)
    || exists i | 0 <= i < |a| && i < |b| :: PairDiffers(k, a[i], b[i], moving, d)
  }

  /** Every difference `diff` lists, stated over the two normalised streams. */
  ghost predicate Differs(want: seq<Record>, got: seq<Record>, moving: set<string>, d: Difference) {
    var a, b := Under(want, d.k), Under(got, d.k);
    if a == [] || b == [] then (d.Missing? && a != []) || (d.Unexpected? && b != [])
    else GroupDiffers(d.k, a, b, moving, d)
  }

  // ── the comparison loop ───────────────────────────────────────────────

  type Index = map<Identity, seq<Record>>

  ghost predicate IndexOf(index: Index, records: seq<Record>) {
    forall k :: (if k in index then index[k] else []) == Under(records, k)
                && (k in index ==> index[k] != [])
  }

  function Filed(index: Index, r: Record): Index {
    var k := KeyOf(r);
    index[k := (if k in index then index[k] else []) + [r]]
  }

  lemma IndexGrows(index: Index, records: seq<Record>, r: Record)
    requires IndexOf(index, records)
    ensures IndexOf(Filed(index, r), records + [r])
  {
    var grown := records + [r];
    assert grown[..|grown| - 1] == records;
    forall k ensures Under(grown, k) == Under(records, k) + (if KeyOf(r) == k then [r] else []) {}
  }

  method IndexRecords(records: seq<Record>) returns (index: Index)
    ensures IndexOf(index, records)
  {
    index := map[];
    for i := 0 to |records|
      invariant IndexOf(index, records[..i])
    {
      assert records[..i + 1] == records[..i] + [records[i]];
      IndexGrows(index, records[..i], records[i]);
      index := Filed(index, records[i]);
    }
    assert records[..|records|] == records;
  }

  method CompareFacts(k: Identity, want: Json, got: Json, moving: set<string>)
    returns (differences: seq<Difference>)
    ensures forall d :: d in differences <==> FactsDiffer(k, want, got, moving, d)
  {
    differences := [];
    if !(want.Dict? && got.Dict?) {
      if !TypedEqual(want, got) {
        differences := [MemberDiffers(k, "facts", want, got)];
      }
      return;
    }
    var a, b := want.members, got.members;
    var todo := a.Keys + b.Keys;
    while todo != {}
      invariant todo <= a.Keys + b.Keys
      invariant forall d :: d in differences <==>
        FactsDiffer(k, want, got, moving, d) && d.fact !in todo
    {
      var f :| f in todo;
      todo := todo - {f};
      if f !in a {
        differences := differences + [FactAdded(k, f)];
      } else if f !in b {
        differences := differences + [FactDropped(k, f)];
      } else if f in moving {
        if !SameType(a[f], b[f]) {
          differences := differences + [FactRetyped(k, f)];
        }
      } else if !TypedEqual(a[f], b[f]) {
        differences := differences + [FactDiffers(k, f, a[f], b[f])];
      }
    }
  }

  /** The part of a pair's differences one member accounts for. */
  ghost predicate MemberDiffer(k: Identity, a: Record, b: Record, moving: set<string>,
                                 m: string, d: Difference) {
    if m !in a then m in b && d == MemberAdded(k, m)
    else if m !in b then d == MemberDropped(k, m)
    else if m == "facts" && moving != {} then FactsDiffer(k, a[m], b[m], moving, d)
    else d == MemberDiffers(k, m, a[m], b[m]) && !TypedEqual(a[m], b[m])
  }

  lemma PairByMember(k: Identity, a: Record, b: Record, moving: set<string>, d: Difference)
    ensures PairDiffers(k, a, b, moving, d) <==>
      exists m | m in a.Keys + b.Keys :: MemberDiffer(k, a, b, moving, m, d)
  {
    if PairDiffers(k, a, b, moving, d) {
      if "facts" in a && "facts" in b && moving != {}
         && FactsDiffer(k, a["facts"], b["facts"], moving, d) {
        assert MemberDiffer(k, a, b, moving, "facts", d);
      } else {
        assert MemberDiffer(k, a, b, moving, d.member, d);
      }
    }
  }

  method ComparePair(k: Identity, a: Record, b: Record, moving: set<string>)
    returns (differences: seq<Difference>)
    ensures forall d :: d in differences <==> PairDiffers(k, a, b, moving, d)
  {
    differences := [];
    var todo := a.Keys + b.Keys;
    while todo != {}
      invariant todo <= a.Keys + b.Keys
      invariant forall d :: d in differences <==>
        exists m | m in a.Keys + b.Keys - todo :: MemberDiffer(k, a, b, moving, m, d)
    {
      var m :| m in todo;
      var found := CompareMember(k, a, b, moving, m);
      ghost var before := a.Keys + b.Keys - todo;
      todo := todo - {m};
      assert a.Keys + b.Keys - todo == before + {m};
      differences := differences + found;
    }
    assert a.Keys + b.Keys - {} == a.Keys + b.Keys;
    forall d ensures d in differences <==> PairDiffers(k, a, b, moving, d) {
      PairByMember(k, a, b, moving, d);
    }
  }

  method CompareMember(k: Identity, a: Record, b: Record, moving: set<string>, m: string)
    returns (differences: seq<Difference>)
    requires m in a || m in b
    ensures forall d :: d in differences <==> MemberDiffer(k, a, b, moving, m, d)
  {
    if m !in a {
      return [MemberAdded(k, m)];
    } else if m !in b {
      return [MemberDropped(k, m)];
    } else if m == "facts" && moving != {} {
      differences := CompareFacts(k, a[m], b[m], moving);
    } else {
      return if TypedEqual(a[m], b[m]) then [] else [MemberDiffers(k, m, a[m], b[m])];
    }
  }

  method CompareGroup(k: Identity, a: seq<Record>, b: seq<Record>, moving: set<string>)
    returns (differences: seq<Difference>)
    ensures forall d :: d in differences <==> GroupDiffers(k, a, b, moving, d)
  {
    differences := [];
    if |a| != |b| {
      differences := [Multiplicity(k, |a|, |b|)];
    }
    for i := 0 to if |a| < |b| then |a| else |b|
      invariant forall d :: d in differences <==>
        (d == Multiplicity(k, |a|, |b|) && |a| != |b|)
        || exists j | 0 <= j < i :: PairDiffers(k, a[j], b[j], moving, d)
    {
      var found := ComparePair(k, a[i], b[i], moving);
      differences := differences + found;
    }
  }

  ghost predicate KeyDiffers(want: Index, got: Index, moving: set<string>, d: Difference) {
    if d.k !in want || d.k !in got then
      (d.Missing? && d.k in want) || (d.Unexpected? && d.k in got)
    else GroupDiffers(d.k, want[d.k], got[d.k], moving, d)
  }

  method CompareIndexes(want: Index, got: Index, moving: set<string>)
    returns (differences: seq<Difference>)
    ensures forall d :: d in differences <==> KeyDiffers(want, got, moving, d)
  {
    differences := [];
    var todo := want.Keys + got.Keys;
    while todo != {}
      invariant todo <= want.Keys + got.Keys
      invariant forall d :: d in differences <==>
        KeyDiffers(want, got, moving, d) && d.k !in todo
    {
      var k :| k in todo;
      todo := todo - {k};
      if k !in got {
        differences := differences + [Missing(k)];
      } else if k !in want {
        differences := differences + [Unexpected(k)];
      } else {
        var found := CompareGroup(k, want[k], got[k], moving);
        GroupKey(k, want[k], got[k], moving);
        differences := differences + found;
      }
    }
  }

  lemma GroupKey(k: Identity, a: seq<Record>, b: seq<Record>, moving: set<string>)
    ensures forall d :: GroupDiffers(k, a, b, moving, d) ==> d.k == k
  {}

  lemma KeyDiffersIs(want: Index, got: Index, a: seq<Record>, b: seq<Record>, moving: set<string>,
                     d: Difference)
    requires IndexOf(want, a) && IndexOf(got, b)
    ensures KeyDiffers(want, got, moving, d) <==> Differs(a, b, moving, d)
  {
    assert (if d.k in want then want[d.k] else []) == Under(a, d.k);
    assert (if d.k in got then got[d.k] else []) == Under(b, d.k);
  }

  /** `diff`: the differences it lists are exactly the ones there are. */
  method Diff(expected: seq<Record>, emitted: seq<Record>, moving: set<string>)
    returns (differences: seq<Difference>)
    ensures forall d :: d in differences <==>
      Differs(Normalise(expected), Normalise(emitted), moving, d)
  {
    var a, b := Normalise(expected), Normalise(emitted);
    var want := IndexRecords(a);
    var got := IndexRecords(b);
    differences := CompareIndexes(want, got, moving);
    forall d ensures KeyDiffers(want, got, moving, d) <==> Differs(a, b, moving, d) {
      KeyDiffersIs(want, got, a, b, moving, d);
    }
  }
}
