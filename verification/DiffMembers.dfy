/** What the comparison sees and what it does not, member by member and in the
    records' own words: two records that differ in one member, two records of one
    identity, and one fact that changed. */
module DiffMembers {
  import opened Wire
  import opened Judge
  import opened StreamDiff
  import opened DiffTheory

  // ── one member ────────────────────────────────────────────────────────

  /** The twelve members that vary with the run, beside their records' kinds. */
  const VARYING: set<(string, string)> := {
    ("begin", "request"), ("begin", "batch"), ("begin", "boot_id"), ("begin", "generations"),
    ("begin", "declaration"), ("object", "at"), ("commit", "cpu_ms"), ("commit", "generation"),
    ("end", "request"), ("end", "batch"), ("end", "cpu_ms"), ("end", "wall_ms")}

  ghost predicate DifferOnlyIn(a: Record, b: Record, m: string) {
    && (forall n | n != m :: (n in a <==> n in b) && (n in a ==> a[n] == b[n]))
    && (m in a && m in b ==> a[m] != b[m]) && (m in a || m in b)
  }

  /** The collections a begin record asks for. */
  function Asked(r: Record): set<string> {
    match Get(r, "generations")
    case Dict(m) => m.Keys
    case _ => {}
  }

  ghost predicate Tolerated(a: Record, b: Record, m: string) {
    match Get(a, "record")
    case Str(kind) => (kind, m) in VARYING && (kind == "begin" && m == "generations" ==> Asked(a) == Asked(b))
    case _ => false
  }

  /** Of two records that differ in one member the comparison lists nothing exactly
      when that member is one of the twelve; of begin's generations the names count. */
  lemma OneMemberIff(a: Record, b: Record, m: string, moving: set<string>)
    requires DifferOnlyIn(a, b, m) && forall n | n in a && n != m :: NaNFree(a[n])
    requires m == "facts" ==> moving == {}
    ensures Agrees([a], [b], moving) <==> Tolerated(a, b, m)
  {
    if m == "record" {
      HeadSeen(a, b, moving);
    } else {
      SameKind(a, b, m);
      if Tolerated(a, b, m) {
        ClaimsEqual(a, b, m);
        OneClaim(a, b, moving);
      } else {
        ClaimsDiffer(a, b, m);
        MemberSeen(a, b, m, moving);
      }
    }
  }

  lemma SameKind(a: Record, b: Record, m: string)
    requires DifferOnlyIn(a, b, m) && m != "record"
    ensures Get(a, "record") == Get(b, "record")
  {}

  lemma HeadSeen(a: Record, b: Record, moving: set<string>)
    requires DifferOnlyIn(a, b, "record")
    ensures !Agrees([a], [b], moving) && !Tolerated(a, b, "record")
  {
    KindKept(a);
    KindKept(b);
    MemberSeen(a, b, "record", moving);
  }

  lemma KindKept(r: Record)
    ensures "record" in Claim(r) <==> "record" in r
    ensures "record" in r ==> Claim(r)["record"] == r["record"]
    ensures !Dropped(Get(r, "record"), "record")
  {
    DroppedIff(Get(r, "record"), "record");
  }

  /** The member is among those left out of a claim of that kind. */
  predicate Dropped(kind: Json, m: string) {
    match kind
    case Str(k) => (k, m) in VARYING
    case _ => false
  }

  lemma DroppedIff(kind: Json, m: string)
    ensures m in RunVarying(kind) <==> Dropped(kind, m)
  {}

  lemma AskedIff(a: Record, b: Record)
    ensures Requested(a) == Requested(b) <==> Asked(a) == Asked(b)
  {
    AskedIs(a);
    AskedIs(b);
  }

  lemma AskedIs(r: Record)
    ensures Requested(r).Dict? && Requested(r).members.Keys == Asked(r)
    ensures forall k | k in Requested(r).members :: Requested(r).members[k] == Null
  {}

  lemma ClaimsEqual(a: Record, b: Record, m: string)
    requires DifferOnlyIn(a, b, m) && m != "record" && Tolerated(a, b, m)
    requires forall n | n in a && n != m :: NaNFree(a[n])
    ensures Claim(a) == Claim(b) && forall n | n in Claim(a) :: NaNFree(Claim(a)[n])
  {
    SameKind(a, b, m);
    DroppedIff(Get(a, "record"), m);
    AskedIs(a);
    if m == "generations" && IsKind(a, "begin") {
      AskedIff(a, b);
    } else {
      assert Get(a, "generations") == Get(b, "generations");
    }
    SameLeft(a, b, RunVarying(Get(a, "record")), m);
  }

  lemma SameLeft(a: Record, b: Record, dropped: set<string>, m: string)
    requires DifferOnlyIn(a, b, m) && m in dropped
    ensures a - dropped == b - dropped
  {}

  lemma ClaimsDiffer(a: Record, b: Record, m: string)
    requires DifferOnlyIn(a, b, m) && m != "record" && !Tolerated(a, b, m)
    ensures ClaimsPart(a, b, m)
  {
    DroppedIff(Get(a, "record"), m);
    SameKind(a, b, m);
    if m == "generations" && IsKind(a, "begin") {
      AskedIff(a, b);
    }
  }

  ghost predicate ClaimsPart(a: Record, b: Record, m: string) {
    (m in Claim(a) || m in Claim(b)) && (m in Claim(a) && m in Claim(b) ==> Claim(a)[m] != Claim(b)[m])
  }

  lemma UnderOne(r: Record, k: Identity)
    ensures Under([r], k) == if KeyOf(r) == k then [r] else []
  {
    assert [r][..0] == [] && Under([], k) == [];
  }

  lemma MemberSeen(a: Record, b: Record, m: string, moving: set<string>)
    requires ClaimsPart(a, b, m) && (m == "facts" ==> moving == {})
    ensures !Agrees([a], [b], moving)
  {
    var x, y := Claim(a), Claim(b);
    var k := KeyOf(x);
    assert Normalise([a]) == [x] && Normalise([b]) == [y];
    UnderOne(x, k);
    UnderOne(y, k);
    if RecordsAgree(x, y, moving) {
      TypedEqualIsStructural(x[m], y[m]);
    }
    assert !GroupsAgree(Under([x], k), Under([y], k), moving);
  }

  lemma OneClaim(a: Record, b: Record, moving: set<string>)
    requires Claim(a) == Claim(b) && forall n | n in Claim(a) :: NaNFree(Claim(a)[n])
    ensures Agrees([a], [b], moving)
  {
    var x := Claim(a);
    assert Normalise([a]) == [x] && Normalise([b]) == [x];
    assert Stable(x, moving);
    RecordReflexive(x, moving);
    forall k ensures GroupsAgree(Under([x], k), Under([x], k), moving) {
      UnderOne(x, k);
    }
  }

  // ── one identity ──────────────────────────────────────────────────────

  /** A member as the key reads it: the empty text where it is missing. */
  predicate SameUnder(a: Record, b: Record, member: string) {
    LooseEqual(GetOr(a, member, Str("")), GetOr(b, member, Str("")))
  }

  function TargetOf(r: Record): Record {
    match Get(r, "target")
    case Dict(m) => m
    case _ => map[]
  }

  predicate Keyable(r: Record) {
    && (forall m | m in {"record", "collection", "name", "fact", "type"} :: Scalar(GetOr(r, m, Str(""))))
    && (forall m | m in {"kind", "name"} :: Scalar(GetOr(TargetOf(r), m, Str(""))))
  }

  /** Two records are one identity exactly when these members are equal to Python,
      the target's kind and name among them; of an assertion the facts too. */
  lemma SameIdentityIff(a: Record, b: Record)
    requires Keyable(a) && Keyable(b)
    ensures KeyOf(a) == KeyOf(b) <==>
      && (forall m | m in {"record", "collection", "name", "fact", "type"} :: SameUnder(a, b, m))
      && (forall m | m in {"kind", "name"} :: SameUnder(TargetOf(a), TargetOf(b), m))
      && (IsKind(a, "relation_assertion") ==> GetOr(a, "facts", Dict(map[])) == GetOr(b, "facts", Dict(map[])))
  {
    forall m | m in {"record", "collection", "name", "fact", "type"}
      ensures Keyed(a, m) == Keyed(b, m) <==> SameUnder(a, b, m)
    {
      HashedIsLoose(GetOr(a, m, Str("")), GetOr(b, m, Str("")));
    }
    forall m | m in {"kind", "name"}
      ensures Keyed(TargetOf(a), m) == Keyed(TargetOf(b), m) <==> SameUnder(TargetOf(a), TargetOf(b), m)
    {
      HashedIsLoose(GetOr(TargetOf(a), m, Str("")), GetOr(TargetOf(b), m, Str("")));
    }
    KindAlike(a, b);
    KeysAlike(a, b);
  }

  lemma KeysAlike(a: Record, b: Record)
    requires Keyed(a, "record") == Keyed(b, "record") ==>
      (IsKind(a, "relation_assertion") <==> IsKind(b, "relation_assertion"))
    ensures KeyOf(a) == KeyOf(b) <==>
      && (forall m | m in {"record", "collection", "name", "fact", "type"} :: Keyed(a, m) == Keyed(b, m))
      && (forall m | m in {"kind", "name"} :: Keyed(TargetOf(a), m) == Keyed(TargetOf(b), m))
      && (IsKind(a, "relation_assertion") ==> GetOr(a, "facts", Dict(map[])) == GetOr(b, "facts", Dict(map[])))
  {
    KeyParts(a);
    KeyParts(b);
  }

  lemma KeyParts(r: Record)
    ensures KeyOf(r) == Identity(
      Keyed(r, "record"), Keyed(r, "collection"), Keyed(r, "name"), Keyed(r, "fact"), Keyed(r, "type"),
      Keyed(TargetOf(r), "kind"), Keyed(TargetOf(r), "name"),
      if IsKind(r, "relation_assertion") then GetOr(r, "facts", Dict(map[])) else Str(""))
  {}

  lemma KindAlike(a: Record, b: Record)
    ensures SameUnder(a, b, "record") ==> (IsKind(a, "relation_assertion") <==> IsKind(b, "relation_assertion"))
  {}

  // ── one fact ──────────────────────────────────────────────────────────

  /** type(v).__name__ */
  function TypeName(v: Json): string {
    match v
    case Null => "NoneType"
    case Bool(_) => "bool"
    case Int(_) => "int"
    case Float(_) => "float"
    case Str(_) => "str"
    case List(_) => "list"
    case Dict(_) => "dict"
  }

  lemma TypesApart(a: Json, b: Json)
    ensures SameType(a, b) <==> TypeName(a) == TypeName(b)
  {
    assert TypeName(a)[0] == TypeName(b)[0] <==> SameType(a, b);
  }

  ghost predicate FactsDifferOnlyIn(x: map<string, Json>, y: map<string, Json>, f: string) {
    && f in x && f in y && x[f] != y[f] && x.Keys == y.Keys
    && forall g | g in x && g != f :: x[g] == y[g] && NaNFree(x[g])
  }

  /** Of two records that differ in one fact the comparison lists nothing exactly
      when the fact is moving, of one type on both sides, and no assertion's. */
  lemma OneFactIff(a: Record, b: Record, x: map<string, Json>, y: map<string, Json>, f: string,
                   moving: set<string>)
    requires DifferOnlyIn(a, b, "facts") && forall n | n in a && n != "facts" :: NaNFree(a[n])
    requires Get(a, "facts") == Dict(x) && Get(b, "facts") == Dict(y) && FactsDifferOnlyIn(x, y, f)
    ensures Agrees([a], [b], moving) <==>
      !IsKind(a, "relation_assertion") && f in moving && TypeName(x[f]) == TypeName(y[f])
  {
    TypesApart(x[f], y[f]);
    SameKind(a, b, "facts");
    FactsClaimed(a, b);
    if moving == {} {
      MemberSeen(a, b, "facts", moving);
    } else {
      FactsClaimsAgree(Claim(a), Claim(b), x, y, f, moving);
      OnePair(a, b, moving);
    }
  }

  lemma FactsClaimed(a: Record, b: Record)
    requires DifferOnlyIn(a, b, "facts") && forall n | n in a && n != "facts" :: NaNFree(a[n])
    ensures DifferOnlyIn(Claim(a), Claim(b), "facts")
    ensures Get(Claim(a), "facts") == Get(a, "facts") && Get(Claim(b), "facts") == Get(b, "facts")
    ensures IsKind(a, "relation_assertion") <==> IsKind(Claim(a), "relation_assertion")
    ensures forall n | n in Claim(a) && n != "facts" :: NaNFree(Claim(a)[n])
  {
    SameKind(a, b, "facts");
    AskedIs(a);
    ClaimHead(a);
    FactsKept(a);
    FactsKept(b);
    SameRequest(a, b);
  }

  lemma FactsKept(r: Record)
    ensures "facts" in Claim(r) <==> "facts" in r
    ensures "facts" in r ==> Claim(r)["facts"] == r["facts"]
  {
    DroppedIff(Get(r, "record"), "facts");
  }

  lemma SameRequest(a: Record, b: Record)
    requires DifferOnlyIn(a, b, "facts")
    ensures Requested(a) == Requested(b)
  {
    assert Get(a, "generations") == Get(b, "generations");
  }

  lemma OnePair(a: Record, b: Record, moving: set<string>)
    ensures Agrees([a], [b], moving) <==>
      KeyOf(Claim(a)) == KeyOf(Claim(b)) && RecordsAgree(Claim(a), Claim(b), moving)
  {
    var x, y := Claim(a), Claim(b);
    assert Normalise([a]) == [x] && Normalise([b]) == [y];
    forall k ensures GroupsAgree(Under([x], k), Under([y], k), moving) <==> PairsAgree(x, y, k, moving) {
      UnderOne(x, k);
      UnderOne(y, k);
    }
    assert Agrees([a], [b], moving) <==> forall k :: PairsAgree(x, y, k, moving);
    assert PairsAgree(x, y, KeyOf(x), moving) ==> KeyOf(x) == KeyOf(y) && RecordsAgree(x, y, moving);
  }

  /** Two records agree under an identity: neither has it, or both and they agree. */
  ghost predicate PairsAgree(x: Record, y: Record, k: Identity, moving: set<string>) {
    (KeyOf(x) == k <==> KeyOf(y) == k) && (KeyOf(x) == k ==> RecordsAgree(x, y, moving))
  }

  lemma FactsClaimsAgree(a: Record, b: Record, x: map<string, Json>, y: map<string, Json>, f: string,
                         moving: set<string>)
    requires DifferOnlyIn(a, b, "facts") && forall n | n in a && n != "facts" :: NaNFree(a[n])
    requires Get(a, "facts") == Dict(x) && Get(b, "facts") == Dict(y) && FactsDifferOnlyIn(x, y, f)
    requires moving != {}
    ensures KeyOf(a) == KeyOf(b) <==> !IsKind(a, "relation_assertion")
    ensures RecordsAgree(a, b, moving) <==> f in moving && SameType(x[f], y[f])
  {
    KeyParts(a);
    KeyParts(b);
    forall n | n in a && n != "facts" ensures MemberAgrees(n, a[n], b[n], moving) {
      TypedEqualIsStructural(a[n], b[n]);
    }
    OneFactAgrees(x, y, f, moving);
    assert RecordsAgree(a, b, moving) <==> MemberAgrees("facts", a["facts"], b["facts"], moving);
  }

  lemma OneFactAgrees(x: map<string, Json>, y: map<string, Json>, f: string, moving: set<string>)
    requires FactsDifferOnlyIn(x, y, f)
    ensures FactsAgree(Dict(x), Dict(y), moving) <==> f in moving && SameType(x[f], y[f])
  {
    forall g | g in x ensures FactAgrees(moving, g, x[g], y[g]) <==> g != f || (f in moving && SameType(x[f], y[f])) {
      TypedEqualIsStructural(x[g], y[g]);
      TypesApart(x[g], y[g]);
    }
  }

  function Container(state: string, at: int): Record {
    map["record" := Str("object"), "collection" := Str("containers"), "name" := Str("db"),
        "facts" := Dict(map["State" := Str(state)]), "at" := Int(at)]
  }

  /** A container that runs and one that has exited are told apart, whenever read. */
  lemma StateSeen(at: int, later: int)
    ensures exists d :: Differs(Normalise([Container("running", at)]), Normalise([Container("exited", later)]), {}, d)
  {
    var a, b := Container("running", at), Container("exited", later);
    FactsSeen(a, b);
    EmptyDiffIffAgrees([a], [b], {});
  }

  lemma FactsSeen(a: Record, b: Record)
    requires IsKind(a, "object") && IsKind(b, "object") && "facts" in a && "facts" in b
    requires a["facts"] == Dict(map["State" := Str("running")]) && b["facts"] == Dict(map["State" := Str("exited")])
    ensures !Agrees([a], [b], {})
  {
    DroppedIff(Str("object"), "facts");
    assert "running"[0] != "exited"[0];
    assert a["facts"].members["State"] != b["facts"].members["State"];
    MemberSeen(a, b, "facts", {});
  }

  // ── the order of a collection ─────────────────────────────────────────

  /** The names compared for order are those of the collection's objects, as
      `str()` has them, where `str()` spells a string as it is and no other value
      as this collection. */
  lemma {:induction false} NamesAre(str: Json -> string, records: seq<Record>, c: string)
    requires forall v :: str(v) == c <==> v == Str(c)
    ensures |Names(str, records, c)| == |In(records, "object", Named(c))|
    ensures forall i | 0 <= i < |Names(str, records, c)| ::
      Names(str, records, c)[i] == str(Get(In(records, "object", Named(c))[i], "name"))
  {
    if records != [] {
      var r := records[|records| - 1];
      NamesAre(str, records[..|records| - 1], c);
      ServesIff(str, r, c);
    }
  }

  lemma ServesIff(str: Json -> string, r: Record, c: string)
    requires forall v :: str(v) == c <==> v == Str(c)
    ensures DiffTheory.Serves(str, r, c) <==> IsKind(r, "object") && Collection(r) == Named(c)
  {}
}
