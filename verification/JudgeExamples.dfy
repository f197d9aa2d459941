/** One literal stream the judge accepts, with every ending a collection can have,
    and what it reports of the stream when one member is written wrong. */
module JudgeExamples {
  import opened Options
  import opened Wire
  import opened Judge
  import opened JudgeTheory
  import opened JudgeValues

  const BOOT_ID := "3F2504e0-4f89-41d3-9A0C-0305e82c3301"

  /** 64 hexadecimal digits. */
  const DIGEST := "9f86d081884c7d659a2feaa0c55ad015a3bf4f1b2b0b822cd15d6c15b0f00a08"

  const ISSUED: map<string, int> := map["containers" := 103, "networks" := 120, "volumes" := 137]

  function Begin(): Record {
    map["record" := Str("begin"), "request" := Str("r-1"), "batch" := Str("b-1"),
        "boot_id" := Str(BOOT_ID),
        "declaration" := Str("sha256:" + DIGEST),
        "generations" := Dict(map["containers" := Int(103), "networks" := Int(120), "volumes" := Int(137)])]
  }

  function Volume(name: string, at: real): Record {
    map["record" := Str("object"), "collection" := Str("volumes"), "name" := Str(name),
        "type" := Str("volume"), "facts" := Dict(map["Driver" := Str("local")]),
        "at" := Json.Float(Finite(at))]
  }

  function Commit(c: string, generation: int, objects: int): Record {
    map["record" := Str("commit"), "collection" := Str(c), "generation" := Int(generation),
        "objects" := Int(objects), "assertions" := Int(0), "unobservable" := Int(0),
        "cpu_ms" := Int(0)]
  }

  function Decline(c: string, reason: string): Record {
    map["record" := Str("decline"), "collection" := Str(c), "reason" := Str(reason)]
  }

  function End(): Record {
    map["record" := Str("end"), "request" := Str("r-1"), "batch" := Str("b-1"),
        "cpu_ms" := Int(0), "wall_ms" := Json.Float(Finite(0.5))]
  }

  /** Two volumes read at one instant, networks not served, no containers at all. */
  function Stream(): seq<Record> {
    [Begin(), Volume("pgdata", 1000000000.0), Volume("cache", 1000000000.0), Commit("volumes", 137, 2),
     Decline("networks", "unsupported"),
     Decline("containers", "absent"), Commit("containers", 103, 0), End()]
  }

  function Edited(i: nat, member: string, v: Json): seq<Record>
    requires i < 8
  {
    Stream()[i := Stream()[i][member := v]]
  }

  // ── what the judge finds where ────────────────────────────────────────

  predicate Closing(r: Record, kind: string, c: string) {
    Get(r, "record") == Str(kind) && Get(r, "collection") == Str(c)
  }

  /** The kinds and collections of the stream, whatever else its records say. */
  predicate Shape(rs: seq<Record>) {
    && |rs| == 8 && IsKind(rs[0], "begin")
    && Closing(rs[1], "object", "volumes") && Closing(rs[2], "object", "volumes")
    && Closing(rs[3], "commit", "volumes") && Closing(rs[4], "decline", "networks")
    && Closing(rs[5], "decline", "containers") && Closing(rs[6], "commit", "containers")
    && IsKind(rs[7], "end")
  }

  function Picked(r: Record, kind: string, c: Coll): seq<Record> {
    if IsKind(r, kind) && Collection(r) == c then [r] else []
  }

  function Kept(r: Record, kind: string): seq<Record> {
    if IsKind(r, kind) then [r] else []
  }

  function Sum<T>(p: seq<seq<T>>, n: nat): seq<T>
    requires n <= |p|
  {
    if n == 0 then [] else Sum(p, n - 1) + p[n - 1]
  }

  ghost predicate Empty<T>(p: seq<seq<T>>, n: nat, m: nat)
    requires m <= |p|
  {
    forall i | n <= i < m :: p[i] == []
  }

  lemma {:induction false} NothingAdded<T>(p: seq<seq<T>>, n: nat, m: nat)
    requires n <= m <= |p| && Empty(p, n, m)
    ensures Sum(p, m) == Sum(p, n)
  {
    if n < m {
      NothingAdded(p, n, m - 1);
    }
  }

  lemma NextSum<T>(p: seq<seq<T>>, n: nat, before: seq<T>)
    requires n < |p| && Sum(p, n) == before
    ensures Sum(p, n + 1) == before + p[n]
  {}

  /** All but two parts empty, those two are the sum. */
  lemma PairOf<T>(p: seq<seq<T>>, i: nat, j: nat, x: seq<T>, y: seq<T>)
    requires i < j < |p| && Empty(p, 0, i) && Empty(p, i + 1, j) && Empty(p, j + 1, |p|)
    requires x == p[i] && y == p[j]
    ensures Sum(p, |p|) == x + y
  {
    SumThrough(p, i, j, x);
    NextSum(p, j, x);
    NothingAdded(p, j + 1, |p|);
  }

  lemma SumThrough<T>(p: seq<seq<T>>, i: nat, j: nat, x: seq<T>)
    requires i < j < |p| && Empty(p, 0, i) && Empty(p, i + 1, j) && x == p[i]
    ensures Sum(p, j) == x
  {
    FirstSum(p, i, x);
    NothingAdded(p, i + 1, j);
  }

  lemma FirstSum<T>(p: seq<seq<T>>, i: nat, x: seq<T>)
    requires i < |p| && Empty(p, 0, i) && x == p[i]
    ensures Sum(p, i + 1) == x
  {
    NothingAdded(p, 0, i);
    NextSum(p, i, []);
  }

  lemma {:induction false} Steps(rs: seq<Record>, kind: string, c: Coll, p: seq<seq<Record>>, n: nat)
    requires n <= |rs| == |p| && forall i | 0 <= i < |rs| :: p[i] == Picked(rs[i], kind, c)
    ensures In(rs[..n], kind, c) == Sum(p, n)
  {
    if n > 0 {
      assert rs[..n][..n - 1] == rs[..n - 1];
      Steps(rs, kind, c, p, n - 1);
    }
  }

  lemma {:induction false} KindSteps(rs: seq<Record>, kind: string, p: seq<seq<Record>>, n: nat)
    requires n <= |rs| == |p| && forall i | 0 <= i < |rs| :: p[i] == Kept(rs[i], kind)
    ensures Of(rs[..n], kind) == Sum(p, n)
  {
    if n > 0 {
      assert rs[..n][..n - 1] == rs[..n - 1];
      KindSteps(rs, kind, p, n - 1);
    }
  }

  lemma KeptPair(rs: seq<Record>, kind: string, p: seq<seq<Record>>, i: nat, j: nat)
    requires |p| == |rs| && i < j < |rs| && forall k | 0 <= k < |rs| :: p[k] == Kept(rs[k], kind)
    requires Empty(p, 0, i) && Empty(p, i + 1, j) && Empty(p, j + 1, |p|)
    ensures Of(rs, kind) == p[i] + p[j]
  {
    assert rs[..|rs|] == rs;
    KindSteps(rs, kind, p, |rs|);
    PairOf(p, i, j, p[i], p[j]);
  }

  lemma KeptIs(r: Record, k: string, kind: string)
    requires IsKind(r, k)
    ensures Kept(r, kind) == if kind == k then [r] else []
  {}

  lemma AllKept(rs: seq<Record>, kind: string)
    requires Shape(rs)
    ensures Kept(rs[0], kind) == if kind == "begin" then [rs[0]] else []
    ensures Kept(rs[1], kind) == if kind == "object" then [rs[1]] else []
    ensures Kept(rs[2], kind) == if kind == "object" then [rs[2]] else []
    ensures Kept(rs[3], kind) == if kind == "commit" then [rs[3]] else []
    ensures Kept(rs[4], kind) == if kind == "decline" then [rs[4]] else []
    ensures Kept(rs[5], kind) == if kind == "decline" then [rs[5]] else []
    ensures Kept(rs[6], kind) == if kind == "commit" then [rs[6]] else []
    ensures Kept(rs[7], kind) == if kind == "end" then [rs[7]] else []
  {
    KeptIs(rs[0], "begin", kind);
    KeptIs(rs[1], "object", kind);
    KeptIs(rs[2], "object", kind);
    KeptIs(rs[3], "commit", kind);
    KeptIs(rs[4], "decline", kind);
    KeptIs(rs[5], "decline", kind);
    KeptIs(rs[6], "commit", kind);
    KeptIs(rs[7], "end", kind);
  }

  lemma KindPair(rs: seq<Record>, kind: string, i: nat, j: nat)
    requires Shape(rs) && i < j < 8
    requires forall k | k in {0, 1, 2, 3, 4, 5, 6, 7} && k != i && k != j :: Kept(rs[k], kind) == []
    ensures Of(rs, kind) == Kept(rs[i], kind) + Kept(rs[j], kind)
  {
    var p := seq(8, k requires 0 <= k < 8 => Kept(rs[k], kind));
    KeptPair(rs, kind, p, i, j);
  }

  lemma Begins(rs: seq<Record>)
    requires Shape(rs)
    ensures Of(rs, "begin") == [rs[0]]
  {
    AllKept(rs, "begin");
    KindPair(rs, "begin", 0, 7);
  }

  lemma EndsOf(rs: seq<Record>)
    requires Shape(rs)
    ensures Of(rs, "end") == [rs[7]]
  {
    AllKept(rs, "end");
    KindPair(rs, "end", 0, 7);
  }

  lemma Headers(rs: seq<Record>)
    requires Shape(rs)
    ensures Of(rs, "begin") == [rs[0]] && Of(rs, "object") == [rs[1], rs[2]] && Of(rs, "end") == [rs[7]]
  {
    Begins(rs);
    EndsOf(rs);
    AllKept(rs, "object");
    KindPair(rs, "object", 1, 2);
  }

  lemma ObjectsOf(rs: seq<Record>, c: Coll)
    requires Shape(rs)
    ensures In(rs, "object", c) == if c == Named("volumes") then [rs[1], rs[2]] else []
  {
    AllPicked(rs, "object", c);
    PickedPair(rs, "object", c, 1, 2);
  }

  lemma Objects(rs: seq<Record>, c: Coll)
    requires Shape(rs)
    ensures Of(rs, "begin") == [rs[0]] && Of(rs, "object") == [rs[1], rs[2]] && Of(rs, "end") == [rs[7]]
    ensures In(rs, "object", c) == if c == Named("volumes") then [rs[1], rs[2]] else []
  {
    Headers(rs);
    ObjectsOf(rs, c);
  }

  predicate Here(kind: string, c: Coll, k: string, name: string) {
    kind == k && c == Named(name)
  }

  lemma PickedIs(r: Record, k: string, c: string, kind: string, at: Coll)
    requires Closing(r, k, c)
    ensures Picked(r, kind, at) == if Here(kind, at, k, c) then [r] else []
  {}

  lemma NotPicked(r: Record, k: string, kind: string, c: Coll)
    requires IsKind(r, k) && kind != k
    ensures Picked(r, kind, c) == []
  {}

  /** Who is of the closing kinds, and who is not. */
  lemma AllPicked(rs: seq<Record>, kind: string, c: Coll)
    requires Shape(rs) && kind != "begin" && kind != "end"
    ensures Picked(rs[0], kind, c) == Picked(rs[7], kind, c) == []
    ensures Picked(rs[1], kind, c) == if Here(kind, c, "object", "volumes") then [rs[1]] else []
    ensures Picked(rs[2], kind, c) == if Here(kind, c, "object", "volumes") then [rs[2]] else []
    ensures Picked(rs[3], kind, c) == if Here(kind, c, "commit", "volumes") then [rs[3]] else []
    ensures Picked(rs[4], kind, c) == if Here(kind, c, "decline", "networks") then [rs[4]] else []
    ensures Picked(rs[5], kind, c) == if Here(kind, c, "decline", "containers") then [rs[5]] else []
    ensures Picked(rs[6], kind, c) == if Here(kind, c, "commit", "containers") then [rs[6]] else []
  {
    NotPicked(rs[0], "begin", kind, c);
    PickedIs(rs[1], "object", "volumes", kind, c);
    PickedIs(rs[2], "object", "volumes", kind, c);
    PickedIs(rs[3], "commit", "volumes", kind, c);
    PickedIs(rs[4], "decline", "networks", kind, c);
    PickedIs(rs[5], "decline", "containers", kind, c);
    PickedIs(rs[6], "commit", "containers", kind, c);
    NotPicked(rs[7], "end", kind, c);
  }

  lemma PickedPair(rs: seq<Record>, kind: string, c: Coll, i: nat, j: nat)
    requires Shape(rs) && i < j < 8
    requires forall k | k in {0, 1, 2, 3, 4, 5, 6, 7} && k != i && k != j :: Picked(rs[k], kind, c) == []
    ensures In(rs, kind, c) == Picked(rs[i], kind, c) + Picked(rs[j], kind, c)
  {
    var p := seq(8, k requires 0 <= k < 8 => Picked(rs[k], kind, c));
    assert rs[..8] == rs;
    Steps(rs, kind, c, p, 8);
    PairOf(p, i, j, p[i], p[j]);
  }

  lemma Commits(rs: seq<Record>, c: Coll)
    requires Shape(rs)
    ensures In(rs, "commit", c)
      == if c == Named("volumes") then [rs[3]] else if c == Named("containers") then [rs[6]] else []
  {
    AllPicked(rs, "commit", c);
    PickedPair(rs, "commit", c, 3, 6);
  }

  lemma Declines(rs: seq<Record>, c: Coll)
    requires Shape(rs)
    ensures In(rs, "decline", c)
      == if c == Named("networks") then [rs[4]] else if c == Named("containers") then [rs[5]] else []
  {
    AllPicked(rs, "decline", c);
    PickedPair(rs, "decline", c, 4, 5);
  }

  lemma Others(rs: seq<Record>, c: Coll)
    requires Shape(rs)
    ensures In(rs, "relation_assertion", c) == [] && In(rs, "unobservable", c) == []
  {
    AllPicked(rs, "relation_assertion", c);
    PickedPair(rs, "relation_assertion", c, 1, 2);
    AllPicked(rs, "unobservable", c);
    PickedPair(rs, "unobservable", c, 1, 2);
  }

  // ── accepted as it stands ─────────────────────────────────────────────

  lemma BootIdLiteral()
    ensures KernelBootId(Str(BOOT_ID))
  {
    assert BOOT_ID[0] == '3';
  }

  lemma DeclarationLiteral()
    ensures |"sha256:" + DIGEST| == 71 && DeclarationOk(Str("sha256:" + DIGEST))
  {}

  lemma HeaderIsLawful()
    ensures HeaderLawful(Begin(), End())
    ensures GenerationsOf(Begin()) == Some(map["containers" := Int(103), "networks" := Int(120), "volumes" := Int(137)])
  {
    BootIdLiteral();
    BootIdIff(Str(BOOT_ID));
    DeclarationLiteral();
    HeaderMembers();
    HeaderFrom(Begin(), End(), map["containers" := Int(103), "networks" := Int(120), "volumes" := Int(137)]);
  }

  lemma HeaderFrom(begin: Record, end: Record, generations: map<string, Json>)
    requires BootIdOk(Get(begin, "boot_id")) && DeclarationOk(Get(begin, "declaration"))
    requires Get(begin, "request") == Get(end, "request") == Str("r-1")
    requires Get(begin, "batch") == Get(end, "batch") == Str("b-1")
    requires Get(begin, "generations") == Dict(generations) && "volumes" in generations
    ensures HeaderLawful(begin, end) && GenerationsOf(begin) == Some(generations)
  {}

  lemma HeaderMembers()
    ensures Get(Begin(), "boot_id") == Str(BOOT_ID) && Get(Begin(), "declaration") == Str("sha256:" + DIGEST)
    ensures Get(Begin(), "request") == Get(End(), "request") == Str("r-1")
    ensures Get(Begin(), "batch") == Get(End(), "batch") == Str("b-1")
    ensures Get(Begin(), "generations")
      == Dict(map["containers" := Int(103), "networks" := Int(120), "volumes" := Int(137)])
  {}

  lemma Heads()
    ensures IsKind(Begin(), "begin") && IsKind(End(), "end")
  {}

  lemma VolumeHead(name: string, at: real)
    ensures Closing(Volume(name, at), "object", "volumes")
  {}

  lemma StreamShape()
    ensures Shape(Stream())
  {
    Heads();
    VolumeHead("pgdata", 1000000000.0);
    VolumeHead("cache", 1000000000.0);
    ShapeFrom(Begin(), Volume("pgdata", 1000000000.0), Volume("cache", 1000000000.0), End());
  }

  lemma ShapeFrom(begin: Record, first: Record, second: Record, end: Record)
    requires IsKind(begin, "begin") && IsKind(end, "end")
    requires Closing(first, "object", "volumes") && Closing(second, "object", "volumes")
    ensures Shape([begin, first, second, Commit("volumes", 137, 2), Decline("networks", "unsupported"),
                   Decline("containers", "absent"), Commit("containers", 103, 0), end])
  {}

  lemma Tallies(c: Coll)
    ensures TallyOf(Stream(), c) == if c == Named("volumes") then Tally(2, 0, 0) else Tally(0, 0, 0)
  {
    StreamShape();
    Objects(Stream(), c);
    Others(Stream(), c);
  }

  lemma VolumesServed()
    ensures Ends(Stream(), "volumes", Int(137), Served)
  {
    var c := Named("volumes");
    StreamShape();
    Tallies(c);
    Commits(Stream(), c);
    Declines(Stream(), c);
    Committed("volumes", 137, 2);
  }

  lemma NetworksDeclined()
    ensures Ends(Stream(), "networks", Int(120), Declined)
  {
    var c := Named("networks");
    StreamShape();
    Tallies(c);
    Commits(Stream(), c);
    Declines(Stream(), c);
  }

  lemma ContainersAbsent()
    ensures Ends(Stream(), "containers", Int(103), Absent)
  {
    var c := Named("containers");
    StreamShape();
    Tallies(c);
    Commits(Stream(), c);
    Declines(Stream(), c);
    Committed("containers", 103, 0);
  }

  lemma Committed(c: string, g: int, n: nat)
    ensures CommittedOnce([Commit(c, g, n)], Tally(n, 0, 0), Int(g))
  {
    CommitMembers(c, g, n);
  }

  lemma CommitMembers(c: string, g: int, n: nat)
    ensures var k := Commit(c, g, n);
      && Get(k, "generation") == Int(g)
      && CountsExact(k, Tally(n, 0, 0))
      && "cpu_ms" in k && k["cpu_ms"] == Int(0)
  {}

  lemma VolumeMembers(name: string, at: real)
    ensures var r := Volume(name, at);
      && Get(r, "name") == Str(name) && Get(r, "at") == Json.Float(Finite(at))
      && FactsOf(r) == map["Driver" := Str("local")]
  {}

  lemma StampsOf(first: Record, second: Record)
    requires Get(first, "at") == Get(second, "at") == Json.Float(Finite(1000000000.0))
    ensures StampsSorted([first, second]) && StampsSorted([])
  {}

  lemma Sorted(c: Coll)
    ensures StampsSorted(In(Stream(), "object", c))
  {
    VolumeMembers("pgdata", 1000000000.0);
    VolumeMembers("cache", 1000000000.0);
    StreamShape();
    Objects(Stream(), c);
    StampsOf(Stream()[1], Stream()[2]);
  }

  lemma CleanIn(rs: seq<Record>, r: Record)
    requires Shape(rs) && FactsNullFree(rs[1]) && FactsNullFree(rs[2])
    requires r in rs && (IsKind(r, "object") || IsKind(r, "relation_assertion"))
    ensures FactsNullFree(r)
  {
    var c := Collection(r);
    OfMember(rs, "object", r);
    InMember(rs, "relation_assertion", c, r);
    Objects(rs, c);
    Others(rs, c);
  }

  lemma VolumeClean(name: string, at: real)
    ensures FactsNullFree(Volume(name, at))
  {
    VolumeMembers(name, at);
  }

  lemma Clean(r: Record)
    requires r in Stream() && (IsKind(r, "object") || IsKind(r, "relation_assertion"))
    ensures FactsNullFree(r)
  {
    StreamShape();
    VolumeClean("pgdata", 1000000000.0);
    VolumeClean("cache", 1000000000.0);
    CleanIn(Stream(), r);
  }

  lemma NamedOnly(c: Coll)
    requires In(Stream(), "commit", c) != [] || In(Stream(), "decline", c) != []
    ensures c.Named? && c.name in ISSUED
  {
    StreamShape();
    Commits(Stream(), c);
    Declines(Stream(), c);
  }

  lemma EndIsLawful()
    ensures EndLawful(Stream(), End())
  {}

  /** A volume is served twice over, networks are declined and containers are
      absent: such a stream is accepted, stamps at the very bound of a boot clock. */
  lemma Accepted()
    ensures Accepts(Stream(), Some(ISSUED))
  {
    var rs := Stream();
    StreamShape();
    Objects(rs, Unnamed(Null));
    HeaderIsLawful();
    VolumesServed();
    NetworksDeclined();
    ContainersAbsent();
    EndIsLawful();
    forall c ensures StampsSorted(In(rs, "object", c)) { Sorted(c); }
    forall r | r in rs && (IsKind(r, "object") || IsKind(r, "relation_assertion")) ensures FactsNullFree(r) {
      Clean(r);
    }
    forall c | In(rs, "commit", c) != [] || In(rs, "decline", c) != [] ensures c.Named? && c.name in ISSUED {
      NamedOnly(c);
    }
    AllLawful(rs, Begin(), End(), map["containers" := Int(103), "networks" := Int(120), "volumes" := Int(137)]);
    AcceptsIffLawful(rs, Some(ISSUED));
  }

  lemma AllLawful(rs: seq<Record>, begin: Record, end: Record, gens: map<string, Json>)
    requires Of(rs, "begin") == [begin] && Of(rs, "end") == [end]
    requires HeaderLawful(begin, end) && GenerationsOf(begin) == Some(gens)
    requires gens == map["containers" := Int(103), "networks" := Int(120), "volumes" := Int(137)]
    requires HasEnding(rs, "volumes", Int(137)) && HasEnding(rs, "networks", Int(120))
    requires HasEnding(rs, "containers", Int(103))
    requires forall c | In(rs, "commit", c) != [] || In(rs, "decline", c) != [] :: c.Named? && c.name in gens
    requires ObjectsLawful(rs) && EndLawful(rs, end)
    ensures Lawful(rs, Some(ISSUED))
  {
    AllEnd(rs, gens);
    AsIssued(gens);
    LawfulFrom(rs, begin, end, gens, Some(ISSUED));
  }

  lemma AllEnd(rs: seq<Record>, gens: map<string, Json>)
    requires gens == map["containers" := Int(103), "networks" := Int(120), "volumes" := Int(137)]
    requires HasEnding(rs, "volumes", Int(137)) && HasEnding(rs, "networks", Int(120))
    requires HasEnding(rs, "containers", Int(103))
    ensures forall name | name in gens :: IsIndex(gens[name]) && HasEnding(rs, name, gens[name])
  {}

  lemma AsIssued(gens: map<string, Json>)
    requires gens == map["containers" := Int(103), "networks" := Int(120), "volumes" := Int(137)]
    ensures IssuedEchoed(gens, Some(ISSUED))
  {
    assert Issue(ISSUED).members == gens;
  }

  lemma LawfulFrom(rs: seq<Record>, begin: Record, end: Record, gens: map<string, Json>,
                   issued: Option<map<string, int>>)
    requires Of(rs, "begin") == [begin] && Of(rs, "end") == [end]
    requires HeaderLawful(begin, end) && GenerationsOf(begin) == Some(gens)
    requires IssuedEchoed(gens, issued) && CollectionsLawful(rs, gens) && ObjectsLawful(rs) && EndLawful(rs, end)
    ensures Lawful(rs, issued)
  {}

  // ── one member written wrong ──────────────────────────────────────────

  lemma EditedShape(i: nat, member: string, v: Json)
    requires i < 8 && member != "record" && member != "collection"
    ensures Shape(Edited(i, member, v)) && Edited(i, member, v)[i] == Stream()[i][member := v]
    ensures forall j | 0 <= j < 8 && j != i :: Edited(i, member, v)[j] == Stream()[j]
  {
    StreamShape();
    EditedAlike(Stream(), i, member, v);
  }

  lemma EditedAlike(rs: seq<Record>, i: nat, member: string, v: Json)
    requires Shape(rs) && i < 8 && member != "record" && member != "collection"
    ensures Shape(rs[i := rs[i][member := v]])
  {}

  lemma Found(i: nat, member: string, v: Json)
    requires i < 8 && member != "record" && member != "collection"
    ensures var rs := Edited(i, member, v);
      && Of(rs, "begin") == [if i == 0 then Begin()[member := v] else Begin()]
      && Of(rs, "end") == [if i == 7 then End()[member := v] else End()]
      && Of(rs, "object") != []
      && (i != 0 ==>
            Judged(rs)
            && Opened(rs) == map["containers" := Int(103), "networks" := Int(120), "volumes" := Int(137)])
  {
    EditedShape(i, member, v);
    Headers(Edited(i, member, v));
    if i != 0 {
      HeaderIsLawful();
      OpenedBy(Edited(i, member, v), Begin());
    }
  }

  lemma OpenedBy(rs: seq<Record>, begin: Record)
    requires Of(rs, "begin") == [begin] && GenerationsOf(begin).Some?
    ensures Judged(rs) && Opened(rs) == GenerationsOf(begin).value
  {}

  /** The nil boot id, and a declaration that names no digest. */
  lemma HeaderRefused()
    ensures Breaks(Edited(0, "boot_id", Str("00000000-0000-0000-0000-000000000000")), Some(ISSUED), BadBootId)
    ensures Breaks(Edited(0, "declaration", Str("sha256:")), Some(ISSUED), BadDeclaration)
  {
    var nil, bare := Str("00000000-0000-0000-0000-000000000000"), Str("sha256:");
    Found(0, "boot_id", nil);
    Found(0, "declaration", bare);
    forall i | 0 <= i < 36 ensures nil.s[i] == '0' || nil.s[i] == '-' { NilDigits(i); }
    BootIdVerdict(Edited(0, "boot_id", nil), Some(ISSUED));
    DeclarationVerdict(Edited(0, "declaration", bare), Some(ISSUED));
    assert Begin()["boot_id" := nil]["boot_id"] == nil;
    forall digest | digest != "" ensures bare != Str("sha256:" + digest) {
      assert |"sha256:" + digest| > 7;
    }
  }

  /** An end that closes another request. */
  lemma EchoRefused()
    ensures Breaks(Edited(7, "request", Str("r-2")), Some(ISSUED), EchoMismatch("request"))
  {
    Found(7, "request", Str("r-2"));
    HeaderMembers();
    EchoFrom(Edited(7, "request", Str("r-2")), Begin(), End()["request" := Str("r-2")]);
  }

  lemma EchoFrom(rs: seq<Record>, begin: Record, end: Record)
    requires Of(rs, "begin") == [begin] && Of(rs, "end") == [end]
    requires Get(begin, "request") == Str("r-1") && Get(end, "request") == Str("r-2")
    ensures Breaks(rs, Some(ISSUED), EchoMismatch("request"))
  {
    assert "r-1"[2] != "r-2"[2];
  }

  /** An end that costs less than nothing, or no time beside objects. */
  lemma CostsRefused()
    ensures Breaks(Edited(7, "cpu_ms", Int(-1)), Some(ISSUED), BadEndCost("cpu_ms"))
    ensures Breaks(Edited(7, "wall_ms", Int(0)), Some(ISSUED), NoWallCost)
  {
    Found(7, "cpu_ms", Int(-1));
    CostFrom(Edited(7, "cpu_ms", Int(-1)), End()["cpu_ms" := Int(-1)]);
    Found(7, "wall_ms", Int(0));
    WallFrom(Edited(7, "wall_ms", Int(0)), End()["wall_ms" := Int(0)]);
  }

  lemma CostFrom(rs: seq<Record>, end: Record)
    requires Judged(rs) && Of(rs, "end") == [end] && Get(end, "cpu_ms") == Int(-1)
    ensures Breaks(rs, Some(ISSUED), BadEndCost("cpu_ms"))
  {
    EndCostVerdict(rs, Some(ISSUED), "cpu_ms");
  }

  lemma WallFrom(rs: seq<Record>, end: Record)
    requires Judged(rs) && Of(rs, "end") == [end] && Get(end, "wall_ms") == Int(0) && Of(rs, "object") != []
    ensures Breaks(rs, Some(ISSUED), NoWallCost)
  {
    WallCostVerdict(rs, Some(ISSUED));
  }

  /** A stamp of nothing, one past the bound, and a bool. */
  lemma StampRefused(v: Json)
    requires v in {Int(0), Int(1000000001), Bool(true), Null}
    ensures Breaks(Edited(1, "at", v), Some(ISSUED), BadStamp(Named("volumes"), Str("pgdata")))
  {
    var rs := Edited(1, "at", v);
    Found(1, "at", v);
    EditedShape(1, "at", v);
    VolumeMembers("pgdata", 1000000000.0);
    VolumeHead("pgdata", 1000000000.0);
    StampFrom(rs, rs[1], v);
  }

  lemma StampFrom(rs: seq<Record>, r: Record, v: Json)
    requires Judged(rs) && r in rs && Closing(r, "object", "volumes")
    requires Get(r, "name") == Str("pgdata") && Get(r, "at") == v
    requires v in {Int(0), Int(1000000001), Bool(true), Null}
    ensures Breaks(rs, Some(ISSUED), BadStamp(Named("volumes"), Str("pgdata")))
  {
    StampVerdict(rs, Some(ISSUED), Named("volumes"), Str("pgdata"));
  }

  /** A reading older than the one before it. */
  lemma BackwardsRefused()
    ensures Breaks(Edited(2, "at", Int(999)), Some(ISSUED),
                   Backwards(Named("volumes"), Str("cache"), 1000000000.0))
  {
    var rs := Edited(2, "at", Int(999));
    Found(2, "at", Int(999));
    EditedShape(2, "at", Int(999));
    VolumeMembers("pgdata", 1000000000.0);
    VolumeMembers("cache", 1000000000.0);
    Objects(rs, Named("volumes"));
    BackwardsFrom(rs, rs[1], rs[2]);
  }

  lemma BackwardsFrom(rs: seq<Record>, first: Record, second: Record)
    requires Judged(rs) && In(rs, "object", Named("volumes")) == [first, second]
    requires Get(first, "at") == Json.Float(Finite(1000000000.0)) && Get(second, "at") == Int(999)
    requires Get(second, "name") == Str("cache")
    ensures Breaks(rs, Some(ISSUED), Backwards(Named("volumes"), Str("cache"), 1000000000.0))
  {
    var objects := In(rs, "object", Named("volumes"));
    assert objects[..1] == [first] && objects[1] == second;
    assert LastReading([first]) == Some(1000000000.0);
  }

  /** A fact with a null inside it. */
  lemma NullRefused()
    ensures Breaks(Edited(1, "facts", Dict(map["Driver" := Dict(map["x" := Null])])), Some(ISSUED),
                   NullFact(Named("volumes"), Str("pgdata"), "Driver", [Key("x")]))
  {
    var v := Dict(map["Driver" := Dict(map["x" := Null])]);
    var rs := Edited(1, "facts", v);
    Found(1, "facts", v);
    EditedShape(1, "facts", v);
    FactsEdited("pgdata", 1000000000.0, v);
    NullFrom(rs, rs[1], v);
  }

  lemma FactsEdited(name: string, at: real, v: Json)
    ensures var r := Volume(name, at)["facts" := v];
      Closing(r, "object", "volumes") && Get(r, "name") == Str(name) && Get(r, "facts") == v
  {
    VolumeHead(name, at);
    VolumeMembers(name, at);
  }

  lemma NullFrom(rs: seq<Record>, r: Record, v: Json)
    requires Judged(rs) && r in rs && Closing(r, "object", "volumes") && Get(r, "name") == Str("pgdata")
    requires v == Dict(map["Driver" := Dict(map["x" := Null])]) && Get(r, "facts") == v
    ensures Breaks(rs, Some(ISSUED), NullFact(Named("volumes"), Str("pgdata"), "Driver", [Key("x")]))
  {
    NullInside();
    NullOf(rs, r, Dict(map["x" := Null]));
  }

  lemma NullInside()
    ensures [Key("x")] in NullPaths(Dict(map["x" := Null]))
  {
    NullPathsExact(Dict(map["x" := Null]), [Key("x")]);
    assert [Key("x")][1..] == [];
    assert LeadsToNull(Null, []);
  }

  lemma NullOf(rs: seq<Record>, r: Record, driver: Json)
    requires Judged(rs) && r in rs && Closing(r, "object", "volumes") && Get(r, "name") == Str("pgdata")
    requires Get(r, "facts") == Dict(map["Driver" := driver]) && [Key("x")] in NullPaths(driver)
    ensures Breaks(rs, Some(ISSUED), NullFact(Named("volumes"), Str("pgdata"), "Driver", [Key("x")]))
  {
    assert FactsOf(r) == map["Driver" := driver];
    NullFound(rs, r, "Driver", [Key("x")]);
  }

  lemma NullFound(rs: seq<Record>, r: Record, fact: string, path: seq<Wire.Step>)
    requires Judged(rs) && r in rs && IsKind(r, "object")
    requires fact in FactsOf(r) && path in NullPaths(FactsOf(r)[fact])
    ensures Breaks(rs, Some(ISSUED), NullFact(Collection(r), Get(r, "name"), fact, path))
  {}

  /** A commit of another generation, or of other counts than were carried. */
  lemma CommitRefused()
    ensures Breaks(Edited(3, "generation", Int(136)), Some(ISSUED), WrongGeneration("volumes", Int(136)))
    ensures Breaks(Edited(3, "objects", Int(3)), Some(ISSUED), CountWrong(Named("volumes"), "objects"))
    ensures Breaks(Edited(3, "unobservable", Int(1)), Some(ISSUED), CountWrong(Named("volumes"), "unobservable"))
  {
    GenerationRefused();
    Committing("objects", Int(3));
    Objects(Edited(3, "objects", Int(3)), Named("volumes"));
    CountFrom(Edited(3, "objects", Int(3)), Commit("volumes", 137, 2)["objects" := Int(3)], "objects", "object", 3);
    Committing("unobservable", Int(1));
    Others(Edited(3, "unobservable", Int(1)), Named("volumes"));
    CountFrom(Edited(3, "unobservable", Int(1)), Commit("volumes", 137, 2)["unobservable" := Int(1)],
              "unobservable", "unobservable", 1);
  }

  lemma CountFrom(rs: seq<Record>, k: Record, member: string, kind: string, n: nat)
    requires Judged(rs) && In(rs, "commit", Named("volumes")) == [k]
    requires (member == "objects" && kind == "object") || (member == kind == "unobservable")
    requires member in k && k[member] == Int(n) && |In(rs, kind, Named("volumes"))| != n
    ensures Breaks(rs, Some(ISSUED), CountWrong(Named("volumes"), member))
  {
    assert k in In(rs, "commit", Named("volumes"));
  }

  lemma GenerationRefused()
    ensures Breaks(Edited(3, "generation", Int(136)), Some(ISSUED), WrongGeneration("volumes", Int(136)))
  {
    Committing("generation", Int(136));
    GenerationFrom(Edited(3, "generation", Int(136)), Commit("volumes", 137, 2)["generation" := Int(136)]);
  }

  lemma GenerationFrom(rs: seq<Record>, k: Record)
    requires Judged(rs) && In(rs, "commit", Named("volumes")) == [k] && Get(k, "generation") == Int(136)
    requires "volumes" in Opened(rs) && Opened(rs)["volumes"] == Int(137)
    ensures Breaks(rs, Some(ISSUED), WrongGeneration("volumes", Int(136)))
  {
    assert k in In(rs, "commit", Named("volumes"));
  }

  lemma Committing(member: string, v: Json)
    requires member != "record" && member != "collection"
    ensures var rs := Edited(3, member, v);
      && Shape(rs) && Judged(rs) && "volumes" in Opened(rs) && Opened(rs)["volumes"] == Int(137)
      && In(rs, "commit", Named("volumes")) == [Commit("volumes", 137, 2)[member := v]]
  {
    Found(3, member, v);
    EditedShape(3, member, v);
    Commits(Edited(3, member, v), Named("volumes"));
  }

  /** A decline as absent without its empty commit, and a commit beside a decline
      for another reason. */
  lemma DeclineRefused()
    ensures Breaks(Edited(4, "reason", Str("absent")), Some(ISSUED), AbsentNotEmpty(Named("networks")))
    ensures Breaks(Edited(5, "reason", Str("unsupported")), Some(ISSUED),
                   DeclineCommitted(Named("containers"), Str("unsupported")))
  {
    Declining(4, "networks", Str("absent"));
    AbsentFrom(Edited(4, "reason", Str("absent")), Decline("networks", "unsupported")["reason" := Str("absent")]);
    Declining(5, "containers", Str("unsupported"));
    DeclinedFrom(Edited(5, "reason", Str("unsupported")),
                 Decline("containers", "absent")["reason" := Str("unsupported")]);
  }

  lemma AbsentFrom(rs: seq<Record>, d: Record)
    requires Shape(rs) && Judged(rs) && In(rs, "decline", Named("networks")) == [d]
    requires Get(d, "reason") == Str("absent")
    ensures Breaks(rs, Some(ISSUED), AbsentNotEmpty(Named("networks")))
  {
    Commits(rs, Named("networks"));
    AbsentVerdict(rs, Some(ISSUED), Named("networks"));
    assert d in In(rs, "decline", Named("networks"));
  }

  lemma DeclinedFrom(rs: seq<Record>, d: Record)
    requires Shape(rs) && Judged(rs) && In(rs, "decline", Named("containers")) == [d]
    requires Get(d, "reason") == Str("unsupported")
    ensures Breaks(rs, Some(ISSUED), DeclineCommitted(Named("containers"), Str("unsupported")))
  {
    Commits(rs, Named("containers"));
    DeclineOnly(rs, Some(ISSUED), DeclineCommitted(Named("containers"), Str("unsupported")));
    assert d in In(rs, "decline", Named("containers"));
    assert "unsupported"[0] != "absent"[0];
  }

  lemma Declining(i: nat, c: string, v: Json)
    requires (i == 4 && c == "networks") || (i == 5 && c == "containers")
    ensures var rs := Edited(i, "reason", v);
      Shape(rs) && Judged(rs) && In(rs, "decline", Named(c)) == [Stream()[i]["reason" := v]]
  {
    Found(i, "reason", v);
    EditedShape(i, "reason", v);
    Declines(Edited(i, "reason", v), Named(c));
  }
}
