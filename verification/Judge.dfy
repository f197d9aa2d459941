/** The structural judge of a replayed stream: replay.py `check_stream`.
    Accepted means that no rule below is broken. */
module Judge {
  import opened Options
  import opened Wire

  /** The collection a record claims. The judge keys on `str(collection)`; a
      member that is not a string keys as itself here. */
  datatype Coll = Named(name: string) | Unnamed(v: Json)

  function Collection(r: Record): Coll {
    match Get(r, "collection")
    case Str(s) => Named(s)
    case v => Unnamed(v)
  }

  predicate IsKind(r: Record, kind: string) {
    Get(r, "record") == Str(kind)
  }

  /** The records of one kind, in stream order. */
  function Of(records: seq<Record>, kind: string): seq<Record> {
    if records == [] then []
    else
      var r := records[|records| - 1];
      Of(records[..|records| - 1], kind) + (if IsKind(r, kind) then [r] else [])
  }

  /** The records of one kind and one collection, in stream order. */
  function In(records: seq<Record>, kind: string, c: Coll): seq<Record> {
    if records == [] then []
    else
      var r := records[|records| - 1];
      In(records[..|records| - 1], kind, c)
      + (if IsKind(r, kind) && Collection(r) == c then [r] else [])
  }

  datatype Problem =
    | BeginCount(n: nat)
    | EndCount(n: nat)
    | BadBootId
    | BadDeclaration
    | NotOpened(member: string)
    | NotClosed(member: string)
    | EchoMismatch(member: string)
    | NoGenerations
    | NotIssued
    | DuplicateCommit(c: Coll)
    | DuplicateDecline(c: Coll)
    | NeverNamed(c: Coll)
    | NotAnIndex(name: string)
    | NeverClosed(name: string)
    | WrongGeneration(name: string, echoed: Json)
    | EmittedAfterDecline(c: Coll)
    | AbsentNotEmpty(c: Coll)
    | DeclineCommitted(c: Coll, reason: Json)
    | CountMissing(c: Coll, member: string)
    | CountWrong(c: Coll, member: string)
    | BadCommitCost(c: Coll)
    | BadStamp(c: Coll, row: Json)
    | Backwards(c: Coll, row: Json, previous: real)
    | NullFact(c: Coll, row: Json, fact: string, path: seq<Step>)
    | BadEndCost(member: string)
    | NoWallCost

  // ── single-value rules ────────────────────────────────────────────────

  predicate IsHex(c: char) {
    '0' <= c <= '9' || 'a' <= c <= 'f' || 'A' <= c <= 'F'
  }

  const NIL_UUID := "00000000-0000-0000-0000-000000000000"

  predicate UuidShaped(s: string) {
    |s| == 36
    && forall i | 0 <= i < 36 ::
         if i == 8 || i == 13 || i == 18 || i == 23 then s[i] == '-' else IsHex(s[i])
  }

  predicate BootIdOk(v: Json) {
    v.Str? && UuidShaped(v.s) && v.s != NIL_UUID
  }

  predicate DeclarationOk(v: Json) {
    v.Str? && "sha256:" <= v.s && |v.s| > 7
  }

  predicate NonEmptyText(v: Json) {
    v.Str? && v.s != ""
  }

  /** A finite non-negative int or float that is not a bool: `_measured`. */
  predicate Measured(v: Json) {
    (v.Int? && v.i >= 0) || (v.Float? && v.f.Finite? && v.f.r >= 0.0)
  }

  /** The reading an `at` states when it is a lawful one: 0 < at <= 1e9. */
  function Reading(r: Record): Option<real> {
    var at := Get(r, "at");
    if at.Int? && 0 < at.i <= 1000000000 then Some(at.i as real)
    else if at.Float? && at.f.Finite? && 0.0 < at.f.r <= 1000000000.0 then Some(at.f.r)
    else None
  }

  /** isinstance(g, int) and g >= 0; a bool is an int to isinstance. */
  predicate IsIndex(g: Json) {
    g.Bool? || (g.Int? && g.i >= 0)
  }

  function GenerationsOf(begin: Record): Option<map<string, Json>> {
    match Get(begin, "generations")
    case Dict(m) => if m == map[] then None else Some(m)
    case _ => None
  }

  function Issue(issued: map<string, int>): Json {
    Dict(map k | k in issued :: Int(issued[k]))
  }

  function FactsOf(r: Record): map<string, Json> {
    match Get(r, "facts")
    case Dict(m) => m
    case _ => map[]
  }

  /** The last lawful reading among a collection's objects. */
  function LastReading(objects: seq<Record>): Option<real> {
    if objects == [] then None
    else
      var r := Reading(objects[|objects| - 1]);
      if r.Some? then r else LastReading(objects[..|objects| - 1])
  }

  const COUNTS: seq<string> := ["objects", "assertions", "unobservable"]

  /** The record kind each of a commit's three counts is a count of. */
  function KindOf(count: string): string {
    if count == "objects" then "object"
    else if count == "assertions" then "relation_assertion"
    else "unobservable"
  }

  function Carried(records: seq<Record>, kind: string, c: Coll): nat {
    if c.Named? then |In(records, kind, c)| else 0
  }

  function Emitted(records: seq<Record>, c: Coll): nat {
    |In(records, "object", c)| + |In(records, "relation_assertion", c)|
    + |In(records, "unobservable", c)|
  }

  predicate CommitsZero(commit: Record) {
    forall m | m in COUNTS :: LooseEqual(Get(commit, m), Int(0))
  }

  predicate WallMissing(end: Record) {
    !("wall_ms" in end && Measured(end["wall_ms"]) && Numeric(end["wall_ms"]).value > 0.0)
  }

  /** Some record of the group states `v` under `member`. */
  predicate States(group: seq<Record>, member: string, v: Json) {
    exists k | k in group :: Get(k, member) == v
  }

  // ── the rules, one predicate per stage of the walk ────────────────────

  ghost predicate CountRule(begins: seq<Record>, ends: seq<Record>, p: Problem) {
    match p
    case BeginCount(n) => n == |begins| && n != 1
    case EndCount(n) => n == |ends| && n != 1
    case _ => false
  }

  /** `end` closes exactly the request and batch `begin` opened. */
  ghost predicate EchoRule(begin: Record, end: Record, member: string, p: Problem) {
    match p
    case NotOpened(m) => m == member && !NonEmptyText(Get(begin, m))
    case NotClosed(m) => m == member && !NonEmptyText(Get(end, m))
    case EchoMismatch(m) =>
      m == member && NonEmptyText(Get(begin, m)) && NonEmptyText(Get(end, m))
      && Get(end, m) != Get(begin, m)
    case _ => false
  }

  ghost predicate HeaderRule(begin: Record, ends: seq<Record>, p: Problem) {
    match p
    case BadBootId => !BootIdOk(Get(begin, "boot_id"))
    case BadDeclaration => !DeclarationOk(Get(begin, "declaration"))
    case NoGenerations => GenerationsOf(begin).None?
    case _ =>
      ends != []
      && (EchoRule(begin, ends[0], "request", p) || EchoRule(begin, ends[0], "batch", p))
  }

  ghost predicate ClosingRule(records: seq<Record>, gens: map<string, Json>,
                              issued: Option<map<string, int>>, p: Problem) {
    match p
    case NotIssued => issued.Some? && !TypedEqual(Dict(gens), Issue(issued.value))
    case DuplicateCommit(c) => |In(records, "commit", c)| > 1
    case DuplicateDecline(c) => |In(records, "decline", c)| > 1
    case NeverNamed(c) =>
      (In(records, "commit", c) != [] || In(records, "decline", c) != [])
      && !(c.Named? && c.name in gens)
    case NotAnIndex(name) => name in gens && !IsIndex(gens[name])
    case NeverClosed(name) =>
      name in gens && In(records, "commit", Named(name)) == []
      && In(records, "decline", Named(name)) == []
    case WrongGeneration(name, echoed) =>
      name in gens && !LooseEqual(echoed, gens[name])
      && States(In(records, "commit", Named(name)), "generation", echoed)
    case _ => false
  }

  ghost predicate DeclineRule(records: seq<Record>, p: Problem) {
    match p
    case EmittedAfterDecline(c) => In(records, "decline", c) != [] && Emitted(records, c) > 0
    case AbsentNotEmpty(c) =>
      States(In(records, "decline", c), "reason", Str("absent"))
      && (In(records, "commit", c) == []
          || exists k | k in In(records, "commit", c) :: !CommitsZero(k))
    case DeclineCommitted(c, reason) =>
      reason != Str("absent") && In(records, "commit", c) != []
      && States(In(records, "decline", c), "reason", reason)
    case _ => false
  }

  ghost predicate CommitRule(records: seq<Record>, p: Problem) {
    match p
    case CountMissing(c, member) =>
      member in COUNTS && exists k | k in In(records, "commit", c) :: member !in k
    case CountWrong(c, member) =>
      member in COUNTS && exists k | k in In(records, "commit", c) ::
        member in k && !TypedEqual(k[member], Int(Carried(records, KindOf(member), c)))
    case BadCommitCost(c) =>
      exists k | k in In(records, "commit", c) :: "cpu_ms" in k && !Measured(k["cpu_ms"])
    case _ => false
  }

  ghost predicate ObjectRule(records: seq<Record>, p: Problem) {
    match p
    case BadStamp(c, row) =>
      exists r | r in In(records, "object", c) :: Reading(r).None? && Get(r, "name") == row
    case Backwards(c, row, previous) =>
      var objects := In(records, "object", c);
      exists j | 0 <= j < |objects| ::
        Get(objects[j], "name") == row && LastReading(objects[..j]) == Some(previous)
        && Reading(objects[j]).Some? && Reading(objects[j]).value < previous
    case NullFact(c, row, fact, path) =>
      exists r | r in records ::
        (IsKind(r, "object") || IsKind(r, "relation_assertion"))
        && Collection(r) == c && Get(r, "name") == row
        && fact in FactsOf(r) && path in NullPaths(FactsOf(r)[fact])
    case _ => false
  }

  ghost predicate EndRule(records: seq<Record>, ends: seq<Record>, p: Problem) {
    match p
    case BadEndCost(m) =>
      ends != [] && m in ["cpu_ms", "wall_ms"] && m in ends[0] && !Measured(ends[0][m])
    case NoWallCost => ends != [] && Of(records, "object") != [] && WallMissing(ends[0])
    case _ => false
  }

  ghost predicate Breaks(records: seq<Record>, issued: Option<map<string, int>>, p: Problem) {
    var begins, ends := Of(records, "begin"), Of(records, "end");
    || CountRule(begins, ends, p)
    || (begins != [] && HeaderRule(begins[0], ends, p))
    || (begins != [] && GenerationsOf(begins[0]).Some?
        && (|| ClosingRule(records, GenerationsOf(begins[0]).value, issued, p)
            || DeclineRule(records, p)
            || CommitRule(records, p)
            || ObjectRule(records, p)
            || EndRule(records, ends, p)))
  }

  ghost predicate Accepts(records: seq<Record>, issued: Option<map<string, int>>) {
    forall p :: !Breaks(records, issued, p)
  }

  // ── the walk ──────────────────────────────────────────────────────────

  lemma InMember(records: seq<Record>, kind: string, c: Coll, r: Record)
    ensures r in In(records, kind, c) <==> r in records && IsKind(r, kind) && Collection(r) == c
  {
    if records != [] {
      InMember(records[..|records| - 1], kind, c, r);
      assert records == records[..|records| - 1] + [records[|records| - 1]];
    }
  }

  lemma OfMember(records: seq<Record>, kind: string, r: Record)
    ensures r in Of(records, kind) <==> r in records && IsKind(r, kind)
  {
    if records != [] {
      OfMember(records[..|records| - 1], kind, r);
      assert records == records[..|records| - 1] + [records[|records| - 1]];
    }
  }

  type Groups = map<Coll, seq<Record>>

  /** `groups` is the records of one kind, gathered under their collections. */
  ghost predicate GroupsOf(groups: Groups, records: seq<Record>, kind: string) {
    forall c :: (if c in groups then groups[c] else []) == In(records, kind, c)
                && (c in groups ==> groups[c] != [])
  }

  method Filter(records: seq<Record>, kind: string) returns (out: seq<Record>)
    ensures out == Of(records, kind)
  {
    out := [];
    for i := 0 to |records|
      invariant out == Of(records[..i], kind)
    {
      assert records[..i + 1][..i] == records[..i];
      if IsKind(records[i], kind) {
        out := out + [records[i]];
      }
    }
    assert records[..|records|] == records;
  }

  lemma GroupsGrow(groups: Groups, records: seq<Record>, r: Record, kind: string)
    requires GroupsOf(groups, records, kind)
    ensures GroupsOf(if IsKind(r, kind) then Added(groups, r) else groups, records + [r], kind)
  {
    var grown := records + [r];
    assert grown[..|grown| - 1] == records;
    forall c ensures In(grown, kind, c)
      == In(records, kind, c) + (if IsKind(r, kind) && Collection(r) == c then [r] else []) {}
  }

  function Added(groups: Groups, r: Record): Groups {
    var c := Collection(r);
    groups[c := (if c in groups then groups[c] else []) + [r]]
  }

  method Gather(records: seq<Record>) returns (commits: Groups, declines: Groups)
    ensures GroupsOf(commits, records, "commit")
    ensures GroupsOf(declines, records, "decline")
  {
    commits, declines := map[], map[];
    for i := 0 to |records|
      invariant GroupsOf(commits, records[..i], "commit")
      invariant GroupsOf(declines, records[..i], "decline")
    {
      var r := records[i];
      GroupsGrow(commits, records[..i], r, "commit");
      GroupsGrow(declines, records[..i], r, "decline");
      assert records[..i + 1] == records[..i] + [r];
      if IsKind(r, "commit") {
        commits := Added(commits, r);
      } else if IsKind(r, "decline") {
        declines := Added(declines, r);
      }
    }
    assert records[..|records|] == records;
  }

  method CheckEcho(begin: Record, end: Record, member: string) returns (problems: seq<Problem>)
    ensures forall p :: p in problems <==> EchoRule(begin, end, member, p)
  {
    problems := [];
    var named, closed := Get(begin, member), Get(end, member);
    if !NonEmptyText(named) {
      problems := problems + [NotOpened(member)];
    }
    if !NonEmptyText(closed) {
      problems := problems + [NotClosed(member)];
    } else if NonEmptyText(named) && closed != named {
      problems := problems + [EchoMismatch(member)];
    }
  }

  method CheckHeader(begin: Record, ends: seq<Record>) returns (problems: seq<Problem>)
    ensures forall p :: p in problems <==> HeaderRule(begin, ends, p)
  {
    problems := [];
    if !BootIdOk(Get(begin, "boot_id")) {
      problems := problems + [BadBootId];
    }
    if !DeclarationOk(Get(begin, "declaration")) {
      problems := problems + [BadDeclaration];
    }
    if ends != [] {
      var request := CheckEcho(begin, ends[0], "request");
      var batch := CheckEcho(begin, ends[0], "batch");
      problems := problems + request + batch;
    }
    if GenerationsOf(begin).None? {
      problems := problems + [NoGenerations];
    }
  }

  /** The closing rules, by the part of the walk that reports them. */
  lemma ClosingParts(records: seq<Record>, gens: map<string, Json>, issued: Option<map<string, int>>,
                     commits: Groups, declines: Groups, p: Problem)
    requires GroupsOf(commits, records, "commit") && GroupsOf(declines, records, "decline")
    ensures ClosingRule(records, gens, issued, p) <==>
      || (p.NotIssued? && issued.Some? && !TypedEqual(Dict(gens), Issue(issued.value)))
      || (p.DuplicateCommit? && p.c in commits && |commits[p.c]| > 1)
      || (p.DuplicateDecline? && p.c in declines && |declines[p.c]| > 1)
      || (p.NeverNamed? && p.c in commits.Keys + declines.Keys && !(p.c.Named? && p.c.name in gens))
      || ((p.NotAnIndex? || p.NeverClosed? || p.WrongGeneration?) && ClosingRule(records, gens, None, p))
  {}

  method CheckClosings(records: seq<Record>, gens: map<string, Json>,
                       issued: Option<map<string, int>>, commits: Groups, declines: Groups)
    returns (problems: seq<Problem>)
    requires GroupsOf(commits, records, "commit") && GroupsOf(declines, records, "decline")
    ensures forall p :: p in problems <==> ClosingRule(records, gens, issued, p)
  {
    problems := [];
    if issued.Some? && !TypedEqual(Dict(gens), Issue(issued.value)) {
      problems := [NotIssued];
    }
    var repeats := CheckRepeats(commits, declines);
    var strangers := CheckStrangers(gens, commits.Keys + declines.Keys);
    var named := CheckNamed(records, gens, commits, declines);
    problems := problems + repeats + strangers + named;
    forall p { ClosingParts(records, gens, issued, commits, declines, p); }
  }

  method CheckRepeats(commits: Groups, declines: Groups) returns (problems: seq<Problem>)
    ensures forall p :: p in problems <==>
      (p.DuplicateCommit? && p.c in commits && |commits[p.c]| > 1)
      || (p.DuplicateDecline? && p.c in declines && |declines[p.c]| > 1)
  {
    problems := [];
    var todo := commits.Keys;
    while todo != {}
      invariant todo <= commits.Keys
      invariant forall p :: p in problems <==>
        p.DuplicateCommit? && p.c in commits.Keys - todo && |commits[p.c]| > 1
    {
      var c :| c in todo;
      todo := todo - {c};
      if |commits[c]| > 1 {
        problems := problems + [DuplicateCommit(c)];
      }
    }
    todo := declines.Keys;
    ghost var before := problems;
    while todo != {}
      invariant todo <= declines.Keys
      invariant forall p :: p in problems <==>
        p in before || (p.DuplicateDecline? && p.c in declines.Keys - todo && |declines[p.c]| > 1)
    {
      var c :| c in todo;
      todo := todo - {c};
      if |declines[c]| > 1 {
        problems := problems + [DuplicateDecline(c)];
      }
    }
  }

  /** Closing records of collections begin never named. */
  method CheckStrangers(gens: map<string, Json>, closed: set<Coll>) returns (problems: seq<Problem>)
    ensures forall p :: p in problems <==>
      p.NeverNamed? && p.c in closed && !(p.c.Named? && p.c.name in gens)
  {
    problems := [];
    var todo := closed;
    while todo != {}
      invariant todo <= closed
      invariant forall p :: p in problems <==>
        p.NeverNamed? && p.c in closed - todo && !(p.c.Named? && p.c.name in gens)
    {
      var c :| c in todo;
      todo := todo - {c};
      if !(c.Named? && c.name in gens) {
        problems := problems + [NeverNamed(c)];
      }
    }
  }

  ghost predicate NamedRule(records: seq<Record>, gens: map<string, Json>,
                            name: string, p: Problem)
  {
    (p.NotAnIndex? || p.NeverClosed? || p.WrongGeneration?) && p.name == name
    && ClosingRule(records, gens, None, p)
  }

  method CheckNamed(records: seq<Record>, gens: map<string, Json>,
                    commits: Groups, declines: Groups) returns (problems: seq<Problem>)
    requires GroupsOf(commits, records, "commit") && GroupsOf(declines, records, "decline")
    ensures forall p :: p in problems <==>
      (p.NotAnIndex? || p.NeverClosed? || p.WrongGeneration?) && ClosingRule(records, gens, None, p)
  {
    problems := [];
    var todo := gens.Keys;
    while todo != {}
      invariant todo <= gens.Keys
      invariant forall p :: p in problems <==>
        (p.NotAnIndex? || p.NeverClosed? || p.WrongGeneration?) && p.name !in todo
        && NamedRule(records, gens, p.name, p)
    {
      var name :| name in todo;
      todo := todo - {name};
      var found := CheckOne(records, gens, name, commits, declines);
      problems := problems + found;
    }
  }

  method CheckOne(records: seq<Record>, gens: map<string, Json>, name: string,
                  commits: Groups, declines: Groups) returns (problems: seq<Problem>)
    requires name in gens
    requires GroupsOf(commits, records, "commit") && GroupsOf(declines, records, "decline")
    ensures forall p :: p in problems <==> NamedRule(records, gens, name, p)
  {
    var c := Named(name);
    GroupIs(commits, records, "commit", c);
    GroupIs(declines, records, "decline", c);
    var echoes := CheckEchoes(name, gens[name], if c in commits then commits[c] else []);
    problems := AboutName(name, !IsIndex(gens[name]), c !in commits && c !in declines) + echoes;
    forall p ensures p in problems <==> NamedRule(records, gens, name, p) {
      NamedParts(records, gens, name, p);
    }
  }

  /** The two rules about the name alone. */
  function AboutName(name: string, odd: bool, open: bool): (problems: seq<Problem>)
    ensures forall p :: p in problems <==> (odd && p == NotAnIndex(name)) || (open && p == NeverClosed(name))
  {
    (if odd then [NotAnIndex(name)] else []) + (if open then [NeverClosed(name)] else [])
  }

  lemma NamedParts(records: seq<Record>, gens: map<string, Json>, name: string, p: Problem)
    requires name in gens
    ensures var commits, declines := In(records, "commit", Named(name)), In(records, "decline", Named(name));
      NamedRule(records, gens, name, p) <==>
        || (!IsIndex(gens[name]) && p == NotAnIndex(name))
        || (commits == [] && declines == [] && p == NeverClosed(name))
        || (p.WrongGeneration? && p.name == name && !LooseEqual(p.echoed, gens[name])
            && States(commits, "generation", p.echoed))
  {}

  lemma GroupIs(groups: Groups, records: seq<Record>, kind: string, c: Coll)
    requires GroupsOf(groups, records, kind)
    ensures (if c in groups then groups[c] else []) == In(records, kind, c)
    ensures c in groups <==> In(records, kind, c) != []
  {}

  method CheckEchoes(name: string, generation: Json, group: seq<Record>)
    returns (problems: seq<Problem>)
    ensures forall p :: p in problems <==>
      p.WrongGeneration? && p.name == name && !LooseEqual(p.echoed, generation)
      && States(group, "generation", p.echoed)
  {
    problems := [];
    for i := 0 to |group|
      invariant forall p :: p in problems <==>
        p.WrongGeneration? && p.name == name && !LooseEqual(p.echoed, generation)
        && States(group[..i], "generation", p.echoed)
    {
      var echoed := Get(group[i], "generation");
      StatesGrows(group, i, "generation");
      if !LooseEqual(echoed, generation) {
        problems := problems + [WrongGeneration(name, echoed)];
      }
    }
    assert group[..|group|] == group;
  }

  lemma StatesGrows(group: seq<Record>, i: nat, member: string)
    requires i < |group|
    ensures forall v :: States(group[..i + 1], member, v)
                        <==> States(group[..i], member, v) || Get(group[i], member) == v
  {
    assert group[..i + 1] == group[..i] + [group[i]];
    assert group[i] in group[..i + 1];
    forall v ensures States(group[..i + 1], member, v)
                     <==> States(group[..i], member, v) || Get(group[i], member) == v
    {
      if k :| k in group[..i] && Get(k, member) == v {
        assert k in group[..i + 1];
      }
    }
  }

  method CheckDeclines(records: seq<Record>, commits: Groups, declines: Groups)
    returns (problems: seq<Problem>)
    requires GroupsOf(commits, records, "commit") && GroupsOf(declines, records, "decline")
    ensures forall p :: p in problems <==> DeclineRule(records, p)
  {
    problems := [];
    var todo := declines.Keys;
    while todo != {}
      invariant todo <= declines.Keys
      invariant forall p :: p in problems <==>
        (p.EmittedAfterDecline? || p.AbsentNotEmpty? || p.DeclineCommitted?)
        && p.c in declines.Keys - todo && DeclineRule(records, p)
    {
      var c :| c in todo;
      todo := todo - {c};
      var found := CheckDeclined(records, c, declines[c], if c in commits then commits[c] else []);
      problems := problems + found;
    }
  }

  method CheckDeclined(records: seq<Record>, c: Coll, group: seq<Record>, closing: seq<Record>)
    returns (problems: seq<Problem>)
    requires group == In(records, "decline", c) && group != []
    requires closing == In(records, "commit", c)
    ensures forall p :: p in problems <==>
      (p.EmittedAfterDecline? || p.AbsentNotEmpty? || p.DeclineCommitted?)
      && p.c == c && DeclineRule(records, p)
  {
    var emitted: seq<Problem> := if Emitted(records, c) > 0 then [EmittedAfterDecline(c)] else [];
    var reasons := CheckReasons(c, group, closing != [],
                                closing != [] && forall k | k in closing :: CommitsZero(k));
    problems := emitted + reasons;
    forall p ensures p in problems <==>
      (p.EmittedAfterDecline? || p.AbsentNotEmpty? || p.DeclineCommitted?) && p.c == c && DeclineRule(records, p)
    {
      assert p in problems <==> p in emitted || p in reasons;
    }
  }

  method CheckReasons(c: Coll, group: seq<Record>, committed: bool, empty: bool)
    returns (problems: seq<Problem>)
    ensures forall p :: p in problems <==>
      || (p == AbsentNotEmpty(c) && !empty && States(group, "reason", Str("absent")))
      || (p.DeclineCommitted? && p.c == c && p.reason != Str("absent") && committed
          && States(group, "reason", p.reason))
  {
    problems := [];
    for i := 0 to |group|
      invariant forall p :: p in problems <==>
        || (p == AbsentNotEmpty(c) && !empty && States(group[..i], "reason", Str("absent")))
        || (p.DeclineCommitted? && p.c == c && p.reason != Str("absent") && committed
            && States(group[..i], "reason", p.reason))
    {
      var reason := Get(group[i], "reason");
      StatesGrows(group, i, "reason");
      if reason == Str("absent") {
        if !empty {
          problems := problems + [AbsentNotEmpty(c)];
        }
      } else if committed {
        problems := problems + [DeclineCommitted(c, reason)];
      }
    }
    assert group[..|group|] == group;
  }

  ghost predicate CommitProblem(records: seq<Record>, c: Coll, k: Record, p: Problem) {
    match p
    case CountMissing(d, member) => d == c && member in COUNTS && member !in k
    case CountWrong(d, member) =>
      d == c && member in COUNTS && member in k
      && !TypedEqual(k[member], Int(Carried(records, KindOf(member), c)))
    case BadCommitCost(d) => d == c && "cpu_ms" in k && !Measured(k["cpu_ms"])
    case _ => false
  }

  method CheckCommit(records: seq<Record>, c: Coll, k: Record) returns (problems: seq<Problem>)
    ensures forall p :: p in problems <==> CommitProblem(records, c, k, p)
  {
    problems := [];
    for i := 0 to |COUNTS|
      invariant forall p :: p in problems <==>
        !p.BadCommitCost? && CommitProblem(records, c, k, p) && p.member in COUNTS[..i]
    {
      var member := COUNTS[i];
      assert COUNTS[..i + 1] == COUNTS[..i] + [member];
      if member !in k {
        problems := problems + [CountMissing(c, member)];
      } else if !TypedEqual(k[member], Int(Carried(records, KindOf(member), c))) {
        problems := problems + [CountWrong(c, member)];
      }
    }
    assert COUNTS[..|COUNTS|] == COUNTS;
    if "cpu_ms" in k && !Measured(k["cpu_ms"]) {
      problems := problems + [BadCommitCost(c)];
    }
  }

  method CheckCommits(records: seq<Record>, commits: Groups) returns (problems: seq<Problem>)
    requires GroupsOf(commits, records, "commit")
    ensures forall p :: p in problems <==> CommitRule(records, p)
  {
    problems := [];
    var todo := commits.Keys;
    while todo != {}
      invariant todo <= commits.Keys
      invariant forall p :: p in problems <==>
        (p.CountMissing? || p.CountWrong? || p.BadCommitCost?)
        && p.c in commits.Keys - todo && CommitRule(records, p)
    {
      var c :| c in todo;
      todo := todo - {c};
      var found := CheckCommitted(records, c, commits[c]);
      problems := problems + found;
    }
  }

  method CheckCommitted(records: seq<Record>, c: Coll, group: seq<Record>)
    returns (problems: seq<Problem>)
    requires group == In(records, "commit", c)
    ensures forall p :: p in problems <==>
      (p.CountMissing? || p.CountWrong? || p.BadCommitCost?) && p.c == c && CommitRule(records, p)
  {
    problems := [];
    for i := 0 to |group|
      invariant forall p :: p in problems <==>
        exists k | k in group[..i] :: CommitProblem(records, c, k, p)
    {
      var found := CheckCommit(records, c, group[i]);
      problems := problems + found;
      assert group[..i + 1] == group[..i] + [group[i]];
      assert group[i] in group[..i + 1];
    }
    assert group[..|group|] == group;
  }

  /** What one more record can break, given the readings before it. */
  ghost predicate ObjectStep(records: seq<Record>, r: Record, p: Problem) {
    var last := LastReading(In(records, "object", Collection(r)));
    match p
    case BadStamp(c, row) =>
      IsKind(r, "object") && c == Collection(r) && row == Get(r, "name") && Reading(r).None?
    case Backwards(c, row, previous) =>
      IsKind(r, "object") && c == Collection(r) && row == Get(r, "name")
      && Reading(r).Some? && last == Some(previous) && Reading(r).value < previous
    case NullFact(c, row, fact, path) =>
      (IsKind(r, "object") || IsKind(r, "relation_assertion"))
      && c == Collection(r) && row == Get(r, "name")
      && fact in FactsOf(r) && path in NullPaths(FactsOf(r)[fact])
    case _ => false
  }

  lemma InGrows(records: seq<Record>, r: Record, kind: string, c: Coll)
    ensures In(records + [r], kind, c)
      == In(records, kind, c) + (if IsKind(r, kind) && Collection(r) == c then [r] else [])
  {
    var grown := records + [r];
    assert grown[..|grown| - 1] == records;
  }

  lemma ObjectRuleGrows(records: seq<Record>, r: Record, p: Problem)
    ensures ObjectRule(records + [r], p) <==> ObjectRule(records, p) || ObjectStep(records, r, p)
  {
    if p.BadStamp? {
      InGrows(records, r, "object", p.c);
    } else if p.Backwards? {
      InGrows(records, r, "object", p.c);
      PrefixKept(In(records, "object", p.c), In(records + [r], "object", p.c));
    }
  }

  lemma PrefixKept(before: seq<Record>, after: seq<Record>)
    requires before <= after
    ensures forall j | 0 <= j <= |before| :: after[..j] == before[..j]
    ensures before[..|before|] == before
    ensures forall j | 0 <= j < |before| :: after[j] == before[j]
  {}

  lemma LastReadingStep(records: seq<Record>, r: Record, c: Coll)
    ensures LastReading(In(records + [r], "object", c))
      == (if IsKind(r, "object") && Collection(r) == c && Reading(r).Some? then Reading(r)
          else LastReading(In(records, "object", c)))
  {
    InGrows(records, r, "object", c);
    var before, after := In(records, "object", c), In(records + [r], "object", c);
    if after == before + [r] {
      assert after[..|after| - 1] == before;
    } else {
      assert after == before;
    }
  }

  method CheckFacts(r: Record) returns (problems: seq<Problem>)
    ensures forall p :: p in problems <==>
      p.NullFact? && p.c == Collection(r) && p.row == Get(r, "name")
      && p.fact in FactsOf(r) && p.path in NullPaths(FactsOf(r)[p.fact])
  {
    problems := [];
    var facts := FactsOf(r);
    var todo := facts.Keys;
    while todo != {}
      invariant todo <= facts.Keys
      invariant forall p :: p in problems <==>
        p.NullFact? && p.c == Collection(r) && p.row == Get(r, "name")
        && p.fact in facts.Keys - todo && p.path in NullPaths(facts[p.fact])
    {
      var fact :| fact in todo;
      todo := todo - {fact};
      var paths := NullPaths(facts[fact]);
      ghost var before := problems;
      while paths != {}
        invariant paths <= NullPaths(facts[fact])
        invariant forall p :: p in problems <==>
          p in before
          || (p.NullFact? && p.c == Collection(r) && p.row == Get(r, "name")
              && p.fact == fact && p.path in NullPaths(facts[fact]) - paths)
      {
        var path :| path in paths;
        paths := paths - {path};
        problems := problems + [NullFact(Collection(r), Get(r, "name"), fact, path)];
      }
    }
  }

  /** `last` is the newest lawful reading of every collection so far. */
  ghost predicate Clock(last: map<Coll, real>, records: seq<Record>) {
    forall c :: (if c in last then Some(last[c]) else None)
                == LastReading(In(records, "object", c))
  }

  method CheckRecord(ghost before: seq<Record>, r: Record, last: map<Coll, real>)
    returns (problems: seq<Problem>, next: map<Coll, real>)
    requires Clock(last, before)
    ensures Clock(next, before + [r])
    ensures forall p :: p in problems <==> ObjectStep(before, r, p)
  {
    problems, next := [], last;
    var c := Collection(r);
    assert (if c in last then Some(last[c]) else None) == LastReading(In(before, "object", c));
    if IsKind(r, "object") {
      var at := Reading(r);
      if at.None? {
        problems := [BadStamp(c, Get(r, "name"))];
      } else {
        if c in last && at.value < last[c] {
          problems := [Backwards(c, Get(r, "name"), last[c])];
        }
        next := last[c := at.value];
      }
    }
    forall d ensures (if d in next then Some(next[d]) else None)
                     == LastReading(In(before + [r], "object", d))
    {
      LastReadingStep(before, r, d);
    }
    if IsKind(r, "object") || IsKind(r, "relation_assertion") {
      var nulls := CheckFacts(r);
      problems := problems + nulls;
    }
  }

  method CheckObjects(records: seq<Record>) returns (problems: seq<Problem>)
    ensures forall p :: p in problems <==> ObjectRule(records, p)
  {
    problems := [];
    var last: map<Coll, real> := map[];
    for i := 0 to |records|
      invariant Clock(last, records[..i])
      invariant forall p :: p in problems <==> ObjectRule(records[..i], p)
    {
      ghost var before := records[..i];
      var found, next := CheckRecord(before, records[i], last);
      forall p ensures p in problems + found <==> ObjectRule(before + [records[i]], p) {
        ObjectRuleGrows(before, records[i], p);
      }
      assert records[..i + 1] == before + [records[i]];
      problems, last := problems + found, next;
    }
    assert records[..|records|] == records;
  }

  method CheckEnd(records: seq<Record>, ends: seq<Record>) returns (problems: seq<Problem>)
    ensures forall p :: p in problems <==> EndRule(records, ends, p)
  {
    problems := [];
    if ends != [] {
      if "cpu_ms" in ends[0] && !Measured(ends[0]["cpu_ms"]) {
        problems := problems + [BadEndCost("cpu_ms")];
      }
      if "wall_ms" in ends[0] && !Measured(ends[0]["wall_ms"]) {
        problems := problems + [BadEndCost("wall_ms")];
      }
      var objects := Filter(records, "object");
      if objects != [] && WallMissing(ends[0]) {
        problems := problems + [NoWallCost];
      }
    }
  }

  /** check_stream, with its two early returns. The problems it lists are
      exactly the broken rules; the order of the messages is not stated. */
  method CheckStream(records: seq<Record>, issued: Option<map<string, int>>)
    returns (problems: seq<Problem>)
    ensures forall p :: p in problems <==> Breaks(records, issued, p)
    ensures problems == [] <==> Accepts(records, issued)
  {
    var begins := Filter(records, "begin");
    var ends := Filter(records, "end");
    problems := [];
    if |begins| != 1 {
      problems := problems + [BeginCount(|begins|)];
    }
    if |ends| != 1 {
      problems := problems + [EndCount(|ends|)];
    }
    if begins == [] {
      assert problems != [] && problems[0] in problems;
      return;
    }
    var header := CheckHeader(begins[0], ends);
    problems := problems + header;
    if GenerationsOf(begins[0]).None? {
      assert NoGenerations in problems;
      return;
    }
    var commits, declines := Gather(records);
    var closings :=
      CheckClosings(records, GenerationsOf(begins[0]).value, issued, commits, declines);
    var declined := CheckDeclines(records, commits, declines);
    var counted := CheckCommits(records, commits);
    var stamped := CheckObjects(records);
    var costs := CheckEnd(records, ends);
    problems := problems + closings + declined + counted + stamped + costs;
    if problems != [] {
      assert problems[0] in problems;
    }
  }
}
