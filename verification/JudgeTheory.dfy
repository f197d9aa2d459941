/** What acceptance means, and what it cannot see. */
module JudgeTheory {
  import opened Options
  import opened Wire
  import opened Judge

  /** The collections the request opened, under the generations begin echoes. */
  function Opened(records: seq<Record>): map<string, Json> {
    var begins := Of(records, "begin");
    if begins != [] && GenerationsOf(begins[0]).Some? then GenerationsOf(begins[0]).value
    else map[]
  }

  // ── picking records out of a concatenation ────────────────────────────

  lemma {:induction false} InConcat(a: seq<Record>, b: seq<Record>, kind: string, c: Coll)
    ensures In(a + b, kind, c) == In(a, kind, c) + In(b, kind, c)
  {
    if b == [] {
      assert a + b == a;
    } else {
      var n := |b| - 1;
      assert (a + b)[..|a + b| - 1] == a + b[..n];
      InConcat(a, b[..n], kind, c);
    }
  }

  // ── a closed form of acceptance ───────────────────────────────────────

  /** How many records of each counted kind the stream carries for a collection. */
  datatype Tally = Tally(objects: nat, assertions: nat, unobservable: nat)

  function TallyOf(records: seq<Record>, c: Coll): Tally {
    Tally(|In(records, "object", c)|, |In(records, "relation_assertion", c)|,
          |In(records, "unobservable", c)|)
  }

  ghost predicate CountsExact(commit: Record, t: Tally) {
    && "objects" in commit && commit["objects"] == Int(t.objects)
    && "assertions" in commit && commit["assertions"] == Int(t.assertions)
    && "unobservable" in commit && commit["unobservable"] == Int(t.unobservable)
  }

  /** One commit, echoing the generation and counting what the stream carries. */
  ghost predicate CommittedOnce(commits: seq<Record>, t: Tally, g: Json) {
    |commits| == 1 && LooseEqual(Get(commits[0], "generation"), g) && CountsExact(commits[0], t)
    && ("cpu_ms" in commits[0] ==> Measured(commits[0]["cpu_ms"]))
  }

  ghost predicate DeclinedOnce(declines: seq<Record>, t: Tally, absent: bool) {
    |declines| == 1 && (Get(declines[0], "reason") == Str("absent") <==> absent)
    && t == Tally(0, 0, 0)
  }

  /** The three ways a requested collection may end, which exclude each other. */
  datatype Ending = Served | Declined | Absent

  ghost predicate Closes(commits: seq<Record>, declines: seq<Record>, t: Tally, g: Json,
                         ending: Ending) {
    match ending
    case Served => declines == [] && CommittedOnce(commits, t, g)
    case Declined => commits == [] && DeclinedOnce(declines, t, false)
    case Absent => CommittedOnce(commits, t, g) && DeclinedOnce(declines, t, true)
  }

  ghost predicate Ends(records: seq<Record>, name: string, g: Json, ending: Ending) {
    var c := Named(name);
    Closes(In(records, "commit", c), In(records, "decline", c), TallyOf(records, c), g, ending)
  }

  ghost predicate HasEnding(records: seq<Record>, name: string, g: Json) {
    exists ending :: Ends(records, name, g, ending)
  }

  /** Every stamp lawful, and the whole sequence of them sorted. */
  ghost predicate StampsSorted(objects: seq<Record>) {
    (forall j | 0 <= j < |objects| :: Reading(objects[j]).Some?)
    && forall j, k | 0 <= j < k < |objects| ::
         Reading(objects[j]).value <= Reading(objects[k]).value
  }

  ghost predicate FactsNullFree(r: Record) {
    forall fact | fact in FactsOf(r) :: !HasNull(FactsOf(r)[fact])
  }

  ghost predicate ObjectsLawful(records: seq<Record>) {
    (forall c :: StampsSorted(In(records, "object", c)))
    && (forall r | r in records && (IsKind(r, "object") || IsKind(r, "relation_assertion")) ::
          FactsNullFree(r))
  }

  predicate CostLawful(end: Record, member: string) {
    member in end ==> Measured(end[member])
  }

  ghost predicate EndLawful(records: seq<Record>, end: Record) {
    CostLawful(end, "cpu_ms") && CostLawful(end, "wall_ms")
    && (Of(records, "object") != [] ==> !WallMissing(end))
  }

  predicate Echoed(begin: Record, end: Record, member: string) {
    NonEmptyText(Get(begin, member)) && Get(end, member) == Get(begin, member)
  }

  ghost predicate HeaderLawful(begin: Record, end: Record) {
    BootIdOk(Get(begin, "boot_id")) && DeclarationOk(Get(begin, "declaration"))
    && Echoed(begin, end, "request") && Echoed(begin, end, "batch")
    && GenerationsOf(begin).Some?
  }

  ghost predicate CollectionsLawful(records: seq<Record>, gens: map<string, Json>) {
    (forall name | name in gens ::
       IsIndex(gens[name]) && HasEnding(records, name, gens[name]))
    && (forall c | In(records, "commit", c) != [] || In(records, "decline", c) != [] ::
          c.Named? && c.name in gens)
  }

  ghost predicate LawfulWith(records: seq<Record>, issued: Option<map<string, int>>,
                             begin: Record, end: Record) {
    && HeaderLawful(begin, end)
    && IssuedEchoed(GenerationsOf(begin).value, issued)
    && CollectionsLawful(records, GenerationsOf(begin).value)
    && ObjectsLawful(records)
    && EndLawful(records, end)
  }

  ghost predicate Lawful(records: seq<Record>, issued: Option<map<string, int>>) {
    var begins, ends := Of(records, "begin"), Of(records, "end");
    |begins| == 1 && |ends| == 1 && LawfulWith(records, issued, begins[0], ends[0])
  }

  // ── the two forms agree, stage by stage ───────────────────────────────

  lemma EchoForms(begin: Record, end: Record, member: string)
    ensures (forall p :: !EchoRule(begin, end, member, p)) <==> Echoed(begin, end, member)
  {
    if !Echoed(begin, end, member) {
      assert EchoRule(begin, end, member, NotOpened(member))
        || EchoRule(begin, end, member, NotClosed(member))
        || EchoRule(begin, end, member, EchoMismatch(member));
    }
  }

  lemma HeaderForms(begin: Record, end: Record)
    ensures (forall p :: !HeaderRule(begin, [end], p)) <==> HeaderLawful(begin, end)
  {
    EchoForms(begin, end, "request");
    EchoForms(begin, end, "batch");
    if forall p :: !HeaderRule(begin, [end], p) {
      assert !HeaderRule(begin, [end], BadBootId) && !HeaderRule(begin, [end], BadDeclaration)
        && !HeaderRule(begin, [end], NoGenerations);
      forall p ensures !EchoRule(begin, end, "request", p) && !EchoRule(begin, end, "batch", p) {
        assert !HeaderRule(begin, [end], p);
      }
    }
  }

  lemma ReadingOf(objects: seq<Record>, j: nat)
    requires 0 < j <= |objects| && Reading(objects[j - 1]).Some?
    ensures LastReading(objects[..j]) == Reading(objects[j - 1])
  {
    assert objects[..j][..j - 1] == objects[..j - 1];
  }

  ghost predicate StampRules(objects: seq<Record>) {
    (forall r | r in objects :: Reading(r).Some?)
    && forall j | 0 <= j < |objects| && LastReading(objects[..j]).Some? ::
         LastReading(objects[..j]).value <= Reading(objects[j]).value
  }

  lemma {:induction false} StepsSorted(x: seq<real>, j: nat, k: nat)
    requires forall i | 0 < i < |x| :: x[i - 1] <= x[i]
    requires j < k < |x|
    ensures x[j] <= x[k]
    decreases k
  {
    if j < k - 1 {
      StepsSorted(x, j, k - 1);
    }
  }

  lemma AdjacentSorted(objects: seq<Record>, j: nat, k: nat)
    requires StampRules(objects) && j < k < |objects|
    ensures Reading(objects[j]).value <= Reading(objects[k]).value
  {
    var x := seq(|objects|, i requires 0 <= i < |objects| => Stamp(objects[i]));
    forall i | 0 < i < |x| ensures x[i - 1] <= x[i] {
      NextSorted(objects, i);
    }
    StepsSorted(x, j, k);
  }

  function Stamp(r: Record): real {
    if Reading(r).Some? then Reading(r).value else 0.0
  }

  lemma NextSorted(objects: seq<Record>, k: nat)
    requires StampRules(objects) && 0 < k < |objects|
    ensures Reading(objects[k - 1]).Some? && Reading(objects[k]).Some?
    ensures Reading(objects[k - 1]).value <= Reading(objects[k]).value
  {
    assert objects[k - 1] in objects && objects[k] in objects;
    ReadingOf(objects, k);
  }

  /** The clock rule, one record against the reading before it, is pairwise sortedness. */
  lemma StampForms(objects: seq<Record>)
    ensures StampRules(objects) <==> StampsSorted(objects)
  {
    if StampRules(objects) {
      forall j, k | 0 <= j < k < |objects|
        ensures Reading(objects[j]).value <= Reading(objects[k]).value
      {
        AdjacentSorted(objects, j, k);
      }
    }
    if StampsSorted(objects) {
      forall j | 0 <= j < |objects| && LastReading(objects[..j]).Some?
        ensures LastReading(objects[..j]).value <= Reading(objects[j]).value
      {
        if j > 0 {
          ReadingOf(objects, j);
        }
      }
    }
  }

  lemma ObjectsUnbroken(records: seq<Record>, p: Problem)
    requires ObjectsLawful(records)
    ensures !ObjectRule(records, p)
  {
    match p
    case BadStamp(c, row) => StampForms(In(records, "object", c));
    case Backwards(c, row, previous) =>
      var objects := In(records, "object", c);
      StampForms(objects);
      assert StampRules(objects);
    case NullFact(c, row, fact, path) =>
      if r :| r in records && (IsKind(r, "object") || IsKind(r, "relation_assertion"))
              && fact in FactsOf(r) && path in NullPaths(FactsOf(r)[fact]) {
        assert FactsNullFree(r);
        NullPathsEmptyIffNullFree(FactsOf(r)[fact]);
      }
    case _ =>
  }

  lemma ObjectsKept(records: seq<Record>)
    requires forall p :: !ObjectRule(records, p)
    ensures ObjectsLawful(records)
  {
    forall c ensures StampsSorted(In(records, "object", c)) {
      var objects := In(records, "object", c);
      forall r | r in objects ensures Reading(r).Some? {
        assert !ObjectRule(records, BadStamp(c, Get(r, "name")));
      }
      forall j | 0 <= j < |objects| && LastReading(objects[..j]).Some?
        ensures LastReading(objects[..j]).value <= Reading(objects[j]).value
      {
        assert objects[j] in objects;
        var row, previous := Get(objects[j], "name"), LastReading(objects[..j]).value;
        assert !ObjectRule(records, Backwards(c, row, previous));
      }
      StampForms(objects);
    }
    forall r, fact | r in records && (IsKind(r, "object") || IsKind(r, "relation_assertion"))
                     && fact in FactsOf(r)
      ensures !HasNull(FactsOf(r)[fact])
    {
      NullPathsEmptyIffNullFree(FactsOf(r)[fact]);
      forall path ensures path !in NullPaths(FactsOf(r)[fact]) {
        assert !ObjectRule(records, NullFact(Collection(r), Get(r, "name"), fact, path));
      }
    }
  }

  // Each stage's rules with the problem quantified away.

  ghost predicate ClosingPlain(records: seq<Record>, gens: map<string, Json>) {
    (forall c ::
       && |In(records, "commit", c)| <= 1 && |In(records, "decline", c)| <= 1
       && (In(records, "commit", c) != [] || In(records, "decline", c) != [] ==>
             c.Named? && c.name in gens))
    && (forall name | name in gens ::
          && IsIndex(gens[name])
          && (In(records, "commit", Named(name)) != [] || In(records, "decline", Named(name)) != [])
          && forall k | k in In(records, "commit", Named(name)) ::
               LooseEqual(Get(k, "generation"), gens[name]))
  }

  ghost predicate DeclineHonoured(records: seq<Record>, c: Coll, d: Record) {
    Emitted(records, c) == 0
    && if Get(d, "reason") == Str("absent")
       then In(records, "commit", c) != []
            && forall k | k in In(records, "commit", c) :: CommitsZero(k)
       else In(records, "commit", c) == []
  }

  ghost predicate DeclinePlain(records: seq<Record>) {
    forall c, d | d in In(records, "decline", c) :: DeclineHonoured(records, c, d)
  }

  ghost predicate CommitHonest(records: seq<Record>, c: Coll, k: Record) {
    (forall m | m in COUNTS :: m in k && k[m] == Int(Carried(records, KindOf(m), c)))
    && ("cpu_ms" in k ==> Measured(k["cpu_ms"]))
  }

  ghost predicate CommitPlain(records: seq<Record>) {
    forall c, k | k in In(records, "commit", c) :: CommitHonest(records, c, k)
  }

  lemma ClosingForms(records: seq<Record>, gens: map<string, Json>)
    ensures (forall p :: !ClosingRule(records, gens, None, p)) <==> ClosingPlain(records, gens)
  {
    if forall p :: !ClosingRule(records, gens, None, p) {
      ClosingKept(records, gens);
    }
    if ClosingPlain(records, gens) {
      forall p ensures !ClosingRule(records, gens, None, p) {
        ClosingUnbroken(records, gens, p);
      }
    }
  }

  lemma ClosingUnbroken(records: seq<Record>, gens: map<string, Json>, p: Problem)
    requires ClosingPlain(records, gens)
    ensures !ClosingRule(records, gens, None, p)
  {}

  lemma ClosingKept(records: seq<Record>, gens: map<string, Json>)
    requires forall p :: !ClosingRule(records, gens, None, p)
    ensures ClosingPlain(records, gens)
  {
    forall c
      ensures |In(records, "commit", c)| <= 1 && |In(records, "decline", c)| <= 1
      ensures In(records, "commit", c) != [] || In(records, "decline", c) != [] ==>
                c.Named? && c.name in gens
    {
      assert !ClosingRule(records, gens, None, DuplicateCommit(c));
      assert !ClosingRule(records, gens, None, DuplicateDecline(c));
      assert !ClosingRule(records, gens, None, NeverNamed(c));
    }
    forall name | name in gens
      ensures IsIndex(gens[name])
      ensures In(records, "commit", Named(name)) != [] || In(records, "decline", Named(name)) != []
      ensures forall k | k in In(records, "commit", Named(name)) ::
                LooseEqual(Get(k, "generation"), gens[name])
    {
      NameClosed(records, gens, name);
    }
  }

  lemma NameClosed(records: seq<Record>, gens: map<string, Json>, name: string)
    requires name in gens && forall p :: !ClosingRule(records, gens, None, p)
    ensures IsIndex(gens[name])
    ensures In(records, "commit", Named(name)) != [] || In(records, "decline", Named(name)) != []
    ensures forall k | k in In(records, "commit", Named(name)) ::
              LooseEqual(Get(k, "generation"), gens[name])
  {
    assert !ClosingRule(records, gens, None, NotAnIndex(name));
    assert !ClosingRule(records, gens, None, NeverClosed(name));
    forall k | k in In(records, "commit", Named(name))
      ensures LooseEqual(Get(k, "generation"), gens[name])
    {
      assert !ClosingRule(records, gens, None, WrongGeneration(name, Get(k, "generation")));
    }
  }

  lemma DeclineForms(records: seq<Record>)
    ensures (forall p :: !DeclineRule(records, p)) <==> DeclinePlain(records)
  {
    if forall p :: !DeclineRule(records, p) {
      forall c, d | d in In(records, "decline", c)
        ensures DeclineHonoured(records, c, d)
      {
        assert States(In(records, "decline", c), "reason", Get(d, "reason"));
        assert !DeclineRule(records, EmittedAfterDecline(c));
        assert !DeclineRule(records, AbsentNotEmpty(c));
        assert !DeclineRule(records, DeclineCommitted(c, Get(d, "reason")));
      }
    }
    if DeclinePlain(records) {
      forall p ensures !DeclineRule(records, p) {
        DeclineUnbroken(records, p);
      }
    }
  }

  lemma DeclineUnbroken(records: seq<Record>, p: Problem)
    requires DeclinePlain(records)
    ensures !DeclineRule(records, p)
  {
    match p
    case EmittedAfterDecline(c) =>
      var declines := In(records, "decline", c);
      if declines != [] {
        assert declines[0] in declines;
      }
    case AbsentNotEmpty(c) =>
      if d :| d in In(records, "decline", c) && Get(d, "reason") == Str("absent") {}
    case DeclineCommitted(c, reason) =>
      if d :| d in In(records, "decline", c) && Get(d, "reason") == reason {}
    case _ =>
  }

  lemma CommitUnbroken(records: seq<Record>, p: Problem)
    requires CommitPlain(records)
    ensures !CommitRule(records, p)
  {
    match p
    case CountMissing(c, member) =>
      assert forall k | k in In(records, "commit", c) :: CommitHonest(records, c, k);
    case CountWrong(c, member) =>
      assert forall k | k in In(records, "commit", c) :: CommitHonest(records, c, k);
    case _ =>
  }

  lemma CommitForms(records: seq<Record>)
    ensures (forall p :: !CommitRule(records, p)) <==> CommitPlain(records)
  {
    if forall p :: !CommitRule(records, p) {
      forall c, k | k in In(records, "commit", c)
        ensures CommitHonest(records, c, k)
      {
        assert !CommitRule(records, BadCommitCost(c));
        forall m | m in COUNTS ensures m in k && k[m] == Int(Carried(records, KindOf(m), c)) {
          assert !CommitRule(records, CountMissing(c, m));
          assert !CommitRule(records, CountWrong(c, m));
        }
      }
    }
    if CommitPlain(records) {
      forall p ensures !CommitRule(records, p) {
        CommitUnbroken(records, p);
      }
    }
  }

  lemma CollectionForms(records: seq<Record>, gens: map<string, Json>)
    ensures ClosingPlain(records, gens) && DeclinePlain(records) && CommitPlain(records)
            <==> CollectionsLawful(records, gens)
  {
    if ClosingPlain(records, gens) && DeclinePlain(records) && CommitPlain(records) {
      forall name | name in gens ensures HasEnding(records, name, gens[name]) {
        OneEnding(records, gens, name);
      }
    }
    if CollectionsLawful(records, gens) {
      PlainFromLawful(records, gens);
    }
  }

  lemma HonestIsExact(records: seq<Record>, name: string, k: Record)
    ensures CommitHonest(records, Named(name), k) <==>
      CountsExact(k, TallyOf(records, Named(name))) && ("cpu_ms" in k ==> Measured(k["cpu_ms"]))
  {
    var c := Named(name);
    assert COUNTS[0] == "objects" && COUNTS[1] == "assertions" && COUNTS[2] == "unobservable";
    assert Carried(records, KindOf("objects"), c) == TallyOf(records, c).objects;
    assert Carried(records, KindOf("assertions"), c) == TallyOf(records, c).assertions;
    assert Carried(records, KindOf("unobservable"), c) == TallyOf(records, c).unobservable;
    if CommitHonest(records, c, k) {
      assert "objects" in COUNTS && "assertions" in COUNTS && "unobservable" in COUNTS;
    }
  }

  lemma ZeroCounts(k: Record, t: Tally)
    requires CountsExact(k, t)
    ensures CommitsZero(k) <==> t == Tally(0, 0, 0)
  {
    assert COUNTS[0] == "objects" && COUNTS[1] == "assertions" && COUNTS[2] == "unobservable";
    if CommitsZero(k) {
      assert "objects" in COUNTS && "assertions" in COUNTS && "unobservable" in COUNTS;
    }
  }

  lemma OneEnding(records: seq<Record>, gens: map<string, Json>, name: string)
    requires ClosingPlain(records, gens) && DeclinePlain(records) && CommitPlain(records)
    requires name in gens
    ensures HasEnding(records, name, gens[name])
  {
    var c, t := Named(name), TallyOf(records, Named(name));
    var commits, declines := In(records, "commit", c), In(records, "decline", c);
    assert |commits| <= 1 && |declines| <= 1;
    if commits != [] {
      assert commits[0] in commits && CommitHonest(records, c, commits[0]);
      HonestIsExact(records, name, commits[0]);
      assert CommittedOnce(commits, t, gens[name]);
    }
    if declines == [] {
      assert Ends(records, name, gens[name], Served);
    } else {
      assert declines[0] in declines && DeclineHonoured(records, c, declines[0]);
      if Get(declines[0], "reason") == Str("absent") {
        assert Ends(records, name, gens[name], Absent);
      } else {
        assert Ends(records, name, gens[name], Declined);
      }
    }
  }

  lemma Only(group: seq<Record>, r: Record)
    requires |group| <= 1 && r in group
    ensures group == [r]
  {}

  lemma PlainFromLawful(records: seq<Record>, gens: map<string, Json>)
    requires CollectionsLawful(records, gens)
    ensures ClosingPlain(records, gens) && DeclinePlain(records) && CommitPlain(records)
  {
    ClosingFromLawful(records, gens);
    forall c, d | d in In(records, "decline", c)
      ensures DeclineHonoured(records, c, d)
    {
      Only(In(records, "decline", c), d);
      assert c == Named(c.name);
      DeclinedPlain(records, c.name, gens[c.name]);
    }
    forall c, k | k in In(records, "commit", c)
      ensures CommitHonest(records, c, k)
    {
      Only(In(records, "commit", c), k);
      assert c == Named(c.name);
      CommittedPlain(records, c.name, gens[c.name], k);
    }
  }

  lemma ClosingFromLawful(records: seq<Record>, gens: map<string, Json>)
    requires CollectionsLawful(records, gens)
    ensures ClosingPlain(records, gens)
  {
    forall name | name in gens
      ensures OncePlain(In(records, "commit", Named(name)), In(records, "decline", Named(name)), gens[name])
    {
      var c := Named(name);
      var ending :| Ends(records, name, gens[name], ending);
      OnceFromEnding(In(records, "commit", c), In(records, "decline", c), TallyOf(records, c), gens[name], ending);
    }
    forall c
      ensures |In(records, "commit", c)| <= 1 && |In(records, "decline", c)| <= 1
      ensures In(records, "commit", c) != [] || In(records, "decline", c) != [] ==>
                c.Named? && c.name in gens
    {
      if In(records, "commit", c) != [] || In(records, "decline", c) != [] {
        assert c == Named(c.name);
      }
    }
  }

  ghost predicate OncePlain(commits: seq<Record>, declines: seq<Record>, g: Json) {
    && |commits| <= 1 && |declines| <= 1 && (commits != [] || declines != [])
    && forall k | k in commits :: LooseEqual(Get(k, "generation"), g)
  }

  lemma OnceFromEnding(commits: seq<Record>, declines: seq<Record>, t: Tally, g: Json, ending: Ending)
    requires Closes(commits, declines, t, g, ending)
    ensures OncePlain(commits, declines, g)
  {}

  lemma DeclinedPlain(records: seq<Record>, name: string, g: Json)
    requires In(records, "decline", Named(name)) != []
    requires HasEnding(records, name, g)
    ensures DeclineHonoured(records, Named(name), In(records, "decline", Named(name))[0])
  {
    var c := Named(name);
    var ending :| Ends(records, name, g, ending);
    HonouredBy(In(records, "commit", c), In(records, "decline", c), TallyOf(records, c), g, ending);
    assert Emitted(records, c) == 0;
  }

  lemma HonouredBy(commits: seq<Record>, declines: seq<Record>, t: Tally, g: Json, ending: Ending)
    requires Closes(commits, declines, t, g, ending) && declines != []
    ensures t == Tally(0, 0, 0)
    ensures if Get(declines[0], "reason") == Str("absent")
            then commits != [] && forall k | k in commits :: CommitsZero(k)
            else commits == []
  {
    if ending.Absent? {
      ZeroCounts(commits[0], t);
      assert commits == [commits[0]];
    }
  }

  lemma CommittedPlain(records: seq<Record>, name: string, g: Json, k: Record)
    requires In(records, "commit", Named(name)) == [k]
    requires HasEnding(records, name, g)
    ensures CommitHonest(records, Named(name), k)
  {
    var ending :| Ends(records, name, g, ending);
    HonestIsExact(records, name, k);
  }

  lemma EndForms(records: seq<Record>, end: Record)
    ensures (forall p :: !EndRule(records, [end], p)) <==> EndLawful(records, end)
  {
    if !EndLawful(records, end) {
      assert EndRule(records, [end], NoWallCost) || EndRule(records, [end], BadEndCost("cpu_ms"))
        || EndRule(records, [end], BadEndCost("wall_ms"));
    }
  }

  ghost predicate BodyRules(records: seq<Record>, gens: map<string, Json>,
                            issued: Option<map<string, int>>, ends: seq<Record>, p: Problem) {
    ClosingRule(records, gens, issued, p) || DeclineRule(records, p) || CommitRule(records, p)
    || ObjectRule(records, p) || EndRule(records, ends, p)
  }

  ghost predicate IssuedEchoed(gens: map<string, Json>, issued: Option<map<string, int>>) {
    issued.Some? ==> Dict(gens) == Issue(issued.value)
  }

  lemma IssuedForms(records: seq<Record>, gens: map<string, Json>, issued: Option<map<string, int>>)
    ensures (forall p :: !ClosingRule(records, gens, issued, p)) <==>
      IssuedEchoed(gens, issued) && forall p :: !ClosingRule(records, gens, None, p)
  {
    if issued.Some? {
      TypedEqualIsStructural(Dict(gens), Issue(issued.value));
      assert NaNFree(Issue(issued.value));
    }
    forall p: Problem | !p.NotIssued?
      ensures ClosingRule(records, gens, issued, p) == ClosingRule(records, gens, None, p) {}
    assert !ClosingRule(records, gens, None, NotIssued);
    assert ClosingRule(records, gens, issued, NotIssued) <==> !IssuedEchoed(gens, issued);
    if forall p :: !ClosingRule(records, gens, issued, p) {
      forall p ensures !ClosingRule(records, gens, None, p) {
        assert !ClosingRule(records, gens, issued, p);
      }
    }
  }

  lemma BodyForms(records: seq<Record>, issued: Option<map<string, int>>,
                  gens: map<string, Json>, end: Record)
    ensures (forall p :: !BodyRules(records, gens, issued, [end], p)) <==>
      && IssuedEchoed(gens, issued) && CollectionsLawful(records, gens)
      && ObjectsLawful(records) && EndLawful(records, end)
  {
    IssuedForms(records, gens, issued);
    ClosingForms(records, gens);
    DeclineForms(records);
    CommitForms(records);
    CollectionForms(records, gens);
    EndForms(records, end);
    if forall p :: !BodyRules(records, gens, issued, [end], p) {
      forall p
        ensures !ClosingRule(records, gens, issued, p) && !DeclineRule(records, p)
        ensures !CommitRule(records, p) && !ObjectRule(records, p) && !EndRule(records, [end], p)
      {
        assert !BodyRules(records, gens, issued, [end], p);
      }
      ObjectsKept(records);
    } else if ObjectsLawful(records) {
      forall p ensures !ObjectRule(records, p) {
        ObjectsUnbroken(records, p);
      }
    }
  }

  /** check_stream accepts exactly the lawful batches: one begin, one end that
      echoes it, every requested collection in exactly one ending, counts that
      are the stream's own, sorted stamps, and no null in any fact. */
  lemma AcceptsIffLawful(records: seq<Record>, issued: Option<map<string, int>>)
    ensures Accepts(records, issued) <==> Lawful(records, issued)
  {
    var begins, ends := Of(records, "begin"), Of(records, "end");
    if |begins| != 1 {
      assert Breaks(records, issued, BeginCount(|begins|));
    } else if |ends| != 1 {
      assert Breaks(records, issued, EndCount(|ends|));
    } else {
      assert begins == [begins[0]] && ends == [ends[0]];
      StagesForm(records, issued, begins[0], ends[0]);
    }
  }

  lemma StagesForm(records: seq<Record>, issued: Option<map<string, int>>, begin: Record, end: Record)
    requires Of(records, "begin") == [begin] && Of(records, "end") == [end]
    ensures Accepts(records, issued) <==> Lawful(records, issued)
  {
    HeaderForms(begin, end);
    forall p ensures Breaks(records, issued, p) <==>
      HeaderRule(begin, [end], p)
      || (GenerationsOf(begin).Some?
          && BodyRules(records, GenerationsOf(begin).value, issued, [end], p)) {
      assert !CountRule([begin], [end], p);
    }
    if GenerationsOf(begin).Some? {
      BodyForms(records, issued, GenerationsOf(begin).value, end);
    }
  }
}
