/** Mutations that show nothing, or more than they should, at concrete rulesets. */
module NftCounterexamples {
  import opened Options
  import opened Document
  import opened NftWalk
  import opened NftMutations
  import opened NftOperators
  import opened NftSingle
  import opened NftMinting

  const HOST: Key := Key("ip", "t", "a")
  const CALLER: Key := Key("ip", "t", "b")
  const TARGET: Key := Key("ip", "t", "x")

  function Jump(): Entry {
    Rule("ip", "t", "a", None, Arr([Verdict("x")]))
  }

  /** Two chains, and a jump from the first to a chain nobody declared. */
  function Ruleset(): seq<Entry> {
    [Chain(HOST, false, None, []), Chain(CALLER, false, None, []), Jump()]
  }

  lemma Declared(k: Key)
    ensures k in ChainKeys(Ruleset()) <==> k == HOST || k == CALLER
  {
    assert Ruleset()[0].key == HOST && Ruleset()[1].key == CALLER;
  }

  lemma Called(k: Key, c: string)
    ensures CallsDirectly(Ruleset(), BOTH, k, c) <==> k == TARGET && c == "a"
  {
    RuleReads("x", BOTH, k.name);
    assert Ruleset()[2] == Jump() && Jump() in Ruleset();
  }

  lemma {:induction false} NoMaps(doc: seq<Entry>, m: Key)
    requires forall e | e in doc :: !e.Map?
    ensures Elements(doc, m).None?
  {
    if doc != [] {
      assert doc[|doc| - 1] in doc;
      NoMaps(doc[..|doc| - 1], m);
    }
  }

  lemma CalledOnce()
    ensures ToSet(CallerRefs(Ruleset(), TARGET)) == {"a"}
  {
    forall c ensures c in CallerRefs(Ruleset(), TARGET) <==> c == "a" {
      CallerRefsExact(Ruleset(), TARGET, c);
      Called(TARGET, c);
    }
  }

  lemma DeclaredUncalled(k: Key)
    requires k in ChainKeys(Ruleset())
    ensures k.family in KNOWN && OneCaller(Ruleset(), k)
  {
    Declared(k);
    forall c ensures !Calls(Ruleset(), BOTH, k, c) {
      Called(k, c);
      forall m: string { NoMaps(Ruleset(), Key(k.family, k.table, m)); }
    }
  }

  lemma UndeclaredDoubles()
    ensures Doubles(Ruleset(), TARGET, "b") && TARGET !in ChainKeys(Ruleset())
  {
    CalledOnce();
    Declared(CALLER);
    Declared(TARGET);
    assert "b" !in ToSet(CallerRefs(Ruleset(), TARGET));
  }

  /** Given a second caller, the undeclared chain still has no row to be wrong in:
      the single-caller port reads the mutated ruleset as the correct walk does. */
  lemma UndeclaredShowsNothing(rows: seq<Row>)
    requires SingleRows(Ruleset() + [SecondRule(Ruleset(), TARGET, "b")], rows)
    ensures var after := Ruleset() + [SecondRule(Ruleset(), TARGET, "b")];
      Doubles(Ruleset(), TARGET, "b") && rows == Rows(after, CallersOf(after, BOTH))
  {
    UndeclaredDoubles();
    forall k | k in ChainKeys(Ruleset()) ensures k.family in KNOWN && OneCaller(Ruleset(), k) {
      DeclaredUncalled(k);
    }
    assert TARGET.name[0] != '@';
    forall d ensures !Consulted(Ruleset(), TARGET, d) {}
    SecondCallerVerdict(Ruleset(), TARGET, "b", rows);
  }

  // ── a goto written over ───────────────────────────────────────────────

  function Body(t: string): Value {
    Obj([Member("target", Text(t))])
  }

  function Goto(t: string): Value {
    Obj([Member("goto", Body(t))])
  }

  /** One node with both verbs. */
  function Both(): Value {
    Obj([Member("jump", Body("x")), Member("goto", Body("b"))])
  }

  function Chains(): seq<Entry> {
    [Chain(HOST, false, None, []), Chain(CALLER, false, None, []), Chain(TARGET, false, None, [])]
  }

  /** The chains a, b and x, and a rule of a that jumps to x and goes to b. */
  function Mixed(): seq<Entry> {
    Chains() + [Rule("ip", "t", "a", None, Arr([Both()]))]
  }

  lemma BodyReads(t: string)
    ensures Get(Body(t).members, "target") == Some(Text(t))
    ensures Refs(Body(t)) == []
  {
    var members := [Member("target", Text(t))];
    assert members[1..] == [] && Get(members, "jump").None? && Get(members, "goto").None?;
    assert Target(members, "jump").None? && Target(members, "goto").None?;
    assert RefsUnder(members) == Refs(Text(t)) + RefsUnder([]);
  }

  lemma TargetOf(members: seq<Member>, verb: string, t: string)
    requires Get(members, verb) == Some(Body(t)) && t != ""
    ensures Target(members, verb) == Some(t)
  {
    BodyReads(t);
  }

  lemma GotoReads(t: string)
    requires t != ""
    ensures Refs(Goto(t)) == [("goto", t)]
    ensures forall x :: Hands(Goto(t), BOTH, x) <==> x == t
  {
    BodyReads(t);
    var members := [Member("goto", Body(t))];
    assert members[1..] == [] && Get(members, "jump").None?;
    TargetOf(members, "goto", t);
    assert RefsUnder(members) == Refs(Body(t)) + RefsUnder([]);
    forall x ensures Hands(Goto(t), BOTH, x) <==> x == t {
      HandsIsRef(Goto(t), BOTH, x);
      VerbsAre(BOTH);
      assert BOTH[1] == "goto";
    }
  }

  lemma BothTargets()
    ensures var members := Both().members;
      && Get(members, "jump") == Some(Body("x")) && Get(members, "goto") == Some(Body("b"))
      && Target(members, "jump") == Some("x") && Target(members, "goto") == Some("b")
  {
    var members := Both().members;
    assert members[1..] == [Member("goto", Body("b"))];
    TargetOf(members, "jump", "x");
    TargetOf(members, "goto", "b");
  }

  lemma BothRefs()
    ensures Refs(Both()) == [("jump", "x"), ("goto", "b")]
  {
    var members := Both().members;
    BothTargets();
    BodyReads("x");
    BodyReads("b");
    assert members[1..] == [Member("goto", Body("b"))] && members[1..][1..] == [];
    assert RefsUnder(members) == Refs(Body("x")) + (Refs(Body("b")) + RefsUnder([]));
  }

  lemma BothSwapped()
    ensures Swap(Both(), "x") == Some(Goto("x")) && Lost(Both(), "x") == Goto("b")
  {
    var members, kept := Both().members, [Member("goto", Body("b"))];
    BothTargets();
    assert Both() == Obj(members) && "x" != "";
    assert Without(members, "jump") == members[1..] == kept && kept[1..] == [];
    assert With(kept, "goto", Body("x")) == [Member("goto", Body("x"))] + [] == Goto("x").members;
    assert Swap(Obj(members), "x") == Some(Obj(With(kept, "goto", Body("x"))));
  }

  lemma ListOf(x: Value)
    ensures Refs(Arr([x])) == Refs(x)
    ensures Swap(x, "x").Some? ==>
      Swap(Arr([x]), "x") == Some(Arr([Swap(x, "x").value])) && Lost(Arr([x]), "x") == Lost(x, "x")
  {
    var items := [x];
    assert items[1..] == [];
    assert Refs(Arr(items)) == Refs(x) + RefsAmong([]);
    if Swap(x, "x").Some? {
      var v := Swap(x, "x").value;
      assert SwapAmong(items, "x") == Some([v] + items[1..]);
      assert [v] + items[1..] == [v];
      assert Lost(Arr(items), "x") == LostAmong(items, "x") == Lost(items[0], "x");
    }
  }

  /** The rule's expression, what becomes of it and what goes. */
  lemma BothReads()
    ensures Refs(Arr([Both()])) == [("jump", "x"), ("goto", "b")]
    ensures Swap(Arr([Both()]), "x") == Some(Arr([Goto("x")]))
    ensures Lost(Arr([Both()]), "x") == Goto("b")
  {
    BothRefs();
    BothSwapped();
    ListOf(Both());
  }

  lemma {:induction false} NoRules(doc: seq<Entry>, k: Key)
    requires forall e | e in doc :: !e.Rule?
    ensures CallerRefs(doc, k) == []
  {
    if doc != [] {
      assert doc[|doc| - 1] in doc;
      NoRules(doc[..|doc| - 1], k);
    }
  }

  lemma OneHit()
    ensures Hits(Arr([Both()]), "x") == 1
  {
    BothReads();
    var refs := [("jump", "x"), ("goto", "b")];
    assert multiset(refs) == multiset{("jump", "x"), ("goto", "b")};
  }

  lemma CalledOnceMixed()
    ensures |CallerRefs(Mixed(), TARGET)| == 1
  {
    OneHit();
    NoRules(Chains(), TARGET);
    CallerRefsGrow(Chains(), Mixed()[3], TARGET);
  }

  lemma MixedSwapped()
    ensures Swaps(Mixed(), 3, TARGET) && LostAt(Mixed(), 3, TARGET) == Goto("b")
    ensures SwapAt(Mixed(), 3, TARGET)
      == Chains() + [Rule("ip", "t", "a", None, Arr([Goto("x")]))]
  {
    BothReads();
  }

  lemma MixedDeclared()
    ensures CALLER in ChainKeys(Mixed()) && TARGET in ChainKeys(Mixed()) && !Hooked(Mixed(), TARGET)
  {
    assert Mixed()[1].key == CALLER && Mixed()[2].key == TARGET;
  }

  lemma MixedStageable()
    ensures Swaps(Mixed(), 3, TARGET) && Stageable(Mixed(), TARGET)
  {
    CalledOnceMixed();
    MixedSwapped();
    MixedDeclared();
  }

  lemma GotoRuleCalls(c: string)
    ensures !Calls(Chains() + [Rule("ip", "t", "a", None, Arr([Goto("x")]))], BOTH, CALLER, c)
  {
    var after := Chains() + [Rule("ip", "t", "a", None, Arr([Goto("x")]))];
    GotoReads("x");
    assert !Hands(Arr([Goto("x")]), BOTH, "b");
    forall m: string { NoMaps(after, Key("ip", "t", m)); }
  }

  lemma CallerLost()
    requires Swaps(Mixed(), 3, TARGET) && Stageable(Mixed(), TARGET)
    ensures LostCall(Mixed(), 3, TARGET, BOTH, CALLER, "a")
    ensures !StillReached(Mixed(), 3, TARGET, BOTH, CALLER)
  {
    MixedSwapped();
    MixedDecoded();
    GotoReads("b");
    GotoRuleCalls("a");
    StillReachedIs(Mixed(), 3, TARGET, BOTH, CALLER);
  }

  /** Converting the jump writes over the goto, and the correct walk loses a caller
      of a chain that was not the operator's target. */
  lemma OverwrittenGotoMoves()
    ensures Swaps(Mixed(), 3, TARGET) && Stageable(Mixed(), TARGET)
    ensures var after := SwapAt(Mixed(), 3, TARGET);
      Rows(after, CallersOf(after, BOTH)) != Rows(Mixed(), CallersOf(Mixed(), BOTH))
  {
    MixedStageable();
    MixedDeclared();
    MixedDecoded();
    CallerLost();
    CorrectWalkUnmovedIff(Mixed(), 3, TARGET);
  }

  lemma MixedDecoded()
    ensures WellFormed(Arr([Both()]))
  {
    assert DistinctKeys(Both().members);
    assert WellFormed(Body("x")) && WellFormed(Body("b"));
  }
}
