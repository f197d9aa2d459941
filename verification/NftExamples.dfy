/** The order the walk publishes callers in and the operators pick targets in, the
    families the single-caller port knows, and one literal ruleset with its row. */
module NftExamples {
  import opened Options
  import opened Document
  import opened TextOrder
  import opened NftWalk
  import opened NftSingle
  import opened NftOperators
  import opened NftMinting

  // ── orders ────────────────────────────────────────────────────────────

  function Parts(k: Key): seq<string> {
    [k.family, k.table, k.name]
  }

  /** Keys come in the order of their family, then of their table, then of their name. */
  lemma KeyBelowIff(a: Key, b: Key)
    ensures KeyBelow(a, b) <==>
      exists i | 0 <= i < 3 :: Parts(a)[..i] == Parts(b)[..i] && First(Parts(a)[i], Parts(b)[i])
  {
    BelowIff(a.family, b.family);
    BelowIff(a.table, b.table);
    BelowIff(a.name, b.name);
    assert Parts(a)[..0] == Parts(b)[..0];
    assert Parts(a)[..1] == Parts(b)[..1] <==> a.family == b.family by { Prefixes(a, b); }
    assert Parts(a)[..2] == Parts(b)[..2] <==> a.family == b.family && a.table == b.table by { Prefixes(a, b); }
    assert First(Parts(a)[0], Parts(b)[0]) <==> First(a.family, b.family);
    assert First(Parts(a)[1], Parts(b)[1]) <==> First(a.table, b.table);
    assert First(Parts(a)[2], Parts(b)[2]) <==> First(a.name, b.name);
  }

  lemma Prefixes(a: Key, b: Key)
    ensures Parts(a)[..1] == Parts(b)[..1] <==> a.family == b.family
    ensures Parts(a)[..2] == Parts(b)[..2] <==> a.family == b.family && a.table == b.table
  {
    assert Parts(a)[..1] == [a.family] && Parts(b)[..1] == [b.family];
    assert Parts(a)[..2] == [a.family, a.table] && Parts(b)[..2] == [b.family, b.table];
    assert [a.family][0] == a.family && [b.family][0] == b.family;
    assert [a.family, a.table][0] == a.family && [b.family, b.table][0] == b.family;
    assert [a.family, a.table][1] == a.table && [b.family, b.table][1] == b.table;
  }

  /** A chain's row lists its callers, each once, in the order of their names. */
  lemma CallersListed(doc: seq<Entry>, k: Key, names: seq<string>)
    requires k in ChainKeys(doc) && names != []
    requires forall i, j | 0 <= i < j < |names| :: First(names[i], names[j])
    requires forall c :: c in names <==> Calls(doc, BOTH, k, c)
    ensures RowWith(doc, k, CallersOf(doc, BOTH)(k)).reach == JumpedFrom(names)
  {
    var callers := Callers(doc, BOTH, k);
    forall c ensures c in names <==> c in callers {
      CallersExact(doc, BOTH, k, c);
    }
    SortedIs(names, callers);
    assert names[0] in callers;
  }

  // ── one ruleset ───────────────────────────────────────────────────────

  function JumpTo(t: string): Value {
    Arr([Obj([Member("jump", Obj([Member("target", Text(t))]))])])
  }

  /** Two base chains of one table, each with a rule that jumps to x. */
  function Ruleset(family: string): seq<Entry> {
    [Chain(Key(family, "filter", "input"), true, Some(1), []),
     Chain(Key(family, "filter", "forward"), true, Some(2), []),
     Chain(Key(family, "filter", "x"), false, Some(3), []),
     Rule(family, "filter", "input", Some(4), JumpTo("x")),
     Rule(family, "filter", "forward", Some(5), JumpTo("x"))]
  }

  lemma JumpReads(t: string, x: string)
    requires t != ""
    ensures Hands(JumpTo(t), BOTH, x) <==> x == t
  {
    RuleReads(t, BOTH, x);
  }

  lemma RulesetCalls(family: string, c: string)
    ensures Calls(Ruleset(family), BOTH, Key(family, "filter", "x"), c) <==> c in ["forward", "input"]
  {
    var doc, k := Ruleset(family), Key(family, "filter", "x");
    JumpReads("x", "x");
    assert doc[3] in doc && doc[4] in doc;
    assert CallsDirectly(doc, BOTH, k, c) <==> c == "input" || c == "forward";
    forall m ensures !Dispatches(doc, BOTH, Key(family, "filter", m), "x") {
      NoMaps(doc, Key(family, "filter", m));
    }
  }

  lemma {:induction false} NoMaps(doc: seq<Entry>, m: Key)
    requires forall e | e in doc :: !e.Map?
    ensures Elements(doc, m).None?
  {
    if doc != [] {
      assert doc[|doc| - 1] in doc;
      NoMaps(doc[..|doc| - 1], m);
    }
  }

  lemma {:induction false} NoRulesIn(doc: seq<Entry>, k: Key)
    requires forall e | e in doc :: e.Rule? ==> e.chain != k.name
    ensures RuleCount(doc, k) == 0
  {
    if doc != [] {
      assert doc[|doc| - 1] in doc;
      NoRulesIn(doc[..|doc| - 1], k);
    }
  }

  lemma TargetDeclared(family: string)
    ensures var doc, k := Ruleset(family), Key(family, "filter", "x");
      && k in ChainKeys(doc) && ChainAt(doc, k) == Chain(k, false, Some(3), []) && RuleCount(doc, k) == 0
  {
    var doc, k := Ruleset(family), Key(family, "filter", "x");
    assert doc[2].key == k;
    assert "input"[0] != "x"[0] && "forward"[0] != "x"[0];
    NoRulesIn(doc, k);
  }

  lemma ForwardFirst(a: string, b: string)
    requires a == "forward" && b == "input"
    ensures First(a, b)
  {
    assert PartsAt(a, b, 0);
  }

  /** x is jumped to from forward and input, in that order, and has no rule. */
  lemma CallersByName(family: string)
    ensures var doc, k := Ruleset(family), Key(family, "filter", "x");
      && k in ChainKeys(doc)
      && RowWith(doc, k, CallersOf(doc, BOTH)(k))
           == Row(Chain(k, false, Some(3), []), 0, JumpedFrom(["forward", "input"]))
  {
    var doc, k, names := Ruleset(family), Key(family, "filter", "x"), ["forward", "input"];
    TargetDeclared(family);
    ForwardFirst("forward", "input");
    forall c ensures c in names <==> Calls(doc, BOTH, k, c) {
      RulesetCalls(family, c);
    }
    TwoListed(doc, k, "forward", "input");
  }

  lemma TwoListed(doc: seq<Entry>, k: Key, a: string, b: string)
    requires k in ChainKeys(doc) && First(a, b) && forall c :: c in [a, b] <==> Calls(doc, BOTH, k, c)
    ensures RowWith(doc, k, CallersOf(doc, BOTH)(k)).reach == JumpedFrom([a, b])
  {
    CallersListed(doc, k, [a, b]);
  }

  // ── the families of the single-caller port ────────────────────────────

  /** Of one chain alone the port publishes a row exactly in three families. */
  lemma KnownFamilies(k: Key, hooked: bool, handle: Option<int>, passed: seq<Member>, rows: seq<Row>)
    requires SingleRows([Chain(k, hooked, handle, passed)], rows)
    ensures |rows| == if k.family == "ip" || k.family == "ip6" || k.family == "inet" then 1 else 0
  {
    var chain := Chain(k, hooked, handle, passed);
    assert [chain][..0] == [] && Seen([]) == [];
    assert Seen([chain]) == if InKnown(chain) then [chain] else [];
    assert ChainKeys([]) == [];
  }

  // ── what the minting operators write ──────────────────────────────────

  /** The highest handle of the document, or 0 where nothing has one. */
  ghost predicate Highest(doc: seq<Entry>, h: int) {
    && (forall e | e in doc && e.handle.Some? :: e.handle.value <= h)
    && ((exists e | e in doc :: e.handle == Some(h)) || (h == 0 && forall e | e in doc :: e.handle.None?))
  }

  lemma {:induction false} HandlesAre(doc: seq<Entry>, h: int)
    ensures h in Handles(doc) <==> exists e | e in doc :: e.handle == Some(h)
  {
    if doc != [] {
      var n := |doc| - 1;
      HandlesAre(doc[..n], h);
      assert doc == doc[..n] + [doc[n]];
    }
  }

  lemma {:induction false} LargestIsOne(s: seq<int>)
    requires s != []
    ensures Largest(s) in s
  {
    if |s| > 1 {
      LargestIsOne(s[1..]);
    }
  }

  lemma HighestHandle(doc: seq<Entry>)
    ensures Highest(doc, MaxHandle(doc))
  {
    var h := MaxHandle(doc);
    MintedHandleFresh(doc, h + 1);
    if Handles(doc) != [] {
      LargestIsOne(Handles(doc));
    } else {
      forall e | e in doc ensures e.handle.None? {
        if e.handle.Some? { HandlesAre(doc, e.handle.value); }
      }
    }
    HandlesAre(doc, h);
  }

  /** The second caller's rule is one jump, numbered after everything there was. */
  lemma SecondRuleWritten(doc: seq<Entry>, k: Key, other: string) returns (h: int)
    ensures Highest(doc, h)
    ensures SecondRule(doc, k, other) == Rule(k.family, k.table, other, Some(h + 1), JumpTo(k.name))
  {
    h := MaxHandle(doc);
    HighestHandle(doc);
  }

  /** The verdict map, its landing chain and the rule that consults it, numbered
      after everything there was. */
  lemma DispatchWritten(doc: seq<Entry>, base: Key, n: Minted) returns (h: int)
    ensures Highest(doc, h)
    ensures WithDispatch(doc, base, n) == doc + [
      Map(Key(base.family, base.table, n.dispatch), Some(h + 1),
          Arr([Arr([Text("tcp"), Obj([Member("jump", Obj([Member("target", Text(n.landing))]))])]),
               Arr([Text("udp"), Obj([Member("drop", Null)])])])),
      Chain(Key(base.family, base.table, n.landing), false, Some(h + 2), []),
      Rule(base.family, base.table, base.name, Some(h + 3),
           Arr([Obj([Member("vmap", Obj([
             Member("key", Obj([Member("meta", Obj([Member("key", Text("l4proto"))]))])),
             Member("data", Text("@" + n.dispatch))]))])]))]
  {
    h := MaxHandle(doc);
    HighestHandle(doc);
  }
}
