/** The wrong ports of the nft walk, each with its one defect, and the exact
    documents on which the defect shows. */
module NftPorts {
  import opened Options
  import opened Sorting
  import opened NftWalk

  // ── agreement row by row ──────────────────────────────────────────────

  lemma ReachInjective(hooked: bool, a: set<string>, b: set<string>)
    ensures ReachOf(hooked, a) == ReachOf(hooked, b) <==> a == b
  {
    BelowIsTotal();
    SortedInjective(Below, a, b);
  }

  /** Two ports that differ only in the callers they compute publish the same
      rows exactly when they compute the same callers of every declared chain. */
  lemma RowsAgree(doc: seq<Entry>, f: Key -> set<string>, g: Key -> set<string>)
    ensures Rows(doc, f) == Rows(doc, g) <==> forall k | k in ChainKeys(doc) :: f(k) == g(k)
  {
    var keys := ChainKeys(doc);
    forall i | 0 <= i < |keys|
      ensures Rows(doc, f)[i] == Rows(doc, g)[i] <==> f(keys[i]) == g(keys[i])
    {
      assert keys[i] in keys;
      ReachInjective(ChainAt(doc, keys[i]).hooked, f(keys[i]), g(keys[i]));
    }
  }

  // ── goto-blind ────────────────────────────────────────────────────────

  /** The goto-blind walk agrees with the correct one exactly when what jumps
      alone reach is what jumps and gotos reach. */
  lemma GotoBlindIff(doc: seq<Entry>)
    ensures Rows(doc, CallersOf(doc, JUMP)) == Rows(doc, CallersOf(doc, BOTH)) <==>
      forall k | k in ChainKeys(doc) :: Callers(doc, JUMP, k) == Callers(doc, BOTH, k)
  {
    RowsAgree(doc, CallersOf(doc, JUMP), CallersOf(doc, BOTH));
  }

  // ── map-blind ─────────────────────────────────────────────────────────

  ghost function DirectOf(doc: seq<Entry>, verbs: seq<string>): Key -> set<string> {
    k => DirectCallers(doc, verbs, k)
  }

  /** a5_map_blind `chains`: no third branch, so nothing to join. */
  method MapBlind(doc: seq<Entry>) returns (rows: seq<Row>)
    ensures rows == Rows(doc, DirectOf(doc, BOTH))
  {
    var keys, chains := [], map[];
    var counts: map<Key, nat>, jumped: Sets := map[], map[];
    for i := 0 to |doc|
      invariant Found(doc[..i], keys, chains) && Counted(doc[..i], counts)
      invariant Reached(doc[..i], BOTH, jumped)
    {
      var e := doc[i];
      assert doc[..i + 1] == doc[..i] + [e];
      GrowFound(doc[..i], e, keys, chains);
      CountRuleGrows(doc[..i], e, counts);
      Unaffected(doc[..i], e, BOTH, jumped, map[], map[]);
      if e.Chain? {
        keys := if e.key in chains then keys else keys + [e.key];
        chains := chains[e.key := e];
      } else if e.Rule? {
        counts := CountRule(counts, e);
        jumped := ReachRule(doc[..i], e, BOTH, jumped);
      }
    }
    assert doc[..|doc|] == doc;
    rows := PublishRows(doc, keys, chains, counts, jumped, DirectOf(doc, BOTH));
  }

  lemma MapBlindIff(doc: seq<Entry>)
    ensures Rows(doc, DirectOf(doc, BOTH)) == Rows(doc, CallersOf(doc, BOTH)) <==>
      forall k, c | k in ChainKeys(doc) && CallsThroughMap(doc, BOTH, k, c) ::
        CallsDirectly(doc, BOTH, k, c)
  {
    RowsAgree(doc, DirectOf(doc, BOTH), CallersOf(doc, BOTH));
    forall k, c
      ensures c in DirectCallers(doc, BOTH, k) <==> CallsDirectly(doc, BOTH, k, c)
      ensures c in Callers(doc, BOTH, k) <==> Calls(doc, BOTH, k, c)
    {
      CallersExact(doc, BOTH, k, c);
    }
    if forall k | k in ChainKeys(doc) :: DirectCallers(doc, BOTH, k) == Callers(doc, BOTH, k) {
      forall k, c | k in ChainKeys(doc) && CallsThroughMap(doc, BOTH, k, c)
        ensures CallsDirectly(doc, BOTH, k, c)
      {
        assert c in Callers(doc, BOTH, k);
      }
    }
    if forall k, c | k in ChainKeys(doc) && CallsThroughMap(doc, BOTH, k, c) ::
         CallsDirectly(doc, BOTH, k, c) {
      forall k | k in ChainKeys(doc) ensures DirectCallers(doc, BOTH, k) == Callers(doc, BOTH, k) {
        forall c ensures c in DirectCallers(doc, BOTH, k) <==> c in Callers(doc, BOTH, k) {}
      }
    }
  }

  // ── name-keyed ────────────────────────────────────────────────────────

  /** Someone, in any family and any table, calls a chain of this name. */
  ghost predicate CallsName(doc: seq<Entry>, name: string, c: string) {
    exists family, table :: Calls(doc, BOTH, Key(family, table, name), c)
  }

  ghost function NameCallers(doc: seq<Entry>, name: string): set<string> {
    set c | c in RuleChains(doc) && CallsName(doc, name, c)
  }

  ghost function NamesOf(doc: seq<Entry>): Key -> set<string> {
    (k: Key) => NameCallers(doc, k.name)
  }

  type ByName = map<string, set<string>>

  function AtName(m: ByName, name: string): set<string> {
    if name in m then m[name] else {}
  }

  method AddNames(m: ByName, names: set<string>, callers: set<string>) returns (out: ByName)
    ensures forall n :: AtName(out, n) == AtName(m, n) + (if n in names then callers else {})
  {
    out := m;
    var todo := names;
    while todo != {}
      invariant todo <= names
      invariant forall n ::
        AtName(out, n) == AtName(m, n) + (if n in names - todo then callers else {})
    {
      var name :| name in todo;
      todo := todo - {name};
      out := out[name := AtName(out, name) + callers];
    }
  }

  ghost predicate CallsNameDirectly(doc: seq<Entry>, name: string, c: string) {
    exists e | e in doc :: e.Rule? && e.chain == c && Hands(e.expr, BOTH, name)
  }

  ghost predicate ReachedNames(doc: seq<Entry>, jumped: ByName) {
    forall n, c :: c in AtName(jumped, n) <==> CallsNameDirectly(doc, n, c)
  }

  lemma NameGrows(doc: seq<Entry>, e: Entry, n: string, c: string)
    ensures CallsNameDirectly(doc + [e], n, c) <==>
      CallsNameDirectly(doc, n, c) || (e.Rule? && e.chain == c && Hands(e.expr, BOTH, n))
  {
    assert forall x :: x in doc + [e] <==> x in doc || x == e;
  }

  lemma NameCalls(doc: seq<Entry>, name: string, c: string)
    ensures CallsName(doc, name, c) <==>
      || CallsNameDirectly(doc, name, c)
      || exists m :: Consults(doc, m, c) && Dispatches(doc, BOTH, m, name)
    ensures CallsName(doc, name, c) ==> c in RuleChains(doc)
  {
    if CallsName(doc, name, c) {
      var family, table :| Calls(doc, BOTH, Key(family, table, name), c);
      assert CallsDirectly(doc, BOTH, Key(family, table, name), c) ==> CallsNameDirectly(doc, name, c);
    }
    if CallsNameDirectly(doc, name, c) {
      var e :| e in doc && e.Rule? && e.chain == c && Hands(e.expr, BOTH, name);
      assert CallsDirectly(doc, BOTH, Key(e.family, e.table, name), c);
      assert Calls(doc, BOTH, Key(e.family, e.table, name), c);
    }
    if m :| Consults(doc, m, c) && Dispatches(doc, BOTH, m, name) {
      assert m == Key(m.family, m.table, m.name);
      assert CallsThroughMap(doc, BOTH, Key(m.family, m.table, name), c);
      assert Calls(doc, BOTH, Key(m.family, m.table, name), c);
    }
  }

  /** a5_name_keyed_reachability `chains`: the same walk with callers keyed by
      target name. */
  method NameKeyed(doc: seq<Entry>) returns (rows: seq<Row>)
    ensures rows == Rows(doc, NamesOf(doc))
  {
    var keys, chains := [], map[];
    var counts: map<Key, nat>, targets: map<Key, set<string>> := map[], map[];
    var jumped: ByName, users: Sets := map[], map[];
    for i := 0 to |doc|
      invariant Found(doc[..i], keys, chains) && Counted(doc[..i], counts)
      invariant ReachedNames(doc[..i], jumped) && Used(doc[..i], users)
      invariant Listed(doc[..i], BOTH, targets)
    {
      var e := doc[i];
      assert doc[..i + 1] == doc[..i] + [e];
      GrowFound(doc[..i], e, keys, chains);
      CountRuleGrows(doc[..i], e, counts);
      Unaffected(doc[..i], e, BOTH, map[], users, targets);
      forall n, c ensures CallsNameDirectly(doc[..i + 1], n, c) <==>
        CallsNameDirectly(doc[..i], n, c) || (e.Rule? && e.chain == c && Hands(e.expr, BOTH, n))
      {
        NameGrows(doc[..i], e, n, c);
      }
      match e
      case Chain(key, _, _, _) =>
        keys := if key in chains then keys else keys + [key];
        chains := chains[key := e];
      case Rule(_, _, chain, _, expr) =>
        counts := CountRule(counts, e);
        var found := VerdictTargets(expr, BOTH);
        jumped := AddNames(jumped, ToSet(found), {chain});
        users := UseRule(doc[..i], e, users);
      case Map(key, _, elem) =>
        var found := VerdictTargets(elem, BOTH);
        ListMap(doc[..i], e, BOTH, targets, ToSet(found));
        targets := targets[key := ToSet(found)];
      case Other(_) =>
    }
    assert doc[..|doc|] == doc;
    var joined := JoinNames(jumped, users, targets);
    forall n ensures AtName(joined, n) == NameCallers(doc, n) {
      JoinedNames(doc, jumped, users, targets, joined, n);
    }
    rows := PublishNames(doc, keys, chains, counts, joined);
  }

  method JoinNames(jumped: ByName, users: Sets, targets: map<Key, set<string>>)
    returns (out: ByName)
    ensures forall n, c :: c in AtName(out, n) <==>
      c in AtName(jumped, n) || exists m :: m in targets && n in targets[m] && c in At(users, m)
  {
    out := jumped;
    var todo := targets.Keys;
    while todo != {}
      invariant todo <= targets.Keys
      invariant forall n, c :: c in AtName(out, n) <==>
        c in AtName(jumped, n)
        || exists m :: m in targets.Keys - todo && n in targets[m] && c in At(users, m)
    {
      var map_ :| map_ in todo;
      todo := todo - {map_};
      var callers := At(users, map_);
      if callers != {} {
        out := AddNames(out, targets[map_], callers);
      }
    }
  }

  lemma JoinedNames(doc: seq<Entry>, jumped: ByName, users: Sets,
                    targets: map<Key, set<string>>, joined: ByName, n: string)
    requires ReachedNames(doc, jumped) && Used(doc, users) && Listed(doc, BOTH, targets)
    requires forall c :: c in AtName(joined, n) <==>
      c in AtName(jumped, n) || exists m :: m in targets && n in targets[m] && c in At(users, m)
    ensures AtName(joined, n) == NameCallers(doc, n)
  {
    forall c ensures c in AtName(joined, n) <==> c in NameCallers(doc, n) {
      NameCalls(doc, n, c);
      forall m ensures m in targets && n in targets[m] && c in At(users, m) <==>
        Consults(doc, m, c) && Dispatches(doc, BOTH, m, n) {}
    }
  }

  ghost predicate NamedRow(doc: seq<Entry>, k: Key, row: Row) {
    k in ChainKeys(doc) && row == RowWith(doc, k, NameCallers(doc, k.name))
  }

  lemma NamedRows(doc: seq<Entry>, rows: seq<Row>)
    requires |rows| == |ChainKeys(doc)|
    requires forall j | 0 <= j < |rows| :: NamedRow(doc, ChainKeys(doc)[j], rows[j])
    ensures rows == Rows(doc, NamesOf(doc))
  {
    forall j | 0 <= j < |rows| ensures rows[j] == Rows(doc, NamesOf(doc))[j] {
      assert NamedRow(doc, ChainKeys(doc)[j], rows[j]);
    }
  }

  method PublishNames(ghost doc: seq<Entry>, keys: seq<Key>, chains: map<Key, Entry>,
                      counts: map<Key, nat>, jumped: ByName)
    returns (rows: seq<Row>)
    requires Found(doc, keys, chains) && Counted(doc, counts)
    requires forall n :: AtName(jumped, n) == NameCallers(doc, n)
    ensures rows == Rows(doc, NamesOf(doc))
  {
    rows := [];
    BelowIsTotal();
    for i := 0 to |keys|
      invariant |rows| == i && forall j | 0 <= j < i :: NamedRow(doc, keys[j], rows[j])
    {
      var key := keys[i];
      assert key in keys;
      var sorted := SortSet(Below, AtName(jumped, key.name));
      var reach := if sorted != [] then JumpedFrom(sorted)
                   else if chains[key].hooked then Silent else Unreferenced;
      var row := Row(chains[key], if key in counts then counts[key] else 0, reach);
      IsNamedRow(doc, keys, chains, counts, key, sorted, row);
      rows := rows + [row];
    }
    NamedRows(doc, rows);
  }

  lemma IsNamedRow(doc: seq<Entry>, keys: seq<Key>, chains: map<Key, Entry>, counts: map<Key, nat>, key: Key,
                   sorted: seq<string>, row: Row)
    requires Found(doc, keys, chains) && Counted(doc, counts) && key in keys
    requires TotalOrder(Below) && sorted == Sorted(Below, NameCallers(doc, key.name))
    requires row.chain == chains[key] && row.rules == (if key in counts then counts[key] else 0)
    requires row.reach ==
      if sorted != [] then JumpedFrom(sorted) else if chains[key].hooked then Silent else Unreferenced
    ensures NamedRow(doc, key, row)
  {
    SortedReach(chains[key].hooked, NameCallers(doc, key.name), sorted);
  }

  lemma SortedReach(hooked: bool, callers: set<string>, sorted: seq<string>)
    requires TotalOrder(Below) && sorted == Sorted(Below, callers)
    ensures ReachOf(hooked, callers)
      == if sorted != [] then JumpedFrom(sorted) else if hooked then Silent else Unreferenced
  {
    assert sorted != [] ==> sorted[0] in callers;
    if callers != {} {
      var c :| c in callers;
      assert c in sorted;
    }
  }

  /** Keying by name agrees exactly when no declared chain shares its name
      with a chain somebody else calls: the union over every family and table
      of the callers of its name is its own callers. */
  lemma NameKeyedIff(doc: seq<Entry>)
    ensures Rows(doc, NamesOf(doc)) == Rows(doc, CallersOf(doc, BOTH)) <==>
      forall k, c | k in ChainKeys(doc) && CallsName(doc, k.name, c) :: Calls(doc, BOTH, k, c)
  {
    RowsAgree(doc, NamesOf(doc), CallersOf(doc, BOTH));
    forall k: Key, c
      ensures c in NameCallers(doc, k.name) <==> CallsName(doc, k.name, c)
      ensures c in Callers(doc, BOTH, k) <==> Calls(doc, BOTH, k, c)
      ensures Calls(doc, BOTH, k, c) ==> CallsName(doc, k.name, c)
    {
      CallersExact(doc, BOTH, k, c);
      NameCalls(doc, k.name, c);
      assert k == Key(k.family, k.table, k.name);
    }
    if forall k | k in ChainKeys(doc) :: NameCallers(doc, k.name) == Callers(doc, BOTH, k) {
      forall k, c | k in ChainKeys(doc) && CallsName(doc, k.name, c) ensures Calls(doc, BOTH, k, c) {
        assert c in NameCallers(doc, k.name);
      }
    }
    if forall k, c | k in ChainKeys(doc) && CallsName(doc, k.name, c) :: Calls(doc, BOTH, k, c) {
      forall k | k in ChainKeys(doc) ensures NameCallers(doc, k.name) == Callers(doc, BOTH, k) {
        forall c ensures c in NameCallers(doc, k.name) <==> c in Callers(doc, BOTH, k) {}
      }
    }
  }

  // ── the order of the document ─────────────────────────────────────────

  predicate SameSlot(a: Entry, b: Entry) {
    (a.Chain? && b.Chain? && a.key == b.key) || (a.Map? && b.Map? && a.key == b.key)
  }

  /** No two chain entries and no two map entries fight over one key. */
  ghost predicate Unambiguous(doc: seq<Entry>) {
    forall a, b | a in doc && b in doc && SameSlot(a, b) :: a == b
  }

  lemma {:induction false} ElementsExact(doc: seq<Entry>, k: Key)
    requires Unambiguous(doc)
    ensures forall e | e in doc && e.Map? && e.key == k :: Elements(doc, k) == Some(e.elem)
    ensures Elements(doc, k).Some? ==>
              exists e | e in doc :: e.Map? && e.key == k && e.elem == Elements(doc, k).value
  {
    if doc != [] {
      var before, last := doc[..|doc| - 1], doc[|doc| - 1];
      assert doc == before + [last];
      assert forall x :: x in doc <==> x in before || x == last;
      ElementsExact(before, k);
      assert last in doc;
      forall e | e in doc && e.Map? && e.key == k ensures Elements(doc, k) == Some(e.elem) {
        if last.Map? && last.key == k {
          assert SameSlot(e, last);
        }
      }
    }
  }

  lemma {:induction false} RuleCountIsBag(doc: seq<Entry>, k: Key)
    ensures RuleCount(doc, k) == |RulesOf(doc, k)|
    ensures forall e ::
      multiset(RulesOf(doc, k))[e]
        == if InTable(e, k.family, k.table) && e.chain == k.name then multiset(doc)[e] else 0
  {
    RuleCountIsLength(doc, k);
    forall e { RulesBag(doc, k, e); }
  }

  lemma {:induction false} RuleCountIsLength(doc: seq<Entry>, k: Key)
    ensures RuleCount(doc, k) == |RulesOf(doc, k)|
  {
    if doc != [] {
      RuleCountIsLength(doc[..|doc| - 1], k);
    }
  }

  lemma BagSnoc<T>(s: seq<T>, x: T, e: T)
    ensures multiset(s + [x])[e] == multiset(s)[e] + if x == e then 1 else 0
  {}

  lemma {:induction false} RulesBag(doc: seq<Entry>, k: Key, e: Entry)
    ensures multiset(RulesOf(doc, k))[e]
      == if InTable(e, k.family, k.table) && e.chain == k.name then multiset(doc)[e] else 0
  {
    if doc != [] {
      var before, last := doc[..|doc| - 1], doc[|doc| - 1];
      assert doc == before + [last];
      RulesBag(before, k, e);
      BagSnoc(before, last, e);
      BagSnoc(RulesOf(before, k), last, e);
      assert RulesOf(before, k) + [] == RulesOf(before, k);
    }
  }

  function RulesOf(doc: seq<Entry>, k: Key): seq<Entry> {
    if doc == [] then []
    else
      var e := doc[|doc| - 1];
      RulesOf(doc[..|doc| - 1], k)
      + if InTable(e, k.family, k.table) && e.chain == k.name then [e] else []
  }

  lemma ReorderedRules(a: seq<Entry>, b: seq<Entry>, k: Key)
    requires multiset(a) == multiset(b)
    ensures RuleCount(a, k) == RuleCount(b, k)
  {
    RuleCountIsBag(a, k);
    RuleCountIsBag(b, k);
    assert multiset(RulesOf(a, k)) == multiset(RulesOf(b, k));
    assert |multiset(RulesOf(a, k))| == |RulesOf(a, k)| && |multiset(RulesOf(b, k))| == |RulesOf(b, k)|;
  }

  lemma ReorderedElements(a: seq<Entry>, b: seq<Entry>, k: Key)
    requires multiset(a) == multiset(b) && Unambiguous(a) && Unambiguous(b)
    ensures Elements(a, k) == Elements(b, k)
  {
    ElementsExact(a, k);
    ElementsExact(b, k);
    assert forall e :: e in a <==> e in b by {
      forall e ensures e in a <==> e in b {
        assert e in multiset(a) <==> e in multiset(b);
      }
    }
  }

  lemma ReorderedCalls(a: seq<Entry>, b: seq<Entry>, verbs: seq<string>, k: Key)
    requires multiset(a) == multiset(b) && Unambiguous(a) && Unambiguous(b)
    ensures Callers(a, verbs, k) == Callers(b, verbs, k)
  {
    forall e ensures e in a <==> e in b {
      assert e in multiset(a) <==> e in multiset(b);
    }
    forall m ensures Elements(a, m) == Elements(b, m) {
      ReorderedElements(a, b, m);
    }
    forall m, c ensures Consults(a, m, c) <==> Consults(b, m, c) {}
    forall m, t ensures Dispatches(a, verbs, m, t) <==> Dispatches(b, verbs, m, t) {}
    forall c ensures c in Callers(a, verbs, k) <==> c in Callers(b, verbs, k) {
      CallersExact(a, verbs, k, c);
      CallersExact(b, verbs, k, c);
      assert CallsDirectly(a, verbs, k, c) <==> CallsDirectly(b, verbs, k, c);
    }
  }

  /** Permuting the entries of an unambiguous document, maps before or after
      their users, changes no chain's row. */
  lemma OrderFree(a: seq<Entry>, b: seq<Entry>, verbs: seq<string>, k: Key)
    requires multiset(a) == multiset(b) && Unambiguous(a)
    requires k in ChainKeys(a)
    ensures k in ChainKeys(b)
    ensures RowWith(a, k, Callers(a, verbs, k)) == RowWith(b, k, Callers(b, verbs, k))
  {
    forall e ensures e in a <==> e in b {
      assert e in multiset(a) <==> e in multiset(b);
    }
    assert Unambiguous(b);
    ReorderedCalls(a, b, verbs, k);
    ReorderedRules(a, b, k);
    assert SameSlot(ChainAt(a, k), ChainAt(b, k));
  }
}
