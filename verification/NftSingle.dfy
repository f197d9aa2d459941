/** The replay-green port of a7: one caller per chain, and a family enum. */
module NftSingle {
  import opened Options
  import opened Sorting
  import opened NftWalk

  const KNOWN: set<string> := {"ip", "ip6", "inet"}

  predicate InKnown(e: Entry) {
    match e
    case Chain(key, _, _, _) => key.family in KNOWN
    case Rule(family, _, _, _, _) => family in KNOWN
    case Map(key, _, _) => key.family in KNOWN
    case Other(_) => true
  }

  /** The entries the port does not skip. */
  function Seen(doc: seq<Entry>): seq<Entry> {
    if doc == [] then []
    else Seen(doc[..|doc| - 1]) + if InKnown(doc[|doc| - 1]) then [doc[|doc| - 1]] else []
  }

  /** One caller per chain: the last rule that names it, else the user of some
      map that does. A map's user is the last one, and a nameless one is none. */
  function LastDirect(doc: seq<Entry>, k: Key): Option<string> {
    if doc == [] then None
    else
      var e := doc[|doc| - 1];
      if InTable(e, k.family, k.table) && Hands(e.expr, BOTH, k.name) then Some(e.chain)
      else LastDirect(doc[..|doc| - 1], k)
  }

  function LastUser(doc: seq<Entry>, m: Key): Option<string> {
    if doc == [] then None
    else
      var e := doc[|doc| - 1];
      if InTable(e, m.family, m.table) && Mentions(e.expr, m.name) then Some(e.chain)
      else LastUser(doc[..|doc| - 1], m)
  }

  /** `c` is the user of a map, in the key's table, that hands to the key's chain. */
  ghost predicate Offered(doc: seq<Entry>, k: Key, c: string) {
    c != ""
    && exists m :: LastUser(doc, Key(k.family, k.table, m)) == Some(c)
                   && Dispatches(doc, BOTH, Key(k.family, k.table, m), k.name)
  }

  /** What the port may hold for a key; which map wins is the dict's order. */
  ghost predicate Holds(doc: seq<Entry>, k: Key, held: Option<string>) {
    if LastDirect(doc, k).Some? then held == LastDirect(doc, k)
    else match held
      case Some(c) => Offered(doc, k, c)
      case None => forall c :: !Offered(doc, k, c)
  }

  ghost function SingleReach(hooked: bool, held: Option<string>): Reach {
    match held
    case Some(c) => JumpedFrom([c])
    case None => if hooked then Silent else Unreferenced
  }

  ghost predicate SingleRow(doc: seq<Entry>, k: Key, row: Row)
    requires k in ChainKeys(doc)
  {
    row.chain == ChainAt(doc, k) && row.rules == RuleCount(doc, k)
    && exists held :: Holds(doc, k, held) && row.reach == SingleReach(row.chain.hooked, held)
  }

  ghost predicate SingleRows(doc: seq<Entry>, rows: seq<Row>) {
    var seen := Seen(doc);
    var keys := ChainKeys(seen);
    |rows| == |keys| && forall i | 0 <= i < |keys| :: SingleRow(seen, keys[i], rows[i])
  }

  // ── the walk ──────────────────────────────────────────────────────────

  type Slots = map<Key, string>

  function Slot(m: Slots, k: Key): Option<string> {
    if k in m then Some(m[k]) else None
  }

  method Overwrite(m: Slots, family: string, table: string, names: set<string>, caller: string)
    returns (out: Slots)
    ensures forall k ::
      Slot(out, k) == if k.family == family && k.table == table && k.name in names
                      then Some(caller) else Slot(m, k)
  {
    out := m;
    var todo := names;
    while todo != {}
      invariant todo <= names
      invariant forall k ::
        Slot(out, k) == if k.family == family && k.table == table && k.name in names - todo
                        then Some(caller) else Slot(m, k)
    {
      var name :| name in todo;
      todo := todo - {name};
      out := out[Key(family, table, name) := caller];
    }
  }

  lemma SlotsGrow(doc: seq<Entry>, e: Entry, k: Key)
    ensures LastDirect(doc + [e], k)
      == if InTable(e, k.family, k.table) && Hands(e.expr, BOTH, k.name) then Some(e.chain)
         else LastDirect(doc, k)
    ensures LastUser(doc + [e], k)
      == if InTable(e, k.family, k.table) && Mentions(e.expr, k.name) then Some(e.chain)
         else LastUser(doc, k)
  {
    assert (doc + [e])[..|doc + [e]| - 1] == doc;
  }

  ghost predicate Slotted(doc: seq<Entry>, jumped: Slots, users: Slots) {
    forall k :: Slot(jumped, k) == LastDirect(doc, k) && Slot(users, k) == LastUser(doc, k)
  }

  lemma SlotsKept(doc: seq<Entry>, e: Entry, jumped: Slots, users: Slots)
    requires Slotted(doc, jumped, users)
    ensures !e.Rule? ==> Slotted(doc + [e], jumped, users)
  {
    forall k ensures !e.Rule? ==> LastDirect(doc + [e], k) == LastDirect(doc, k)
                                  && LastUser(doc + [e], k) == LastUser(doc, k) {
      SlotsGrow(doc, e, k);
    }
  }

  method SlotRule(ghost doc: seq<Entry>, e: Entry, jumped: Slots, users: Slots)
    returns (jumped': Slots, users': Slots)
    requires e.Rule? && Slotted(doc, jumped, users)
    ensures Slotted(doc + [e], jumped', users')
  {
    var found := VerdictTargets(e.expr, BOTH);
    jumped' := Overwrite(jumped, e.family, e.table, ToSet(found), e.chain);
    var refs := MapReferences(e.expr);
    users' := Overwrite(users, e.family, e.table, refs, e.chain);
    forall k ensures Slot(jumped', k) == LastDirect(doc + [e], k)
                     && Slot(users', k) == LastUser(doc + [e], k) {
      SlotsGrow(doc, e, k);
    }
  }

  /** Map `m`, with its user `c`, offers the key its caller. */
  predicate OfferedFrom(users: Slots, targets: map<Key, set<string>>, m: Key, k: Key, c: string) {
    c != "" && m.family == k.family && m.table == k.table && m in targets
    && Slot(users, m) == Some(c) && k.name in targets[m]
  }

  ghost predicate OfferedBy(users: Slots, targets: map<Key, set<string>>, done: set<Key>, k: Key,
                            c: string) {
    exists m | m in done :: OfferedFrom(users, targets, m, k, c)
  }

  ghost predicate Filled(jumped: Slots, users: Slots, targets: map<Key, set<string>>,
                         done: set<Key>, k: Key, held: Option<string>) {
    if Slot(jumped, k).Some? then held == Slot(jumped, k)
    else match held
      case Some(c) => OfferedBy(users, targets, done, k, c)
      case None => forall c :: !OfferedBy(users, targets, done, k, c)
  }

  /** `setdefault` for every map with a user: a slot already filled stays. */
  method JoinSlots(jumped: Slots, users: Slots, targets: map<Key, set<string>>)
    returns (out: Slots)
    ensures forall k :: Filled(jumped, users, targets, targets.Keys, k, Slot(out, k))
  {
    out := jumped;
    var todo := targets.Keys;
    while todo != {}
      invariant todo <= targets.Keys
      invariant forall k :: Filled(jumped, users, targets, targets.Keys - todo, k, Slot(out, k))
    {
      var m :| m in todo;
      ghost var done, held := targets.Keys - todo, out;
      if m in users && users[m] != "" {
        out := Default(out, m, targets[m], users[m]);
      }
      todo := todo - {m};
      assert targets.Keys - todo == done + {m};
      forall k ensures Filled(jumped, users, targets, done + {m}, k, Slot(out, k)) {
        assert Filled(jumped, users, targets, done, k, Slot(held, k));
        FilledGrows(jumped, users, targets, done, m, k, Slot(held, k), Slot(out, k));
      }
    }
    assert targets.Keys - {} == targets.Keys;
  }

  lemma FilledGrows(jumped: Slots, users: Slots, targets: map<Key, set<string>>, done: set<Key>,
                    m: Key, k: Key, held: Option<string>, next: Option<string>)
    requires m in targets && Filled(jumped, users, targets, done, k, held)
    requires next
      == if held.None? && m in users && OfferedFrom(users, targets, m, k, users[m])
         then Some(users[m]) else held
    ensures Filled(jumped, users, targets, done + {m}, k, next)
  {
    forall c ensures OfferedBy(users, targets, done + {m}, k, c) <==>
      OfferedBy(users, targets, done, k, c) || OfferedFrom(users, targets, m, k, c) {}
  }

  method Default(m: Slots, map_: Key, names: set<string>, caller: string) returns (out: Slots)
    ensures forall k ::
      Slot(out, k) == if Slot(m, k).None? && k.family == map_.family && k.table == map_.table
                         && k.name in names
                      then Some(caller) else Slot(m, k)
  {
    out := m;
    var todo := names;
    while todo != {}
      invariant todo <= names
      invariant forall k ::
        Slot(out, k) == if Slot(m, k).None? && k.family == map_.family && k.table == map_.table
                           && k.name in names - todo
                        then Some(caller) else Slot(m, k)
    {
      var name :| name in todo;
      todo := todo - {name};
      var k := Key(map_.family, map_.table, name);
      if k !in out {
        out := out[k := caller];
      }
    }
  }

  method SingleCaller(doc: seq<Entry>) returns (rows: seq<Row>)
    ensures SingleRows(doc, rows)
  {
    var keys, chains := [], map[];
    var counts: map<Key, nat>, targets: map<Key, set<string>> := map[], map[];
    var jumped: Slots, users: Slots := map[], map[];
    for i := 0 to |doc|
      invariant Found(Seen(doc[..i]), keys, chains) && Counted(Seen(doc[..i]), counts)
      invariant Slotted(Seen(doc[..i]), jumped, users)
      invariant Listed(Seen(doc[..i]), BOTH, targets)
    {
      var e := doc[i];
      ghost var seen := Seen(doc[..i]);
      assert doc[..i + 1][..i] == doc[..i];
      if InKnown(e) {
        assert Seen(doc[..i + 1]) == seen + [e];
        GrowFound(seen, e, keys, chains);
        CountRuleGrows(seen, e, counts);
        Unaffected(seen, e, BOTH, map[], map[], targets);
        SlotsKept(seen, e, jumped, users);
        match e
        case Chain(key, _, _, _) =>
          keys := if key in chains then keys else keys + [key];
          chains := chains[key := e];
        case Rule(_, _, _, _, _) =>
          counts := CountRule(counts, e);
          jumped, users := SlotRule(seen, e, jumped, users);
        case Map(key, _, elem) =>
          var found := VerdictTargets(elem, BOTH);
          ListMap(seen, e, BOTH, targets, ToSet(found));
          targets := targets[key := ToSet(found)];
        case Other(_) =>
      } else {
        assert Seen(doc[..i + 1]) == seen;
      }
    }
    assert doc[..|doc|] == doc;
    var joined := JoinSlots(jumped, users, targets);
    forall k ensures Holds(Seen(doc), k, Slot(joined, k)) {
      SlotHolds(Seen(doc), jumped, users, targets, joined, k);
    }
    rows := PublishSlots(Seen(doc), keys, chains, counts, joined);
  }

  lemma SlotHolds(doc: seq<Entry>, jumped: Slots, users: Slots, targets: map<Key, set<string>>,
                  joined: Slots, k: Key)
    requires Slotted(doc, jumped, users) && Listed(doc, BOTH, targets)
    requires Filled(jumped, users, targets, targets.Keys, k, Slot(joined, k))
    ensures Holds(doc, k, Slot(joined, k))
  {
    forall c ensures OfferedBy(users, targets, targets.Keys, k, c) <==> Offered(doc, k, c) {
      if m :| m in targets.Keys && OfferedFrom(users, targets, m, k, c) {
        assert m == Key(k.family, k.table, m.name);
        assert LastUser(doc, m) == Some(c) && Dispatches(doc, BOTH, m, k.name);
      }
      if Offered(doc, k, c) {
        var m :| LastUser(doc, Key(k.family, k.table, m)) == Some(c)
                 && Dispatches(doc, BOTH, Key(k.family, k.table, m), k.name);
        assert OfferedFrom(users, targets, Key(k.family, k.table, m), k, c);
      }
    }
  }

  method PublishSlots(ghost doc: seq<Entry>, keys: seq<Key>, chains: map<Key, Entry>,
                      counts: map<Key, nat>, joined: Slots)
    returns (rows: seq<Row>)
    requires Found(doc, keys, chains) && Counted(doc, counts)
    requires forall k :: Holds(doc, k, Slot(joined, k))
    ensures |rows| == |ChainKeys(doc)|
    ensures forall i | 0 <= i < |rows| :: SingleRow(doc, ChainKeys(doc)[i], rows[i])
  {
    rows := [];
    for i := 0 to |keys|
      invariant |rows| == i
      invariant forall j | 0 <= j < i :: SingleRow(doc, keys[j], rows[j])
    {
      var key := keys[i];
      var reach := if key in joined then JumpedFrom([joined[key]])
                   else if chains[key].hooked then Silent else Unreferenced;
      var row := Row(chains[key], if key in counts then counts[key] else 0, reach);
      assert Holds(doc, key, Slot(joined, key));
      assert SingleRow(doc, key, row);
      rows := rows + [row];
    }
  }

  // ── the documents on which neither defect shows ───────────────────────

  function KnownOnly(keys: seq<Key>): seq<Key> {
    if keys == [] then []
    else
      KnownOnly(keys[..|keys| - 1])
      + if keys[|keys| - 1].family in KNOWN then [keys[|keys| - 1]] else []
  }

  lemma {:induction false} KnownOnlyMembers(keys: seq<Key>, k: Key)
    ensures k in KnownOnly(keys) <==> k in keys && k.family in KNOWN
  {
    if keys != [] {
      var n := |keys| - 1;
      KnownOnlyMembers(keys[..n], k);
      assert keys == keys[..n] + [keys[n]];
    }
  }

  ghost predicate AllKnown(keys: seq<Key>) {
    forall k | k in keys :: k.family in KNOWN
  }

  lemma {:induction false} KnownOnlyFull(keys: seq<Key>)
    ensures |KnownOnly(keys)| <= |keys|
    ensures |KnownOnly(keys)| == |keys| <==> AllKnown(keys)
    ensures |KnownOnly(keys)| == |keys| ==> KnownOnly(keys) == keys
  {
    if keys != [] {
      var n := |keys| - 1;
      KnownOnlyFull(keys[..n]);
      assert keys == keys[..n] + [keys[n]];
      AllKnownGrows(keys[..n], keys[n]);
    }
  }

  lemma AllKnownGrows(keys: seq<Key>, k: Key)
    ensures AllKnown(keys + [k]) <==> AllKnown(keys) && k.family in KNOWN
  {
    assert (keys + [k])[|keys|] == k;
    assert forall x | x in keys :: x in keys + [k];
  }

  lemma KnownOnlyExact(keys: seq<Key>)
    ensures forall k :: k in KnownOnly(keys) <==> k in keys && k.family in KNOWN
    ensures |KnownOnly(keys)| == |keys| <==> forall k | k in keys :: k.family in KNOWN
    ensures |KnownOnly(keys)| == |keys| ==> KnownOnly(keys) == keys
  {
    KnownOnlyFull(keys);
    forall k { KnownOnlyMembers(keys, k); }
  }

  lemma SeenGrows(doc: seq<Entry>, e: Entry)
    ensures Seen(doc + [e]) == if InKnown(e) then Seen(doc) + [e] else Seen(doc)
  {
    assert (doc + [e])[..|doc + [e]| - 1] == doc;
  }

  lemma {:induction false} SeenMembers(doc: seq<Entry>)
    ensures forall e :: e in Seen(doc) <==> e in doc && InKnown(e)
  {
    if doc != [] {
      SeenMembers(doc[..|doc| - 1]);
      assert doc == doc[..|doc| - 1] + [doc[|doc| - 1]];
    }
  }

  lemma ChainKeysGrow(doc: seq<Entry>, e: Entry)
    ensures ChainKeys(doc + [e])
      == if e.Chain? && e.key !in ChainKeys(doc) then ChainKeys(doc) + [e.key] else ChainKeys(doc)
  {
    assert (doc + [e])[..|doc + [e]| - 1] == doc;
  }

  lemma KnownOnlyGrows(keys: seq<Key>, k: Key)
    ensures KnownOnly(keys + [k]) == KnownOnly(keys) + if k.family in KNOWN then [k] else []
  {
    assert (keys + [k])[..|keys + [k]| - 1] == keys;
  }

  lemma {:induction false} SeenChains(doc: seq<Entry>)
    ensures ChainKeys(Seen(doc)) == KnownOnly(ChainKeys(doc))
  {
    if doc != [] {
      var before, e := doc[..|doc| - 1], doc[|doc| - 1];
      SeenChains(before);
      assert doc == before + [e];
      SeenChainsStep(before, e);
    }
  }

  lemma SeenChainsStep(before: seq<Entry>, e: Entry)
    requires ChainKeys(Seen(before)) == KnownOnly(ChainKeys(before))
    ensures ChainKeys(Seen(before + [e])) == KnownOnly(ChainKeys(before + [e]))
  {
    SeenGrows(before, e);
    ChainKeysGrow(before, e);
    ChainKeysGrow(Seen(before), e);
    if e.Chain? {
      KnownOnlyExact(ChainKeys(before));
      KnownOnlyGrows(ChainKeys(before), e.key);
    }
  }

  lemma ChainAtGrows(doc: seq<Entry>, e: Entry, k: Key)
    requires k in ChainKeys(doc + [e])
    ensures e.Chain? && e.key == k ==> ChainAt(doc + [e], k) == e
    ensures !(e.Chain? && e.key == k) ==> k in ChainKeys(doc) && ChainAt(doc + [e], k) == ChainAt(doc, k)
  {
    assert (doc + [e])[..|doc + [e]| - 1] == doc && (doc + [e])[|doc|] == e;
  }

  lemma {:induction false} SeenKey(doc: seq<Entry>, k: Key)
    requires k.family in KNOWN
    ensures Elements(Seen(doc), k) == Elements(doc, k)
    ensures RuleCount(Seen(doc), k) == RuleCount(doc, k)
  {
    if doc != [] {
      var before, e := doc[..|doc| - 1], doc[|doc| - 1];
      SeenKey(before, k);
      assert doc == before + [e];
      SeenGrows(before, e);
      GrowElements(before, e, k);
      GrowElements(Seen(before), e, k);
    }
  }

  lemma {:induction false} SeenChain(doc: seq<Entry>, k: Key)
    requires k.family in KNOWN && k in ChainKeys(doc)
    ensures k in ChainKeys(Seen(doc)) && ChainAt(Seen(doc), k) == ChainAt(doc, k)
  {
    var before, e := doc[..|doc| - 1], doc[|doc| - 1];
    assert doc == before + [e];
    ChainAtGrows(before, e, k);
    if !(e.Chain? && e.key == k) {
      SeenChain(before, k);
    }
    SeenChainStep(before, e, k);
  }

  lemma SeenChainStep(before: seq<Entry>, e: Entry, k: Key)
    requires k.family in KNOWN && k in ChainKeys(before + [e])
    requires !(e.Chain? && e.key == k) ==>
      k in ChainKeys(before) && k in ChainKeys(Seen(before))
      && ChainAt(Seen(before), k) == ChainAt(before, k)
    ensures k in ChainKeys(Seen(before + [e]))
    ensures ChainAt(Seen(before + [e]), k) == ChainAt(before + [e], k)
  {
    SeenGrows(before, e);
    ChainKeysGrow(Seen(before), e);
    ChainAtGrows(before, e, k);
    if InKnown(e) {
      ChainAtGrows(Seen(before), e, k);
    }
  }

  lemma SeenCallers(doc: seq<Entry>, k: Key)
    requires k.family in KNOWN
    ensures Callers(Seen(doc), BOTH, k) == Callers(doc, BOTH, k)
    ensures forall c :: CallsDirectly(Seen(doc), BOTH, k, c) <==> CallsDirectly(doc, BOTH, k, c)
  {
    SeenMembers(doc);
    forall m: string, c
      ensures Consults(Seen(doc), Key(k.family, k.table, m), c)
        <==> Consults(doc, Key(k.family, k.table, m), c) {}
    forall m: string, t
      ensures Dispatches(Seen(doc), BOTH, Key(k.family, k.table, m), t)
        <==> Dispatches(doc, BOTH, Key(k.family, k.table, m), t)
    {
      SeenKey(doc, Key(k.family, k.table, m));
    }
    forall c ensures c in Callers(Seen(doc), BOTH, k) <==> c in Callers(doc, BOTH, k) {
      CallersExact(Seen(doc), BOTH, k, c);
      CallersExact(doc, BOTH, k, c);
      assert CallsDirectly(Seen(doc), BOTH, k, c) <==> CallsDirectly(doc, BOTH, k, c);
    }
  }

  lemma {:induction false} LastExact(doc: seq<Entry>, k: Key)
    ensures match LastDirect(doc, k)
            case Some(c) => CallsDirectly(doc, BOTH, k, c)
            case None => forall c :: !CallsDirectly(doc, BOTH, k, c)
    ensures match LastUser(doc, k)
            case Some(c) => Consults(doc, k, c)
            case None => forall c :: !Consults(doc, k, c)
  {
    if doc != [] {
      var before, e := doc[..|doc| - 1], doc[|doc| - 1];
      LastExact(before, k);
      assert doc == before + [e];
      GrowCallers(before, e, BOTH, k);
    }
  }

  /** At most one caller, and a caller with an empty name only by a rule of its own. */
  ghost predicate OneCaller(doc: seq<Entry>, k: Key) {
    (forall c, d | Calls(doc, BOTH, k, c) && Calls(doc, BOTH, k, d) :: c == d)
    && (Calls(doc, BOTH, k, "") ==> CallsDirectly(doc, BOTH, k, ""))
  }

  lemma HeldIsCaller(doc: seq<Entry>, k: Key, held: Option<string>)
    requires Holds(doc, k, held) && held.Some?
    ensures Calls(doc, BOTH, k, held.value)
    ensures held.value == "" ==> CallsDirectly(doc, BOTH, k, "")
  {
    LastExact(doc, k);
    if LastDirect(doc, k).None? {
      var m :| LastUser(doc, Key(k.family, k.table, m)) == held
               && Dispatches(doc, BOTH, Key(k.family, k.table, m), k.name);
      LastExact(doc, Key(k.family, k.table, m));
      assert CallsThroughMap(doc, BOTH, k, held.value);
    }
  }

  /** A caller through a map vouches for the map's last user, who is offered
      unless nameless. */
  lemma MapCallerOffers(doc: seq<Entry>, k: Key, d: string) returns (u: string)
    requires CallsThroughMap(doc, BOTH, k, d)
    ensures Calls(doc, BOTH, k, u) && (u == "" || Offered(doc, k, u))
  {
    var m :| Consults(doc, Key(k.family, k.table, m), d)
             && Dispatches(doc, BOTH, Key(k.family, k.table, m), k.name);
    LastExact(doc, Key(k.family, k.table, m));
    u := LastUser(doc, Key(k.family, k.table, m)).value;
    assert CallsThroughMap(doc, BOTH, k, u);
  }

  lemma NobodyMissed(doc: seq<Entry>, k: Key, d: string)
    requires Holds(doc, k, None) && OneCaller(doc, k)
    ensures !Calls(doc, BOTH, k, d)
  {
    LastExact(doc, k);
    if CallsThroughMap(doc, BOTH, k, d) {
      var u := MapCallerOffers(doc, k, d);
    }
  }

  lemma HeldIsAll(doc: seq<Entry>, k: Key, held: Option<string>)
    requires Holds(doc, k, held)
    ensures OneCaller(doc, k) <==>
      Callers(doc, BOTH, k) == match held case Some(c) => {c} case None => {}
  {
    forall c ensures c in Callers(doc, BOTH, k) <==> Calls(doc, BOTH, k, c) {
      CallersExact(doc, BOTH, k, c);
    }
    match held
    case Some(c) =>
      HeldIsCaller(doc, k, held);
      assert c in Callers(doc, BOTH, k);
    case None =>
      if OneCaller(doc, k) {
        forall d ensures d !in Callers(doc, BOTH, k) {
          NobodyMissed(doc, k, d);
        }
      } else if Callers(doc, BOTH, k) == {} {
        forall d ensures !Calls(doc, BOTH, k, d) {
          assert d !in Callers(doc, BOTH, k);
        }
      }
  }

  lemma SingleReachIs(hooked: bool, held: Option<string>, callers: set<string>)
    ensures SingleReach(hooked, held) == ReachOf(hooked, callers) <==>
      callers == match held case Some(c) => {c} case None => {}
  {
    BelowIsTotal();
    if held.Some? {
      var c := held.value;
      AscendingUnique(Below, [c], Sorted(Below, {c}));
      SortedInjective(Below, {c}, callers);
    }
  }

  lemma RowIff(doc: seq<Entry>, k: Key, row: Row)
    requires k in ChainKeys(Seen(doc)) && k in ChainKeys(doc) && k.family in KNOWN
    requires SingleRow(Seen(doc), k, row)
    ensures row == RowWith(doc, k, Callers(doc, BOTH, k)) <==> OneCaller(doc, k)
  {
    var seen := Seen(doc);
    SeenKey(doc, k);
    SeenChain(doc, k);
    SeenCallers(doc, k);
    var held :| Holds(seen, k, held) && row.reach == SingleReach(row.chain.hooked, held);
    HeldIsAll(seen, k, held);
    SingleReachIs(row.chain.hooked, held, Callers(doc, BOTH, k));
    SeenOneCaller(doc, k);
  }

  lemma SeenOneCaller(doc: seq<Entry>, k: Key)
    requires k.family in KNOWN
    ensures OneCaller(Seen(doc), k) <==> OneCaller(doc, k)
  {
    var seen := Seen(doc);
    SeenCallers(doc, k);
    forall c ensures Calls(seen, BOTH, k, c) <==> Calls(doc, BOTH, k, c) {
      CallersExact(seen, BOTH, k, c);
      CallersExact(doc, BOTH, k, c);
    }
  }

  /** The single-caller port agrees with the correct walk exactly when every
      declared chain is of a known family and has at most one caller (a
      nameless chain counting only when a rule of its own makes the call). */
  lemma SingleCallerIff(doc: seq<Entry>, rows: seq<Row>)
    requires SingleRows(doc, rows)
    ensures rows == Rows(doc, CallersOf(doc, BOTH)) <==>
      forall k | k in ChainKeys(doc) :: k.family in KNOWN && OneCaller(doc, k)
  {
    var keys := ChainKeys(doc);
    SeenChains(doc);
    KnownOnlyExact(keys);
    if forall k | k in keys :: k.family in KNOWN {
      forall i | 0 <= i < |keys|
        ensures rows[i] == RowWith(doc, keys[i], Callers(doc, BOTH, keys[i])) <==> OneCaller(doc, keys[i])
      {
        assert keys[i] in keys;
        RowIff(doc, keys[i], rows[i]);
      }
      RowByRow(doc, rows);
    }
  }

  lemma RowByRow(doc: seq<Entry>, rows: seq<Row>)
    requires |rows| == |ChainKeys(doc)|
    requires forall i | 0 <= i < |rows| ::
      rows[i] == RowWith(doc, ChainKeys(doc)[i], Callers(doc, BOTH, ChainKeys(doc)[i])) <==>
        OneCaller(doc, ChainKeys(doc)[i])
    ensures rows == Rows(doc, CallersOf(doc, BOTH)) <==> forall k | k in ChainKeys(doc) :: OneCaller(doc, k)
  {
    var keys := ChainKeys(doc);
    forall i | 0 <= i < |rows|
      ensures rows[i] == Rows(doc, CallersOf(doc, BOTH))[i] <==> OneCaller(doc, keys[i])
    {}
    if rows == Rows(doc, CallersOf(doc, BOTH)) {
      forall k | k in keys ensures OneCaller(doc, k) {
        var i :| 0 <= i < |keys| && keys[i] == k;
      }
    }
  }
}
