/** The operators that mint rules, chains and maps: `_max_handle`,
    `_second_caller` and `_add_verdict_map`. */
module NftMinting {
  import opened Options
  import opened Document
  import opened Sorting
  import opened NftWalk
  import opened NftMutations
  import opened NftOperators
  import opened NftSingle

  // ── handles ───────────────────────────────────────────────────────────

  function Handles(doc: seq<Entry>): seq<int> {
    if doc == [] then []
    else
      var h := doc[|doc| - 1].handle;
      Handles(doc[..|doc| - 1]) + if h.Some? then [h.value] else []
  }

  function Largest(s: seq<int>): int
    requires s != []
  {
    if |s| == 1 then s[0]
    else
      var rest := Largest(s[1..]);
      if s[0] > rest then s[0] else rest
  }

  /** `max(handles, default=0)` */
  function MaxHandle(doc: seq<Entry>): int {
    if Handles(doc) == [] then 0 else Largest(Handles(doc))
  }

  lemma {:induction false} LargestBounds(s: seq<int>, x: int)
    requires x in s
    ensures x <= Largest(s)
  {
    if |s| > 1 && x != s[0] {
      assert s == [s[0]] + s[1..];
      LargestBounds(s[1..], x);
    }
  }

  lemma {:induction false} HandleListed(doc: seq<Entry>, e: Entry)
    requires e in doc && e.handle.Some?
    ensures e.handle.value in Handles(doc)
  {
    var n := |doc| - 1;
    assert doc == doc[..n] + [doc[n]];
    if e != doc[n] {
      HandleListed(doc[..n], e);
    }
  }

  /** A minted handle extends the numbering: no entry already carries it. */
  lemma MintedHandleFresh(doc: seq<Entry>, minted: int)
    requires minted > MaxHandle(doc)
    ensures forall e | e in doc && e.handle.Some? :: e.handle.value < minted
  {
    forall e | e in doc && e.handle.Some? ensures e.handle.value < minted {
      HandleListed(doc, e);
      LargestBounds(Handles(doc), e.handle.value);
    }
  }

  // ── a rule of one verdict ─────────────────────────────────────────────

  function Verdict(t: string): Value {
    Obj([Member("jump", Obj([Member("target", Text(t))]))])
  }

  /** The elements of the minted map: tcp jumps to the landing chain, udp drops. */
  function DispatchTable(t: string): Value {
    Arr([Arr([Text("tcp"), Verdict(t)]), Arr([Text("udp"), Dropped()])])
  }

  lemma VerdictNames(t: string, verbs: seq<string>, x: string)
    requires t != "" && (verbs == JUMP || verbs == BOTH)
    ensures Names(Verdict(t).members, verbs, x) <==> x == t
  {
    var members, body := Verdict(t).members, [Member("target", Text(t))];
    assert Get(body, "target") == Some(Text(t));
    assert members[1..] == [] && Get(members, "goto") == None;
    assert Target(members, "jump") == Some(t);
    VerbsAre(verbs);
    assert "jump" in verbs by {
      assert verbs[0] == "jump";
    }
  }

  lemma VerdictReads(t: string, verbs: seq<string>, x: string)
    requires t != "" && (verbs == JUMP || verbs == BOTH)
    ensures Hands(Verdict(t), verbs, x) <==> x == t
    ensures Mentions(Verdict(t), x) <==> t == "@" + x
  {
    var verdict := Verdict(t);
    var body := verdict.members[0].value;
    VerdictNames(t, verbs, x);
    assert body.members == [Member("target", Text(t))] && body.members[1..] == [];
    assert Get(body.members, "jump") == None && Get(body.members, "goto") == None;
    VerbsAre(verbs);
    assert !Names(body.members, verbs, x) && !Hands(Text(t), verbs, x);
    assert !Hands(body, verbs, x);
    assert Mentions(body, x) <==> t == "@" + x by {
      assert body.members[0] in body.members;
    }
    assert verdict.members[0] in verdict.members;
  }

  lemma RuleReads(t: string, verbs: seq<string>, x: string)
    requires t != "" && (verbs == JUMP || verbs == BOTH)
    ensures Hands(Arr([Verdict(t)]), verbs, x) <==> x == t
    ensures Mentions(Arr([Verdict(t)]), x) <==> t == "@" + x
  {
    VerdictReads(t, verbs, x);
    assert Verdict(t) in [Verdict(t)];
  }

  lemma DispatchReads(t: string, verbs: seq<string>, x: string)
    requires t != "" && (verbs == JUMP || verbs == BOTH)
    ensures Hands(DispatchTable(t), verbs, x) <==> x == t
  {
    VerdictReads(t, verbs, x);
    DropReads(verbs, x);
    var tcp, udp := Arr([Text("tcp"), Verdict(t)]), Arr([Text("udp"), Dropped()]);
    PairReads(Text("tcp"), Verdict(t), verbs, x);
    PairReads(Text("udp"), Dropped(), verbs, x);
    PairReads(tcp, udp, verbs, x);
  }

  function Dropped(): Value {
    Obj([Member("drop", Null)])
  }

  lemma DropReads(verbs: seq<string>, x: string)
    requires verbs == JUMP || verbs == BOTH
    ensures !Hands(Dropped(), verbs, x)
  {
    var members := Dropped().members;
    assert members[1..] == [] && Get(members, "jump") == None && Get(members, "goto") == None;
    VerbsAre(verbs);
    assert !Names(members, verbs, x);
  }

  lemma PairReads(a: Value, b: Value, verbs: seq<string>, x: string)
    ensures Hands(Arr([a, b]), verbs, x) <==> Hands(a, verbs, x) || Hands(b, verbs, x)
  {
    assert [a, b][0] == a && [a, b][1] == b;
  }

  // ── _second_caller ────────────────────────────────────────────────────

  /** One calling chain, and another declared in its table to call as well. */
  ghost predicate Doubles(doc: seq<Entry>, k: Key, other: string) {
    |ToSet(CallerRefs(doc, k))| == 1 && other !in CallerRefs(doc, k) && other != k.name
    && Key(k.family, k.table, other) in ChainKeys(doc)
  }

  ghost predicate Doublable(doc: seq<Entry>, k: Key) {
    exists other :: Doubles(doc, k, other)
  }

  function SecondRule(doc: seq<Entry>, k: Key, other: string): Entry {
    Rule(k.family, k.table, other, Some(MaxHandle(doc) + 1), Arr([Verdict(k.name)]))
  }

  function Others(doc: seq<Entry>, k: Key): set<string> {
    set c | c in ChainKeys(doc) && c.family == k.family && c.table == k.table
            && c.name != k.name && c.name !in CallerRefs(doc, k) :: c.name
  }

  datatype Doubled = Doubled(doc: seq<Entry>, target: Key, caller: string)

  /** The first of the chains that could call it as well. */
  ghost predicate LeastOther(doc: seq<Entry>, k: Key, other: string) {
    forall o | Doubles(doc, k, o) && o != other :: Below(other, o)
  }

  /** The first of the targets that can be given another caller. */
  ghost predicate LeastTarget(doc: seq<Entry>, k: Key) {
    forall other | Doublable(doc, other) && other != k :: KeyBelow(k, other)
  }

  lemma FirstTarget(doc: seq<Entry>, keys: seq<Key>, i: nat)
    requires i < |keys| && Ascending(KeyBelow, keys)
    requires forall k :: Doublable(doc, k) ==> k in keys
    requires forall h | 0 <= h < i :: !Doublable(doc, keys[h])
    ensures LeastTarget(doc, keys[i])
  {
    forall other | Doublable(doc, other) && other != keys[i] ensures KeyBelow(keys[i], other) {
      var h :| 0 <= h < |keys| && keys[h] == other;
      assert h > i;
    }
  }

  method PickOther(doc: seq<Entry>, k: Key) returns (other: Option<string>)
    ensures other.None? ==> !Doublable(doc, k)
    ensures other.Some? ==> Doubles(doc, k, other.value) && LeastOther(doc, k, other.value)
  {
    if |ToSet(CallerRefs(doc, k))| != 1 {
      return None;
    }
    BelowIsTotal();
    var others := SortSet(Below, Others(doc, k));
    if others == [] {
      forall o ensures !Doubles(doc, k, o) {
        assert o !in Others(doc, k);
        assert Key(k.family, k.table, o).name == o;
      }
      return None;
    }
    assert others[0] in Others(doc, k);
    ghost var c :| c in ChainKeys(doc) && c.family == k.family && c.table == k.table
                   && c.name == others[0];
    assert c == Key(k.family, k.table, others[0]);
    forall o | Doubles(doc, k, o) && o != others[0] ensures Below(others[0], o) {
      assert Key(k.family, k.table, o).name == o;
      assert o in Others(doc, k);
      var h :| 0 <= h < |others| && others[h] == o;
    }
    return Some(others[0]);
  }

  /** What the operator gives: the least target, the least chain that could call it
      as well, and that chain's rule at the end. */
  ghost predicate IsDoubled(doc: seq<Entry>, d: Doubled) {
    && Doubles(doc, d.target, d.caller) && d.doc == doc + [SecondRule(doc, d.target, d.caller)]
    && LeastTarget(doc, d.target) && LeastOther(doc, d.target, d.caller)
  }

  method SortedTargets(doc: seq<Entry>) returns (keys: seq<Key>)
    ensures Ascending(KeyBelow, keys)
    ensures forall k :: Doublable(doc, k) ==> k in keys
  {
    KeyBelowIsTotal();
    keys := SortSet(KeyBelow, Referenced(doc));
    DoublableReferenced(doc);
  }

  method SecondCaller(doc: seq<Entry>) returns (out: Option<Doubled>)
    ensures out.None? ==> forall k :: !Doublable(doc, k)
    ensures out.Some? ==> IsDoubled(doc, out.value)
  {
    var keys := SortedTargets(doc);
    for i := 0 to |keys|
      invariant forall h | 0 <= h < i :: !Doublable(doc, keys[h])
    {
      var other := PickOther(doc, keys[i]);
      if other.Some? {
        FirstTarget(doc, keys, i);
        return Some(Doubled(doc + [SecondRule(doc, keys[i], other.value)], keys[i], other.value));
      }
    }
    return None;
  }

  lemma DoublableReferenced(doc: seq<Entry>)
    ensures forall k :: Doublable(doc, k) ==> k in Referenced(doc)
  {
    forall k | Doublable(doc, k) ensures k in Referenced(doc) {
      CalledIsReferenced(doc, k);
    }
  }

  lemma CalledIsReferenced(doc: seq<Entry>, k: Key)
    requires |ToSet(CallerRefs(doc, k))| == 1
    ensures k in Referenced(doc) && k.name != ""
    ensures exists c :: c in CallerRefs(doc, k) && CallsDirectly(doc, BOTH, k, c)
  {
    var c :| c in ToSet(CallerRefs(doc, k));
    CallerRefsExact(doc, k, c);
    var e :| e in doc && InTable(e, k.family, k.table) && Hands(e.expr, BOTH, k.name);
    HandsIsRef(e.expr, BOTH, k.name);
    RefsNamed(e.expr);
    var v :| v in BOTH && (v, k.name) in Refs(e.expr);
    assert k == Key(e.family, e.table, (v, k.name).1);
  }

  /** A target spelled as a map reference has the minted rule consult that map, and
      so call every chain the map hands control to. */
  ghost predicate Consulted(doc: seq<Entry>, k: Key, d: Key) {
    d.family == k.family && d.table == k.table && exists m :: ConsultedBy(doc, k, d, m)
  }

  ghost predicate ConsultedBy(doc: seq<Entry>, k: Key, d: Key, m: string) {
    k.name == "@" + m && Dispatches(doc, BOTH, Key(k.family, k.table, m), d.name)
  }

  lemma DoubledCalls(doc: seq<Entry>, k: Key, other: string, at: Key, c: string)
    requires k.name != ""
    ensures Calls(doc + [SecondRule(doc, k, other)], BOTH, at, c) <==>
      Calls(doc, BOTH, at, c) || (c == other && (at == k || Consulted(doc, k, at)))
  {
    SecondRuleReads(doc, k, other, at, c);
    DoubledMaps(doc, k, other, at, c);
  }

  lemma DoubledMaps(doc: seq<Entry>, k: Key, other: string, at: Key, c: string)
    requires k.name != ""
    ensures CallsThroughMap(doc + [SecondRule(doc, k, other)], BOTH, at, c) <==>
      CallsThroughMap(doc, BOTH, at, c) || (c == other && Consulted(doc, k, at))
  {
    var after := doc + [SecondRule(doc, k, other)];
    forall m: string
      ensures var map_ := Key(at.family, at.table, m);
        && Elements(after, map_) == Elements(doc, map_)
        && (Consults(after, map_, c) <==> Consults(doc, map_, c) || NewlyConsults(k, other, map_, c))
    {
      SecondRuleReads(doc, k, other, Key(at.family, at.table, m), c);
    }
    if c == other && Consulted(doc, k, at) {
      var m :| ConsultedBy(doc, k, at, m);
      assert Consults(after, Key(at.family, at.table, m), c);
    }
    if CallsThroughMap(after, BOTH, at, c) && !CallsThroughMap(doc, BOTH, at, c) {
      var m :| Consults(after, Key(at.family, at.table, m), c)
               && Dispatches(after, BOTH, Key(at.family, at.table, m), at.name);
      assert ConsultedBy(doc, k, at, m);
    }
  }

  predicate NewlyConsults(k: Key, other: string, map_: Key, c: string) {
    c == other && map_.family == k.family && map_.table == k.table && k.name == "@" + map_.name
  }

  /** What the minted rule adds to the document. */
  lemma SecondRuleReads(doc: seq<Entry>, k: Key, other: string, at: Key, c: string)
    requires k.name != ""
    ensures var after := doc + [SecondRule(doc, k, other)];
      && (CallsDirectly(after, BOTH, at, c) <==>
            CallsDirectly(doc, BOTH, at, c) || (at == k && c == other))
      && (Consults(after, at, c) <==> Consults(doc, at, c) || NewlyConsults(k, other, at, c))
      && Elements(after, at) == Elements(doc, at)
  {
    var e := SecondRule(doc, k, other);
    GrowCallers(doc, e, BOTH, at);
    GrowElements(doc, e, at);
    RuleReads(k.name, BOTH, at.name);
    assert at == Key(at.family, at.table, at.name) && k == Key(k.family, k.table, k.name);
  }

  lemma TwoCallers(doc: seq<Entry>, k: Key, other: string)
    requires Doubles(doc, k, other)
    ensures exists c :: c != other && Calls(doc + [SecondRule(doc, k, other)], BOTH, k, c)
    ensures Calls(doc + [SecondRule(doc, k, other)], BOTH, k, other)
  {
    CalledIsReferenced(doc, k);
    var c :| c in CallerRefs(doc, k) && CallsDirectly(doc, BOTH, k, c);
    SecondRuleReads(doc, k, other, k, c);
    SecondRuleReads(doc, k, other, k, other);
    assert c != other && Calls(doc + [SecondRule(doc, k, other)], BOTH, k, c);
  }

  /** The port's row for a chain of a known family that a last rule was given to
      call: that rule's chain, and nothing else. */
  ghost predicate ListsOnly(rows: seq<Row>, k: Key, c: string) {
    exists i | 0 <= i < |rows| ::
      rows[i].chain.Chain? && rows[i].chain.key == k && rows[i].reach == JumpedFrom([c])
  }

  lemma LastCallerListed(doc: seq<Entry>, k: Key, other: string, rows: seq<Row>)
    requires k.name != "" && k in ChainKeys(doc) && k.family in KNOWN
    requires SingleRows(doc + [SecondRule(doc, k, other)], rows)
    ensures ListsOnly(rows, k, other)
  {
    var e := SecondRule(doc, k, other);
    var seen := Seen(doc + [e]);
    SeenGrows(doc, e);
    SlotsGrow(Seen(doc), e, k);
    RuleReads(k.name, BOTH, k.name);
    assert LastDirect(seen, k) == Some(other);
    ChainKeysGrow(doc, e);
    SeenChain(doc + [e], k);
    var i :| 0 <= i < |ChainKeys(seen)| && ChainKeys(seen)[i] == k;
    assert SingleRow(seen, k, rows[i]);
  }

  /** The target has at least two callers afterwards, all of which the correct walk
      publishes; in a known family the single-caller port publishes one of them. */
  lemma SecondCallerExposes(doc: seq<Entry>, k: Key, other: string, rows: seq<Row>)
    requires Doubles(doc, k, other) && k in ChainKeys(doc)
    requires SingleRows(doc + [SecondRule(doc, k, other)], rows)
    ensures var after := doc + [SecondRule(doc, k, other)];
      && |Callers(after, BOTH, k)| >= 2
      && (k.family in KNOWN ==> ListsOnly(rows, k, other))
      && rows != Rows(after, CallersOf(after, BOTH))
  {
    var after := doc + [SecondRule(doc, k, other)];
    CalledIsReferenced(doc, k);
    if k.family in KNOWN {
      LastCallerListed(doc, k, other, rows);
    }
    TwoCallers(doc, k, other);
    var c :| c != other && Calls(after, BOTH, k, c);
    ManyCallers(after, k, c, other);
    ChainKeysGrow(doc, SecondRule(doc, k, other));
    SingleCallerIff(after, rows);
  }

  lemma ManyCallers(doc: seq<Entry>, k: Key, c: string, d: string)
    requires c != d && Calls(doc, BOTH, k, c) && Calls(doc, BOTH, k, d)
    ensures |Callers(doc, BOTH, k)| >= 2 && !OneCaller(doc, k)
  {
    CallersExact(doc, BOTH, k, c);
    CallersExact(doc, BOTH, k, d);
    Subset({c, d}, Callers(doc, BOTH, k));
  }

  lemma Subset(a: set<string>, b: set<string>)
    requires a <= b
    ensures |a| <= |b|
  {
    assert b == a + (b - a);
  }

  /** A chain the minted rule calls through a map had no caller but the same one. */
  ghost predicate StillOne(doc: seq<Entry>, k: Key, other: string, d: Key) {
    Consulted(doc, k, d) ==>
      (forall c | Calls(doc, BOTH, d, c) :: c == other)
      && (other == "" ==> CallsDirectly(doc, BOTH, d, ""))
  }

  /** The operator does not ask whether its target is declared, and that is
      when it shows something: on a document the single-caller port reads
      correctly, the port stays right exactly when the target has no row and no
      map the target's name refers to gives another chain a second caller. */
  lemma SecondCallerVerdict(doc: seq<Entry>, k: Key, other: string, rows: seq<Row>)
    requires Doubles(doc, k, other)
    requires forall d | d in ChainKeys(doc) :: d.family in KNOWN && OneCaller(doc, d)
    requires SingleRows(doc + [SecondRule(doc, k, other)], rows)
    ensures var after := doc + [SecondRule(doc, k, other)];
      rows == Rows(after, CallersOf(after, BOTH)) <==>
        k !in ChainKeys(doc) && forall d | d in ChainKeys(doc) :: StillOne(doc, k, other, d)
  {
    var e := SecondRule(doc, k, other);
    var after := doc + [e];
    ChainKeysGrow(doc, e);
    if k in ChainKeys(doc) {
      SecondCallerExposes(doc, k, other, rows);
    } else {
      CalledIsReferenced(doc, k);
      forall d | d in ChainKeys(doc) ensures OneCaller(after, d) <==> StillOne(doc, k, other, d) {
        ElsewhereKept(doc, k, other, d);
      }
      SingleCallerIff(after, rows);
    }
  }

  /** No chain but the target gets another caller, save through such a map. */
  lemma ElsewhereKept(doc: seq<Entry>, k: Key, other: string, d: Key)
    requires k.name != "" && d != k && OneCaller(doc, d)
    ensures OneCaller(doc + [SecondRule(doc, k, other)], d) <==> StillOne(doc, k, other, d)
  {
    var after := doc + [SecondRule(doc, k, other)];
    SecondRuleReads(doc, k, other, d, "");
    DoubledCalls(doc, k, other, d, "");
    DoubledCalls(doc, k, other, d, other);
    if StillOne(doc, k, other, d) {
      forall c, e | Calls(after, BOTH, d, c) && Calls(after, BOTH, d, e) ensures c == e {
        DoubledCalls(doc, k, other, d, c);
        DoubledCalls(doc, k, other, d, e);
      }
    }
    if OneCaller(after, d) && Consulted(doc, k, d) {
      forall c | Calls(doc, BOTH, d, c) ensures c == other {
        DoubledCalls(doc, k, other, d, c);
      }
    }
  }

  // ── _add_verdict_map ──────────────────────────────────────────────────

  /** The two minted names: MAP_NAME and LANDING_CHAIN of the operator. */
  datatype Minted = Minted(dispatch: string, landing: string)

  function Consult(name: string): Value {
    Arr([Obj([Member("vmap", Obj([
      Member("key", Obj([Member("meta", Obj([Member("key", Text("l4proto"))]))])),
      Member("data", Text("@" + name))]))])])
  }

  lemma ConsultReads(name: string, x: string)
    ensures !Hands(Consult(name), BOTH, x)
    ensures Mentions(Consult(name), x) <==> x == name
  {
    var inner := Obj([Member("key", Text("l4proto"))]);
    var meta := Obj([Member("meta", inner)]);
    var body := Obj([Member("key", meta), Member("data", Text("@" + name))]);
    var vmap := Obj([Member("vmap", body)]);
    SoleMember("key", Text("l4proto"), x);
    SoleMember("meta", inner, x);
    BodyReads(meta, name, x);
    SoleMember("vmap", body, x);
    assert "l4proto"[0] == 'l' && ("@" + x)[0] == '@';
    assert vmap in [vmap];
  }

  /** An object of one member that is no verb reads as the member does. */
  lemma SoleMember(key: string, value: Value, x: string)
    requires key != "jump" && key != "goto"
    ensures Hands(Obj([Member(key, value)]), BOTH, x) <==> Hands(value, BOTH, x)
    ensures Mentions(Obj([Member(key, value)]), x) <==> Mentions(value, x)
  {
    var members := [Member(key, value)];
    NoVerb(members, x);
    assert members[0] in members;
  }

  lemma BodyReads(meta: Value, name: string, x: string)
    requires !Hands(meta, BOTH, x) && !Mentions(meta, x)
    ensures var body := Obj([Member("key", meta), Member("data", Text("@" + name))]);
      !Hands(body, BOTH, x) && (Mentions(body, x) <==> x == name)
  {
    var members := [Member("key", meta), Member("data", Text("@" + name))];
    NoVerb(members, x);
    assert members[0] in members && members[1] in members;
    assert ("@" + name)[1..] == name && ("@" + x)[1..] == x;
  }

  lemma NoVerb(members: seq<Member>, x: string)
    requires forall m | m in members :: m.key != "jump" && m.key != "goto"
    ensures !Names(members, BOTH, x)
  {
    GetMember(members, "jump");
    GetMember(members, "goto");
    assert forall v | v in BOTH :: v == "jump" || v == "goto";
  }

  function MintedMap(doc: seq<Entry>, base: Key, n: Minted): Entry
  {
    Map(Key(base.family, base.table, n.dispatch), Some(MaxHandle(doc) + 1), DispatchTable(n.landing))
  }

  function MintedChain(doc: seq<Entry>, base: Key, n: Minted): Entry {
    Chain(Key(base.family, base.table, n.landing), false, Some(MaxHandle(doc) + 2), [])
  }

  function MintedRule(doc: seq<Entry>, base: Key, n: Minted): Entry {
    Rule(base.family, base.table, base.name, Some(MaxHandle(doc) + 3), Consult(n.dispatch))
  }

  function WithDispatch(doc: seq<Entry>, base: Key, n: Minted): seq<Entry> {
    doc + [MintedMap(doc, base, n)] + [MintedChain(doc, base, n)] + [MintedRule(doc, base, n)]
  }

  function Bases(doc: seq<Entry>): set<Key> {
    set e | e in doc && e.Chain? && e.hooked :: e.key
  }

  /** The minted document and its host, the least base chain. */
  method AddVerdictMap(doc: seq<Entry>, n: Minted) returns (out: Option<(seq<Entry>, Key)>)
    ensures out.None? <==> Bases(doc) == {}
    ensures out.Some? ==>
      var (after, base) := out.value;
      && base in Bases(doc) && (forall b | b in Bases(doc) && b != base :: KeyBelow(base, b))
      && after == WithDispatch(doc, base, n)
  {
    KeyBelowIsTotal();
    var bases := SortSet(KeyBelow, Bases(doc));
    if bases == [] {
      assert forall b :: b in Bases(doc) ==> b in bases;
      return None;
    }
    assert bases[0] in Bases(doc);
    forall b | b in Bases(doc) && b != bases[0] ensures KeyBelow(bases[0], b) {
      var h :| 0 <= h < |bases| && bases[h] == b;
    }
    return Some((WithDispatch(doc, bases[0], n), bases[0]));
  }

  /** The minted names are not already in use in the host's table. */
  ghost predicate Unused(doc: seq<Entry>, base: Key, n: Minted) {
    var landing, dispatch := Key(base.family, base.table, n.landing), Key(base.family, base.table, n.dispatch);
    n.landing != "" && landing !in ChainKeys(doc) && landing != base
    && (forall c :: !Calls(doc, BOTH, landing, c))
    && (forall c :: !Consults(doc, dispatch, c))
    && Elements(doc, dispatch).None?
  }

  /** What the three minted entries add: one map, one consultation, no direct call. */
  lemma MintedReads(doc: seq<Entry>, base: Key, n: Minted, at: Key, c: string)
    ensures var after := WithDispatch(doc, base, n);
      && (CallsDirectly(after, BOTH, at, c) <==> CallsDirectly(doc, BOTH, at, c))
      && (Consults(after, at, c) <==>
          Consults(doc, at, c)
          || (at == Key(base.family, base.table, n.dispatch) && c == base.name))
      && Elements(after, at)
           == (if at == Key(base.family, base.table, n.dispatch) then Some(DispatchTable(n.landing))
               else Elements(doc, at))
      && RuleCount(after, at) == RuleCount(doc, at) + (if at == base then 1 else 0)
  {
    var m, l, r := MintedMap(doc, base, n), MintedChain(doc, base, n), MintedRule(doc, base, n);
    GrowCallers(doc, m, BOTH, at);
    GrowCallers(doc + [m], l, BOTH, at);
    GrowCallers(doc + [m] + [l], r, BOTH, at);
    GrowElements(doc, m, at);
    GrowElements(doc + [m], l, at);
    GrowElements(doc + [m] + [l], r, at);
    ConsultReads(n.dispatch, at.name);
    assert at == Key(at.family, at.table, at.name) && base == Key(base.family, base.table, base.name);
  }

  lemma MintedCalls(doc: seq<Entry>, base: Key, n: Minted, at: Key, c: string)
    requires Unused(doc, base, n)
    ensures Calls(WithDispatch(doc, base, n), BOTH, at, c) <==>
      Calls(doc, BOTH, at, c) || (at == Key(base.family, base.table, n.landing) && c == base.name)
  {
    var after := WithDispatch(doc, base, n);
    var dispatch := Key(base.family, base.table, n.dispatch);
    DispatchReads(n.landing, BOTH, at.name);
    MintedReads(doc, base, n, at, c);
    forall m: Key
      ensures Consults(after, m, c) && Dispatches(after, BOTH, m, at.name) <==>
        (Consults(doc, m, c) && Dispatches(doc, BOTH, m, at.name))
        || (m == dispatch && c == base.name && at.name == n.landing)
    {
      MintedReads(doc, base, n, m, c);
    }
    assert at == Key(at.family, at.table, at.name);
  }

  lemma MintedChainKeys(doc: seq<Entry>, base: Key, n: Minted)
    requires Unused(doc, base, n)
    ensures var after, landing := WithDispatch(doc, base, n), Key(base.family, base.table, n.landing);
      && ChainKeys(after) == ChainKeys(doc) + [landing]
      && ChainAt(after, landing) == MintedChain(doc, base, n)
      && forall k | k in ChainKeys(doc) :: ChainAt(after, k) == ChainAt(doc, k)
  {
    var m, l, r := MintedMap(doc, base, n), MintedChain(doc, base, n), MintedRule(doc, base, n);
    var landing := Key(base.family, base.table, n.landing);
    ChainKeysGrow(doc, m);
    ChainKeysGrow(doc + [m], l);
    ChainKeysGrow(doc + [m] + [l], r);
    ChainAtGrows(doc + [m], l, landing);
    ChainAtGrows(doc + [m] + [l], r, landing);
    forall k | k in ChainKeys(doc) ensures ChainAt(WithDispatch(doc, base, n), k) == ChainAt(doc, k) {
      ChainAtGrows(doc, m, k);
      ChainAtGrows(doc + [m], l, k);
      ChainAtGrows(doc + [m] + [l], r, k);
    }
  }

  lemma MintedCallers(doc: seq<Entry>, base: Key, n: Minted, k: Key)
    requires Unused(doc, base, n)
    ensures Callers(WithDispatch(doc, base, n), BOTH, k)
      == Callers(doc, BOTH, k) + if k == Key(base.family, base.table, n.landing) then {base.name} else {}
  {
    var after := WithDispatch(doc, base, n);
    forall c ensures c in Callers(after, BOTH, k) <==>
      c in Callers(doc, BOTH, k) || (k == Key(base.family, base.table, n.landing) && c == base.name)
    {
      CallersExact(after, BOTH, k, c);
      CallersExact(doc, BOTH, k, c);
      MintedCalls(doc, base, n, k, c);
    }
  }

  lemma LandingRow(doc: seq<Entry>, base: Key, n: Minted)
    requires Unused(doc, base, n)
    ensures var after, landing := WithDispatch(doc, base, n), Key(base.family, base.table, n.landing);
      && landing in ChainKeys(after)
      && RowWith(after, landing, Callers(after, BOTH, landing)).reach == JumpedFrom([base.name])
      && RowWith(after, landing, DirectCallers(after, BOTH, landing)).reach == Unreferenced
  {
    var after, landing := WithDispatch(doc, base, n), Key(base.family, base.table, n.landing);
    MintedChainKeys(doc, base, n);
    MintedCallers(doc, base, n, landing);
    forall c ensures c !in Callers(doc, BOTH, landing) && c !in DirectCallers(after, BOTH, landing) {
      CallersExact(doc, BOTH, landing, c);
      CallersExact(after, BOTH, landing, c);
      MintedReads(doc, base, n, landing, c);
    }
    assert Callers(after, BOTH, landing) == {base.name} && DirectCallers(after, BOTH, landing) == {};
    SingleReachIs(false, Some(base.name), {base.name});
  }

  /** The landing chain is JumpedFrom its host to the correct walk and
      Unreferenced to the map-blind one; every other row keeps its chain and its
      reach, the host's alone counting one rule more. */
  lemma VerdictMapExposes(doc: seq<Entry>, base: Key, n: Minted)
    requires Unused(doc, base, n)
    ensures var after, landing := WithDispatch(doc, base, n), Key(base.family, base.table, n.landing);
      && landing in ChainKeys(after)
      && RowWith(after, landing, Callers(after, BOTH, landing)).reach == JumpedFrom([base.name])
      && RowWith(after, landing, DirectCallers(after, BOTH, landing)).reach == Unreferenced
    ensures var after := WithDispatch(doc, base, n);
      forall k | k in ChainKeys(doc) ::
        && k in ChainKeys(after)
        && RowWith(after, k, Callers(after, BOTH, k))
             == RowWith(doc, k, Callers(doc, BOTH, k)).(rules := RuleCount(doc, k) + if k == base then 1 else 0)
  {
    LandingRow(doc, base, n);
    MintedChainKeys(doc, base, n);
    forall k | k in ChainKeys(doc)
      ensures var after := WithDispatch(doc, base, n);
        && k in ChainKeys(after)
        && RowWith(after, k, Callers(after, BOTH, k))
             == RowWith(doc, k, Callers(doc, BOTH, k)).(rules := RuleCount(doc, k) + if k == base then 1 else 0)
    {
      KeptRow(doc, base, n, k);
    }
  }

  lemma KeptRow(doc: seq<Entry>, base: Key, n: Minted, k: Key)
    requires Unused(doc, base, n) && k in ChainKeys(doc)
    ensures var after := WithDispatch(doc, base, n);
      && k in ChainKeys(after)
      && RowWith(after, k, Callers(after, BOTH, k))
           == RowWith(doc, k, Callers(doc, BOTH, k)).(rules := RuleCount(doc, k) + if k == base then 1 else 0)
  {
    KeptChain(doc, base, n, k);
    KeptCallers(doc, base, n, k);
    KeptCount(doc, base, n, k);
    RowFrom(doc, WithDispatch(doc, base, n), k, Callers(doc, BOTH, k), RuleCount(WithDispatch(doc, base, n), k));
  }

  lemma KeptChain(doc: seq<Entry>, base: Key, n: Minted, k: Key)
    requires Unused(doc, base, n) && k in ChainKeys(doc)
    ensures k in ChainKeys(WithDispatch(doc, base, n))
    ensures ChainAt(WithDispatch(doc, base, n), k) == ChainAt(doc, k)
    ensures k != Key(base.family, base.table, n.landing)
  {
    MintedChainKeys(doc, base, n);
  }

  lemma KeptCallers(doc: seq<Entry>, base: Key, n: Minted, k: Key)
    requires Unused(doc, base, n) && k in ChainKeys(doc)
    ensures Callers(WithDispatch(doc, base, n), BOTH, k) == Callers(doc, BOTH, k)
  {
    KeptChain(doc, base, n, k);
    MintedCallers(doc, base, n, k);
  }

  lemma KeptCount(doc: seq<Entry>, base: Key, n: Minted, k: Key)
    requires Unused(doc, base, n)
    ensures RuleCount(WithDispatch(doc, base, n), k) == RuleCount(doc, k) + if k == base then 1 else 0
  {
    MintedReads(doc, base, n, k, "");
  }

  lemma RowFrom(doc: seq<Entry>, after: seq<Entry>, k: Key, callers: set<string>, rules: nat)
    requires k in ChainKeys(doc) && k in ChainKeys(after) && ChainAt(after, k) == ChainAt(doc, k)
    requires RuleCount(after, k) == rules
    ensures RowWith(after, k, callers) == RowWith(doc, k, callers).(rules := rules)
  {}
}
