/** `_jump_to_goto` on a whole document, with the reference lists the operators
    read: the correct walk does not move, the goto-blind one loses the target. */
module NftOperators {
  import opened Options
  import opened Document
  import opened Sorting
  import opened NftWalk
  import opened NftPorts
  import opened NftMutations
  import NftSingle

  // ── who references what, occurrence by occurrence ─────────────────────

  /** How often a tree references a chain, by either verb. */
  function Hits(node: Value, t: string): nat {
    multiset(Refs(node))[("jump", t)] + multiset(Refs(node))[("goto", t)]
  }

  /** How often by a jump. */
  function Jumps(node: Value, t: string): nat {
    multiset(Refs(node))[("jump", t)]
  }

  /** How often by one of the verbs. */
  function HitsBy(verbs: seq<string>, node: Value, t: string): nat {
    if verbs == JUMP then Jumps(node, t) else Hits(node, t)
  }

  function Repeat<T>(x: T, n: nat): seq<T> {
    seq(n, _ => x)
  }

  /** `_callers(doc)[key]`: the calling chain once per reference. */
  function CallerRefs(doc: seq<Entry>, k: Key): seq<string> {
    if doc == [] then []
    else
      var e := doc[|doc| - 1];
      CallerRefs(doc[..|doc| - 1], k)
      + if InTable(e, k.family, k.table) then Repeat(e.chain, Hits(e.expr, k.name)) else []
  }

  /** The keys `_callers` holds. */
  function Referenced(doc: seq<Entry>): set<Key> {
    set e, r | e in doc && e.Rule? && r in Refs(e.expr) :: Key(e.family, e.table, r.1)
  }

  predicate Hooked(doc: seq<Entry>, k: Key) {
    exists e | e in doc :: e.Chain? && e.key == k && e.hooked
  }

  lemma {:induction false} RefsNamed(node: Value)
    ensures forall r | r in Refs(node) :: (r.0 == "jump" || r.0 == "goto") && r.1 != ""
  {
    match node
    case Obj(members) =>
      forall r | r in RefsUnder(members) ensures (r.0 == "jump" || r.0 == "goto") && r.1 != "" {
        RefsUnderExact(members, r);
        var m :| m in members && r in Refs(m.value);
        RefsNamed(m.value);
      }
    case Arr(items) =>
      forall r | r in RefsAmong(items) ensures (r.0 == "jump" || r.0 == "goto") && r.1 != "" {
        RefsAmongExact(items, r);
        var x :| x in items && r in Refs(x);
        RefsNamed(x);
      }
    case _ =>
  }

  lemma HitsIsHands(node: Value, t: string)
    ensures Hits(node, t) > 0 <==> Hands(node, BOTH, t)
    ensures multiset(Refs(node))[("jump", t)] > 0 <==> Hands(node, JUMP, t)
  {
    HandsIsRef(node, BOTH, t);
    HandsIsRef(node, JUMP, t);
    assert BOTH[0] == "jump" && BOTH[1] == "goto" && JUMP[0] == "jump";
    assert VerbIn(BOTH, Refs(node), t) <==> ("jump", t) in Refs(node) || ("goto", t) in Refs(node);
    assert VerbIn(JUMP, Refs(node), t) <==> ("jump", t) in Refs(node);
  }

  lemma {:induction false} CallerRefsExact(doc: seq<Entry>, k: Key, c: string)
    ensures c in CallerRefs(doc, k) <==> CallsDirectly(doc, BOTH, k, c)
  {
    if doc != [] {
      var before, e := doc[..|doc| - 1], doc[|doc| - 1];
      CallerRefsExact(before, k, c);
      assert doc == before + [e];
      GrowCallers(before, e, BOTH, k);
      if e.Rule? {
        HitsIsHands(e.expr, k.name);
        assert c in Repeat(e.chain, Hits(e.expr, k.name)) <==> c == e.chain && Hits(e.expr, k.name) > 0
        by {
          if Hits(e.expr, k.name) > 0 {
            assert Repeat(e.chain, Hits(e.expr, k.name))[0] == e.chain;
          }
        }
      }
    }
  }

  lemma CallerRefsGrow(doc: seq<Entry>, e: Entry, k: Key)
    ensures |CallerRefs(doc + [e], k)|
      == |CallerRefs(doc, k)| + if InTable(e, k.family, k.table) then Hits(e.expr, k.name) else 0
  {
    assert (doc + [e])[..|doc + [e]| - 1] == doc;
  }

  /** One rule's share of the references. */
  lemma {:induction false} RefShare(doc: seq<Entry>, k: Key, j: nat)
    requires j < |doc| && InTable(doc[j], k.family, k.table)
    ensures |CallerRefs(doc, k)| >= Hits(doc[j].expr, k.name)
  {
    var n := |doc| - 1;
    assert doc == doc[..n] + [doc[n]];
    CallerRefsGrow(doc[..n], doc[n], k);
    if j < n {
      RefShare(doc[..n], k, j);
    }
  }

  /** Two rules' shares. */
  lemma {:induction false} RefShares(doc: seq<Entry>, k: Key, i: nat, j: nat)
    requires i < j < |doc|
    requires InTable(doc[i], k.family, k.table) && InTable(doc[j], k.family, k.table)
    ensures |CallerRefs(doc, k)| >= Hits(doc[i].expr, k.name) + Hits(doc[j].expr, k.name)
  {
    var n := |doc| - 1;
    assert doc == doc[..n] + [doc[n]];
    CallerRefsGrow(doc[..n], doc[n], k);
    if j < n {
      RefShares(doc[..n], k, i, j);
    } else {
      RefShare(doc[..n], k, i);
    }
  }

  // ── documents that differ only in one rule's expression ───────────────

  predicate SameShell(a: Entry, b: Entry) {
    a == b || (a.Rule? && b.Rule? && a.family == b.family && a.table == b.table && a.chain == b.chain)
  }

  ghost predicate SameShells(a: seq<Entry>, b: seq<Entry>) {
    |a| == |b| && forall i | 0 <= i < |a| :: SameShell(a[i], b[i])
  }

  lemma {:induction false} ShellsAgree(a: seq<Entry>, b: seq<Entry>, k: Key)
    requires SameShells(a, b)
    ensures ChainKeys(a) == ChainKeys(b)
    ensures RuleCount(a, k) == RuleCount(b, k) && Elements(a, k) == Elements(b, k)
  {
    if a != [] {
      var n := |a| - 1;
      ShellsAgree(a[..n], b[..n], k);
      assert a == a[..n] + [a[n]] && b == b[..n] + [b[n]];
      GrowElements(a[..n], a[n], k);
      GrowElements(b[..n], b[n], k);
      NftSingle.ChainKeysGrow(a[..n], a[n]);
      NftSingle.ChainKeysGrow(b[..n], b[n]);
    }
  }

  lemma {:induction false} ShellChain(a: seq<Entry>, b: seq<Entry>, k: Key)
    requires SameShells(a, b) && k in ChainKeys(a)
    ensures k in ChainKeys(b) && ChainAt(a, k) == ChainAt(b, k)
  {
    ShellsAgree(a, b, k);
    var n := |a| - 1;
    ChainAtLast(a, k);
    ChainAtLast(b, k);
    if !(a[n].Chain? && a[n].key == k) {
      ShellChain(a[..n], b[..n], k);
    }
  }

  lemma ChainAtLast(doc: seq<Entry>, k: Key)
    requires k in ChainKeys(doc)
    ensures var n := |doc| - 1;
      if doc[n].Chain? && doc[n].key == k then ChainAt(doc, k) == doc[n]
      else k in ChainKeys(doc[..n]) && ChainAt(doc, k) == ChainAt(doc[..n], k)
  {
    var n := |doc| - 1;
    assert doc == doc[..n] + [doc[n]];
  }

  // ── _jump_to_goto ─────────────────────────────────────────────────────

  predicate KeyBelow(a: Key, b: Key) {
    Below(a.family, b.family)
    || (a.family == b.family
        && (Below(a.table, b.table) || (a.table == b.table && Below(a.name, b.name))))
  }

  lemma KeyBelowIsTotal()
    ensures TotalOrder(KeyBelow)
  {
    forall a, b
      ensures !KeyBelow(a, a) && (a != b ==> KeyBelow(a, b) || KeyBelow(b, a))
    {
      BelowTrichotomy(a.family, b.family);
      BelowTrichotomy(a.table, b.table);
      BelowTrichotomy(a.name, b.name);
    }
    forall a, b, c | KeyBelow(a, b) && KeyBelow(b, c) ensures KeyBelow(a, c) {
      BelowIsTotal();
    }
  }

  /** The subject of a conversion: a declared regular chain, referenced once,
      by a jump some rule holds. */
  ghost predicate Stageable(doc: seq<Entry>, k: Key) {
    |CallerRefs(doc, k)| == 1 && k in ChainKeys(doc) && !Hooked(doc, k)
    && exists j :: 0 <= j < |doc| && Swaps(doc, j, k)
  }

  predicate Swaps(doc: seq<Entry>, j: nat, k: Key)
    requires j < |doc|
  {
    InTable(doc[j], k.family, k.table) && Swap(doc[j].expr, k.name).Some?
  }

  function SwapAt(doc: seq<Entry>, j: nat, k: Key): seq<Entry>
    requires j < |doc| && Swaps(doc, j, k)
  {
    doc[j := doc[j].(expr := Swap(doc[j].expr, k.name).value)]
  }

  lemma ReferencedWhenCalled(doc: seq<Entry>, k: Key)
    requires |CallerRefs(doc, k)| == 1
    ensures k in Referenced(doc) && k.name != ""
  {
    var c := CallerRefs(doc, k)[0];
    assert c in CallerRefs(doc, k);
    CallerRefsExact(doc, k, c);
    var e :| e in doc && InTable(e, k.family, k.table) && Hands(e.expr, BOTH, k.name);
    HandsIsRef(e.expr, BOTH, k.name);
    RefsNamed(e.expr);
    var v :| v in BOTH && (v, k.name) in Refs(e.expr);
    assert k == Key(e.family, e.table, (v, k.name).1);
  }

  datatype Staged = Staged(doc: seq<Entry>, target: Key, at: nat)

  /** The first rule of the key's table that holds a jump to convert. */
  method FirstSwap(doc: seq<Entry>, k: Key) returns (at: Option<nat>)
    ensures at.None? ==> forall j | 0 <= j < |doc| :: !Swaps(doc, j, k)
    ensures at.Some? ==> at.value < |doc| && Swaps(doc, at.value, k)
                            && forall j | 0 <= j < at.value :: !Swaps(doc, j, k)
  {
    for j := 0 to |doc|
      invariant forall h | 0 <= h < j :: !Swaps(doc, h, k)
    {
      if Swaps(doc, j, k) {
        return Some(j);
      }
    }
    return None;
  }

  ghost predicate IsStaged(doc: seq<Entry>, s: Staged) {
    Stageable(doc, s.target) && s.at < |doc| && Swaps(doc, s.at, s.target)
    && s.doc == SwapAt(doc, s.at, s.target)
    && (forall j | 0 <= j < s.at :: !Swaps(doc, j, s.target))
  }

  ghost predicate Least(doc: seq<Entry>, k: Key) {
    forall other | Stageable(doc, other) && other != k :: KeyBelow(k, other)
  }

  lemma FirstIsLeast(doc: seq<Entry>, keys: seq<Key>, i: nat)
    requires i < |keys| && Ascending(KeyBelow, keys)
    requires forall k | Stageable(doc, k) :: k in keys
    requires forall h | 0 <= h < i :: !Stageable(doc, keys[h])
    ensures Least(doc, keys[i])
  {
    forall other | Stageable(doc, other) && other != keys[i] ensures KeyBelow(keys[i], other) {
      var h :| 0 <= h < |keys| && keys[h] == other;
      assert h > i;
    }
  }

  method SortedReferences(doc: seq<Entry>) returns (keys: seq<Key>)
    ensures Ascending(KeyBelow, keys)
    ensures forall k | Stageable(doc, k) :: k in keys
  {
    KeyBelowIsTotal();
    keys := SortSet(KeyBelow, Referenced(doc));
    forall k | Stageable(doc, k) ensures k in keys {
      ReferencedWhenCalled(doc, k);
    }
  }

  /** The rewritten document and its target, the least stageable key; nothing
      when no key can be staged. */
  method JumpToGoto(doc: seq<Entry>) returns (out: Option<Staged>)
    ensures out.None? ==> forall k :: !Stageable(doc, k)
    ensures out.Some? ==> IsStaged(doc, out.value) && Least(doc, out.value.target)
  {
    var keys := SortedReferences(doc);
    for i := 0 to |keys|
      invariant forall h | 0 <= h < i :: !Stageable(doc, keys[h])
    {
      out := TryStage(doc, keys[i]);
      if out.Some? {
        FirstIsLeast(doc, keys, i);
        return;
      }
    }
    return None;
  }

  method TryStage(doc: seq<Entry>, k: Key) returns (out: Option<Staged>)
    ensures out.None? ==> !Stageable(doc, k)
    ensures out.Some? ==> IsStaged(doc, out.value) && out.value.target == k
  {
    if |CallerRefs(doc, k)| == 1 && !Hooked(doc, k) && k in ChainKeys(doc) {
      var at := FirstSwap(doc, k);
      if at.Some? {
        return Some(Staged(SwapAt(doc, at.value, k), k, at.value));
      }
    }
    return None;
  }

  // ── what the conversion changes ───────────────────────────────────────

  /** The rewritten rule's expression is a decoded tree. */
  ghost predicate Decoded(doc: seq<Entry>, j: nat)
    requires j < |doc|
  {
    doc[j].Rule? ==> WellFormed(doc[j].expr)
  }

  function LostAt(doc: seq<Entry>, j: nat, k: Key): Value
    requires j < |doc| && Swaps(doc, j, k)
  {
    Lost(doc[j].expr, k.name)
  }

  lemma ConvertedRefs(before: Value, after: Value, lost: Value, t: string, x: string)
    requires Converted(RefBag(before), RefBag(after), RefBag(lost), t)
    ensures RefBag(after)[("jump", x)] + (if x == t then 1 else 0) + RefBag(lost)[("jump", x)]
      == RefBag(before)[("jump", x)]
    ensures RefBag(after)[("goto", x)] + RefBag(lost)[("goto", x)]
      == RefBag(before)[("goto", x)] + (if x == t then 1 else 0)
  {
    var a := RefBag(after) + multiset{("jump", t)} + RefBag(lost);
    var b := RefBag(before) + multiset{("goto", t)};
    assert a[("jump", x)] == b[("jump", x)] && a[("goto", x)] == b[("goto", x)];
  }

  /** What the one rewritten rule hands control to. */
  lemma SwappedRule(doc: seq<Entry>, j: nat, k: Key, x: string)
    requires j < |doc| && Decoded(doc, j) && Swaps(doc, j, k) && |CallerRefs(doc, k)| == 1
    ensures var before, after, lost := doc[j].expr, SwapAt(doc, j, k)[j].expr, LostAt(doc, j, k);
      && (Hands(before, BOTH, x) <==> Hands(after, BOTH, x) || Hands(lost, BOTH, x))
      && (x != k.name ==> (Hands(before, JUMP, x) <==> Hands(after, JUMP, x) || Hands(lost, JUMP, x)))
      && Hands(before, JUMP, k.name) && !Hands(after, JUMP, k.name)
      && Hits(before, x) == Hits(after, x) + Hits(lost, x)
      && (x != k.name ==> Jumps(before, x) == Jumps(after, x) + Jumps(lost, x))
  {
    var before, t := doc[j].expr, k.name;
    var after, lost := Swap(before, t).value, Lost(before, t);
    SwapConverts(before, t);
    ConvertedRefs(before, after, lost, t, x);
    ConvertedRefs(before, after, lost, t, t);
    RefShare(doc, k, j);
    CountsAreHands(before, after, lost, x);
    CountsAreHands(before, after, lost, t);
  }

  lemma CountsAreHands(before: Value, after: Value, lost: Value, x: string)
    ensures Hits(before, x) > 0 <==> Hands(before, BOTH, x)
    ensures Hits(after, x) > 0 <==> Hands(after, BOTH, x)
    ensures Hits(lost, x) > 0 <==> Hands(lost, BOTH, x)
    ensures Jumps(before, x) > 0 <==> Hands(before, JUMP, x)
    ensures Jumps(after, x) > 0 <==> Hands(after, JUMP, x)
    ensures Jumps(lost, x) > 0 <==> Hands(lost, JUMP, x)
  {
    HitsIsHands(before, x);
    HitsIsHands(after, x);
    HitsIsHands(lost, x);
  }

  /** No other rule of the table references a chain that is referenced once. */
  lemma OnlyReference(doc: seq<Entry>, j: nat, k: Key, i: nat)
    requires j < |doc| && i < |doc| && i != j && |CallerRefs(doc, k)| == 1
    requires InTable(doc[j], k.family, k.table) && Hands(doc[j].expr, BOTH, k.name)
    requires InTable(doc[i], k.family, k.table)
    ensures !Hands(doc[i].expr, BOTH, k.name) && !Hands(doc[i].expr, JUMP, k.name)
  {
    if i < j {
      RefShares(doc, k, i, j);
    } else {
      RefShares(doc, k, j, i);
    }
    HitsIsHands(doc[i].expr, k.name);
    HitsIsHands(doc[j].expr, k.name);
  }

  /** The rewritten rule is the only one that can differ. */
  lemma SwapCalls(doc: seq<Entry>, j: nat, k: Key, verbs: seq<string>, other: Key, c: string)
    requires j < |doc| && Decoded(doc, j) && Swaps(doc, j, k) && |CallerRefs(doc, k)| == 1
    requires verbs == BOTH || (verbs == JUMP && other != k)
    ensures CallsDirectly(doc, verbs, other, c) <==>
      CallsDirectly(SwapAt(doc, j, k), verbs, other, c) || LostCall(doc, j, k, verbs, other, c)
  {
    var after := SwapAt(doc, j, k);
    if InTable(doc[j], other.family, other.table) {
      SwappedHere(doc, j, k, verbs, other);
    }
    forall i | 0 <= i < |doc|
      ensures CallsAt(doc, i, verbs, other, c) <==>
        CallsAt(after, i, verbs, other, c) || (i == j && LostCall(doc, j, k, verbs, other, c))
    {}
    CallsSomewhere(doc, verbs, other, c);
    CallsSomewhere(after, verbs, other, c);
  }

  lemma SwappedHere(doc: seq<Entry>, j: nat, k: Key, verbs: seq<string>, other: Key)
    requires j < |doc| && Decoded(doc, j) && Swaps(doc, j, k) && |CallerRefs(doc, k)| == 1
    requires InTable(doc[j], other.family, other.table)
    requires verbs == BOTH || (verbs == JUMP && other != k)
    ensures Hands(doc[j].expr, verbs, other.name) <==>
      Hands(SwapAt(doc, j, k)[j].expr, verbs, other.name) || Hands(LostAt(doc, j, k), verbs, other.name)
  {
    SwappedRule(doc, j, k, other.name);
  }

  predicate CallsAt(doc: seq<Entry>, i: int, verbs: seq<string>, key: Key, c: string) {
    0 <= i < |doc| && InTable(doc[i], key.family, key.table) && doc[i].chain == c
    && Hands(doc[i].expr, verbs, key.name)
  }

  lemma CallsSomewhere(doc: seq<Entry>, verbs: seq<string>, key: Key, c: string)
    ensures CallsDirectly(doc, verbs, key, c) <==> exists i :: CallsAt(doc, i, verbs, key, c)
  {
    if CallsDirectly(doc, verbs, key, c) {
      var e :| e in doc && InTable(e, key.family, key.table) && e.chain == c && Hands(e.expr, verbs, key.name);
      var i :| 0 <= i < |doc| && doc[i] == e;
      assert CallsAt(doc, i, verbs, key, c);
    }
  }

  /** The goto written over handed control to the chain, from this caller. */
  predicate LostCall(doc: seq<Entry>, j: nat, k: Key, verbs: seq<string>, other: Key, c: string)
    requires j < |doc| && Swaps(doc, j, k)
  {
    c == doc[j].chain && InTable(doc[j], other.family, other.table)
    && Hands(LostAt(doc, j, k), verbs, other.name)
  }

  predicate LostMention(doc: seq<Entry>, j: nat, k: Key, map_: Key, c: string)
    requires j < |doc| && Swaps(doc, j, k)
  {
    c == doc[j].chain && InTable(doc[j], map_.family, map_.table) && Mentions(LostAt(doc, j, k), map_.name)
  }

  lemma SwapConsults(doc: seq<Entry>, j: nat, k: Key, map_: Key, c: string)
    requires j < |doc| && Decoded(doc, j) && Swaps(doc, j, k) && |CallerRefs(doc, k)| == 1
    ensures Consults(doc, map_, c) <==>
      Consults(SwapAt(doc, j, k), map_, c) || LostMention(doc, j, k, map_, c)
  {
    var after := SwapAt(doc, j, k);
    SwapMentions(doc[j].expr, k.name, map_.name);
    MentionsCounted(doc[j].expr, map_.name);
    MentionsCounted(after[j].expr, map_.name);
    MentionsCounted(LostAt(doc, j, k), map_.name);
    if e :| e in after && InTable(e, map_.family, map_.table) && e.chain == c && Mentions(e.expr, map_.name) {
      var i :| 0 <= i < |after| && after[i] == e;
      assert doc[i] in doc;
    }
    if e :| e in doc && InTable(e, map_.family, map_.table) && e.chain == c && Mentions(e.expr, map_.name) {
      var i :| 0 <= i < |doc| && doc[i] == e;
      assert after[i] in after;
    }
    assert doc[j] in doc;
  }

  /** A map only the goto written over may have consulted. */
  ghost predicate LostMap(doc: seq<Entry>, j: nat, k: Key, verbs: seq<string>, other: Key, c: string, m: string)
    requires j < |doc| && Swaps(doc, j, k)
  {
    var map_ := Key(other.family, other.table, m);
    LostMention(doc, j, k, map_, c) && Dispatches(doc, verbs, map_, other.name)
  }

  lemma SwapMaps(doc: seq<Entry>, j: nat, k: Key, verbs: seq<string>, other: Key, c: string)
    requires j < |doc| && Decoded(doc, j) && Swaps(doc, j, k) && |CallerRefs(doc, k)| == 1
    ensures CallsThroughMap(doc, verbs, other, c) <==>
      CallsThroughMap(SwapAt(doc, j, k), verbs, other, c)
      || exists m :: LostMap(doc, j, k, verbs, other, c, m)
  {
    var after := SwapAt(doc, j, k);
    assert SameShells(doc, after);
    forall m: string
      ensures var map_ := Key(other.family, other.table, m);
        && Elements(after, map_) == Elements(doc, map_)
        && (Consults(doc, map_, c) <==> Consults(after, map_, c) || LostMention(doc, j, k, map_, c))
    {
      var map_ := Key(other.family, other.table, m);
      ShellsAgree(doc, after, map_);
      SwapConsults(doc, j, k, map_, c);
    }
    if CallsThroughMap(doc, verbs, other, c) && !CallsThroughMap(after, verbs, other, c) {
      var m :| Consults(doc, Key(other.family, other.table, m), c)
               && Dispatches(doc, verbs, Key(other.family, other.table, m), other.name);
      assert LostMap(doc, j, k, verbs, other, c, m);
    }
  }

  /** What the goto written over reached, by itself or through a map. */
  ghost predicate LostReach(doc: seq<Entry>, j: nat, k: Key, verbs: seq<string>, other: Key)
    requires j < |doc| && Swaps(doc, j, k)
  {
    var c := doc[j].chain;
    LostCall(doc, j, k, verbs, other, c) || exists m :: LostMap(doc, j, k, verbs, other, c, m)
  }

  // ── what is reached without the goto written over ─────────────────────

  /** The i-th rule calls the chain, if it is the rewritten one oftener than the
      goto written over does. */
  predicate KeepsCall(doc: seq<Entry>, j: nat, k: Key, verbs: seq<string>, other: Key, c: string, i: int)
    requires j < |doc| && Swaps(doc, j, k)
  {
    CallsAt(doc, i, verbs, other, c)
    && (i == j ==> HitsBy(verbs, doc[j].expr, other.name) > HitsBy(verbs, LostAt(doc, j, k), other.name))
  }

  /** It consults the map, if it is the rewritten one oftener than that goto does. */
  predicate KeepsMention(doc: seq<Entry>, j: nat, k: Key, map_: Key, c: string, i: int)
    requires j < |doc| && Swaps(doc, j, k)
  {
    ConsultsAt(doc, i, map_, c)
    && (i == j ==> MentionCount(doc[j].expr, map_.name) > MentionCount(LostAt(doc, j, k), map_.name))
  }

  predicate ConsultsAt(doc: seq<Entry>, i: int, map_: Key, c: string) {
    0 <= i < |doc| && InTable(doc[i], map_.family, map_.table) && doc[i].chain == c
    && Mentions(doc[i].expr, map_.name)
  }

  ghost predicate KeepsConsulting(doc: seq<Entry>, j: nat, k: Key, map_: Key, c: string)
    requires j < |doc| && Swaps(doc, j, k)
  {
    exists i :: KeepsMention(doc, j, k, map_, c, i)
  }

  /** Some map that hands control to the chain is consulted without that goto. */
  ghost predicate KeepsMap(doc: seq<Entry>, j: nat, k: Key, verbs: seq<string>, other: Key, c: string)
    requires j < |doc| && Swaps(doc, j, k)
  {
    exists m :: KeepsConsulting(doc, j, k, Key(other.family, other.table, m), c)
                && Dispatches(doc, verbs, Key(other.family, other.table, m), other.name)
  }

  /** Reached from the same chain without it. */
  ghost predicate StillReached(doc: seq<Entry>, j: nat, k: Key, verbs: seq<string>, other: Key)
    requires j < |doc| && Swaps(doc, j, k)
  {
    LostReach(doc, j, k, verbs, other) ==>
      (exists i :: KeepsCall(doc, j, k, verbs, other, doc[j].chain, i))
      || KeepsMap(doc, j, k, verbs, other, doc[j].chain)
  }

  lemma KeptCalls(doc: seq<Entry>, j: nat, k: Key, verbs: seq<string>, other: Key, c: string)
    requires j < |doc| && Decoded(doc, j) && Swaps(doc, j, k) && |CallerRefs(doc, k)| == 1
    requires verbs == BOTH || (verbs == JUMP && other != k)
    ensures CallsDirectly(SwapAt(doc, j, k), verbs, other, c) <==>
      exists i :: KeepsCall(doc, j, k, verbs, other, c, i)
  {
    var after := SwapAt(doc, j, k);
    if InTable(doc[j], other.family, other.table) {
      KeptHere(doc, j, k, verbs, other);
    }
    forall i ensures CallsAt(after, i, verbs, other, c) <==> KeepsCall(doc, j, k, verbs, other, c, i) {}
    CallsSomewhere(after, verbs, other, c);
  }

  /** In the rewritten rule itself. */
  lemma KeptHere(doc: seq<Entry>, j: nat, k: Key, verbs: seq<string>, other: Key)
    requires j < |doc| && Decoded(doc, j) && Swaps(doc, j, k) && |CallerRefs(doc, k)| == 1
    requires InTable(doc[j], other.family, other.table)
    requires verbs == BOTH || (verbs == JUMP && other != k)
    ensures var before, after := doc[j].expr, SwapAt(doc, j, k)[j].expr;
      Hands(after, verbs, other.name) <==>
        Hands(before, verbs, other.name)
        && HitsBy(verbs, before, other.name) > HitsBy(verbs, LostAt(doc, j, k), other.name)
  {
    SwappedRule(doc, j, k, other.name);
    CountsAreHands(doc[j].expr, SwapAt(doc, j, k)[j].expr, LostAt(doc, j, k), other.name);
    assert |BOTH| != |JUMP|;
  }

  lemma KeptConsults(doc: seq<Entry>, j: nat, k: Key, map_: Key, c: string)
    requires j < |doc| && Decoded(doc, j) && Swaps(doc, j, k)
    ensures Consults(SwapAt(doc, j, k), map_, c) <==> KeepsConsulting(doc, j, k, map_, c)
  {
    var after := SwapAt(doc, j, k);
    SwapMentions(doc[j].expr, k.name, map_.name);
    MentionsCounted(doc[j].expr, map_.name);
    MentionsCounted(after[j].expr, map_.name);
    forall i ensures ConsultsAt(after, i, map_, c) <==> KeepsMention(doc, j, k, map_, c, i) {}
    ConsultsSomewhere(after, map_, c);
  }

  lemma ConsultsSomewhere(doc: seq<Entry>, map_: Key, c: string)
    ensures Consults(doc, map_, c) <==> exists i :: ConsultsAt(doc, i, map_, c)
  {
    if Consults(doc, map_, c) {
      var e :| e in doc && InTable(e, map_.family, map_.table) && e.chain == c && Mentions(e.expr, map_.name);
      var i :| 0 <= i < |doc| && doc[i] == e;
      assert ConsultsAt(doc, i, map_, c);
    }
  }

  lemma KeptMaps(doc: seq<Entry>, j: nat, k: Key, verbs: seq<string>, other: Key, c: string)
    requires j < |doc| && Decoded(doc, j) && Swaps(doc, j, k)
    ensures CallsThroughMap(SwapAt(doc, j, k), verbs, other, c) <==> KeepsMap(doc, j, k, verbs, other, c)
  {
    var after := SwapAt(doc, j, k);
    assert SameShells(doc, after);
    forall m: string
      ensures var map_ := Key(other.family, other.table, m);
        && Elements(after, map_) == Elements(doc, map_)
        && (Consults(after, map_, c) <==> KeepsConsulting(doc, j, k, map_, c))
    {
      ShellsAgree(doc, after, Key(other.family, other.table, m));
      KeptConsults(doc, j, k, Key(other.family, other.table, m), c);
    }
  }

  lemma SwapReach(doc: seq<Entry>, j: nat, k: Key, verbs: seq<string>, other: Key, c: string)
    requires j < |doc| && Decoded(doc, j) && Swaps(doc, j, k) && |CallerRefs(doc, k)| == 1
    requires verbs == BOTH || (verbs == JUMP && other != k)
    ensures Calls(doc, verbs, other, c) <==>
      Calls(SwapAt(doc, j, k), verbs, other, c) || (c == doc[j].chain && LostReach(doc, j, k, verbs, other))
  {
    SwapCalls(doc, j, k, verbs, other, c);
    SwapMaps(doc, j, k, verbs, other, c);
  }

  lemma StillReachedIs(doc: seq<Entry>, j: nat, k: Key, verbs: seq<string>, other: Key)
    requires j < |doc| && Decoded(doc, j) && Swaps(doc, j, k) && |CallerRefs(doc, k)| == 1
    requires verbs == BOTH || (verbs == JUMP && other != k)
    ensures StillReached(doc, j, k, verbs, other) <==>
      (LostReach(doc, j, k, verbs, other) ==> Calls(SwapAt(doc, j, k), verbs, other, doc[j].chain))
  {
    KeptCalls(doc, j, k, verbs, other, doc[j].chain);
    KeptMaps(doc, j, k, verbs, other, doc[j].chain);
  }

  lemma CallersKeptIff(doc: seq<Entry>, j: nat, k: Key, verbs: seq<string>, other: Key)
    requires j < |doc| && Decoded(doc, j) && Swaps(doc, j, k) && |CallerRefs(doc, k)| == 1
    requires verbs == BOTH || (verbs == JUMP && other != k)
    ensures Callers(SwapAt(doc, j, k), verbs, other) == Callers(doc, verbs, other) <==>
      StillReached(doc, j, k, verbs, other)
  {
    var after := SwapAt(doc, j, k);
    StillReachedIs(doc, j, k, verbs, other);
    forall c
      ensures c in Callers(after, verbs, other) <==> Calls(after, verbs, other, c)
      ensures c in Callers(doc, verbs, other) <==>
        Calls(after, verbs, other, c) || (c == doc[j].chain && LostReach(doc, j, k, verbs, other))
    {
      CallersExact(after, verbs, other, c);
      CallersExact(doc, verbs, other, c);
      SwapReach(doc, j, k, verbs, other, c);
    }
  }

  /** Rows over the same shells differ only by the callers they are given. */
  lemma ShellRows(a: seq<Entry>, b: seq<Entry>, f: Key -> set<string>)
    requires SameShells(a, b)
    ensures Rows(a, f) == Rows(b, f)
    ensures forall k | k in ChainKeys(a) :: k in ChainKeys(b) && RowWith(a, k, f(k)) == RowWith(b, k, f(k))
  {
    forall k | k in ChainKeys(a)
      ensures k in ChainKeys(b) && RowWith(a, k, f(k)) == RowWith(b, k, f(k))
    {
      ShellsAgree(a, b, k);
      ShellChain(a, b, k);
    }
    ShellsAgree(a, b, Key("", "", ""));
    var keys := ChainKeys(a);
    forall i | 0 <= i < |keys| ensures Rows(a, f)[i] == Rows(b, f)[i] {
      assert keys[i] in keys;
    }
  }

  /** After the conversion the correct walk publishes the same rows exactly when
      every declared chain the goto written over reached is still reached from the
      same chain: the operator is the harmless one it is meant to be just then. */
  lemma CorrectWalkUnmovedIff(doc: seq<Entry>, j: nat, k: Key)
    requires j < |doc| && Decoded(doc, j) && Swaps(doc, j, k) && Stageable(doc, k)
    ensures var after := SwapAt(doc, j, k);
      Rows(after, CallersOf(after, BOTH)) == Rows(doc, CallersOf(doc, BOTH)) <==>
        forall other | other in ChainKeys(doc) :: StillReached(doc, j, k, BOTH, other)
  {
    var after := SwapAt(doc, j, k);
    assert SameShells(doc, after);
    ShellRows(doc, after, CallersOf(after, BOTH));
    RowsAgree(doc, CallersOf(after, BOTH), CallersOf(doc, BOTH));
    forall other
      ensures Callers(after, BOTH, other) == Callers(doc, BOTH, other) <==> StillReached(doc, j, k, BOTH, other)
    {
      CallersKeptIff(doc, j, k, BOTH, other);
    }
  }

  /** Where the converted node held no goto nothing was written over. */
  lemma CorrectWalkUnmoved(doc: seq<Entry>, j: nat, k: Key)
    requires j < |doc| && Decoded(doc, j) && Swaps(doc, j, k) && Stageable(doc, k)
    requires LostAt(doc, j, k).Null?
    ensures var after := SwapAt(doc, j, k);
      Rows(after, CallersOf(after, BOTH)) == Rows(doc, CallersOf(doc, BOTH))
  {
    forall other ensures !LostReach(doc, j, k, BOTH, other) {}
    CorrectWalkUnmovedIff(doc, j, k);
  }

  ghost predicate SameRow(a: seq<Entry>, b: seq<Entry>, verbs: seq<string>, k: Key) {
    k in ChainKeys(a) && k in ChainKeys(b)
    && RowWith(a, k, Callers(a, verbs, k)) == RowWith(b, k, Callers(b, verbs, k))
  }

  lemma OtherRowIff(doc: seq<Entry>, j: nat, k: Key, other: Key)
    requires j < |doc| && Decoded(doc, j) && Swaps(doc, j, k) && |CallerRefs(doc, k)| == 1
    requires other in ChainKeys(doc) && other != k
    ensures SameRow(doc, SwapAt(doc, j, k), JUMP, other) <==> StillReached(doc, j, k, JUMP, other)
  {
    var after := SwapAt(doc, j, k);
    assert SameShells(doc, after);
    ShellRows(doc, after, CallersOf(after, JUMP));
    CallersKeptIff(doc, j, k, JUMP, other);
    ReachInjective(ChainAt(doc, other).hooked, Callers(after, JUMP, other), Callers(doc, JUMP, other));
  }

  /** No rule jumps to the target afterwards. */
  lemma NoneJumps(doc: seq<Entry>, j: nat, k: Key, c: string)
    requires j < |doc| && Decoded(doc, j) && Swaps(doc, j, k) && |CallerRefs(doc, k)| == 1
    requires Hands(doc[j].expr, BOTH, k.name) && !Hands(SwapAt(doc, j, k)[j].expr, JUMP, k.name)
    ensures !CallsDirectly(SwapAt(doc, j, k), JUMP, k, c)
  {
    var after := SwapAt(doc, j, k);
    forall i ensures !CallsAt(after, i, JUMP, k, c) {
      if 0 <= i < |doc| && i != j && InTable(doc[i], k.family, k.table) {
        OnlyReference(doc, j, k, i);
      }
    }
    CallsSomewhere(after, JUMP, k, c);
  }

  lemma TargetJumped(doc: seq<Entry>, j: nat, k: Key)
    requires j < |doc| && Decoded(doc, j) && Swaps(doc, j, k) && |CallerRefs(doc, k)| == 1
    ensures Hands(doc[j].expr, BOTH, k.name) && !Hands(SwapAt(doc, j, k)[j].expr, JUMP, k.name)
    ensures CallsDirectly(doc, JUMP, k, doc[j].chain)
  {
    SwappedRule(doc, j, k, k.name);
    HitsIsHands(doc[j].expr, k.name);
    assert doc[j] in doc;
  }

  lemma TargetLost(doc: seq<Entry>, j: nat, k: Key)
    requires j < |doc| && Decoded(doc, j) && Swaps(doc, j, k) && |CallerRefs(doc, k)| == 1
    ensures doc[j].chain in Callers(doc, JUMP, k)
    ensures Callers(SwapAt(doc, j, k), JUMP, k) == {} <==> forall c :: !KeepsMap(doc, j, k, JUMP, k, c)
  {
    var after := SwapAt(doc, j, k);
    TargetJumped(doc, j, k);
    CallersExact(doc, JUMP, k, doc[j].chain);
    forall c ensures c in Callers(after, JUMP, k) <==> KeepsMap(doc, j, k, JUMP, k, c) {
      CallersExact(after, JUMP, k, c);
      NoneJumps(doc, j, k, c);
      KeptMaps(doc, j, k, JUMP, k, c);
    }
  }

  lemma TargetRow(doc: seq<Entry>, j: nat, k: Key)
    requires j < |doc| && Decoded(doc, j) && Swaps(doc, j, k) && Stageable(doc, k)
    ensures k in ChainKeys(SwapAt(doc, j, k))
    ensures RowWith(doc, k, Callers(doc, JUMP, k)).reach.JumpedFrom?
    ensures var after := SwapAt(doc, j, k);
      RowWith(after, k, Callers(after, JUMP, k)).reach == Unreferenced <==>
        forall c :: !KeepsMap(doc, j, k, JUMP, k, c)
  {
    var after := SwapAt(doc, j, k);
    assert SameShells(doc, after);
    ShellChain(doc, after, k);
    TargetLost(doc, j, k);
    assert !ChainAt(doc, k).hooked;
    BelowIsTotal();
  }

  /** After the conversion the goto-blind walk has lost exactly the target's
      own caller: its row was JumpedFrom, and is Unreferenced unless a used map
      still reaches it by a jump. Every other row stands, again but for what the
      goto written over alone reached by a jump. */
  lemma GotoBlindLosesTarget(doc: seq<Entry>, j: nat, k: Key)
    requires j < |doc| && Decoded(doc, j) && Swaps(doc, j, k) && Stageable(doc, k)
    ensures k in ChainKeys(SwapAt(doc, j, k))
    ensures RowWith(doc, k, Callers(doc, JUMP, k)).reach.JumpedFrom?
    ensures var after := SwapAt(doc, j, k);
      RowWith(after, k, Callers(after, JUMP, k)).reach == Unreferenced <==>
        forall c :: !KeepsMap(doc, j, k, JUMP, k, c)
    ensures forall other | other in ChainKeys(doc) && other != k ::
      SameRow(doc, SwapAt(doc, j, k), JUMP, other) <==> StillReached(doc, j, k, JUMP, other)
  {
    TargetRow(doc, j, k);
    forall other | other in ChainKeys(doc) && other != k
      ensures SameRow(doc, SwapAt(doc, j, k), JUMP, other) <==> StillReached(doc, j, k, JUMP, other)
    {
      OtherRowIff(doc, j, k, other);
    }
  }
}
