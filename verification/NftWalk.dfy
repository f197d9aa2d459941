/** The nft reachability walk of a5_goto_blind.py, with the verb table a
    parameter: ("jump", "goto") is the correct walk, ("jump") the goto-blind one. */
module NftWalk {
  import opened Options
  import opened Document
  import opened Sorting

  const JUMP: seq<string> := ["jump"]
  const BOTH: seq<string> := ["jump", "goto"]

  datatype Key = Key(family: string, table: string, name: string)

  /** One object of an nft document. `hooked` is the truth of `hook`, and
      `passed` the members a chain row carries through untouched. */
  datatype Entry =
    | Chain(key: Key, hooked: bool, handle: Option<int>, passed: seq<Member>)
    | Rule(family: string, table: string, chain: string, handle: Option<int>, expr: Value)
    | Map(key: Key, handle: Option<int>, elem: Value)
    | Other(handle: Option<int>)

  // ── what an expression tree hands control to ──────────────────────────

  /** The chain a `{verb: {"target": ...}}` member of one node names. */
  function Target(members: seq<Member>, verb: string): Option<string> {
    var held: Option<Value> := Get(members, verb);
    match held
    case Some(Obj(body)) =>
      var target: Option<Value> := Get(body, "target");
      (match target
       case Some(Text(t)) => if t == "" then None else Some(t)
       case _ => None)
    case _ => None
  }

  predicate Names(members: seq<Member>, verbs: seq<string>, t: string) {
    exists verb | verb in verbs :: Target(members, verb) == Some(t)
  }

  /** Some node of the tree, at any depth, hands control to `t`. */
  predicate Hands(node: Value, verbs: seq<string>, t: string) {
    match node
    case Obj(members) => Names(members, verbs, t) || exists m | m in members :: Hands(m.value, verbs, t)
    case Arr(items) => exists x | x in items :: Hands(x, verbs, t)
    case _ => false
  }

  /** Some string of the tree, at any depth, is "@name". */
  predicate Mentions(node: Value, name: string) {
    match node
    case Text(s) => s == "@" + name
    case Obj(members) => exists m | m in members :: Mentions(m.value, name)
    case Arr(items) => exists x | x in items :: Mentions(x, name)
    case _ => false
  }

  /** `descend`, appending to an enclosing list each target it has not met. */
  method Descend(node: Value, verbs: seq<string>, before: seq<string>) returns (found: seq<string>)
    requires Distinct(before)
    ensures Distinct(found)
    ensures forall t :: t in found <==> t in before || Hands(node, verbs, t)
    decreases node
  {
    found := before;
    match node
    case Obj(members) =>
      for i := 0 to |verbs|
        invariant Distinct(found)
        invariant forall t :: t in found <==> t in before || Names(members, verbs[..i], t)
      {
        assert verbs[..i + 1] == verbs[..i] + [verbs[i]];
        var target := Target(members, verbs[i]);
        if target.Some? && target.value !in found {
          found := found + [target.value];
        }
      }
      assert verbs[..|verbs|] == verbs;
      for i := 0 to |members|
        invariant Distinct(found)
        invariant forall t :: t in found <==>
          t in before || Names(members, verbs, t)
          || exists m | m in members[..i] :: Hands(m.value, verbs, t)
      {
        assert members[..i + 1] == members[..i] + [members[i]];
        found := Descend(members[i].value, verbs, found);
      }
      assert members[..|members|] == members;
    case Arr(items) =>
      for i := 0 to |items|
        invariant Distinct(found)
        invariant forall t :: t in found <==>
          t in before || exists x | x in items[..i] :: Hands(x, verbs, t)
      {
        assert items[..i + 1] == items[..i] + [items[i]];
        assert items[i] in items[..i + 1];
        found := Descend(items[i], verbs, found);
      }
      assert items[..|items|] == items;
    case _ =>
  }

  method VerdictTargets(node: Value, verbs: seq<string>) returns (found: seq<string>)
    ensures Distinct(found) && forall t :: t in found <==> Hands(node, verbs, t)
  {
    found := Descend(node, verbs, []);
  }

  method MapReferences(node: Value) returns (found: set<string>)
    ensures forall name :: name in found <==> Mentions(node, name)
    decreases node
  {
    found := {};
    match node
    case Text(s) =>
      if "@" <= s {
        assert s == "@" + s[1..];
        found := {s[1..]};
      }
    case Obj(members) =>
      for i := 0 to |members|
        invariant forall name :: name in found <==>
          exists m | m in members[..i] :: Mentions(m.value, name)
      {
        assert members[..i + 1] == members[..i] + [members[i]];
        var more := MapReferences(members[i].value);
        found := found + more;
      }
      assert members[..|members|] == members;
    case Arr(items) =>
      for i := 0 to |items|
        invariant forall name :: name in found <==> exists x | x in items[..i] :: Mentions(x, name)
      {
        assert items[..i + 1] == items[..i] + [items[i]];
        assert items[i] in items[..i + 1];
        var more := MapReferences(items[i]);
        found := found + more;
      }
      assert items[..|items|] == items;
    case _ =>
  }

  // ── the reference definition ──────────────────────────────────────────

  predicate InTable(e: Entry, family: string, table: string) {
    e.Rule? && e.family == family && e.table == table
  }

  /** Some rule of chain `c` hands control to the key's chain itself. */
  ghost predicate CallsDirectly(doc: seq<Entry>, verbs: seq<string>, key: Key, c: string) {
    exists e | e in doc ::
      InTable(e, key.family, key.table) && e.chain == c && Hands(e.expr, verbs, key.name)
  }

  ghost predicate Consults(doc: seq<Entry>, map_: Key, c: string) {
    exists e | e in doc ::
      InTable(e, map_.family, map_.table) && e.chain == c && Mentions(e.expr, map_.name)
  }

  /** The elements of a named map: its last entry's, as a Python dict keeps it. */
  function Elements(doc: seq<Entry>, map_: Key): Option<Value> {
    if doc == [] then None
    else
      var e := doc[|doc| - 1];
      if e.Map? && e.key == map_ then Some(e.elem) else Elements(doc[..|doc| - 1], map_)
  }

  ghost predicate Dispatches(doc: seq<Entry>, verbs: seq<string>, map_: Key, t: string) {
    Elements(doc, map_).Some? && Hands(Elements(doc, map_).value, verbs, t)
  }

  /** Some rule of chain `c` consults a named map of its own table that hands
      control to the key's chain. */
  ghost predicate CallsThroughMap(doc: seq<Entry>, verbs: seq<string>, key: Key, c: string) {
    exists m :: Consults(doc, Key(key.family, key.table, m), c)
                && Dispatches(doc, verbs, Key(key.family, key.table, m), key.name)
  }

  ghost predicate Calls(doc: seq<Entry>, verbs: seq<string>, key: Key, c: string) {
    CallsDirectly(doc, verbs, key, c) || CallsThroughMap(doc, verbs, key, c)
  }

  function RuleChains(doc: seq<Entry>): set<string> {
    set e | e in doc && e.Rule? :: e.chain
  }

  ghost function Callers(doc: seq<Entry>, verbs: seq<string>, key: Key): set<string> {
    set c | c in RuleChains(doc) && Calls(doc, verbs, key, c)
  }

  ghost function DirectCallers(doc: seq<Entry>, verbs: seq<string>, key: Key): set<string> {
    set c | c in RuleChains(doc) && CallsDirectly(doc, verbs, key, c)
  }

  lemma CallersExact(doc: seq<Entry>, verbs: seq<string>, key: Key, c: string)
    ensures c in Callers(doc, verbs, key) <==> Calls(doc, verbs, key, c)
    ensures c in DirectCallers(doc, verbs, key) <==> CallsDirectly(doc, verbs, key, c)
  {}

  /** What a row says about who reaches the chain. */
  datatype Reach = JumpedFrom(callers: seq<string>) | Unreferenced | Silent

  datatype Row = Row(chain: Entry, rules: nat, reach: Reach)

  function RuleCount(doc: seq<Entry>, key: Key): nat {
    if doc == [] then 0
    else
      var e := doc[|doc| - 1];
      RuleCount(doc[..|doc| - 1], key)
      + if InTable(e, key.family, key.table) && e.chain == key.name then 1 else 0
  }

  /** The declared chains in dict order: first positions. */
  function ChainKeys(doc: seq<Entry>): (keys: seq<Key>)
    ensures forall k :: k in keys <==> exists e | e in doc :: e.Chain? && e.key == k
  {
    if doc == [] then []
    else
      var before, e := ChainKeys(doc[..|doc| - 1]), doc[|doc| - 1];
      assert doc == doc[..|doc| - 1] + [e];
      if e.Chain? && e.key !in before then before + [e.key] else before
  }

  /** The last entry a declared chain was given. */
  function ChainAt(doc: seq<Entry>, key: Key): (e: Entry)
    requires exists e | e in doc :: e.Chain? && e.key == key
    ensures e in doc && e.Chain? && e.key == key
  {
    var e := doc[|doc| - 1];
    if e.Chain? && e.key == key then e
    else
      assert doc == doc[..|doc| - 1] + [e];
      ChainAt(doc[..|doc| - 1], key)
  }

  ghost function ReachOf(hooked: bool, callers: set<string>): Reach {
    BelowIsTotal();
    if callers != {} then JumpedFrom(Sorted(Below, callers))
    else if hooked then Silent else Unreferenced
  }

  /** The row of a declared chain whose callers are `callers`. */
  ghost function RowWith(doc: seq<Entry>, key: Key, callers: set<string>): Row
    requires key in ChainKeys(doc)
  {
    Row(ChainAt(doc, key), RuleCount(doc, key), ReachOf(ChainAt(doc, key).hooked, callers))
  }

  ghost function Rows(doc: seq<Entry>, callers: Key -> set<string>): seq<Row> {
    var keys := ChainKeys(doc);
    seq(|keys|, i requires 0 <= i < |keys| => RowWith(doc, keys[i], callers(keys[i])))
  }

  // ── the accumulating loop and the deferred join ───────────────────────

  type Sets = map<Key, set<string>>

  function At(m: Sets, k: Key): set<string> {
    if k in m then m[k] else {}
  }

  /** `setdefault((family, table, name), set()).add(caller)` for each name. */
  method AddCaller(m: Sets, family: string, table: string, names: set<string>, caller: string)
    returns (out: Sets)
    ensures forall k ::
      At(out, k) == At(m, k)
        + (if k.family == family && k.table == table && k.name in names then {caller} else {})
  {
    out := m;
    var todo := names;
    while todo != {}
      invariant todo <= names
      invariant forall k ::
        At(out, k) == At(m, k)
          + (if k.family == family && k.table == table && k.name in names - todo then {caller} else {})
    {
      var name :| name in todo;
      todo := todo - {name};
      var k := Key(family, table, name);
      out := out[k := At(out, k) + {caller}];
    }
  }

  // What the walk has established about the entries read so far.

  ghost predicate Counted(doc: seq<Entry>, counts: map<Key, nat>) {
    forall k :: (if k in counts then counts[k] else 0) == RuleCount(doc, k)
  }

  ghost predicate Reached(doc: seq<Entry>, verbs: seq<string>, jumped: Sets) {
    forall k :: At(jumped, k) == DirectCallers(doc, verbs, k)
  }

  ghost predicate Used(doc: seq<Entry>, users: Sets) {
    forall k, c :: c in At(users, k) <==> Consults(doc, k, c)
  }

  ghost predicate Listed(doc: seq<Entry>, verbs: seq<string>, targets: map<Key, set<string>>) {
    (forall k :: k in targets <==> Elements(doc, k).Some?)
    && (forall k, t :: k in targets ==> (t in targets[k] <==> Dispatches(doc, verbs, k, t)))
  }

  function ToSet<T>(s: seq<T>): set<T> {
    set x | x in s
  }

  lemma GrowElements(doc: seq<Entry>, e: Entry, k: Key)
    ensures Elements(doc + [e], k)
      == if e.Map? && e.key == k then Some(e.elem) else Elements(doc, k)
    ensures RuleCount(doc + [e], k) == RuleCount(doc, k)
      + if InTable(e, k.family, k.table) && e.chain == k.name then 1 else 0
  {
    assert (doc + [e])[..|doc + [e]| - 1] == doc;
  }

  lemma GrowCallers(doc: seq<Entry>, e: Entry, verbs: seq<string>, k: Key)
    ensures forall c :: CallsDirectly(doc + [e], verbs, k, c) <==>
      CallsDirectly(doc, verbs, k, c)
      || (InTable(e, k.family, k.table) && e.chain == c && Hands(e.expr, verbs, k.name))
    ensures DirectCallers(doc + [e], verbs, k) == DirectCallers(doc, verbs, k)
      + (if InTable(e, k.family, k.table) && Hands(e.expr, verbs, k.name) then {e.chain} else {})
    ensures forall c :: Consults(doc + [e], k, c) <==>
      Consults(doc, k, c) || (InTable(e, k.family, k.table) && e.chain == c && Mentions(e.expr, k.name))
  {
    assert forall x :: x in doc + [e] <==> x in doc || x == e;
    forall c ensures CallsDirectly(doc + [e], verbs, k, c) <==>
      CallsDirectly(doc, verbs, k, c)
      || (InTable(e, k.family, k.table) && e.chain == c && Hands(e.expr, verbs, k.name)) {}
    assert RuleChains(doc + [e]) == RuleChains(doc) + (if e.Rule? then {e.chain} else {});
    forall c ensures c in DirectCallers(doc + [e], verbs, k) <==>
      c in DirectCallers(doc, verbs, k)
      || (InTable(e, k.family, k.table) && Hands(e.expr, verbs, k.name) && c == e.chain)
    {
      CallersExact(doc, verbs, k, c);
      CallersExact(doc + [e], verbs, k, c);
    }
  }

  function CountRule(counts: map<Key, nat>, e: Entry): map<Key, nat>
    requires e.Rule?
  {
    var key := Key(e.family, e.table, e.chain);
    counts[key := (if key in counts then counts[key] else 0) + 1]
  }

  lemma CountRuleGrows(doc: seq<Entry>, e: Entry, counts: map<Key, nat>)
    requires Counted(doc, counts)
    ensures e.Rule? ==> Counted(doc + [e], CountRule(counts, e))
    ensures !e.Rule? ==> Counted(doc + [e], counts)
  {
    forall k ensures RuleCount(doc + [e], k) ==
      RuleCount(doc, k) + if InTable(e, k.family, k.table) && e.chain == k.name then 1 else 0
    {
      GrowElements(doc, e, k);
    }
  }

  method ReachRule(ghost doc: seq<Entry>, e: Entry, verbs: seq<string>, jumped: Sets)
    returns (out: Sets)
    requires e.Rule? && Reached(doc, verbs, jumped)
    ensures Reached(doc + [e], verbs, out)
  {
    var found := VerdictTargets(e.expr, verbs);
    out := AddCaller(jumped, e.family, e.table, ToSet(found), e.chain);
    forall k ensures At(out, k) == DirectCallers(doc + [e], verbs, k) {
      GrowCallers(doc, e, verbs, k);
    }
  }

  method UseRule(ghost doc: seq<Entry>, e: Entry, users: Sets) returns (out: Sets)
    requires e.Rule? && Used(doc, users)
    ensures Used(doc + [e], out)
  {
    var refs := MapReferences(e.expr);
    out := AddCaller(users, e.family, e.table, refs, e.chain);
    forall k ensures forall c :: c in At(out, k) <==> Consults(doc + [e], k, c) {
      GrowCallers(doc, e, [], k);
    }
  }

  /** A named map entry replaces what its key held. */
  lemma ListMap(doc: seq<Entry>, e: Entry, verbs: seq<string>, targets: map<Key, set<string>>,
                found: set<string>)
    requires e.Map? && Listed(doc, verbs, targets)
    requires forall t :: t in found <==> Hands(e.elem, verbs, t)
    ensures Listed(doc + [e], verbs, targets[e.key := found])
  {
    forall k ensures Elements(doc + [e], k) ==
      if e.key == k then Some(e.elem) else Elements(doc, k)
    {
      GrowElements(doc, e, k);
    }
    forall k, t ensures Dispatches(doc + [e], verbs, k, t) <==>
      if e.key == k then Hands(e.elem, verbs, t) else Dispatches(doc, verbs, k, t) {}
  }

  lemma Unaffected(doc: seq<Entry>, e: Entry, verbs: seq<string>, jumped: Sets, users: Sets,
                   targets: map<Key, set<string>>)
    ensures !e.Rule? && Reached(doc, verbs, jumped) ==> Reached(doc + [e], verbs, jumped)
    ensures !e.Rule? && Used(doc, users) ==> Used(doc + [e], users)
    ensures !e.Map? && Listed(doc, verbs, targets) ==> Listed(doc + [e], verbs, targets)
  {
    forall k
      ensures !e.Map? ==> Elements(doc + [e], k) == Elements(doc, k)
      ensures !e.Rule? ==> DirectCallers(doc + [e], verbs, k) == DirectCallers(doc, verbs, k)
      ensures !e.Rule? ==> forall c :: Consults(doc + [e], k, c) <==> Consults(doc, k, c)
    {
      GrowElements(doc, e, k);
      GrowCallers(doc, e, verbs, k);
    }
    if !e.Map? {
      forall k, t ensures Dispatches(doc + [e], verbs, k, t) <==> Dispatches(doc, verbs, k, t) {}
    }
  }

  /** The join: every user of a map is a caller of what the map hands to. */
  method Join(jumped: Sets, users: Sets, targets: map<Key, set<string>>) returns (out: Sets)
    ensures forall k, c :: c in At(out, k) <==>
      c in At(jumped, k)
      || exists m :: Key(k.family, k.table, m) in targets
           && k.name in targets[Key(k.family, k.table, m)] && c in At(users, Key(k.family, k.table, m))
  {
    out := jumped;
    var todo := targets.Keys;
    while todo != {}
      invariant todo <= targets.Keys
      invariant forall k, c :: c in At(out, k) <==>
        c in At(jumped, k)
        || exists m :: Key(k.family, k.table, m) in targets.Keys - todo
             && k.name in targets[Key(k.family, k.table, m)]
             && c in At(users, Key(k.family, k.table, m))
    {
      var map_ :| map_ in todo;
      todo := todo - {map_};
      var callers := At(users, map_);
      if callers != {} {
        out := AddCallers(out, map_, targets[map_], callers);
      }
      assert map_ == Key(map_.family, map_.table, map_.name);
    }
  }

  method AddCallers(m: Sets, map_: Key, names: set<string>, callers: set<string>)
    returns (out: Sets)
    ensures forall k ::
      At(out, k) == At(m, k)
        + (if k.family == map_.family && k.table == map_.table && k.name in names then callers else {})
  {
    out := m;
    var todo := names;
    while todo != {}
      invariant todo <= names
      invariant forall k ::
        At(out, k) == At(m, k)
          + (if k.family == map_.family && k.table == map_.table && k.name in names - todo
             then callers else {})
    {
      var name :| name in todo;
      todo := todo - {name};
      var k := Key(map_.family, map_.table, name);
      out := out[k := At(out, k) + callers];
    }
  }

  lemma JoinIsCallers(doc: seq<Entry>, verbs: seq<string>, jumped: Sets, users: Sets,
                      targets: map<Key, set<string>>, joined: Sets, k: Key)
    requires Reached(doc, verbs, jumped) && Used(doc, users) && Listed(doc, verbs, targets)
    requires forall c :: c in At(joined, k) <==>
      c in At(jumped, k)
      || exists m :: Key(k.family, k.table, m) in targets
           && k.name in targets[Key(k.family, k.table, m)] && c in At(users, Key(k.family, k.table, m))
    ensures At(joined, k) == Callers(doc, verbs, k)
  {
    forall c ensures c in At(joined, k) <==> c in Callers(doc, verbs, k) {
      CallersExact(doc, verbs, k, c);
      assert c in At(jumped, k) <==> CallsDirectly(doc, verbs, k, c);
      forall m
        ensures Key(k.family, k.table, m) in targets
          && k.name in targets[Key(k.family, k.table, m)] && c in At(users, Key(k.family, k.table, m))
          <==> Consults(doc, Key(k.family, k.table, m), c)
               && Dispatches(doc, verbs, Key(k.family, k.table, m), k.name) {}
    }
  }

  ghost function CallersOf(doc: seq<Entry>, verbs: seq<string>): Key -> set<string> {
    k => Callers(doc, verbs, k)
  }

  ghost predicate Found(doc: seq<Entry>, keys: seq<Key>, chains: map<Key, Entry>) {
    keys == ChainKeys(doc) && (forall k :: k in chains <==> k in keys)
    && forall k | k in chains :: chains[k] == ChainAt(doc, k)
  }

  lemma GrowFound(doc: seq<Entry>, e: Entry, keys: seq<Key>, chains: map<Key, Entry>)
    requires Found(doc, keys, chains)
    ensures !e.Chain? ==> Found(doc + [e], keys, chains)
    ensures e.Chain? ==> Found(doc + [e], if e.key in chains then keys else keys + [e.key],
                               chains[e.key := e])
  {
    var grown := doc + [e];
    assert grown[..|grown| - 1] == doc && grown[|grown| - 1] == e;
    forall k | k in ChainKeys(doc) && !(e.Chain? && e.key == k)
      ensures ChainAt(grown, k) == ChainAt(doc, k) {}
  }

  /** `chains`: the walk over the entries, the join, and a row per declared
      chain. The rows say exactly who reaches each chain by the reference
      definition, wherever the maps stand in the document. */
  method Chains(doc: seq<Entry>, verbs: seq<string>) returns (rows: seq<Row>)
    ensures rows == Rows(doc, CallersOf(doc, verbs))
  {
    var keys, chains := [], map[];
    var counts: map<Key, nat>, targets: map<Key, set<string>> := map[], map[];
    var jumped: Sets, users: Sets := map[], map[];
    for i := 0 to |doc|
      invariant Found(doc[..i], keys, chains) && Counted(doc[..i], counts)
      invariant Reached(doc[..i], verbs, jumped) && Used(doc[..i], users)
      invariant Listed(doc[..i], verbs, targets)
    {
      var e := doc[i];
      assert doc[..i + 1] == doc[..i] + [e];
      GrowFound(doc[..i], e, keys, chains);
      CountRuleGrows(doc[..i], e, counts);
      Unaffected(doc[..i], e, verbs, jumped, users, targets);
      match e
      case Chain(key, _, _, _) =>
        keys := if key in chains then keys else keys + [key];
        chains := chains[key := e];
      case Rule(_, _, _, _, _) =>
        counts := CountRule(counts, e);
        jumped := ReachRule(doc[..i], e, verbs, jumped);
        users := UseRule(doc[..i], e, users);
      case Map(key, _, elem) =>
        var found := VerdictTargets(elem, verbs);
        ListMap(doc[..i], e, verbs, targets, ToSet(found));
        targets := targets[key := ToSet(found)];
      case Other(_) =>
    }
    assert doc[..|doc|] == doc;
    var joined := Join(jumped, users, targets);
    forall k ensures At(joined, k) == Callers(doc, verbs, k) {
      JoinIsCallers(doc, verbs, jumped, users, targets, joined, k);
    }
    rows := PublishRows(doc, keys, chains, counts, joined, CallersOf(doc, verbs));
  }

  method PublishRows(ghost doc: seq<Entry>, keys: seq<Key>, chains: map<Key, Entry>,
                     counts: map<Key, nat>, jumped: Sets, ghost callers: Key -> set<string>)
    returns (rows: seq<Row>)
    requires Found(doc, keys, chains)
    requires Counted(doc, counts)
    requires forall k :: At(jumped, k) == callers(k)
    ensures rows == Rows(doc, callers)
  {
    rows := [];
    BelowIsTotal();
    for i := 0 to |keys|
      invariant |rows| == i
      invariant forall j | 0 <= j < i :: rows[j] == RowWith(doc, keys[j], callers(keys[j]))
    {
      var key := keys[i];
      var sorted := SortSet(Below, At(jumped, key));
      assert sorted == [] <==> At(jumped, key) == {};
      var reach := if sorted != [] then JumpedFrom(sorted)
                   else if chains[key].hooked then Silent else Unreferenced;
      var count := if key in counts then counts[key] else 0;
      rows := rows + [Row(chains[key], count, reach)];
    }
  }
}
