/** The differential operators over nft documents, and what each makes visible. */
module NftMutations {
  import opened Options
  import opened Document
  import opened NftWalk

  // ── references, one per occurrence ────────────────────────────────────

  type Ref = (string, string)

  function RefHere(members: seq<Member>, verb: string): seq<Ref> {
    match Target(members, verb)
    case Some(t) => [(verb, t)]
    case None => []
  }

  /** Every (verb, target) of a tree, in document order: `_verdict_refs`. */
  function Refs(node: Value): seq<Ref> {
    match node
    case Obj(members) => RefHere(members, "jump") + RefHere(members, "goto") + RefsUnder(members)
    case Arr(items) => RefsAmong(items)
    case _ => []
  }

  function RefsUnder(members: seq<Member>): seq<Ref> {
    if members == [] then [] else Refs(members[0].value) + RefsUnder(members[1..])
  }

  function RefsAmong(items: seq<Value>): seq<Ref> {
    if items == [] then [] else Refs(items[0]) + RefsAmong(items[1..])
  }

  predicate VerbIn(verbs: seq<string>, refs: seq<Ref>, t: string) {
    exists v | v in verbs :: (v, t) in refs
  }

  lemma VerbsAre(verbs: seq<string>)
    requires verbs == JUMP || verbs == BOTH
    ensures forall v | v in verbs :: v == "jump" || v == "goto"
  {}

  lemma {:induction false} RefsUnderExact(members: seq<Member>, r: Ref)
    ensures r in RefsUnder(members) <==> exists m | m in members :: r in Refs(m.value)
  {
    if members != [] {
      RefsUnderExact(members[1..], r);
      assert members == [members[0]] + members[1..];
    }
  }

  ghost predicate SomeItem(items: seq<Value>, r: Ref) {
    exists x | x in items :: r in Refs(x)
  }

  lemma {:induction false} RefsAmongExact(items: seq<Value>, r: Ref)
    ensures r in RefsAmong(items) <==> SomeItem(items, r)
  {
    if items != [] {
      RefsAmongExact(items[1..], r);
      assert items == [items[0]] + items[1..];
      if SomeItem(items, r) && !SomeItem(items[1..], r) {
        var x :| x in items && r in Refs(x);
        assert x == items[0];
      } else if SomeItem(items[1..], r) {
        var x :| x in items[1..] && r in Refs(x);
        assert x in items;
      }
    }
  }

  /** The walk's relation and the operators' reference list are one reading. */
  lemma {:induction false} HandsIsRef(node: Value, verbs: seq<string>, t: string)
    requires verbs == JUMP || verbs == BOTH
    ensures Hands(node, verbs, t) <==> VerbIn(verbs, Refs(node), t)
  {
    match node
    case Obj(members) =>
      forall m | m in members ensures Hands(m.value, verbs, t) <==> VerbIn(verbs, Refs(m.value), t) {
        HandsIsRef(m.value, verbs, t);
      }
      forall r ensures r in RefsUnder(members) <==> exists m | m in members :: r in Refs(m.value) {
        RefsUnderExact(members, r);
      }
      VerbsAre(verbs);
      assert Names(members, verbs, t) <==>
        VerbIn(verbs, RefHere(members, "jump") + RefHere(members, "goto"), t);
    case Arr(items) =>
      forall x | x in items ensures Hands(x, verbs, t) <==> VerbIn(verbs, Refs(x), t) {
        HandsIsRef(x, verbs, t);
      }
      forall r ensures r in RefsAmong(items) <==> SomeItem(items, r) {
        RefsAmongExact(items, r);
      }
    case _ =>
  }

  // ── converting one jump into a goto ───────────────────────────────────

  /** `d.pop(key)` */
  function Without(members: seq<Member>, key: string): seq<Member> {
    if members == [] then []
    else if members[0].key == key then members[1..]
    else [members[0]] + Without(members[1..], key)
  }

  /** `_swap_first_jump_to_goto`, returning the rewritten tree when it found one. */
  function Swap(node: Value, t: string): Option<Value> {
    match node
    case Obj(members) =>
      if t != "" && Target(members, "jump") == Some(t) then
        Some(Obj(With(Without(members, "jump"), "goto", Get(members, "jump").value)))
      else
        (match SwapUnder(members, t)
         case Some(swapped) => Some(Obj(swapped))
         case None => None)
    case Arr(items) =>
      (match SwapAmong(items, t)
       case Some(swapped) => Some(Arr(swapped))
       case None => None)
    case _ => None
  }

  function SwapUnder(members: seq<Member>, t: string): Option<seq<Member>> {
    if members == [] then None
    else
      match Swap(members[0].value, t)
      case Some(v) => Some([Member(members[0].key, v)] + members[1..])
      case None =>
        match SwapUnder(members[1..], t)
        case Some(rest) => Some([members[0]] + rest)
        case None => None
  }

  function SwapAmong(items: seq<Value>, t: string): Option<seq<Value>> {
    if items == [] then None
    else
      match Swap(items[0], t)
      case Some(v) => Some([v] + items[1..])
      case None =>
        match SwapAmong(items[1..], t)
        case Some(rest) => Some([items[0]] + rest)
        case None => None
  }

  /** The goto a converted node loses, as a node of its own. */
  function Overwritten(members: seq<Member>): Value {
    match Get(members, "goto")
    case Some(v) => Obj([Member("goto", v)])
    case None => Null
  }

  /** What the swap writes over: null where the node it converts held no goto. */
  function Lost(node: Value, t: string): Value {
    match node
    case Obj(members) =>
      if t != "" && Target(members, "jump") == Some(t) then Overwritten(members)
      else LostUnder(members, t)
    case Arr(items) => LostAmong(items, t)
    case _ => Null
  }

  function LostUnder(members: seq<Member>, t: string): Value {
    if members == [] then Null
    else if Swap(members[0].value, t).Some? then Lost(members[0].value, t)
    else LostUnder(members[1..], t)
  }

  function LostAmong(items: seq<Value>, t: string): Value {
    if items == [] then Null
    else if Swap(items[0], t).Some? then Lost(items[0], t)
    else LostAmong(items[1..], t)
  }

  /** What one conversion does to a reference list. */
  ghost predicate Converted(before: multiset<Ref>, after: multiset<Ref>, lost: multiset<Ref>, t: string) {
    after + multiset{("jump", t)} + lost == before + multiset{("goto", t)}
  }

  lemma {:induction false} GetWithout(members: seq<Member>, key: string, other: string)
    ensures other != key ==> Get(Without(members, key), other) == Get(members, other)
    ensures DistinctKeys(members) ==>
              Get(Without(members, key), key).None? && DistinctKeys(Without(members, key))
    ensures forall m :: m in Without(members, key) ==> m in members
  {
    if members != [] {
      var rest := members[1..];
      assert members == [members[0]] + rest;
      if members[0].key == key {
        GetMember(rest, key);
        assert DistinctKeys(members) ==> forall i | 0 <= i < |rest| :: rest[i].key != members[0].key;
      } else {
        GetWithout(rest, key, other);
        if DistinctKeys(members) {
          assert forall i | 0 <= i < |rest| :: rest[i] == members[i + 1];
          forall m | m in Without(rest, key) ensures m.key != members[0].key {
            var i :| 0 <= i < |rest| && rest[i] == m;
          }
        }
      }
    }
  }

  lemma {:induction false} BagWithout(members: seq<Member>, key: string)
    requires Get(members, key).Some?
    ensures multiset(RefsUnder(members))
      == multiset(RefsUnder(Without(members, key))) + multiset(Refs(Get(members, key).value))
  {
    if members[0].key != key {
      BagWithout(members[1..], key);
    }
  }

  lemma ConvertedWithin(a: multiset<Ref>, before: multiset<Ref>, after: multiset<Ref>,
                        lost: multiset<Ref>, b: multiset<Ref>, t: string)
    requires Converted(before, after, lost, t)
    ensures Converted(a + before + b, a + after + b, lost, t)
  {
    var jump, goto_ := multiset{("jump", t)}, multiset{("goto", t)};
    assert (a + after + b) + jump + lost == a + (after + jump + lost) + b;
    assert (a + before + b) + goto_ == a + (before + goto_) + b;
  }

  function RefBag(node: Value): multiset<Ref> {
    multiset(Refs(node))
  }

  lemma BagOfObj(members: seq<Member>)
    ensures RefBag(Obj(members))
      == multiset(RefHere(members, "jump")) + multiset(RefHere(members, "goto"))
         + multiset(RefsUnder(members))
  {}

  function HeldBag(held: Option<Value>): multiset<Ref> {
    if held.Some? then RefBag(held.value) else multiset{}
  }

  lemma UnderCons(m: Member, rest: seq<Member>)
    ensures multiset(RefsUnder([m] + rest)) == RefBag(m.value) + multiset(RefsUnder(rest))
  {
    assert ([m] + rest)[1..] == rest;
  }

  lemma {:induction false} BagWith(members: seq<Member>, key: string, value: Value)
    ensures multiset(RefsUnder(With(members, key, value))) + HeldBag(Get(members, key))
      == multiset(RefsUnder(members)) + RefBag(value)
  {
    if members == [] {
      UnderCons(Member(key, value), []);
      assert [Member(key, value)] + [] == With(members, key, value);
    } else {
      var m, rest := members[0], members[1..];
      assert members == [m] + rest;
      UnderCons(m, rest);
      if m.key == key {
        UnderCons(Member(key, value), rest);
        Regroup(RefBag(value), multiset(RefsUnder(rest)), RefBag(m.value));
      } else {
        var after := With(rest, key, value);
        BagWith(rest, key, value);
        UnderCons(m, after);
        assert With(members, key, value) == [m] + after;
        Regroup(RefBag(m.value), multiset(RefsUnder(after)), HeldBag(Get(rest, key)));
        Regroup(RefBag(m.value), multiset(RefsUnder(rest)), RefBag(value));
      }
    }
  }

  lemma Regroup(a: multiset<Ref>, b: multiset<Ref>, c: multiset<Ref>)
    ensures (a + b) + c == a + (b + c) == (c + b) + a
  {}

  lemma {:induction false} GetSet(members: seq<Member>, key: string, value: Value)
    ensures Get(With(members, key, value), key) == Some(value)
  {
    if members != [] && members[0].key != key {
      GetSet(members[1..], key, value);
    }
  }

  lemma OverwrittenBag(members: seq<Member>)
    ensures RefBag(Overwritten(members))
      == multiset(RefHere(members, "goto")) + HeldBag(Get(members, "goto"))
  {
    var held := Get(members, "goto");
    if held.Some? {
      GotoBag(held.value);
      assert Target([Member("goto", held.value)], "goto") == Target(members, "goto");
    }
  }

  lemma GotoBag(v: Value)
    ensures RefBag(Obj([Member("goto", v)]))
      == multiset(RefHere([Member("goto", v)], "goto")) + RefBag(v)
  {
    var node := [Member("goto", v)];
    BagOfObj(node);
    assert node[1..] == [] && Get(node, "jump").None?;
    assert RefsUnder(node) == Refs(v) + RefsUnder([]);
  }

  /** The converted node: its jump's body now under goto, in place of whatever
      was there. */
  lemma ConvertHere(members: seq<Member>, t: string)
    requires DistinctKeys(members) && Target(members, "jump") == Some(t)
    ensures Converted(
      RefBag(Obj(members)),
      RefBag(Obj(With(Without(members, "jump"), "goto", Get(members, "jump").value))),
      RefBag(Overwritten(members)), t)
  {
    var body := Get(members, "jump").value;
    var kept := Without(members, "jump");
    var after := With(kept, "goto", body);
    GetWithout(members, "jump", "goto");
    GetOfWith(kept, "goto", body, "jump");
    BagWithout(members, "jump");
    GetSet(kept, "goto", body);
    BagWith(kept, "goto", body);
    OverwrittenBag(members);
    ConvertedBags(members, after, t, HeldBag(Get(members, "goto")));
  }

  lemma ConvertedBags(members: seq<Member>, after: seq<Member>, t: string, held: multiset<Ref>)
    requires RefHere(members, "jump") == [("jump", t)]
    requires RefHere(after, "jump") == [] && RefHere(after, "goto") == [("goto", t)]
    requires multiset(RefsUnder(members)) == multiset(RefsUnder(after)) + held
    ensures Converted(RefBag(Obj(members)), RefBag(Obj(after)),
                      multiset(RefHere(members, "goto")) + held, t)
  {
    BagOfObj(members);
    BagOfObj(after);
  }

  /** The member SwapUnder leaves under a key: the same value or its swap. */
  lemma {:induction false} GetSwapped(members: seq<Member>, t: string, key: string)
    requires SwapUnder(members, t).Some?
    ensures Get(members, key).None? ==> Get(SwapUnder(members, t).value, key).None?
    ensures Get(members, key).Some? ==>
      var was, now := Get(members, key).value, Get(SwapUnder(members, t).value, key);
      now == Some(was) || (Swap(was, t).Some? && now == Swap(was, t))
  {
    if Swap(members[0].value, t).None? && members[0].key != key {
      GetSwapped(members[1..], t, key);
    }
  }

  /** The target a verdict body names. */
  function Destination(v: Value): Option<Value> {
    match v
    case Obj(body) => Get(body, "target")
    case _ => None
  }

  lemma DestinationKept(v: Value, t: string)
    requires Swap(v, t).Some? && v.Obj? && DistinctKeys(v.members)
    ensures Swap(v, t).value.Obj?
    ensures var was, now := Destination(v), Destination(Swap(v, t).value);
      (was.Some? && was.value.Text?) || (now.Some? && now.value.Text?) ==> now == was
  {
    var body := v.members;
    if t != "" && Target(body, "jump") == Some(t) {
      GetWithout(body, "jump", "target");
      var kept := Without(body, "jump");
      GetOfWith(kept, "goto", Get(body, "jump").value, "target");
    } else {
      GetSwapped(body, t, "target");
    }
  }

  lemma {:induction false} GetOfWith(members: seq<Member>, key: string, value: Value, other: string)
    requires other != key
    ensures Get(With(members, key, value), other) == Get(members, other)
  {
    if members != [] && members[0].key != key {
      GetOfWith(members[1..], key, value, other);
    }
  }

  lemma SwapUnderKeepsTarget(members: seq<Member>, t: string, verb: string)
    requires SwapUnder(members, t).Some? && forall m | m in members :: WellFormed(m.value)
    ensures Target(SwapUnder(members, t).value, verb) == Target(members, verb)
  {
    GetSwapped(members, t, verb);
    GetMember(members, verb);
    if Get(members, verb).Some? {
      var was := Get(members, verb).value;
      if was.Obj? && Swap(was, t).Some? {
        DestinationKept(was, t);
      }
    }
  }

  lemma ConvertBelow(members: seq<Member>, after: seq<Member>, lost: multiset<Ref>, t: string)
    requires Target(after, "jump") == Target(members, "jump")
    requires Target(after, "goto") == Target(members, "goto")
    requires Converted(multiset(RefsUnder(members)), multiset(RefsUnder(after)), lost, t)
    ensures Converted(RefBag(Obj(members)), RefBag(Obj(after)), lost, t)
  {
    BagOfObj(members);
    BagOfObj(after);
    var here := multiset(RefHere(members, "jump")) + multiset(RefHere(members, "goto"));
    ConvertedWithin(here, multiset(RefsUnder(members)), multiset(RefsUnder(after)), lost, multiset{}, t);
    assert RefBag(Obj(members)) == here + multiset(RefsUnder(members)) + multiset{};
    assert RefBag(Obj(after)) == here + multiset(RefsUnder(after)) + multiset{};
  }

  /** A swap turns one jump reference to the target into a goto, drops those of
      the goto it writes over, and moves no other. */
  lemma {:induction false} SwapConverts(node: Value, t: string)
    requires WellFormed(node) && Swap(node, t).Some?
    ensures Converted(RefBag(node), RefBag(Swap(node, t).value), RefBag(Lost(node, t)), t)
  {
    match node
    case Obj(members) =>
      if t != "" && Target(members, "jump") == Some(t) {
        ConvertHere(members, t);
      } else {
        SwapUnderConverts(members, t);
        SwapUnderKeepsTarget(members, t, "jump");
        SwapUnderKeepsTarget(members, t, "goto");
        ConvertBelow(members, SwapUnder(members, t).value, RefBag(LostUnder(members, t)), t);
      }
    case Arr(items) => SwapAmongConverts(items, t);
  }

  lemma ConvertedFirst(before: multiset<Ref>, after: multiset<Ref>, lost: multiset<Ref>,
                       rest: multiset<Ref>, t: string)
    requires Converted(before, after, lost, t)
    ensures Converted(before + rest, after + rest, lost, t)
  {
    ConvertedWithin(multiset{}, before, after, lost, rest, t);
    assert multiset{} + before == before && multiset{} + after == after;
  }

  lemma ConvertedRest(first: multiset<Ref>, before: multiset<Ref>, after: multiset<Ref>,
                      lost: multiset<Ref>, t: string)
    requires Converted(before, after, lost, t)
    ensures Converted(first + before, first + after, lost, t)
  {
    ConvertedFirst(before, after, lost, first, t);
    assert before + first == first + before && after + first == first + after;
  }

  lemma AmongCons(x: Value, rest: seq<Value>)
    ensures multiset(RefsAmong([x] + rest)) == RefBag(x) + multiset(RefsAmong(rest))
  {
    assert ([x] + rest)[1..] == rest;
  }

  lemma {:induction false} SwapUnderConverts(members: seq<Member>, t: string)
    requires forall m | m in members :: WellFormed(m.value)
    requires SwapUnder(members, t).Some?
    ensures Converted(multiset(RefsUnder(members)), multiset(RefsUnder(SwapUnder(members, t).value)),
                      RefBag(LostUnder(members, t)), t)
  {
    var m, rest := members[0], members[1..];
    assert members == [m] + rest;
    UnderCons(m, rest);
    if Swap(m.value, t).Some? {
      var v := Swap(m.value, t).value;
      SwapConverts(m.value, t);
      UnderCons(Member(m.key, v), rest);
      ConvertedFirst(RefBag(m.value), RefBag(v), RefBag(Lost(m.value, t)), multiset(RefsUnder(rest)), t);
    } else {
      SwapUnderConverts(rest, t);
      var swapped := SwapUnder(rest, t).value;
      UnderCons(m, swapped);
      ConvertedRest(RefBag(m.value), multiset(RefsUnder(rest)), multiset(RefsUnder(swapped)),
                    RefBag(LostUnder(rest, t)), t);
    }
  }

  lemma {:induction false} SwapAmongConverts(items: seq<Value>, t: string)
    requires forall x | x in items :: WellFormed(x)
    requires SwapAmong(items, t).Some?
    ensures Converted(multiset(RefsAmong(items)), multiset(RefsAmong(SwapAmong(items, t).value)),
                      RefBag(LostAmong(items, t)), t)
  {
    var x, rest := items[0], items[1..];
    assert items == [x] + rest;
    AmongCons(x, rest);
    if Swap(x, t).Some? {
      var v := Swap(x, t).value;
      SwapConverts(x, t);
      AmongCons(v, rest);
      ConvertedFirst(RefBag(x), RefBag(v), RefBag(Lost(x, t)), multiset(RefsAmong(rest)), t);
    } else {
      SwapAmongConverts(rest, t);
      var swapped := SwapAmong(rest, t).value;
      AmongCons(x, swapped);
      ConvertedRest(RefBag(x), multiset(RefsAmong(rest)), multiset(RefsAmong(swapped)),
                    RefBag(LostAmong(rest, t)), t);
    }
  }

  // ── a swap moves no other string ──────────────────────────────────────

  /** How many strings of the tree are "@name". */
  function MentionCount(node: Value, name: string): nat {
    match node
    case Text(s) => if s == "@" + name then 1 else 0
    case Obj(members) => MentionsUnder(members, name)
    case Arr(items) => MentionsAmong(items, name)
    case _ => 0
  }

  function MentionsUnder(members: seq<Member>, name: string): nat {
    if members == [] then 0 else MentionCount(members[0].value, name) + MentionsUnder(members[1..], name)
  }

  function MentionsAmong(items: seq<Value>, name: string): nat {
    if items == [] then 0 else MentionCount(items[0], name) + MentionsAmong(items[1..], name)
  }

  lemma {:induction false} MentionsCounted(node: Value, name: string)
    ensures Mentions(node, name) <==> MentionCount(node, name) > 0
  {
    match node
    case Obj(members) => MentionsUnderCounted(members, name);
    case Arr(items) => MentionsAmongCounted(items, name);
    case _ =>
  }

  lemma {:induction false} MentionsUnderCounted(members: seq<Member>, name: string)
    ensures (exists m | m in members :: Mentions(m.value, name)) <==> MentionsUnder(members, name) > 0
  {
    if members != [] {
      MentionsCounted(members[0].value, name);
      MentionsUnderCounted(members[1..], name);
      assert members == [members[0]] + members[1..];
    }
  }

  lemma {:induction false} MentionsAmongCounted(items: seq<Value>, name: string)
    ensures (exists x | x in items :: Mentions(x, name)) <==> MentionsAmong(items, name) > 0
  {
    if items != [] {
      MentionsCounted(items[0], name);
      MentionsAmongCounted(items[1..], name);
      assert items == [items[0]] + items[1..];
    }
  }

  function HeldMentions(held: Option<Value>, name: string): nat {
    if held.Some? then MentionCount(held.value, name) else 0
  }

  lemma {:induction false} MentionsWithout(members: seq<Member>, key: string, name: string)
    ensures MentionsUnder(members, name)
      == MentionsUnder(Without(members, key), name) + HeldMentions(Get(members, key), name)
  {
    if members != [] && members[0].key != key {
      MentionsWithout(members[1..], key, name);
    }
  }

  lemma {:induction false} MentionsWith(members: seq<Member>, key: string, value: Value, name: string)
    ensures MentionsUnder(With(members, key, value), name) + HeldMentions(Get(members, key), name)
      == MentionsUnder(members, name) + MentionCount(value, name)
  {
    if members != [] && members[0].key != key {
      MentionsWith(members[1..], key, value, name);
    }
  }

  lemma OverwrittenMentions(members: seq<Member>, name: string)
    ensures MentionCount(Overwritten(members), name) == HeldMentions(Get(members, "goto"), name)
  {
    var held := Get(members, "goto");
    if held.Some? {
      var node := [Member("goto", held.value)];
      assert node[1..] == [] && Overwritten(members) == Obj(node);
      assert MentionsUnder(node, name) == MentionCount(held.value, name) + MentionsUnder([], name);
    }
  }

  lemma RenameMentions(members: seq<Member>, name: string)
    requires DistinctKeys(members) && Get(members, "jump").Some?
    ensures MentionsUnder(members, name) ==
      MentionsUnder(With(Without(members, "jump"), "goto", Get(members, "jump").value), name)
      + MentionCount(Overwritten(members), name)
  {
    GetWithout(members, "jump", "goto");
    MentionsWithout(members, "jump", name);
    MentionsWith(Without(members, "jump"), "goto", Get(members, "jump").value, name);
    OverwrittenMentions(members, name);
  }

  /** The map references that go are those of the goto written over, each once. */
  lemma {:induction false} SwapMentions(node: Value, t: string, name: string)
    requires WellFormed(node) && Swap(node, t).Some?
    ensures MentionCount(node, name)
      == MentionCount(Swap(node, t).value, name) + MentionCount(Lost(node, t), name)
  {
    match node
    case Obj(members) =>
      if t != "" && Target(members, "jump") == Some(t) {
        RenameMentions(members, name);
      } else {
        SwapUnderMentions(members, t, name);
      }
    case Arr(items) => SwapAmongMentions(items, t, name);
  }

  lemma {:induction false} SwapUnderMentions(members: seq<Member>, t: string, name: string)
    requires forall m | m in members :: WellFormed(m.value)
    requires SwapUnder(members, t).Some?
    ensures MentionsUnder(members, name)
      == MentionsUnder(SwapUnder(members, t).value, name) + MentionCount(LostUnder(members, t), name)
  {
    var rest, after := members[1..], SwapUnder(members, t).value;
    if Swap(members[0].value, t).Some? {
      SwapMentions(members[0].value, t, name);
      assert after[1..] == rest;
    } else {
      SwapUnderMentions(rest, t, name);
      assert after[1..] == SwapUnder(rest, t).value;
    }
  }

  lemma {:induction false} SwapAmongMentions(items: seq<Value>, t: string, name: string)
    requires forall x | x in items :: WellFormed(x)
    requires SwapAmong(items, t).Some?
    ensures MentionsAmong(items, name)
      == MentionsAmong(SwapAmong(items, t).value, name) + MentionCount(LostAmong(items, t), name)
  {
    var rest, after := items[1..], SwapAmong(items, t).value;
    if Swap(items[0], t).Some? {
      SwapMentions(items[0], t, name);
      assert after[1..] == rest;
    } else {
      SwapAmongMentions(rest, t, name);
      assert after[1..] == SwapAmong(rest, t).value;
    }
  }

  /** A swap succeeds exactly where a jump to the target stands. */
  lemma {:induction false} SwapFinds(node: Value, t: string)
    requires t != ""
    ensures Swap(node, t).Some? <==> ("jump", t) in Refs(node)
  {
    match node
    case Obj(members) =>
      SwapUnderFinds(members, t);
      assert ("jump", t) in RefHere(members, "jump") <==> Target(members, "jump") == Some(t);
      assert ("jump", t) !in RefHere(members, "goto");
    case Arr(items) => SwapAmongFinds(items, t);
    case _ =>
  }

  lemma {:induction false} SwapUnderFinds(members: seq<Member>, t: string)
    requires t != ""
    ensures SwapUnder(members, t).Some? <==> ("jump", t) in RefsUnder(members)
  {
    if members != [] {
      SwapFinds(members[0].value, t);
      SwapUnderFinds(members[1..], t);
    }
  }

  lemma {:induction false} SwapAmongFinds(items: seq<Value>, t: string)
    requires t != ""
    ensures SwapAmong(items, t).Some? <==> ("jump", t) in RefsAmong(items)
  {
    if items != [] {
      SwapFinds(items[0], t);
      SwapAmongFinds(items[1..], t);
    }
  }
}
