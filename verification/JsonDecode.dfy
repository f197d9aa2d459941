/** Decoding a token stream into a document: `decodeDocument`, `decodeValue` and
    `decodeToken`. The tokenizer underneath is the standard library's; what it
    delivers is the input here. */
module JsonDecode {
  import opened Options
  import opened Document
  import opened OrderedDict

  datatype Token =
    | TNull
    | TBool(b: bool)
    | TNumber(literal: string)
    | TString(s: string)
    | OpenArr
    | CloseArr
    | OpenObj
    | CloseObj

  datatype Fault = EndOfInput | KeyNotString(token: Token) | Unexpected(token: Token) | Trailing

  datatype Result<+T> = Ok(value: T) | Failed(fault: Fault)

  /** A decoded value and the tokens after it. */
  datatype Step<+T> = Took(value: T, rest: seq<Token>) | Broke(fault: Fault)

  predicate More(ts: seq<Token>) {
    ts != [] && ts[0] != CloseArr && ts[0] != CloseObj
  }

  function Parse(ts: seq<Token>): (r: Step<Value>)
    ensures r.Took? ==> |r.rest| < |ts|
    decreases |ts|, 1
  {
    if ts == [] then Broke(EndOfInput)
    else
      match ts[0]
      case TNull => Took(Null, ts[1..])
      case TBool(b) => Took(Bool(b), ts[1..])
      case TNumber(literal) => Took(Number(literal), ts[1..])
      case TString(s) => Took(Text(s), ts[1..])
      case OpenArr => ParseItems(ts[1..], [])
      case OpenObj => ParseMembers(ts[1..], [])
      case CloseArr => Broke(Unexpected(CloseArr))
      case CloseObj => Broke(Unexpected(CloseObj))
  }

  /** The rest of an array, after these items. */
  function ParseItems(ts: seq<Token>, items: seq<Value>): (r: Step<Value>)
    ensures r.Took? ==> |r.rest| < |ts|
    decreases |ts|, 2
  {
    if More(ts) then
      match Parse(ts)
      case Broke(fault) => Broke(fault)
      case Took(v, rest) => ParseItems(rest, items + [v])
    else if ts == [] then Broke(EndOfInput)
    else Took(Arr(items), ts[1..])
  }

  /** The rest of an object, after these assignments. */
  function ParseMembers(ts: seq<Token>, pairs: seq<Member>): (r: Step<Value>)
    ensures r.Took? ==> |r.rest| < |ts|
    decreases |ts|, 2
  {
    if More(ts) then
      if !ts[0].TString? then Broke(KeyNotString(ts[0]))
      else
        match Parse(ts[1..])
        case Broke(fault) => Broke(fault)
        case Took(v, rest) => ParseMembers(rest, pairs + [Member(ts[0].s, v)])
    else if ts == [] then Broke(EndOfInput)
    else Took(Obj(Assigned(pairs)), ts[1..])
  }

  function ParseDocument(ts: seq<Token>): Result<Value> {
    match Parse(ts)
    case Broke(fault) => Failed(fault)
    case Took(v, rest) => if rest == [] then Ok(v) else Failed(Trailing)
  }

  // ── the decoder's loops ───────────────────────────────────────────────

  class Decoder {
    var rest: seq<Token>

    constructor (tokens: seq<Token>)
      ensures rest == tokens
    {
      rest := tokens;
    }

    method Token() returns (token: Option<Token>)
      modifies this
      ensures old(rest) == [] ==> token == None && rest == []
      ensures old(rest) != [] ==> token == Some(old(rest)[0]) && rest == old(rest)[1..]
    {
      if rest == [] {
        return None;
      }
      token := Some(rest[0]);
      rest := rest[1..];
    }

    /** `decodeValue` and `decodeToken`. */
    method DecodeValue() returns (r: Result<Value>)
      modifies this
      ensures match Parse(old(rest))
        case Took(v, after) => r == Ok(v) && rest == after
        case Broke(fault) => r == Failed(fault)
      decreases |rest|, 1
    {
      var token := Token();
      if token.None? {
        return Failed(EndOfInput);
      }
      match token.value
      case TNull => return Ok(Null);
      case TBool(b) => return Ok(Bool(b));
      case TNumber(literal) => return Ok(Number(literal));
      case TString(s) => return Ok(Text(s));
      case OpenArr => r := DecodeItems();
      case OpenObj => r := DecodeMembers();
      case CloseArr => return Failed(Unexpected(CloseArr));
      case CloseObj => return Failed(Unexpected(CloseObj));
    }

    method DecodeItems() returns (r: Result<Value>)
      modifies this
      ensures match ParseItems(old(rest), [])
        case Took(v, after) => r == Ok(v) && rest == after
        case Broke(fault) => r == Failed(fault)
      decreases |rest|, 2
    {
      var items: seq<Value> := [];
      while More(rest)
        invariant |rest| <= |old(rest)|
        invariant ParseItems(old(rest), []) == ParseItems(rest, items)
        decreases |rest|
      {
        var element := DecodeValue();
        if element.Failed? {
          return element;
        }
        items := items + [element.value];
      }
      var close := Token();
      if close.None? {
        return Failed(EndOfInput);
      }
      r := Ok(Arr(items));
    }

    method DecodeMembers() returns (r: Result<Value>)
      modifies this
      ensures match ParseMembers(old(rest), [])
        case Took(v, after) => r == Ok(v) && rest == after
        case Broke(fault) => r == Failed(fault)
      decreases |rest|, 2
    {
      var built := new MemberList<Value>();
      ghost var pairs: seq<Member> := [];
      while More(rest)
        invariant |rest| <= |old(rest)| && fresh(built)
        invariant built.members == Assigned(pairs)
        invariant ParseMembers(old(rest), []) == ParseMembers(rest, pairs)
        decreases |rest|
      {
        var key := Token();
        if !key.value.TString? {
          return Failed(KeyNotString(key.value));
        }
        var member := DecodeValue();
        if member.Failed? {
          return member;
        }
        built.Set(key.value.s, member.value);
        assert (pairs + [Member(key.value.s, member.value)])[..|pairs|] == pairs;
        pairs := pairs + [Member(key.value.s, member.value)];
      }
      var close := Token();
      if close.None? {
        return Failed(EndOfInput);
      }
      r := Ok(Obj(built.members));
    }

    /** json.loads refuses trailing content, and so does this. */
    method DecodeDocument() returns (r: Result<Value>)
      modifies this
      ensures r == ParseDocument(old(rest))
    {
      r := DecodeValue();
      if r.Ok? {
        var trailing := Token();
        if trailing.Some? {
          r := Failed(Trailing);
        }
      }
    }
  }

  // ── what decoding yields ──────────────────────────────────────────────

  /** Every decoded value has distinct keys at every depth. */
  lemma {:induction false} DecodedWellFormed(ts: seq<Token>)
    ensures Parse(ts).Took? ==> WellFormed(Parse(ts).value)
    decreases |ts|, 1
  {
    if ts != [] {
      match ts[0]
      case OpenArr => ItemsWellFormed(ts[1..], []);
      case OpenObj => MembersWellFormed(ts[1..], []);
      case _ =>
    }
  }

  lemma {:induction false} ItemsWellFormed(ts: seq<Token>, items: seq<Value>)
    requires forall x | x in items :: WellFormed(x)
    ensures ParseItems(ts, items).Took? ==> WellFormed(ParseItems(ts, items).value)
    decreases |ts|, 2
  {
    if More(ts) && Parse(ts).Took? {
      DecodedWellFormed(ts);
      ItemsWellFormed(Parse(ts).rest, items + [Parse(ts).value]);
    }
  }

  lemma {:induction false} MembersWellFormed(ts: seq<Token>, pairs: seq<Member>)
    requires forall m | m in pairs :: WellFormed(m.value)
    ensures ParseMembers(ts, pairs).Took? ==> WellFormed(ParseMembers(ts, pairs).value)
    decreases |ts|, 2
  {
    if More(ts) {
      if ts[0].TString? && Parse(ts[1..]).Took? {
        DecodedWellFormed(ts[1..]);
        MembersWellFormed(Parse(ts[1..]).rest, pairs + [Member(ts[0].s, Parse(ts[1..]).value)]);
      }
    } else {
      FirstPositionLastValue(pairs);
      AssignedFrom(pairs);
    }
  }

  lemma {:induction false} AssignedFrom(pairs: seq<Member>)
    ensures forall m | m in Assigned(pairs) :: m in pairs
  {
    if pairs != [] {
      var n := |pairs| - 1;
      AssignedFrom(pairs[..n]);
      forall m | m in Assigned(pairs) ensures m in pairs {
        WithFrom(Assigned(pairs[..n]), pairs[n].key, pairs[n].value, m);
      }
    }
  }

  lemma {:induction false} WithFrom(members: seq<Member>, key: string, value: Value, m: Member)
    requires m in With(members, key, value)
    ensures m in members || m == Member(key, value)
  {
    if members != [] && members[0].key != key && m != members[0] {
      WithFrom(members[1..], key, value, m);
    }
  }

  // ── decoding undoes tokenizing ────────────────────────────────────────

  function Tokens(v: Value): seq<Token> {
    match v
    case Null => [TNull]
    case Bool(b) => [TBool(b)]
    case Number(literal) => [TNumber(literal)]
    case Text(s) => [TString(s)]
    case Arr(items) => [OpenArr] + TokensOf(items) + [CloseArr]
    case Obj(members) => [OpenObj] + TokensUnder(members) + [CloseObj]
  }

  function TokensOf(items: seq<Value>): seq<Token> {
    if items == [] then [] else Tokens(items[0]) + TokensOf(items[1..])
  }

  function TokensUnder(members: seq<Member>): seq<Token> {
    if members == [] then []
    else [TString(members[0].key)] + Tokens(members[0].value) + TokensUnder(members[1..])
  }

  lemma TokensStart(v: Value)
    ensures More(Tokens(v))
  {}

  /** Decoding a document's tokens gives the document back: literals and member
      order intact. */
  lemma {:induction false} DecodeBack(v: Value, rest: seq<Token>)
    requires WellFormed(v)
    ensures Parse(Tokens(v) + rest) == Took(v, rest)
    decreases v, 0
  {
    match v
    case Arr(items) =>
      ItemsBack([], items, rest);
      assert [] + items == items;
      ArrTakes(TokensOf(items), items, rest);
    case Obj(members) =>
      MembersBack([], members, rest);
      assert [] + members == members;
      AssignedDistinct(members);
      ObjTakes(TokensUnder(members), Obj(members), rest);
    case _ =>
      assert (Tokens(v) + rest)[1..] == rest;
  }

  lemma ArrTakes(inner: seq<Token>, items: seq<Value>, rest: seq<Token>)
    requires ParseItems(inner + [CloseArr] + rest, []) == Took(Arr(items), rest)
    ensures Parse([OpenArr] + inner + [CloseArr] + rest) == Took(Arr(items), rest)
  {
    assert ([OpenArr] + inner + [CloseArr] + rest)[1..] == inner + [CloseArr] + rest;
  }

  lemma ObjTakes(inner: seq<Token>, v: Value, rest: seq<Token>)
    requires ParseMembers(inner + [CloseObj] + rest, []) == Took(v, rest)
    ensures Parse([OpenObj] + inner + [CloseObj] + rest) == Took(v, rest)
  {
    assert ([OpenObj] + inner + [CloseObj] + rest)[1..] == inner + [CloseObj] + rest;
  }

  lemma ItemTokens(x: Value, after: seq<Token>, rest: seq<Token>)
    ensures (Tokens(x) + after) + [CloseArr] + rest == Tokens(x) + (after + [CloseArr] + rest)
  {}

  lemma ItemTakes(x: Value, inner: seq<Token>, more: seq<Token>, done: seq<Value>, v: Value, rest: seq<Token>)
    requires inner == Tokens(x) && Parse(inner + more) == Took(x, more)
    requires ParseItems(more, done + [x]) == Took(v, rest)
    ensures ParseItems(inner + more, done) == Took(v, rest)
  {
    TokensStart(x);
    assert (inner + more)[0] == inner[0];
  }

  lemma {:induction false} ItemsBack(done: seq<Value>, items: seq<Value>, rest: seq<Token>)
    requires forall x | x in items :: WellFormed(x)
    ensures ParseItems(TokensOf(items) + [CloseArr] + rest, done) == Took(Arr(done + items), rest)
    decreases items, 1
  {
    var ts := TokensOf(items) + [CloseArr] + rest;
    if items == [] {
      assert ts == [CloseArr] + rest && done + items == done;
    } else {
      var x, more := items[0], TokensOf(items[1..]) + [CloseArr] + rest;
      assert done + [x] + items[1..] == done + items;
      ItemTokens(x, TokensOf(items[1..]), rest);
      DecodeBack(x, more);
      ItemsBack(done + [x], items[1..], rest);
      ItemTakes(x, Tokens(x), more, done, Arr(done + items), rest);
    }
  }

  lemma MemberTokens(m: Member, after: seq<Token>, rest: seq<Token>)
    ensures ([TString(m.key)] + Tokens(m.value) + after) + [CloseObj] + rest
      == [TString(m.key)] + (Tokens(m.value) + (after + [CloseObj] + rest))
  {}

  lemma MemberTakes(m: Member, inner: seq<Token>, more: seq<Token>, done: seq<Member>, v: Value,
                    rest: seq<Token>)
    requires Parse(inner + more) == Took(m.value, more)
    requires ParseMembers(more, done + [m]) == Took(v, rest)
    ensures ParseMembers([TString(m.key)] + (inner + more), done) == Took(v, rest)
  {
    assert ([TString(m.key)] + (inner + more))[1..] == inner + more;
    assert Member(m.key, m.value) == m;
  }

  lemma {:induction false} MembersBack(done: seq<Member>, members: seq<Member>, rest: seq<Token>)
    requires forall m | m in members :: WellFormed(m.value)
    ensures ParseMembers(TokensUnder(members) + [CloseObj] + rest, done)
      == Took(Obj(Assigned(done + members)), rest)
    decreases members, 1
  {
    var ts := TokensUnder(members) + [CloseObj] + rest;
    if members == [] {
      assert ts == [CloseObj] + rest && done + members == done;
    } else {
      var m := members[0];
      var more := TokensUnder(members[1..]) + [CloseObj] + rest;
      MemberTokens(m, TokensUnder(members[1..]), rest);
      DecodeBack(m.value, more);
      assert done + [m] + members[1..] == done + members;
      MembersBack(done + [m], members[1..], rest);
      MemberTakes(m, Tokens(m.value), more, done, Obj(Assigned(done + members)), rest);
    }
  }

  /** What a whole document decodes to tokenizes and decodes to itself. */
  lemma DecodeSettles(ts: seq<Token>)
    ensures ParseDocument(ts).Ok? ==>
      ParseDocument(Tokens(ParseDocument(ts).value)) == ParseDocument(ts)
  {
    if ParseDocument(ts).Ok? {
      var v := ParseDocument(ts).value;
      DecodedWellFormed(ts);
      DecodeBack(v, []);
      assert Tokens(v) + [] == Tokens(v);
    }
  }
}
