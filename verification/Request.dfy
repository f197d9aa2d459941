/** The request line both ways: the harness issues generations and renders
    them, the collectors parse them, Go's `parseCollect` and Python's
    `parse_generations` over one grammar. */
module Request {
  import opened Options
  import opened Decimals

  // ── one token ─────────────────────────────────────────────────────────

  /** strings.LastIndexByte(token, ':'). */
  function LastColon(token: string): (cut: int)
    ensures -1 <= cut < |token|
    ensures cut >= 0 ==> token[cut] == ':'
    ensures forall i | cut < i < |token| :: token[i] != ':'
  {
    if token == "" then -1
    else if token[|token| - 1] == ':' then |token| - 1
    else LastColon(token[..|token| - 1])
  }

  /** strconv.ParseUint(digits, 10, 64) */
  function ParseUint(digits: string): Option<nat> {
    if digits == "" || !AllDigits(digits) || Decimal(digits) >= 0x1_0000_0000_0000_0000 then None
    else Some(Decimal(digits))
  }

  predicate Lower(c: char) {
    'a' <= c <= 'z'
  }

  /** `^[a-z][a-z0-9-]*$` */
  predicate Legal(name: string) {
    name != "" && Lower(name[0])
    && forall i | 1 <= i < |name| :: Lower(name[i]) || '0' <= name[i] <= '9' || name[i] == '-'
  }

  datatype Fault = Empty | Malformed(token: string) | NotUnsigned(token: string)
    | IllegalName(name: string) | Twice(name: string)

  datatype Read = Asked(name: string, generation: nat) | Refused(fault: Fault)

  function ReadToken(token: string): Read {
    var cut := LastColon(token);
    if cut < 1 || cut == |token| - 1 then Refused(Malformed(token))
    else
      var name, digits := token[..cut], token[cut + 1..];
      var generation := ParseUint(digits);
      if generation.None? then Refused(NotUnsigned(token))
      else if !Legal(name) then Refused(IllegalName(name))
      else Asked(name, generation.value)
  }

  // ── a token list ──────────────────────────────────────────────────────

  /** Each token read, no name twice. */
  ghost predicate Readable(tokens: seq<string>) {
    (forall i | 0 <= i < |tokens| :: ReadToken(tokens[i]).Asked?)
    && forall i, j | 0 <= i < j < |tokens| :: ReadToken(tokens[i]).name != ReadToken(tokens[j]).name
  }

  /** The order and the map a readable list stands for. */
  ghost predicate Reads(tokens: seq<string>, order: seq<string>, generations: map<string, nat>)
    requires Readable(tokens)
  {
    |order| == |tokens|
    && (forall i | 0 <= i < |tokens| ::
          order[i] == ReadToken(tokens[i]).name && order[i] in generations
          && generations[order[i]] == ReadToken(tokens[i]).generation)
    && (forall name | name in generations :: name in order)
  }

  datatype Parsed = Ok(order: seq<string>, generations: map<string, nat>) | Failed(fault: Fault)

  /** Why a list is refused: by its first token that cannot be taken. */
  ghost predicate FaultAt(tokens: seq<string>, i: nat, fault: Fault) {
    i < |tokens| && Readable(tokens[..i])
    && match ReadToken(tokens[i])
       case Refused(f) => fault == f
       case Asked(name, _) => fault == Twice(name) && NamedIn(tokens[..i], name)
  }

  ghost predicate NamedIn(tokens: seq<string>, name: string) {
    exists i | 0 <= i < |tokens| :: ReadToken(tokens[i]).Asked? && ReadToken(tokens[i]).name == name
  }

  method ParseCollect(tokens: seq<string>) returns (r: Parsed)
    ensures r.Ok? <==> tokens != [] && Readable(tokens)
    ensures r.Ok? ==> Reads(tokens, r.order, r.generations)
    ensures r.Failed? ==> if tokens == [] then r.fault == Empty else exists i :: FaultAt(tokens, i, r.fault)
  {
    if |tokens| == 0 {
      return Failed(Empty);
    }
    var order: seq<string>, generations: map<string, nat> := [], map[];
    for i := 0 to |tokens|
      invariant Readable(tokens[..i]) && Reads(tokens[..i], order, generations)
    {
      var token := tokens[i];
      var cut := LastColon(token);
      ghost var before := tokens[..i];
      assert tokens[..i + 1] == before + [token];
      if cut < 1 || cut == |token| - 1 {
        assert FaultAt(tokens, i, Malformed(token));
        NotReadable(tokens, i);
        return Failed(Malformed(token));
      }
      var name, digits := token[..cut], token[cut + 1..];
      var generation := ParseUint(digits);
      if generation.None? {
        assert FaultAt(tokens, i, NotUnsigned(token));
        NotReadable(tokens, i);
        return Failed(NotUnsigned(token));
      }
      if !Legal(name) {
        assert FaultAt(tokens, i, IllegalName(name));
        NotReadable(tokens, i);
        return Failed(IllegalName(name));
      }
      if name in generations {
        Repeated(tokens, i, order, generations);
        return Failed(Twice(name));
      }
      NextReads(before, token, order, generations);
      order := order + [name];
      generations := generations[name := generation.value];
    }
    assert tokens[..|tokens|] == tokens;
    r := Ok(order, generations);
  }

  lemma NotReadable(tokens: seq<string>, i: nat)
    requires i < |tokens| && ReadToken(tokens[i]).Refused?
    ensures !Readable(tokens)
  {}

  lemma Repeated(tokens: seq<string>, i: nat, order: seq<string>, generations: map<string, nat>)
    requires i < |tokens| && Readable(tokens[..i]) && Reads(tokens[..i], order, generations)
    requires ReadToken(tokens[i]).Asked? && ReadToken(tokens[i]).name in generations
    ensures !Readable(tokens) && FaultAt(tokens, i, Twice(ReadToken(tokens[i]).name))
  {
    var name := ReadToken(tokens[i]).name;
    var j :| 0 <= j < |order| && order[j] == name;
    assert tokens[..i][j] == tokens[j];
    assert NamedIn(tokens[..i], name);
  }

  lemma NextReads(before: seq<string>, token: string, order: seq<string>, generations: map<string, nat>)
    requires Readable(before) && Reads(before, order, generations)
    requires ReadToken(token).Asked? && ReadToken(token).name !in generations
    ensures var read := ReadToken(token);
      Readable(before + [token])
      && Reads(before + [token], order + [read.name], generations[read.name := read.generation])
  {
    forall i | 0 <= i < |before| ensures ReadToken(before[i]).name != ReadToken(token).name {
      assert order[i] in generations;
    }
  }

  /** A list stands for one order and one map. */
  lemma ReadsUnique(tokens: seq<string>, order: seq<string>, generations: map<string, nat>,
                    order': seq<string>, generations': map<string, nat>)
    requires Readable(tokens) && Reads(tokens, order, generations) && Reads(tokens, order', generations')
    ensures order == order' && generations == generations'
  {
    assert order == order';
    forall name | name in order
      ensures name in generations && name in generations' && generations[name] == generations'[name]
    {
      var i :| 0 <= i < |order| && order[i] == name;
    }
    assert generations.Keys == generations'.Keys;
  }

  // ── the Python side ───────────────────────────────────────────────────

  /** `str.isdigit()` and `int()`, which know more digits than ASCII's and not the
      same ones: a superscript is a digit, and no ValueError is caught. */
  datatype Digits = Digits(isDigit: string -> bool, figure: string -> Option<nat>)

  /** What is asked of the two: ASCII digits are digits, of the value they spell. */
  ghost predicate KnowsAscii(py: Digits) {
    !py.isDigit("")
    && forall s | s != "" && AllDigits(s) :: py.isDigit(s) && py.figure(s) == Some(Decimal(s))
  }

  function DigitsOf(token: string): string {
    token[LastColon(token) + 1..]
  }

  /** token.rpartition(":") and the two tests on it, then `int()`. */
  function ReadLoosely(py: Digits, token: string): Read {
    var cut, digits := LastColon(token), DigitsOf(token);
    var name := if cut < 0 then "" else token[..cut];
    if name == "" || !py.isDigit(digits) then Refused(Malformed(token))
    else if py.figure(digits).None? then Refused(NotUnsigned(token))
    else Asked(name, py.figure(digits).value)
  }

  ghost predicate LooselyReadable(py: Digits, tokens: seq<string>) {
    forall i | 0 <= i < |tokens| :: ReadLoosely(py, tokens[i]).Asked?
  }

  /** The dict: of a name given twice, the last generation. */
  function Dict(py: Digits, tokens: seq<string>): map<string, nat>
    requires forall i | 0 <= i < |tokens| :: ReadLoosely(py, tokens[i]).Asked?
  {
    if tokens == [] then map[]
    else
      var read := ReadLoosely(py, tokens[|tokens| - 1]);
      Dict(py, tokens[..|tokens| - 1])[read.name := read.generation]
  }

  datatype Mapped = Mapped(generations: map<string, nat>) | Fails(fault: Fault)

  /** NotUnsigned is the ValueError that escapes; any other fault is reported. */
  method ParseGenerations(py: Digits, tokens: seq<string>) returns (r: Mapped)
    ensures r.Mapped? <==> tokens != [] && LooselyReadable(py, tokens)
    ensures r.Mapped? ==> r.generations == Dict(py, tokens)
    ensures r.Fails? ==>
      if tokens == [] then r.fault == Empty
      else exists i | 0 <= i < |tokens| ::
        LooselyReadable(py, tokens[..i]) && ReadLoosely(py, tokens[i]) == Refused(r.fault)
  {
    if tokens == [] {
      return Fails(Empty);
    }
    var generations: map<string, nat> := map[];
    for i := 0 to |tokens|
      invariant LooselyReadable(py, tokens[..i]) && generations == Dict(py, tokens[..i])
    {
      assert tokens[..i + 1][..i] == tokens[..i];
      var read := ReadLoosely(py, tokens[i]);
      if read.Refused? {
        return Fails(read.fault);
      }
      generations := generations[read.name := read.generation];
    }
    assert tokens[..|tokens|] == tokens;
    r := Mapped(generations);
  }

  /** What Go asks of a token beyond what Python does. */
  predicate Strict(py: Digits, token: string) {
    var read := ReadLoosely(py, token);
    read.Asked? && AllDigits(DigitsOf(token)) && Legal(read.name)
    && read.generation < 0x1_0000_0000_0000_0000
  }

  lemma ReadersAgree(py: Digits, token: string)
    requires KnowsAscii(py)
    ensures ReadToken(token).Asked? <==> Strict(py, token)
    ensures ReadToken(token).Asked? ==> ReadToken(token) == ReadLoosely(py, token)
  {
    var digits := DigitsOf(token);
    assert digits != "" && AllDigits(digits) ==> py.isDigit(digits) && py.figure(digits) == Some(Decimal(digits));
  }

  /** Go accepts exactly what Python accepts with legal names, none repeated, and
      generations of 64 bits in ASCII digits; and then both read the same map. */
  lemma GoAcceptsIff(py: Digits, tokens: seq<string>)
    requires KnowsAscii(py)
    ensures Readable(tokens) <==>
      LooselyReadable(py, tokens)
      && (forall i | 0 <= i < |tokens| :: Strict(py, tokens[i]))
      && (forall i, j | 0 <= i < j < |tokens| ::
            ReadLoosely(py, tokens[i]).name != ReadLoosely(py, tokens[j]).name)
    ensures Readable(tokens) ==> forall order, generations | Reads(tokens, order, generations) ::
      generations == Dict(py, tokens)
  {
    forall i | 0 <= i < |tokens|
      ensures ReadToken(tokens[i]).Asked? <==> Strict(py, tokens[i])
      ensures ReadToken(tokens[i]).Asked? ==> ReadToken(tokens[i]) == ReadLoosely(py, tokens[i])
    {
      ReadersAgree(py, tokens[i]);
    }
    if Readable(tokens) {
      var order := DictReads(py, tokens);
      forall o, g | Reads(tokens, o, g) ensures g == Dict(py, tokens) {
        ReadsUnique(tokens, o, g, order, Dict(py, tokens));
      }
    }
  }

  lemma FreshName(before: seq<string>, token: string, order: seq<string>, generations: map<string, nat>)
    requires Readable(before + [token]) && Readable(before) && Reads(before, order, generations)
    ensures ReadToken(token).Asked? && ReadToken(token).name !in generations
  {
    var all := before + [token];
    assert all[|before|] == token;
    forall i | 0 <= i < |order| ensures order[i] != ReadToken(token).name {
      assert all[i] == before[i];
    }
  }

  lemma {:induction false} DictReads(py: Digits, tokens: seq<string>) returns (order: seq<string>)
    requires KnowsAscii(py) && Readable(tokens) && LooselyReadable(py, tokens)
    ensures Reads(tokens, order, Dict(py, tokens))
  {
    if tokens == [] {
      order := [];
    } else {
      var before, token := tokens[..|tokens| - 1], tokens[|tokens| - 1];
      assert tokens == before + [token];
      ReadersAgree(py, token);
      order := DictReads(py, before);
      FreshName(before, token, order, Dict(py, before));
      NextReads(before, token, order, Dict(py, before));
      order := order + [ReadToken(token).name];
    }
  }
}
