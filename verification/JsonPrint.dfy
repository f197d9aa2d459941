/** Whole documents as JSON text: both printers, and the compact RFC 8259 reader
    that undoes them. */
module JsonPrint {
  import opened Document
  import opened OrderedDict
  import opened JsonText

  // ── numbers (RFC 8259, section 6) ─────────────────────────────────────

  predicate IsDigit(c: char) {
    '0' <= c <= '9'
  }

  predicate InNumber(c: char) {
    IsDigit(c) || c == '-' || c == '+' || c == '.' || c == 'e' || c == 'E'
  }

  function Digits(s: string): (n: nat)
    ensures n <= |s|
  {
    if s == "" || !IsDigit(s[0]) then 0 else 1 + Digits(s[1..])
  }

  predicate NumberLiteral(s: string) {
    var unsigned := if s != "" && s[0] == '-' then s[1..] else s;
    var n := Digits(unsigned);
    n > 0 && (unsigned[0] == '0' ==> n == 1) && FractionAndExponent(unsigned[n..])
  }

  predicate FractionAndExponent(s: string) {
    if s != "" && s[0] == '.' then
      var n := Digits(s[1..]);
      n > 0 && Exponent(s[1 + n..])
    else Exponent(s)
  }

  predicate Exponent(s: string) {
    s == "" ||
    ((s[0] == 'e' || s[0] == 'E') &&
      var power := if |s| > 1 && (s[1] == '+' || s[1] == '-') then s[2..] else s[1..];
      power != "" && Digits(power) == |power|)
  }

  function NumberRun(t: string): (n: nat)
    ensures n <= |t|
  {
    if t == "" || !InNumber(t[0]) then 0 else 1 + NumberRun(t[1..])
  }

  ghost predicate AllInNumber(s: string) {
    forall i | 0 <= i < |s| :: InNumber(s[i])
  }

  lemma {:induction false} DigitsInNumber(s: string)
    ensures AllInNumber(s[..Digits(s)])
  {
    if s != "" && IsDigit(s[0]) {
      DigitsInNumber(s[1..]);
      assert s[..Digits(s)] == [s[0]] + s[1..][..Digits(s[1..])];
    }
  }

  lemma ExponentInNumber(s: string)
    requires Exponent(s)
    ensures AllInNumber(s)
  {
    if s != "" {
      var n := if |s| > 1 && (s[1] == '+' || s[1] == '-') then 2 else 1;
      DigitsInNumber(s[n..]);
      assert s == s[..n] + s[n..][..|s| - n];
    }
  }

  lemma FractionInNumber(s: string)
    requires FractionAndExponent(s)
    ensures AllInNumber(s)
  {
    if s != "" && s[0] == '.' {
      var n := Digits(s[1..]);
      DigitsInNumber(s[1..]);
      ExponentInNumber(s[1 + n..]);
      assert s == [s[0]] + s[1..][..n] + s[1 + n..];
    } else {
      ExponentInNumber(s);
    }
  }

  lemma LiteralInNumber(s: string)
    requires NumberLiteral(s)
    ensures s != "" && AllInNumber(s)
  {
    var m := if s[0] == '-' then 1 else 0;
    var n := Digits(s[m..]);
    DigitsInNumber(s[m..]);
    FractionInNumber(s[m..][n..]);
    assert s == s[..m] + s[m..][..n] + s[m..][n..];
  }

  // ── the printers ──────────────────────────────────────────────────────

  /** `appendJSON`, and docker's `appendTo`; only bazarr spells a number it
      never read, as 0. */
  function Print(style: Style, v: Value): string {
    match v
    case Null => "null"
    case Bool(b) => if b then "true" else "false"
    case Number(literal) => if literal == "" && style.Ascii? then "0" else literal
    case Text(s) => Quote(style, s)
    case Arr(items) => ['['] + PrintItems(style, items) + [']']
    case Obj(members) => ['{'] + PrintMembers(style, members) + ['}']
  }

  function PrintItems(style: Style, items: seq<Value>): string {
    if items == [] then ""
    else if |items| == 1 then Print(style, items[0])
    else Print(style, items[0]) + [','] + PrintItems(style, items[1..])
  }

  function PrintMember(style: Style, m: Member): string {
    Quote(style, m.key) + [':'] + Print(style, m.value)
  }

  function PrintMembers(style: Style, members: seq<Member>): string {
    if members == [] then ""
    else if |members| == 1 then PrintMember(style, members[0])
    else PrintMember(style, members[0]) + [','] + PrintMembers(style, members[1..])
  }

  lemma {:induction false} ItemsGrow(style: Style, items: seq<Value>, v: Value)
    ensures PrintItems(style, items + [v])
      == PrintItems(style, items) + (if items == [] then "" else [',']) + Print(style, v)
  {
    if items != [] {
      ItemsGrow(style, items[1..], v);
      assert (items + [v])[1..] == items[1..] + [v];
    }
  }

  lemma {:induction false} MembersGrow(style: Style, members: seq<Member>, m: Member)
    ensures PrintMembers(style, members + [m])
      == PrintMembers(style, members) + (if members == [] then "" else [',']) + PrintMember(style, m)
  {
    if members != [] {
      MembersGrow(style, members[1..], m);
      assert (members + [m])[1..] == members[1..] + [m];
    }
  }

  method AppendJson(out: string, style: Style, v: Value) returns (out': string)
    ensures out' == out + Print(style, v)
    decreases v
  {
    match v
    case Null =>
      out' := out + "null";
    case Bool(b) =>
      out' := out + if b then "true" else "false";
    case Number(literal) =>
      out' := out + if literal == "" && style.Ascii? then "0" else literal;
    case Text(s) =>
      out' := AppendQuoted(out, style, s);
    case Arr(items) =>
      var body := AppendItems(style, items);
      out' := out + (['['] + body + [']']);
    case Obj(members) =>
      var body := AppendMembers(style, members);
      out' := out + (['{'] + body + ['}']);
  }

  method AppendItems(style: Style, items: seq<Value>) returns (body: string)
    ensures body == PrintItems(style, items)
    decreases items
  {
    body := "";
    for i := 0 to |items|
      invariant body == PrintItems(style, items[..i])
    {
      assert items[..i + 1] == items[..i] + [items[i]];
      ItemsGrow(style, items[..i], items[i]);
      if i > 0 {
        body := body + [','];
      }
      body := AppendJson(body, style, items[i]);
    }
    assert items[..|items|] == items;
  }

  method AppendMembers(style: Style, members: seq<Member>) returns (body: string)
    ensures body == PrintMembers(style, members)
    decreases members
  {
    body := "";
    for i := 0 to |members|
      invariant body == PrintMembers(style, members[..i])
    {
      assert members[..i + 1] == members[..i] + [members[i]];
      MembersGrow(style, members[..i], members[i]);
      if i > 0 {
        body := body + [','];
      }
      body := AppendMember(body, style, members[i]);
    }
    assert members[..|members|] == members;
  }

  method AppendMember(out: string, style: Style, m: Member) returns (out': string)
    ensures out' == out + PrintMember(style, m)
    decreases m
  {
    var key := AppendQuoted("", style, m.key);
    var value := AppendJson(key + [':'], style, m.value);
    out' := out + value;
  }

  // ── the reader ────────────────────────────────────────────────────────

  function ReadWord(t: string, word: string, v: Value): Read<Value> {
    if |word| <= |t| && t[..|word|] == word then Got(v, t[|word|..]) else Bad
  }

  /** A value from the front of compact JSON text. */
  function ReadValue(t: string): (r: Read<Value>)
    ensures r.Got? ==> |r.rest| < |t|
    decreases |t|, 0
  {
    if t == "" then Bad
    else if t[0] == '"' then
      (match ReadString(t[1..])
       case Bad => Bad
       case Got(s, rest) => Got(Text(s), rest))
    else if t[0] == '[' then
      if |t| > 1 && t[1] == ']' then Got(Arr([]), t[2..])
      else
        (match ReadItems(t[1..])
         case Bad => Bad
         case Got(items, rest) => Got(Arr(items), rest))
    else if t[0] == '{' then
      if |t| > 1 && t[1] == '}' then Got(Obj([]), t[2..])
      else
        (match ReadMembers(t[1..])
         case Bad => Bad
         case Got(pairs, rest) => Got(Obj(Assigned(pairs)), rest))
    else if t[0] == 'n' then ReadWord(t, "null", Null)
    else if t[0] == 't' then ReadWord(t, "true", Bool(true))
    else if t[0] == 'f' then ReadWord(t, "false", Bool(false))
    else
      var n := NumberRun(t);
      if NumberLiteral(t[..n]) then Got(Number(t[..n]), t[n..]) else Bad
  }

  /** Values between commas, to past the closing bracket. */
  function ReadItems(t: string): (r: Read<seq<Value>>)
    ensures r.Got? ==> |r.rest| < |t|
    decreases |t|, 1
  {
    match ReadValue(t)
    case Bad => Bad
    case Got(v, rest) =>
      if rest != "" && rest[0] == ',' then
        match ReadItems(rest[1..])
        case Bad => Bad
        case Got(items, rest') => Got([v] + items, rest')
      else if rest != "" && rest[0] == ']' then Got([v], rest[1..])
      else Bad
  }

  function ReadMembers(t: string): (r: Read<seq<Member>>)
    ensures r.Got? ==> |r.rest| < |t|
    decreases |t|, 1
  {
    if t == "" || t[0] != '"' then Bad
    else
      match ReadString(t[1..])
      case Bad => Bad
      case Got(key, colon) =>
        if colon == "" || colon[0] != ':' then Bad
        else
          match ReadValue(colon[1..])
          case Bad => Bad
          case Got(v, rest) =>
            if rest != "" && rest[0] == ',' then
              match ReadMembers(rest[1..])
              case Bad => Bad
              case Got(members, rest') => Got([Member(key, v)] + members, rest')
            else if rest != "" && rest[0] == '}' then Got([Member(key, v)], rest[1..])
            else Bad
  }

  // ── reading undoes printing ───────────────────────────────────────────

  /** Every number is one a JSON document could have spelled. */
  predicate Literals(v: Value) {
    match v
    case Number(literal) => NumberLiteral(literal)
    case Arr(items) => forall x | x in items :: Literals(x)
    case Obj(members) => forall m | m in members :: Literals(m.value)
    case _ => true
  }

  predicate Ends(rest: string) {
    rest == "" || !InNumber(rest[0])
  }

  lemma {:induction false} RunBack(literal: string, rest: string)
    requires AllInNumber(literal) && Ends(rest)
    ensures NumberRun(literal + rest) == |literal|
  {
    if literal == "" {
      assert literal + rest == rest;
    } else {
      RunBack(literal[1..], rest);
      assert (literal + rest)[1..] == literal[1..] + rest;
    }
  }

  lemma NumberBack(literal: string, rest: string)
    requires NumberLiteral(literal) && Ends(rest)
    ensures ReadValue(literal + rest) == Got(Number(literal), rest)
  {
    LiteralInNumber(literal);
    RunBack(literal, rest);
    var t := literal + rest;
    assert t[0] == literal[0];
    assert t[..|literal|] == literal && t[|literal|..] == rest;
  }

  lemma WordBack(word: string, v: Value, rest: string)
    ensures ReadWord(word + rest, word, v) == Got(v, rest)
  {
    assert (word + rest)[..|word|] == word && (word + rest)[|word|..] == rest;
  }

  lemma TextBack(style: Style, s: string, rest: string)
    ensures ReadValue(Quote(style, s) + rest) == Got(Text(s), rest)
  {
    QuoteBack(style, s, rest);
    QuotedReads(Body(style, s), s, rest);
  }

  lemma QuotedReads(body: string, s: string, rest: string)
    requires ReadString(body + ['"'] + rest) == Got(s, rest)
    ensures ReadValue(['"'] + body + ['"'] + rest) == Got(Text(s), rest)
  {
    assert (['"'] + body + ['"'] + rest)[1..] == body + ['"'] + rest;
  }

  lemma PrintStarts(style: Style, v: Value)
    requires Literals(v)
    ensures Print(style, v) != "" && Print(style, v)[0] != ']'
  {
    if v.Number? {
      LiteralInNumber(v.literal);
    }
  }

  lemma ItemsStart(style: Style, items: seq<Value>)
    requires items != [] && Literals(items[0])
    ensures PrintItems(style, items) != "" && PrintItems(style, items)[0] != ']'
  {
    PrintStarts(style, items[0]);
  }

  lemma MembersStart(style: Style, members: seq<Member>)
    requires members != []
    ensures PrintMembers(style, members) != "" && PrintMembers(style, members)[0] == '"'
  {}

  ghost predicate Sound(v: Value) {
    WellFormed(v) && Literals(v)
  }

  // One step of the reader each, on text alone.

  lemma ItemsLast(t: string, v: Value, rest: string)
    requires ReadValue(t) == Got(v, [']'] + rest)
    ensures ReadItems(t) == Got([v], rest)
  {
    assert ([']'] + rest)[1..] == rest;
  }

  lemma ItemsMore(t: string, v: Value, more: string, items: seq<Value>, rest: string)
    requires ReadValue(t) == Got(v, [','] + more) && ReadItems(more) == Got(items, rest)
    ensures ReadItems(t) == Got([v] + items, rest)
  {
    assert ([','] + more)[1..] == more;
  }

  lemma ArrReads(body: string, items: seq<Value>, rest: string)
    requires body != "" && body[0] != ']' && ReadItems(body) == Got(items, rest)
    ensures ReadValue(['['] + body) == Got(Arr(items), rest)
  {
    assert (['['] + body)[1..] == body;
  }

  lemma ObjReads(body: string, pairs: seq<Member>, rest: string)
    requires body != "" && body[0] != '}' && ReadMembers(body) == Got(pairs, rest)
    ensures ReadValue(['{'] + body) == Got(Obj(Assigned(pairs)), rest)
  {
    assert (['{'] + body)[1..] == body;
  }

  /** A member's text opens with its key and goes on with its value. */
  ghost predicate Opens(t: string, key: string, value: string) {
    t != "" && t[0] == '"' && ReadString(t[1..]) == Got(key, [':'] + value)
  }

  lemma MembersLast(t: string, m: Member, value: string, rest: string)
    requires Opens(t, m.key, value) && ReadValue(value) == Got(m.value, ['}'] + rest)
    ensures ReadMembers(t) == Got([m], rest)
  {
    assert ([':'] + value)[1..] == value && (['}'] + rest)[1..] == rest;
  }

  lemma MembersMore(t: string, m: Member, value: string, more: string, members: seq<Member>,
                    rest: string)
    requires Opens(t, m.key, value) && ReadValue(value) == Got(m.value, [','] + more)
    requires ReadMembers(more) == Got(members, rest)
    ensures ReadMembers(t) == Got([m] + members, rest)
  {
    assert ([':'] + value)[1..] == value && ([','] + more)[1..] == more;
  }

  /** The text of several, split after the first comma. */
  lemma Regrouped(p: string, q: string, close: string)
    ensures p + [','] + q + close == p + ([','] + (q + close))
  {}

  lemma ItemsSplit(style: Style, items: seq<Value>, close: string)
    requires |items| > 1
    ensures PrintItems(style, items) + close
      == Print(style, items[0]) + ([','] + (PrintItems(style, items[1..]) + close))
  {
    Regrouped(Print(style, items[0]), PrintItems(style, items[1..]), close);
  }

  lemma MembersSplit(style: Style, members: seq<Member>, close: string)
    requires |members| > 1
    ensures PrintMembers(style, members) + close
      == PrintMember(style, members[0]) + ([','] + (PrintMembers(style, members[1..]) + close))
  {
    Regrouped(PrintMember(style, members[0]), PrintMembers(style, members[1..]), close);
  }

  lemma Spliced(key: string, value: string, rest: string)
    ensures (['"'] + key + ['"'] + [':'] + value + rest)[1..] == key + ['"'] + ([':'] + (value + rest))
  {}

  lemma KeyOpens(quoted: string, key: string, value: string, rest: string)
    requires ReadString(quoted + ['"'] + ([':'] + (value + rest))) == Got(key, [':'] + (value + rest))
    ensures Opens(['"'] + quoted + ['"'] + [':'] + value + rest, key, value + rest)
  {
    Spliced(quoted, value, rest);
  }

  lemma MemberOpens(style: Style, m: Member, rest: string)
    ensures Opens(PrintMember(style, m) + rest, m.key, Print(style, m.value) + rest)
  {
    QuoteBack(style, m.key, [':'] + (Print(style, m.value) + rest));
    KeyOpens(Body(style, m.key), m.key, Print(style, m.value), rest);
  }

  // ── the round trip ────────────────────────────────────────────────────

  /** The compact text of a document reads back as that document, member order
      and number literals intact, whatever follows it. */
  lemma {:induction false} ValueBack(style: Style, v: Value, rest: string)
    requires Sound(v) && Ends(rest)
    ensures ReadValue(Print(style, v) + rest) == Got(v, rest)
    decreases v, 0
  {
    match v
    case Null => WordBack("null", v, rest);
    case Bool(b) => WordBack(if b then "true" else "false", v, rest);
    case Number(literal) => LiteralInNumber(literal); NumberBack(literal, rest);
    case Text(s) => TextBack(style, s, rest);
    case Arr(items) => ArrBack(style, items, rest);
    case Obj(members) => ObjBack(style, members, rest);
  }

  lemma ArrBack(style: Style, items: seq<Value>, rest: string)
    requires forall x | x in items :: Sound(x)
    ensures ReadValue(Print(style, Arr(items)) + rest) == Got(Arr(items), rest)
    decreases items, 2
  {
    if items == [] {
      assert (Print(style, Arr(items)) + rest)[2..] == rest;
    } else {
      var body := PrintItems(style, items);
      ItemsBack(style, items, rest);
      assert Sound(items[0]);
      ItemsStart(style, items);
      ArrReads(body + ([']'] + rest), items, rest);
      assert ['['] + body + [']'] + rest == ['['] + (body + ([']'] + rest));
    }
  }

  lemma ObjBack(style: Style, members: seq<Member>, rest: string)
    requires DistinctKeys(members) && forall m | m in members :: Sound(m.value)
    ensures ReadValue(Print(style, Obj(members)) + rest) == Got(Obj(members), rest)
    decreases members, 2
  {
    if members == [] {
      assert (Print(style, Obj(members)) + rest)[2..] == rest;
    } else {
      var body := PrintMembers(style, members);
      MembersBack(style, members, rest);
      MembersStart(style, members);
      AssignedDistinct(members);
      Wrapped(['{'], body, ['}'], rest);
      ObjReads(body + (['}'] + rest), members, rest);
    }
  }

  lemma Wrapped(open: string, body: string, close: string, rest: string)
    ensures open + body + close + rest == open + (body + (close + rest))
  {}

  lemma {:induction false} ItemsBack(style: Style, items: seq<Value>, rest: string)
    requires items != [] && forall x | x in items :: Sound(x)
    ensures ReadItems(PrintItems(style, items) + ([']'] + rest)) == Got(items, rest)
    decreases items, 1
  {
    var close := [']'] + rest;
    assert items == [items[0]] + items[1..];
    if |items| == 1 {
      assert items == [items[0]];
      ValueBack(style, items[0], close);
      ItemsLast(Print(style, items[0]) + close, items[0], rest);
    } else {
      var more := PrintItems(style, items[1..]) + close;
      ItemsBack(style, items[1..], rest);
      ValueBack(style, items[0], [','] + more);
      ItemsSplit(style, items, close);
      ItemsMore(PrintItems(style, items) + close, items[0], more, items[1..], rest);
    }
  }

  lemma {:induction false} MembersBack(style: Style, members: seq<Member>, rest: string)
    requires members != [] && forall m | m in members :: Sound(m.value)
    ensures ReadMembers(PrintMembers(style, members) + (['}'] + rest)) == Got(members, rest)
    decreases members, 1
  {
    var m, close := members[0], ['}'] + rest;
    assert members == [m] + members[1..];
    if |members| == 1 {
      assert members == [m];
      ValueBack(style, m.value, close);
      MemberOpens(style, m, close);
      MembersLast(PrintMember(style, m) + close, m, Print(style, m.value) + close, rest);
    } else {
      var more := PrintMembers(style, members[1..]) + close;
      MembersBack(style, members[1..], rest);
      ValueBack(style, m.value, [','] + more);
      MemberOpens(style, m, [','] + more);
      MembersSplit(style, members, close);
      MembersMore(PrintMembers(style, members) + close, m, Print(style, m.value) + ([','] + more), more,
                  members[1..], rest);
    }
  }

  /** The whole text is read, and only one document has it. */
  lemma PrintInjective(style: Style, other: Style, v: Value, w: Value)
    requires Sound(v) && Sound(w)
    ensures ReadValue(Print(style, v)) == Got(v, "")
    ensures Print(style, v) == Print(other, w) ==> v == w
  {
    ValueBack(style, v, "");
    ValueBack(other, w, "");
    assert Print(style, v) + "" == Print(style, v) && Print(other, w) + "" == Print(other, w);
  }

  // ── a fact row: tokens already printed ────────────────────────────────

  /** The row's tokens are the printed values of these members, in its order. */
  ghost predicate RowOf(row: KeyedStore<string>, members: seq<Member>)
    reads row
  {
    row.Valid() && |members| == |row.keys|
    && forall i | 0 <= i < |members| ::
         members[i].key == row.keys[i] && row.byKey[row.keys[i]] == Print(Ascii, members[i].value)
  }

  lemma RowNext(members: seq<Member>, i: nat, key: string, token: string)
    requires i < |members| && members[i].key == key && token == Print(Ascii, members[i].value)
    ensures PrintMembers(Ascii, members[..i + 1])
      == PrintMembers(Ascii, members[..i]) + (if i == 0 then "" else [','])
         + (Quote(Ascii, key) + [':'] + token)
  {
    assert members[..i + 1] == members[..i] + [members[i]];
    MembersGrow(Ascii, members[..i], members[i]);
  }

  method EncodeFact(body: string, i: nat, key: string, token: string) returns (body': string)
    ensures body' == body + (if i == 0 then "" else [',']) + (Quote(Ascii, key) + [':'] + token)
  {
    body' := body;
    if i > 0 {
      body' := body' + [','];
    }
    var member := AppendQuoted("", Ascii, key);
    assert i == 0 ==> body + "" == body;
    body' := body' + (member + [':'] + token);
  }

  /** `factRow.encode`: the row travels as the object of its facts. */
  method EncodeRow(row: KeyedStore<string>, ghost members: seq<Member>) returns (out: string)
    requires RowOf(row, members)
    ensures out == Print(Ascii, Obj(members))
  {
    var body := "";
    for i := 0 to |row.keys|
      invariant body == PrintMembers(Ascii, members[..i])
    {
      RowNext(members, i, row.keys[i], row.byKey[row.keys[i]]);
      body := EncodeFact(body, i, row.keys[i], row.byKey[row.keys[i]]);
    }
    assert members[..|members|] == members;
    out := ['{'] + body + ['}'];
  }

  // ── one line ──────────────────────────────────────────────────────────

  ghost predicate OneLine(s: string) {
    forall i | 0 <= i < |s| :: s[i] as int >= 0x20
  }

  lemma OneLineJoins(a: string, b: string)
    ensures OneLine(a + b) <==> OneLine(a) && OneLine(b)
  {
    forall i | 0 <= i < |a| ensures (a + b)[i] == a[i] {}
    forall i | 0 <= i < |b| ensures (a + b)[|a| + i] == b[i] {}
  }

  /** A printed document never breaks the line its record travels on. */
  lemma {:induction false} PrintIsOneLine(style: Style, v: Value)
    requires Literals(v)
    ensures OneLine(Print(style, v))
    decreases v
  {
    match v
    case Number(literal) => LiteralInNumber(literal);
    case Text(s) => QuoteIsOneLine(style, s);
    case Arr(items) =>
      ItemsOneLine(style, items);
      BracketsOneLine(['['], PrintItems(style, items), [']']);
    case Obj(members) =>
      MembersOneLine(style, members);
      BracketsOneLine(['{'], PrintMembers(style, members), ['}']);
    case _ =>
  }

  lemma BracketsOneLine(open: string, body: string, close: string)
    requires OneLine(open) && OneLine(body) && OneLine(close)
    ensures OneLine(open + body + close)
  {
    OneLineJoins(open, body);
    OneLineJoins(open + body, close);
  }

  lemma QuoteIsOneLine(style: Style, s: string)
    ensures OneLine(Quote(style, s))
  {
    QuotedIsPlain(style, s);
    OneLineJoins(['"'], Body(style, s));
    OneLineJoins(['"'] + Body(style, s), ['"']);
  }

  lemma {:induction false} ItemsOneLine(style: Style, items: seq<Value>)
    requires forall x | x in items :: Literals(x)
    ensures OneLine(PrintItems(style, items))
    decreases items
  {
    if items != [] {
      var p, q := Print(style, items[0]), PrintItems(style, items[1..]);
      PrintIsOneLine(style, items[0]);
      ItemsOneLine(style, items[1..]);
      OneLineJoins(p, [',']);
      OneLineJoins(p + [','], q);
    }
  }

  lemma {:induction false} MembersOneLine(style: Style, members: seq<Member>)
    requires forall m | m in members :: Literals(m.value)
    ensures OneLine(PrintMembers(style, members))
    decreases members
  {
    if members != [] {
      var m := members[0];
      var key, p, q := Quote(style, m.key), Print(style, m.value), PrintMembers(style, members[1..]);
      PrintIsOneLine(style, m.value);
      QuoteIsOneLine(style, m.key);
      MembersOneLine(style, members[1..]);
      OneLineJoins(key, [':']);
      OneLineJoins(key + [':'], p);
      OneLineJoins(key + [':'] + p, [',']);
      OneLineJoins(key + [':'] + p + [','], q);
    }
  }
}
