/** Printing a document as JSON text, and reading JSON text back: the two string
    encoders (`appendQuoted` and `appendJSONString`) and the printers around them. */
module JsonText {
  import opened Options

  /** bazarr escapes everything outside printable ASCII; docker escapes exactly
      what JSON requires. */
  datatype Style = Ascii | Minimal

  // ── strings ───────────────────────────────────────────────────────────

  function HexDigit(n: nat): char
    requires n < 16
  {
    if n < 10 then ('0' as int + n) as char else ('a' as int + n - 10) as char
  }

  /** `appendEscape` */
  function Escape(unit: nat): string
    requires unit < 0x10000
  {
    ['\\', 'u', HexDigit(unit / 4096), HexDigit(unit / 256 % 16), HexDigit(unit / 16 % 16),
     HexDigit(unit % 16)]
  }

  function High(c: char): nat
    requires c as int > 0xFFFF
  {
    0xD800 + (c as int - 0x10000) / 1024
  }

  function Low(c: char): nat
    requires c as int > 0xFFFF
  {
    0xDC00 + (c as int - 0x10000) % 1024
  }

  function Escaped(style: Style, c: char): string {
    if c == '"' then ['\\', '"']
    else if c == '\\' then ['\\', '\\']
    else if c == '\n' then ['\\', 'n']
    else if c == '\r' then ['\\', 'r']
    else if c == '\t' then ['\\', 't']
    else if style.Ascii? then
      if c as int == 8 then ['\\', 'b']
      else if c as int == 12 then ['\\', 'f']
      else if 0x20 <= c as int <= 0x7E then [c]
      else if c as int > 0xFFFF then Escape(High(c)) + Escape(Low(c))
      else Escape(c as int)
    else if c as int < 0x20 then Escape(c as int)
    else [c]
  }

  function Body(style: Style, s: string): string {
    if s == "" then "" else Escaped(style, s[0]) + Body(style, s[1..])
  }

  function Quote(style: Style, s: string): string {
    ['"'] + Body(style, s) + ['"']
  }

  lemma {:induction false} BodyGrows(style: Style, s: string, c: char)
    ensures Body(style, s + [c]) == Body(style, s) + Escaped(style, c)
  {
    if s == "" {
      assert (s + [c])[1..] == "";
    } else {
      assert (s + [c])[1..] == s[1..] + [c];
      BodyGrows(style, s[1..], c);
      Joins(Escaped(style, s[0]), Body(style, s[1..]), Escaped(style, c));
    }
  }

  lemma Joins(a: string, b: string, c: string)
    ensures a + (b + c) == a + b + c
  {}

  lemma BodyNext(style: Style, s: string, i: nat)
    requires i < |s|
    ensures Body(style, s[..i + 1]) == Body(style, s[..i]) + Escaped(style, s[i])
  {
    assert s[..i + 1] == s[..i] + [s[i]];
    BodyGrows(style, s[..i], s[i]);
  }

  /** The append loop of either encoder. */
  method AppendQuoted(out: string, style: Style, s: string) returns (out': string)
    ensures out' == out + Quote(style, s)
  {
    var body := "";
    for i := 0 to |s|
      invariant body == Body(style, s[..i])
    {
      BodyNext(style, s, i);
      body := body + Escaped(style, s[i]);
    }
    assert s[..|s|] == s;
    out' := out + (['"'] + body + ['"']);
  }

  // ── reading a string (RFC 8259, section 7) ────────────────────────────

  datatype Read<+T> = Got(value: T, rest: string) | Bad

  function HexValue(c: char): Option<nat> {
    if '0' <= c <= '9' then Some(c as int - '0' as int)
    else if 'a' <= c <= 'f' then Some(c as int - 'a' as int + 10)
    else if 'A' <= c <= 'F' then Some(c as int - 'A' as int + 10)
    else None
  }

  /** Four hex digits: one UTF-16 code unit. */
  function ReadUnit(t: string): (r: Option<nat>)
    ensures r.Some? ==> r.value < 0x10000
  {
    if |t| < 4 then None
    else
      var a, b, c, d := HexValue(t[0]), HexValue(t[1]), HexValue(t[2]), HexValue(t[3]);
      if a.Some? && b.Some? && c.Some? && d.Some? && a.value < 16 && b.value < 16
         && c.value < 16 && d.value < 16
      then Some(((a.value * 16 + b.value) * 16 + c.value) * 16 + d.value)
      else None
  }

  /** What follows `\u`: a character of the basic plane, or a surrogate pair. */
  function ReadEscape(t: string): (r: Read<char>)
    ensures r.Got? ==> |r.rest| < |t|
  {
    var unit := ReadUnit(t);
    if unit.None? then Bad
    else if unit.value < 0xD800 || unit.value >= 0xE000 then Got(unit.value as char, t[4..])
    else if unit.value >= 0xDC00 || |t| < 10 || t[4] != '\\' || t[5] != 'u' then Bad
    else
      var low := ReadUnit(t[6..]);
      if low.Some? && 0xDC00 <= low.value < 0xE000
      then Got((0x10000 + (unit.value - 0xD800) * 1024 + (low.value - 0xDC00)) as char, t[10..])
      else Bad
  }

  /** One character of a string's body. */
  function ReadChar(t: string): (r: Read<char>)
    ensures r.Got? ==> |r.rest| < |t|
  {
    if t == "" || t[0] == '"' || t[0] as int < 0x20 then Bad
    else if t[0] != '\\' then Got(t[0], t[1..])
    else if |t| == 1 then Bad
    else if t[1] == '"' || t[1] == '\\' || t[1] == '/' then Got(t[1], t[2..])
    else if t[1] == 'b' then Got(8 as char, t[2..])
    else if t[1] == 'f' then Got(12 as char, t[2..])
    else if t[1] == 'n' then Got('\n', t[2..])
    else if t[1] == 'r' then Got('\r', t[2..])
    else if t[1] == 't' then Got('\t', t[2..])
    else if t[1] == 'u' then ReadEscape(t[2..])
    else Bad
  }

  /** A string from after its opening quote to past its closing one. */
  function ReadString(t: string): (r: Read<string>)
    ensures r.Got? ==> |r.rest| < |t|
    decreases |t|
  {
    if t != "" && t[0] == '"' then Got("", t[1..])
    else
      match ReadChar(t)
      case Bad => Bad
      case Got(c, rest) =>
        match ReadString(rest)
        case Bad => Bad
        case Got(s, rest') => Got([c] + s, rest')
  }

  lemma HexBack(n: nat)
    requires n < 16
    ensures HexValue(HexDigit(n)) == Some(n)
  {}

  lemma Nibbles(unit: nat)
    requires unit < 0x10000
    ensures unit / 4096 < 16
    ensures ((unit / 4096 * 16 + unit / 256 % 16) * 16 + unit / 16 % 16) * 16 + unit % 16 == unit
  {}

  lemma UnitReads(t: string, a: nat, b: nat, c: nat, d: nat)
    requires a < 16 && b < 16 && c < 16 && d < 16 && |t| >= 4
    requires t[0] == HexDigit(a) && t[1] == HexDigit(b) && t[2] == HexDigit(c) && t[3] == HexDigit(d)
    ensures ReadUnit(t) == Some(((a * 16 + b) * 16 + c) * 16 + d)
  {
    HexBack(a);
    HexBack(b);
    HexBack(c);
    HexBack(d);
  }

  lemma UnitBack(unit: nat, tail: string)
    requires unit < 0x10000
    ensures ReadUnit(Escape(unit)[2..] + tail) == Some(unit)
  {
    Nibbles(unit);
    UnitReads(Escape(unit)[2..] + tail, unit / 4096, unit / 256 % 16, unit / 16 % 16, unit % 16);
  }

  lemma BasicBack(c: char, tail: string)
    requires c as int <= 0xFFFF
    ensures ReadChar(Escape(c as int) + tail) == Got(c, tail)
  {
    var e := Escape(c as int);
    UnitBack(c as int, tail);
    assert (e + tail)[2..] == e[2..] + tail;
    assert (e[2..] + tail)[4..] == tail;
  }

  lemma PairReads(t: string, high: nat, low: nat, c: char)
    requires |t| >= 10 && t[4] == '\\' && t[5] == 'u'
    requires ReadUnit(t) == Some(high) && ReadUnit(t[6..]) == Some(low)
    requires 0xD800 <= high < 0xDC00 <= low < 0xE000
    requires c as int == 0x10000 + (high - 0xD800) * 1024 + (low - 0xDC00)
    ensures ReadEscape(t) == Got(c, t[10..])
  {}

  lemma Halves(c: char)
    requires c as int > 0xFFFF
    ensures 0xD800 <= High(c) < 0xDC00 <= Low(c) < 0xE000
    ensures c as int == 0x10000 + (High(c) - 0xD800) * 1024 + (Low(c) - 0xDC00)
  {}

  lemma PairText(e: string, f: string, tail: string)
    requires |e| == 6 && |f| == 6
    ensures (e + f + tail)[2..] == e[2..] + (f + tail)
    ensures (e[2..] + (f + tail))[6..] == f[2..] + tail
    ensures (e[2..] + (f + tail))[10..] == tail
    ensures (e[2..] + (f + tail))[4] == f[0] && (e[2..] + (f + tail))[5] == f[1]
  {}

  /** Above the basic plane: the two halves of a surrogate pair make one character. */
  lemma PairBack(c: char, tail: string)
    requires c as int > 0xFFFF
    ensures ReadChar(Escape(High(c)) + Escape(Low(c)) + tail) == Got(c, tail)
  {
    var e, f := Escape(High(c)), Escape(Low(c));
    Halves(c);
    PairText(e, f, tail);
    UnitBack(High(c), f + tail);
    UnitBack(Low(c), tail);
    PairReads(e[2..] + (f + tail), High(c), Low(c), c);
    CodedReads(e + f + tail, c, tail);
  }

  lemma CodedReads(t: string, c: char, rest: string)
    requires |t| > 2 && t[0] == '\\' && t[1] == 'u' && ReadEscape(t[2..]) == Got(c, rest)
    ensures ReadChar(t) == Got(c, rest)
  {}

  /** One escape apiece: a letter after the backslash, or the character itself. */
  lemma ShortBack(style: Style, c: char, tail: string)
    requires |Escaped(style, c)| <= 2
    ensures ReadChar(Escaped(style, c) + tail) == Got(c, tail)
  {
    var e := Escaped(style, c);
    assert (e + tail)[|e|..] == tail;
  }

  lemma CharBack(style: Style, c: char, tail: string)
    ensures ReadChar(Escaped(style, c) + tail) == Got(c, tail)
    ensures Escaped(style, c) != "" && Escaped(style, c)[0] != '"'
  {
    EscapedStarts(style, c);
    if |Escaped(style, c)| <= 2 {
      ShortBack(style, c, tail);
    } else {
      LongBack(style, c, tail);
    }
  }

  lemma EscapedStarts(style: Style, c: char)
    ensures Escaped(style, c) != "" && Escaped(style, c)[0] != '"'
  {}

  lemma LongBack(style: Style, c: char, tail: string)
    requires |Escaped(style, c)| > 2
    ensures ReadChar(Escaped(style, c) + tail) == Got(c, tail)
  {
    if c as int > 0xFFFF {
      PairBack(c, tail);
    } else {
      BasicBack(c, tail);
    }
  }

  lemma StringReads(t: string, c: char, rest: string, s: string, tail: string)
    requires t != "" && t[0] != '"'
    requires ReadChar(t) == Got(c, rest) && ReadString(rest) == Got(s, tail)
    ensures ReadString(t) == Got([c] + s, tail)
  {}

  lemma Joined(a: string, b: string, c: string, d: string)
    ensures a + b + c + d == a + (b + c + d)
    ensures a != "" ==> (a + b)[0] == a[0]
  {}

  /** Either encoder is inverted by unescaping, on every string. */
  lemma {:induction false} QuoteBack(style: Style, s: string, tail: string)
    ensures ReadString(Body(style, s) + ['"'] + tail) == Got(s, tail)
  {
    if s == "" {
      assert Body(style, s) + ['"'] + tail == ['"'] + tail;
    } else {
      var e, body := Escaped(style, s[0]), Body(style, s[1..]);
      var rest := body + ['"'] + tail;
      QuoteBack(style, s[1..], tail);
      CharBack(style, s[0], rest);
      Joined(e, body, ['"'], tail);
      StringReads(e + rest, s[0], rest, s[1..], tail);
      assert s == [s[0]] + s[1..];
    }
  }

  /** Nothing below the space survives in either spelling, so a printed string
      never breaks its line; bazarr's is printable ASCII throughout. */
  lemma {:induction false} QuotedIsPlain(style: Style, s: string)
    ensures forall i | 0 <= i < |Body(style, s)| :: Body(style, s)[i] as int >= 0x20
    ensures style.Ascii? ==> forall i | 0 <= i < |Body(style, s)| :: Body(style, s)[i] as int <= 0x7E
  {
    if s != "" {
      QuotedIsPlain(style, s[1..]);
      EscapedIsPlain(style, s[0]);
      PlainJoins(Escaped(style, s[0]), Body(style, s[1..]));
    }
  }

  lemma PlainJoins(a: string, b: string)
    ensures (forall i | 0 <= i < |a| :: a[i] as int >= 0x20) && (forall i | 0 <= i < |b| :: b[i] as int >= 0x20)
      ==> forall i | 0 <= i < |a + b| :: (a + b)[i] as int >= 0x20
    ensures (forall i | 0 <= i < |a| :: a[i] as int <= 0x7E) && (forall i | 0 <= i < |b| :: b[i] as int <= 0x7E)
      ==> forall i | 0 <= i < |a + b| :: (a + b)[i] as int <= 0x7E
  {}

  lemma EscapedIsPlain(style: Style, c: char)
    ensures forall i | 0 <= i < |Escaped(style, c)| :: Escaped(style, c)[i] as int >= 0x20
    ensures style.Ascii? ==> forall i | 0 <= i < |Escaped(style, c)| :: Escaped(style, c)[i] as int <= 0x7E
  {}
}
