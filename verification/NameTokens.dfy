/** The whitespace encoding of name tokens: main.go `decodeNameToken`. */
module NameTokens {

  /** strings.ReplaceAll: leftmost, not overlapping. */
  function ReplaceAll(s: string, from: string, to: string): string
    requires from != ""
    decreases |s|
  {
    if s == "" then ""
    else if from <= s then to + ReplaceAll(s[|from|..], from, to)
    else [s[0]] + ReplaceAll(s[1..], from, to)
  }

  function CodedSpace(): string {
    "%20"
  }

  function CodedPercent(): string {
    "%25"
  }

  function DecodeNameToken(token: string): string {
    ReplaceAll(ReplaceAll(token, CodedSpace(), [' ']), CodedPercent(), ['%'])
  }

  /** Both sequences in one pass from the left. */
  function Decode(token: string): string
    decreases |token|
  {
    if token == "" then ""
    else if CodedSpace() <= token then [' '] + Decode(token[3..])
    else if CodedPercent() <= token then ['%'] + Decode(token[3..])
    else [token[0]] + Decode(token[1..])
  }

  lemma Hit(s: string, from: string, to: string, rest: string)
    requires from != "" && s == from + rest
    ensures ReplaceAll(s, from, to) == to + ReplaceAll(rest, from, to)
  {
    assert s[|from|..] == rest;
  }

  lemma Apart(from: string, s: string, i: nat)
    requires i < |from| && (i < |s| ==> s[i] != from[i])
    ensures !(from <= s)
  {}

  lemma Miss(s: string, from: string, to: string, c: char, rest: string)
    requires from != "" && s == [c] + rest && !(from <= s)
    ensures ReplaceAll(s, from, to) == [c] + ReplaceAll(rest, from, to)
  {
    assert s[1..] == rest;
  }

  /** Without a percent at its head a text is passed over. */
  lemma Plain(s: string, from: string, to: string)
    requires from != "" && from[0] == '%' && s != "" && s[0] != '%'
    ensures ReplaceAll(s, from, to) == [s[0]] + ReplaceAll(s[1..], from, to)
  {
    Miss(s, from, to, s[0], s[1..]);
  }

  /** The first pass keeps a coded percent as it stands. */
  lemma PercentPasses(rest: string)
    ensures ReplaceAll(CodedPercent() + rest, CodedSpace(), [' '])
      == CodedPercent() + ReplaceAll(rest, CodedSpace(), [' '])
  {
    var s, two, five := CodedPercent() + rest, ['2', '5'] + rest, ['5'] + rest;
    assert s == ['%'] + two && two == ['2'] + five;
    Apart(CodedSpace(), s, 2);
    Miss(s, CodedSpace(), [' '], '%', two);
    Plain(two, CodedSpace(), [' ']);
    assert two[1..] == five;
    Plain(five, CodedSpace(), [' ']);
    assert five[1..] == rest;
  }

  lemma NotCoded(s: string)
    requires |s| > 1 && s[0] == '%' && s[1] == '2' && !(CodedPercent() <= s)
    ensures |s| > 2 ==> s[2] != '5'
  {}

  /** The first pass makes no coded percent that was not there. */
  lemma NoneMade(s: string)
    requires s != "" && !(CodedPercent() <= s) && !(CodedSpace() <= s)
    ensures !(CodedPercent() <= [s[0]] + ReplaceAll(s[1..], CodedSpace(), [' ']))
  {
    var t := ReplaceAll(s[1..], CodedSpace(), [' ']);
    if s[0] == '%' && |s| > 1 && s[1] == '2' {
      Plain(s[1..], CodedSpace(), [' ']);
      assert t[1..] == ReplaceAll(s[2..], CodedSpace(), [' ']) by {
        assert s[1..][1..] == s[2..];
      }
      NotCoded(s);
      if |s| > 2 && s[2] != '%' {
        Plain(s[2..], CodedSpace(), [' ']);
      }
      assert |t| > 1 ==> t[1] != '5';
      Apart(CodedPercent(), [s[0]] + t, 2);
    } else if s[0] == '%' && |s| > 1 {
      FirstKept(s[1..]);
      Apart(CodedPercent(), [s[0]] + t, 1);
    } else {
      Apart(CodedPercent(), [s[0]] + t, if s[0] == '%' then 1 else 0);
    }
  }

  /** A passed text starts as it did, or with the space put in place of a percent. */
  lemma FirstKept(s: string)
    requires s != ""
    ensures var t := ReplaceAll(s, CodedSpace(), [' ']);
      t != "" && (t[0] == s[0] || (t[0] == ' ' && s[0] == '%'))
  {
    if CodedSpace() <= s {
      assert s[0] == '%';
    }
  }

  /** The two passes, in the order the code takes them, are the one decoder. */
  lemma {:induction false} TwoPassesAreOne(token: string)
    ensures DecodeNameToken(token) == Decode(token)
    decreases |token|
  {
    var space, percent := CodedSpace(), CodedPercent();
    if token == "" {
    } else if space <= token {
      var rest := token[3..];
      TwoPassesAreOne(rest);
      Hit(token, space, [' '], rest);
      var t := ReplaceAll(rest, space, [' ']);
      Plain([' '] + t, percent, ['%']);
      assert ([' '] + t)[1..] == t;
    } else if percent <= token {
      var rest := token[3..];
      TwoPassesAreOne(rest);
      assert token == percent + rest;
      PercentPasses(rest);
      Hit(percent + ReplaceAll(rest, space, [' ']), percent, ['%'], ReplaceAll(rest, space, [' ']));
    } else {
      var rest := token[1..];
      TwoPassesAreOne(rest);
      NoneMade(token);
      Miss(token, space, [' '], token[0], rest);
      Miss([token[0]] + ReplaceAll(rest, space, [' ']), percent, ['%'], token[0],
           ReplaceAll(rest, space, [' ']));
    }
  }

  // ── the encoding it undoes ────────────────────────────────────────────

  /** Percent first, then space. */
  function EncodeNameToken(name: string): string {
    ReplaceAll(ReplaceAll(name, ['%'], CodedPercent()), [' '], CodedSpace())
  }

  function Coded(c: char): string {
    if c == '%' then CodedPercent() else if c == ' ' then CodedSpace() else [c]
  }

  function Encode(name: string): string {
    if name == "" then "" else Coded(name[0]) + Encode(name[1..])
  }

  lemma {:induction false} EncodingIsCharwise(name: string)
    ensures EncodeNameToken(name) == Encode(name)
  {
    if name != "" {
      var c, rest := name[0], ReplaceAll(name[1..], ['%'], CodedPercent());
      EncodingIsCharwise(name[1..]);
      if c == '%' {
        Hit(name, ['%'], CodedPercent(), name[1..]);
        CodedPasses(rest);
      } else {
        Miss(name, ['%'], CodedPercent(), c, name[1..]);
        if c == ' ' {
          Hit([c] + rest, [' '], CodedSpace(), rest);
        } else {
          Apart([' '], [c] + rest, 0);
          Miss([c] + rest, [' '], CodedSpace(), c, rest);
        }
      }
    }
  }

  lemma CodedPasses(rest: string)
    ensures ReplaceAll(CodedPercent() + rest, [' '], CodedSpace())
      == CodedPercent() + ReplaceAll(rest, [' '], CodedSpace())
  {
    var s, two, five := CodedPercent() + rest, ['2', '5'] + rest, ['5'] + rest;
    Apart([' '], s, 0);
    Apart([' '], two, 0);
    Apart([' '], five, 0);
    Miss(s, [' '], CodedSpace(), '%', two);
    Miss(two, [' '], CodedSpace(), '2', five);
    Miss(five, [' '], CodedSpace(), '5', rest);
  }

  lemma CodedBack(c: char, rest: string)
    ensures Decode(Coded(c) + rest) == [c] + Decode(rest)
  {
    var s := Coded(c) + rest;
    assert s[|Coded(c)|..] == rest;
    if c == '%' {
      Apart(CodedSpace(), s, 2);
    } else if c != ' ' {
      Apart(CodedSpace(), s, 0);
      Apart(CodedPercent(), s, 0);
    }
  }

  lemma {:induction false} DecodeBack(name: string)
    ensures Decode(Encode(name)) == name
  {
    if name != "" {
      var c, rest := name[0], Encode(name[1..]);
      DecodeBack(name[1..]);
      CodedBack(c, rest);
      assert name == [c] + name[1..];
    }
  }

  /** Every name survives the token, no token holds a space, and distinct names
      stay distinct. */
  lemma TokenBack(name: string, other: string)
    ensures DecodeNameToken(EncodeNameToken(name)) == name
    ensures ' ' !in EncodeNameToken(name)
    ensures EncodeNameToken(name) == EncodeNameToken(other) ==> name == other
  {
    EncodingIsCharwise(name);
    EncodingIsCharwise(other);
    TwoPassesAreOne(Encode(name));
    TwoPassesAreOne(Encode(other));
    DecodeBack(name);
    DecodeBack(other);
    NoSpace(name);
  }

  lemma {:induction false} NoSpace(name: string)
    ensures ' ' !in Encode(name)
  {
    if name != "" {
      NoSpace(name[1..]);
    }
  }
}
