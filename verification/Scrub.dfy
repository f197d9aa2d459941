/** Removing the two credential shapes a URL carries: the substitutions text.py
    `scrub` makes, and the scanning loops of python.go that stand in for them. */
module Scrub {
  import opened Options
  import opened OneLine

  // ── the two patterns ──────────────────────────────────────────────────

  datatype Rule = Query | Userinfo

  /** What ends a run: Python's class excludes all of `\s`, Go's six characters. */
  predicate Stop(rule: Rule, lang: Lang, c: char) {
    c == '"' || c == '\'' || c == '<' || c == '>'
    || (if lang.Go? then c == ' ' || 9 <= c as int <= 13 else Space(Python, c))
    || (rule.Userinfo? && (c == '/' || c == '@'))
  }

  /** The length of the run a text starts with. */
  function Run(rule: Rule, lang: Lang, s: string): (n: nat)
    ensures n <= |s|
    ensures forall i | 0 <= i < n :: !Stop(rule, lang, s[i])
    ensures n < |s| ==> Stop(rule, lang, s[n])
  {
    if s == "" || Stop(rule, lang, s[0]) then 0 else 1 + Run(rule, lang, s[1..])
  }

  predicate SchemeAt(text: string, p: nat) {
    p + 3 <= |text| && text[p] == ':' && text[p + 1] == '/' && text[p + 2] == '/'
  }

  /** Where a match starting at `i` ends: `\?[^...]+`, and `(?<=://)[^...]+@`. */
  function MatchEnd(rule: Rule, lang: Lang, text: string, i: nat): (e: Option<nat>)
    requires i <= |text|
    ensures e.Some? ==> i < e.value <= |text|
  {
    match rule
    case Query =>
      if i < |text| && text[i] == '?' && Run(rule, lang, text[i + 1..]) > 0
      then Some(i + 1 + Run(rule, lang, text[i + 1..])) else None
    case Userinfo =>
      var n := Run(rule, lang, text[i..]);
      if i >= 3 && SchemeAt(text, i - 3) && 0 < n && i + n < |text| && text[i + n] == '@'
      then Some(i + n + 1) else None
  }

  function Replacement(rule: Rule, word: string): string {
    if rule.Query? then ['?'] + word else word + ['@']
  }

  /** `re.sub` from `i` on: leftmost matches, each as long as it can be. */
  function Substituted(rule: Rule, lang: Lang, word: string, text: string, i: nat): string
    requires i <= |text|
    decreases |text| - i
  {
    if i == |text| then ""
    else
      match MatchEnd(rule, lang, text, i)
      case Some(end) => Replacement(rule, word) + Substituted(rule, lang, word, text, end)
      case None => [text[i]] + Substituted(rule, lang, word, text, i + 1)
  }

  ghost predicate NoMatch(rule: Rule, lang: Lang, text: string, i: nat, j: nat)
    requires j <= |text|
  {
    forall p | i <= p < j :: MatchEnd(rule, lang, text, p).None?
  }

  lemma StepOver(rule: Rule, lang: Lang, word: string, text: string, i: nat)
    requires i < |text| && MatchEnd(rule, lang, text, i).None?
    ensures Substituted(rule, lang, word, text, i) == [text[i]] + Substituted(rule, lang, word, text, i + 1)
  {}

  lemma StepMatch(rule: Rule, lang: Lang, word: string, text: string, i: nat, end: nat)
    requires i <= |text| && MatchEnd(rule, lang, text, i) == Some(end)
    ensures Substituted(rule, lang, word, text, i)
      == Replacement(rule, word) + Substituted(rule, lang, word, text, end)
  {}

  lemma Piece(out: string, piece: string, rest: string)
    ensures out + (piece + rest) == out + piece + rest
  {}

  lemma {:induction false} Unmatched(rule: Rule, lang: Lang, word: string, text: string, i: nat, j: nat)
    requires i <= j <= |text| && NoMatch(rule, lang, text, i, j)
    ensures Substituted(rule, lang, word, text, i)
      == text[i..j] + Substituted(rule, lang, word, text, j)
    decreases j - i
  {
    if i < j {
      assert MatchEnd(rule, lang, text, i).None?;
      Unmatched(rule, lang, word, text, i + 1, j);
      Further(rule, lang, word, text, i, j);
    }
  }

  lemma Further(rule: Rule, lang: Lang, word: string, text: string, i: nat, j: nat)
    requires i < j <= |text| && MatchEnd(rule, lang, text, i).None?
    requires Substituted(rule, lang, word, text, i + 1)
      == text[i + 1..j] + Substituted(rule, lang, word, text, j)
    ensures Substituted(rule, lang, word, text, i) == text[i..j] + Substituted(rule, lang, word, text, j)
  {
    StepOver(rule, lang, word, text, i);
    Longer(text, i, j, Substituted(rule, lang, word, text, j));
  }

  lemma Longer(text: string, i: nat, j: nat, rest: string)
    requires i < j <= |text|
    ensures [text[i]] + (text[i + 1..j] + rest) == text[i..j] + rest
  {
    assert text[i..j] == [text[i]] + text[i + 1..j];
  }

  // ── the scanning loops ────────────────────────────────────────────────

  method RunEnd(rule: Rule, lang: Lang, value: string, start: nat) returns (end: nat)
    requires start <= |value|
    ensures end == start + Run(rule, lang, value[start..])
  {
    end := start;
    while end < |value| && !Stop(rule, lang, value[end])
      invariant start <= end <= |value|
      invariant end + Run(rule, lang, value[end..]) == start + Run(rule, lang, value[start..])
    {
      assert value[end..][1..] == value[end + 1..];
      end := end + 1;
    }
  }

  /** `stripQueryStrings` */
  method StripQueryStrings(word: string, value: string) returns (out: string)
    ensures out == Substituted(Query, Go, word, value, 0)
  {
    out := "";
    var i := 0;
    while i < |value|
      invariant i <= |value|
      invariant out + Substituted(Query, Go, word, value, i) == Substituted(Query, Go, word, value, 0)
      decreases |value| - i
    {
      if value[i] != '?' {
        QueryOne(word, value, out, i);
        out := out + [value[i]];
        i := i + 1;
        continue;
      }
      var end := RunEnd(Query, Go, value, i + 1);
      if end == i + 1 {
        QueryOne(word, value, out, i);
        out := out + ['?'];
        i := i + 1;
        continue;
      }
      QueryRun(word, value, out, i, end);
      out := out + (['?'] + word);
      i := end;
    }
  }

  lemma QueryOne(word: string, value: string, out: string, i: nat)
    requires i < |value| && (value[i] != '?' || Run(Query, Go, value[i + 1..]) == 0)
    ensures out + [value[i]] + Substituted(Query, Go, word, value, i + 1)
      == out + Substituted(Query, Go, word, value, i)
  {
    StepOver(Query, Go, word, value, i);
    Piece(out, [value[i]], Substituted(Query, Go, word, value, i + 1));
  }

  lemma QueryRun(word: string, value: string, out: string, i: nat, end: nat)
    requires i < |value| && value[i] == '?' && end == i + 1 + Run(Query, Go, value[i + 1..]) > i + 1
    ensures out + (['?'] + word) + Substituted(Query, Go, word, value, end)
      == out + Substituted(Query, Go, word, value, i)
  {
    StepMatch(Query, Go, word, value, i, end);
    Piece(out, ['?'] + word, Substituted(Query, Go, word, value, end));
  }

  /** strings.Index from `i` on: the first "://", or the end when there is none. */
  method FindScheme(value: string, i: nat) returns (at: nat)
    requires i <= |value|
    ensures i <= at <= |value| && (at < |value| ==> SchemeAt(value, at))
    ensures forall p: nat | i <= p < at :: !SchemeAt(value, p)
  {
    at := i;
    while at < |value| && !SchemeAt(value, at)
      invariant i <= at <= |value| && forall p: nat | i <= p < at :: !SchemeAt(value, p)
    {
      at := at + 1;
    }
  }

  /** No match straddles the place the loop has reached. */
  ghost predicate Clear(value: string, i: nat)
    requires i <= |value|
  {
    NoMatch(Userinfo, Go, value, i, if i + 3 <= |value| then i + 3 else |value|)
  }

  lemma NothingBetween(value: string, i: nat, at: nat, j: nat)
    requires i <= |value| && Clear(value, i) && j <= |value| && j <= at + 3
    requires forall p: nat | i <= p < at :: !SchemeAt(value, p)
    ensures NoMatch(Userinfo, Go, value, i, j)
  {
    forall p | i <= p < j ensures MatchEnd(Userinfo, Go, value, p).None? {
      if p >= i + 3 {
        assert !SchemeAt(value, p - 3);
      }
    }
  }

  lemma NoSchemeNoMatch(value: string, p: nat)
    requires p <= |value| && (p >= 3 ==> !SchemeAt(value, p - 3))
    ensures MatchEnd(Userinfo, Go, value, p).None?
  {}

  lemma ClearAfterAt(value: string, i: nat)
    requires 0 < i <= |value| && value[i - 1] == '@'
    ensures Clear(value, i)
  {
    forall p | i <= p < i + 3 && p <= |value| ensures MatchEnd(Userinfo, Go, value, p).None? {
      NoSchemeNoMatch(value, p);
    }
  }

  lemma ClearAfterScheme(value: string, start: nat)
    requires 3 <= start <= |value| && SchemeAt(value, start - 3)
    requires MatchEnd(Userinfo, Go, value, start).None?
    ensures Clear(value, start)
  {
    forall p | start < p < start + 3 && p <= |value| ensures MatchEnd(Userinfo, Go, value, p).None? {
      NoSchemeNoMatch(value, p);
    }
  }

  /** `stripUserinfo` */
  method StripUserinfo(word: string, value: string) returns (out: string)
    ensures out == Substituted(Userinfo, Go, word, value, 0)
  {
    out := "";
    var i := 0;
    while true
      invariant i <= |value| && Clear(value, i)
      invariant out + Substituted(Userinfo, Go, word, value, i) == Substituted(Userinfo, Go, word, value, 0)
      decreases |value| - i
    {
      var at := FindScheme(value, i);
      if at == |value| {
        NothingBetween(value, i, at, |value|);
        Rest(word, value, i);
        return out + value[i..];
      }
      NothingBetween(value, i, at, at + 3);
      out, i := StripOne(word, value, out, i, at);
    }
  }

  lemma Rest(word: string, value: string, i: nat)
    requires i <= |value| && NoMatch(Userinfo, Go, value, i, |value|)
    ensures Substituted(Userinfo, Go, word, value, i) == value[i..]
  {
    Unmatched(Userinfo, Go, word, value, i, |value|);
    assert value[i..|value|] + "" == value[i..];
  }

  /** One turn over a match: up to it, its replacement, on from its end. */
  lemma TurnMatched(word: string, value: string, out: string, i: nat, start: nat, end: nat)
    requires i <= start <= |value| && NoMatch(Userinfo, Go, value, i, start)
    requires MatchEnd(Userinfo, Go, value, start) == Some(end)
    ensures out + Substituted(Userinfo, Go, word, value, i)
      == out + value[i..start] + Replacement(Userinfo, word) + Substituted(Userinfo, Go, word, value, end)
  {
    Unmatched(Userinfo, Go, word, value, i, start);
    StepMatch(Userinfo, Go, word, value, start, end);
    var rest := Substituted(Userinfo, Go, word, value, end);
    Piece(out, value[i..start], Replacement(Userinfo, word) + rest);
    Piece(out + value[i..start], Replacement(Userinfo, word), rest);
  }

  lemma TurnPlain(word: string, value: string, out: string, i: nat, start: nat)
    requires i <= start <= |value| && NoMatch(Userinfo, Go, value, i, start)
    ensures out + Substituted(Userinfo, Go, word, value, i)
      == out + value[i..start] + Substituted(Userinfo, Go, word, value, start)
  {
    Unmatched(Userinfo, Go, word, value, i, start);
    Piece(out, value[i..start], Substituted(Userinfo, Go, word, value, start));
  }

  lemma MatchesAt(value: string, start: nat, end: nat)
    requires 3 <= start < end < |value| && SchemeAt(value, start - 3) && value[end] == '@'
    requires end == start + Run(Userinfo, Go, value[start..])
    ensures MatchEnd(Userinfo, Go, value, start) == Some(end + 1)
  {}

  lemma MissesAt(value: string, start: nat, end: nat)
    requires start <= |value| && end == start + Run(Userinfo, Go, value[start..])
    requires end <= start || end >= |value| || value[end] != '@'
    ensures MatchEnd(Userinfo, Go, value, start).None?
  {}

  /** What has been written and what is still to be. */
  function AllTold(word: string, value: string, out: string, i: nat): string
    requires i <= |value|
  {
    out + Substituted(Userinfo, Go, word, value, i)
  }

  /** One turn of the loop: what is still to be written is as it was. */
  ghost predicate Turned(word: string, value: string, out: string, i: nat, out': string, i': nat)
    requires i <= |value|
  {
    i < i' <= |value| && Clear(value, i') && AllTold(word, value, out', i') == AllTold(word, value, out, i)
  }

  lemma TurnTaken(word: string, value: string, out: string, i: nat, start: nat, end: nat, over: string,
                  out': string)
    requires 3 <= start < end < |value| && SchemeAt(value, start - 3) && value[end] == '@'
    requires end == start + Run(Userinfo, Go, value[start..])
    requires i < start && NoMatch(Userinfo, Go, value, i, start)
    requires over == out + value[i..start] && out' == over + (word + ['@'])
    ensures Turned(word, value, out, i, out', end + 1)
  {
    MatchesAt(value, start, end);
    TurnMatched(word, value, out, i, start, end + 1);
    ClearAfterAt(value, end + 1);
  }

  lemma TurnOver(word: string, value: string, out: string, i: nat, start: nat, end: nat, out': string)
    requires 3 <= start <= |value| && SchemeAt(value, start - 3)
    requires end == start + Run(Userinfo, Go, value[start..])
    requires end <= start || end >= |value| || value[end] != '@'
    requires i < start && NoMatch(Userinfo, Go, value, i, start)
    requires out' == out + value[i..start]
    ensures Turned(word, value, out, i, out', start)
  {
    MissesAt(value, start, end);
    TurnPlain(word, value, out, i, start);
    ClearAfterScheme(value, start);
  }

  lemma Turn(word: string, value: string, out: string, i: nat, start: nat, end: nat, over: string, taken: bool,
             out': string, i': nat)
    requires 3 <= start <= |value| && SchemeAt(value, start - 3)
    requires end == start + Run(Userinfo, Go, value[start..])
    requires i < start && NoMatch(Userinfo, Go, value, i, start)
    requires over == out + value[i..start]
    requires taken == (end > start && end < |value| && value[end] == '@')
    requires out' == (if taken then over + (word + ['@']) else over)
    requires i' == if taken then end + 1 else start
    ensures Turned(word, value, out, i, out', i')
  {
    if taken {
      TurnTaken(word, value, out, i, start, end, over, out');
    } else {
      TurnOver(word, value, out, i, start, end, out');
    }
  }

  /** A "://" having been found. */
  method StripOne(word: string, value: string, out: string, i: nat, at: nat)
    returns (out': string, i': nat)
    requires i <= at < |value| && SchemeAt(value, at)
    requires NoMatch(Userinfo, Go, value, i, at + 3)
    ensures Turned(word, value, out, i, out', i')
  {
    var start := at + 3;
    var end := RunEnd(Userinfo, Go, value, start);
    var over := out + value[i..start];
    var taken := end > start && end < |value| && value[end] == '@';
    out' := if taken then over + (word + ['@']) else over;
    i' := if taken then end + 1 else start;
    Turn(word, value, out, i, start, end, over, taken, out', i');
  }
}
