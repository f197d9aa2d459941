/** What scrubbing forgets, that it settles at once, and where the two languages
    part ways. */
module ScrubTheory {
  import opened Options
  import opened OneLine
  import opened Scrub

  // ── the substitutions by suffix ───────────────────────────────────────

  function QuerySub(lang: Lang, w: string, s: string): string
    decreases |s|
  {
    if s == "" then ""
    else if s[0] == '?' && Run(Query, lang, s[1..]) > 0 then
      ['?'] + w + QuerySub(lang, w, s[1..][Run(Query, lang, s[1..])..])
    else [s[0]] + QuerySub(lang, w, s[1..])
  }

  /** How much of "://" a text ends in, one character later. */
  function Step(k: nat, c: char): nat {
    if c == ':' then 1 else if c == '/' && (k == 1 || k == 2) then k + 1 else 0
  }

  function Seen(before: string): nat {
    if before == "" then 0 else Step(Seen(before[..|before| - 1]), before[|before| - 1])
  }

  predicate UserHere(lang: Lang, k: nat, s: string) {
    var n := Run(Userinfo, lang, s);
    k == 3 && 0 < n < |s| && s[n] == '@'
  }

  /** `k` stands for the text before: 3 is the lookbehind. */
  function UserSub(lang: Lang, u: string, k: nat, s: string): string
    decreases |s|
  {
    if s == "" then ""
    else if UserHere(lang, k, s) then
      u + ['@'] + UserSub(lang, u, 0, s[Run(Userinfo, lang, s) + 1..])
    else [s[0]] + UserSub(lang, u, Step(k, s[0]), s[1..])
  }

  lemma {:induction false} QueryBySuffix(lang: Lang, w: string, text: string, i: nat)
    requires i <= |text|
    ensures Substituted(Query, lang, w, text, i) == QuerySub(lang, w, text[i..])
    decreases |text| - i
  {
    if i < |text| {
      var end := MatchEnd(Query, lang, text, i);
      if end.Some? {
        QueryBySuffix(lang, w, text, end.value);
        StepMatch(Query, lang, w, text, i, end.value);
        QuerySuffixMatch(lang, w, text, i, end.value);
      } else {
        QueryBySuffix(lang, w, text, i + 1);
        StepOver(Query, lang, w, text, i);
        QuerySuffixOver(lang, w, text, i);
      }
    }
  }

  lemma QuerySuffixMatch(lang: Lang, w: string, text: string, i: nat, end: nat)
    requires i < |text| && MatchEnd(Query, lang, text, i) == Some(end)
    ensures QuerySub(lang, w, text[i..]) == ['?'] + w + QuerySub(lang, w, text[end..])
  {
    var s, n := text[i..], end - i - 1;
    assert s[1..] == text[i + 1..];
    assert s[1..][n..] == text[end..];
  }

  lemma QuerySuffixOver(lang: Lang, w: string, text: string, i: nat)
    requires i < |text| && MatchEnd(Query, lang, text, i).None?
    ensures QuerySub(lang, w, text[i..]) == [text[i]] + QuerySub(lang, w, text[i + 1..])
  {
    assert text[i..][1..] == text[i + 1..];
  }

  lemma {:induction false} SeenIsLookbehind(text: string, i: nat)
    requires i <= |text|
    ensures Seen(text[..i]) <= 3
    ensures Seen(text[..i]) == 1 <==> i >= 1 && text[i - 1] == ':'
    ensures Seen(text[..i]) == 2 <==> i >= 2 && text[i - 2] == ':' && text[i - 1] == '/'
    ensures Seen(text[..i]) == 3 <==> i >= 3 && SchemeAt(text, i - 3)
  {
    if i > 0 {
      assert text[..i][..i - 1] == text[..i - 1];
      SeenIsLookbehind(text, i - 1);
    }
  }

  lemma {:induction false} UserBySuffix(lang: Lang, u: string, text: string, i: nat)
    requires i <= |text|
    ensures Substituted(Userinfo, lang, u, text, i) == UserSub(lang, u, Seen(text[..i]), text[i..])
    decreases |text| - i
  {
    if i < |text| {
      SeenIsLookbehind(text, i);
      var end := MatchEnd(Userinfo, lang, text, i);
      if end.Some? {
        UserBySuffix(lang, u, text, end.value);
        StepMatch(Userinfo, lang, u, text, i, end.value);
        SuffixMatch(lang, u, text, i, end.value);
      } else {
        UserBySuffix(lang, u, text, i + 1);
        StepOver(Userinfo, lang, u, text, i);
        SuffixOver(lang, u, text, i);
      }
    }
  }

  lemma SuffixMatch(lang: Lang, u: string, text: string, i: nat, end: nat)
    requires i < |text| && MatchEnd(Userinfo, lang, text, i) == Some(end)
    ensures UserSub(lang, u, Seen(text[..i]), text[i..])
      == u + ['@'] + UserSub(lang, u, Seen(text[..end]), text[end..])
  {
    SeenIsLookbehind(text, i);
    SeenIsLookbehind(text, end);
    var n := Run(Userinfo, lang, text[i..]);
    assert text[i..][n + 1..] == text[end..] && text[i..][n] == '@';
  }

  lemma SuffixOver(lang: Lang, u: string, text: string, i: nat)
    requires i < |text| && MatchEnd(Userinfo, lang, text, i).None?
    ensures UserSub(lang, u, Seen(text[..i]), text[i..])
      == [text[i]] + UserSub(lang, u, Seen(text[..i + 1]), text[i + 1..])
  {
    SeenIsLookbehind(text, i);
    SeenNext(text, i);
    assert text[i..][1..] == text[i + 1..] && text[i..][0] == text[i];
  }

  lemma SeenNext(text: string, i: nat)
    requires i < |text|
    ensures Seen(text[..i + 1]) == Step(Seen(text[..i]), text[i])
  {
    assert text[..i + 1][..i] == text[..i];
  }

  // ── runs ──────────────────────────────────────────────────────────────

  ghost predicate Free(rule: Rule, lang: Lang, s: string) {
    forall i | 0 <= i < |s| :: !Stop(rule, lang, s[i])
  }

  predicate Starts(rule: Rule, lang: Lang, s: string) {
    s == "" || Stop(rule, lang, s[0])
  }

  /** A replacement word: something, and nothing any rule looks for. */
  ghost predicate Plain(w: string) {
    w != "" && Free(Userinfo, Go, w) && Free(Userinfo, Python, w) && '?' !in w && ':' !in w
  }

  lemma {:induction false} RunOf(rule: Rule, lang: Lang, a: string, b: string)
    requires Free(rule, lang, a) && Starts(rule, lang, b)
    ensures Run(rule, lang, a + b) == |a|
    ensures (a + b)[|a|..] == b
  {
    if a == "" {
      assert a + b == b;
    } else {
      RunOf(rule, lang, a[1..], b);
      assert (a + b)[1..] == a[1..] + b;
    }
  }

  /** A run that stops inside `a` does not see what follows `a`. */
  lemma {:induction false} RunWithin(rule: Rule, lang: Lang, a: string, b: string)
    requires Run(rule, lang, a) < |a|
    ensures Run(rule, lang, a + b) == Run(rule, lang, a)
    ensures (a + b)[Run(rule, lang, a)..] == a[Run(rule, lang, a)..] + b
  {
    if !Stop(rule, lang, a[0]) {
      assert (a + b)[1..] == a[1..] + b && (a + b)[0] == a[0];
      RunWithin(rule, lang, a[1..], b);
    }
  }

  // ── forgetting ────────────────────────────────────────────────────────

  lemma QueryMatch(lang: Lang, w: string, x: string, b: string)
    requires x != "" && Free(Query, lang, x) && Starts(Query, lang, b)
    ensures QuerySub(lang, w, ['?'] + (x + b)) == ['?'] + w + QuerySub(lang, w, b)
  {
    RunOf(Query, lang, x, b);
    assert (['?'] + (x + b))[1..] == x + b;
  }

  lemma QueryOver(lang: Lang, w: string, c: char, rest: string)
    requires c != '?' || Starts(Query, lang, rest)
    ensures QuerySub(lang, w, [c] + rest) == [c] + QuerySub(lang, w, rest)
  {
    assert ([c] + rest)[1..] == rest;
  }

  /** A match whose run stops inside `a`. */
  lemma QueryWithin(lang: Lang, w: string, a: string, tail: string)
    requires 0 < Run(Query, lang, a) < |a|
    ensures QuerySub(lang, w, ['?'] + (a + tail))
      == ['?'] + w + QuerySub(lang, w, a[Run(Query, lang, a)..] + tail)
  {
    RunWithin(Query, lang, a, tail);
    assert (['?'] + (a + tail))[1..] == a + tail;
  }

  /** A run open before the mark takes it and what follows. */
  lemma QueryTaken(lang: Lang, w: string, a: string, x: string, b: string)
    requires Free(Query, lang, a) && x != "" && Free(Query, lang, x) && Starts(Query, lang, b)
    ensures QuerySub(lang, w, ['?'] + (a + (['?'] + (x + b)))) == ['?'] + w + QuerySub(lang, w, b)
  {
    assert a + (['?'] + (x + b)) == (a + ['?'] + x) + b;
    QueryMatch(lang, w, a + ['?'] + x, b);
  }

  /** One query string or another, the output is the same, wherever it stands. */
  lemma {:induction false} QueryForgets(lang: Lang, w: string, a: string, x: string, y: string, b: string)
    requires x != "" && y != "" && Free(Query, lang, x) && Free(Query, lang, y) && Starts(Query, lang, b)
    ensures QuerySub(lang, w, a + (['?'] + (x + b))) == QuerySub(lang, w, a + (['?'] + (y + b)))
    decreases |a|
  {
    var s, t := ['?'] + (x + b), ['?'] + (y + b);
    if a == "" {
      QueryMatch(lang, w, x, b);
      QueryMatch(lang, w, y, b);
      assert a + s == s && a + t == t;
    } else {
      var c, a' := a[0], a[1..];
      assert a + s == [c] + (a' + s) && a + t == [c] + (a' + t);
      if c == '?' && Run(Query, lang, a') == |a'| {
        QueryTaken(lang, w, a', x, b);
        QueryTaken(lang, w, a', y, b);
      } else if c == '?' && Run(Query, lang, a') > 0 {
        QueryWithin(lang, w, a', s);
        QueryWithin(lang, w, a', t);
        QueryForgets(lang, w, a'[Run(Query, lang, a')..], x, y, b);
      } else {
        QueryOver(lang, w, c, a' + s);
        QueryOver(lang, w, c, a' + t);
        QueryForgets(lang, w, a', x, y, b);
      }
    }
  }

  lemma UserOver(lang: Lang, u: string, k: nat, c: char, rest: string)
    requires !UserHere(lang, k, [c] + rest)
    ensures UserSub(lang, u, k, [c] + rest) == [c] + UserSub(lang, u, Step(k, c), rest)
  {
    assert ([c] + rest)[1..] == rest;
  }

  lemma UserMatch(lang: Lang, u: string, x: string, b: string)
    requires x != "" && Free(Userinfo, lang, x)
    ensures UserHere(lang, 3, x + (['@'] + b))
    ensures UserSub(lang, u, 3, x + (['@'] + b)) == u + ['@'] + UserSub(lang, u, 0, b)
  {
    var s := x + (['@'] + b);
    RunOf(Userinfo, lang, x, ['@'] + b);
    assert s[|x| + 1..] == b;
  }

  function Scheme(): string {
    "://"
  }

  /** A match ending inside `a`. */
  lemma UserWithin(lang: Lang, u: string, a: string, tail: string)
    requires UserHere(lang, 3, a)
    ensures UserSub(lang, u, 3, a + tail)
      == u + ['@'] + UserSub(lang, u, 0, a[Run(Userinfo, lang, a) + 1..] + tail)
  {
    var n := Run(Userinfo, lang, a);
    RunWithin(Userinfo, lang, a, tail);
    assert (a + tail)[n] == a[n] && (a + tail)[n + 1..] == a[n + 1..] + tail;
  }

  /** No match reaches across a "://". */
  lemma SchemeBars(lang: Lang, k: nat, a: string, tail: string)
    requires a != "" && !UserHere(lang, k, a)
    ensures !UserHere(lang, k, a + (Scheme() + tail))
  {
    var n := Run(Userinfo, lang, a);
    if n < |a| {
      RunWithin(Userinfo, lang, a, Scheme() + tail);
      assert (a + (Scheme() + tail))[n] == a[n];
    } else {
      SchemeStops(lang, a, tail);
    }
  }

  /** A run that reaches the scheme ends at its first slash. */
  lemma SchemeStops(lang: Lang, a: string, tail: string)
    requires Run(Userinfo, lang, a) == |a|
    ensures var s := a + (Scheme() + tail);
      Run(Userinfo, lang, s) == |a| + 1 < |s| && s[|a| + 1] == '/'
  {
    assert a + (Scheme() + tail) == (a + [':']) + (['/', '/'] + tail);
    RunOf(Userinfo, lang, a + [':'], ['/', '/'] + tail);
  }

  /** What comes before a "://" is rewritten without regard to what follows it. */
  function Before(lang: Lang, u: string, k: nat, a: string): string
    decreases |a|
  {
    if a == "" then ""
    else if UserHere(lang, k, a) then
      u + ['@'] + Before(lang, u, 0, a[Run(Userinfo, lang, a) + 1..])
    else [a[0]] + Before(lang, u, Step(k, a[0]), a[1..])
  }

  lemma ColonOver(lang: Lang, u: string, k: nat, rest: string)
    requires rest != "" && rest[0] == '/'
    ensures UserSub(lang, u, k, [':'] + rest) == [':'] + UserSub(lang, u, 1, rest)
  {
    RunOf(Userinfo, lang, [':'], rest);
    UserOver(lang, u, k, ':', rest);
  }

  lemma SlashOver(lang: Lang, u: string, k: nat, rest: string)
    requires k == 1 || k == 2
    ensures UserSub(lang, u, k, ['/'] + rest) == ['/'] + UserSub(lang, u, k + 1, rest)
  {
    UserOver(lang, u, k, '/', rest);
  }

  lemma SchemeText(tail: string)
    ensures Scheme() + tail == [':'] + (['/'] + (['/'] + tail))
  {}

  lemma SchemeOver(lang: Lang, u: string, k: nat, tail: string)
    ensures UserSub(lang, u, k, Scheme() + tail) == Scheme() + UserSub(lang, u, 3, tail)
  {
    SchemeText(tail);
    SchemeText(UserSub(lang, u, 3, tail));
    ColonOver(lang, u, k, ['/'] + (['/'] + tail));
    SlashOver(lang, u, 1, ['/'] + tail);
    SlashOver(lang, u, 2, tail);
  }

  lemma {:induction false} SplitAtScheme(lang: Lang, u: string, k: nat, a: string, tail: string)
    ensures UserSub(lang, u, k, a + (Scheme() + tail))
      == Before(lang, u, k, a) + (Scheme() + UserSub(lang, u, 3, tail))
    decreases |a|
  {
    if a == "" {
      SchemeOver(lang, u, k, tail);
      assert a + (Scheme() + tail) == Scheme() + tail;
    } else if UserHere(lang, k, a) {
      SplitAtScheme(lang, u, 0, a[Run(Userinfo, lang, a) + 1..], tail);
      SplitMatched(lang, u, a, Scheme() + tail, Scheme() + UserSub(lang, u, 3, tail));
    } else {
      SchemeBars(lang, k, a, tail);
      SplitAtScheme(lang, u, Step(k, a[0]), a[1..], tail);
      SplitOver(lang, u, k, a, Scheme() + tail, Scheme() + UserSub(lang, u, 3, tail));
    }
  }

  lemma SplitMatched(lang: Lang, u: string, a: string, rest: string, after: string)
    requires UserHere(lang, 3, a)
    requires var a' := a[Run(Userinfo, lang, a) + 1..];
      UserSub(lang, u, 0, a' + rest) == Before(lang, u, 0, a') + after
    ensures UserSub(lang, u, 3, a + rest) == Before(lang, u, 3, a) + after
  {
    UserWithin(lang, u, a, rest);
    Piece(u + ['@'], Before(lang, u, 0, a[Run(Userinfo, lang, a) + 1..]), after);
  }

  lemma SplitOver(lang: Lang, u: string, k: nat, a: string, rest: string, after: string)
    requires a != "" && !UserHere(lang, k, a) && !UserHere(lang, k, a + rest)
    requires UserSub(lang, u, Step(k, a[0]), a[1..] + rest) == Before(lang, u, Step(k, a[0]), a[1..]) + after
    ensures UserSub(lang, u, k, a + rest) == Before(lang, u, k, a) + after
  {
    assert a + rest == [a[0]] + (a[1..] + rest);
    UserOver(lang, u, k, a[0], a[1..] + rest);
    Piece([a[0]], Before(lang, u, Step(k, a[0]), a[1..]), after);
  }

  /** One userinfo or another, the output is the same, wherever it stands. */
  lemma UserForgets(lang: Lang, u: string, a: string, x: string, y: string, b: string)
    requires x != "" && y != "" && Free(Userinfo, lang, x) && Free(Userinfo, lang, y)
    ensures UserSub(lang, u, 0, a + (Scheme() + (x + (['@'] + b))))
      == UserSub(lang, u, 0, a + (Scheme() + (y + (['@'] + b))))
  {
    SplitAtScheme(lang, u, 0, a, x + (['@'] + b));
    SplitAtScheme(lang, u, 0, a, y + (['@'] + b));
    UserMatch(lang, u, x, b);
    UserMatch(lang, u, y, b);
  }

  // ── scrubbing twice ───────────────────────────────────────────────────

  /** Text no question mark of which is followed by anything but the word. */
  ghost predicate Settled(lang: Lang, w: string, s: string) {
    QuerySub(lang, w, s) == s
  }

  lemma FirstKept(lang: Lang, w: string, s: string)
    requires s != "" && s[0] != '?'
    ensures QuerySub(lang, w, s) != "" && QuerySub(lang, w, s)[0] == s[0]
  {}

  /** Nothing is written that a stop did not already follow. */
  lemma StartsKept(lang: Lang, w: string, s: string)
    requires Starts(Query, lang, s)
    ensures Starts(Query, lang, QuerySub(lang, w, s))
    ensures s != "" ==> QuerySub(lang, w, s) != "" && QuerySub(lang, w, s)[0] == s[0]
  {
    if s != "" { FirstKept(lang, w, s); }
  }

  lemma {:induction false} QueryTwice(lang: Lang, w: string, s: string)
    requires Plain(w)
    ensures Settled(lang, w, QuerySub(lang, w, s))
    decreases |s|
  {
    if s == "" {
    } else if s[0] == '?' && Run(Query, lang, s[1..]) > 0 {
      var rest := s[1..][Run(Query, lang, s[1..])..];
      QueryTwice(lang, w, rest);
      StartsKept(lang, w, rest);
      WordSettles(lang, w, QuerySub(lang, w, rest));
    } else {
      QueryTwice(lang, w, s[1..]);
      if s[0] == '?' { StartsKept(lang, w, s[1..]); }
      QueryOver(lang, w, s[0], QuerySub(lang, w, s[1..]));
    }
  }

  lemma WordSettles(lang: Lang, w: string, t: string)
    requires Plain(w) && Starts(Query, lang, t) && Settled(lang, w, t)
    ensures Settled(lang, w, ['?'] + w + t)
  {
    FreeAlso(lang, w);
    QueryMatch(lang, w, w, t);
    Piece(['?'], w, t);
  }

  function Steps(k: nat, x: string): nat
    decreases |x|
  {
    if x == "" then k else Steps(Step(k, x[0]), x[1..])
  }

  lemma KeptOne(lang: Lang, u: string, k: nat, c: char, rest: string)
    requires k != 3
    ensures UserSub(lang, u, k, [c] + rest) == [c] + UserSub(lang, u, Step(k, c), rest)
  {
    UserOver(lang, u, k, c, rest);
  }

  /** A run is kept where no lookbehind is complete before it: none can complete
      inside it. */
  lemma {:induction false} RunKept(lang: Lang, u: string, k: nat, x: string, b: string)
    requires k != 3 && Free(Userinfo, lang, x)
    ensures Steps(k, x) != 3
    ensures UserSub(lang, u, k, x + b) == x + UserSub(lang, u, Steps(k, x), b)
    decreases |x|
  {
    if x == "" {
      assert x + b == b;
    } else {
      RunKept(lang, u, Step(k, x[0]), x[1..], b);
      KeptOne(lang, u, k, x[0], x[1..] + b);
      Piece([x[0]], x[1..], b);
      Piece([x[0]], x[1..], UserSub(lang, u, Steps(k, x), b));
      assert x == [x[0]] + x[1..];
    }
  }

  lemma UserStarts(lang: Lang, u: string, k: nat, b: string)
    requires k != 3
    ensures b != "" ==> UserSub(lang, u, k, b) != "" && UserSub(lang, u, k, b)[0] == b[0]
    ensures b == "" ==> UserSub(lang, u, k, b) == ""
  {}

  /** What is not matched is not matched in the output either. */
  lemma StillNoMatch(lang: Lang, u: string, k: nat, s: string)
    requires s != "" && !UserHere(lang, k, s)
    ensures !UserHere(lang, k, [s[0]] + UserSub(lang, u, Step(k, s[0]), s[1..]))
  {
    var n := Run(Userinfo, lang, s);
    if k == 3 && n > 0 {
      assert s == [s[0]] + (s[1..n] + s[n..]);
      StillBarred(lang, u, s[0], s[1..n], s[n..]);
    } else if k == 3 {
      assert ([s[0]] + UserSub(lang, u, Step(k, s[0]), s[1..]))[0] == s[0];
    }
  }

  lemma StillBarred(lang: Lang, u: string, c: char, x: string, b: string)
    requires Free(Userinfo, lang, [c] + x) && Starts(Userinfo, lang, b) && (b != "" ==> b[0] != '@')
    ensures !UserHere(lang, 3, [c] + UserSub(lang, u, Step(3, c), x + b))
  {
    assert ([c] + x)[0] == c && ([c] + x)[1..] == x;
    RunKept(lang, u, Step(3, c), x, b);
    var b' := UserSub(lang, u, Steps(Step(3, c), x), b);
    UserStarts(lang, u, Steps(Step(3, c), x), b);
    assert [c] + (x + b') == ([c] + x) + b';
    RunOf(Userinfo, lang, [c] + x, b');
  }

  lemma UserSettles(lang: Lang, u: string, t: string)
    requires Plain(u) && UserSub(lang, u, 0, t) == t
    ensures UserSub(lang, u, 3, u + ['@'] + t) == u + ['@'] + t
  {
    UserMatch(lang, u, u, t);
    Piece(u, ['@'], t);
  }

  lemma {:induction false} UserTwice(lang: Lang, u: string, k: nat, s: string)
    requires Plain(u)
    ensures UserSub(lang, u, k, UserSub(lang, u, k, s)) == UserSub(lang, u, k, s)
    decreases |s|
  {
    if s == "" {
    } else if UserHere(lang, k, s) {
      var b := s[Run(Userinfo, lang, s) + 1..];
      UserTwice(lang, u, 0, b);
      UserSettles(lang, u, UserSub(lang, u, 0, b));
    } else {
      UserTwice(lang, u, Step(k, s[0]), s[1..]);
      StillNoMatch(lang, u, k, s);
      UserOver(lang, u, k, s[0], UserSub(lang, u, Step(k, s[0]), s[1..]));
    }
  }

  // ── the two together ──────────────────────────────────────────────────

  function Scrubbed(lang: Lang, w: string, u: string, s: string): string {
    UserSub(lang, u, 0, QuerySub(lang, w, s))
  }

  lemma QueryFree(lang: Lang, w: string, x: string, b: string)
    requires '?' !in x
    ensures QuerySub(lang, w, x + b) == x + QuerySub(lang, w, b)
  {
    if x == "" {
      assert x + b == b;
    } else {
      assert x + b == [x[0]] + (x[1..] + b) && x == [x[0]] + x[1..];
      QueryOver(lang, w, x[0], x[1..] + b);
      QueryFree(lang, w, x[1..], b);
      Piece([x[0]], x[1..], QuerySub(lang, w, b));
    }
  }

  /** In settled text a question mark opens the word exactly, or nothing. */
  lemma SettledMark(lang: Lang, w: string, s: string) returns (rest: string)
    requires Plain(w) && s != "" && s[0] == '?' && Settled(lang, w, s)
    ensures Settled(lang, w, rest) && Starts(Query, lang, rest) && |rest| < |s|
    ensures s == ['?'] + rest || s == ['?'] + w + rest
  {
    var n := Run(Query, lang, s[1..]);
    rest := s[1..][n..];
    if n > 0 {
      var t := QuerySub(lang, w, rest);
      StartsKept(lang, w, rest);
      assert s == ['?'] + w + t;
      assert s[1..] == w + t;
      FreeAlso(lang, w);
      RunOf(Query, lang, w, t);
      assert t == rest;
    } else {
      assert rest == s[1..];
      assert QuerySub(lang, w, s)[1..] == QuerySub(lang, w, rest);
    }
  }

  lemma FreeAlso(lang: Lang, w: string)
    requires Plain(w)
    ensures Free(Query, lang, w) && Free(Userinfo, lang, w)
  {}

  lemma SettledOver(lang: Lang, w: string, c: char, rest: string)
    requires c != '?' && Settled(lang, w, [c] + rest)
    ensures Settled(lang, w, rest)
  {
    QueryOver(lang, w, c, rest);
    assert ([c] + QuerySub(lang, w, rest))[1..] == QuerySub(lang, w, rest);
    assert ([c] + rest)[1..] == rest;
  }

  lemma {:induction false} SettledAfter(lang: Lang, w: string, x: string, rest: string)
    requires '?' !in x && Settled(lang, w, x + rest)
    ensures Settled(lang, w, rest)
  {
    if x == "" {
      assert x + rest == rest;
    } else {
      assert x + rest == [x[0]] + (x[1..] + rest);
      SettledOver(lang, w, x[0], x[1..] + rest);
      SettledAfter(lang, w, x[1..], rest);
    }
  }

  /** In settled text a run holding a question mark ends at a stop of both rules,
      so no userinfo match holds one. */
  lemma {:induction false} MarkBars(lang: Lang, w: string, s: string)
    requires Plain(w) && Settled(lang, w, s) && '?' in s[..Run(Userinfo, lang, s)]
    ensures var n := Run(Userinfo, lang, s);
      n < |s| ==> s[n] != '@'
    decreases |s|
  {
    if s[0] == '?' {
      MarkBarsHere(lang, w, s);
    } else {
      assert s == [s[0]] + s[1..];
      SettledOver(lang, w, s[0], s[1..]);
      assert s[..Run(Userinfo, lang, s)] == [s[0]] + s[1..][..Run(Userinfo, lang, s[1..])];
      MarkBars(lang, w, s[1..]);
    }
  }

  lemma MarkBarsHere(lang: Lang, w: string, s: string)
    requires Plain(w) && Settled(lang, w, s) && s != "" && s[0] == '?'
    ensures var n := Run(Userinfo, lang, s);
      n < |s| ==> s[n] != '@'
  {
    var rest := SettledMark(lang, w, s);
    FreeAlso(lang, w);
    MarkFree(lang, w);
    if s == ['?'] + w + rest {
      BarredAt(lang, ['?'] + w, rest);
    } else {
      BarredAt(lang, ['?'], rest);
    }
  }

  lemma MarkFree(lang: Lang, w: string)
    requires Free(Userinfo, lang, w)
    ensures Free(Userinfo, lang, ['?']) && Free(Userinfo, lang, ['?'] + w)
  {}

  lemma BarredAt(lang: Lang, x: string, rest: string)
    requires Free(Userinfo, lang, x) && Starts(Query, lang, rest)
    ensures var n := Run(Userinfo, lang, x + rest);
      n < |x + rest| ==> (x + rest)[n] != '@'
  {
    RunOf(Userinfo, lang, x, rest);
  }

  /** Stripping userinfo unsettles nothing. */
  lemma {:induction false} UserKeepsSettled(lang: Lang, w: string, u: string, k: nat, s: string)
    requires Plain(w) && Plain(u) && Settled(lang, w, s)
    ensures Settled(lang, w, UserSub(lang, u, k, s))
    decreases |s|, 1
  {
    if s == "" {
    } else if UserHere(lang, k, s) {
      var n := Run(Userinfo, lang, s);
      if '?' in s[..n] { MarkBars(lang, w, s); }
      var b := s[n + 1..];
      assert s == (s[..n] + ['@']) + b;
      SettledAfter(lang, w, s[..n] + ['@'], b);
      UserKeepsSettled(lang, w, u, 0, b);
      QueryFree(lang, w, u + ['@'], UserSub(lang, u, 0, b));
    } else if s[0] == '?' {
      MarkKeepsSettled(lang, w, u, k, s);
    } else {
      assert s == [s[0]] + s[1..];
      SettledOver(lang, w, s[0], s[1..]);
      UserKeepsSettled(lang, w, u, Step(k, s[0]), s[1..]);
      QueryOver(lang, w, s[0], UserSub(lang, u, Step(k, s[0]), s[1..]));
    }
  }

  lemma {:induction false} MarkKeepsSettled(lang: Lang, w: string, u: string, k: nat, s: string)
    requires Plain(w) && Plain(u) && s != "" && s[0] == '?' && Settled(lang, w, s)
    requires !UserHere(lang, k, s)
    ensures Settled(lang, w, UserSub(lang, u, k, s))
    decreases |s|, 0
  {
    var rest := SettledMark(lang, w, s);
    FreeAlso(lang, w);
    if s == ['?'] + w + rest {
      Piece(['?'], w, rest);
      MarkThenRest(lang, w, u, k, w, rest);
    } else {
      assert "" + rest == rest;
      MarkThenRest(lang, w, u, k, "", rest);
    }
  }

  lemma {:induction false} MarkThenRest(lang: Lang, w: string, u: string, k: nat, x: string, rest: string)
    requires Plain(w) && Plain(u) && (x == w || x == "") && Free(Userinfo, lang, x)
    requires Settled(lang, w, rest) && Starts(Query, lang, rest)
    requires !UserHere(lang, k, ['?'] + (x + rest))
    ensures Settled(lang, w, UserSub(lang, u, k, ['?'] + (x + rest)))
    decreases |rest|, 2
  {
    UserOver(lang, u, k, '?', x + rest);
    RunKept(lang, u, 0, x, rest);
    var j := Steps(0, x);
    UserKeepsSettled(lang, w, u, j, rest);
    UserStarts(lang, u, j, rest);
    MarkSettles(lang, w, x, UserSub(lang, u, j, rest));
  }

  lemma MarkSettles(lang: Lang, w: string, x: string, t: string)
    requires Plain(w) && (x == w || x == "") && Settled(lang, w, t) && Starts(Query, lang, t)
    ensures Settled(lang, w, ['?'] + (x + t))
  {
    if x == "" {
      assert x + t == t;
      QueryOver(lang, w, '?', t);
    } else {
      WordSettles(lang, w, t);
      assert ['?'] + w + t == ['?'] + (w + t);
    }
  }

  /** Scrubbing a scrubbed text changes nothing, nor does either pass alone. */
  lemma ScrubTwice(lang: Lang, w: string, u: string, s: string)
    requires Plain(w) && Plain(u)
    ensures var r := Scrubbed(lang, w, u, s);
      Scrubbed(lang, w, u, r) == r && QuerySub(lang, w, r) == r && UserSub(lang, u, 0, r) == r
  {
    var q := QuerySub(lang, w, s);
    QueryTwice(lang, w, s);
    UserKeepsSettled(lang, w, u, 0, q);
    UserTwice(lang, u, 0, q);
  }

  // ── what the pair forgets ─────────────────────────────────────────────

  /** Userinfo in its place between "://" and "@". */
  function Login(x: string, b: string): string {
    Scheme() + (x + (['@'] + b))
  }

  /** Either an open query swallows the whole login, or the query pass leaves it. */
  lemma {:induction false} QueryAround(lang: Lang, w: string, a: string, x: string, y: string, b: string)
    returns (a': string, b': string, swallowed: bool)
    requires Free(Userinfo, lang, x) && Free(Userinfo, lang, y) && '?' !in x && '?' !in y
    ensures swallowed ==> QuerySub(lang, w, a + Login(x, b)) == QuerySub(lang, w, a + Login(y, b))
    ensures !swallowed ==> QuerySub(lang, w, a + Login(x, b)) == a' + Login(x, b')
    ensures !swallowed ==> QuerySub(lang, w, a + Login(y, b)) == a' + Login(y, b')
    decreases |a|
  {
    if a == "" {
      a', b', swallowed := "", QuerySub(lang, w, b), false;
      LoginFree(lang, w, x, b);
      LoginFree(lang, w, y, b);
    } else {
      var c, rest := a[0], a[1..];
      var n := Run(Query, lang, rest);
      assert a + Login(x, b) == [c] + (rest + Login(x, b));
      assert a + Login(y, b) == [c] + (rest + Login(y, b));
      if c == '?' && n == |rest| {
        LoginSwallowed(lang, w, rest, x, b);
        LoginSwallowed(lang, w, rest, y, b);
        a', b', swallowed := "", "", true;
      } else if c == '?' && n > 0 {
        QueryWithin(lang, w, rest, Login(x, b));
        QueryWithin(lang, w, rest, Login(y, b));
        a', b', swallowed := QueryAround(lang, w, rest[n..], x, y, b);
        Piece(['?'] + w, a', Login(x, b'));
        Piece(['?'] + w, a', Login(y, b'));
        a' := ['?'] + w + a';
      } else {
        QueryOver(lang, w, c, rest + Login(x, b));
        QueryOver(lang, w, c, rest + Login(y, b));
        a', b', swallowed := QueryAround(lang, w, rest, x, y, b);
        Piece([c], a', Login(x, b'));
        Piece([c], a', Login(y, b'));
        a' := [c] + a';
      }
    }
  }

  lemma LoginParts(a: string, x: string, b: string)
    ensures a + Login(x, b) == (a + Scheme() + x + ['@']) + b
  {}

  lemma LoginFree(lang: Lang, w: string, x: string, b: string)
    requires '?' !in x
    ensures QuerySub(lang, w, "" + Login(x, b)) == "" + Login(x, QuerySub(lang, w, b))
  {
    LoginParts("", x, b);
    LoginParts("", x, QuerySub(lang, w, b));
    QueryFree(lang, w, "" + Scheme() + x + ['@'], b);
  }

  /** A query open before the login takes it, and all up to the next stop. */
  lemma LoginSwallowed(lang: Lang, w: string, rest: string, x: string, b: string)
    requires Free(Query, lang, rest) && Free(Userinfo, lang, x)
    ensures QuerySub(lang, w, ['?'] + (rest + Login(x, b)))
      == ['?'] + w + QuerySub(lang, w, b[Run(Query, lang, b)..])
  {
    var n := Run(Query, lang, b);
    var run := rest + Scheme() + x + ['@'] + b[..n];
    assert b == b[..n] + b[n..];
    assert rest + Login(x, b) == run + b[n..];
    forall i | 0 <= i < |run| ensures !Stop(Query, lang, run[i]) {
      RunChars(lang, rest, x, b[..n], i);
    }
    QueryMatch(lang, w, run, b[n..]);
  }

  lemma RunChars(lang: Lang, rest: string, x: string, front: string, i: nat)
    requires Free(Query, lang, rest) && Free(Userinfo, lang, x) && Free(Query, lang, front)
    requires i < |rest + Scheme() + x + ['@'] + front|
    ensures !Stop(Query, lang, (rest + Scheme() + x + ['@'] + front)[i])
  {
    var run := rest + Scheme() + x + ['@'] + front;
    var m, n := |rest|, |rest| + 3 + |x|;
    if i < m {
      assert run[i] == rest[i];
    } else if i < m + 3 {
      assert run[i] == Scheme()[i - m];
    } else if i < n {
      assert run[i] == x[i - m - 3];
    } else if i > n {
      assert run[i] == front[i - n - 1];
    }
  }

  /** Scrubbing forgets a userinfo that holds no question mark. */
  lemma ScrubForgets(lang: Lang, w: string, u: string, a: string, x: string, y: string, b: string)
    requires x != "" && y != "" && Free(Userinfo, lang, x) && Free(Userinfo, lang, y)
    requires '?' !in x && '?' !in y
    ensures Scrubbed(lang, w, u, a + Login(x, b)) == Scrubbed(lang, w, u, a + Login(y, b))
  {
    var a', b', swallowed := QueryAround(lang, w, a, x, y, b);
    if !swallowed {
      UserForgets(lang, u, a', x, y, b');
    }
  }

  /** A question mark in the userinfo makes the query pass cut it there, and the
      "@" with it: what stood before the mark stays. */
  lemma LoginCut(lang: Lang, w: string, x: string, b: string) returns (kept: string, rest: string)
    requires Plain(w) && '?' in x && Free(Userinfo, lang, x)
    ensures kept <= x && kept < x && '?' !in kept && x[|kept|] == '?' && Starts(Query, lang, rest)
    ensures QuerySub(lang, w, Login(x, b)) == Scheme() + (kept + ['?'] + w + rest)
  {
    var i := FirstMark(x);
    kept := x[..i];
    var n := Run(Query, lang, b);
    rest := QuerySub(lang, w, b[n..]);
    assert x == kept + (['?'] + x[i + 1..]) && b == b[..n] + b[n..];
    CutAt(lang, w, kept, x[i + 1..], b[..n], b[n..]);
    StartsKept(lang, w, b[n..]);
  }

  lemma CutAt(lang: Lang, w: string, kept: string, q: string, run: string, tail: string)
    requires '?' !in kept && Free(Query, lang, q) && Free(Query, lang, run) && Starts(Query, lang, tail)
    ensures QuerySub(lang, w, Login(kept + (['?'] + q), run + tail))
      == Scheme() + (kept + ['?'] + w + QuerySub(lang, w, tail))
  {
    LoginMarked(kept, q, run, tail);
    QueryFree(lang, w, Scheme() + kept, ['?'] + (((q + ['@']) + run) + tail));
    QueryMatch(lang, w, (q + ['@']) + run, tail);
    CutText(kept, w, QuerySub(lang, w, tail));
  }

  lemma LoginMarked(kept: string, q: string, run: string, tail: string)
    ensures Login(kept + (['?'] + q), run + tail)
      == (Scheme() + kept) + (['?'] + (((q + ['@']) + run) + tail))
  {}

  lemma CutText(kept: string, w: string, rest: string)
    ensures (Scheme() + kept) + (['?'] + w + rest) == Scheme() + (kept + ['?'] + w + rest)
  {}

  lemma FirstMark(x: string) returns (i: nat)
    requires '?' in x
    ensures i < |x| && x[i] == '?' && '?' !in x[..i]
  {
    if x[0] == '?' {
      i := 0;
    } else {
      var j := FirstMark(x[1..]);
      i := j + 1;
      assert x[..i] == [x[0]] + x[1..][..j];
    }
  }

  /** A query run is still open where this text ends. */
  ghost predicate Open(lang: Lang, a: string) {
    exists i :: OpenFrom(lang, a, i)
  }

  ghost predicate OpenFrom(lang: Lang, a: string, i: int) {
    0 <= i < |a| && a[i] == '?' && Run(Query, lang, a[i + 1..]) == |a| - i - 1
  }

  lemma OpenLater(lang: Lang, a: string, n: nat)
    requires n <= |a|
    ensures Open(lang, a[n..]) ==> Open(lang, a)
    ensures (exists i :: OpenFrom(lang, a, i) && i >= n) ==> Open(lang, a[n..])
  {
    if Open(lang, a[n..]) {
      var i :| OpenFrom(lang, a[n..], i);
      assert a[n..][i + 1..] == a[n + i + 1..];
      assert OpenFrom(lang, a, n + i);
    }
    if exists i :: OpenFrom(lang, a, i) && i >= n {
      var i :| OpenFrom(lang, a, i) && i >= n;
      assert a[n..][i - n + 1..] == a[i + 1..];
      assert OpenFrom(lang, a[n..], i - n);
    }
  }

  /** A run that stops inside the text leaves only what follows it to be open. */
  lemma OpenPast(lang: Lang, a: string, n: nat)
    requires a != "" && a[0] == '?' && n == Run(Query, lang, a[1..]) < |a| - 1
    ensures Open(lang, a) <==> Open(lang, a[1..][n..])
  {
    assert a[1..][n..] == a[n + 1..];
    OpenLater(lang, a, n + 1);
    forall i | 0 < i <= n ensures !OpenFrom(lang, a, i) {
      assert a[i + 1..][n - i] == a[1..][n];
    }
    if Open(lang, a) {
      var i :| OpenFrom(lang, a, i);
      assert i > n;
    }
  }

  lemma OpenOver(lang: Lang, a: string)
    requires a != "" && a[0] != '?'
    ensures Open(lang, a) <==> Open(lang, a[1..])
  {
    OpenLater(lang, a, 1);
    if Open(lang, a) {
      var i :| OpenFrom(lang, a, i);
      assert i >= 1;
    }
  }

  /** Where no query is open, the pass treats a text and what follows it apart. */
  lemma {:induction false} ClosedApart(lang: Lang, w: string, a: string, tail: string)
    requires !Open(lang, a)
    ensures QuerySub(lang, w, a + tail) == QuerySub(lang, w, a) + QuerySub(lang, w, tail)
    decreases |a|
  {
    if a == "" {
      assert a + tail == tail;
    } else {
      var c, rest := a[0], a[1..];
      var n := Run(Query, lang, rest);
      assert a + tail == [c] + (rest + tail) && a == [c] + rest;
      if c == '?' {
        assert n == |rest| ==> OpenFrom(lang, a, 0);
        OpenPast(lang, a, n);
      } else {
        OpenOver(lang, a);
      }
      if c == '?' && n > 0 {
        QueryWithin(lang, w, rest, tail);
        ClosedApart(lang, w, rest[n..], tail);
        Piece(['?'] + w, QuerySub(lang, w, rest[n..]), QuerySub(lang, w, tail));
      } else {
        QueryOver(lang, w, c, rest + tail);
        QueryOver(lang, w, c, rest);
        ClosedApart(lang, w, rest, tail);
        Piece([c], QuerySub(lang, w, rest), QuerySub(lang, w, tail));
      }
    }
  }

  /** An open query takes a login whole, whatever it holds. */
  lemma {:induction false} OpenSwallows(lang: Lang, w: string, a: string, x: string, y: string, b: string)
    requires Open(lang, a) && Free(Userinfo, lang, x) && Free(Userinfo, lang, y)
    ensures QuerySub(lang, w, a + Login(x, b)) == QuerySub(lang, w, a + Login(y, b))
    decreases |a|
  {
    var c, rest := a[0], a[1..];
    var n := Run(Query, lang, rest);
    assert a + Login(x, b) == [c] + (rest + Login(x, b));
    assert a + Login(y, b) == [c] + (rest + Login(y, b));
    if c == '?' && n == |rest| {
      LoginSwallowed(lang, w, rest, x, b);
      LoginSwallowed(lang, w, rest, y, b);
    } else if c == '?' && n > 0 {
      OpenPast(lang, a, n);
      QueryWithin(lang, w, rest, Login(x, b));
      QueryWithin(lang, w, rest, Login(y, b));
      OpenSwallows(lang, w, rest[n..], x, y, b);
    } else {
      if c == '?' {
        OpenPast(lang, a, n);
        assert rest[0..] == rest;
      } else {
        OpenOver(lang, a);
      }
      QueryOver(lang, w, c, rest + Login(x, b));
      QueryOver(lang, w, c, rest + Login(y, b));
      OpenSwallows(lang, w, rest, x, y, b);
    }
  }

  /** So a login is forgotten, in any text, exactly when a query open before it
      takes it whole or it holds no question mark itself. */
  lemma ScrubForgetsIff(lang: Lang, w: string, u: string, a: string, x: string, y: string, b: string)
    requires Plain(w) && Plain(u) && '?' !in y
    requires x != "" && y != "" && Free(Userinfo, lang, x) && Free(Userinfo, lang, y)
    ensures Scrubbed(lang, w, u, a + Login(x, b)) == Scrubbed(lang, w, u, a + Login(y, b)) <==>
      Open(lang, a) || '?' !in x
  {
    if Open(lang, a) {
      OpenSwallows(lang, w, a, x, y, b);
    } else if '?' !in x {
      ScrubForgets(lang, w, u, a, x, y, b);
    } else {
      LoginKept(lang, w, u, a, x, y, b);
    }
  }

  lemma LoginKept(lang: Lang, w: string, u: string, a: string, x: string, y: string, b: string)
    requires Plain(w) && Plain(u) && !Open(lang, a) && '?' in x && '?' !in y
    requires y != "" && Free(Userinfo, lang, x) && Free(Userinfo, lang, y)
    ensures Scrubbed(lang, w, u, a + Login(x, b)) != Scrubbed(lang, w, u, a + Login(y, b))
  {
    var a' := QuerySub(lang, w, a);
    var kept, rest := LoginCut(lang, w, x, b);
    var left := kept + ['?'] + w;
    ClosedApart(lang, w, a, Login(x, b));
    FreeAlso(lang, w);
    FreeAlso(lang, u);
    SplitAtScheme(lang, u, 0, a', left + rest);
    UnmatchedRun(lang, u, left, rest);
    LoginHidden(lang, w, u, a, y, b);
    Differ(lang, Before(lang, u, 0, a'), left, UserSub(lang, u, 3, left + rest), u,
           UserSub(lang, u, 0, QuerySub(lang, w, b)));
  }

  /** A login without a mark, no query open before it, is replaced by the word. */
  lemma LoginHidden(lang: Lang, w: string, u: string, a: string, y: string, b: string)
    requires !Open(lang, a) && '?' !in y && y != "" && Free(Userinfo, lang, y)
    ensures Scrubbed(lang, w, u, a + Login(y, b)) ==
      Before(lang, u, 0, QuerySub(lang, w, a))
      + (Scheme() + (u + ['@'] + UserSub(lang, u, 0, QuerySub(lang, w, b))))
  {
    var a', b' := QuerySub(lang, w, a), QuerySub(lang, w, b);
    ClosedApart(lang, w, a, Login(y, b));
    LoginFree(lang, w, y, b);
    assert "" + Login(y, b) == Login(y, b) && "" + Login(y, b') == Login(y, b');
    SplitAtScheme(lang, u, 0, a', y + (['@'] + b'));
    UserMatch(lang, u, y, b');
  }

  /** A run ended by a stop of both rules comes out as it went in. */
  lemma UnmatchedRun(lang: Lang, u: string, x: string, rest: string)
    requires x != "" && Free(Userinfo, lang, x) && Starts(Query, lang, rest)
    ensures var t := UserSub(lang, u, 3, x + rest);
      |t| >= |x| && t[..|x|] == x && Starts(Query, lang, t[|x|..])
  {
    var j := Steps(Step(3, x[0]), x[1..]);
    RunBarred(lang, x, rest);
    RunPasses(lang, u, x, rest);
    UserStarts(lang, u, j, rest);
    Sliced(x, UserSub(lang, u, j, rest));
  }

  lemma Sliced(x: string, t: string)
    ensures (x + t)[..|x|] == x && (x + t)[|x|..] == t
  {}

  lemma RunBarred(lang: Lang, x: string, rest: string)
    requires Free(Userinfo, lang, x) && Starts(Query, lang, rest)
    ensures !UserHere(lang, 3, x + rest)
  {
    RunOf(Userinfo, lang, x, rest);
    assert rest != "" ==> (x + rest)[|x|] == rest[0];
  }

  /** Not matched at its head, a run is kept to its end. */
  lemma RunPasses(lang: Lang, u: string, x: string, rest: string)
    requires x != "" && Free(Userinfo, lang, x) && !UserHere(lang, 3, x + rest)
    ensures Steps(Step(3, x[0]), x[1..]) != 3
    ensures UserSub(lang, u, 3, x + rest) == x + UserSub(lang, u, Steps(Step(3, x[0]), x[1..]), rest)
  {
    var j := Steps(Step(3, x[0]), x[1..]);
    assert x == [x[0]] + x[1..];
    Piece([x[0]], x[1..], rest);
    UserOver(lang, u, 3, x[0], x[1..] + rest);
    RunKept(lang, u, Step(3, x[0]), x[1..], rest);
    Piece([x[0]], x[1..], UserSub(lang, u, j, rest));
  }

  lemma Differ(lang: Lang, before: string, x: string, t: string, u: string, tail: string)
    requires Free(Userinfo, lang, x) && Free(Userinfo, lang, u)
    requires |t| >= |x| && t[..|x|] == x && Starts(Query, lang, t[|x|..])
    ensures before + (Scheme() + t) != before + (Scheme() + (u + ['@'] + tail))
  {
    var s := u + ['@'] + tail;
    RunsDiffer(lang, x, t, u, tail);
    assert (before + (Scheme() + t))[|before| + 3..] == t;
    assert (before + (Scheme() + s))[|before| + 3..] == s;
  }

  /** One run is followed by an at sign, the other by what stops both rules. */
  lemma RunsDiffer(lang: Lang, x: string, t: string, u: string, tail: string)
    requires Free(Userinfo, lang, x) && Free(Userinfo, lang, u)
    requires |t| >= |x| && t[..|x|] == x && Starts(Query, lang, t[|x|..])
    ensures t != u + ['@'] + tail
  {
    var s := u + ['@'] + tail;
    assert t == x + t[|x|..];
    RunOf(Userinfo, lang, x, t[|x|..]);
    Piece(u, ['@'], tail);
    RunOf(Userinfo, lang, u, ['@'] + tail);
    assert s[|u|] == '@';
    assert |t| > |x| ==> t[|x|] == t[|x|..][0];
  }
}
