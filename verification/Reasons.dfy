/** Reason text in both languages: `envelope.reason` and `reasonText`, bound
    first and scrub second; and where Go's scan and Python's pattern differ. */
module Reasons {
  import opened OneLine
  import opened Scrub
  import opened ScrubTheory
  import opened Redaction

  // ── the query pass in two languages ───────────────────────────────────

  /** Whitespace to Python's `\s`, not to Go's terminator table. */
  predicate Wide(c: char) {
    Stop(Query, Python, c) && !Stop(Query, Go, c)
  }

  /** Some query run, as Go reads it, holds wide whitespace. */
  ghost predicate WideInRun(s: string) {
    exists i, k :: Reached(s, i, k)
  }

  ghost predicate Reached(s: string, i: int, k: int) {
    0 <= i < k < |s| && s[i] == '?' && Wide(s[k]) && forall m | i < m < k :: !Stop(Query, Go, s[m])
  }

  lemma ReachedLater(s: string, n: nat)
    requires n <= |s|
    ensures WideInRun(s[n..]) ==> exists i, k :: Reached(s, i, k) && n <= i
    ensures (exists i, k :: Reached(s, i, k) && n <= i) ==> WideInRun(s[n..])
  {
    if WideInRun(s[n..]) {
      var i, k :| Reached(s[n..], i, k);
      forall m | n + i < m < n + k ensures !Stop(Query, Go, s[m]) {
        assert s[m] == s[n..][m - n];
      }
      assert Reached(s, n + i, n + k);
    }
    if exists i, k :: Reached(s, i, k) && n <= i {
      var i, k :| Reached(s, i, k) && n <= i;
      assert Reached(s[n..], i - n, k - n);
    }
  }

  lemma {:induction false} RunsNest(s: string)
    ensures Run(Query, Python, s) <= Run(Query, Go, s)
    ensures Run(Query, Python, s) < Run(Query, Go, s) ==> Wide(s[Run(Query, Python, s)])
  {
    if s != "" && !Stop(Query, Python, s[0]) {
      RunsNest(s[1..]);
    }
  }

  /** With equal runs the mark's own run holds nothing wide. */
  lemma SkipRun(s: string, n: nat)
    requires s != "" && s[0] == '?'
    requires n == Run(Query, Go, s[1..]) == Run(Query, Python, s[1..])
    ensures WideInRun(s) <==> WideInRun(s[1..][n..])
  {
    assert s[1..][n..] == s[n + 1..];
    ReachedLater(s, n + 1);
    if WideInRun(s) {
      var i, k :| Reached(s, i, k);
      PastRun(s, n, i, k);
    }
  }

  lemma PastRun(s: string, n: nat, i: int, k: int)
    requires s != "" && s[0] == '?' && Reached(s, i, k)
    requires n == Run(Query, Go, s[1..]) == Run(Query, Python, s[1..])
    ensures n + 1 <= i
  {
    forall m | 1 <= m <= n ensures !Stop(Query, Go, s[m]) && !Stop(Query, Python, s[m]) {
      assert s[m] == s[1..][m - 1];
    }
    if n + 1 < |s| {
      assert s[n + 1] == s[1..][n];
    }
  }

  lemma SkipOther(s: string)
    requires s != "" && s[0] != '?'
    ensures WideInRun(s) <==> WideInRun(s[1..])
  {
    ReachedLater(s, 1);
    if WideInRun(s) {
      var i, k :| Reached(s, i, k);
      assert i >= 1;
    }
  }

  /** Where Go's run goes on past Python's, the outputs part. */
  lemma RunsPart(w: string, s: string)
    requires Plain(w) && s != "" && s[0] == '?'
    requires Run(Query, Python, s[1..]) < Run(Query, Go, s[1..])
    ensures WideInRun(s) && QuerySub(Go, w, s) != QuerySub(Python, w, s)
  {
    RunsNest(s[1..]);
    var p, g := Run(Query, Python, s[1..]), Run(Query, Go, s[1..]);
    WideReached(s, p);
    var rest, more := s[1..][p..], s[1..][g..];
    StartsKept(Python, w, rest);
    StartsKept(Go, w, more);
    var x, y := QuerySub(Go, w, more), QuerySub(Python, w, rest);
    assert y != "" && Wide(y[0]);
    assert QuerySub(Go, w, s) == ['?'] + w + x;
    if p > 0 {
      AppendDiffers(['?'] + w, x, y);
    } else {
      assert QuerySub(Python, w, s) == ['?'] + y;
      WideParts(w, x, y);
    }
  }

  lemma WideReached(s: string, p: nat)
    requires s != "" && s[0] == '?' && p == Run(Query, Python, s[1..]) < Run(Query, Go, s[1..])
    requires Wide(s[1..][p])
    ensures WideInRun(s)
  {
    assert forall m | 0 < m < p + 1 :: s[m] == s[1..][m - 1];
    assert Reached(s, 0, p + 1);
  }

  lemma WideParts(w: string, x: string, y: string)
    requires Plain(w) && y != "" && Wide(y[0])
    ensures ['?'] + w + x != ['?'] + y
  {
    assert (['?'] + w + x)[1] == w[0] && (['?'] + y)[1] == y[0];
    assert Stop(Userinfo, Python, y[0]) && !Stop(Userinfo, Python, w[0]);
  }

  lemma AppendDiffers(front: string, x: string, y: string)
    requires x != y
    ensures front + x != front + y
  {
    assert (front + x)[|front|..] == x && (front + y)[|front|..] == y;
  }

  /** Go's loop and Python's pattern strip alike exactly when no question mark is
      followed, before Go's next terminator, by whitespace only Python knows. */
  lemma {:induction false} QueryAgreesIff(w: string, s: string)
    requires Plain(w)
    ensures QuerySub(Go, w, s) == QuerySub(Python, w, s) <==> !WideInRun(s)
    decreases |s|
  {
    if s == "" {
    } else if s[0] == '?' {
      RunsNest(s[1..]);
      var n := Run(Query, Go, s[1..]);
      if Run(Query, Python, s[1..]) < n {
        RunsPart(w, s);
      } else {
        SkipRun(s, n);
        QueryAgreesIff(w, s[1..][n..]);
        SameFront(w, s, n);
      }
    } else {
      SkipOther(s);
      QueryAgreesIff(w, s[1..]);
      var x, y := QuerySub(Go, w, s[1..]), QuerySub(Python, w, s[1..]);
      if x != y { AppendDiffers([s[0]], x, y); }
    }
  }

  lemma SameFront(w: string, s: string, n: nat)
    requires s != "" && s[0] == '?' && n == Run(Query, Go, s[1..]) == Run(Query, Python, s[1..])
    ensures var x, y := QuerySub(Go, w, s[1..][n..]), QuerySub(Python, w, s[1..][n..]);
      QuerySub(Go, w, s) == QuerySub(Python, w, s) <==> x == y
  {
    var x, y := QuerySub(Go, w, s[1..][n..]), QuerySub(Python, w, s[1..][n..]);
    var front := if n > 0 then ['?'] + w else ['?'];
    assert QuerySub(Go, w, s) == front + x && QuerySub(Python, w, s) == front + y;
    if x != y { AppendDiffers(front, x, y); }
  }

  // ── reasons ───────────────────────────────────────────────────────────

  function QueryWord(): string {
    "[query-stripped]"
  }

  function UserWord(): string {
    "[userinfo-stripped]"
  }

  predicate WordChar(c: char) {
    'a' <= c <= 'z' || c == '-' || c == '[' || c == ']'
  }

  lemma PlainChars(w: string)
    requires w != "" && forall i | 0 <= i < |w| :: WordChar(w[i])
    ensures Plain(w)
  {}

  lemma WordsArePlain()
    ensures Plain(QueryWord()) && Plain(UserWord())
  {
    PlainChars(QueryWord());
    PlainChars(UserWord());
  }

  /** The substitutions of text.py `scrub`, the environment's secrets aside. */
  function PyScrub(s: string): string {
    var out := Substituted(Query, Python, QueryWord(), s, 0);
    Substituted(Userinfo, Python, UserWord(), out, 0)
  }

  method GoScrub(value: string) returns (out: string)
    ensures out == Scrubbed(Go, QueryWord(), UserWord(), value)
  {
    var w, u := QueryWord(), UserWord();
    var stripped := StripQueryStrings(w, value);
    out := StripUserinfo(u, stripped);
    QueryBySuffix(Go, w, value, 0);
    UserBySuffix(Go, u, stripped, 0);
    assert value[0..] == value && stripped[0..] == stripped && stripped[..0] == "";
  }

  lemma PyScrubbed(s: string)
    ensures PyScrub(s) == Scrubbed(Python, QueryWord(), UserWord(), s)
  {
    var w, u := QueryWord(), UserWord();
    var stripped := QuerySub(Python, w, s);
    QueryBySuffix(Python, w, s, 0);
    assert s[0..] == s && stripped[0..] == stripped && stripped[..0] == "";
    UserBySuffix(Python, u, stripped, 0);
  }

  /** All the whitespace there is, is the plain space. */
  ghost predicate Calm(lang: Lang, s: string) {
    forall i | 0 <= i < |s| && Space(lang, s[i]) :: s[i] == ' '
  }

  lemma CalmJoins(lang: Lang, a: string, b: string)
    ensures Calm(lang, a + b) <==> Calm(lang, a) && Calm(lang, b)
  {
    forall i | 0 <= i < |a| ensures (a + b)[i] == a[i] {}
    forall i | 0 <= i < |b| ensures (a + b)[|a| + i] == b[i] {}
  }

  lemma {:induction false} CalmRuns(rule: Rule, s: string)
    requires Calm(Python, s)
    ensures Run(rule, Go, s) == Run(rule, Python, s)
  {
    if s != "" && !Stop(rule, Go, s[0]) {
      CalmRuns(rule, s[1..]);
    }
  }

  lemma CalmWord(lang: Lang, w: string)
    requires Plain(w)
    ensures Calm(lang, w)
  {}

  /** Neither pass writes whitespace of its own. */
  lemma {:induction false} QueryKeepsCalm(lang: Lang, w: string, s: string)
    requires Calm(lang, s) && Plain(w)
    ensures Calm(lang, QuerySub(lang, w, s))
    decreases |s|
  {
    if s != "" {
      var n := Run(Query, lang, s[1..]);
      if s[0] == '?' && n > 0 {
        QueryKeepsCalm(lang, w, s[1..][n..]);
        CalmWord(lang, w);
        CalmJoins(lang, ['?'] + w, QuerySub(lang, w, s[1..][n..]));
        CalmJoins(lang, ['?'], w);
      } else {
        QueryKeepsCalm(lang, w, s[1..]);
        CalmJoins(lang, [s[0]], QuerySub(lang, w, s[1..]));
      }
    }
  }

  lemma {:induction false} UserKeepsCalm(lang: Lang, u: string, k: nat, s: string)
    requires Calm(lang, s) && Plain(u)
    ensures Calm(lang, UserSub(lang, u, k, s))
    decreases |s|
  {
    if s != "" {
      if UserHere(lang, k, s) {
        var b := s[Run(Userinfo, lang, s) + 1..];
        UserKeepsCalm(lang, u, 0, b);
        CalmWord(lang, u);
        CalmJoins(lang, u + ['@'], UserSub(lang, u, 0, b));
        CalmJoins(lang, u, ['@']);
      } else {
        UserKeepsCalm(lang, u, Step(k, s[0]), s[1..]);
        CalmJoins(lang, [s[0]], UserSub(lang, u, Step(k, s[0]), s[1..]));
      }
    }
  }

  /** On calm text the passes of the two languages are one. */
  lemma {:induction false} CalmQuery(w: string, s: string)
    requires Calm(Python, s)
    ensures QuerySub(Go, w, s) == QuerySub(Python, w, s)
    decreases |s|
  {
    if s != "" {
      CalmRuns(Query, s[1..]);
      CalmQuery(w, s[1..][Run(Query, Go, s[1..])..]);
      CalmQuery(w, s[1..]);
    }
  }

  lemma {:induction false} CalmUser(u: string, k: nat, s: string)
    requires Calm(Python, s)
    ensures UserSub(Go, u, k, s) == UserSub(Python, u, k, s)
    decreases |s|
  {
    if s != "" {
      CalmRuns(Userinfo, s);
      if UserHere(Go, k, s) {
        CalmUser(u, 0, s[Run(Userinfo, Go, s) + 1..]);
      } else {
        CalmUser(u, Step(k, s[0]), s[1..]);
      }
    }
  }

  lemma CalmPrefix(lang: Lang, h: string, flat: string)
    requires h <= flat && IsFlat(lang, flat)
    ensures Calm(lang, h)
  {
    assert forall i | 0 <= i < |h| :: h[i] == flat[i];
  }

  lemma CalmMarker(lang: Lang)
    ensures Calm(lang, Marker())
  {
    CalmJoins(lang, [' '], Ellipsis());
  }

  /** Bounded text is calm: collapsing has left no other whitespace. */
  lemma OneLineIsCalm(lang: Lang, value: string, limit: nat)
    ensures Calm(lang, One(lang, value, limit))
  {
    var flat := Flat(lang, value);
    FlatIsFlat(lang, value);
    HeadsAgree(lang, value, limit);
    if limit < |flat| {
      HeadAtBoundary(lang, flat, limit);
      CalmPrefix(lang, Kept(flat, limit), flat);
      CalmMarker(lang);
      CalmJoins(lang, Kept(flat, limit), Marker());
    } else {
      CalmPrefix(lang, flat, flat);
    }
  }

  /** `envelope.reason` */
  function PyReason(value: string, limit: nat): string {
    PyScrub(PyOneLine(value, limit))
  }

  function GoReason(value: string, limit: nat): string {
    Scrubbed(Go, QueryWord(), UserWord(), GoOneLine(value, limit))
  }

  /** A line that may be shown: no whitespace but plain spaces, no query string
      and no login but the words, and nothing left for another scrub. */
  ghost predicate Presentable(lang: Lang, r: string) {
    && Calm(lang, r)
    && Redacted(Query, lang, QueryWord(), r)
    && Redacted(Userinfo, lang, UserWord(), r)
    && Scrubbed(lang, QueryWord(), UserWord(), r) == r
  }

  /** Whatever a failure said, the reason written of it may be shown. */
  lemma ReasonSettles(lang: Lang, value: string, limit: nat)
    ensures Presentable(lang, if lang.Go? then GoReason(value, limit) else PyReason(value, limit))
  {
    var w, u, line := QueryWord(), UserWord(), One(lang, value, limit);
    WordsArePlain();
    OneLineIsCalm(lang, value, limit);
    QueryKeepsCalm(lang, w, line);
    UserKeepsCalm(lang, u, 0, QuerySub(lang, w, line));
    ScrubTwice(lang, w, u, line);
    ScrubRedacts(lang, w, u, line);
    PyScrubbed(line);
  }

  /** `reasonText`, at any limit */
  method ReasonText(value: string, limit: nat) returns (out: string)
    ensures out == GoReason(value, limit) && Presentable(Go, out)
  {
    var line := GoOneLine(value, limit);
    out := GoScrub(line);
    ReasonSettles(Go, value, limit);
  }

  /** Bounding first makes the two languages' reasons one function: they agree on
      every text free of the four separators, though their query passes do not. */
  lemma ReasonsAgree(value: string, limit: nat)
    requires NoSeparators(value)
    ensures GoReason(value, limit) == PyReason(value, limit)
  {
    var line := GoOneLine(value, limit);
    OneLineAgrees(value, limit);
    OneLineIsCalm(Python, value, limit);
    WordsArePlain();
    CalmQuery(QueryWord(), line);
    QueryKeepsCalm(Python, QueryWord(), line);
    CalmUser(UserWord(), 0, QuerySub(Go, QueryWord(), line));
    PyScrubbed(line);
  }

  /** Collapsing does not lengthen. */
  lemma {:induction false} FlatShrinks(lang: Lang, s: string)
    ensures |Flat(lang, s)| <= |s|
    decreases |s|
  {
    if s != "" {
      var n := WordEnd(lang, s);
      if n == 0 {
        FlatShrinks(lang, s[1..]);
      } else if n == |s| {
        FlatLast(lang, s);
      } else {
        FlatShrinks(lang, s[n + 1..]);
        assert s[n..][1..] == s[n + 1..];
        assert Fields(lang, s)[1..] == Fields(lang, s[n + 1..]);
      }
    }
  }

  lemma {:induction false} UserFree(lang: Lang, u: string, k: nat, s: string)
    requires '@' !in s
    ensures UserSub(lang, u, k, s) == s
    decreases |s|
  {
    if s != "" {
      UserFree(lang, u, Step(k, s[0]), s[1..]);
    }
  }
}
