/** Word by word, when the two languages write one reason of a text that is not
    cut: exactly when every separator only Python splits at ends a word of Go's
    whose query run takes it. */
module ReasonWords {
  import opened OneLine
  import opened Scrub
  import opened ScrubTheory
  import opened Reasons

  function Clean(lang: Lang, s: string): string {
    Scrubbed(lang, QueryWord(), UserWord(), s)
  }

  // ── scrubbing goes word by word ───────────────────────────────────────

  /** A stop parts the query pass. */
  lemma {:induction false} QueryBreaks(lang: Lang, w: string, a: string, tail: string)
    requires tail != "" && Stop(Query, lang, tail[0])
    ensures QuerySub(lang, w, a + tail) == QuerySub(lang, w, a) + QuerySub(lang, w, tail)
    decreases |a|
  {
    if a == "" {
      assert a + tail == tail;
    } else {
      var c, rest := a[0], a[1..];
      var n := Run(Query, lang, rest);
      assert a + tail == [c] + (rest + tail) && a == [c] + rest;
      if c == '?' && 0 < n < |rest| {
        QueryWithin(lang, w, rest, tail);
        QueryBreaks(lang, w, rest[n..], tail);
        Piece(['?'] + w, QuerySub(lang, w, rest[n..]), QuerySub(lang, w, tail));
      } else if c == '?' && n > 0 {
        QueryMatch(lang, w, rest, tail);
        QueryLast(lang, w, rest);
      } else {
        QueryOver(lang, w, c, rest + tail);
        QueryOver(lang, w, c, rest);
        QueryBreaks(lang, w, rest, tail);
        Piece([c], QuerySub(lang, w, rest), QuerySub(lang, w, tail));
      }
    }
  }

  lemma QueryLast(lang: Lang, w: string, x: string)
    requires x != "" && Free(Query, lang, x)
    ensures QuerySub(lang, w, ['?'] + x) == ['?'] + w
  {
    QueryMatch(lang, w, x, "");
    assert x + "" == x;
  }

  /** Text whose first run is not ended by an at sign. */
  predicate Barred(lang: Lang, s: string) {
    var n := Run(Userinfo, lang, s);
    n < |s| ==> s[n] != '@'
  }

  lemma {:induction false} RunOn(lang: Lang, a: string, b: string)
    requires Run(Userinfo, lang, a) == |a|
    ensures Run(Userinfo, lang, a + b) == |a| + Run(Userinfo, lang, b)
  {
    if a == "" {
      assert a + b == b;
    } else {
      assert (a + b)[1..] == a[1..] + b;
      RunOn(lang, a[1..], b);
    }
  }

  lemma StillNotHere(lang: Lang, k: nat, a: string, tail: string)
    requires Barred(lang, tail) && a != "" && !UserHere(lang, k, a)
    ensures !UserHere(lang, k, a + tail)
  {
    var n := Run(Userinfo, lang, a);
    if n < |a| {
      RunWithin(Userinfo, lang, a, tail);
      assert (a + tail)[n] == a[n];
    } else {
      RunOn(lang, a, tail);
      var m := Run(Userinfo, lang, tail);
      assert m < |tail| ==> (a + tail)[n + m] == tail[m];
    }
  }

  /** So is the userinfo pass by what bars a match from reaching over. */
  lemma {:induction false} UserBreaks(lang: Lang, u: string, k: nat, a: string, tail: string)
    returns (j: nat)
    requires Barred(lang, tail)
    ensures UserSub(lang, u, k, a + tail) == UserSub(lang, u, k, a) + UserSub(lang, u, j, tail)
    decreases |a|
  {
    if a == "" {
      assert a + tail == tail;
      j := k;
    } else if UserHere(lang, k, a) {
      var rest := a[Run(Userinfo, lang, a) + 1..];
      j := UserBreaks(lang, u, 0, rest, tail);
      UserWithin(lang, u, a, tail);
      Piece(u + ['@'], UserSub(lang, u, 0, rest), UserSub(lang, u, j, tail));
    } else {
      StillNotHere(lang, k, a, tail);
      assert a + tail == [a[0]] + (a[1..] + tail);
      UserOver(lang, u, k, a[0], a[1..] + tail);
      j := UserBreaks(lang, u, Step(k, a[0]), a[1..], tail);
      Piece([a[0]], UserSub(lang, u, Step(k, a[0]), a[1..]), UserSub(lang, u, j, tail));
    }
  }

  lemma CleanTwo(lang: Lang, a: string, b: string)
    ensures Clean(lang, a + (" " + b)) == Clean(lang, a) + (" " + Clean(lang, b))
  {
    var w, u, tail := QueryWord(), UserWord(), " " + b;
    QueryBreaks(lang, w, a, tail);
    QueryOver(lang, w, ' ', b);
    assert tail == [' '] + b;
    var rest := [' '] + QuerySub(lang, w, b);
    var j := UserBreaks(lang, u, 0, QuerySub(lang, w, a), rest);
    UserOver(lang, u, j, ' ', QuerySub(lang, w, b));
  }

  function CleanAll(lang: Lang, words: seq<string>): (r: seq<string>)
    ensures |r| == |words| && forall i | 0 <= i < |words| :: r[i] == Clean(lang, words[i])
  {
    if words == [] then [] else [Clean(lang, words[0])] + CleanAll(lang, words[1..])
  }

  lemma {:induction false} CleanWords(lang: Lang, words: seq<string>)
    ensures Clean(lang, Join(words)) == Join(CleanAll(lang, words))
  {
    if |words| > 1 {
      CleanWords(lang, words[1..]);
      CleanTwo(lang, words[0], Join(words[1..]));
      JoinHead(words[0], words[1..]);
      JoinHead(Clean(lang, words[0]), CleanAll(lang, words[1..]));
      assert words == [words[0]] + words[1..];
    }
  }

  lemma JoinHead(w: string, words: seq<string>)
    requires words != []
    ensures Join([w] + words) == w + (" " + Join(words))
  {
    assert ([w] + words)[1..] == words;
  }

  // ── what scrubbing may write ──────────────────────────────────────────

  lemma {:induction false} QueryChars(lang: Lang, w: string, s: string, c: char)
    requires c in QuerySub(lang, w, s)
    ensures c in s || c in w
    decreases |s|
  {
    if s != "" {
      var n := Run(Query, lang, s[1..]);
      if s[0] == '?' && n > 0 {
        if c in QuerySub(lang, w, s[1..][n..]) { QueryChars(lang, w, s[1..][n..], c); }
      } else if c != s[0] {
        QueryChars(lang, w, s[1..], c);
      }
    }
  }

  lemma {:induction false} UserChars(lang: Lang, u: string, k: nat, s: string, c: char)
    requires c in UserSub(lang, u, k, s)
    ensures c in s || c in u
    decreases |s|
  {
    if s != "" {
      var n := Run(Userinfo, lang, s);
      if UserHere(lang, k, s) {
        if c in UserSub(lang, u, 0, s[n + 1..]) { UserChars(lang, u, 0, s[n + 1..], c); }
      } else if c != s[0] {
        UserChars(lang, u, Step(k, s[0]), s[1..], c);
      }
    }
  }

  /** A word as far as plain spaces go. */
  predicate Solid(w: string) {
    w != "" && ' ' !in w
  }

  lemma CleanSolid(lang: Lang, s: string)
    requires Solid(s)
    ensures Solid(Clean(lang, s))
  {
    var w, u := QueryWord(), UserWord();
    WordsArePlain();
    assert ' ' !in w && ' ' !in u;
    if ' ' in QuerySub(lang, w, s) { QueryChars(lang, w, s, ' '); }
    if ' ' in Clean(lang, s) { UserChars(lang, u, 0, QuerySub(lang, w, s), ' '); }
  }

  lemma {:induction false} JoinApart(a: seq<string>, b: seq<string>)
    requires forall w | w in a :: Solid(w)
    requires forall w | w in b :: Solid(w)
    requires Join(a) == Join(b)
    ensures a == b
  {
    JoinNothing(a);
    JoinNothing(b);
    if a != [] && b != [] {
      assert a[0] in a && b[0] in b;
      FirstSpace(a);
      FirstSpace(b);
      var p, q := Join(a[1..]), Join(b[1..]);
      SpaceFirst(a[0], p, b[0]);
      SpaceFirst(b[0], q, a[0]);
      if |a| > 1 && |b| > 1 {
        SpacesFirst(a[0], p, b[0], q);
        JoinApart(a[1..], b[1..]);
      }
      assert a == [a[0]] + a[1..] && b == [b[0]] + b[1..];
    }
  }

  lemma JoinNothing(words: seq<string>)
    requires forall w | w in words :: Solid(w)
    ensures Join(words) == "" <==> words == []
  {
    if words != [] {
      assert words[0] in words;
    }
  }

  lemma SpaceFirst(x: string, p: string, y: string)
    requires ' ' !in y
    ensures x + (" " + p) != y
  {
    assert (x + (" " + p))[|x|] == ' ';
  }

  lemma SpacesFirst(x: string, p: string, y: string, q: string)
    requires ' ' !in x && ' ' !in y && x + (" " + p) == y + (" " + q)
    ensures x == y && p == q
  {
    var s, t := x + (" " + p), y + (" " + q);
    assert s[|x|] == ' ' && t[|y|] == ' ';
    assert forall i | 0 <= i < |x| :: s[i] == x[i];
    assert forall i | 0 <= i < |y| :: t[i] == y[i];
    assert s[..|x|] == x && t[..|y|] == y && s[|x| + 1..] == p && t[|y| + 1..] == q;
  }

  /** The first word is what stands before the first space. */
  lemma FirstSpace(words: seq<string>)
    requires words != [] && Solid(words[0])
    ensures |words| == 1 ==> Join(words) == words[0]
    ensures |words| > 1 ==> Join(words) == words[0] + (" " + Join(words[1..]))
  {
    if |words| > 1 {
      JoinHead(words[0], words[1..]);
      assert words == [words[0]] + words[1..];
    }
  }

  // ── Python's words are parts of Go's ──────────────────────────────────

  function Split(words: seq<string>): seq<string> {
    if words == [] then [] else Fields(Python, words[0]) + Split(words[1..])
  }

  lemma {:induction false} FieldsApart(word: string, rest: string)
    requires rest == "" || Space(Python, rest[0])
    ensures Fields(Python, word + rest) == Fields(Python, word) + Fields(Python, rest)
    decreases |word|
  {
    var s := word + rest;
    if word == "" {
      assert s == rest;
    } else if Space(Python, word[0]) {
      assert s[1..] == word[1..] + rest;
      FieldsApart(word[1..], rest);
    } else {
      FieldsApart(word[WordEnd(Python, word)..], rest);
      FirstField(word, rest);
    }
  }

  lemma FirstField(word: string, rest: string)
    requires word != "" && !Space(Python, word[0]) && (rest == "" || Space(Python, rest[0]))
    ensures var m := WordEnd(Python, word);
      Fields(Python, word + rest) == [word[..m]] + Fields(Python, word[m..] + rest)
  {
    var s, m := word + rest, WordEnd(Python, word);
    WordEndApart(word, rest);
    assert s[..m] == word[..m] && s[m..] == word[m..] + rest;
  }

  lemma {:induction false} WordEndApart(word: string, rest: string)
    requires rest == "" || Space(Python, rest[0])
    ensures WordEnd(Python, word + rest) == WordEnd(Python, word)
  {
    if word == "" {
      assert word + rest == rest;
    } else {
      assert (word + rest)[1..] == word[1..] + rest;
      WordEndApart(word[1..], rest);
    }
  }

  lemma {:induction false} FieldsSplit(s: string)
    ensures Fields(Python, s) == Split(Fields(Go, s))
    decreases |s|
  {
    if s != "" {
      if Space(Go, s[0]) {
        FieldsSplit(s[1..]);
      } else {
        var n := WordEnd(Go, s);
        FieldsSplit(s[n..]);
        FieldsApart(s[..n], s[n..]);
        assert s[..n] + s[n..] == s;
        assert ([s[..n]] + Fields(Go, s[n..]))[1..] == Fields(Go, s[n..]);
      }
    }
  }

  lemma {:induction false} SplitShrinks(words: seq<string>)
    ensures |Join(Split(words))| <= |Join(words)|
    ensures Split(words) != [] ==> words != []
  {
    if words != [] {
      SplitShrinks(words[1..]);
      FlatShrinks(Python, words[0]);
      JoinBoth(Fields(Python, words[0]), Split(words[1..]));
      if |words| > 1 {
        JoinHead(words[0], words[1..]);
        assert words == [words[0]] + words[1..];
      }
    }
  }

  lemma {:induction false} JoinBoth(a: seq<string>, b: seq<string>)
    ensures |Join(a + b)| <= |Join(a)| + |Join(b)| + (if a == [] || b == [] then 0 else 1)
  {
    if a == [] {
      assert a + b == b;
    } else if b == [] {
      assert a + b == a;
    } else {
      assert a + b == [a[0]] + (a[1..] + b) && a == [a[0]] + a[1..];
      JoinHead(a[0], a[1..] + b);
      JoinBoth(a[1..], b);
      if |a| > 1 { JoinHead(a[0], a[1..]); }
    }
  }

  // ── one word ──────────────────────────────────────────────────────────

  /** A query run that has begun and is still open where this text ends. */
  ghost predicate Swallows(x: string) {
    exists i :: OpenFrom(Go, x, i) && i + 1 < |x|
  }

  /** Whatever separators a word holds end it, and its query run takes them. */
  ghost predicate Swallowed(word: string) {
    var n := WordEnd(Python, word);
    && 0 < n
    && (forall k | n <= k < |word| :: Separator(word[k]))
    && (n == |word| || Swallows(word[..n]))
  }

  /** A word of Go's, separators and all. */
  ghost predicate Word(word: string) {
    word != "" && forall i | 0 <= i < |word| :: !Space(Go, word[i])
  }

  ghost predicate Separators(t: string) {
    forall i | 0 <= i < |t| :: Separator(t[i])
  }

  lemma {:induction false} TailTaken(w: string, x: string, t: string, i: int)
    requires OpenFrom(Go, x, i) && i + 1 < |x| && Separators(t)
    ensures QuerySub(Go, w, x + t) == QuerySub(Go, w, x)
    decreases i
  {
    var a, run := x[..i], x[i + 1..];
    if Open(Go, a) {
      var j :| OpenFrom(Go, a, j);
      OpenOn(x, i, j);
      TailTaken(w, x, t, j);
    } else {
      assert x == a + (['?'] + run) && x + t == a + (['?'] + (run + t));
      RunTaken(w, a, run);
      RunFree(run, t, run + t);
      RunTaken(w, a, run + t);
    }
  }

  lemma RunTaken(w: string, a: string, run: string)
    requires !Open(Go, a) && run != "" && Free(Query, Go, run)
    ensures QuerySub(Go, w, a + (['?'] + run)) == QuerySub(Go, w, a) + (['?'] + w)
  {
    ClosedApart(Go, w, a, ['?'] + run);
    QueryLast(Go, w, run);
  }

  lemma RunFree(run: string, t: string, both: string)
    requires Free(Query, Go, run) && Separators(t) && both == run + t
    ensures Free(Query, Go, both)
  {
    forall m | 0 <= m < |both| ensures !Stop(Query, Go, both[m]) {
      assert m >= |run| ==> both[m] == t[m - |run|];
    }
  }

  /** A run open before the mark goes on over it. */
  lemma OpenOn(x: string, i: int, j: int)
    requires OpenFrom(Go, x, i) && OpenFrom(Go, x[..i], j)
    ensures j < i && OpenFrom(Go, x, j) && j + 1 < |x|
  {
    var run := x[j + 1..];
    assert run + "" == run;
    forall m | 0 <= m < |run| ensures !Stop(Query, Go, run[m]) {
      assert j + 1 + m < i ==> run[m] == x[..i][j + 1..][m];
      assert j + 1 + m > i ==> run[m] == x[i + 1..][m + j - i];
    }
    RunOf(Query, Go, run, "");
  }

  /** Otherwise the separators, or the word for them, are seen. */
  lemma TailSeen(x: string, t: string)
    requires x != "" && t != "" && Separators(t) && !Swallows(x)
    ensures Clean(Go, x + t) != Clean(Go, x)
  {
    var w, u := QueryWord(), UserWord();
    var seen := if Open(Go, x) then w else t;
    WordsArePlain();
    FreeAlso(Go, w);
    if Open(Go, x) {
      MarkLast(w, x, t);
    } else {
      ClosedApart(Go, w, x, t);
      QueryFree(Go, w, t, "");
      assert t + "" == t;
    }
    assert '@' !in seen;
    var j := UserBreaks(Go, u, 0, QuerySub(Go, w, x), seen);
    UserFree(Go, u, j, seen);
  }

  lemma MarkLast(w: string, x: string, t: string)
    requires Open(Go, x) && !Swallows(x) && t != "" && Separators(t)
    ensures QuerySub(Go, w, x + t) == QuerySub(Go, w, x) + w
  {
    var i :| OpenFrom(Go, x, i);
    var a := x[..i];
    if Open(Go, a) {
      var j :| OpenFrom(Go, a, j);
      OpenOn(x, i, j);
    }
    assert x == a + ['?'] && x + t == a + (['?'] + t);
    ClosedApart(Go, w, a, ['?']);
    ClosedApart(Go, w, a, ['?'] + t);
    QueryLast(Go, w, t);
    Piece(QuerySub(Go, w, a), ['?'], w);
  }

  lemma CalmClean(lang: Lang, s: string)
    requires Calm(Python, s)
    ensures Clean(Go, s) == Clean(Python, s) && Calm(Python, Clean(Python, s))
  {
    WordsArePlain();
    CalmQuery(QueryWord(), s);
    QueryKeepsCalm(Python, QueryWord(), s);
    CalmUser(UserWord(), 0, QuerySub(Go, QueryWord(), s));
    UserKeepsCalm(Python, UserWord(), 0, QuerySub(Python, QueryWord(), s));
  }

  lemma {:induction false} NoFields(s: string)
    ensures Fields(Python, s) == [] <==> forall i | 0 <= i < |s| :: Space(Python, s[i])
    decreases |s|
  {
    if s != "" && Space(Python, s[0]) {
      NoFields(s[1..]);
    }
  }

  /** A separator at the front of a word stays there. */
  lemma FrontSeen(word: string)
    requires word != "" && Separator(word[0])
    ensures !Calm(Python, Clean(Go, word))
  {
    var q := QuerySub(Go, QueryWord(), word);
    assert q[0] == word[0] && Clean(Go, word)[0] == word[0];
  }

  lemma WordAlone(word: string)
    requires Word(word)
    ensures var parts := Fields(Python, word);
      && (Swallowed(word) ==> |parts| == 1 && Clean(Go, word) == Clean(Python, parts[0]))
      && (|parts| == 1 && !Swallowed(word) ==> Clean(Go, word) != Clean(Python, parts[0]))
      && (parts == [] ==> !Calm(Python, Clean(Go, word)))
  {
    var n, parts := WordEnd(Python, word), Fields(Python, word);
    if n == 0 {
      FrontSeen(word);
      if |parts| == 1 {
        FieldsAreWords(Python, word);
        assert parts[0] in parts;
        CalmClean(Python, parts[0]);
      }
    } else {
      var x, t := word[..n], word[n..];
      assert word == x + t;
      NoFields(t);
      CalmClean(Python, x);
      if |parts| == 1 {
        forall i | 0 <= i < |t| ensures Separator(t[i]) { assert t[i] == word[n + i]; }
        TailFate(x, t);
      } else {
        var i :| 0 <= i < |t| && !Space(Python, t[i]);
        assert t[i] == word[n + i];
      }
    }
  }

  lemma TailFate(x: string, t: string)
    requires x != "" && Separators(t)
    ensures Clean(Go, x + t) == Clean(Go, x) <==> t == "" || Swallows(x)
  {
    if t == "" {
      assert x + t == x;
    } else if Swallows(x) {
      var i :| OpenFrom(Go, x, i) && i + 1 < |x|;
      TailTaken(QueryWord(), x, t, i);
    } else {
      TailSeen(x, t);
    }
  }

  // ── all words ─────────────────────────────────────────────────────────

  lemma {:induction false} EveryWordShows(words: seq<string>)
    requires forall w | w in words :: Word(w) && Calm(Python, Clean(Go, w))
    ensures |Split(words)| >= |words|
  {
    if words != [] {
      assert words[0] in words;
      WordAlone(words[0]);
      EveryWordShows(words[1..]);
    }
  }

  lemma {:induction false} WordsSwallowed(words: seq<string>)
    requires forall w | w in words :: Word(w) && Swallowed(w)
    ensures CleanAll(Go, words) == CleanAll(Python, Split(words))
  {
    if words != [] {
      assert words[0] in words;
      WordAlone(words[0]);
      WordsSwallowed(words[1..]);
      assert Split(words) == [Fields(Python, words[0])[0]] + Split(words[1..]);
    }
  }

  lemma {:induction false} WordsMatch(words: seq<string>)
    requires forall w | w in words :: Word(w) && Calm(Python, Clean(Go, w))
    requires CleanAll(Go, words) == CleanAll(Python, Split(words))
    ensures forall w | w in words :: Swallowed(w)
  {
    if words != [] {
      var parts, rest := Fields(Python, words[0]), Split(words[1..]);
      assert words[0] in words;
      WordAlone(words[0]);
      EveryWordShows(words[1..]);
      assert |parts| == 1;
      var all := Split(words);
      assert all == parts + rest && all[0] == parts[0] && all[1..] == rest;
      assert CleanAll(Go, words)[1..] == CleanAll(Python, all)[1..];
      WordsMatch(words[1..]);
    }
  }

  lemma {:induction false} SplitCalm(words: seq<string>)
    ensures Words(Python, Split(words))
  {
    if words != [] {
      FieldsAreWords(Python, words[0]);
      SplitCalm(words[1..]);
    }
  }

  lemma AllWords(words: seq<string>)
    requires Words(Go, words)
    ensures CleanAll(Go, words) == CleanAll(Python, Split(words)) <==>
      forall w | w in words :: Swallowed(w)
  {
    if forall w | w in words :: Swallowed(w) {
      WordsSwallowed(words);
    }
    if CleanAll(Go, words) == CleanAll(Python, Split(words)) {
      SplitCalm(words);
      var all := Split(words);
      forall w | w in words ensures Calm(Python, Clean(Go, w)) {
        var i :| 0 <= i < |words| && words[i] == w;
        assert CleanAll(Go, words)[i] == CleanAll(Python, all)[i] == Clean(Python, all[i]);
        assert all[i] in all;
        CalmClean(Python, all[i]);
      }
      WordsMatch(words);
    }
  }

  lemma CleanAllSolid(lang: Lang, words: seq<string>)
    requires Words(lang, words)
    ensures forall w | w in CleanAll(lang, words) :: Solid(w)
  {
    forall w | w in CleanAll(lang, words) ensures Solid(w) {
      var i :| 0 <= i < |words| && CleanAll(lang, words)[i] == w;
      assert words[i] in words;
      CleanSolid(lang, words[i]);
    }
  }

  /** Of a text that is not cut the two languages write one reason exactly when, in
      every word as Go reads it, the separators only Python splits at stand last
      and are taken by a query run. */
  lemma ReasonsAgreeIff(value: string, limit: nat)
    requires |Flat(Go, value)| <= limit
    ensures GoReason(value, limit) == PyReason(value, limit) <==>
      forall w | w in Fields(Go, value) :: Swallowed(w)
  {
    var words := Fields(Go, value);
    var parts := Split(words);
    FieldsSplit(value);
    SplitShrinks(words);
    PyScrubbed(Join(parts));
    CleanWords(Go, words);
    CleanWords(Python, parts);
    FieldsAreWords(Go, value);
    FieldsAreWords(Python, value);
    CleanAllSolid(Go, words);
    CleanAllSolid(Python, parts);
    if Join(CleanAll(Go, words)) == Join(CleanAll(Python, parts)) {
      JoinApart(CleanAll(Go, words), CleanAll(Python, parts));
    }
    AllWords(words);
  }
}
