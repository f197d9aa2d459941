/** Bounding failure text on one line: text.py `one_line`, and its port
    python.go `oneLine`. */
module OneLine {

  datatype Lang = Go | Python

  /** unicode.IsSpace, and str.isspace: the latter adds four separators. */
  predicate Space(lang: Lang, c: char) {
    var n := c as int;
    9 <= n <= 13 || n == 0x20 || n == 0x85 || n == 0xA0 || n == 0x1680 || 0x2000 <= n <= 0x200A
    || n == 0x2028 || n == 0x2029 || n == 0x202F || n == 0x205F || n == 0x3000
    || (lang.Python? && Separator(c))
  }

  predicate Separator(c: char) {
    0x1C <= c as int <= 0x1F
  }

  // ── collapsing whitespace ─────────────────────────────────────────────

  function WordEnd(lang: Lang, s: string): (n: nat)
    ensures n <= |s|
    ensures forall i | 0 <= i < n :: !Space(lang, s[i])
    ensures n < |s| ==> Space(lang, s[n])
  {
    if s == "" || Space(lang, s[0]) then 0 else 1 + WordEnd(lang, s[1..])
  }

  /** strings.Fields and str.split. */
  function Fields(lang: Lang, s: string): seq<string>
    decreases |s|
  {
    if s == "" then []
    else if Space(lang, s[0]) then Fields(lang, s[1..])
    else
      var n := WordEnd(lang, s);
      [s[..n]] + Fields(lang, s[n..])
  }

  function Join(words: seq<string>): string {
    if words == [] then ""
    else if |words| == 1 then words[0]
    else words[0] + " " + Join(words[1..])
  }

  function Flat(lang: Lang, s: string): string {
    Join(Fields(lang, s))
  }

  // ── bounding ──────────────────────────────────────────────────────────

  /** strings.LastIndexByte: where the last space is, or -1. */
  function LastSpace(s: string): (cut: int)
    ensures -1 <= cut < |s|
    ensures cut >= 0 ==> s[cut] == ' '
    ensures forall i | cut < i < |s| :: s[i] != ' '
  {
    if s == "" then -1
    else if s[|s| - 1] == ' ' then |s| - 1
    else LastSpace(s[..|s| - 1])
  }

  predicate Dangling(c: char) {
    c == ' ' || c == ',' || c == ';' || c == ':' || c == '.' || c == '(' || c == '[' || c == '{'
    || c == '-'
  }

  function TrimRight(s: string): (t: string)
    ensures t <= s
    ensures t != "" ==> !Dangling(t[|t| - 1])
    ensures forall i | |t| <= i < |s| :: Dangling(s[i])
  {
    if s != "" && Dangling(s[|s| - 1]) then TrimRight(s[..|s| - 1]) else s
  }

  function Ellipsis(): (m: string)
    ensures |m| == 13
  {
    "\U{2026} (truncated)"
  }

  /** " … (truncated)" */
  function Marker(): (m: string)
    ensures |m| == 14
  {
    [' '] + Ellipsis()
  }

  /** Go's cut: the window up to its last space, or all of it. */
  function GoHead(flat: string, limit: nat): string
    requires limit < |flat|
  {
    var window := flat[..limit];
    var cut := LastSpace(window);
    var head := if cut >= 0 then window[..cut] else window;
    if head == "" then window else head
  }

  function GoOneLine(value: string, limit: nat): string {
    var flat := Flat(Go, value);
    if |flat| <= limit then flat else TrimRight(GoHead(flat, limit)) + Marker()
  }

  /** str.rpartition(" "): the text before the last space, "" when there is none. */
  function RPartition(s: string): (string, string, string) {
    if s == "" then ("", "", "")
    else if s[|s| - 1] == ' ' then (s[..|s| - 1], " ", "")
    else
      var (before, sep, after) := RPartition(s[..|s| - 1]);
      (before, sep, after + [s[|s| - 1]])
  }

  function PyOneLine(value: string, limit: nat): string {
    var flat := Flat(Python, value);
    if |flat| <= limit then flat
    else
      var before := RPartition(flat[..limit]).0;
      TrimRight(if before == "" then flat[..limit] else before) + Marker()
  }

  // ── flat text ─────────────────────────────────────────────────────────

  /** Words with one plain space between them, and nothing else that is space. */
  ghost predicate IsFlat(lang: Lang, s: string) {
    forall i | 0 <= i < |s| && Space(lang, s[i]) ::
      s[i] == ' ' && 0 < i < |s| - 1 && !Space(lang, s[i - 1]) && !Space(lang, s[i + 1])
  }

  ghost predicate Words(lang: Lang, words: seq<string>) {
    forall w | w in words :: w != "" && forall i | 0 <= i < |w| :: !Space(lang, w[i])
  }

  lemma {:induction false} FieldsAreWords(lang: Lang, s: string)
    ensures Words(lang, Fields(lang, s))
    decreases |s|
  {
    if s != "" {
      if Space(lang, s[0]) {
        FieldsAreWords(lang, s[1..]);
      } else {
        FieldsAreWords(lang, s[WordEnd(lang, s)..]);
      }
    }
  }

  lemma {:induction false} JoinIsFlat(lang: Lang, words: seq<string>)
    requires Words(lang, words)
    ensures IsFlat(lang, Join(words))
    ensures words != [] ==> Join(words) != "" && !Space(lang, Join(words)[0])
  {
    if |words| > 1 {
      assert words[0] in words;
      JoinIsFlat(lang, words[1..]);
      JoinTwo(lang, words[0], Join(words[1..]));
    } else if |words| == 1 {
      assert words[0] in words;
    }
  }

  lemma JoinTwo(lang: Lang, w: string, rest: string)
    requires w != "" && forall i | 0 <= i < |w| :: !Space(lang, w[i])
    requires rest != "" && IsFlat(lang, rest) && !Space(lang, rest[0])
    ensures IsFlat(lang, w + " " + rest)
  {
    var s := w + " " + rest;
    forall i | 0 <= i < |s| && Space(lang, s[i])
      ensures s[i] == ' ' && 0 < i < |s| - 1 && !Space(lang, s[i - 1]) && !Space(lang, s[i + 1])
    {
      if i > |w| {
        assert s[i] == rest[i - |w| - 1] && s[i - 1] == (if i == |w| + 1 then ' ' else rest[i - |w| - 2]);
      } else {
        assert s[|w| + 1] == rest[0];
      }
    }
  }

  lemma FlatIsFlat(lang: Lang, s: string)
    ensures IsFlat(lang, Flat(lang, s))
  {
    FieldsAreWords(lang, s);
    JoinIsFlat(lang, Fields(lang, s));
  }

  /** Flat text collapses to itself. */
  lemma {:induction false} FlatStays(lang: Lang, s: string)
    requires IsFlat(lang, s)
    ensures Flat(lang, s) == s
    decreases |s|
  {
    if s != "" {
      assert !Space(lang, s[0]);
      var n := WordEnd(lang, s);
      if n == |s| {
        FlatLast(lang, s);
      } else {
        TailIsFlat(lang, s, n);
        FlatStays(lang, s[n + 1..]);
        FlatOne(lang, s, n);
        SplitAt(s, n);
      }
    }
  }

  lemma SplitAt(s: string, n: nat)
    requires n < |s| && s[n] == ' '
    ensures s == s[..n] + " " + s[n + 1..]
  {}

  lemma FlatLast(lang: Lang, s: string)
    requires s != "" && !Space(lang, s[0]) && WordEnd(lang, s) == |s|
    ensures Flat(lang, s) == s
  {
    assert s[..|s|] == s && Fields(lang, s[|s|..]) == [];
  }

  /** The first word of several, and the rest collapsed. */
  lemma FlatOne(lang: Lang, s: string, n: nat)
    requires s != "" && !Space(lang, s[0]) && n == WordEnd(lang, s) && n + 1 < |s|
    requires !Space(lang, s[n + 1])
    ensures Flat(lang, s) == s[..n] + " " + Flat(lang, s[n + 1..])
  {
    var rest := s[n + 1..];
    assert s[n..][1..] == rest;
    assert Fields(lang, s[n..]) == Fields(lang, rest);
    assert Fields(lang, rest) != [];
    assert Fields(lang, s)[1..] == Fields(lang, rest);
  }

  lemma TailIsFlat(lang: Lang, s: string, n: nat)
    requires IsFlat(lang, s) && n < |s| && Space(lang, s[n])
    ensures n + 1 < |s| && IsFlat(lang, s[n + 1..]) && !Space(lang, s[n + 1]) && s[n] == ' '
  {
    var t := s[n + 1..];
    forall i | 0 <= i < |t| && Space(lang, t[i])
      ensures t[i] == ' ' && 0 < i < |t| - 1 && !Space(lang, t[i - 1]) && !Space(lang, t[i + 1])
    {
      assert s[n + 1 + i] == t[i];
      assert i > 0;
      assert s[n + i] == t[i - 1];
    }
  }

  // ── one function in two languages ─────────────────────────────────────

  /** What is kept of flat text over the limit, before the marker. */
  function Kept(flat: string, limit: nat): string
    requires limit < |flat|
  {
    TrimRight(GoHead(flat, limit))
  }

  function One(lang: Lang, value: string, limit: nat): string {
    if lang.Go? then GoOneLine(value, limit) else PyOneLine(value, limit)
  }

  lemma {:induction false} PartitionCuts(s: string)
    ensures RPartition(s).0 == if LastSpace(s) >= 0 then s[..LastSpace(s)] else ""
  {
    if s != "" && s[|s| - 1] != ' ' {
      PartitionCuts(s[..|s| - 1]);
    }
  }

  lemma HeadsAgree(lang: Lang, value: string, limit: nat)
    ensures var flat := Flat(lang, value);
      One(lang, value, limit) == if |flat| <= limit then flat else Kept(flat, limit) + Marker()
  {
    var flat := Flat(lang, value);
    if limit < |flat| {
      PartitionCuts(flat[..limit]);
    }
  }

  ghost predicate NoSeparators(s: string) {
    forall i | 0 <= i < |s| :: !Separator(s[i])
  }

  lemma {:induction false} FieldsAgree(s: string)
    requires NoSeparators(s)
    ensures Fields(Go, s) == Fields(Python, s)
    decreases |s|
  {
    if s != "" {
      if Space(Go, s[0]) {
        FieldsAgree(s[1..]);
      } else {
        WordEndsAgree(s);
        FieldsAgree(s[WordEnd(Go, s)..]);
      }
    }
  }

  lemma {:induction false} WordEndsAgree(s: string)
    requires NoSeparators(s)
    ensures WordEnd(Go, s) == WordEnd(Python, s)
  {
    if s != "" && !Space(Go, s[0]) {
      WordEndsAgree(s[1..]);
    }
  }

  lemma {:induction false} FlatKeeps(lang: Lang, s: string, i: nat)
    requires i < |s| && !Space(lang, s[i])
    ensures s[i] in Flat(lang, s)
    decreases |s|
  {
    if Space(lang, s[0]) {
      FlatKeeps(lang, s[1..], i - 1);
    } else {
      var n := WordEnd(lang, s);
      var words := Fields(lang, s[n..]);
      if i < n {
        assert s[..n][i] == s[i];
        FirstWord(s[..n], words, s[i]);
      } else {
        FlatKeeps(lang, s[n..], i - n);
        LaterWords(s[..n], words, s[i]);
      }
    }
  }

  lemma FirstWord(w: string, words: seq<string>, c: char)
    requires c in w
    ensures c in Join([w] + words)
  {}

  lemma LaterWords(w: string, words: seq<string>, c: char)
    requires c in Join(words)
    ensures c in Join([w] + words)
  {
    assert ([w] + words)[1..] == words;
  }

  /** The two languages collapse a text alike exactly when it holds none of the
      four separators that only Python takes for whitespace. */
  lemma FlatAgreesIff(s: string)
    ensures Flat(Go, s) == Flat(Python, s) <==> NoSeparators(s)
  {
    if NoSeparators(s) {
      FieldsAgree(s);
    } else {
      var i :| 0 <= i < |s| && Separator(s[i]);
      FlatKeeps(Go, s, i);
      FlatIsFlat(Python, s);
    }
  }

  lemma OneLineAgrees(s: string, limit: nat)
    requires NoSeparators(s)
    ensures GoOneLine(s, limit) == PyOneLine(s, limit)
  {
    FlatAgreesIff(s);
    HeadsAgree(Go, s, limit);
    HeadsAgree(Python, s, limit);
  }

  // ── what bounding gives ───────────────────────────────────────────────

  /** A place where flat text may be cut: before a space, or at the limit when
      no space comes before it. */
  ghost predicate Boundary(flat: string, limit: nat, k: nat) {
    k <= limit < |flat| && (flat[k] == ' ' || (k == limit && ' ' !in flat[..limit]))
  }

  lemma HeadAtBoundary(lang: Lang, flat: string, limit: nat)
    requires IsFlat(lang, flat) && limit < |flat|
    ensures GoHead(flat, limit) <= flat && Boundary(flat, limit, |GoHead(flat, limit)|)
    ensures limit > 0 ==> GoHead(flat, limit) != ""
  {
    var window := flat[..limit];
    var cut := LastSpace(window);
    if cut >= 0 {
      assert flat[cut] == ' ' && Space(lang, flat[cut]) && cut > 0;
      assert window[..cut] == flat[..cut];
    }
  }

  /** At most the limit and the marker; unless unchanged, flat text cut at a word
      boundary, trimmed and marked. */
  lemma BoundedShape(lang: Lang, value: string, limit: nat)
    ensures var flat, r := Flat(lang, value), One(lang, value, limit);
      && |r| <= limit + 14
      && (|flat| <= limit ==> r == flat)
      && (|flat| > limit ==>
            exists k: nat :: Boundary(flat, limit, k) && r == TrimRight(flat[..k]) + Marker())
  {
    var flat := Flat(lang, value);
    HeadsAgree(lang, value, limit);
    FlatIsFlat(lang, value);
    if |flat| > limit {
      HeadAtBoundary(lang, flat, limit);
      var k := |GoHead(flat, limit)|;
      assert flat[..k] == GoHead(flat, limit);
      assert Boundary(flat, limit, k);
    }
  }

  // ── bounding twice ────────────────────────────────────────────────────

  lemma KeptIsFlat(lang: Lang, flat: string, h: string)
    requires IsFlat(lang, flat) && h <= flat && (h != "" ==> !Dangling(h[|h| - 1]))
    ensures IsFlat(lang, h)
  {
    forall i | 0 <= i < |h| && Space(lang, h[i])
      ensures h[i] == ' ' && 0 < i < |h| - 1 && !Space(lang, h[i - 1]) && !Space(lang, h[i + 1])
    {
      assert flat[i] == h[i] && flat[i - 1] == h[i - 1];
      assert i < |h| - 1;
      assert flat[i + 1] == h[i + 1];
    }
  }

  lemma MarkedIsFlat(lang: Lang, h: string)
    requires h != "" && IsFlat(lang, h)
    ensures IsFlat(lang, h + Marker())
  {
    var r, n := h + Marker(), |h|;
    assert r[n - 1] == h[n - 1] && r[n] == ' ' && r[n + 2] == ' ';
    forall i | 0 <= i < |r| && Space(lang, r[i])
      ensures r[i] == ' ' && 0 < i < |r| - 1 && !Space(lang, r[i - 1]) && !Space(lang, r[i + 1])
    {
      if i < n {
        assert r[i] == h[i] && r[i - 1] == h[i - 1] && r[i + 1] == h[i + 1];
      } else {
        assert r[i] == Marker()[i - n];
        assert i == n || i == n + 2;
      }
    }
  }

  lemma TrimStays(h: string)
    requires h != "" ==> !Dangling(h[|h| - 1])
    ensures TrimRight(h) == h
  {}

  /** Bounding a marked text again: where its own last space falls in the window. */
  lemma MarkedAgain(h: string, limit: nat)
    requires h != "" && !Dangling(h[|h| - 1])
    requires |h| <= limit < |h| + 14 && (|h| == limit ==> ' ' !in h)
    ensures Kept(h + Marker(), limit) == h <==> limit <= |h| + 2
  {
    var r, n := h + Marker(), |h|;
    var window := r[..limit];
    var cut := LastSpace(window);
    if limit == n {
      assert window == h;
      TrimStays(h);
    } else if limit <= n + 2 {
      assert window[n] == ' ' && cut == n;
      assert window[..cut] == h;
      TrimStays(h);
    } else {
      assert window[n + 2] == ' ' && cut == n + 2;
      assert window[..cut] == r[..n + 2];
      TrimStays(r[..n + 2]);
    }
  }

  lemma EllipsisIsFlat(lang: Lang)
    ensures IsFlat(lang, Ellipsis())
  {
    TwoWordsFlat(lang, Ellipsis());
  }

  lemma TwoWordsFlat(lang: Lang, s: string)
    requires |s| == 13 && s[1] == ' ' && forall i | 0 <= i < |s| && i != 1 :: !Space(lang, s[i])
    ensures IsFlat(lang, s)
  {}

  lemma LeadingSpace(lang: Lang, s: string)
    ensures Flat(lang, [' '] + s) == Flat(lang, s)
  {
    assert ([' '] + s)[1..] == s;
  }

  lemma SomethingKept(flat: string, limit: nat)
    requires limit < |flat| && !Dangling(flat[0])
    requires GoHead(flat, limit) != "" && GoHead(flat, limit) <= flat
    ensures Kept(flat, limit) != ""
  {
    assert GoHead(flat, limit)[0] == flat[0];
  }

  lemma AloneFlat(lang: Lang, flat: string)
    requires IsFlat(lang, flat)
    ensures Flat(lang, [' '] + flat) == flat
  {
    FlatStays(lang, flat);
    LeadingSpace(lang, flat);
  }

  lemma AloneAgain(lang: Lang, marker: string, flat: string, limit: nat)
    requires marker == Marker() && Flat(lang, marker) == flat
    requires IsFlat(lang, flat) && 0 < |flat| < 14 && !Dangling(flat[0])
    ensures One(lang, marker, limit) == marker <==> limit == 0
  {
    HeadsAgree(lang, marker, limit);
    if limit < |flat| {
      CutAgain(lang, flat, limit);
      assert limit == 0 ==> Kept(flat, limit) + Marker() == marker;
    }
  }

  /** A marker with nothing before it loses its space the second time. */
  lemma MarkerFlat(lang: Lang) returns (flat: string)
    ensures Flat(lang, Marker()) == flat && IsFlat(lang, flat)
    ensures 0 < |flat| < 14 && !Dangling(flat[0])
  {
    flat := Ellipsis();
    EllipsisIsFlat(lang);
    AloneFlat(lang, flat);
  }

  lemma CutAgain(lang: Lang, flat: string, limit: nat)
    requires IsFlat(lang, flat) && limit < |flat| && !Dangling(flat[0])
    ensures |Kept(flat, limit) + Marker()| == 14 <==> limit == 0
    ensures limit == 0 ==> Kept(flat, limit) == ""
  {
    if limit > 0 {
      HeadAtBoundary(lang, flat, limit);
      SomethingKept(flat, limit);
    }
  }

  /** When bounding a bounded text again leaves it alone. Unless the first
      bounding cut something it always does; after a cut it does exactly when
      something was kept and the marker then either fits whole or is overrun
      within its first word. The docstring of one_line claims it without conditions. */
  lemma TwiceIff(lang: Lang, value: string, limit: nat)
    ensures var flat, r := Flat(lang, value), One(lang, value, limit);
      One(lang, r, limit) == r <==>
        (|flat| <= limit || limit == 0
         || (Kept(flat, limit) != ""
             && (|Kept(flat, limit)| + 14 <= limit || limit <= |Kept(flat, limit)| + 2)))
  {
    var flat := Flat(lang, value);
    HeadsAgree(lang, value, limit);
    FlatIsFlat(lang, value);
    if |flat| <= limit {
      FlatStays(lang, flat);
      HeadsAgree(lang, flat, limit);
    } else if Kept(flat, limit) == "" {
      var rest := MarkerFlat(lang);
      assert Kept(flat, limit) + Marker() == Marker();
      AloneAgain(lang, Marker(), rest, limit);
    } else {
      KeptTwice(lang, flat, limit);
    }
  }

  lemma KeptTwice(lang: Lang, flat: string, limit: nat)
    requires IsFlat(lang, flat) && limit < |flat| && Kept(flat, limit) != ""
    ensures var h := Kept(flat, limit);
      One(lang, h + Marker(), limit) == h + Marker() <==> |h| + 14 <= limit || limit <= |h| + 2
  {
    var h := Kept(flat, limit);
    HeadAtBoundary(lang, flat, limit);
    KeptIsFlat(lang, flat, h);
    MarkedIsFlat(lang, h);
    FlatStays(lang, h + Marker());
    HeadsAgree(lang, h + Marker(), limit);
    if limit < |h| + 14 {
      assert flat[0] != ' ';
      KeptAtLimit(flat, limit);
      MarkedAgain(h, limit);
      SameHead(Kept(h + Marker(), limit), h);
    }
  }

  lemma SameHead(a: string, b: string)
    ensures a + Marker() == b + Marker() <==> a == b
  {
    if a + Marker() == b + Marker() {
      assert (a + Marker())[..|a|] == a && (b + Marker())[..|b|] == b;
    }
  }

  lemma KeptAtLimit(flat: string, limit: nat)
    requires limit < |flat| && flat[0] != ' '
    ensures |Kept(flat, limit)| <= limit
    ensures |Kept(flat, limit)| == limit ==> ' ' !in Kept(flat, limit)
  {
    var window := flat[..limit];
    var cut := LastSpace(window);
    if cut >= 0 {
      assert window[cut] == flat[cut] && cut > 0;
      assert |GoHead(flat, limit)| == cut;
    } else {
      assert GoHead(flat, limit) == window;
      assert forall i | 0 <= i < |Kept(flat, limit)| :: Kept(flat, limit)[i] == window[i];
    }
  }
}
