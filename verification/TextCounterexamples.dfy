/** The promises about failure text that fail, each at one concrete text. */
module TextCounterexamples {
  import opened OneLine
  import opened Scrub
  import opened ScrubTheory
  import opened Reasons
  import opened ReasonWords

  /** Two words, the first of one letter, the limit inside the second. */
  predicate TwoWords(s: string) {
    |s| > 5 && s[0] == 'a' && s[1] == ' ' && forall i | 2 <= i < |s| :: 'a' <= s[i] <= 'z'
  }

  lemma TwoWordsCut(lang: Lang, s: string)
    requires TwoWords(s)
    ensures Flat(lang, s) == s && Kept(s, 5) == "a"
  {
    TwoWordsFlat(lang, s);
    FlatStays(lang, s);
    OneSpace(s[..5]);
    assert GoHead(s, 5) == s[..5][..1] == ['a'];
  }

  lemma TwoWordsFlat(lang: Lang, s: string)
    requires TwoWords(s)
    ensures IsFlat(lang, s)
  {
    forall i | 0 <= i < |s| ensures Space(lang, s[i]) <==> i == 1 {}
  }

  lemma OneSpace(window: string)
    requires |window| == 5 && window[1] == ' ' && forall i | 2 <= i < 5 :: window[i] != ' '
    ensures LastSpace(window) == 1
  {}

  /** Bounded again, a bounded text is marked a second time. */
  lemma BoundedTwice(lang: Lang)
    ensures One(lang, "a bcdefgh", 5) == "a" + Marker()
    ensures One(lang, One(lang, "a bcdefgh", 5), 5) != One(lang, "a bcdefgh", 5)
  {
    var s := "a bcdefgh";
    TwoWordsCut(lang, s);
    HeadsAgree(lang, s, 5);
    TwiceIff(lang, s, 5);
  }

  lemma MarkKeeps(lang: Lang, front: string, tail: string)
    requires '?' !in front && '@' !in front && tail != "" && Free(Query, lang, tail)
    ensures Scrubbed(lang, QueryWord(), UserWord(), front + (['?'] + tail)) == front + (['?'] + QueryWord())
  {
    var w := QueryWord();
    WordsArePlain();
    assert tail + "" == tail && ['?'] + w + "" == ['?'] + w;
    QueryMatch(lang, w, tail, "");
    QueryFree(lang, w, front, ['?'] + tail);
    forall i | 0 <= i < |w| ensures w[i] != '@' { assert !Stop(Userinfo, lang, w[i]); }
    UserFree(lang, UserWord(), 0, front + (['?'] + w));
  }

  lemma LoginText(x: string, p: string, b: string)
    ensures "http" + Login(x + (['?'] + p), b) == "http" + Scheme() + x + (['?'] + (p + (['@'] + b)))
  {}

  /** A question mark in a login leaves what stands before it. */
  lemma LoginRemains(lang: Lang)
    ensures Scrubbed(lang, QueryWord(), UserWord(), "http" + Login("u" + (['?'] + "p"), "h"))
      == "http" + Scheme() + "u" + (['?'] + QueryWord())
  {
    LoginText("u", "p", "h");
    MarkKeeps(lang, "http" + Scheme() + "u", "p" + (['@'] + "h"));
  }

  /** So two logins may be told apart in what is written of them. */
  lemma LoginsApart(lang: Lang)
    ensures Scrubbed(lang, QueryWord(), UserWord(), "http" + Login("u" + (['?'] + "p"), "h"))
      != Scrubbed(lang, QueryWord(), UserWord(), "http" + Login("v", "h"))
  {
    WordsArePlain();
    ScrubForgetsIff(lang, QueryWord(), UserWord(), "http", "u" + (['?'] + "p"), "v", "h");
  }

  /** One word to Go, its last character a separator. */
  lemma OneWord(value: string, n: nat)
    requires 0 < n < |value| && Separator(value[n])
    requires forall i | 0 <= i < |value| && i != n :: '?' <= value[i] <= 'z'
    ensures Fields(Go, value) == [value] && Flat(Go, value) == value && WordEnd(Python, value) == n
  {
    assert value[WordEnd(Go, value)..] == "" && value[..|value|] == value;
    assert WordEnd(Python, value) < |value|;
  }

  /** A separator only Python takes for whitespace is a reason of two readings. */
  lemma ReasonsPart(limit: nat)
    requires limit >= 3
    ensures var value := ['a', 0x1C as char, 'b']; GoReason(value, limit) != PyReason(value, limit)
  {
    var value := ['a', 0x1C as char, 'b'];
    OneWord(value, 1);
    ReasonsAgreeIff(value, limit);
    assert !Separator(value[2]) && value in Fields(Go, value);
  }

  /** One that a query run takes is not. */
  lemma ReasonsMeet(limit: nat)
    requires limit >= 3
    ensures var value := ['?', 'a', 0x1C as char]; GoReason(value, limit) == PyReason(value, limit)
  {
    var value := ['?', 'a', 0x1C as char];
    OneWord(value, 2);
    assert OpenFrom(Go, value[..2], 0);
    ReasonsAgreeIff(value, limit);
  }
}
