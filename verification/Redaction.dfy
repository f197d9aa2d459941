/** What scrubbing leaves: no match of either pattern but the word put in place
    of one. */
module Redaction {
  import opened Options
  import opened OneLine
  import opened Scrub
  import opened ScrubTheory

  /** Whatever the pattern still matches, anywhere in the text, is the replacement. */
  ghost predicate Redacted(rule: Rule, lang: Lang, word: string, text: string) {
    RedactedFrom(rule, lang, word, text, 0)
  }

  ghost predicate RedactedFrom(rule: Rule, lang: Lang, word: string, text: string, i: nat) {
    forall p | i <= p < |text| :: RedactedAt(rule, lang, word, text, p)
  }

  ghost predicate RedactedAt(rule: Rule, lang: Lang, word: string, text: string, p: nat)
    requires p <= |text|
  {
    var end := MatchEnd(rule, lang, text, p);
    end.Some? ==> text[p..end.value] == Replacement(rule, word)
  }

  /** Where a run ends no query starts, so the substitution keeps the character. */
  lemma QueryResumes(lang: Lang, w: string, text: string, end: nat)
    requires end <= |text| && Starts(Query, lang, text[end..])
    ensures Starts(Query, lang, Substituted(Query, lang, w, text, end))
  {}

  /** A match that the substitution puts back as it was is the replacement. */
  lemma QueryPutBack(lang: Lang, w: string, text: string, p: nat, end: nat)
    requires Plain(w) && p <= |text| && MatchEnd(Query, lang, text, p) == Some(end)
    requires Substituted(Query, lang, w, text, p) == text[p..]
    ensures end == p + 1 + |w|
  {
    var rest := Substituted(Query, lang, w, text, end);
    StepMatch(Query, lang, w, text, p, end);
    Marked(text[p..], w, rest);
    assert text[p..][1..] == text[p + 1..];
    assert text[p + 1..][end - p - 1..] == text[end..];
    assert text[end..] != "" ==> text[end..][0] == text[p + 1..][end - p - 1];
    QueryResumes(lang, w, text, end);
    RunOf(Query, lang, w, rest);
  }

  lemma UserPutBack(lang: Lang, u: string, text: string, p: nat, end: nat)
    requires Plain(u) && p <= |text| && MatchEnd(Userinfo, lang, text, p) == Some(end)
    requires Substituted(Userinfo, lang, u, text, p) == text[p..]
    ensures end == p + 1 + |u|
  {
    var rest := Substituted(Userinfo, lang, u, text, end);
    StepMatch(Userinfo, lang, u, text, p, end);
    RunThenAt(lang, u, rest, text[p..]);
  }

  lemma RunThenAt(lang: Lang, u: string, rest: string, t: string)
    requires Plain(u) && t == u + ['@'] + rest
    ensures Run(Userinfo, lang, t) == |u|
  {
    Piece(u, ['@'], rest);
    RunOf(Userinfo, lang, u, ['@'] + rest);
  }

  lemma PutBack(rule: Rule, lang: Lang, word: string, text: string, p: nat, end: nat)
    requires Plain(word) && p <= |text| && MatchEnd(rule, lang, text, p) == Some(end)
    requires Substituted(rule, lang, word, text, p) == text[p..]
    ensures text[p..end] == Replacement(rule, word)
    ensures text[end..] == Substituted(rule, lang, word, text, end)
  {
    if rule.Query? { QueryPutBack(lang, word, text, p, end); } else { UserPutBack(lang, word, text, p, end); }
    assert end == p + |Replacement(rule, word)|;
    StepMatch(rule, lang, word, text, p, end);
    Fronted(text, p, Replacement(rule, word), Substituted(rule, lang, word, text, end));
  }

  lemma Marked(t: string, word: string, rest: string)
    requires t == ['?'] + word + rest
    ensures t[1..] == word + rest
  {}

  lemma Fronted(text: string, p: nat, front: string, rest: string)
    requires p <= |text| && text[p..] == front + rest
    ensures p + |front| <= |text| && text[p..p + |front|] == front && text[p + |front|..] == rest
  {
    assert |text[p..]| == |front| + |rest|;
    assert text[p..p + |front|] == text[p..][..|front|];
    assert text[p + |front|..] == text[p..][|front|..];
  }

  /** Inside a replacement neither pattern starts again. */
  lemma NoneInside(rule: Rule, lang: Lang, word: string, text: string, p: nat, end: nat, q: nat)
    requires Plain(word) && p < q < end <= |text| && text[p..end] == Replacement(rule, word)
    ensures MatchEnd(rule, lang, text, q).None?
  {
    assert text[q] == text[p..end][q - p];
    if rule.Userinfo? {
      assert text[q - 1] == text[p..end][q - 1 - p] == word[q - 1 - p];
    }
  }

  lemma KeptAsWas(rule: Rule, lang: Lang, word: string, text: string, i: nat)
    requires i < |text| && MatchEnd(rule, lang, text, i).None?
    requires Substituted(rule, lang, word, text, i) == text[i..]
    ensures Substituted(rule, lang, word, text, i + 1) == text[i + 1..]
  {
    StepOver(rule, lang, word, text, i);
    assert Substituted(rule, lang, word, text, i)[1..] == Substituted(rule, lang, word, text, i + 1);
    assert text[i..][1..] == text[i + 1..];
  }

  lemma RedactedOver(rule: Rule, lang: Lang, word: string, text: string, i: nat, end: nat)
    requires Plain(word) && i < end <= |text| && MatchEnd(rule, lang, text, i) == Some(end)
    requires text[i..end] == Replacement(rule, word) && RedactedFrom(rule, lang, word, text, end)
    ensures RedactedFrom(rule, lang, word, text, i)
  {
    forall q | i < q < end ensures RedactedAt(rule, lang, word, text, q) {
      NoneInside(rule, lang, word, text, i, end, q);
    }
  }

  lemma RedactedNext(rule: Rule, lang: Lang, word: string, text: string, i: nat)
    requires i < |text| && MatchEnd(rule, lang, text, i).None?
    requires RedactedFrom(rule, lang, word, text, i + 1)
    ensures RedactedFrom(rule, lang, word, text, i)
  {}

  /** Text a substitution leaves alone holds no match but the replacement. */
  lemma {:induction false} FixedIsRedacted(rule: Rule, lang: Lang, word: string, text: string, i: nat)
    requires Plain(word) && i <= |text| && Substituted(rule, lang, word, text, i) == text[i..]
    ensures RedactedFrom(rule, lang, word, text, i)
    decreases |text| - i
  {
    if i < |text| {
      var end := MatchEnd(rule, lang, text, i);
      if end.None? {
        KeptAsWas(rule, lang, word, text, i);
        FixedIsRedacted(rule, lang, word, text, i + 1);
        RedactedNext(rule, lang, word, text, i);
      } else {
        PutBack(rule, lang, word, text, i, end.value);
        FixedIsRedacted(rule, lang, word, text, end.value);
        RedactedOver(rule, lang, word, text, i, end.value);
      }
    }
  }

  /** A scrubbed text holds no query string and no login but the words, although
      the second pass could have uncovered what the first had passed over. */
  lemma ScrubRedacts(lang: Lang, w: string, u: string, s: string)
    requires Plain(w) && Plain(u)
    ensures Redacted(Query, lang, w, Scrubbed(lang, w, u, s))
    ensures Redacted(Userinfo, lang, u, Scrubbed(lang, w, u, s))
  {
    var r := Scrubbed(lang, w, u, s);
    ScrubTwice(lang, w, u, s);
    QueryBySuffix(lang, w, r, 0);
    UserBySuffix(lang, u, r, 0);
    assert r[0..] == r && r[..0] == "";
    FixedIsRedacted(Query, lang, w, r, 0);
    FixedIsRedacted(Userinfo, lang, u, r, 0);
  }
}
