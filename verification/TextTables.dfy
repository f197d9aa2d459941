/** The tables the text functions work by, character by character, and literal
    texts with what is written of them. */
module TextTables {
  import opened Decimals
  import opened OneLine
  import opened Scrub
  import opened ScrubTheory
  import opened Reasons
  import opened TextCounterexamples
  import JsonText
  import FloatRepr
  import NameTokens

  // ── characters ────────────────────────────────────────────────────────

  /** Whitespace to unicode.IsSpace; to str.isspace the four separators too. */
  const SPACES: set<int> := {
    0x09, 0x0A, 0x0B, 0x0C, 0x0D, 0x20, 0x85, 0xA0, 0x1680, 0x2000, 0x2001, 0x2002, 0x2003, 0x2004, 0x2005,
    0x2006, 0x2007, 0x2008, 0x2009, 0x200A, 0x2028, 0x2029, 0x202F, 0x205F, 0x3000}

  lemma SpaceIff(c: char)
    ensures Space(Go, c) <==> c as int in SPACES
    ensures Space(Python, c) <==> c as int in SPACES || c as int in {0x1C, 0x1D, 0x1E, 0x1F}
  {}

  lemma DanglingIff(c: char)
    ensures Dangling(c) <==> c in " ,;:.([{-"
  {}

  /** What ends a query string or a login: quotes, angle brackets and whitespace, of
      which Go's table has six; a login ends at a slash and an at sign as well. */
  lemma StopIff(c: char)
    ensures Stop(Query, Go, c) <==> c in "\"'<> " || c as int in {0x09, 0x0A, 0x0B, 0x0C, 0x0D}
    ensures Stop(Query, Python, c) <==> c in "\"'<>" || Space(Python, c)
    ensures Stop(Userinfo, Go, c) <==> Stop(Query, Go, c) || c in "/@"
    ensures Stop(Userinfo, Python, c) <==> Stop(Query, Python, c) || c in "/@"
  {}

  // ── escapes ───────────────────────────────────────────────────────────

  const HEX := "0123456789abcdef"

  lemma HexIs(n: nat)
    requires n < 16
    ensures JsonText.HexDigit(n) == HEX[n]
  {}

  /** Which characters are written as themselves, and how the others are. */
  lemma EscapedForms(c: char)
    ensures JsonText.Escaped(JsonText.Minimal, c) == [c] <==> c as int >= 0x20 && c != '"' && c != '\\'
    ensures JsonText.Escaped(JsonText.Ascii, c) == [c] <==> 0x20 <= c as int <= 0x7E && c != '"' && c != '\\'
    ensures c as int in {8, 12} ==>
      JsonText.Escaped(JsonText.Ascii, c) == ['\\', if c as int == 8 then 'b' else 'f']
    ensures c as int < 0x20 && c as int !in {9, 10, 13} ==>
      JsonText.Escaped(JsonText.Minimal, c) == ['\\', 'u', '0', '0', HEX[c as int / 16], HEX[c as int % 16]]
    ensures forall style :: c == '"' || c == '\\' ==> JsonText.Escaped(style, c) == ['\\', c]
    ensures forall style :: c in "\n\r\t" ==>
      JsonText.Escaped(style, c) == ['\\', if c == '\n' then 'n' else if c == '\r' then 'r' else 't']
  {
    if c as int < 0x20 {
      HexIs(c as int / 16);
      HexIs(c as int % 16);
      HexIs(0);
    }
  }

  /** Outside ASCII a character is four hexadecimal digits, or a surrogate pair. */
  lemma EscapedWide(c: char)
    requires 0x7F <= c as int <= 0xFFFF
    ensures var n := c as int;
      JsonText.Escaped(JsonText.Ascii, c)
        == ['\\', 'u', HEX[n / 4096], HEX[n / 256 % 16], HEX[n / 16 % 16], HEX[n % 16]]
  {
    HexIs(c as int / 4096);
    HexIs(c as int / 256 % 16);
    HexIs(c as int / 16 % 16);
    HexIs(c as int % 16);
  }

  // ── exponents ─────────────────────────────────────────────────────────

  /** An exponent is a sign and two digits, or as many as it takes. */
  lemma ExponentForm(exp: int)
    ensures var t := FloatRepr.FormatExponent(exp);
      && |t| >= 3 && t[0] == (if exp < 0 then '-' else '+')
      && AllDigits(t[1..]) && Decimal(t[1..]) == (if exp < 0 then -exp else exp)
      && (t[1] == '0' ==> |t| == 3)
  {
    var size := if exp < 0 then -exp else exp;
    var sign, digits := if exp < 0 then '-' else '+', (if size < 10 then "0" else "") + Show(size);
    Padded(size);
    assert FloatRepr.FormatExponent(exp) == [sign] + digits;
    SignFirst(sign, digits);
  }

  lemma SignFirst(sign: char, digits: string)
    ensures var t := [sign] + digits; t[0] == sign && t[1..] == digits
  {}

  lemma Padded(size: nat)
    ensures var digits := (if size < 10 then "0" else "") + Show(size);
      && |digits| >= 2 && AllDigits(digits) && Decimal(digits) == size && (digits[0] == '0' ==> |digits| == 2)
  {
    ShowBack(size);
    if size < 10 {
      DecimalJoin("0", Show(size));
      ZeroWorth();
    } else {
      ShowBack(size / 10);
      assert "" + Show(size) == Show(size);
    }
  }

  lemma ZeroWorth()
    ensures AllDigits("0") && Decimal("0") == 0
  {
    assert "0"[..0] == "";
  }

  /** Zero is "0.0", whatever exponent it came with. */
  lemma ZeroText(f: FloatRepr.Shortest)
    requires f.digits == "0"
    ensures FloatRepr.Repr(f) == (if f.negative then "-0.0" else "0.0")
  {
    assert FloatRepr.Layout(f) == "0" + FloatRepr.Zeros(0) + ".0";
    assert FloatRepr.Zeros(0) == "";
  }

  // ── literal texts ─────────────────────────────────────────────────────

  /** A login and a query string go, each for its word. */
  lemma AddressScrubbed(lang: Lang)
    ensures Scrubbed(lang, QueryWord(), UserWord(), "http://u:p@h/x?k=v")
      == "http://" + "[userinfo-stripped]" + "@h/x?" + "[query-stripped]"
  {
    QueryStripped(lang);
    UserStripped(lang);
  }

  lemma QueryStripped(lang: Lang)
    ensures QuerySub(lang, QueryWord(), "http://u:p@h/x?k=v") == "http://u:p@h/x" + (['?'] + QueryWord())
  {
    QueryFreeText(lang, "k=v");
    QueryCut(lang, QueryWord(), "http://u:p@h/x", "k=v");
    assert "http://u:p@h/x?k=v" == "http://u:p@h/x" + (['?'] + "k=v");
  }

  lemma QueryFreeText(lang: Lang, x: string)
    requires x == "k=v"
    ensures Free(Query, lang, x)
  {}

  lemma QueryCut(lang: Lang, w: string, front: string, x: string)
    requires '?' !in front && x != "" && Free(Query, lang, x)
    ensures QuerySub(lang, w, front + (['?'] + x)) == front + (['?'] + w)
  {
    assert x + "" == x && ['?'] + w + "" == ['?'] + w;
    QueryFree(lang, w, front, ['?'] + x);
    QueryMatch(lang, w, x, "");
  }

  lemma UserStripped(lang: Lang)
    ensures UserSub(lang, UserWord(), 0, "http://u:p@h/x" + (['?'] + QueryWord()))
      == "http://" + "[userinfo-stripped]" + "@h/x?" + "[query-stripped]"
  {
    var u, rest := UserWord(), "h/x" + (['?'] + QueryWord());
    AddressParts(rest);
    LoginFreeText(lang, "u:p");
    LoginStripped(lang, u, "u:p", rest);
    AddressText(u, QueryWord());
  }

  lemma LoginStripped(lang: Lang, u: string, x: string, rest: string)
    requires x != "" && Free(Userinfo, lang, x) && '@' !in rest
    ensures UserSub(lang, u, 0, "http" + (Scheme() + (x + (['@'] + rest)))) == "http" + (Scheme() + (u + ['@'] + rest))
  {
    SplitAtScheme(lang, u, 0, "http", x + (['@'] + rest));
    UserMatch(lang, u, x, rest);
    HttpFirst(lang, u);
    UserFree(lang, u, 0, rest);
  }

  lemma LoginFreeText(lang: Lang, x: string)
    requires x == "u:p"
    ensures Free(Userinfo, lang, x)
  {}

  lemma AddressParts(rest: string)
    requires rest == "h/x" + (['?'] + QueryWord())
    ensures "http://u:p@h/x" + (['?'] + QueryWord()) == "http" + (Scheme() + ("u:p" + (['@'] + rest)))
    ensures '@' !in rest
  {}

  lemma AddressText(u: string, w: string)
    ensures "http" + (Scheme() + (u + ['@'] + ("h/x" + (['?'] + w)))) == "http://" + u + "@h/x?" + w
  {}

  lemma HttpFirst(lang: Lang, u: string)
    ensures Before(lang, u, 0, "http") == "http"
  {}

  /** What was cut is marked. */
  lemma CutMarked(lang: Lang)
    ensures One(lang, "a bcdefgh", 5) == "a" + " \U{2026} (truncated)"
  {
    BoundedTwice(lang);
    MarkerText(Marker());
  }

  lemma MarkerText(m: string)
    requires m == Marker()
    ensures m == " \U{2026} (truncated)"
  {}

  /** A space travels as %20 and a percent sign as %25. */
  lemma TokenText()
    ensures NameTokens.EncodeNameToken("a b%c") == "a%20b%25c"
    ensures NameTokens.DecodeNameToken("a%20b%25c") == "a b%c"
  {
    var name := "a b%c";
    NameTokens.EncodingIsCharwise(name);
    NameTokens.TokenBack(name, name);
    CodedText(name[0], name[1], name[2], name[3], name[4]);
  }

  lemma CodedText(a: char, b: char, c: char, d: char, e: char)
    requires a == 'a' && b == ' ' && c == 'b' && d == '%' && e == 'c'
    ensures NameTokens.Encode([a, b, c, d, e]) == "a%20b%25c"
  {
    var s := [a, b, c, d, e];
    assert s[1..] == [b, c, d, e] && s[1..][1..] == [c, d, e] && s[1..][1..][1..] == [d, e];
    assert [d, e][1..] == [e] && [e][1..] == "";
    assert NameTokens.Encode([e]) == "c";
    assert NameTokens.Encode([d, e]) == "%25c";
    assert NameTokens.Encode([c, d, e]) == "b%25c";
    assert NameTokens.Encode([b, c, d, e]) == "%20b%25c";
  }
}
