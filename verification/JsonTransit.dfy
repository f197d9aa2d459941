/** A document on its way through a collector: decoded from tokens, printed, and
    read by whoever parses the line. */
module JsonTransit {
  import opened Document
  import opened OrderedDict
  import opened JsonDecode
  import opened JsonText
  import opened JsonPrint

  /** Numbers are spelled as a JSON lexer passes them on. */
  predicate Lexed(ts: seq<Token>) {
    forall i | 0 <= i < |ts| && ts[i].TNumber? :: NumberLiteral(ts[i].literal)
  }

  /** What is decoded has the literals of the tokens, and so valid ones. */
  lemma {:induction false} ParsedLiterals(ts: seq<Token>)
    requires Lexed(ts)
    ensures Parse(ts).Took? ==> Literals(Parse(ts).value) && Lexed(Parse(ts).rest)
    decreases |ts|, 1
  {
    if ts != [] && ts[0].OpenArr? {
      ItemsLiterals(ts[1..], []);
    } else if ts != [] && ts[0].OpenObj? {
      MembersLiterals(ts[1..], []);
    }
  }

  lemma {:induction false} ItemsLiterals(ts: seq<Token>, items: seq<Value>)
    requires Lexed(ts) && forall x | x in items :: Literals(x)
    ensures var r := ParseItems(ts, items); r.Took? ==> Literals(r.value) && Lexed(r.rest)
    decreases |ts|, 2
  {
    if More(ts) {
      ParsedLiterals(ts);
      if Parse(ts).Took? {
        ItemsLiterals(Parse(ts).rest, items + [Parse(ts).value]);
      }
    }
  }

  lemma {:induction false} MembersLiterals(ts: seq<Token>, pairs: seq<Member>)
    requires Lexed(ts) && forall m | m in pairs :: Literals(m.value)
    ensures var r := ParseMembers(ts, pairs); r.Took? ==> Literals(r.value) && Lexed(r.rest)
    decreases |ts|, 2
  {
    if More(ts) {
      if ts[0].TString? {
        ParsedLiterals(ts[1..]);
        if Parse(ts[1..]).Took? {
          MembersLiterals(Parse(ts[1..]).rest, pairs + [Member(ts[0].s, Parse(ts[1..]).value)]);
        }
      }
    } else {
      AssignedFrom(pairs);
    }
  }

  /** Whatever a collector decodes and prints, in either spelling, is read as the
      document it decoded: repeated keys settled, order and literals kept. */
  lemma DecodedPrintsBack(style: Style, ts: seq<Token>)
    requires Lexed(ts) && ParseDocument(ts).Ok?
    ensures var v := ParseDocument(ts).value;
      ReadValue(Print(style, v)) == Got(v, "") && ParseDocument(Tokens(v)) == Ok(v)
  {
    var v := ParseDocument(ts).value;
    ParsedLiterals(ts);
    DecodedWellFormed(ts);
    PrintInjective(style, style, v, v);
    DecodeSettles(ts);
  }
}
