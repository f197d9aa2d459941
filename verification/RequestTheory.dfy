/** What the harness issues and renders is what the collector parses and echoes;
    and a whole replay, from the issued map to the verdict. */
module RequestTheory {
  import opened Judge
  import opened Decimals
  import opened Sorting
  import opened OneLine
  import opened Request
  import P = Producer
  import opened ProducerTheory

  // ── issuing ───────────────────────────────────────────────────────────

  /** `issue_generations`: from a base derived from the seed, steps of 17. */
  function Issue17(names: seq<string>, crc: nat): map<string, nat> {
    if names == [] then map[]
    else
      var n := |names| - 1;
      Issue17(names[..n], crc)[names[n] := 103 + crc % 99895 + 17 * n]
  }

  lemma {:induction false} IssuedAt(names: seq<string>, crc: nat, i: nat)
    requires i < |names| && Distinct(names)
    ensures names[i] in Issue17(names, crc)
    ensures Issue17(names, crc)[names[i]] == 103 + crc % 99895 + 17 * i
  {
    var n := |names| - 1;
    if i < n {
      IssuedAt(names[..n], crc, i);
    }
  }

  lemma {:induction false} IssuedNames(names: seq<string>, crc: nat, name: string)
    ensures name in Issue17(names, crc) <==> name in names
  {
    if names != [] {
      var n := |names| - 1;
      IssuedNames(names[..n], crc, name);
      assert names == names[..n] + [names[n]];
    }
  }

  ghost function Issued(collections: set<string>, crc: nat): map<string, nat> {
    BelowIsTotal();
    Issue17(Sorted(Below, collections), crc)
  }

  lemma SortedDistinct(collections: set<string>)
    requires TotalOrder(Below)
    ensures Distinct(Sorted(Below, collections))
  {
    BelowIsTotal();
  }

  lemma IssuedSlot(names: seq<string>, crc: nat, c: string) returns (i: nat)
    requires Distinct(names) && c in names
    ensures i < |names| && names[i] == c && c in Issue17(names, crc)
    ensures Issue17(names, crc)[c] == 103 + crc % 99895 + 17 * i
  {
    i :| 0 <= i < |names| && names[i] == c;
    IssuedAt(names, crc, i);
  }

  lemma IssuedApart(names: seq<string>, crc: nat, c: string, d: string)
    requires Distinct(names) && c in names && d in names
    ensures c in Issue17(names, crc) && d in Issue17(names, crc)
    ensures Issue17(names, crc)[c] > 100
    ensures c != d ==> Issue17(names, crc)[c] != Issue17(names, crc)[d]
  {
    var i := IssuedSlot(names, crc, c);
    var j := IssuedSlot(names, crc, d);
  }

  /** Each collection gets a generation of its own, above 100. */
  lemma IssuanceDistinct(collections: set<string>, crc: nat)
    ensures Issued(collections, crc).Keys == collections
    ensures forall c | c in collections :: Issued(collections, crc)[c] > 100
    ensures forall c, d | c in collections && d in collections && c != d ::
      Issued(collections, crc)[c] != Issued(collections, crc)[d]
  {
    BelowIsTotal();
    SortedDistinct(collections);
    var names := Sorted(Below, collections);
    var issued := Issue17(names, crc);
    assert Issued(collections, crc) == issued;
    forall name ensures name in issued <==> name in collections {
      IssuedNames(names, crc, name);
    }
    forall c, d | c in collections && d in collections
      ensures issued[c] > 100 && (c != d ==> issued[c] != issued[d])
    {
      IssuedApart(names, crc, c, d);
    }
  }

  // ── rendering ─────────────────────────────────────────────────────────

  function Token(name: string, generation: nat): string {
    name + [':'] + Show(generation)
  }

  function Tokens(order: seq<string>, generations: map<string, nat>): (tokens: seq<string>)
    requires forall name | name in order :: name in generations
    ensures |tokens| == |order|
  {
    seq(|order|, i requires 0 <= i < |order| => Token(order[i], generations[order[i]]))
  }

  function Verb(): string {
    "collect"
  }

  function RequestLine(tokens: seq<string>): string {
    Verb() + " " + Join(tokens) + ['\n']
  }

  ghost predicate Askable(generations: map<string, nat>) {
    generations.Keys != {}
    && forall name | name in generations ::
         Legal(name) && generations[name] < 0x1_0000_0000_0000_0000
  }

  lemma TokenBack(name: string, generation: nat)
    requires Legal(name) && generation < 0x1_0000_0000_0000_0000
    ensures ReadToken(Token(name, generation)) == Asked(name, generation)
  {
    var token, digits := Token(name, generation), Show(generation);
    ShowBack(generation);
    assert token[|name|] == ':';
    assert forall i | |name| < i < |token| :: token[i] == digits[i - |name| - 1];
    assert LastColon(token) == |name|;
    assert token[..|name|] == name && token[|name| + 1..] == digits;
  }

  lemma TokenIsWord(name: string, generation: nat)
    requires Legal(name)
    ensures var token := Token(name, generation);
      token != "" && forall i | 0 <= i < |token| :: !Space(Go, token[i])
  {
    ShowBack(generation);
    var token, digits := Token(name, generation), Show(generation);
    forall i | 0 <= i < |token| ensures !Space(Go, token[i]) {
      if i > |name| {
        assert token[i] == digits[i - |name| - 1];
      }
    }
  }

  /** Joined words split back, the line's end aside. */
  lemma {:induction false} FieldsBack(words: seq<string>)
    requires Words(Go, words) && words != []
    ensures Fields(Go, Join(words) + ['\n']) == words
  {
    var w, rest := words[0], words[1..];
    assert w in words;
    if |words| == 1 {
      assert words == [w];
      OneWord(w, ['\n']);
      assert ['\n'][1..] == "";
    } else {
      FieldsBack(rest);
      NextWord(w, Join(rest), rest);
      assert words == [w] + rest;
    }
  }

  lemma NextWord(w: string, joined: string, rest: seq<string>)
    requires w != "" && forall i | 0 <= i < |w| :: !Space(Go, w[i])
    requires Fields(Go, joined + ['\n']) == rest
    ensures Fields(Go, w + " " + joined + ['\n']) == [w] + rest
  {
    var more := joined + ['\n'];
    assert w + " " + joined + ['\n'] == w + ([' '] + more);
    OneWord(w, [' '] + more);
    assert ([' '] + more)[1..] == more;
  }

  lemma OneWord(w: string, tail: string)
    requires w != "" && forall i | 0 <= i < |w| :: !Space(Go, w[i])
    requires tail != "" && Space(Go, tail[0])
    ensures Fields(Go, w + tail) == [w] + Fields(Go, tail[1..])
  {
    WordStops(w, tail);
    assert (w + tail)[..|w|] == w && (w + tail)[|w|..] == tail;
    assert (w + tail)[0] == w[0];
  }

  lemma {:induction false} WordStops(w: string, tail: string)
    requires forall i | 0 <= i < |w| :: !Space(Go, w[i])
    requires tail != "" && Space(Go, tail[0])
    ensures WordEnd(Go, w + tail) == |w|
  {
    if w == "" {
      assert w + tail == tail;
    } else {
      WordStops(w[1..], tail);
      assert (w + tail)[1..] == w[1..] + tail;
    }
  }

  /** The rendered line splits into the verb and the tokens. */
  lemma LineSplits(order: seq<string>, generations: map<string, nat>)
    requires order != [] && Askable(generations) && forall name | name in order :: name in generations
    ensures Fields(Go, RequestLine(Tokens(order, generations))) == [Verb()] + Tokens(order, generations)
  {
    var tokens := Tokens(order, generations);
    forall i | 0 <= i < |tokens|
      ensures tokens[i] != "" && forall k | 0 <= k < |tokens[i]| :: !Space(Go, tokens[i][k])
    {
      TokenIsWord(order[i], generations[order[i]]);
    }
    var words := [Verb()] + tokens;
    assert Words(Go, words);
    assert words[1..] == tokens;
    assert Join(words) == Verb() + " " + Join(tokens);
    FieldsBack(words);
  }

  /** And the tokens parse to the very map, in the rendered order. */
  lemma TokensBack(order: seq<string>, generations: map<string, nat>)
    requires Askable(generations) && (forall name :: name in generations <==> name in order)
    requires Distinct(order)
    ensures Readable(Tokens(order, generations))
    ensures Reads(Tokens(order, generations), order, generations)
  {
    forall i | 0 <= i < |order|
      ensures order[i] in generations
      ensures ReadToken(Tokens(order, generations)[i]) == Asked(order[i], generations[order[i]])
    {
      assert order[i] in order;
      TokenBack(order[i], generations[order[i]]);
    }
    AskedReads(Tokens(order, generations), order, generations);
  }

  lemma AskedReads(tokens: seq<string>, order: seq<string>, generations: map<string, nat>)
    requires |tokens| == |order| && Distinct(order) && forall name | name in generations :: name in order
    requires forall i | 0 <= i < |order| ::
      order[i] in generations && ReadToken(tokens[i]) == Asked(order[i], generations[order[i]])
    ensures Readable(tokens) && Reads(tokens, order, generations)
  {}

  /** Any non-empty map of legal names to 64-bit generations survives the request
      line: rendered in name order, split, parsed, it is the same map. */
  lemma RequestBack(generations: map<string, nat>, order: seq<string>)
    requires Askable(generations) && TotalOrder(Below) && order == Sorted(Below, generations.Keys)
    ensures Fields(Go, RequestLine(Tokens(order, generations))) == [Verb()] + Tokens(order, generations)
    ensures Readable(Tokens(order, generations))
    ensures Reads(Tokens(order, generations), order, generations)
  {
    SortedDistinct(generations.Keys);
    assert order != [] by {
      var name :| name in generations;
      assert name in order;
    }
    LineSplits(order, generations);
    TokensBack(order, generations);
  }

  // ── a whole replay ────────────────────────────────────────────────────

  /** The harness renders what it issued; the collector splits and parses it. */
  method Delivered(issued: map<string, nat>) returns (order: seq<string>, generations: map<string, nat>)
    requires Askable(issued)
    ensures TotalOrder(Below) && order == Sorted(Below, issued.Keys) && generations == issued
    ensures ProducerTheory.Request(order, generations)
  {
    BelowIsTotal();
    var names := SortSet(Below, issued.Keys);
    var tokens := Tokens(names, issued);
    RequestBack(issued, names);
    var fields := Fields(Go, RequestLine(tokens));
    var parsed := ParseCollect(fields[1..]);
    assert fields[1..] == tokens;
    ReadsUnique(tokens, names, issued, parsed.order, parsed.generations);
    SortedDistinct(issued.Keys);
    return parsed.order, parsed.generations;
  }

  /** The harness issues, renders and judges; the collector splits, parses and
      runs. Whatever the source does and wherever the writer fails, a bad exit is
      never accepted, and after a good one the verdict is on the readings alone. */
  method Replay(issued: map<string, nat>, src: P.Source, served: P.Catalogue, takes: nat -> bool)
    returns (code: P.Exit, problems: seq<Problem>)
    requires Askable(issued)
    ensures TotalOrder(Below)
    ensures var order := Sorted(Below, issued.Keys);
      && (code != P.EXIT_OK ==> problems != [])
      && (code == P.EXIT_OK ==> P.Complete(src, order, P.DockerAnswers(src, served)))
      && (code == P.EXIT_OK ==>
            (problems == [] <==> ReadingsLawful(src, order, P.DockerAnswers(src, served))))
  {
    var order, generations := Delivered(issued);
    code, problems := CollectAndJudge(src, served, order, generations, takes);
  }
}
