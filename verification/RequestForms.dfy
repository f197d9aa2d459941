/** The request line in literal terms: what a name is, how one token is read, and
    which generation each collection is issued. */
module RequestForms {
  import opened Decimals
  import opened Sorting
  import opened TextOrder
  import opened OneLine
  import opened Request
  import opened RequestTheory

  // ── one token ─────────────────────────────────────────────────────────

  const LETTERS := "abcdefghijklmnopqrstuvwxyz"
  const DIGITS := "0123456789"

  lemma Letters(c: char)
    ensures Lower(c) <==> c in LETTERS
  {}

  lemma DigitChars(c: char)
    ensures '0' <= c <= '9' <==> c in DIGITS
  {}

  /** ^[a-z][a-z0-9-]*$ */
  lemma LegalIff(name: string)
    ensures Legal(name) <==>
      name != "" && name[0] in LETTERS
      && forall i | 0 <= i < |name| :: name[i] in LETTERS || name[i] in DIGITS || name[i] == '-'
  {
    forall i | 0 <= i < |name|
      ensures Lower(name[i]) <==> name[i] in LETTERS
      ensures '0' <= name[i] <= '9' <==> name[i] in DIGITS
    {
      Letters(name[i]);
      DigitChars(name[i]);
    }
  }

  lemma ColonFound(name: string, digits: string)
    requires ':' !in digits
    ensures var token := name + ":" + digits;
      LastColon(token) == |name| && token[..|name|] == name && token[|name| + 1..] == digits
  {
    var token := name + ":" + digits;
    assert token[|name|] == ':';
    assert forall i | |name| < i < |token| :: token[i] == digits[i - |name| - 1];
  }

  /** Go's reading of a token, by what stands on either side of its last colon. */
  lemma TokenCases(name: string, digits: string)
    requires ':' !in digits
    ensures var token := name + ":" + digits;
      ReadToken(token) ==
        if name == "" || digits == "" then Refused(Malformed(token))
        else if !AllDigits(digits) || Decimal(digits) > 18446744073709551615 then Refused(NotUnsigned(token))
        else if !Legal(name) then Refused(IllegalName(name))
        else Asked(name, Decimal(digits))
  {
    ColonFound(name, digits);
  }

  /** Python's: no figure of its own bound, no name refused. */
  lemma LooseCases(py: Digits, name: string, digits: string)
    requires ':' !in digits
    ensures var token := name + ":" + digits;
      ReadLoosely(py, token) ==
        if name == "" || !py.isDigit(digits) then Refused(Malformed(token))
        else if py.figure(digits).None? then Refused(NotUnsigned(token))
        else Asked(name, py.figure(digits).value)
  {
    ColonFound(name, digits);
  }

  /** A token without a colon is malformed to both. */
  lemma NoColon(py: Digits, token: string)
    requires ':' !in token
    ensures ReadToken(token) == ReadLoosely(py, token) == Refused(Malformed(token))
  {
    assert LastColon(token) < 0;
  }

  // ── issuing ───────────────────────────────────────────────────────────

  /** In the order of their names, whatever order they were asked in, collections
      are issued a base of 103 to 99997 and steps of 17. */
  lemma IssuedInSteps(collections: set<string>, crc: nat, names: seq<string>) returns (base: nat)
    requires forall i, j | 0 <= i < j < |names| :: First(names[i], names[j])
    requires forall x :: x in names <==> x in collections
    ensures base == 103 + crc % 99895 && 103 <= base <= 99997
    ensures Issued(collections, crc).Keys == collections
    ensures forall i | 0 <= i < |names| ::
      names[i] in Issued(collections, crc) && Issued(collections, crc)[names[i]] == base + 17 * i
  {
    base := 103 + crc % 99895;
    SortedIs(names, collections);
    SortedDistinct(collections);
    IssuanceDistinct(collections, crc);
    forall i | 0 <= i < |names|
      ensures names[i] in Issue17(names, crc) && Issue17(names, crc)[names[i]] == base + 17 * i
    {
      IssuedAt(names, crc, i);
    }
  }

  /** Of networks and volumes networks comes first. */
  lemma IssuedLine()
    ensures Issued({"volumes", "networks"}, 17) == map["networks" := 120, "volumes" := 137]
    ensures TotalOrder(Below) && Sorted(Below, {"volumes", "networks"}) == ["networks", "volumes"]
    ensures RequestLine(Tokens(["networks", "volumes"], map["networks" := 120, "volumes" := 137]))
      == "collect networks:120 volumes:137" + ['\n']
  {
    NetworksFirst("networks", "volumes");
    assert "networks"[0] != "volumes"[0];
    IssuedTwo({"volumes", "networks"}, "networks", "volumes");
    SortedTwo({"volumes", "networks"}, "networks", "volumes");
    ShownLine();
  }

  lemma NetworksFirst(a: string, b: string)
    requires a == "networks" && b == "volumes"
    ensures First(a, b)
  {
    assert PartsAt(a, b, 0);
  }

  lemma SortedTwo(collections: set<string>, a: string, b: string)
    requires collections == {b, a} && First(a, b)
    ensures TotalOrder(Below) && Sorted(Below, collections) == [a, b]
  {
    TwoInOrder([a, b], collections, a, b);
    SortedIs([a, b], collections);
  }

  lemma IssuedTwo(collections: set<string>, a: string, b: string)
    requires collections == {b, a} && First(a, b) && a != b
    ensures Issued(collections, 17) == map[a := 120, b := 137]
  {
    SortedTwo(collections, a, b);
    Stepped([a, b], a, b);
  }

  lemma Stepped(names: seq<string>, a: string, b: string)
    requires names == [a, b] && a != b
    ensures Issue17(names, 17) == map[a := 120, b := 137]
  {
    assert names[..1] == [a] && [a][..0] == [];
    assert Issue17([a], 17) == map[a := 120];
  }

  lemma TwoInOrder(names: seq<string>, collections: set<string>, a: string, b: string)
    requires names == [a, b] && collections == {b, a} && First(a, b)
    ensures forall i, j | 0 <= i < j < |names| :: First(names[i], names[j])
    ensures forall x :: x in names <==> x in collections
  {}

  lemma ShownLine()
    ensures RequestLine(Tokens(["networks", "volumes"], map["networks" := 120, "volumes" := 137]))
      == "collect networks:120 volumes:137" + ['\n']
  {
    var tokens := Tokens(["networks", "volumes"], map["networks" := 120, "volumes" := 137]);
    assert Show(120) == "120" && Show(137) == "137";
    assert tokens[0] == "networks" + [':'] + "120" && tokens[1] == "volumes" + [':'] + "137";
    JoinedLine(tokens, tokens[0], tokens[1]);
  }

  lemma JoinedLine(tokens: seq<string>, a: string, b: string)
    requires tokens == [a, b] && a == "networks" + [':'] + "120" && b == "volumes" + [':'] + "137"
    ensures RequestLine(tokens) == "collect networks:120 volumes:137" + ['\n']
  {
    assert tokens[1..] == [b] && Join(tokens) == a + " " + b;
    assert a == "networks:120" && b == "volumes:137";
  }
}
