/** From a port's members to the line published of it, in the document's own words:
    which member goes where on the line, what stands in for a missing one, which
    figures are refused, and the order of the lines. */
module PortLines {
  import opened Options
  import opened Document
  import opened Decimals
  import opened Sorting
  import opened TextOrder
  import opened Ports
  import PortsCanonical

  // ── figures ───────────────────────────────────────────────────────────

  ghost predicate DigitsOf(digits: string, n: nat) {
    digits != "" && AllDigits(digits) && Decimal(digits) == n
  }

  ghost predicate Positive(s: string, n: int) {
    exists size: nat, digits :: Signed(s, size, digits, n)
  }

  ghost predicate Signed(s: string, size: nat, digits: string, n: int) {
    DigitsOf(digits, size) && (s == digits || s == "+" + digits) && n == size <= 9223372036854775807
  }

  ghost predicate Negative(s: string, n: int) {
    exists size: nat, digits :: Minus(s, size, digits, n)
  }

  ghost predicate Minus(s: string, size: nat, digits: string, n: int) {
    DigitsOf(digits, size) && s == "-" + digits && n + size == 0 && size <= 9223372036854775808
  }

  /** A signed 64-bit figure in decimal, a sign of either kind allowed. */
  lemma ParseIntIff(s: string, n: int)
    ensures ParseInt(s) == Some(n) <==> Positive(s, n) || Negative(s, n)
  {
    if ParseInt(s) == Some(n) {
      Split(s, n);
    }
    forall size: nat, digits | Signed(s, size, digits, n) ensures ParseInt(s) == Some(n) {
      PositiveRead(s, size, digits, n);
    }
    forall size: nat, digits | Minus(s, size, digits, n) ensures ParseInt(s) == Some(n) {
      NegativeRead(s, size, digits, n);
    }
  }

  lemma Split(s: string, n: int)
    requires ParseInt(s) == Some(n)
    ensures Positive(s, n) || Negative(s, n)
  {
    var signed := s != "" && (s[0] == '-' || s[0] == '+');
    var digits := if signed then s[1..] else s;
    assert signed ==> s == [s[0]] + digits;
    if s[0] == '-' {
      assert Minus(s, Decimal(digits), digits, n);
    } else {
      assert Signed(s, Decimal(digits), digits, n);
    }
  }

  lemma PositiveRead(s: string, size: nat, digits: string, n: int)
    requires Signed(s, size, digits, n)
    ensures ParseInt(s) == Some(n)
  {
    assert s == "+" + digits ==> s[0] == '+' && s[1..] == digits;
    assert s == digits ==> s[0] != '+' && s[0] != '-';
  }

  lemma NegativeRead(s: string, size: nat, digits: string, n: int)
    requires Minus(s, size, digits, n)
    ensures ParseInt(s) == Some(n)
  {
    assert s[0] == '-' && s[1..] == digits;
  }

  /** A plain token is a figure as it is usually spelled. */
  lemma PlainIff(text: string)
    ensures PortsCanonical.Plain(text) <==>
      (exists n: nat :: text == Show(n)) || (exists n: nat :: n > 0 && text == "-" + Show(n))
  {
    if Unsigned(text) {
      Spelled(text);
    } else if text != "" && text[0] == '-' && Unsigned(text[1..]) && text[1..] != "0" {
      Spelled(text[1..]);
      ZeroLeads(text[1..]);
      assert text == "-" + text[1..];
      assert text == "-" + Show(Decimal(text[1..]));
    }
    forall n: nat ensures Unsigned(Show(n)) && (n > 0 ==> Show(n) != "0") {
      ShowBack(n);
      if Show(n) == "0" { assert "0"[..0] == ""; }
    }
    forall n: nat | text == "-" + Show(n) ensures text[0] == '-' && text[1..] == Show(n) {}
  }

  lemma Spelled(text: string)
    requires Unsigned(text)
    ensures text == Show(Decimal(text))
  {
    ShowBack(Decimal(text));
    UnsignedDetermined(text, Show(Decimal(text)));
  }

  /** A member that is stated and no whole number of 64 bits. */
  ghost predicate BadPort(port: Option<Value>) {
    port.Some? && !port.value.Null?
    && !(exists n, text :: port == Some(Number(text)) && ParseInt(text) == Some(n))
  }

  ghost predicate Figure(port: Option<Value>, text: string) {
    port == Some(Number(text)) && exists n :: ParseInt(text) == Some(n)
  }

  predicate Missing(port: Option<Value>) {
    port.None? || port.value.Null?
  }

  /** A list is refused exactly when some container port is bad, or some host port
      beside a good container port. */
  lemma RefusedIff(ports: seq<Value>)
    ensures !Sound(ports) <==>
      exists i | 0 <= i < |ports| :: BadEntry(ports[i])
  {
    forall i | 0 <= i < |ports| ensures Read(ports[i]).Broken? <==> BadEntry(ports[i]) {
      BadIff(Of(ports[i], "PrivatePort"));
      BadIff(Of(ports[i], "PublicPort"));
    }
  }

  ghost predicate BadEntry(entry: Value) {
    entry.Obj? &&
    var private := Get(entry.members, "PrivatePort");
    BadPort(private) || (!Missing(private) && BadPort(Get(entry.members, "PublicPort")))
  }

  lemma BadIff(port: Option<Value>)
    ensures BadPort(port) <==> PortNumber(port).Refused?
    ensures Missing(port) <==> PortNumber(port).Unstated?
  {
    if port.Some? && port.value.Number? && ParseInt(port.value.literal).Some? {
      assert ParseInt(port.value.literal) == Some(ParseInt(port.value.literal).value);
    }
  }

  // ── one entry, one line ───────────────────────────────────────────────

  /** The member says `v`; or says no text, and `v` stands in. */
  predicate Gives(members: seq<Member>, key: string, v: string, fallback: string) {
    var member: Option<Value> := Get(members, key);
    if member.Some? && member.value.Text? && member.value.s != "" then member.value.s == v else v == fallback
  }

  function Bracketed(address: string): string {
    if ':' in address then "[" + address + "]" else address
  }

  function ClaimFor(private: string, public: string, proto: string, address: string): Claim
    requires ParseInt(private).Some? && ParseInt(public).Some?
  {
    Claim(Published(Port(ParseInt(private).value, private), proto, Port(ParseInt(public).value, public)), address)
  }

  lemma ReadsAs(members: seq<Member>, private: string, public: string, proto: string, address: string)
    requires Figure(Get(members, "PrivatePort"), private) && Figure(Get(members, "PublicPort"), public)
    requires Gives(members, "Type", proto, "tcp") && Gives(members, "IP", address, "0.0.0.0")
    ensures var c := ClaimFor(private, public, proto, address);
      && Read(Obj(members)) == Publishes(c.key, address)
      && ClaimLine(c) == Bracketed(address) + ":" + public + "->" + private + "/" + proto
  {}

  /** An entry with a container port and a host port is one line: address, host
      port, container port, protocol. */
  lemma PublishedLine(members: seq<Member>, private: string, public: string, proto: string,
                      address: string, lines: seq<string>)
    requires Figure(Get(members, "PrivatePort"), private) && Figure(Get(members, "PublicPort"), public)
    requires Gives(members, "Type", proto, "tcp") && Gives(members, "IP", address, "0.0.0.0")
    ensures Rendered([Obj(members)], lines) <==>
      lines == [Bracketed(address) + ":" + public + "->" + private + "/" + proto]
  {
    var ports := [Obj(members)];
    var c := ClaimFor(private, public, proto, address);
    ReadsAs(members, private, public, proto, address);
    OnlyReading(ports[0], Publishes(c.key, address));
    forall d ensures Kept(ports, d) <==> d == c {}
    forall o ensures !Offered(ports, o) {}
    OneClaim(ports, c, lines);
  }

  lemma OnlyReading(entry: Value, reading: Reading)
    requires Read(entry) == reading
    ensures forall r :: Says([entry], r) <==> r == reading
  {
    assert [entry][0] in [entry];
  }

  lemma FirstIn<T>(s: seq<T>)
    ensures s != [] ==> s[0] in s
  {}

  lemma SecondIn<T>(s: seq<T>)
    ensures |s| > 1 ==> s[1] in s
  {}

  lemma OneClaim(ports: seq<Value>, c: Claim, lines: seq<string>)
    requires forall d :: Kept(ports, d) <==> d == c
    requires forall o :: !Offered(ports, o)
    ensures Rendered(ports, lines) <==> lines == [ClaimLine(c)]
  {
    BelowIsTotal();
    assert [ClaimLine(c)] == Lines([c], []);
    assert !LessPublished(c.key, c.key);
    assert Lists(ports, [c], []);
    forall claims, offers | Lists(ports, claims, offers) ensures claims == [c] && offers == [] {
      SoleClaim(claims, c);
      FirstIn(offers);
    }
  }

  lemma SoleClaim(claims: seq<Claim>, c: Claim)
    requires (forall d :: d in claims <==> d == c) && InOrder(claims)
    ensures claims == [c]
  {
    assert |claims| > 1 ==> Precedes(claims[0], claims[1]);
    FirstIn(claims);
    SecondIn(claims);
    assert c in claims;
    BelowTrichotomy(c.address, c.address);
  }

  /** Without a host port it is offered, not published. */
  lemma ExposedLine(members: seq<Member>, private: string, proto: string, lines: seq<string>)
    requires Figure(Get(members, "PrivatePort"), private) && Missing(Get(members, "PublicPort"))
    requires Gives(members, "Type", proto, "tcp")
    ensures Rendered([Obj(members)], lines) <==> lines == [private + "/" + proto + " (exposed)"]
  {
    var ports := [Obj(members)];
    var o := Exposed(Port(ParseInt(private).value, private), proto);
    OnlyReading(ports[0], Exposes(o));
    forall c ensures !Kept(ports, c) {}
    forall p ensures Offered(ports, p) <==> p == o {}
    OneOffer(ports, o, lines);
  }

  lemma OneOffer(ports: seq<Value>, o: Exposed, lines: seq<string>)
    requires forall c :: !Kept(ports, c)
    requires forall p :: Offered(ports, p) <==> p == o
    ensures Rendered(ports, lines) <==> lines == [OfferLine(o)]
  {
    BelowIsTotal();
    assert [OfferLine(o)] == Lines([], [o]);
    assert Lists(ports, [], [o]);
    forall claims, offers | Lists(ports, claims, offers) ensures claims == [] && offers == [o] {
      FirstIn(claims);
      SoleOffer(offers, o);
    }
  }

  lemma SoleOffer(offers: seq<Exposed>, o: Exposed)
    requires (forall p :: p in offers <==> p == o) && OffersInOrder(offers)
    ensures offers == [o]
  {
    assert |offers| > 1 ==> offers[0] != offers[1];
    FirstIn(offers);
    SecondIn(offers);
    assert o in offers;
  }

  /** Without a container port there is no line. */
  lemma NoLine(members: seq<Member>, lines: seq<string>)
    requires Missing(Get(members, "PrivatePort"))
    ensures Rendered([Obj(members)], lines) <==> lines == []
  {
    var ports := [Obj(members)];
    OnlyReading(ports[0], Skipped);
    assert Lists(ports, [], []) && Lines([], []) == [];
    forall claims, offers | Lists(ports, claims, offers) ensures claims == [] && offers == [] {
      FirstIn(claims);
      FirstIn(offers);
    }
  }

  // ── several entries ───────────────────────────────────────────────────

  /** Container port, then protocol, then host port: the figures by size. */
  ghost predicate NotAfter(a: Published, b: Published) {
    || a.private.number < b.private.number
    || (a.private.number == b.private.number
        && (First(a.proto, b.proto) || (a.proto == b.proto && a.public.number <= b.public.number)))
  }

  /** Published lines come in that order, and one binding's in that of its addresses. */
  lemma PublishedInOrder(ports: seq<Value>, claims: seq<Claim>, offers: seq<Exposed>, i: nat, j: nat)
    requires Lists(ports, claims, offers) && i < j < |claims|
    ensures NotAfter(claims[i].key, claims[j].key)
    ensures claims[i].key == claims[j].key ==> First(claims[i].address, claims[j].address)
  {
    var a, b := claims[i], claims[j];
    assert Precedes(a, b);
    BelowTrichotomy(a.key.proto, b.key.proto);
    BelowIff(a.key.proto, b.key.proto);
    BelowIff(a.address, b.address);
  }

  /** Offered ports come by container port and protocol. */
  lemma OffersByPort(ports: seq<Value>, claims: seq<Claim>, offers: seq<Exposed>, i: nat, j: nat)
    requires Lists(ports, claims, offers) && i < j < |offers|
    ensures var a, b := offers[i], offers[j];
      || a.private.number < b.private.number
      || (a.private.number == b.private.number && (First(a.proto, b.proto) || a.proto == b.proto))
  {
    BelowTrichotomy(offers[i].proto, offers[j].proto);
    BelowIff(offers[i].proto, offers[j].proto);
  }

  /** The wildcard of IPv6 beside that of IPv4 is no line of its own. */
  lemma TwinDropped(four: seq<Member>, six: seq<Member>, private: string, public: string, proto: string,
                    lines: seq<string>)
    requires Figure(Get(four, "PrivatePort"), private) && Figure(Get(four, "PublicPort"), public)
    requires Figure(Get(six, "PrivatePort"), private) && Figure(Get(six, "PublicPort"), public)
    requires Gives(four, "Type", proto, "tcp") && Gives(six, "Type", proto, "tcp")
    requires Gives(four, "IP", "0.0.0.0", "0.0.0.0") && Gives(six, "IP", "::", "0.0.0.0")
    ensures Rendered([Obj(four), Obj(six)], lines) <==>
      lines == ["0.0.0.0:" + public + "->" + private + "/" + proto]
  {
    var ports := [Obj(four), Obj(six)];
    var c := ClaimFor(private, public, proto, "0.0.0.0");
    ReadsAs(four, private, public, proto, "0.0.0.0");
    ReadsAs(six, private, public, proto, "::");
    BothReadings(ports[0], ports[1]);
    TwinKept(ports, c.key);
    OneClaim(ports, c, lines);
    TwinLine(private, public, proto);
  }

  lemma TwinLine(private: string, public: string, proto: string)
    ensures Bracketed("0.0.0.0") + ":" + public + "->" + private + "/" + proto
      == "0.0.0.0:" + public + "->" + private + "/" + proto
  {
    assert "0.0.0.0" + ":" + public == "0.0.0.0:" + public;
  }

  lemma TwinKept(ports: seq<Value>, key: Published)
    requires forall r :: Says(ports, r) <==> r == Publishes(key, "0.0.0.0") || r == Publishes(key, "::")
    ensures forall e :: Kept(ports, e) <==> e == Claim(key, "0.0.0.0")
    ensures forall o :: !Offered(ports, o)
  {
    assert "0.0.0.0"[0] != "::"[0];
  }

  lemma BothReadings(first: Value, second: Value)
    ensures forall r :: Says([first, second], r) <==> r == Read(first) || r == Read(second)
  {
    assert [first, second][0] in [first, second] && [first, second][1] in [first, second];
  }

  /** The members make this published line, or this offered one. */
  ghost predicate MakesPublished(members: seq<Member>, line: string) {
    exists private, public, proto, address ::
      && Figure(Get(members, "PrivatePort"), private) && Figure(Get(members, "PublicPort"), public)
      && Gives(members, "Type", proto, "tcp") && Gives(members, "IP", address, "0.0.0.0")
      && line == Bracketed(address) + ":" + public + "->" + private + "/" + proto
  }

  ghost predicate MakesOffered(members: seq<Member>, line: string) {
    exists private, proto ::
      && Figure(Get(members, "PrivatePort"), private) && Missing(Get(members, "PublicPort"))
      && Gives(members, "Type", proto, "tcp") && line == private + "/" + proto + " (exposed)"
  }

  /** In any list every line is some entry's own. */
  lemma LineOfEntry(ports: seq<Value>, lines: seq<string>, line: string)
    requires Rendered(ports, lines) && line in lines
    ensures exists entry | entry in ports ::
      entry.Obj? && (MakesPublished(entry.members, line) || MakesOffered(entry.members, line))
  {
    var claims: seq<Claim>, offers: seq<Exposed> :| Lists(ports, claims, offers) && lines == Lines(claims, offers);
    LinePicked(claims, offers, line);
    if c :| c in claims && line == ClaimLine(c) {
      ClaimFrom(ports, c);
    } else {
      var o :| o in offers && line == OfferLine(o);
      OfferFrom(ports, o);
    }
  }

  lemma LinePicked(claims: seq<Claim>, offers: seq<Exposed>, line: string)
    requires line in Lines(claims, offers)
    ensures (exists c | c in claims :: line == ClaimLine(c)) || exists o | o in offers :: line == OfferLine(o)
  {
    var i :| 0 <= i < |Lines(claims, offers)| && Lines(claims, offers)[i] == line;
    if i < |claims| {
      assert claims[i] in claims && line == ClaimLine(claims[i]);
    } else {
      assert offers[i - |claims|] in offers && line == OfferLine(offers[i - |claims|]);
    }
  }

  lemma ClaimFrom(ports: seq<Value>, c: Claim)
    requires Claimed(ports, c)
    ensures exists entry | entry in ports :: entry.Obj? && MakesPublished(entry.members, ClaimLine(c))
  {
    var entry :| entry in ports && Read(entry) == Publishes(c.key, c.address);
    PublishedFrom(entry, c);
  }

  lemma OfferFrom(ports: seq<Value>, o: Exposed)
    requires Offered(ports, o)
    ensures exists entry | entry in ports :: entry.Obj? && MakesOffered(entry.members, OfferLine(o))
  {
    var entry :| entry in ports && Read(entry) == Exposes(o);
    OfferedFrom(entry, o);
  }

  lemma PublishedFrom(entry: Value, c: Claim)
    requires Read(entry) == Publishes(c.key, c.address)
    ensures entry.Obj? && MakesPublished(entry.members, ClaimLine(c))
  {
    var members := entry.members;
    assert Figure(Get(members, "PrivatePort"), c.key.private.text);
    assert Figure(Get(members, "PublicPort"), c.key.public.text);
    assert Gives(members, "Type", c.key.proto, "tcp") && Gives(members, "IP", c.address, "0.0.0.0");
  }

  lemma OfferedFrom(entry: Value, o: Exposed)
    requires Read(entry) == Exposes(o)
    ensures entry.Obj? && MakesOffered(entry.members, OfferLine(o))
  {
    assert Figure(Get(entry.members, "PrivatePort"), o.private.text);
    assert Gives(entry.members, "Type", o.proto, "tcp");
  }

  /** And every entry has its line, but for an IPv6 wildcard. */
  lemma EntryHasLine(ports: seq<Value>, members: seq<Member>, lines: seq<string>, line: string)
    requires Rendered(ports, lines) && Obj(members) in ports && !Gives(members, "IP", "::", "0.0.0.0")
    requires MakesPublished(members, line) || MakesOffered(members, line)
    ensures line in lines
  {
    var claims: seq<Claim>, offers: seq<Exposed> :| Lists(ports, claims, offers) && lines == Lines(claims, offers);
    if MakesPublished(members, line) {
      var c := ClaimOf(members, line);
      ClaimListed(ports, claims, offers, c);
    } else {
      var o := OfferOf(members, line);
      OfferListed(ports, claims, offers, o);
    }
  }

  lemma ClaimListed(ports: seq<Value>, claims: seq<Claim>, offers: seq<Exposed>, c: Claim)
    requires Lists(ports, claims, offers) && Claimed(ports, c) && c.address != "::"
    ensures ClaimLine(c) in Lines(claims, offers)
  {
    assert Kept(ports, c) && c in claims;
    var i :| 0 <= i < |claims| && claims[i] == c;
    assert Lines(claims, offers)[i] == ClaimLine(c);
  }

  lemma OfferListed(ports: seq<Value>, claims: seq<Claim>, offers: seq<Exposed>, o: Exposed)
    requires Lists(ports, claims, offers) && Offered(ports, o)
    ensures OfferLine(o) in Lines(claims, offers)
  {
    assert o in offers;
    var i :| 0 <= i < |offers| && offers[i] == o;
    assert Lines(claims, offers)[|claims| + i] == OfferLine(o);
  }

  lemma ClaimOf(members: seq<Member>, line: string) returns (c: Claim)
    requires MakesPublished(members, line) && !Gives(members, "IP", "::", "0.0.0.0")
    ensures Read(Obj(members)) == Publishes(c.key, c.address) && ClaimLine(c) == line && c.address != "::"
  {
    var private, public, proto, address :|
      && Figure(Get(members, "PrivatePort"), private) && Figure(Get(members, "PublicPort"), public)
      && Gives(members, "Type", proto, "tcp") && Gives(members, "IP", address, "0.0.0.0")
      && line == Bracketed(address) + ":" + public + "->" + private + "/" + proto;
    ReadsAs(members, private, public, proto, address);
    c := ClaimFor(private, public, proto, address);
  }

  lemma OfferOf(members: seq<Member>, line: string) returns (o: Exposed)
    requires MakesOffered(members, line)
    ensures Read(Obj(members)) == Exposes(o) && OfferLine(o) == line
  {
    var private, proto :|
      && Figure(Get(members, "PrivatePort"), private) && Missing(Get(members, "PublicPort"))
      && Gives(members, "Type", proto, "tcp") && line == private + "/" + proto + " (exposed)";
    o := Exposed(Port(ParseInt(private).value, private), proto);
  }
}
