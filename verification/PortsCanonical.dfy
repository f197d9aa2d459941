/** The port listing is a canonical form: it depends on what is claimed, not on
    how often or in which order the daemon said it. */
module PortsCanonical {
  import opened Options
  import opened Decimals
  import opened Document
  import opened Sorting
  import opened Ports

  // ── tokens ────────────────────────────────────────────────────────────

  /** A whole number as JSON spells one (RFC 8259, section 6), other than "-0". */
  predicate Plain(text: string) {
    Unsigned(text) || (text != "" && text[0] == '-' && Unsigned(text[1..]) && text[1..] != "0")
  }

  /** Away from "-0", a figure has one spelling. */
  lemma OneSpelling(a: string, b: string)
    requires Plain(a) && Plain(b) && ParseInt(a).Some? && ParseInt(a) == ParseInt(b)
    ensures a == b
  {
    if Unsigned(a) && Unsigned(b) {
      UnsignedDetermined(a, b);
    } else if !Unsigned(a) && !Unsigned(b) {
      UnsignedDetermined(a[1..], b[1..]);
      assert a == [a[0]] + a[1..] && b == [b[0]] + b[1..];
    } else {
      DecimalPositive(if Unsigned(a) then b[1..] else a[1..]);
    }
  }

  ghost predicate PlainReading(r: Reading) {
    match r
    case Publishes(key, _) => Plain(key.private.text) && Plain(key.public.text)
    case Exposes(offer) => Plain(offer.private.text)
    case _ => true
  }

  ghost predicate PlainTokens(ports: seq<Value>) {
    forall entry | entry in ports :: PlainReading(Read(entry))
  }

  // ── what is claimed, in figures ───────────────────────────────────────

  datatype Figures = Binding(address: string, private: int, proto: string, public: int)
    | Offer(port: int, over: string)

  function FiguresOf(r: Reading): Option<Figures> {
    match r
    case Publishes(key, address) =>
      Some(Binding(address, key.private.number, key.proto, key.public.number))
    case Exposes(offer) => Some(Offer(offer.private.number, offer.proto))
    case _ => None
  }

  ghost predicate States(ports: seq<Value>, f: Figures) {
    exists entry | entry in ports :: FiguresOf(Read(entry)) == Some(f)
  }

  ghost predicate SameFigures(a: seq<Value>, b: seq<Value>) {
    forall f :: States(a, f) <==> States(b, f)
  }

  /** With plain tokens the figures of a reading are the reading. */
  lemma FiguresDetermine(x: Value, y: Value)
    requires PlainReading(Read(x)) && PlainReading(Read(y))
    requires FiguresOf(Read(x)).Some? && FiguresOf(Read(x)) == FiguresOf(Read(y))
    ensures Read(x) == Read(y)
  {
    match Read(x)
    case Publishes(key, _) =>
      OneSpelling(key.private.text, Read(y).key.private.text);
      OneSpelling(key.public.text, Read(y).key.public.text);
    case Exposes(offer) =>
      OneSpelling(offer.private.text, Read(y).offer.private.text);
  }

  lemma SaysAlike(a: seq<Value>, b: seq<Value>, r: Reading)
    requires PlainTokens(a) && PlainTokens(b) && SameFigures(a, b) && FiguresOf(r).Some?
    requires Says(a, r)
    ensures Says(b, r)
  {
    var x :| x in a && Read(x) == r;
    var f := FiguresOf(r).value;
    assert States(a, f);
    assert States(b, f);
    var y :| y in b && FiguresOf(Read(y)) == Some(f);
    FiguresDetermine(x, y);
  }

  // ── one order on claims, spellings last, and one with them turned round ──

  predicate Spelled(back: bool, a: string, b: string) {
    if back then Below(b, a) else Below(a, b)
  }

  predicate LessKey(back: bool, a: Published, b: Published) {
    if a.private.number != b.private.number then a.private.number < b.private.number
    else if a.proto != b.proto then Below(a.proto, b.proto)
    else if a.public.number != b.public.number then a.public.number < b.public.number
    else if a.private.text != b.private.text then Spelled(back, a.private.text, b.private.text)
    else Spelled(back, a.public.text, b.public.text)
  }

  predicate LessClaim(back: bool, c: Claim, d: Claim) {
    if c.key != d.key then LessKey(back, c.key, d.key) else Below(c.address, d.address)
  }

  predicate LessOffer(back: bool, a: Exposed, b: Exposed) {
    if a.private.number != b.private.number then a.private.number < b.private.number
    else if a.proto != b.proto then Below(a.proto, b.proto)
    else Spelled(back, a.private.text, b.private.text)
  }

  function ByClaim(back: bool): (Claim, Claim) -> bool {
    (c, d) => LessClaim(back, c, d)
  }

  function ByOffer(back: bool): (Exposed, Exposed) -> bool {
    (o, p) => LessOffer(back, o, p)
  }

  lemma SpelledTotal(back: bool, a: string, b: string)
    ensures !Spelled(back, a, a) && (a != b ==> Spelled(back, a, b) || Spelled(back, b, a))
  {
    BelowTrichotomy(a, b);
  }

  lemma SpelledTransitive(back: bool, a: string, b: string, c: string)
    requires Spelled(back, a, b) && Spelled(back, b, c)
    ensures Spelled(back, a, c) && a != c
  {
    if back { BelowTransitive(c, b, a); } else { BelowTransitive(a, b, c); }
    BelowTrichotomy(a, c);
  }

  lemma KeyTotal(back: bool, a: Published, b: Published)
    ensures !LessKey(back, a, a) && (a != b ==> LessKey(back, a, b) || LessKey(back, b, a))
  {
    BelowTrichotomy(a.proto, b.proto);
    SpelledTotal(back, a.private.text, b.private.text);
    SpelledTotal(back, a.public.text, b.public.text);
  }

  lemma KeyTransitive(back: bool, a: Published, b: Published, c: Published)
    requires LessKey(back, a, b) && LessKey(back, b, c)
    ensures LessKey(back, a, c)
  {
    BelowTriple(a.proto, b.proto, c.proto);
    BelowTriple(b.proto, c.proto, a.proto);
    if Spelled(back, a.private.text, b.private.text) && Spelled(back, b.private.text, c.private.text) {
      SpelledTransitive(back, a.private.text, b.private.text, c.private.text);
    }
    if Spelled(back, a.public.text, b.public.text) && Spelled(back, b.public.text, c.public.text) {
      SpelledTransitive(back, a.public.text, b.public.text, c.public.text);
    }
  }

  lemma ClaimTransitive(back: bool, c: Claim, d: Claim, e: Claim)
    requires LessClaim(back, c, d) && LessClaim(back, d, e)
    ensures LessClaim(back, c, e)
  {
    KeyTotal(back, c.key, d.key);
    if c.key != d.key && d.key != e.key {
      KeyTransitive(back, c.key, d.key, e.key);
    } else if c.key == d.key && d.key == e.key {
      BelowTransitive(c.address, d.address, e.address);
    }
  }

  lemma ClaimOrder(back: bool)
    ensures TotalOrder(ByClaim(back))
  {
    forall c, d
      ensures !LessClaim(back, c, c) && (c != d ==> LessClaim(back, c, d) || LessClaim(back, d, c))
    {
      KeyTotal(back, c.key, d.key);
      BelowTrichotomy(c.address, d.address);
    }
    forall c, d, e | LessClaim(back, c, d) && LessClaim(back, d, e) ensures LessClaim(back, c, e) {
      ClaimTransitive(back, c, d, e);
    }
  }

  lemma OfferTransitive(back: bool, a: Exposed, b: Exposed, c: Exposed)
    requires LessOffer(back, a, b) && LessOffer(back, b, c)
    ensures LessOffer(back, a, c)
  {
    BelowTriple(a.proto, b.proto, c.proto);
    BelowTriple(b.proto, c.proto, a.proto);
    if Spelled(back, a.private.text, b.private.text) && Spelled(back, b.private.text, c.private.text) {
      SpelledTransitive(back, a.private.text, b.private.text, c.private.text);
    }
  }

  lemma OfferOrder(back: bool)
    ensures TotalOrder(ByOffer(back))
  {
    forall a, b
      ensures !LessOffer(back, a, a) && (a != b ==> LessOffer(back, a, b) || LessOffer(back, b, a))
    {
      BelowTrichotomy(a.proto, b.proto);
      SpelledTotal(back, a.private.text, b.private.text);
    }
    forall a, b, c | LessOffer(back, a, b) && LessOffer(back, b, c) ensures LessOffer(back, a, c) {
      OfferTransitive(back, a, b, c);
    }
  }

  // ── when the listing is determined ────────────────────────────────────

  predicate TiedOffers(o: Exposed, p: Exposed) {
    o != p && !LessExposed(o, p) && !LessExposed(p, o)
  }

  predicate TiedClaims(c: Claim, d: Claim) {
    c.key != d.key && !LessPublished(c.key, d.key) && !LessPublished(d.key, c.key)
  }

  ghost predicate OffersTie(ports: seq<Value>) {
    exists o, p :: Offered(ports, o) && Offered(ports, p) && TiedOffers(o, p)
  }

  ghost predicate ClaimsTie(ports: seq<Value>) {
    exists c, d :: Kept(ports, c) && Kept(ports, d) && TiedClaims(c, d)
  }

  /** Two ports of the list that the sort cannot tell apart and that are spelled
      differently. */
  ghost predicate Tied(ports: seq<Value>) {
    OffersTie(ports) || ClaimsTie(ports)
  }

  lemma PlainUntied(ports: seq<Value>)
    requires PlainTokens(ports)
    ensures !Tied(ports)
  {
    forall o, p | Offered(ports, o) && Offered(ports, p) ensures !TiedOffers(o, p) {
      BelowTrichotomy(o.proto, p.proto);
      if o.private.number == p.private.number {
        OneSpelling(o.private.text, p.private.text);
      }
    }
    forall c, d | Kept(ports, c) && Kept(ports, d) ensures !TiedClaims(c, d) {
      BelowTrichotomy(c.key.proto, d.key.proto);
      if c.key.private.number == d.key.private.number && c.key.public.number == d.key.public.number {
        OneSpelling(c.key.private.text, d.key.private.text);
        OneSpelling(c.key.public.text, d.key.public.text);
      }
    }
  }

  lemma ClaimsAscend(ports: seq<Value>, claims: seq<Claim>)
    requires !ClaimsTie(ports) && InOrder(claims) && forall c | c in claims :: Kept(ports, c)
    ensures Ascending(ByClaim(false), claims)
  {
    forall i, j | 0 <= i < j < |claims| ensures LessClaim(false, claims[i], claims[j]) {
      var c, d := claims[i], claims[j];
      assert Precedes(c, d) && Kept(ports, c) && Kept(ports, d);
      assert !TiedClaims(c, d);
      BelowTrichotomy(c.key.proto, d.key.proto);
    }
  }

  lemma OffersAscend(ports: seq<Value>, offers: seq<Exposed>)
    requires !OffersTie(ports) && OffersInOrder(offers) && forall o | o in offers :: Offered(ports, o)
    ensures Ascending(ByOffer(false), offers)
  {
    forall i, j | 0 <= i < j < |offers| ensures LessOffer(false, offers[i], offers[j]) {
      var o, p := offers[i], offers[j];
      assert Offered(ports, o) && Offered(ports, p);
      assert !TiedOffers(o, p);
      BelowTrichotomy(o.proto, p.proto);
    }
  }

  lemma KeptAlike(a: seq<Value>, b: seq<Value>, c: Claim)
    requires PlainTokens(a) && PlainTokens(b) && SameFigures(a, b) && Kept(a, c)
    ensures Kept(b, c)
  {
    SaysAlike(a, b, Publishes(c.key, c.address));
    if Says(b, Publishes(c.key, "0.0.0.0")) {
      SaysAlike(b, a, Publishes(c.key, "0.0.0.0"));
    }
  }

  /** Two listings of the same figures print the same lines. */
  lemma CanonicalForm(a: seq<Value>, b: seq<Value>, x: seq<string>, y: seq<string>)
    requires PlainTokens(a) && PlainTokens(b) && SameFigures(a, b)
    requires Rendered(a, x) && Rendered(b, y)
    ensures x == y
  {
    var c, o :| Lists(a, c, o) && x == Lines(c, o);
    var d, p :| Lists(b, d, p) && y == Lines(d, p);
    SameClaims(a, b, c, d);
    SameOffers(a, b, o, p);
  }

  lemma SameClaims(a: seq<Value>, b: seq<Value>, c: seq<Claim>, d: seq<Claim>)
    requires PlainTokens(a) && PlainTokens(b) && SameFigures(a, b) && InOrder(c) && InOrder(d)
    requires (forall e :: e in c <==> Kept(a, e)) && (forall e :: e in d <==> Kept(b, e))
    ensures c == d
  {
    forall e ensures e in c <==> e in d {
      if e in c { KeptAlike(a, b, e); }
      if e in d { KeptAlike(b, a, e); }
    }
    PlainUntied(a);
    PlainUntied(b);
    ClaimsAscend(a, c);
    ClaimsAscend(b, d);
    ClaimOrder(false);
    AscendingUnique(ByClaim(false), c, d);
  }

  lemma SameOffers(a: seq<Value>, b: seq<Value>, o: seq<Exposed>, p: seq<Exposed>)
    requires PlainTokens(a) && PlainTokens(b) && SameFigures(a, b)
    requires OffersInOrder(o) && OffersInOrder(p)
    requires (forall e :: e in o <==> Offered(a, e)) && (forall e :: e in p <==> Offered(b, e))
    ensures o == p
  {
    forall e ensures e in o <==> e in p {
      if e in o { SaysAlike(a, b, Exposes(e)); }
      if e in p { SaysAlike(b, a, Exposes(e)); }
    }
    PlainUntied(a);
    PlainUntied(b);
    OffersAscend(a, o);
    OffersAscend(b, p);
    OfferOrder(false);
    AscendingUnique(ByOffer(false), o, p);
  }

  /** In particular the order and the repetition of entries are not seen. */
  lemma OrderAndRepetitionUnseen(a: seq<Value>, b: seq<Value>, x: seq<string>, y: seq<string>)
    requires PlainTokens(a) && (forall entry :: entry in a <==> entry in b)
    requires Rendered(a, x) && Rendered(b, y)
    ensures x == y
  {
    CanonicalForm(a, b, x, y);
  }

  // ── and when it is not ────────────────────────────────────────────────

  lemma ByClaimLists(back: bool, claims: seq<Claim>)
    requires Ascending(ByClaim(back), claims)
    ensures InOrder(claims) && Grouped(claims)
  {
    forall i, j | 0 <= i < j < |claims| ensures Precedes(claims[i], claims[j]) {
      assert ByClaim(back)(claims[i], claims[j]);
      BelowTriple(claims[i].key.proto, claims[j].key.proto, "");
    }
    forall i, j, k | 0 <= i < j < k < |claims| && claims[i].key == claims[k].key
      ensures claims[j].key == claims[k].key
    {
      var c, d := claims[i].key, claims[j].key;
      assert ByClaim(back)(claims[i], claims[j]) && ByClaim(back)(claims[j], claims[k]);
      if c != d {
        KeyTransitive(back, c, d, c);
        KeyTotal(back, c, c);
      }
    }
  }

  lemma ByOfferLists(back: bool, offers: seq<Exposed>)
    requires Ascending(ByOffer(back), offers)
    ensures OffersInOrder(offers)
  {
    forall i, j | 0 <= i < j < |offers|
      ensures !LessExposed(offers[j], offers[i]) && offers[i] != offers[j]
    {
      assert ByOffer(back)(offers[i], offers[j]);
      BelowTriple(offers[i].proto, offers[j].proto, "");
      SpelledTotal(back, offers[i].private.text, offers[j].private.text);
    }
  }

  lemma KeysTurn(a: Published, b: Published)
    requires a != b && !LessPublished(a, b) && !LessPublished(b, a)
    ensures LessKey(false, a, b) <==> LessKey(true, b, a)
  {
    BelowTrichotomy(a.proto, b.proto);
  }

  lemma KeyOneWay(a: Published, b: Published)
    ensures !(LessKey(false, a, b) && LessKey(false, b, a))
  {
    if LessKey(false, a, b) && LessKey(false, b, a) {
      KeyTransitive(false, a, b, a);
      KeyTotal(false, a, a);
    }
  }

  /** Two listings of the claims, one each way, differ where two claims tie. */
  lemma ClaimsTurn(a: seq<Claim>, b: seq<Claim>, c: Claim, d: Claim)
    requires Ascending(ByClaim(false), a) && Ascending(ByClaim(true), b)
    requires c in a && d in a && TiedClaims(c, d)
    ensures a != b
  {
    var i :| 0 <= i < |a| && a[i] == c;
    var j :| 0 <= j < |a| && a[j] == d;
    KeysTurn(c.key, d.key);
    KeysTurn(d.key, c.key);
    KeyOneWay(c.key, d.key);
    var lo, hi := if i < j then i else j, if i < j then j else i;
    assert ByClaim(false)(a[lo], a[hi]);
    assert hi < |b| ==> ByClaim(true)(b[lo], b[hi]);
  }

  lemma OffersTurn(a: seq<Exposed>, b: seq<Exposed>, o: Exposed, p: Exposed)
    requires Ascending(ByOffer(false), a) && Ascending(ByOffer(true), b)
    requires o in a && p in a && TiedOffers(o, p)
    ensures a != b
  {
    var i :| 0 <= i < |a| && a[i] == o;
    var j :| 0 <= j < |a| && a[j] == p;
    BelowTrichotomy(o.proto, p.proto);
    BelowTriple(o.private.text, p.private.text, "");
    BelowTriple(p.private.text, o.private.text, "");
    var lo, hi := if i < j then i else j, if i < j then j else i;
    assert ByOffer(false)(a[lo], a[hi]);
    assert hi < |b| ==> ByOffer(true)(b[lo], b[hi]);
  }

  // ── tied ports print apart ────────────────────────────────────────────

  lemma LastSplit(a: string, x: string, b: string, y: string, sep: char)
    requires sep !in x && sep !in y && a + [sep] + x == b + [sep] + y
    ensures a == b && x == y
  {
    var s := a + [sep] + x;
    LastAt(a, x, sep);
    LastAt(b, y, sep);
    assert s[..|a|] == a && s[..|b|] == b && s[|a| + 1..] == x && s[|b| + 1..] == y;
  }

  lemma LastAt(a: string, x: string, sep: char)
    requires sep !in x
    ensures var s := a + [sep] + x; s[|a|] == sep && forall k | |a| < k < |s| :: s[k] != sep
  {
    var s := a + [sep] + x;
    forall k | |a| < k < |s| ensures s[k] != sep {
      assert s[k] == x[k - |a| - 1];
    }
  }

  ghost predicate Numeric(c: Claim) {
    ParseInt(c.key.private.text) == Some(c.key.private.number)
    && ParseInt(c.key.public.text) == Some(c.key.public.number)
  }

  lemma KeptNumeric(ports: seq<Value>, c: Claim)
    requires Kept(ports, c)
    ensures Numeric(c)
  {}

  lemma NoMarks(text: string)
    requires ParseInt(text).Some?
    ensures ':' !in text && '>' !in text
  {
    assert text == [text[0]] + text[1..];
  }

  /** The line without the protocol, as the two marks split it. */
  function Front(c: Claim): string {
    Host(c) + [':'] + c.key.public.text
  }

  function Host(c: Claim): string {
    if ':' in c.address then "[" + c.address + "]" else c.address
  }

  lemma LineParts(c: Claim)
    ensures ClaimLine(c) == (Front(c) + ['-'] + ['>'] + c.key.private.text) + ("/" + c.key.proto)
  {}

  lemma ClaimLineSpells(c: Claim, d: Claim)
    requires TiedClaims(c, d) && Numeric(c) && Numeric(d)
    ensures ClaimLine(c) != ClaimLine(d)
  {
    BelowTrichotomy(c.key.proto, d.key.proto);
    NoMarks(c.key.private.text);
    NoMarks(d.key.private.text);
    NoMarks(c.key.public.text);
    NoMarks(d.key.public.text);
    if ClaimLine(c) == ClaimLine(d) {
      FrontsSpell(c, d);
    }
  }

  lemma FrontsSpell(c: Claim, d: Claim)
    requires c.key.proto == d.key.proto && ClaimLine(c) == ClaimLine(d)
    requires '>' !in c.key.private.text && '>' !in d.key.private.text
    requires ':' !in c.key.public.text && ':' !in d.key.public.text
    ensures c.key.private.text == d.key.private.text && c.key.public.text == d.key.public.text
  {
    LineParts(c);
    LineParts(d);
    var tail := "/" + c.key.proto;
    SameTail(Front(c) + ['-'] + ['>'] + c.key.private.text, Front(d) + ['-'] + ['>'] + d.key.private.text, tail);
    LastSplit(Front(c) + ['-'], c.key.private.text, Front(d) + ['-'], d.key.private.text, '>');
    SameTail(Front(c), Front(d), ['-']);
    LastSplit(Host(c), c.key.public.text, Host(d), d.key.public.text, ':');
  }

  lemma SameTail(a: string, b: string, tail: string)
    requires a + tail == b + tail
    ensures a == b
  {
    assert (a + tail)[..|a|] == a && (b + tail)[..|b|] == b;
  }

  /** Listings of the same claims either are one or part at some line. */
  lemma {:induction false} ClaimLinesPart(a: seq<Claim>, b: seq<Claim>) returns (i: nat)
    requires InOrder(a) && InOrder(b) && (forall c :: c in a <==> c in b) && a != b
    requires forall c | c in a :: Numeric(c)
    ensures i < |a| && i < |b| && ClaimLine(a[i]) != ClaimLine(b[i])
  {
    HeadIn(a, b);
    HeadIn(b, a);
    var c, d := a[0], b[0];
    if c == d {
      TailsAlike(a, b);
      i := ClaimLinesPart(a[1..], b[1..]);
      i := i + 1;
    } else {
      HeadsTie(a, b);
      ClaimLineSpells(c, d);
      i := 0;
    }
  }

  lemma HeadIn(a: seq<Claim>, b: seq<Claim>)
    requires (forall c :: c in a <==> c in b) && a != b
    ensures a != [] && a[0] in b
  {
    assert b != [] ==> b[0] in b;
    assert a != [] ==> a[0] in a;
  }

  lemma HeadsTie(a: seq<Claim>, b: seq<Claim>)
    requires InOrder(a) && InOrder(b) && a != [] && b != [] && a[0] in b && b[0] in a && a[0] != b[0]
    ensures TiedClaims(a[0], b[0])
  {
    var i :| 0 <= i < |b| && b[i] == a[0];
    var j :| 0 <= j < |a| && a[j] == b[0];
    assert Precedes(b[0], b[i]) && Precedes(a[0], a[j]);
    BelowTriple(a[0].address, b[0].address, "");
  }

  lemma TailsAlike(a: seq<Claim>, b: seq<Claim>)
    requires InOrder(a) && InOrder(b) && (forall c :: c in a <==> c in b)
    requires a != [] && b != [] && a[0] == b[0]
    ensures InOrder(a[1..]) && InOrder(b[1..]) && forall c :: c in a[1..] <==> c in b[1..]
  {
    HeadOnce(a);
    HeadOnce(b);
    forall c ensures c in a[1..] <==> c in b[1..] {
      assert a == [a[0]] + a[1..] && b == [b[0]] + b[1..];
      assert c in a[1..] <==> c in a && c != a[0];
      assert c in b[1..] <==> c in b && c != b[0];
    }
  }

  lemma HeadOnce(a: seq<Claim>)
    requires InOrder(a) && a != []
    ensures a[0] !in a[1..] && InOrder(a[1..])
  {
    forall j | 0 < j < |a| ensures a[j] != a[0] {
      assert Precedes(a[0], a[j]);
      BelowTrichotomy(a[0].address, a[0].address);
    }
    forall i, j | 0 <= i < j < |a[1..]| ensures Precedes(a[1..][i], a[1..][j]) {
      assert Precedes(a[i + 1], a[j + 1]);
    }
  }

  lemma OtherClaims(ports: seq<Value>, claims: seq<Claim>, offers: seq<Exposed>)
    returns (a: seq<Claim>, b: seq<Claim>)
    requires Lists(ports, claims, offers) && ClaimsTie(ports)
    ensures Lists(ports, a, offers) && Lists(ports, b, offers) && a != b
  {
    ClaimOrder(false);
    ClaimOrder(true);
    var kept := set c | c in claims;
    a, b := Sorted(ByClaim(false), kept), Sorted(ByClaim(true), kept);
    ByClaimLists(false, a);
    ByClaimLists(true, b);
    var c, d :| Kept(ports, c) && Kept(ports, d) && TiedClaims(c, d);
    ClaimsTurn(a, b, c, d);
  }

  lemma OtherOffers(ports: seq<Value>, claims: seq<Claim>, offers: seq<Exposed>)
    returns (a: seq<Exposed>, b: seq<Exposed>)
    requires Lists(ports, claims, offers) && OffersTie(ports)
    ensures Lists(ports, claims, a) && Lists(ports, claims, b) && a != b
  {
    OfferOrder(false);
    OfferOrder(true);
    var offered := set o | o in offers;
    a, b := Sorted(ByOffer(false), offered), Sorted(ByOffer(true), offered);
    ByOfferLists(false, a);
    ByOfferLists(true, b);
    var o, p :| Offered(ports, o) && Offered(ports, p) && TiedOffers(o, p);
    OffersTurn(a, b, o, p);
  }

  /** The list has one rendering exactly when no two ports of it tie. */
  lemma RenderedOnceIff(ports: seq<Value>, x: seq<string>)
    requires Rendered(ports, x)
    ensures (forall y | Rendered(ports, y) :: y == x) <==> !Tied(ports)
  {
    var claims, offers :| Lists(ports, claims, offers) && x == Lines(claims, offers);
    if ClaimsTie(ports) {
      var a, b := OtherClaims(ports, claims, offers);
      ClaimsPrintApart(ports, a, b, offers);
      assert Rendered(ports, Lines(a, offers)) && Rendered(ports, Lines(b, offers));
    } else if OffersTie(ports) {
      var a, b := OtherOffers(ports, claims, offers);
      OffersPrintApart(ports, claims, a, b);
      assert Rendered(ports, Lines(claims, a)) && Rendered(ports, Lines(claims, b));
    } else {
      forall y | Rendered(ports, y) ensures y == x {
        UntiedOnce(ports, x, y);
      }
    }
  }

  lemma UntiedOnce(ports: seq<Value>, x: seq<string>, y: seq<string>)
    requires !Tied(ports) && Rendered(ports, x) && Rendered(ports, y)
    ensures x == y
  {
    var c, o :| Lists(ports, c, o) && x == Lines(c, o);
    var d, p :| Lists(ports, d, p) && y == Lines(d, p);
    ClaimsAscend(ports, c);
    ClaimsAscend(ports, d);
    OffersAscend(ports, o);
    OffersAscend(ports, p);
    ClaimOrder(false);
    OfferOrder(false);
    AscendingUnique(ByClaim(false), c, d);
    AscendingUnique(ByOffer(false), o, p);
  }

  lemma ClaimsPrintApart(ports: seq<Value>, a: seq<Claim>, b: seq<Claim>, offers: seq<Exposed>)
    requires Lists(ports, a, offers) && Lists(ports, b, offers) && a != b
    ensures Lines(a, offers) != Lines(b, offers)
  {
    forall c | c in a ensures Numeric(c) {
      KeptNumeric(ports, c);
    }
    var i := ClaimLinesPart(a, b);
    assert Lines(a, offers)[i] == ClaimLine(a[i]) && Lines(b, offers)[i] == ClaimLine(b[i]);
  }

  lemma OffersPrintApart(ports: seq<Value>, claims: seq<Claim>, a: seq<Exposed>, b: seq<Exposed>)
    requires Lists(ports, claims, a) && Lists(ports, claims, b) && a != b
    ensures Lines(claims, a) != Lines(claims, b)
  {
    var i := OfferLinesPart(a, b);
    var n := |claims|;
    assert Lines(claims, a)[n + i] == OfferLine(a[i]) && Lines(claims, b)[n + i] == OfferLine(b[i]);
  }

  lemma {:induction false} OfferLinesPart(a: seq<Exposed>, b: seq<Exposed>) returns (i: nat)
    requires OffersInOrder(a) && OffersInOrder(b) && (forall o :: o in a <==> o in b) && a != b
    ensures i < |a| && i < |b| && OfferLine(a[i]) != OfferLine(b[i])
  {
    assert a != [] ==> a[0] in a;
    assert b != [] ==> b[0] in b;
    if a[0] == b[0] {
      forall o ensures o in a[1..] <==> o in b[1..] {
        assert a == [a[0]] + a[1..] && b == [b[0]] + b[1..];
        assert o in a[1..] <==> o in a && o != a[0];
        assert o in b[1..] <==> o in b && o != b[0];
      }
      i := OfferLinesPart(a[1..], b[1..]);
      i := i + 1;
    } else {
      OffersTieApart(a, b);
      i := 0;
    }
  }

  lemma OffersTieApart(a: seq<Exposed>, b: seq<Exposed>)
    requires OffersInOrder(a) && OffersInOrder(b)
    requires a != [] && b != [] && a[0] in b && b[0] in a && a[0] != b[0]
    ensures OfferLine(a[0]) != OfferLine(b[0])
  {
    var i :| 0 <= i < |b| && b[i] == a[0];
    var j :| 0 <= j < |a| && a[j] == b[0];
    assert TiedOffers(a[0], b[0]);
    TiedSpellApart(a[0], b[0]);
  }

  lemma TiedSpellApart(o: Exposed, p: Exposed)
    requires TiedOffers(o, p)
    ensures OfferLine(o) != OfferLine(p)
  {
    BelowTrichotomy(o.proto, p.proto);
    if OfferLine(o) == OfferLine(p) {
      OfferLineSpells(o, p);
    }
  }

  /** Why "-0" is set apart: it reads as the same figure as "0"... */
  lemma NegativeZeroReads()
    ensures ParseInt("-0") == ParseInt("0") == Some(0) && !Plain("-0")
  {
    assert "-0"[1..] == "0" && "0"[..0] == "";
    assert Decimal("0") == 0;
  }

  /** ... and two spellings of one figure compare equal and print apart, so the
      sort may leave them in either order. */
  lemma SpellingsTie(x: Value, y: Value, o: Exposed, p: Exposed)
    requires Read(x) == Exposes(o) && Read(y) == Exposes(p)
    requires o.private.number == p.private.number && o.proto == p.proto
    requires o.private.text != p.private.text
    ensures Rendered([x, y], [OfferLine(o), OfferLine(p)])
    ensures Rendered([x, y], [OfferLine(p), OfferLine(o)])
    ensures OfferLine(o) != OfferLine(p)
  {
    BelowTrichotomy(o.proto, p.proto);
    EitherOrder([x, y], x, y, o, p);
    EitherOrder([x, y], y, x, p, o);
    if OfferLine(o) == OfferLine(p) {
      OfferLineSpells(o, p);
    }
  }

  lemma EitherOrder(ports: seq<Value>, x: Value, y: Value, o: Exposed, p: Exposed)
    requires x in ports && y in ports && forall z | z in ports :: z == x || z == y
    requires Read(x) == Exposes(o) && Read(y) == Exposes(p) && o != p && !LessExposed(p, o)
    ensures Rendered(ports, [OfferLine(o), OfferLine(p)])
  {
    assert Lists(ports, [], [o, p]);
    assert Lines([], [o, p]) == [OfferLine(o), OfferLine(p)];
  }

  lemma OfferLineSpells(o: Exposed, p: Exposed)
    requires o.proto == p.proto && OfferLine(o) == OfferLine(p)
    ensures o.private.text == p.private.text
  {
    var m, n := |o.private.text|, |p.private.text|;
    assert |OfferLine(o)| - m == |OfferLine(p)| - n;
    assert OfferLine(o)[..m] == o.private.text && OfferLine(p)[..n] == p.private.text;
  }

  /** An entry that states a container port and nothing else. */
  function Listed(text: string): Value {
    Obj([Member("PrivatePort", Number(text))])
  }

  lemma ListedReads(text: string)
    requires ParseInt(text) == Some(0)
    ensures Read(Listed(text)) == Exposes(Exposed(Port(0, text), "tcp"))
  {
    var members := [Member("PrivatePort", Number(text))];
    assert Get(members, "PrivatePort") == Some(Number(text));
    assert |"PrivatePort"| != |"Type"| && |"PrivatePort"| != |"PublicPort"|;
    assert members[1..] == [];
    assert Get(members, "Type").None? && Get(members, "PublicPort").None?;
  }

  /** The line such an entry is printed as. */
  function ExposedLine(text: string): string {
    text + "/" + "tcp" + " (exposed)"
  }

  /** Two entries whose rendering the sort leaves open. */
  lemma ZerosEitherWay()
    ensures var ports := [Listed("0"), Listed("-0")];
      && Rendered(ports, [ExposedLine("0"), ExposedLine("-0")])
      && Rendered(ports, [ExposedLine("-0"), ExposedLine("0")])
      && ExposedLine("0") != ExposedLine("-0")
  {
    NegativeZeroReads();
    ListedReads("0");
    ListedReads("-0");
    assert |"0"| != |"-0"|;
    SpellingsTie(Listed("0"), Listed("-0"), Exposed(Port(0, "0"), "tcp"), Exposed(Port(0, "-0"), "tcp"));
  }
}
