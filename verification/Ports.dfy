/** The Ports member of a container listing, rendered as one stable list:
    containers.go `portMappings`. */
module Ports {
  import opened Options
  import opened Decimals
  import opened Document
  import opened Sorting

  // ── one entry ─────────────────────────────────────────────────────────

  /** A port: its figure, and the token the document spelled. */
  datatype Port = Port(number: int, text: string)
  datatype Fault = NotANumber | NotWhole(text: string)
  datatype Stating = Unstated | Stated(port: Port) | Refused(fault: Fault)

  function PortNumber(port: Option<Value>): Stating {
    match port
    case None => Unstated
    case Some(Null) => Unstated
    case Some(Number(text)) =>
      var n := ParseInt(text);
      if n.Some? then Stated(Port(n.value, text)) else Refused(NotWhole(text))
    case Some(_) => Refused(NotANumber)
  }

  datatype Published = Published(private: Port, proto: string, public: Port)
  datatype Exposed = Exposed(private: Port, proto: string)
  datatype Reading = Skipped | Publishes(key: Published, address: string) | Exposes(offer: Exposed)
    | Broken(fault: Fault)

  function Of(entry: Value, key: string): Option<Value> {
    if entry.Obj? then Get(entry.members, key) else None
  }

  function TextOr(v: Option<Value>, fallback: string): string {
    if v.Some? && v.value.Text? && v.value.s != "" then v.value.s else fallback
  }

  function Read(entry: Value): Reading {
    match PortNumber(Of(entry, "PrivatePort"))
    case Unstated => Skipped
    case Refused(fault) => Broken(fault)
    case Stated(private) =>
      var proto := TextOr(Of(entry, "Type"), "tcp");
      match PortNumber(Of(entry, "PublicPort"))
      case Refused(fault) => Broken(fault)
      case Unstated => Exposes(Exposed(private, proto))
      case Stated(public) =>
        Publishes(Published(private, proto, public), TextOr(Of(entry, "IP"), "0.0.0.0"))
  }

  // ── what a list of entries claims ─────────────────────────────────────

  datatype Claim = Claim(key: Published, address: string)

  ghost predicate Says(ports: seq<Value>, reading: Reading) {
    exists entry | entry in ports :: Read(entry) == reading
  }

  ghost predicate Claimed(ports: seq<Value>, c: Claim) {
    Says(ports, Publishes(c.key, c.address))
  }

  /** A claim on "::" goes when the same binding is claimed on 0.0.0.0. */
  ghost predicate Kept(ports: seq<Value>, c: Claim) {
    Claimed(ports, c) && !(c.address == "::" && Claimed(ports, Claim(c.key, "0.0.0.0")))
  }

  ghost predicate Offered(ports: seq<Value>, offer: Exposed) {
    Says(ports, Exposes(offer))
  }

  predicate LessPublished(a: Published, b: Published) {
    if a.private.number != b.private.number then a.private.number < b.private.number
    else if a.proto != b.proto then Below(a.proto, b.proto)
    else a.public.number < b.public.number
  }

  predicate LessExposed(a: Exposed, b: Exposed) {
    if a.private.number != b.private.number then a.private.number < b.private.number
    else Below(a.proto, b.proto)
  }

  /** Keys in numeric order, one key's addresses in text order, nothing twice. */
  ghost predicate InOrder(claims: seq<Claim>) {
    forall i, j | 0 <= i < j < |claims| :: Precedes(claims[i], claims[j])
  }

  predicate Precedes(c: Claim, d: Claim) {
    !LessPublished(d.key, c.key) && (c.key == d.key ==> Below(c.address, d.address))
  }

  /** One key's claims stand together. */
  ghost predicate Grouped(claims: seq<Claim>) {
    forall i, j, k | 0 <= i < j < k < |claims| && claims[i].key == claims[k].key ::
      claims[j].key == claims[k].key
  }

  ghost predicate OffersInOrder(offers: seq<Exposed>) {
    forall i, j | 0 <= i < j < |offers| :: !LessExposed(offers[j], offers[i]) && offers[i] != offers[j]
  }

  /** The listing: each kept claim and each offered port, once and in order. */
  ghost predicate Lists(ports: seq<Value>, claims: seq<Claim>, offers: seq<Exposed>) {
    && (forall c :: c in claims <==> Kept(ports, c))
    && InOrder(claims) && Grouped(claims)
    && (forall o :: o in offers <==> Offered(ports, o))
    && OffersInOrder(offers)
  }

  function ClaimLine(c: Claim): string {
    var host := if ':' in c.address then "[" + c.address + "]" else c.address;
    host + ":" + c.key.public.text + "->" + c.key.private.text + "/" + c.key.proto
  }

  function OfferLine(o: Exposed): string {
    o.private.text + "/" + o.proto + " (exposed)"
  }

  function Lines(claims: seq<Claim>, offers: seq<Exposed>): seq<string> {
    seq(|claims|, i requires 0 <= i < |claims| => ClaimLine(claims[i]))
    + seq(|offers|, i requires 0 <= i < |offers| => OfferLine(offers[i]))
  }

  // ── the loops ─────────────────────────────────────────────────────────

  datatype Outcome = Mappings(lines: seq<string>) | Failed(fault: Fault)

  ghost predicate Rendered(ports: seq<Value>, lines: seq<string>) {
    exists claims, offers :: Lists(ports, claims, offers) && lines == Lines(claims, offers)
  }

  lemma SaysGrows(ports: seq<Value>, e: Value, r: Reading)
    ensures Says(ports + [e], r) <==> Says(ports, r) || r == Read(e)
  {
    if Says(ports, r) {
      var x :| x in ports && Read(x) == r;
      assert x in ports + [e];
    }
    if r == Read(e) {
      assert e in ports + [e];
    }
  }

  /** The published map and its key order hold the claims of the entries read. */
  ghost predicate HoldsClaims(ports: seq<Value>, published: map<Published, set<string>>,
                              order: seq<Published>) {
    && (forall k :: k in order <==> k in published)
    && Distinct(order)
    && (forall k, a :: k in published && a in published[k] <==> Claimed(ports, Claim(k, a)))
  }

  ghost predicate HoldsOffers(ports: seq<Value>, order: seq<Exposed>) {
    && (forall o :: o in order <==> Offered(ports, o))
    && Distinct(order)
  }

  /** Reading one entry into the maps. */
  method ReadOne(ghost ports: seq<Value>, entry: Value, published: map<Published, set<string>>,
                 publishedOrder: seq<Published>, exposedOrder: seq<Exposed>)
    returns (published': map<Published, set<string>>, publishedOrder': seq<Published>,
             exposedOrder': seq<Exposed>)
    requires HoldsClaims(ports, published, publishedOrder) && HoldsOffers(ports, exposedOrder)
    requires !Read(entry).Broken?
    ensures HoldsClaims(ports + [entry], published', publishedOrder')
    ensures HoldsOffers(ports + [entry], exposedOrder')
  {
    published', publishedOrder', exposedOrder' := published, publishedOrder, exposedOrder;
    match Read(entry)
    case Skipped =>
      ClaimsGrow(ports, entry);
      OffersGrow(ports, entry);
    case Exposes(offer) =>
      ClaimsGrow(ports, entry);
      OffersGrow(ports, entry);
      if offer !in exposedOrder {
        exposedOrder' := exposedOrder + [offer];
      }
    case Publishes(key, address) =>
      if key !in published' {
        published' := published'[key := {}];
        publishedOrder' := publishedOrder' + [key];
      }
      published' := published'[key := published'[key] + {address}];
      ClaimsGrow(ports, entry);
      OffersGrow(ports, entry);
  }

  lemma ClaimsGrow(ports: seq<Value>, entry: Value)
    ensures forall k, a :: Claimed(ports + [entry], Claim(k, a)) <==>
      Claimed(ports, Claim(k, a)) || Publishes(k, a) == Read(entry)
  {
    forall k, a
      ensures Claimed(ports + [entry], Claim(k, a)) <==>
        Claimed(ports, Claim(k, a)) || Publishes(k, a) == Read(entry)
    {
      SaysGrows(ports, entry, Publishes(k, a));
    }
  }

  lemma OffersGrow(ports: seq<Value>, entry: Value)
    ensures forall o :: Offered(ports + [entry], o) <==> Offered(ports, o) || Exposes(o) == Read(entry)
  {
    forall o
      ensures Offered(ports + [entry], o) <==> Offered(ports, o) || Exposes(o) == Read(entry)
    {
      SaysGrows(ports, entry, Exposes(o));
    }
  }

  lemma PublishedOrder()
    ensures WeakOrder(LessPublished)
  {
    forall x, y ensures LessPublished(x, y) ==> !LessPublished(y, x) {
      BelowTriple(x.proto, y.proto, x.proto);
    }
    forall x, y, z | LessPublished(x, y) ensures LessPublished(x, z) || LessPublished(z, y) {
      BelowTriple(x.proto, y.proto, z.proto);
      BelowTrichotomy(x.proto, z.proto);
      BelowTrichotomy(z.proto, y.proto);
    }
  }

  lemma ExposedOrder()
    ensures WeakOrder(LessExposed)
  {
    forall x, y ensures LessExposed(x, y) ==> !LessExposed(y, x) {
      BelowTriple(x.proto, y.proto, x.proto);
    }
    forall x, y, z | LessExposed(x, y) ensures LessExposed(x, z) || LessExposed(z, y) {
      BelowTriple(x.proto, y.proto, z.proto);
    }
  }

  /** One binding's claims, its addresses in order. */
  function OnHosts(key: Published, hosts: seq<string>): (claims: seq<Claim>)
    ensures |claims| == |hosts| && forall i | 0 <= i < |hosts| :: claims[i] == Claim(key, hosts[i])
  {
    seq(|hosts|, i requires 0 <= i < |hosts| => Claim(key, hosts[i]))
  }

  method RenderHosts(key: Published, hosts: seq<string>) returns (lines: seq<string>)
    ensures lines == Lines(OnHosts(key, hosts), [])
  {
    lines := [];
    for h := 0 to |hosts|
      invariant |lines| == h
      invariant forall i | 0 <= i < h :: lines[i] == ClaimLine(Claim(key, hosts[i]))
    {
      var ip := hosts[h];
      var host := if ':' in ip then "[" + ip + "]" else ip;
      lines := lines + [host + ":" + key.public.text + "->" + key.private.text + "/" + key.proto];
    }
  }

  lemma OrderJoins(claims: seq<Claim>, key: Published, hosts: seq<string>)
    requires InOrder(claims) && Grouped(claims) && Ascending(Below, hosts)
    requires forall c | c in claims :: c.key != key && !LessPublished(key, c.key)
    requires !LessPublished(key, key)
    ensures InOrder(claims + OnHosts(key, hosts)) && Grouped(claims + OnHosts(key, hosts))
  {
    GroupsJoin(claims, key, hosts);
    var all := claims + OnHosts(key, hosts);
    forall i, j | 0 <= i < j < |all| ensures Precedes(all[i], all[j]) {
      if i < |claims| {
        assert claims[i] in claims;
      }
    }
  }

  lemma GroupsJoin(claims: seq<Claim>, key: Published, hosts: seq<string>)
    requires Grouped(claims) && forall c | c in claims :: c.key != key
    ensures Grouped(claims + OnHosts(key, hosts))
  {
    var all := claims + OnHosts(key, hosts);
    forall i | 0 <= i < |all| ensures all[i].key == key <==> i >= |claims| {
      if i < |claims| {
        assert claims[i] in claims;
      }
    }
  }

  lemma LinesJoin(a: seq<Claim>, b: seq<Claim>, offers: seq<Exposed>)
    ensures Lines(a, []) + Lines(b, offers) == Lines(a + b, offers)
  {}

  /** What the outer loop has rendered: the claims of the keys done so far. */
  ghost predicate Through(ports: seq<Value>, keys: seq<Published>, claims: seq<Claim>) {
    InOrder(claims) && Grouped(claims) && forall c :: c in claims <==> c.key in keys && Kept(ports, c)
  }

  lemma ThroughNext(ports: seq<Value>, sorted: seq<Published>, k: nat, claims: seq<Claim>,
                    hosts: seq<string>)
    requires k < |sorted| && Settled(LessPublished, sorted) && Through(ports, sorted[..k], claims)
    requires Ascending(Below, hosts) && forall a :: a in hosts <==> Kept(ports, Claim(sorted[k], a))
    ensures Through(ports, sorted[..k + 1], claims + OnHosts(sorted[k], hosts))
  {
    var key := sorted[k];
    var more := OnHosts(key, hosts);
    forall c | c in claims ensures c.key != key && !LessPublished(key, c.key) {
      var i :| 0 <= i < k && sorted[..k][i] == c.key;
      assert sorted[i] == c.key;
    }
    OrderJoins(claims, key, hosts);
    assert sorted[..k + 1] == sorted[..k] + [key];
    forall c ensures c in more <==> c.key == key && Kept(ports, c) {
      assert c.key == key ==> c == Claim(key, c.address);
      if c.key == key && c.address in hosts {
        var i :| 0 <= i < |hosts| && hosts[i] == c.address;
        assert more[i] == c;
      }
    }
  }

  /** The lines of the published bindings, key by key. */
  method RenderPublished(ghost ports: seq<Value>, published: map<Published, set<string>>,
                         order: seq<Published>)
    returns (lines: seq<string>, ghost claims: seq<Claim>)
    requires HoldsClaims(ports, published, order)
    ensures lines == Lines(claims, [])
    ensures InOrder(claims) && Grouped(claims) && forall c :: c in claims <==> Kept(ports, c)
  {
    PublishedOrder();
    BelowIsTotal();
    var sorted := SortSlice(LessPublished, order);
    lines, claims := [], [];
    for k := 0 to |sorted|
      invariant lines == Lines(claims, [])
      invariant Through(ports, sorted[..k], claims)
    {
      var key := sorted[k];
      assert key in sorted;
      var addresses := published[key];
      if "0.0.0.0" in addresses {
        addresses := addresses - {"::"};
      }
      assert forall a :: a in addresses <==> Kept(ports, Claim(key, a));
      var hosts := SortSet(Below, addresses);
      var more := RenderHosts(key, hosts);
      ThroughNext(ports, sorted, k, claims, hosts);
      LinesJoin(claims, OnHosts(key, hosts), []);
      lines := lines + more;
      claims := claims + OnHosts(key, hosts);
    }
    assert sorted[..|sorted|] == sorted;
    forall c ensures c in claims <==> Kept(ports, c) {
      assert Kept(ports, c) ==> c.address in published[c.key];
    }
  }

  method RenderExposed(ghost ports: seq<Value>, order: seq<Exposed>)
    returns (lines: seq<string>, offers: seq<Exposed>)
    requires HoldsOffers(ports, order)
    ensures lines == Lines([], offers)
    ensures OffersInOrder(offers) && forall o :: o in offers <==> Offered(ports, o)
  {
    ExposedOrder();
    offers := SortSlice(LessExposed, order);
    lines := [];
    for k := 0 to |offers|
      invariant |lines| == k && forall i | 0 <= i < k :: lines[i] == OfferLine(offers[i])
    {
      lines := lines + [offers[k].private.text + "/" + offers[k].proto + " (exposed)"];
    }
  }

  predicate Sound(ports: seq<Value>) {
    forall i | 0 <= i < |ports| :: !Read(ports[i]).Broken?
  }

  /** Not an array: nothing. A port that is no whole number: the first such
      fault. Otherwise every kept claim and every offered port, once, in order. */
  method PortMappings(ports: Option<Value>) returns (out: Outcome)
    ensures ports.None? || !ports.value.Arr? ==> out == Mappings([])
    ensures ports.Some? && ports.value.Arr? ==>
      match out
      case Failed(fault) => exists i | 0 <= i < |ports.value.items| ::
        Sound(ports.value.items[..i]) && Read(ports.value.items[i]) == Broken(fault)
      case Mappings(lines) => Sound(ports.value.items) && Rendered(ports.value.items, lines)
  {
    if ports.None? || !ports.value.Arr? {
      return Mappings([]);
    }
    var items := ports.value.items;
    var published: map<Published, set<string>> := map[];
    var publishedOrder, exposedOrder := [], [];
    for n := 0 to |items|
      invariant Sound(items[..n])
      invariant HoldsClaims(items[..n], published, publishedOrder)
      invariant HoldsOffers(items[..n], exposedOrder)
    {
      assert items[..n + 1] == items[..n] + [items[n]];
      if Read(items[n]).Broken? {
        return Failed(Read(items[n]).fault);
      }
      published, publishedOrder, exposedOrder :=
        ReadOne(items[..n], items[n], published, publishedOrder, exposedOrder);
    }
    assert items[..|items|] == items;
    var bindings, claims := RenderPublished(items, published, publishedOrder);
    var exposures, offers := RenderExposed(items, exposedOrder);
    LinesJoin(claims, [], offers);
    assert claims + [] == claims;
    assert Lists(items, claims, offers) && bindings + exposures == Lines(claims, offers);
    out := Mappings(bindings + exposures);
  }
}
