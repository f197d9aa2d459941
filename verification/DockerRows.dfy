/** docker's row builders for volumes and networks, volumes.go and networks.go:
    which documents put a null on a row, and so which completed runs the judge
    refuses. */
module DockerRows {
  import opened Options
  import opened Wire
  import opened Judge
  import P = Producer
  import opened ProducerTheory

  // ── reading a document ────────────────────────────────────────────────

  /** `value.get`, nil-safe both ways. */
  function Member(v: Option<Json>, key: string): Option<Json> {
    if v.Some? && v.value.Dict? && key in v.value.members then Some(v.value.members[key]) else None
  }

  predicate Stated(v: Option<Json>) {
    v.Some? && !v.value.Null?
  }

  /** `value.set` on a new object: a nil or null member is dropped. */
  function Put(facts: map<string, Json>, key: string, member: Option<Json>): map<string, Json> {
    if Stated(member) then facts[key := member.value] else facts
  }

  const COMPOSE := "com.docker.compose.project"
  const BRIDGE := "com.docker.network.bridge.name"

  function Project(entry: Json): Option<Json> {
    Member(Member(Some(entry), "Labels"), COMPOSE)
  }

  // ── one row ───────────────────────────────────────────────────────────

  /** The members a row passes through as the document has them. */
  datatype Passed = Passed(key: string, member: Option<Json>)

  function Facts(passed: seq<Passed>): map<string, Json> {
    if passed == [] then map[]
    else
      var n := |passed| - 1;
      Put(Facts(passed[..n]), passed[n].key, passed[n].member)
  }

  function VolumePassed(volume: Json): seq<Passed> {
    [Passed("Driver", Member(Some(volume), "Driver")),
     Passed("Mountpoint", Member(Some(volume), "Mountpoint")),
     Passed("ComposeProject", Project(volume))]
  }

  function BridgeInterface(network: Json): Option<Json> {
    var named := Member(Member(Some(network), "Options"), BRIDGE);
    var driver, id := Member(Some(network), "Driver"), Member(Some(network), "Id");
    if named.Some? && named.value.Str? && named.value.s != "" then named
    else if driver != Some(Str("bridge")) then None
    else if id.None? || !id.value.Str? || |id.value.s| < 12 then None
    else Some(Str("br-" + id.value.s[..12]))
  }

  function NetworkPassed(network: Json): seq<Passed> {
    [Passed("Driver", Member(Some(network), "Driver")),
     Passed("Scope", Member(Some(network), "Scope")),
     Passed("Internal", Member(Some(network), "Internal")),
     Passed("BridgeInterface", BridgeInterface(network)),
     Passed("ComposeProject", Project(network))]
  }

  function RowOf(entry: Json, passed: seq<Passed>): Option<P.Row> {
    var name := Member(Some(entry), "Name");
    if name.None? || !name.value.Str? then None else Some(P.Row(name.value.s, Facts(passed)))
  }

  // ── the row builders ──────────────────────────────────────────────────

  datatype Table = Volumes | Networks

  function PassedBy(table: Table, entry: Json): seq<Passed> {
    if table.Volumes? then VolumePassed(entry) else NetworkPassed(entry)
  }

  /** A row an entry, in the daemon's order; one without a name fails them all. */
  function RowsOf(table: Table, entries: seq<Json>): Option<seq<P.Row>> {
    if entries == [] then Some([])
    else
      var n := |entries| - 1;
      var before, row := RowsOf(table, entries[..n]), RowOf(entries[n], PassedBy(table, entries[n]));
      if before.None? || row.None? then None else Some(before.value + [row.value])
  }

  /** The entries of a document: a volumes document may have none, a networks
      document is its list. None is a document of another shape. */
  function Entries(table: Table, document: Json): Option<seq<Json>> {
    if table.Networks? then if document.List? then Some(document.items) else None
    else if !document.Dict? then None
    else
      var list := Member(Some(document), "Volumes");
      if !Stated(list) then Some([])
      else if list.value.List? then Some(list.value.items)
      else None
  }

  function Rows(table: Table, document: Json): Option<seq<P.Row>> {
    var entries := Entries(table, document);
    if entries.None? then None else RowsOf(table, entries.value)
  }

  method BuildRows(table: Table, document: Json) returns (rows: Option<seq<P.Row>>)
    ensures rows == Rows(table, document)
  {
    var entries := Entries(table, document);
    if entries.None? {
      return None;
    }
    var out: seq<P.Row> := [];
    for i := 0 to |entries.value|
      invariant RowsOf(table, entries.value[..i]) == Some(out)
    {
      NextRow(table, entries.value, i);
      var row := RowOf(entries.value[i], PassedBy(table, entries.value[i]));
      if row.None? {
        NamelessFails(table, entries.value, i);
        return None;
      }
      out := out + [row.value];
    }
    assert entries.value[..|entries.value|] == entries.value;
    rows := Some(out);
  }

  lemma NextRow(table: Table, entries: seq<Json>, i: nat)
    requires i < |entries| && RowsOf(table, entries[..i]).Some?
    ensures var row := RowOf(entries[i], PassedBy(table, entries[i]));
      row.Some? ==> RowsOf(table, entries[..i + 1]) == Some(RowsOf(table, entries[..i]).value + [row.value])
  {
    assert entries[..i + 1][..i] == entries[..i];
  }

  lemma {:induction false} NamelessFails(table: Table, entries: seq<Json>, i: nat)
    requires i < |entries| && RowOf(entries[i], PassedBy(table, entries[i])).None?
    ensures RowsOf(table, entries).None?
  {
    var n := |entries| - 1;
    if i < n {
      NamelessFails(table, entries[..n], i);
    }
  }

  // ── nulls on rows ─────────────────────────────────────────────────────

  ghost predicate FactsFree(facts: map<string, Json>) {
    forall fact | fact in facts :: !HasNull(facts[fact])
  }

  ghost predicate NullFree(row: P.Row) {
    FactsFree(row.facts)
  }

  predicate PassesClean(passed: Passed) {
    Stated(passed.member) ==> !HasNull(passed.member.value)
  }

  predicate AllPassClean(passed: seq<Passed>) {
    forall i | 0 <= i < |passed| :: PassesClean(passed[i])
  }

  /** What is passed through is null at the top, where it is dropped, or nowhere. */
  predicate CleanEntry(table: Table, entry: Json) {
    AllPassClean(PassedBy(table, entry))
  }

  ghost predicate DistinctNames(passed: seq<Passed>) {
    forall i, j | 0 <= i < j < |passed| :: passed[i].key != passed[j].key
  }

  lemma {:induction false} FactsExact(passed: seq<Passed>, key: string)
    requires DistinctNames(passed)
    ensures key in Facts(passed) <==> exists i :: Gives(passed, i, key)
    ensures forall i | Gives(passed, i, key) :: Facts(passed)[key] == passed[i].member.value
  {
    if passed != [] {
      var n := |passed| - 1;
      FactsExact(passed[..n], key);
      forall i ensures Gives(passed[..n], i, key) <==> Gives(passed, i, key) && i < n {}
      if key in Facts(passed) && key in Facts(passed[..n]) {
        var i :| Gives(passed[..n], i, key);
        assert Gives(passed, i, key);
      } else if key in Facts(passed) {
        assert Gives(passed, n, key);
      }
    }
  }

  predicate Gives(passed: seq<Passed>, i: int, key: string) {
    0 <= i < |passed| && passed[i].key == key && Stated(passed[i].member)
  }

  lemma FactsCleanIff(passed: seq<Passed>)
    requires DistinctNames(passed)
    ensures FactsFree(Facts(passed)) <==> AllPassClean(passed)
  {
    forall key ensures key in Facts(passed) <==> exists i :: Gives(passed, i, key) {
      FactsExact(passed, key);
    }
    if FactsFree(Facts(passed)) {
      forall i | 0 <= i < |passed| ensures PassesClean(passed[i]) {
        FactsExact(passed, passed[i].key);
        assert Stated(passed[i].member) ==> Gives(passed, i, passed[i].key);
      }
    } else {
      var fact :| fact in Facts(passed) && HasNull(Facts(passed)[fact]);
      FactsExact(passed, fact);
      var i :| Gives(passed, i, fact);
      assert !PassesClean(passed[i]);
    }
  }

  lemma NamesDistinct(table: Table, entry: Json)
    ensures DistinctNames(PassedBy(table, entry))
  {}

  ghost predicate AllNullFree(rows: seq<P.Row>) {
    forall i | 0 <= i < |rows| :: NullFree(rows[i])
  }

  predicate AllClean(table: Table, entries: seq<Json>) {
    forall i | 0 <= i < |entries| :: CleanEntry(table, entries[i])
  }

  lemma RowCleanIff(table: Table, entry: Json)
    requires RowOf(entry, PassedBy(table, entry)).Some?
    ensures NullFree(RowOf(entry, PassedBy(table, entry)).value) <==> CleanEntry(table, entry)
  {
    NamesDistinct(table, entry);
    FactsCleanIff(PassedBy(table, entry));
  }

  lemma {:induction false} RowsCleanIff(table: Table, entries: seq<Json>)
    requires RowsOf(table, entries).Some?
    ensures AllNullFree(RowsOf(table, entries).value) <==> AllClean(table, entries)
  {
    if entries != [] {
      var before, entry := entries[..|entries| - 1], entries[|entries| - 1];
      assert entries == before + [entry];
      RowsGrow(table, before, entry);
      RowsCleanIff(table, before);
      RowCleanIff(table, entry);
      NullFreeGrows(RowsOf(table, before).value, RowOf(entry, PassedBy(table, entry)).value);
      CleanGrows(table, before, entry);
    }
  }

  lemma RowsGrow(table: Table, before: seq<Json>, entry: Json)
    requires RowsOf(table, before + [entry]).Some?
    ensures RowsOf(table, before).Some? && RowOf(entry, PassedBy(table, entry)).Some?
    ensures RowsOf(table, before + [entry]).value
      == RowsOf(table, before).value + [RowOf(entry, PassedBy(table, entry)).value]
  {
    assert (before + [entry])[..|before|] == before;
  }

  lemma NullFreeGrows(rows: seq<P.Row>, row: P.Row)
    ensures AllNullFree(rows + [row]) <==> AllNullFree(rows) && NullFree(row)
  {
    assert (rows + [row])[|rows|] == row;
    assert forall i | 0 <= i < |rows| :: (rows + [row])[i] == rows[i];
  }

  lemma CleanGrows(table: Table, entries: seq<Json>, entry: Json)
    ensures AllClean(table, entries + [entry]) <==> AllClean(table, entries) && CleanEntry(table, entry)
  {
    assert (entries + [entry])[|entries|] == entry;
    assert forall i | 0 <= i < |entries| :: (entries + [entry])[i] == entries[i];
  }

  predicate CleanDocument(table: Table, document: Json) {
    var entries := Entries(table, document);
    entries.Some? ==> AllClean(table, entries.value)
  }

  /** A service builds the rows of one of the two tables. */
  ghost predicate Serves(service: P.Service, table: Table) {
    forall document :: service.rows(document) == Rows(table, document)
  }

  // ── which completed runs are accepted ─────────────────────────────────

  ghost predicate ClockLawful(src: P.Source, answer: P.Answer, start: nat) {
    answer.Rows? ==>
      && (forall i | start <= i < start + |answer.rows| :: StampLawful(src.stamp(i)))
      && (forall i, j | start <= i < j < start + |answer.rows| ::
            StampLawful(src.stamp(i)) && StampLawful(src.stamp(j)) ==>
              src.stamp(i).r <= src.stamp(j).r)
  }

  /** The document one collection was answered from is clean. */
  ghost predicate AnsweredClean(src: P.Source, served: P.Catalogue, tables: map<string, Table>, c: string)
    requires c in served.services ==> c in tables
  {
    c in served.services && src.document(served.services[c].path).Read? ==>
      CleanDocument(tables[c], src.document(served.services[c].path).document)
  }

  lemma SectionLawfulIff(src: P.Source, served: P.Catalogue, tables: map<string, Table>, c: string,
                         start: nat)
    requires c in served.services ==> c in tables && Serves(served.services[c], tables[c])
    requires !P.DockerAnswer(src, served, c).Broken?
    ensures var answer := P.DockerAnswer(src, served, c);
      SectionLawful(src, answer, start) <==>
        ClockLawful(src, answer, start) && AnsweredClean(src, served, tables, c)
  {
    var answer := P.DockerAnswer(src, served, c);
    if answer.Rows? {
      var document := src.document(served.services[c].path).document;
      assert served.services[c].rows(document) == Rows(tables[c], document);
      RowsCleanIff(tables[c], Entries(tables[c], document).value);
      assert AllNullFree(answer.rows) <==> forall row | row in answer.rows :: NullFree(row);
    }
  }

  /** The readings of a run that are its clocks and its header. */
  ghost predicate RunLawful(src: P.Source, order: seq<string>, answers: string -> P.Answer)
    requires src.bootId.Some? && src.batch.Some?
  {
    && BootIdOk(Str(src.bootId.value)) && DeclarationOk(Str(src.declaration))
    && src.batch.value != ""
    && CostsLawful(src.costs, P.Total(order, answers))
    && forall i | 0 <= i < |order| :: ClockLawful(src, answers(order[i]), P.Total(order[..i], answers))
  }

  ghost predicate DocumentsClean(src: P.Source, served: P.Catalogue, tables: map<string, Table>,
                                 order: seq<string>)
    requires forall s | s in order && s in served.services :: s in tables
  {
    forall i | 0 <= i < |order| :: AnsweredClean(src, served, tables, order[i])
  }

  /** Of completed volume and network runs with lawful clocks and costs, the judge
      accepts exactly those whose documents pass no nested null through: dropping
      a null at the top of a fact does not keep one inside it off the wire. */
  lemma DockerRunVerdict(src: P.Source, served: P.Catalogue, tables: map<string, Table>,
                         order: seq<string>, generations: map<string, nat>)
    requires forall s | s in order && s in served.services ::
               s in tables && Serves(served.services[s], tables[s])
    requires Request(order, generations) && P.Complete(src, order, P.DockerAnswers(src, served))
    ensures Accepts(Whole(src, order, P.DockerAnswers(src, served), generations), Some(generations)) <==>
      RunLawful(src, order, P.DockerAnswers(src, served)) && DocumentsClean(src, served, tables, order)
  {
    CompletedVerdict(src, order, P.DockerAnswers(src, served), generations);
    ReadingsSplit(src, served, tables, order);
  }

  lemma ReadingsSplit(src: P.Source, served: P.Catalogue, tables: map<string, Table>, order: seq<string>)
    requires forall s | s in order && s in served.services ::
               s in tables && Serves(served.services[s], tables[s])
    requires P.Complete(src, order, P.DockerAnswers(src, served))
    ensures ReadingsLawful(src, order, P.DockerAnswers(src, served)) <==>
      RunLawful(src, order, P.DockerAnswers(src, served)) && DocumentsClean(src, served, tables, order)
  {
    var answers := P.DockerAnswers(src, served);
    forall i | 0 <= i < |order|
      ensures SectionLawful(src, answers(order[i]), P.Total(order[..i], answers)) <==>
        (ClockLawful(src, answers(order[i]), P.Total(order[..i], answers))
         && AnsweredClean(src, served, tables, order[i]))
    {
      assert order[i] in order;
      assert !answers(order[i]).Broken? && answers(order[i]) == P.DockerAnswer(src, served, order[i]);
      SectionLawfulIff(src, served, tables, order[i], P.Total(order[..i], answers));
    }
  }
}
