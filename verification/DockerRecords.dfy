/** From docker's documents to the records on the wire, by member names: which
    member of an entry becomes which fact of its object. */
module DockerRecords {
  import opened Options
  import opened Wire
  import opened Judge
  import P = Producer
  import opened ProducerTheory
  import opened DockerRows
  import opened RunRecords

  /** The member an entry states, if it does. */
  function At(entry: Json, key: string): Option<Json> {
    if entry.Dict? && key in entry.members then Some(entry.members[key]) else None
  }

  function Under(entry: Json, outer: string, key: string): Option<Json> {
    match At(entry, outer)
    case Some(inner) => At(inner, key)
    case None => None
  }

  /** The fact is the member as the document has it, and missing where that is
      missing or null. */
  ghost predicate Carries(facts: map<string, Json>, fact: string, member: Option<Json>) {
    if member.Some? && member.value != Null then fact in facts && facts[fact] == member.value
    else fact !in facts
  }

  ghost predicate VolumeFacts(facts: map<string, Json>, entry: Json) {
    && Carries(facts, "Driver", At(entry, "Driver"))
    && Carries(facts, "Mountpoint", At(entry, "Mountpoint"))
    && Carries(facts, "ComposeProject", Under(entry, "Labels", "com.docker.compose.project"))
    && facts.Keys <= {"Driver", "Mountpoint", "ComposeProject"}
  }

  /** The host's bridge: the name docker states; else, of a bridge with an id of
      twelve characters or more, "br-" and the first twelve. */
  function Bridge(entry: Json): Option<Json> {
    var named := Under(entry, "Options", "com.docker.network.bridge.name");
    match (named, At(entry, "Driver"), At(entry, "Id"))
    case (Some(Str(name)), driver, id) =>
      if name != "" then named else BridgeOf(driver, id)
    case (_, driver, id) => BridgeOf(driver, id)
  }

  function BridgeOf(driver: Option<Json>, id: Option<Json>): Option<Json> {
    match (driver, id)
    case (Some(Str(d)), Some(Str(n))) => if d == "bridge" && |n| >= 12 then Some(Str("br-" + n[..12])) else None
    case _ => None
  }

  ghost predicate NetworkFacts(facts: map<string, Json>, entry: Json) {
    && Carries(facts, "Driver", At(entry, "Driver"))
    && Carries(facts, "Scope", At(entry, "Scope"))
    && Carries(facts, "Internal", At(entry, "Internal"))
    && Carries(facts, "BridgeInterface", Bridge(entry))
    && Carries(facts, "ComposeProject", Under(entry, "Labels", "com.docker.compose.project"))
    && facts.Keys <= {"Driver", "Scope", "Internal", "BridgeInterface", "ComposeProject"}
  }

  /** Of distinct facts each is carried, and no other is there. */
  lemma FactCarried(passed: seq<Passed>, i: nat)
    requires DistinctNames(passed) && i < |passed|
    ensures Carries(Facts(passed), passed[i].key, passed[i].member)
  {
    FactsExact(passed, passed[i].key);
    assert Stated(passed[i].member) ==> DockerRows.Gives(passed, i, passed[i].key);
  }

  lemma OnlyPassed(passed: seq<Passed>, fact: string)
    requires DistinctNames(passed) && fact in Facts(passed)
    ensures exists i | 0 <= i < |passed| :: passed[i].key == fact
  {
    FactsExact(passed, fact);
    var i :| DockerRows.Gives(passed, i, fact);
    assert passed[i].key == fact;
  }

  lemma VolumeRow(entry: Json)
    ensures VolumeFacts(Facts(VolumePassed(entry)), entry)
  {
    var passed := VolumePassed(entry);
    NamesDistinct(Volumes, entry);
    FactCarried(passed, 0);
    FactCarried(passed, 1);
    FactCarried(passed, 2);
    forall fact | fact in Facts(passed) ensures fact in {"Driver", "Mountpoint", "ComposeProject"} {
      OnlyPassed(passed, fact);
    }
  }

  lemma NetworkRow(entry: Json)
    ensures NetworkFacts(Facts(NetworkPassed(entry)), entry)
  {
    var passed := NetworkPassed(entry);
    NamesDistinct(Networks, entry);
    assert Bridge(entry) == BridgeInterface(entry);
    FactCarried(passed, 0);
    FactCarried(passed, 1);
    FactCarried(passed, 2);
    FactCarried(passed, 3);
    FactCarried(passed, 4);
    forall fact | fact in Facts(passed)
      ensures fact in {"Driver", "Scope", "Internal", "BridgeInterface", "ComposeProject"}
    {
      OnlyPassed(passed, fact);
    }
  }

  // ── a document's rows ─────────────────────────────────────────────────

  ghost predicate FactsOfEntry(table: Table, facts: map<string, Json>, entry: Json) {
    if table.Volumes? then VolumeFacts(facts, entry) else NetworkFacts(facts, entry)
  }

  ghost predicate RowStates(table: Table, row: P.Row, entry: Json) {
    At(entry, "Name") == Some(Str(row.name)) && FactsOfEntry(table, row.facts, entry)
  }

  predicate Nameable(entry: Json) {
    At(entry, "Name").Some? && At(entry, "Name").value.Str?
  }

  ghost predicate AllStated(table: Table, rows: seq<P.Row>, entries: seq<Json>) {
    |rows| == |entries| && forall i | 0 <= i < |rows| :: RowStates(table, rows[i], entries[i])
  }

  lemma OneRow(table: Table, entry: Json)
    ensures var row := RowOf(entry, PassedBy(table, entry));
      (row.Some? <==> Nameable(entry)) && (row.Some? ==> RowStates(table, row.value, entry))
  {
    VolumeRow(entry);
    NetworkRow(entry);
  }

  predicate AllNameable(entries: seq<Json>) {
    forall i | 0 <= i < |entries| :: Nameable(entries[i])
  }

  /** Every entry has a row of its own unless one of them has no name. */
  lemma {:induction false} RowsState(table: Table, entries: seq<Json>)
    ensures RowsOf(table, entries).Some? <==> AllNameable(entries)
    ensures RowsOf(table, entries).Some? ==> AllStated(table, RowsOf(table, entries).value, entries)
  {
    if entries != [] {
      var before, entry := entries[..|entries| - 1], entries[|entries| - 1];
      assert entries == before + [entry];
      RowsState(table, before);
      OneRow(table, entry);
      NameableSnoc(before, entry);
      if RowsOf(table, entries).Some? {
        StatedSnoc(table, RowsOf(table, before).value, before, RowOf(entry, PassedBy(table, entry)).value, entry);
      }
    }
  }

  lemma NameableSnoc(before: seq<Json>, entry: Json)
    ensures AllNameable(before + [entry]) <==> AllNameable(before) && Nameable(entry)
  {
    assert (before + [entry])[|before|] == entry;
    assert forall i | 0 <= i < |before| :: (before + [entry])[i] == before[i];
  }

  lemma StatedSnoc(table: Table, rows: seq<P.Row>, before: seq<Json>, row: P.Row, entry: Json)
    requires AllStated(table, rows, before) && RowStates(table, row, entry)
    ensures AllStated(table, rows + [row], before + [entry])
  {}

  /** The entries of a document: a volumes document's "Volumes", null or missing
      being none, and a networks document itself. */
  ghost predicate Holds(table: Table, document: Json, entries: seq<Json>) {
    match table
    case Networks => document == List(entries)
    case Volumes =>
      document.Dict?
      && (At(document, "Volumes") == Some(List(entries))
          || (entries == [] && (At(document, "Volumes") == None || At(document, "Volumes") == Some(Null))))
  }

  lemma HoldsIff(table: Table, document: Json, entries: seq<Json>)
    ensures Entries(table, document) == Some(entries) <==> Holds(table, document, entries)
  {}

  /** In a completed run the objects of a collection are the entries of its
      document: in order, under their names, with their members as facts. */
  lemma EntriesTravel(src: P.Source, served: P.Catalogue, order: seq<string>, i: nat,
                      generations: map<string, nat>, table: Table, document: Json, entries: seq<Json>)
    requires Request(order, generations) && P.Complete(src, order, P.DockerAnswers(src, served)) && i < |order|
    requires order[i] in served.services && Serves(served.services[order[i]], table)
    requires src.document(served.services[order[i]].path) == P.Read(document) && Holds(table, document, entries)
    ensures var objects := In(Whole(src, order, P.DockerAnswers(src, served), generations), "object", Named(order[i]));
      && |objects| == |entries|
      && forall j | 0 <= j < |entries| ::
           EntryStates(table, objects[j], entries[j], served.services[order[i]].kind)
  {
    var c, answers := order[i], P.DockerAnswers(src, served);
    assert !answers(c).Broken?;
    HoldsIff(table, document, entries);
    RowsState(table, entries);
    var rows := RowsOf(table, entries).value;
    RowsTravel(src, order, i, answers, generations, rows, served.services[c].kind);
    var objects := In(Whole(src, order, answers, generations), "object", Named(c));
    forall j | 0 <= j < |entries| ensures EntryStates(table, objects[j], entries[j], served.services[c].kind) {
      EntryWritten(table, objects[j], c, served.services[c].kind, rows[j],
                   src.stamp(P.Total(order[..i], answers) + j), entries[j]);
    }
  }

  ghost predicate EntryStates(table: Table, r: Record, entry: Json, kind: string) {
    && "name" in r && At(entry, "Name") == Some(r["name"])
    && "facts" in r && r["facts"].Dict? && FactsOfEntry(table, r["facts"].members, entry)
    && (kind != "" ==> "type" in r && r["type"] == Str(kind))
  }

  lemma EntryWritten(table: Table, r: Record, c: string, kind: string, row: P.Row, at: Float, entry: Json)
    requires ObjectStates(r, c, kind, row, at) && RowStates(table, row, entry)
    ensures EntryStates(table, r, entry, kind)
  {}
}
