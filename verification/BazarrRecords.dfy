/** From bazarr's documents to the one record on the wire, by member names. */
module BazarrRecords {
  import opened Options
  import opened Wire
  import opened Judge
  import P = Producer
  import opened ProducerTheory
  import opened RunRecords
  import DockerRecords
  import B = Bazarr
  import Reasons

  /** The values Python takes for false. */
  predicate Falsy(v: Json) {
    v in [Null, Bool(false), Int(0), Json.Float(Finite(0.0)), Str(""), List([]), Dict(map[])]
  }

  lemma FalsyIff(v: Json)
    ensures Falsy(v) <==> !B.Truthy(v)
  {}

  /** What the status document says under "data". */
  function Said(got: B.Reading, member: string): Option<Json> {
    match got.status
    case Some(document) => DockerRecords.Under(document, "data", member)
    case None => None
  }

  /** The fact is the member as the document has it, and missing where that is
      missing or false. */
  ghost predicate Lifts(facts: map<string, Json>, fact: string, member: Option<Json>) {
    if member.Some? && !Falsy(member.value) then fact in facts && facts[fact] == member.value
    else fact !in facts
  }

  ghost predicate VersionsLifted(facts: map<string, Json>, got: B.Reading) {
    && Lifts(facts, "Version", Said(got, "bazarr_version"))
    && Lifts(facts, "SonarrVersion", Said(got, "sonarr_version"))
    && Lifts(facts, "RadarrVersion", Said(got, "radarr_version"))
    && facts.Keys <= {"Version", "SonarrVersion", "RadarrVersion", "HealthIssues", "StatusUnobservable"}
  }

  lemma LiftedFrom(got: B.Reading, i: nat)
    requires i < |B.Lifts()|
    ensures Lifts(B.LiftedFrom(got), B.Lifts()[i].fact, Said(got, B.Lifts()[i].member))
  {
    if got.status.Some? && B.StatusFacts(got.status.value).Some? {
      var data, fact := B.Member(got.status.value, "data"), B.Lifts()[i].fact;
      B.LiftsDistinct();
      B.LiftedExact(data, B.Lifts(), fact);
      FalsyIff(B.Member(data, B.Lifts()[i].member));
      assert B.Truthy(B.Member(data, B.Lifts()[i].member)) ==> B.LiftedAt(data, B.Lifts(), i, fact);
    } else {
      NothingSaid(got, B.Lifts()[i].member);
    }
  }

  lemma NothingSaid(got: B.Reading, member: string)
    requires got.status.None? || B.StatusFacts(got.status.value).None?
    ensures Said(got, member).None?
  {}

  lemma OnlyLifted(got: B.Reading, fact: string)
    requires fact in B.LiftedFrom(got)
    ensures fact in {"Version", "SonarrVersion", "RadarrVersion"}
  {
    var data := B.Member(got.status.value, "data");
    B.LiftsDistinct();
    B.LiftedExact(data, B.Lifts(), fact);
    var i :| B.LiftedAt(data, B.Lifts(), i, fact);
  }

  /** With a whole receipt the row's version facts are the members of the status
      document, each under its own name. */
  lemma RowLifts(str: Json -> string, got: B.Reading, details: B.Details)
    requires got.configMissing == []
    ensures VersionsLifted(B.InstanceFacts(str, got, details), got)
  {
    LiftedFrom(got, 0);
    LiftedFrom(got, 1);
    LiftedFrom(got, 2);
    forall fact | fact in B.LiftedFrom(got) ensures fact in {"Version", "SonarrVersion", "RadarrVersion"} {
      OnlyLifted(got, fact);
    }
  }

  /** The sentence of a health entry: its object and its issue with ": " between
      them, or the one of the two it names, bounded at 400 and scrubbed. */
  lemma SentenceOf(str: Json -> string, entry: map<string, Json>, subject: Json, issue: Json)
    requires subject == (if "object" in entry then entry["object"] else Null)
    requires issue == (if "issue" in entry then entry["issue"] else Null)
    ensures B.Sentence(str, Dict(entry)) ==
      if Falsy(subject) && Falsy(issue) then None
      else if Falsy(subject) then Some(Reasons.GoReason(str(issue), 400))
      else if Falsy(issue) then Some(Reasons.GoReason(str(subject), 400))
      else Some(Reasons.GoReason(str(subject) + ": " + str(issue), 400))
  {
    FalsyIff(subject);
    FalsyIff(issue);
  }

  /** With nothing in the way the issue list is the sentences of the health document,
      in order; an entry that names neither half is passed over. */
  lemma IssuesListed(str: Json -> string, got: B.Reading, details: B.Details, entries: seq<Json>)
    requires got.configMissing == [] && B.AfterStatus(got, details) == ""
    requires got.health.Some? && DockerRecords.At(got.health.value, "data") == Some(List(entries))
    ensures var row := B.InstanceFacts(str, got, details);
      && "HealthIssues" in row && row["HealthIssues"].List?
      && |row["HealthIssues"].items| == |B.Sentences(str, entries)|
      && forall i | 0 <= i < |B.Sentences(str, entries)| ::
           row["HealthIssues"].items[i] == Str(B.Sentences(str, entries)[i])
  {
    assert B.HealthIssues(str, got.health.value) == Some(B.Sentences(str, entries));
  }

  /** In a completed run that asks for the instance its one object states the
      instance's name and the row of what was read. */
  lemma InstanceTravels(src: P.Source, str: Json -> string, got: B.Reading, details: B.Details,
                        serving: B.Serving, order: seq<string>, i: nat, generations: map<string, nat>)
    requires Request(order, generations) && i < |order| && order[i] == serving.collection
    requires got.configMissing == []
    requires P.Complete(src, order, B.BazarrAnswers(str, B.Served(got), details, serving))
    ensures var whole := Whole(src, order, B.BazarrAnswers(str, B.Served(got), details, serving), generations);
      var objects := In(whole, "object", Named(serving.collection));
      && |objects| == 1 && "name" in objects[0] && objects[0]["name"] == Str(serving.name)
      && "facts" in objects[0] && objects[0]["facts"].Dict? && VersionsLifted(objects[0]["facts"].members, got)
      && (serving.kind != "" ==> "type" in objects[0] && objects[0]["type"] == Str(serving.kind))
  {
    var row := P.Row(serving.name, B.InstanceFacts(str, got, details));
    RowLifts(str, got, details);
    RowsTravel(src, order, i, B.BazarrAnswers(str, B.Served(got), details, serving), generations, [row],
               serving.kind);
  }
}
