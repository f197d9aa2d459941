/** bazarr's one-collection producer: the row instance.go derives, and the run
    collect.go makes of it. */
module Bazarr {
  import opened Options
  import opened Wire
  import opened Judge
  import P = Producer
  import opened ProducerTheory
  import DockerRows
  import Reasons

  // ── reading a document ────────────────────────────────────────────────

  /** `get`: a missing member and a null are one value. */
  function Member(v: Json, key: string): Json {
    if v.Dict? && key in v.members then v.members[key] else Null
  }

  /** Python's bool(). */
  predicate Truthy(v: Json) {
    match v
    case Null => false
    case Bool(b) => b
    case Int(i) => i != 0
    case Float(f) => f != Finite(0.0)
    case Str(s) => s != ""
    case List(items) => items != []
    case Dict(members) => members != map[]
  }

  /** A status member and the fact it becomes. */
  datatype Lift = Lift(fact: string, member: string)

  function Lifts(): seq<Lift> {
    [Lift("Version", "bazarr_version"), Lift("SonarrVersion", "sonarr_version"),
     Lift("RadarrVersion", "radarr_version")]
  }

  /** The members lifted so far: those that are truthy, as the document has them. */
  function Lifted(data: Json, lifts: seq<Lift>): map<string, Json> {
    if lifts == [] then map[]
    else
      var n := |lifts| - 1;
      var before, value := Lifted(data, lifts[..n]), Member(data, lifts[n].member);
      if Truthy(value) then before[lifts[n].fact := value] else before
  }

  /** `statusFacts`; None where the document has no shape to fold from. */
  function StatusFacts(document: Json): Option<map<string, Json>> {
    var data := Member(document, "data");
    if !document.Dict? then None
    else if !Truthy(data) then Some(map[])
    else if !data.Dict? then None
    else Some(Lifted(data, Lifts()))
  }

  method FoldStatus(document: Json, facts: map<string, Json>)
    returns (folded: bool, facts': map<string, Json>)
    ensures folded <==> StatusFacts(document).Some?
    ensures facts' == if folded then facts + StatusFacts(document).value else facts
  {
    if !document.Dict? {
      return false, facts;
    }
    var data := Member(document, "data");
    if !Truthy(data) {
      assert facts + map[] == facts;
      return true, facts;
    }
    if !data.Dict? {
      return false, facts;
    }
    facts' := FoldLifts(data, Lifts(), facts);
    folded := true;
  }

  method FoldLifts(data: Json, lifts: seq<Lift>, facts: map<string, Json>)
    returns (facts': map<string, Json>)
    ensures facts' == facts + Lifted(data, lifts)
  {
    facts' := facts;
    for i := 0 to |lifts|
      invariant facts' == facts + Lifted(data, lifts[..i])
    {
      assert lifts[..i + 1][..i] == lifts[..i];
      var value := Member(data, lifts[i].member);
      if Truthy(value) {
        facts' := facts'[lifts[i].fact := value];
      }
    }
    assert lifts[..|lifts|] == lifts;
  }

  // ── the app's own sentences ───────────────────────────────────────────

  const MAX_LENGTH := 400

  /** One entry's sentence; None where it names neither half. `str` is Python's. */
  function Sentence(str: Json -> string, entry: Json): Option<string> {
    var subject, issue := Member(entry, "object"), Member(entry, "issue");
    if !entry.Dict? || (!Truthy(subject) && !Truthy(issue)) then None
    else
      var line := if !Truthy(subject) then str(issue)
                  else if !Truthy(issue) then str(subject)
                  else str(subject) + ": " + str(issue);
      Some(Reasons.GoReason(line, MAX_LENGTH))
  }

  function Sentences(str: Json -> string, entries: seq<Json>): seq<string> {
    if entries == [] then []
    else
      var n := |entries| - 1;
      var last := Sentence(str, entries[n]);
      Sentences(str, entries[..n]) + (if last.Some? then [last.value] else [])
  }

  /** `healthIssues`; None where the document or its data cannot be iterated. */
  function HealthIssues(str: Json -> string, document: Json): Option<seq<string>> {
    var data := Member(document, "data");
    if !document.Dict? then None
    else if !Truthy(data) || data.Dict? || data.Str? then Some([])
    else if data.List? then Some(Sentences(str, data.items))
    else None
  }

  method ReadHealth(str: Json -> string, document: Json) returns (issues: Option<seq<string>>)
    ensures issues == HealthIssues(str, document)
  {
    if !document.Dict? {
      return None;
    }
    var data := Member(document, "data");
    if !Truthy(data) || data.Dict? || data.Str? {
      return Some([]);
    }
    if !data.List? {
      return None;
    }
    var out: seq<string> := [];
    for i := 0 to |data.items|
      invariant out == Sentences(str, data.items[..i])
    {
      assert data.items[..i + 1][..i] == data.items[..i];
      var line := Sentence(str, data.items[i]);
      if line.Some? {
        out := out + [line.value];
      }
    }
    assert data.items[..|data.items|] == data.items;
    issues := Some(out);
  }

  // ── the row ───────────────────────────────────────────────────────────

  /** What the source read: None is a document that was not. */
  datatype Reading = Reading(configMissing: seq<string>, unobservable: string,
                             status: Option<Json>, health: Option<Json>)

  /** The details an unreadable document is reported with, neither empty. */
  datatype Details = Details(status: string, health: string)

  function Texts(items: seq<string>): Json {
    List(seq(|items|, i requires 0 <= i < |items| => Str(items[i])))
  }

  /** The reading's own trouble, or that the status document could not be folded. */
  function AfterStatus(got: Reading, details: Details): string {
    if got.status.Some? && StatusFacts(got.status.value).None? then details.status else got.unobservable
  }

  function AfterHealth(str: Json -> string, got: Reading, details: Details): string {
    var trouble := AfterStatus(got, details);
    if trouble == "" && got.health.Some? && HealthIssues(str, got.health.value).None?
    then details.health else trouble
  }

  function LiftedFrom(got: Reading): map<string, Json> {
    if got.status.Some? && StatusFacts(got.status.value).Some?
    then StatusFacts(got.status.value).value else map[]
  }

  /** The published row, fact by fact. */
  function InstanceFacts(str: Json -> string, got: Reading, details: Details): map<string, Json> {
    if got.configMissing != [] then map["ConfigMissing" := Texts(got.configMissing)]
    else
      var trouble := AfterHealth(str, got, details);
      LiftedFrom(got)
      + (if AfterStatus(got, details) == "" && got.health.Some? && HealthIssues(str, got.health.value).Some?
         then map["HealthIssues" := Texts(HealthIssues(str, got.health.value).value)] else map[])
      + (if trouble != "" then map["StatusUnobservable" := Str(trouble)] else map[])
  }

  method InstanceRow(str: Json -> string, got: Reading, details: Details) returns (facts: map<string, Json>)
    ensures facts == InstanceFacts(str, got, details)
  {
    if got.configMissing != [] {
      return map["ConfigMissing" := Texts(got.configMissing)];
    }
    var unobservable;
    facts, unobservable := FoldIn(got, details);
    facts, unobservable := AddIssues(str, got, details, facts, unobservable);
    if unobservable != "" {
      facts := facts["StatusUnobservable" := Str(unobservable)];
    }
  }

  method FoldIn(got: Reading, details: Details) returns (facts: map<string, Json>, unobservable: string)
    ensures facts == LiftedFrom(got) && unobservable == AfterStatus(got, details)
  {
    facts, unobservable := map[], got.unobservable;
    if got.status.Some? {
      var folded;
      folded, facts := FoldStatus(got.status.value, facts);
      if !folded {
        unobservable := details.status;
      }
    }
  }

  method AddIssues(str: Json -> string, got: Reading, details: Details, facts: map<string, Json>,
                   unobservable: string) returns (facts': map<string, Json>, unobservable': string)
    requires unobservable == AfterStatus(got, details)
    ensures unobservable' == AfterHealth(str, got, details)
    ensures facts' == facts
      + (if unobservable == "" && got.health.Some? && HealthIssues(str, got.health.value).Some?
         then map["HealthIssues" := Texts(HealthIssues(str, got.health.value).value)] else map[])
  {
    facts', unobservable' := facts, unobservable;
    if unobservable == "" && got.health.Some? {
      var issues := ReadHealth(str, got.health.value);
      if issues.None? {
        unobservable' := details.health;
      } else {
        facts' := facts'["HealthIssues" := Texts(issues.value)];
      }
    }
  }

  // ── what a row says ───────────────────────────────────────────────────

  lemma {:induction false} LiftedExact(data: Json, lifts: seq<Lift>, fact: string)
    requires forall i, j | 0 <= i < j < |lifts| :: lifts[i].fact != lifts[j].fact
    ensures fact in Lifted(data, lifts) <==> exists i :: LiftedAt(data, lifts, i, fact)
    ensures forall i | LiftedAt(data, lifts, i, fact) ::
      Lifted(data, lifts)[fact] == Member(data, lifts[i].member)
  {
    if lifts != [] {
      var n := |lifts| - 1;
      LiftedExact(data, lifts[..n], fact);
      forall i ensures LiftedAt(data, lifts[..n], i, fact) <==> LiftedAt(data, lifts, i, fact) && i < n {}
      if fact in Lifted(data, lifts) && fact in Lifted(data, lifts[..n]) {
        var i :| LiftedAt(data, lifts[..n], i, fact);
        assert LiftedAt(data, lifts, i, fact);
      } else if fact in Lifted(data, lifts) {
        assert LiftedAt(data, lifts, n, fact);
      }
    }
  }

  /** The i-th lift publishes this fact: its member is truthy. */
  predicate LiftedAt(data: Json, lifts: seq<Lift>, i: int, fact: string) {
    0 <= i < |lifts| && lifts[i].fact == fact && Truthy(Member(data, lifts[i].member))
  }

  lemma LiftsDistinct()
    ensures forall i, j | 0 <= i < j < |Lifts()| :: Lifts()[i].fact != Lifts()[j].fact
    ensures forall i | 0 <= i < |Lifts()| :: !Reserved(Lifts()[i].fact)
  {}

  /** The facts that are not lifted from the status document. */
  predicate Reserved(fact: string) {
    fact == "HealthIssues" || fact == "StatusUnobservable" || fact == "ConfigMissing"
  }

  /** Of the facts lifted from a reading each is truthy, and none is one of the
      other three. */
  lemma LiftedFacts(got: Reading, fact: string)
    requires fact in LiftedFrom(got)
    ensures Truthy(LiftedFrom(got)[fact])
    ensures !Reserved(fact)
  {
    LiftsDistinct();
    var data := Member(got.status.value, "data");
    LiftedExact(data, Lifts(), fact);
    var i :| LiftedAt(data, Lifts(), i, fact);
  }

  /** An incomplete receipt publishes only what is missing; otherwise the issue
      list and the trouble exclude each other, and no version fact is empty. */
  lemma RowArms(str: Json -> string, got: Reading, details: Details)
    ensures var row := InstanceFacts(str, got, details);
      && ("ConfigMissing" in row <==> got.configMissing != [])
      && ("ConfigMissing" in row ==> row.Keys == {"ConfigMissing"})
      && !("HealthIssues" in row && "StatusUnobservable" in row)
      && ("StatusUnobservable" in row <==> got.configMissing == [] && AfterHealth(str, got, details) != "")
      && (forall fact | fact in row ::
            fact == "HealthIssues" || fact == "ConfigMissing" || Truthy(row[fact]))
  {
    var row, lifted := InstanceFacts(str, got, details), LiftedFrom(got);
    forall fact | fact in lifted
      ensures Truthy(lifted[fact])
      ensures !Reserved(fact)
    {
      LiftedFacts(got, fact);
    }
  }

  /** What is passed through from the status document has no null inside it. */
  ghost predicate CleanReading(got: Reading) {
    got.configMissing == [] ==> DockerRows.FactsFree(LiftedFrom(got))
  }

  /** The lifted members, said of the document. */
  lemma CleanReadingIff(got: Reading)
    ensures CleanReading(got) <==>
      (got.configMissing == [] && got.status.Some? && StatusFacts(got.status.value).Some? ==>
         forall i | 0 <= i < |Lifts()| ::
           CleanLift(Member(Member(got.status.value, "data"), Lifts()[i].member)))
  {
    if got.status.Some? && StatusFacts(got.status.value).Some? {
      var data, lifted := Member(got.status.value, "data"), LiftedFrom(got);
      LiftsDistinct();
      if !Truthy(data) {
        forall i | 0 <= i < |Lifts()| ensures !Truthy(Member(data, Lifts()[i].member)) {}
      } else {
        forall fact
          ensures fact in lifted <==> exists i :: LiftedAt(data, Lifts(), i, fact)
          ensures forall i | LiftedAt(data, Lifts(), i, fact) :: lifted[fact] == Member(data, Lifts()[i].member)
        {
          LiftedExact(data, Lifts(), fact);
        }
        forall i | 0 <= i < |Lifts()| && !CleanLift(Member(data, Lifts()[i].member))
          ensures HasNull(lifted[Lifts()[i].fact]) && Lifts()[i].fact in lifted
        {
          assert LiftedAt(data, Lifts(), i, Lifts()[i].fact);
        }
        forall fact | fact in lifted && HasNull(lifted[fact])
          ensures exists i | 0 <= i < |Lifts()| :: !CleanLift(Member(data, Lifts()[i].member))
        {
          var i :| LiftedAt(data, Lifts(), i, fact);
          assert !CleanLift(Member(data, Lifts()[i].member));
        }
      }
    }
  }

  predicate CleanLift(value: Json) {
    Truthy(value) ==> !HasNull(value)
  }

  lemma TextsNullFree(items: seq<string>)
    ensures !HasNull(Texts(items))
  {}

  lemma RowCleanIff(str: Json -> string, got: Reading, details: Details)
    ensures DockerRows.FactsFree(InstanceFacts(str, got, details)) <==> CleanReading(got)
  {
    var row, lifted := InstanceFacts(str, got, details), LiftedFrom(got);
    TextsNullFree(got.configMissing);
    if got.health.Some? && HealthIssues(str, got.health.value).Some? {
      TextsNullFree(HealthIssues(str, got.health.value).value);
    }
    if got.configMissing == [] {
      forall fact | fact in lifted ensures fact in row && row[fact] == lifted[fact] {
        LiftedFacts(got, fact);
      }
      forall fact | fact in row && fact !in lifted ensures !HasNull(row[fact]) {}
    }
  }

  // ── the run ───────────────────────────────────────────────────────────

  /** The instance as the source answered for it. */
  datatype Instance = Served(got: Reading) | Refused(reason: string, detail: string) | Failed

  /** The collection's name, and the detail another name is declined with. */
  datatype Serving = Serving(collection: string, refusal: string, kind: string, name: string)

  function BazarrAnswer(str: Json -> string, instance: Instance, details: Details, serving: Serving,
                        c: string): P.Answer {
    if c != serving.collection then P.Unserved(serving.refusal)
    else
      match instance
      case Refused(reason, detail) => P.Declined(reason, detail)
      case Failed => P.Broken
      case Served(got) => P.Rows([P.Row(serving.name, InstanceFacts(str, got, details))], serving.kind)
  }

  function BazarrAnswers(str: Json -> string, instance: Instance, details: Details, serving: Serving)
    : string -> P.Answer
  {
    c => BazarrAnswer(str, instance, details, serving, c)
  }

  lemma OneRow(src: P.Source, c: string, kind: string, row: P.Row, generation: nat, objects: nat)
    ensures P.Section(src, c, P.Rows([row], kind), generation, objects)
      == [P.Object(c, kind, row, src.stamp(objects))] + [P.Commit(c, generation, 1)]
  {}

  method CollectInstance(out: P.Emitter, src: P.Source, str: Json -> string, instance: Instance,
                         details: Details, serving: Serving, generation: nat, objects: nat)
    returns (code: P.Exit, next: nat)
    requires out.Valid()
    modifies out
    ensures out.Valid()
    ensures var answer := BazarrAnswer(str, instance, details, serving, serving.collection);
      && out.attempted == old(out.attempted) + P.Section(src, serving.collection, answer, generation, objects)
      && (code == P.EXIT_OK <==> !answer.Broken?)
      && next == objects + P.Count(answer)
  {
    match instance
    case Refused(reason, detail) =>
      P.EmitRefusal(out, serving.collection, reason, detail, generation);
      return P.EXIT_OK, objects;
    case Failed =>
      return P.EXIT_RUNTIME, objects;
    case Served(got) =>
      var facts := InstanceRow(str, got, details);
      var row := P.Row(serving.name, facts);
      OneRow(src, serving.collection, serving.kind, row, generation, objects);
      out.Emit(P.Object(serving.collection, serving.kind, row, src.stamp(objects)));
      out.Emit(P.Commit(serving.collection, generation, 1));
      return P.EXIT_OK, objects + 1;
  }

  method Walk(out: P.Emitter, src: P.Source, str: Json -> string, instance: Instance, details: Details,
              serving: Serving, order: seq<string>, generations: map<string, nat>) returns (code: P.Exit)
    requires forall c | c in order :: c in generations
    requires out.Valid()
    modifies out
    ensures out.Valid()
    ensures out.attempted == old(out.attempted)
      + P.Body(src, order, BazarrAnswers(str, instance, details, serving), generations)
    ensures code == P.EXIT_OK <==> P.AllAnswered(order, BazarrAnswers(str, instance, details, serving))
  {
    ghost var answers := BazarrAnswers(str, instance, details, serving);
    var objects := 0;
    for i := 0 to |order|
      invariant out.Valid()
      invariant out.attempted == old(out.attempted) + P.Body(src, order[..i], answers, generations)
      invariant P.AllAnswered(order[..i], answers) && objects == P.Total(order[..i], answers)
    {
      P.BodySnoc(src, order, i, answers, generations, old(out.attempted));
      if order[i] != serving.collection {
        out.Emit(P.Decline(order[i], "unsupported", serving.refusal));
        continue;
      }
      code, objects := CollectInstance(out, src, str, instance, details, serving, generations[order[i]], objects);
      if code != P.EXIT_OK {
        P.BodyStops(src, order, i + 1, answers, generations);
        return;
      }
    }
    assert order[..|order|] == order;
    code := P.EXIT_OK;
  }

  /** bazarr's `collect`, under the same contract as docker's. */
  method Collect(src: P.Source, str: Json -> string, instance: Instance, details: Details,
                 serving: Serving, order: seq<string>, generations: map<string, nat>, takes: nat -> bool)
    returns (code: P.Exit, written: seq<P.Line>)
    requires forall c | c in order :: c in generations
    ensures var answers := BazarrAnswers(str, instance, details, serving);
      var attempted := P.Attempted(src, order, answers, generations);
      && written == P.Delivered(attempted, takes)
      && (code == P.EXIT_OK <==> P.Complete(src, order, answers) && written == attempted)
  {
    if src.bootId.None? || src.batch.None? {
      return P.EXIT_RUNTIME, [];
    }
    var out := new P.Emitter(takes);
    code := RunBatch(out, src, str, instance, details, serving, order, generations);
    assert out.attempted == P.Attempted(src, order, BazarrAnswers(str, instance, details, serving), generations);
    return code, out.written;
  }

  /** begin, the collections, end. */
  method RunBatch(out: P.Emitter, src: P.Source, str: Json -> string, instance: Instance, details: Details,
                  serving: Serving, order: seq<string>, generations: map<string, nat>) returns (code: P.Exit)
    requires src.bootId.Some? && src.batch.Some? && forall c | c in order :: c in generations
    requires out.Valid() && out.attempted == []
    modifies out
    ensures out.Valid()
    ensures var answers := BazarrAnswers(str, instance, details, serving);
      && out.attempted == [P.BeginOf(src, generations)] + P.Body(src, order, answers, generations)
         + (if P.AllAnswered(order, answers) then [P.EndOf(src)] else [])
      && (code == P.EXIT_OK <==> P.AllAnswered(order, answers) && !out.err)
  {
    out.Emit(P.BeginOf(src, generations));
    assert out.attempted == [P.BeginOf(src, generations)];
    code := Walk(out, src, str, instance, details, serving, order, generations);
    if code == P.EXIT_OK {
      out.Emit(P.EndOf(src));
      code := if out.err then P.EXIT_RUNTIME else P.EXIT_OK;
    }
  }

  /** A completed run is accepted exactly when its clocks and header are lawful
      and, where the instance was asked for and read, no member lifted from the
      status document has a null inside. */
  lemma BazarrRunVerdict(src: P.Source, str: Json -> string, instance: Instance, details: Details,
                         serving: Serving, order: seq<string>, generations: map<string, nat>)
    requires Request(order, generations)
    requires P.Complete(src, order, BazarrAnswers(str, instance, details, serving))
    ensures var answers := BazarrAnswers(str, instance, details, serving);
      Accepts(Whole(src, order, answers, generations), Some(generations)) <==>
        DockerRows.RunLawful(src, order, answers)
        && (serving.collection in order && instance.Served? ==> CleanReading(instance.got))
  {
    var answers := BazarrAnswers(str, instance, details, serving);
    CompletedVerdict(src, order, answers, generations);
    forall i | 0 <= i < |order|
      ensures SectionLawful(src, answers(order[i]), P.Total(order[..i], answers)) <==>
        (DockerRows.ClockLawful(src, answers(order[i]), P.Total(order[..i], answers))
         && (order[i] == serving.collection && instance.Served? ==> CleanReading(instance.got)))
    {
      OneSectionIff(src, str, instance, details, serving, order[i], P.Total(order[..i], answers));
    }
  }

  lemma OneSectionIff(src: P.Source, str: Json -> string, instance: Instance, details: Details,
                      serving: Serving, c: string, start: nat)
    ensures var answer := BazarrAnswer(str, instance, details, serving, c);
      SectionLawful(src, answer, start) <==>
        (DockerRows.ClockLawful(src, answer, start)
         && (c == serving.collection && instance.Served? ==> CleanReading(instance.got)))
  {
    var answer := BazarrAnswer(str, instance, details, serving, c);
    if answer.Rows? {
      RowCleanIff(str, instance.got, details);
      assert answer.rows[0] in answer.rows;
      assert forall row | row in answer.rows :: row == answer.rows[0];
    }
  }
}
