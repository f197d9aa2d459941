/** The emitting side of the collector contract: the Go `emitter`, `collect`
    and the per-collection walks of the docker and bazarr collectors. Only the
    record kinds these collectors emit exist here. */
module Producer {
  import opened Options
  import opened Wire

  datatype Row = Row(name: string, facts: map<string, Json>)

  /** The Go record structs. begin's request is its batch, and its instance is null. */
  datatype Line =
    | Begin(batch: string, declaration: string, bootId: string, timens: int,
            generations: map<string, nat>)
    | Object(collection: string, kind: string, row: Row, at: Float)
    | Decline(collection: string, reason: string, detail: string)
    | Commit(collection: string, generation: nat, objects: nat)
    | End(batch: string, cpu: Float, wall: Float)

  // ── the source seam ───────────────────────────────────────────────────

  datatype Document = Read(document: Json) | Refused(reason: string, detail: string) | Failed

  /** One served collection: the API path, the row builder and the row type. */
  datatype Service = Service(path: string, rows: Json -> Option<seq<Row>>, kind: string)

  /** The served table, and the constant detail a name outside it is declined with. */
  datatype Catalogue = Catalogue(services: map<string, Service>, refusal: string)

  /** Every reading a run can take. None is an error the source returned. */
  datatype Source = Source(
    bootId: Option<string>,
    batch: Option<string>,
    declaration: string,
    timens: int,
    document: string -> Document,
    stamp: nat -> Float,
    costs: (Float, Float))

  /** What asking for one collection came to. */
  datatype Answer =
    | Unserved(detail: string)
    | Declined(reason: string, detail: string)
    | Broken
    | Rows(rows: seq<Row>, kind: string)

  // ── the stream a run tries to write ───────────────────────────────────

  function Objects(src: Source, c: string, kind: string, rows: seq<Row>, start: nat): seq<Line> {
    seq(|rows|, i requires 0 <= i < |rows| => Object(c, kind, rows[i], src.stamp(start + i)))
  }

  function Section(src: Source, c: string, answer: Answer, generation: nat, start: nat)
    : seq<Line>
  {
    match answer
    case Unserved(detail) => [Decline(c, "unsupported", detail)]
    case Declined(reason, detail) =>
      [Decline(c, reason, detail)]
      + (if reason == "absent" then [Commit(c, generation, 0)] else [])
    case Broken => []
    case Rows(rows, kind) =>
      Objects(src, c, kind, rows, start) + [Commit(c, generation, |rows|)]
  }

  function Count(answer: Answer): nat {
    if answer.Rows? then |answer.rows| else 0
  }

  /** The objects emitted before the collection `order` ends with. */
  function Total(order: seq<string>, answers: string -> Answer): nat {
    if order == [] then 0
    else Total(order[..|order| - 1], answers) + Count(answers(order[|order| - 1]))
  }

  predicate AllAnswered(order: seq<string>, answers: string -> Answer) {
    forall c | c in order :: !answers(c).Broken?
  }

  /** The sections of the answered collections, up to the first broken one. */
  function Body(src: Source, order: seq<string>, answers: string -> Answer,
                generations: map<string, nat>): seq<Line>
    requires forall c | c in order :: c in generations
  {
    if order == [] then []
    else
      var before, c := order[..|order| - 1], order[|order| - 1];
      Body(src, before, answers, generations)
      + (if AllAnswered(before, answers)
         then Section(src, c, answers(c), generations[c], Total(before, answers)) else [])
  }

  function BeginOf(src: Source, generations: map<string, nat>): Line
    requires src.bootId.Some? && src.batch.Some?
  {
    Begin(src.batch.value, src.declaration, src.bootId.value, src.timens, generations)
  }

  function EndOf(src: Source): Line
    requires src.batch.Some?
  {
    End(src.batch.value, src.costs.0, src.costs.1)
  }

  predicate Complete(src: Source, order: seq<string>, answers: string -> Answer) {
    src.bootId.Some? && src.batch.Some? && AllAnswered(order, answers)
  }

  /** The records a run hands its encoder, in order. */
  function Attempted(src: Source, order: seq<string>, answers: string -> Answer,
                     generations: map<string, nat>): seq<Line>
    requires forall c | c in order :: c in generations
  {
    if src.bootId.None? || src.batch.None? then []
    else
      [BeginOf(src, generations)] + Body(src, order, answers, generations)
      + (if AllAnswered(order, answers) then [EndOf(src)] else [])
  }

  // ── the writer ────────────────────────────────────────────────────────

  /** encoding/json refuses a record holding a float that is not finite. */
  predicate Encodable(r: Line) {
    match r
    case Object(_, _, _, at) => at.Finite?
    case End(_, cpu, wall) => cpu.Finite? && wall.Finite?
    case _ => true
  }

  /** The lines that arrive when the writer takes its i-th line iff takes(i):
      everything up to the first refusal and nothing after it. */
  function Delivered(attempted: seq<Line>, takes: nat -> bool): (out: seq<Line>)
    ensures out <= attempted
  {
    if attempted == [] then []
    else
      var n := |attempted| - 1;
      var before := Delivered(attempted[..n], takes);
      if |before| == n && Encodable(attempted[n]) && takes(n) then attempted else before
  }

  lemma DeliveredGrows(attempted: seq<Line>, r: Line, takes: nat -> bool)
    ensures var before, after := Delivered(attempted, takes), Delivered(attempted + [r], takes);
      after == if |before| == |attempted| && Encodable(r) && takes(|before|)
               then before + [r] else before
  {
    var grown := attempted + [r];
    assert grown[..|attempted|] == attempted && grown[|attempted|] == r;
    var before := Delivered(attempted, takes);
    if |before| == |attempted| {
      assert before == attempted;
    }
  }

  class Emitter {
    const takes: nat -> bool
    var written: seq<Line>
    var err: bool
    ghost var attempted: seq<Line>

    ghost predicate Valid()
      reads this
    {
      written == Delivered(attempted, takes) && (err <==> |written| < |attempted|)
    }

    constructor (takes: nat -> bool)
      ensures Valid() && attempted == [] && this.takes == takes
    {
      this.takes := takes;
      written, err, attempted := [], false, [];
    }

    method Emit(r: Line)
      requires Valid()
      modifies this
      ensures Valid() && attempted == old(attempted) + [r]
    {
      if !err {
        if Encodable(r) && takes(|written|) {
          written := written + [r];
        } else {
          err := true;
        }
      }
      DeliveredGrows(attempted, r, takes);
      attempted := attempted + [r];
    }
  }

  // ── docker ────────────────────────────────────────────────────────────

  /** `exitOK` and `exitRuntime` */
  type Exit = code: int | code == 0 || code == 1

  const EXIT_OK: Exit := 0
  const EXIT_RUNTIME: Exit := 1

  /** How docker answers for a collection of the request. */
  function DockerAnswer(src: Source, served: Catalogue, c: string): Answer {
    if c in served.services then ServiceAnswer(src, served.services[c]) else Unserved(served.refusal)
  }

  function ServiceAnswer(src: Source, service: Service): Answer {
    match src.document(service.path)
    case Refused(reason, detail) => Declined(reason, detail)
    case Failed => Broken
    case Read(document) =>
      match service.rows(document)
      case None => Broken
      case Some(rows) => Rows(rows, service.kind)
  }

  function DockerAnswers(src: Source, served: Catalogue): string -> Answer {
    c => DockerAnswer(src, served, c)
  }

  method CollectOne(out: Emitter, src: Source, c: string, service: Service,
                    generation: nat, objects: nat) returns (code: Exit, next: nat)
    requires out.Valid()
    modifies out
    ensures out.Valid()
    ensures var answer := ServiceAnswer(src, service);
      && out.attempted == old(out.attempted) + Section(src, c, answer, generation, objects)
      && (code == EXIT_OK <==> !answer.Broken?)
      && next == objects + Count(answer)
  {
    next := objects;
    var document := src.document(service.path);
    if document.Refused? {
      EmitRefusal(out, c, document.reason, document.detail, generation);
      return EXIT_OK, next;
    }
    if document.Failed? {
      return EXIT_RUNTIME, next;
    }
    var built := service.rows(document.document);
    if built.None? {
      return EXIT_RUNTIME, next;
    }
    next := EmitRows(out, src, c, service.kind, built.value, objects);
    out.Emit(Commit(c, generation, |built.value|));
    return EXIT_OK, next;
  }

  method EmitRefusal(out: Emitter, c: string, reason: string, detail: string, generation: nat)
    requires out.Valid()
    modifies out
    ensures out.Valid()
    ensures out.attempted == old(out.attempted)
      + ([Decline(c, reason, detail)] + (if reason == "absent" then [Commit(c, generation, 0)] else []))
  {
    out.Emit(Decline(c, reason, detail));
    if reason == "absent" {
      out.Emit(Commit(c, generation, 0));
    }
  }

  method EmitRows(out: Emitter, src: Source, c: string, kind: string, rows: seq<Row>, objects: nat)
    returns (next: nat)
    requires out.Valid()
    modifies out
    ensures out.Valid() && next == objects + |rows|
    ensures out.attempted == old(out.attempted) + Objects(src, c, kind, rows, objects)
  {
    next := objects;
    for i := 0 to |rows|
      invariant out.Valid() && next == objects + i
      invariant out.attempted == old(out.attempted) + Objects(src, c, kind, rows[..i], objects)
    {
      ObjectsSnoc(src, c, kind, rows, i, objects, out.attempted, old(out.attempted));
      out.Emit(Object(c, kind, rows[i], src.stamp(next)));
      next := next + 1;
    }
    assert rows[..|rows|] == rows;
  }

  lemma ObjectsSnoc(src: Source, c: string, kind: string, rows: seq<Row>, i: nat, objects: nat,
                    done: seq<Line>, before: seq<Line>)
    requires i < |rows| && done == before + Objects(src, c, kind, rows[..i], objects)
    ensures done + [Object(c, kind, rows[i], src.stamp(objects + i))]
      == before + Objects(src, c, kind, rows[..i + 1], objects)
  {
    assert Objects(src, c, kind, rows[..i + 1], objects)
      == Objects(src, c, kind, rows[..i], objects) + [Object(c, kind, rows[i], src.stamp(objects + i))];
  }

  lemma BodySnoc(src: Source, order: seq<string>, i: nat, answers: string -> Answer,
                 generations: map<string, nat>, before: seq<Line>)
    requires i < |order| && forall c | c in order :: c in generations
    requires AllAnswered(order[..i], answers)
    ensures before + Body(src, order[..i + 1], answers, generations)
      == before + Body(src, order[..i], answers, generations)
         + Section(src, order[i], answers(order[i]), generations[order[i]], Total(order[..i], answers))
    ensures Total(order[..i + 1], answers) == Total(order[..i], answers) + Count(answers(order[i]))
    ensures AllAnswered(order[..i + 1], answers) <==> !answers(order[i]).Broken?
  {
    assert order[..i + 1][..i] == order[..i];
    assert order[..i + 1] == order[..i] + [order[i]];
    var body := Body(src, order[..i], answers, generations);
    var section :=
      Section(src, order[i], answers(order[i]), generations[order[i]], Total(order[..i], answers));
    assert (before + body) + section == before + (body + section);
  }

  lemma BodyStops(src: Source, order: seq<string>, i: nat, answers: string -> Answer,
                  generations: map<string, nat>)
    requires i <= |order| && forall c | c in order :: c in generations
    requires !AllAnswered(order[..i], answers)
    ensures Body(src, order, answers, generations) == Body(src, order[..i], answers, generations)
    ensures !AllAnswered(order, answers)
    decreases |order|
  {
    if i < |order| {
      var before := order[..|order| - 1];
      assert before[..i] == order[..i];
      BodyStops(src, before, i, answers, generations);
    } else {
      assert order[..i] == order;
    }
  }

  /** docker `collect`: the lines its writer received are the delivered part of
      the attempted stream, and it returns 0 exactly when nothing is missing. */
  method Collect(src: Source, served: Catalogue, order: seq<string>,
                 generations: map<string, nat>, takes: nat -> bool)
    returns (code: Exit, written: seq<Line>)
    requires forall c | c in order :: c in generations
    ensures var answers := DockerAnswers(src, served);
      var attempted := Attempted(src, order, answers, generations);
      && written == Delivered(attempted, takes)
      && (code == EXIT_OK <==> Complete(src, order, answers) && written == attempted)
  {
    ghost var answers := DockerAnswers(src, served);
    if src.bootId.None? || src.batch.None? {
      return EXIT_RUNTIME, [];
    }
    var out := new Emitter(takes);
    out.Emit(BeginOf(src, generations));
    code := Walk(out, src, served, order, generations);
    if code == EXIT_OK {
      out.Emit(EndOf(src));
      code := if out.err then EXIT_RUNTIME else EXIT_OK;
    }
    assert out.attempted == Attempted(src, order, answers, generations);
    return code, out.written;
  }

  method Walk(out: Emitter, src: Source, served: Catalogue, order: seq<string>,
              generations: map<string, nat>) returns (code: Exit)
    requires forall c | c in order :: c in generations
    requires out.Valid()
    modifies out
    ensures out.Valid()
    ensures out.attempted
      == old(out.attempted) + Body(src, order, DockerAnswers(src, served), generations)
    ensures code == EXIT_OK <==> AllAnswered(order, DockerAnswers(src, served))
  {
    ghost var answers := DockerAnswers(src, served);
    var objects := 0;
    for i := 0 to |order|
      invariant out.Valid()
      invariant out.attempted == old(out.attempted) + Body(src, order[..i], answers, generations)
      invariant AllAnswered(order[..i], answers) && objects == Total(order[..i], answers)
    {
      BodySnoc(src, order, i, answers, generations, old(out.attempted));
      var c := order[i];
      code, objects := Serve(out, src, served, c, generations[c], objects);
      if code != EXIT_OK {
        BodyStops(src, order, i + 1, answers, generations);
        return;
      }
    }
    assert order[..|order|] == order;
    code := EXIT_OK;
  }

  method Serve(out: Emitter, src: Source, served: Catalogue, c: string,
               generation: nat, objects: nat) returns (code: Exit, next: nat)
    requires out.Valid()
    modifies out
    ensures out.Valid()
    ensures var answer := DockerAnswer(src, served, c);
      && out.attempted == old(out.attempted) + Section(src, c, answer, generation, objects)
      && (code == EXIT_OK <==> !answer.Broken?)
      && next == objects + Count(answer)
  {
    if c !in served.services {
      out.Emit(Decline(c, "unsupported", served.refusal));
      return EXIT_OK, objects;
    }
    code, next := CollectOne(out, src, c, served.services[c], generation, objects);
  }
}
