/** What a completed run writes, record by record and member by member: each row
    under its own name, and no member but those the contract names. */
module RunRecords {
  import opened Options
  import opened Wire
  import opened Judge
  import P = Producer
  import opened ProducerTheory

  // ── one record ────────────────────────────────────────────────────────

  ghost predicate ObjectStates(r: Record, c: string, kind: string, row: P.Row, at: Float) {
    && r.Keys == {"record", "collection", "name", "facts", "at"} + (if kind == "" then {} else {"type"})
    && r["record"] == Str("object") && r["collection"] == Str(c) && r["name"] == Str(row.name)
    && r["facts"] == Dict(row.facts) && (kind != "" ==> r["type"] == Str(kind))
    && (at.Finite? ==> Numeric(r["at"]) == Some(at.r))
  }

  ghost predicate DeclineStates(r: Record, c: string, reason: string, detail: string) {
    r == map["record" := Str("decline"), "collection" := Str(c), "reason" := Str(reason),
             "detail" := Str(detail)]
  }

  ghost predicate CommitStates(r: Record, c: string, generation: nat, objects: nat) {
    r == map["record" := Str("commit"), "collection" := Str(c), "generation" := Int(generation),
             "objects" := Int(objects), "assertions" := Int(0), "unobservable" := Int(0)]
  }

  lemma ObjectWritten(c: string, kind: string, row: P.Row, at: Float)
    ensures ObjectStates(ToWire(P.Object(c, kind, row, at)), c, kind, row, at)
  {
    if at.Finite? {
      NumberReading(at);
    }
  }

  lemma DeclineWritten(c: string, reason: string, detail: string)
    ensures DeclineStates(ToWire(P.Decline(c, reason, detail)), c, reason, detail)
  {}

  lemma CommitWritten(c: string, generation: nat, objects: nat)
    ensures CommitStates(ToWire(P.Commit(c, generation, objects)), c, generation, objects)
  {}

  // ── one collection of a run ───────────────────────────────────────────

  /** Each row's record in its place, the stamps those of the run's clock. */
  ghost predicate RowsStated(objects: seq<Record>, src: P.Source, c: string, kind: string, rows: seq<P.Row>,
                             start: nat) {
    |objects| == |rows|
    && forall j | 0 <= j < |rows| :: ObjectStates(objects[j], c, kind, rows[j], src.stamp(start + j))
  }

  lemma ObjectsWritten(src: P.Source, c: string, kind: string, rows: seq<P.Row>, start: nat)
    ensures RowsStated(OnWire(P.Objects(src, c, kind, rows, start)), src, c, kind, rows, start)
  {
    var objects := OnWire(P.Objects(src, c, kind, rows, start));
    forall j | 0 <= j < |rows| ensures ObjectStates(objects[j], c, kind, rows[j], src.stamp(start + j)) {
      RowWritten(src, c, kind, rows, start, j);
    }
  }

  lemma RowWritten(src: P.Source, c: string, kind: string, rows: seq<P.Row>, start: nat, j: nat)
    requires j < |rows|
    ensures ObjectStates(OnWire(P.Objects(src, c, kind, rows, start))[j], c, kind, rows[j], src.stamp(start + j))
  {
    WireAt(P.Objects(src, c, kind, rows, start), j);
    ObjectWritten(c, kind, rows[j], src.stamp(start + j));
  }

  lemma WireAt(lines: seq<P.Line>, j: nat)
    requires j < |lines|
    ensures OnWire(lines)[j] == ToWire(lines[j])
  {}

  ghost predicate Committed(commits: seq<Record>, c: string, generation: nat, objects: nat) {
    |commits| == 1 && CommitStates(commits[0], c, generation, objects)
  }

  /** The collection's rows, each under its own name and kind, in order, and how
      many there were. */
  lemma RowsTravel(src: P.Source, order: seq<string>, i: nat, answers: string -> P.Answer,
                   generations: map<string, nat>, rows: seq<P.Row>, kind: string)
    requires Request(order, generations) && P.Complete(src, order, answers) && i < |order|
    requires answers(order[i]) == P.Rows(rows, kind)
    ensures var whole, c := Whole(src, order, answers, generations), order[i];
      && RowsStated(In(whole, "object", Named(c)), src, c, kind, rows, P.Total(order[..i], answers))
      && Committed(In(whole, "commit", Named(c)), c, generations[c], |rows|)
      && In(whole, "decline", Named(c)) == []
  {
    var c, start := order[i], P.Total(order[..i], answers);
    Travels(src, order, i, answers, generations);
    ObjectsWritten(src, c, kind, rows, start);
    CommitWritten(c, generations[c], |rows|);
  }

  /** What the judge finds under a collection is what its section holds. */
  lemma Travels(src: P.Source, order: seq<string>, i: nat, answers: string -> P.Answer,
                generations: map<string, nat>)
    requires Request(order, generations) && P.Complete(src, order, answers) && i < |order|
    ensures var whole, c := Whole(src, order, answers, generations), order[i];
      && In(whole, "object", Named(c))
           == (if answers(c).Rows?
               then OnWire(P.Objects(src, c, answers(c).kind, answers(c).rows, P.Total(order[..i], answers))) else [])
      && In(whole, "commit", Named(c))
           == (if answers(c).Rows? then [ToWire(P.Commit(c, generations[c], |answers(c).rows|))]
               else if answers(c).Declined? && answers(c).reason == "absent"
               then [ToWire(P.Commit(c, generations[c], 0))] else [])
      && In(whole, "decline", Named(c))
           == (match answers(c)
               case Unserved(detail) => [ToWire(P.Decline(c, "unsupported", detail))]
               case Declined(reason, detail) => [ToWire(P.Decline(c, reason, detail))]
               case _ => [])
  {
    var c := order[i];
    WholeAt(src, order, i, answers, generations);
    SectionIn(src, c, answers(c), generations[c], P.Total(order[..i], answers));
  }

  /** A refusal travels with its reason and detail; as absent with an empty commit. */
  lemma RefusalTravels(src: P.Source, order: seq<string>, i: nat, answers: string -> P.Answer,
                       generations: map<string, nat>, reason: string, detail: string)
    requires Request(order, generations) && P.Complete(src, order, answers) && i < |order|
    requires var answer := answers(order[i]);
      answer == P.Declined(reason, detail) || (answer == P.Unserved(detail) && reason == "unsupported")
    ensures var whole, c := Whole(src, order, answers, generations), order[i];
      var declines, commits := In(whole, "decline", Named(c)), In(whole, "commit", Named(c));
      && |declines| == 1 && DeclineStates(declines[0], c, reason, detail)
      && In(whole, "object", Named(c)) == []
      && (if reason == "absent" then Committed(commits, c, generations[c], 0) else commits == [])
  {
    var c := order[i];
    Travels(src, order, i, answers, generations);
    DeclineWritten(c, reason, detail);
    CommitWritten(c, generations[c], 0);
    assert "unsupported"[0] != "absent"[0];
  }

  /** Begin states what the run was asked and where it ran, end what it cost. */
  lemma HeaderTravels(src: P.Source, order: seq<string>, answers: string -> P.Answer,
                      generations: map<string, nat>)
    requires Request(order, generations) && P.Complete(src, order, answers)
    ensures var whole := Whole(src, order, answers, generations);
      var begins, ends := Of(whole, "begin"), Of(whole, "end");
      && |begins| == 1 && BeginStates(begins[0], src, generations)
      && |ends| == 1 && EndStates(ends[0], src)
  {
    WholeOf(src, order, answers, generations);
    EndWritten(src);
  }

  ghost predicate BeginStates(r: Record, src: P.Source, generations: map<string, nat>)
    requires src.bootId.Some? && src.batch.Some?
  {
    r == map["record" := Str("begin"), "request" := Str(src.batch.value), "batch" := Str(src.batch.value),
             "declaration" := Str(src.declaration), "boot_id" := Str(src.bootId.value),
             "timens" := Int(src.timens), "instance" := Null,
             "generations" := Dict(map c | c in generations :: Int(generations[c]))]
  }

  ghost predicate EndStates(r: Record, src: P.Source)
    requires src.batch.Some?
  {
    && r.Keys == {"record", "request", "batch", "cpu_ms", "wall_ms"}
    && r["record"] == Str("end") && r["request"] == r["batch"] == Str(src.batch.value)
    && (src.costs.0.Finite? ==> Numeric(r["cpu_ms"]) == Some(src.costs.0.r))
    && (src.costs.1.Finite? ==> Numeric(r["wall_ms"]) == Some(src.costs.1.r))
  }

  lemma EndWritten(src: P.Source)
    requires src.batch.Some?
    ensures EndStates(ToWire(P.EndOf(src)), src)
  {
    if src.costs.0.Finite? { NumberReading(src.costs.0); }
    if src.costs.1.Finite? { NumberReading(src.costs.1); }
  }

  // ── what reaches the writer ───────────────────────────────────────────

  /** The writer takes the line, and every float on it is a number JSON can spell. */
  predicate Goes(line: P.Line, takes: bool) {
    && takes
    && (line.Object? ==> line.at.Finite?)
    && (line.End? ==> line.cpu.Finite? && line.wall.Finite?)
  }

  /** A stream is delivered whole exactly when each of its lines goes; otherwise up
      to the first that does not. */
  lemma {:induction false} DeliveredIff(attempted: seq<P.Line>, takes: nat -> bool)
    ensures var written := P.Delivered(attempted, takes);
      && (forall i | 0 <= i < |written| :: Goes(attempted[i], takes(i)))
      && (|written| < |attempted| ==> !Goes(attempted[|written|], takes(|written|)))
  {
    if attempted != [] {
      DeliveredIff(attempted[..|attempted| - 1], takes);
    }
  }
}
