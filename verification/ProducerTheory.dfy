/** The producer against the judge: which runs of `collect` leave a stream
    that `check_stream` accepts. */
module ProducerTheory {
  import opened Options
  import opened Wire
  import opened Judge
  import opened JudgeTheory
  import opened Sorting
  import P = Producer

  // ── the Go structs as the JSON records their tags spell ───────────────

  /** A float64 on the wire: Go prints an integral one without a point, so it
      reads back as an int. */
  function Number(f: Float): Json {
    if f.Finite? && f.r == f.r.Floor as real then Int(f.r.Floor) else Json.Float(f)
  }

  function ToWire(line: P.Line): Record {
    match line
    case Begin(batch, declaration, bootId, timens, generations) =>
      map["record" := Str("begin"), "request" := Str(batch), "batch" := Str(batch),
          "declaration" := Str(declaration), "boot_id" := Str(bootId), "timens" := Int(timens),
          "instance" := Null, "generations" := Issue(generations)]
    case Object(c, kind, row, at) =>
      map["record" := Str("object"), "collection" := Str(c), "name" := Str(row.name),
          "facts" := Dict(row.facts), "at" := Number(at)]
      + (if kind == "" then map[] else map["type" := Str(kind)])
    case Decline(c, reason, detail) =>
      map["record" := Str("decline"), "collection" := Str(c), "reason" := Str(reason),
          "detail" := Str(detail)]
    case Commit(c, generation, objects) =>
      map["record" := Str("commit"), "collection" := Str(c), "generation" := Int(generation),
          "objects" := Int(objects), "assertions" := Int(0), "unobservable" := Int(0)]
    case End(batch, cpu, wall) =>
      map["record" := Str("end"), "request" := Str(batch), "batch" := Str(batch),
          "cpu_ms" := Number(cpu), "wall_ms" := Number(wall)]
  }

  function OnWire(lines: seq<P.Line>): seq<Record> {
    seq(|lines|, i requires 0 <= i < |lines| => ToWire(lines[i]))
  }

  function KindName(line: P.Line): string {
    match line
    case Begin(_, _, _, _, _) => "begin"
    case Object(_, _, _, _) => "object"
    case Decline(_, _, _) => "decline"
    case Commit(_, _, _) => "commit"
    case End(_, _, _) => "end"
  }

  function Owner(line: P.Line): Coll {
    match line
    case Object(c, _, _, _) => Named(c)
    case Decline(c, _, _) => Named(c)
    case Commit(c, _, _) => Named(c)
    case _ => Unnamed(Null)
  }

  lemma WireHead(line: P.Line)
    ensures Get(ToWire(line), "record") == Str(KindName(line))
    ensures Collection(ToWire(line)) == Owner(line)
  {}

  // ── picking records out of a concatenation ────────────────────────────

  lemma {:induction false} OfConcat(a: seq<Record>, b: seq<Record>, kind: string)
    ensures Of(a + b, kind) == Of(a, kind) + Of(b, kind)
  {
    if b == [] {
      assert a + b == a;
    } else {
      var n := |b| - 1;
      assert (a + b)[..|a + b| - 1] == a + b[..n];
      OfConcat(a, b[..n], kind);
    }
  }

  lemma OnWireConcat(a: seq<P.Line>, b: seq<P.Line>)
    ensures OnWire(a + b) == OnWire(a) + OnWire(b)
  {}

  lemma InOne(line: P.Line, kind: string, c: Coll)
    ensures In(OnWire([line]), kind, c)
      == if kind == KindName(line) && c == Owner(line) then [ToWire(line)] else []
    ensures Of(OnWire([line]), kind) == if kind == KindName(line) then [ToWire(line)] else []
  {
    WireHead(line);
    assert OnWire([line]) == [ToWire(line)];
    assert In([], kind, c) == [] && Of([], kind) == [];
    assert [ToWire(line)][..0] == [];
  }

  /** Lines none of which is of the kind, or of the collection, add nothing. */
  lemma {:induction false} InNone(lines: seq<P.Line>, kind: string, c: Coll)
    requires forall l | l in lines :: KindName(l) != kind || Owner(l) != c
    ensures In(OnWire(lines), kind, c) == []
  {
    if lines != [] {
      var n := |lines| - 1;
      assert lines == lines[..n] + [lines[n]];
      OnWireConcat(lines[..n], [lines[n]]);
      InConcat(OnWire(lines[..n]), OnWire([lines[n]]), kind, c);
      InNone(lines[..n], kind, c);
      InOne(lines[n], kind, c);
    }
  }

  lemma {:induction false} OfNone(lines: seq<P.Line>, kind: string)
    requires forall l | l in lines :: KindName(l) != kind
    ensures Of(OnWire(lines), kind) == []
  {
    if lines != [] {
      var n := |lines| - 1;
      assert lines == lines[..n] + [lines[n]];
      OnWireConcat(lines[..n], [lines[n]]);
      OfConcat(OnWire(lines[..n]), OnWire([lines[n]]), kind);
      OfNone(lines[..n], kind);
      InOne(lines[n], kind, Owner(lines[n]));
    }
  }

  lemma {:induction false} InAll(lines: seq<P.Line>, kind: string, c: Coll)
    requires forall l | l in lines :: KindName(l) == kind && Owner(l) == c
    ensures In(OnWire(lines), kind, c) == OnWire(lines)
  {
    if lines != [] {
      var n := |lines| - 1;
      assert lines == lines[..n] + [lines[n]];
      OnWireConcat(lines[..n], [lines[n]]);
      InConcat(OnWire(lines[..n]), OnWire([lines[n]]), kind, c);
      InAll(lines[..n], kind, c);
      InOne(lines[n], kind, c);
    }
  }

  // ── one collection's section ──────────────────────────────────────────

  lemma SectionLines(src: P.Source, c: string, answer: P.Answer, g: nat, start: nat)
    ensures forall l | l in P.Section(src, c, answer, g, start) ::
              Owner(l) == Named(c) && KindName(l) in {"object", "decline", "commit"}
  {}

  /** What the judge finds under the collection: its closing records, and
      the objects, of which there are as many as rows. */
  lemma SectionIn(src: P.Source, c: string, answer: P.Answer, g: nat, start: nat)
    requires !answer.Broken?
    ensures var s := OnWire(P.Section(src, c, answer, g, start));
      && In(s, "object", Named(c))
           == (if answer.Rows? then OnWire(P.Objects(src, c, answer.kind, answer.rows, start)) else [])
      && In(s, "commit", Named(c))
           == (if answer.Rows? then [ToWire(P.Commit(c, g, |answer.rows|))]
               else if answer.Declined? && answer.reason == "absent" then [ToWire(P.Commit(c, g, 0))]
               else [])
      && In(s, "decline", Named(c))
           == (match answer
               case Unserved(detail) => [ToWire(P.Decline(c, "unsupported", detail))]
               case Declined(reason, detail) => [ToWire(P.Decline(c, reason, detail))]
               case _ => [])
      && In(s, "relation_assertion", Named(c)) == [] && In(s, "unobservable", Named(c)) == []
  {
    SectionElse(src, c, answer, g, start);
    match answer
    case Rows(rows, kind) =>
      RowsIn(P.Objects(src, c, kind, rows, start), c, P.Commit(c, g, |rows|));
    case Declined(reason, detail) =>
      var rest := if reason == "absent" then [P.Commit(c, g, 0)] else [];
      DeclineIn([P.Decline(c, reason, detail)] + rest, c, P.Decline(c, reason, detail), rest);
    case Unserved(detail) =>
      var decline := P.Decline(c, "unsupported", detail);
      assert [decline] + [] == [decline];
      DeclineIn([decline], c, decline, []);
  }

  lemma SectionElse(src: P.Source, c: string, answer: P.Answer, g: nat, start: nat)
    ensures var s := OnWire(P.Section(src, c, answer, g, start));
      In(s, "relation_assertion", Named(c)) == [] && In(s, "unobservable", Named(c)) == []
  {
    var lines := P.Section(src, c, answer, g, start);
    SectionLines(src, c, answer, g, start);
    InNone(lines, "relation_assertion", Named(c));
    InNone(lines, "unobservable", Named(c));
  }

  lemma RowsIn(objects: seq<P.Line>, c: string, commit: P.Line)
    requires (forall l | l in objects :: l.Object? && Owner(l) == Named(c))
    requires commit.Commit? && Owner(commit) == Named(c)
    ensures In(OnWire(objects + [commit]), "object", Named(c)) == OnWire(objects)
    ensures In(OnWire(objects + [commit]), "commit", Named(c)) == [ToWire(commit)]
    ensures In(OnWire(objects + [commit]), "decline", Named(c)) == []
  {
    OnWireConcat(objects, [commit]);
    InAll(objects, "object", Named(c));
    InNone(objects, "commit", Named(c));
    InNone(objects + [commit], "decline", Named(c));
    InConcat(OnWire(objects), OnWire([commit]), "object", Named(c));
    InConcat(OnWire(objects), OnWire([commit]), "commit", Named(c));
    InOne(commit, "object", Named(c));
    InOne(commit, "commit", Named(c));
  }

  lemma DeclineIn(lines: seq<P.Line>, c: string, decline: P.Line, rest: seq<P.Line>)
    requires lines == [decline] + rest && decline.Decline? && Owner(decline) == Named(c)
    requires |rest| <= 1 && forall l | l in rest :: l.Commit? && Owner(l) == Named(c)
    ensures In(OnWire(lines), "object", Named(c)) == []
    ensures In(OnWire(lines), "commit", Named(c)) == OnWire(rest)
    ensures In(OnWire(lines), "decline", Named(c)) == [ToWire(decline)]
  {
    FirstPicked(decline, rest, "object", Named(c));
    FirstPicked(decline, rest, "commit", Named(c));
    FirstPicked(decline, rest, "decline", Named(c));
    InNone(rest, "object", Named(c));
    InNone(rest, "decline", Named(c));
    InAll(rest, "commit", Named(c));
  }

  lemma FirstPicked(first: P.Line, rest: seq<P.Line>, kind: string, c: Coll)
    ensures In(OnWire([first] + rest), kind, c)
      == (if kind == KindName(first) && c == Owner(first) then [ToWire(first)] else [])
         + In(OnWire(rest), kind, c)
  {
    OnWireConcat([first], rest);
    InConcat(OnWire([first]), OnWire(rest), kind, c);
    InOne(first, kind, c);
  }

  // ── the whole body ────────────────────────────────────────────────────

  /** A lawful request: what `parseCollect` returns. */
  ghost predicate Request(order: seq<string>, generations: map<string, nat>) {
    order != [] && Distinct(order) && forall c :: c in generations <==> c in order
  }

  lemma {:induction false} BodyOwners(src: P.Source, order: seq<string>,
                                      answers: string -> P.Answer, generations: map<string, nat>)
    requires forall c | c in order :: c in generations
    ensures forall l | l in P.Body(src, order, answers, generations) ::
              Owner(l).Named? && Owner(l).name in order
              && KindName(l) in {"object", "decline", "commit"}
  {
    if order != [] {
      var before, c := order[..|order| - 1], order[|order| - 1];
      assert order == before + [c];
      BodyOwners(src, before, answers, generations);
      SectionLines(src, c, answers(c), generations[c], P.Total(before, answers));
    }
  }

  function SectionAt(src: P.Source, order: seq<string>, i: nat, answers: string -> P.Answer,
                     generations: map<string, nat>): seq<P.Line>
    requires i < |order| && forall c | c in order :: c in generations
  {
    P.Section(src, order[i], answers(order[i]), generations[order[i]], P.Total(order[..i], answers))
  }

  lemma InBoth(a: seq<P.Line>, b: seq<P.Line>, kind: string, c: Coll)
    ensures In(OnWire(a + b), kind, c) == In(OnWire(a), kind, c) + In(OnWire(b), kind, c)
  {
    OnWireConcat(a, b);
    InConcat(OnWire(a), OnWire(b), kind, c);
  }

  /** With distinct names, a collection's records are its own section's. */
  lemma {:induction false} BodyAt(src: P.Source, order: seq<string>, i: nat,
                                  answers: string -> P.Answer, generations: map<string, nat>,
                                  kind: string)
    requires i < |order| && Distinct(order) && forall c | c in order :: c in generations
    requires P.AllAnswered(order, answers)
    ensures In(OnWire(P.Body(src, order, answers, generations)), kind, Named(order[i]))
      == In(OnWire(SectionAt(src, order, i, answers, generations)), kind, Named(order[i]))
  {
    var before, last := order[..|order| - 1], order[|order| - 1];
    assert order == before + [last];
    AnsweredBefore(before, last, answers);
    BodyLast(src, before, last, answers, generations, kind, Named(order[i]));
    if i < |before| {
      BodyAt(src, before, i, answers, generations, kind);
      SectionSame(src, before, last, i, answers, generations);
    }
  }

  lemma AnsweredBefore(before: seq<string>, last: string, answers: string -> P.Answer)
    requires P.AllAnswered(before + [last], answers)
    ensures P.AllAnswered(before, answers)
  {
    assert forall c | c in before :: c in before + [last];
  }

  lemma SectionSame(src: P.Source, before: seq<string>, last: string, i: nat, answers: string -> P.Answer,
                    generations: map<string, nat>)
    requires i < |before| && forall c | c in before + [last] :: c in generations
    ensures SectionAt(src, before, i, answers, generations)
      == SectionAt(src, before + [last], i, answers, generations)
  {
    assert (before + [last])[..i] == before[..i];
  }

  lemma BodyGrows(src: P.Source, before: seq<string>, last: string, answers: string -> P.Answer,
                  generations: map<string, nat>)
    requires forall d | d in before + [last] :: d in generations
    requires P.AllAnswered(before, answers)
    ensures P.Body(src, before + [last], answers, generations)
      == P.Body(src, before, answers, generations)
         + SectionAt(src, before + [last], |before|, answers, generations)
  {
    var order := before + [last];
    assert order[..|before|] == before && order[|before|] == last;
  }

  /** The last collection's section holds its records and nobody else's. */
  lemma BodyLast(src: P.Source, before: seq<string>, last: string, answers: string -> P.Answer,
                 generations: map<string, nat>, kind: string, c: Coll)
    requires Distinct(before + [last]) && c.Named? && forall d | d in before + [last] :: d in generations
    requires P.AllAnswered(before, answers)
    ensures In(OnWire(P.Body(src, before + [last], answers, generations)), kind, c)
      == if c.name == last
         then In(OnWire(SectionAt(src, before + [last], |before|, answers, generations)), kind, c)
         else In(OnWire(P.Body(src, before, answers, generations)), kind, c)
  {
    var body, section := P.Body(src, before, answers, generations),
                         SectionAt(src, before + [last], |before|, answers, generations);
    BodyGrows(src, before, last, answers, generations);
    InBoth(body, section, kind, c);
    if c.name == last {
      BodyOwners(src, before, answers, generations);
      assert forall i | 0 <= i < |before| :: before[i] == (before + [last])[i] != last;
      InNone(body, kind, c);
    } else {
      SectionLines(src, last, answers(last), generations[last], P.Total((before + [last])[..|before|], answers));
      InNone(section, kind, c);
    }
  }

  /** The stream of a completed run. */
  function Whole(src: P.Source, order: seq<string>, answers: string -> P.Answer,
                 generations: map<string, nat>): seq<Record>
    requires forall c | c in order :: c in generations
    requires P.Complete(src, order, answers)
  {
    OnWire(P.Attempted(src, order, answers, generations))
  }

  lemma WholeIn(src: P.Source, order: seq<string>, answers: string -> P.Answer,
                generations: map<string, nat>, kind: string, c: Coll)
    requires Request(order, generations) && P.Complete(src, order, answers)
    requires kind != "begin" && kind != "end"
    ensures In(Whole(src, order, answers, generations), kind, c)
      == In(OnWire(P.Body(src, order, answers, generations)), kind, c)
  {
    Wrapped(P.BeginOf(src, generations), P.Body(src, order, answers, generations), P.EndOf(src), kind, c);
  }

  lemma Wrapped(begin: P.Line, body: seq<P.Line>, end: P.Line, kind: string, c: Coll)
    requires KindName(begin) != kind && KindName(end) != kind
    ensures In(OnWire([begin] + body + [end]), kind, c) == In(OnWire(body), kind, c)
  {
    OnWireConcat([begin] + body, [end]);
    OnWireConcat([begin], body);
    InConcat(OnWire([begin] + body), OnWire([end]), kind, c);
    InConcat(OnWire([begin]), OnWire(body), kind, c);
    InOne(begin, kind, c);
    InOne(end, kind, c);
  }

  lemma WholeParts(src: P.Source, order: seq<string>, answers: string -> P.Answer,
                   generations: map<string, nat>, kind: string)
    requires Request(order, generations) && P.Complete(src, order, answers)
    ensures Of(Whole(src, order, answers, generations), kind)
      == (if kind == "begin" then [ToWire(P.BeginOf(src, generations))] else [])
         + Of(OnWire(P.Body(src, order, answers, generations)), kind)
         + (if kind == "end" then [ToWire(P.EndOf(src))] else [])
  {
    PartsOf(P.BeginOf(src, generations), P.Body(src, order, answers, generations), P.EndOf(src), kind);
  }

  lemma PartsOf(begin: P.Line, body: seq<P.Line>, end: P.Line, kind: string)
    ensures Of(OnWire([begin] + body + [end]), kind)
      == (if kind == KindName(begin) then [ToWire(begin)] else []) + Of(OnWire(body), kind)
         + (if kind == KindName(end) then [ToWire(end)] else [])
  {
    OnWireConcat([begin] + body, [end]);
    OnWireConcat([begin], body);
    OfConcat(OnWire([begin] + body), OnWire([end]), kind);
    OfConcat(OnWire([begin]), OnWire(body), kind);
    OfOne(begin, kind);
    OfOne(end, kind);
  }

  lemma OfOne(line: P.Line, kind: string)
    ensures Of(OnWire([line]), kind) == if kind == KindName(line) then [ToWire(line)] else []
  {
    InOne(line, kind, Owner(line));
  }

  lemma WholeOf(src: P.Source, order: seq<string>, answers: string -> P.Answer,
                generations: map<string, nat>)
    requires Request(order, generations) && P.Complete(src, order, answers)
    ensures var whole := Whole(src, order, answers, generations);
      && Of(whole, "begin") == [ToWire(P.BeginOf(src, generations))]
      && Of(whole, "end") == [ToWire(P.EndOf(src))]
      && (Of(whole, "object") != [] <==> P.Total(order, answers) > 0)
  {
    var body := P.Body(src, order, answers, generations);
    BodyOwners(src, order, answers, generations);
    OfNone(body, "begin");
    OfNone(body, "end");
    BodyObjects(src, order, answers, generations);
    WholeParts(src, order, answers, generations, "begin");
    WholeParts(src, order, answers, generations, "end");
    WholeParts(src, order, answers, generations, "object");
  }

  lemma {:induction false} BodyObjects(src: P.Source, order: seq<string>,
                                       answers: string -> P.Answer, generations: map<string, nat>)
    requires forall c | c in order :: c in generations
    requires P.AllAnswered(order, answers)
    ensures |Of(OnWire(P.Body(src, order, answers, generations)), "object")| == P.Total(order, answers)
  {
    if order != [] {
      var before, c := order[..|order| - 1], order[|order| - 1];
      assert order == before + [c];
      BodyObjects(src, before, answers, generations);
      var start := P.Total(before, answers);
      var body, last := P.Body(src, before, answers, generations), P.Section(src, c, answers(c), generations[c], start);
      OnWireConcat(body, last);
      OfConcat(OnWire(body), OnWire(last), "object");
      SectionObjects(src, c, answers(c), generations[c], start);
    }
  }

  lemma SectionObjects(src: P.Source, c: string, answer: P.Answer, g: nat, start: nat)
    ensures |Of(OnWire(P.Section(src, c, answer, g, start)), "object")| == P.Count(answer)
  {
    var lines := P.Section(src, c, answer, g, start);
    if answer.Rows? {
      var objects := P.Objects(src, c, answer.kind, answer.rows, start);
      assert lines == objects + [P.Commit(c, g, |answer.rows|)];
      ObjectsThenCommit(objects, P.Commit(c, g, |answer.rows|));
    } else {
      assert forall l | l in lines :: KindName(l) != "object";
      OfNone(lines, "object");
    }
  }

  lemma ObjectsThenCommit(objects: seq<P.Line>, commit: P.Line)
    requires commit.Commit? && forall l | l in objects :: l.Object?
    ensures |Of(OnWire(objects + [commit]), "object")| == |objects|
  {
    OnWireConcat(objects, [commit]);
    OfConcat(OnWire(objects), OnWire([commit]), "object");
    OfAll(objects, "object");
    OfOne(commit, "object");
  }

  lemma {:induction false} OfAll(lines: seq<P.Line>, kind: string)
    requires forall l | l in lines :: KindName(l) == kind
    ensures Of(OnWire(lines), kind) == OnWire(lines)
  {
    if lines != [] {
      var n := |lines| - 1;
      assert lines == lines[..n] + [lines[n]];
      OnWireConcat(lines[..n], [lines[n]]);
      OfConcat(OnWire(lines[..n]), OnWire([lines[n]]), kind);
      OfAll(lines[..n], kind);
      InOne(lines[n], kind, Owner(lines[n]));
    }
  }

  // ── every collection ends lawfully, whatever the source did ───────────

  lemma EchoesItself(g: nat)
    ensures LooseEqual(Int(g), Int(g))
  {}

  /** Two streams hold the same records under a collection, kind by kind. */
  ghost predicate SameUnder(a: seq<Record>, b: seq<Record>, c: Coll) {
    && In(a, "object", c) == In(b, "object", c)
    && In(a, "commit", c) == In(b, "commit", c)
    && In(a, "decline", c) == In(b, "decline", c)
    && In(a, "relation_assertion", c) == In(b, "relation_assertion", c)
    && In(a, "unobservable", c) == In(b, "unobservable", c)
  }

  /** Served, declined or absent: the section of an answered collection is one
      of the judge's three endings. */
  lemma SectionEnds(src: P.Source, c: string, answer: P.Answer, g: nat, start: nat,
                    records: seq<Record>)
    requires !answer.Broken?
    requires SameUnder(records, OnWire(P.Section(src, c, answer, g, start)), Named(c))
    ensures HasEnding(records, c, Int(g))
  {
    SectionIn(src, c, answer, g, start);
    match answer
    case Rows(rows, kind) =>
      var objects := OnWire(P.Objects(src, c, kind, rows, start));
      ServedEnds(records, c, g, |rows|, objects);
    case Declined(reason, detail) =>
      DeclinedEnds(records, c, g, reason, detail);
    case Unserved(detail) =>
      DeclinedEnds(records, c, g, "unsupported", detail);
  }

  lemma ServedEnds(records: seq<Record>, c: string, g: nat, n: nat, objects: seq<Record>)
    requires In(records, "object", Named(c)) == objects && |objects| == n
    requires In(records, "relation_assertion", Named(c)) == [] && In(records, "unobservable", Named(c)) == []
    requires In(records, "commit", Named(c)) == [ToWire(P.Commit(c, g, n))]
    requires In(records, "decline", Named(c)) == []
    ensures HasEnding(records, c, Int(g))
  {
    CommitCloses(c, g, n);
    EndsAs(records, c, g, n, Served);
  }

  lemma DeclinedEnds(records: seq<Record>, c: string, g: nat, reason: string, detail: string)
    requires In(records, "object", Named(c)) == []
    requires In(records, "relation_assertion", Named(c)) == [] && In(records, "unobservable", Named(c)) == []
    requires In(records, "commit", Named(c))
      == if reason == "absent" then [ToWire(P.Commit(c, g, 0))] else []
    requires In(records, "decline", Named(c)) == [ToWire(P.Decline(c, reason, detail))]
    ensures HasEnding(records, c, Int(g))
  {
    DeclineCloses(c, reason, detail);
    CommitCloses(c, g, 0);
    EndsAs(records, c, g, 0, if reason == "absent" then Absent else Ending.Declined);
  }

  lemma EndsAs(records: seq<Record>, c: string, g: nat, n: nat, ending: Ending)
    requires |In(records, "object", Named(c))| == n
    requires In(records, "relation_assertion", Named(c)) == [] && In(records, "unobservable", Named(c)) == []
    requires Closes(In(records, "commit", Named(c)), In(records, "decline", Named(c)), Tally(n, 0, 0),
                    Int(g), ending)
    ensures HasEnding(records, c, Int(g))
  {
    assert TallyOf(records, Named(c)) == Tally(n, 0, 0);
    assert Ends(records, c, Int(g), ending);
  }

  lemma CommitCloses(c: string, g: nat, n: nat)
    ensures CommittedOnce([ToWire(P.Commit(c, g, n))], Tally(n, 0, 0), Int(g))
  {
    EchoesItself(g);
    CommitWire(c, g, n);
  }

  lemma DeclineCloses(c: string, reason: string, detail: string)
    ensures DeclinedOnce([ToWire(P.Decline(c, reason, detail))], Tally(0, 0, 0), reason == "absent")
  {
    DeclineWire(c, reason, detail);
  }

  lemma CommitWire(c: string, g: nat, n: nat)
    ensures var k := ToWire(P.Commit(c, g, n));
      Get(k, "generation") == Int(g) && CountsExact(k, Tally(n, 0, 0)) && "cpu_ms" !in k
  {}

  lemma DeclineWire(c: string, reason: string, detail: string)
    ensures Get(ToWire(P.Decline(c, reason, detail)), "reason") == Str(reason)
  {}

  lemma WholeAt(src: P.Source, order: seq<string>, i: nat, answers: string -> P.Answer,
                generations: map<string, nat>)
    requires Request(order, generations) && P.Complete(src, order, answers) && i < |order|
    ensures SameUnder(Whole(src, order, answers, generations),
                      OnWire(SectionAt(src, order, i, answers, generations)), Named(order[i]))
  {
    WholeKindAt(src, order, i, answers, generations, "object");
    WholeKindAt(src, order, i, answers, generations, "commit");
    WholeKindAt(src, order, i, answers, generations, "decline");
    WholeKindAt(src, order, i, answers, generations, "relation_assertion");
    WholeKindAt(src, order, i, answers, generations, "unobservable");
  }

  lemma WholeKindAt(src: P.Source, order: seq<string>, i: nat, answers: string -> P.Answer,
                    generations: map<string, nat>, kind: string)
    requires Request(order, generations) && P.Complete(src, order, answers) && i < |order|
    requires kind != "begin" && kind != "end"
    ensures In(Whole(src, order, answers, generations), kind, Named(order[i]))
      == In(OnWire(SectionAt(src, order, i, answers, generations)), kind, Named(order[i]))
  {
    WholeIn(src, order, answers, generations, kind, Named(order[i]));
    BodyAt(src, order, i, answers, generations, kind);
  }

  lemma WholeCollections(src: P.Source, order: seq<string>, answers: string -> P.Answer,
                         generations: map<string, nat>)
    requires Request(order, generations) && P.Complete(src, order, answers)
    ensures CollectionsLawful(Whole(src, order, answers, generations), Issue(generations).members)
  {
    var whole, gens := Whole(src, order, answers, generations), Issue(generations).members;
    forall c | c in gens ensures IsIndex(gens[c]) && HasEnding(whole, c, gens[c]) {
      var i :| 0 <= i < |order| && order[i] == c;
      WholeAt(src, order, i, answers, generations);
      SectionEnds(src, c, answers(c), generations[c], P.Total(order[..i], answers), whole);
    }
    BodyOwners(src, order, answers, generations);
    forall c: Coll | !(c.Named? && c.name in gens)
      ensures In(whole, "commit", c) == [] && In(whole, "decline", c) == []
    {
      WholeIn(src, order, answers, generations, "commit", c);
      WholeIn(src, order, answers, generations, "decline", c);
      InNone(P.Body(src, order, answers, generations), "commit", c);
      InNone(P.Body(src, order, answers, generations), "decline", c);
    }
  }

  // ── what is left to the readings ──────────────────────────────────────

  predicate StampLawful(f: Float) {
    f.Finite? && 0.0 < f.r <= 1000000000.0
  }

  /** The clock and the facts of one collection: what the emitter passes through. */
  ghost predicate SectionLawful(src: P.Source, answer: P.Answer, start: nat) {
    answer.Rows? ==>
      && (forall i | start <= i < start + |answer.rows| :: StampLawful(src.stamp(i)))
      && (forall i, j | start <= i < j < start + |answer.rows| ::
            StampLawful(src.stamp(i)) && StampLawful(src.stamp(j)) ==>
              src.stamp(i).r <= src.stamp(j).r)
      && (forall row, fact | row in answer.rows && fact in row.facts :: !HasNull(row.facts[fact]))
  }

  predicate CostsLawful(costs: (Float, Float), objects: nat) {
    costs.0.Finite? && costs.0.r >= 0.0 && costs.1.Finite? && costs.1.r >= 0.0
    && (objects > 0 ==> costs.1.r > 0.0)
  }

  /** What a run reads from its surroundings is lawful: the header values, each
      collection's clock and facts, and the costs. */
  ghost predicate ReadingsLawful(src: P.Source, order: seq<string>, answers: string -> P.Answer)
    requires src.bootId.Some? && src.batch.Some?
  {
    && BootIdOk(Str(src.bootId.value)) && DeclarationOk(Str(src.declaration))
    && src.batch.value != ""
    && (forall i | 0 <= i < |order| ::
          SectionLawful(src, answers(order[i]), P.Total(order[..i], answers)))
    && CostsLawful(src.costs, P.Total(order, answers))
  }

  lemma NumberReading(f: Float)
    ensures var n := Number(f);
      (n.Int? && 0 < n.i <= 1000000000) || (n.Float? && n.f.Finite? && 0.0 < n.f.r <= 1000000000.0)
      <==> StampLawful(f)
    ensures StampLawful(f) ==> Numeric(Number(f)) == Some(f.r)
    ensures Measured(Number(f)) <==> f.Finite? && f.r >= 0.0
    ensures f.Finite? ==> Numeric(Number(f)) == Some(f.r)
  {}

  lemma ObjectReading(c: string, kind: string, row: P.Row, at: Float)
    ensures var r := ToWire(P.Object(c, kind, row, at));
      && (Reading(r).Some? <==> StampLawful(at))
      && (StampLawful(at) ==> Reading(r) == Some(at.r))
      && FactsOf(r) == row.facts
  {
    NumberReading(at);
    var r := ToWire(P.Object(c, kind, row, at));
    assert Get(r, "at") == Number(at);
  }

  lemma SectionStamps(src: P.Source, c: string, answer: P.Answer, start: nat)
    requires answer.Rows?
    ensures var objects := OnWire(P.Objects(src, c, answer.kind, answer.rows, start));
      StampsSorted(objects) && (forall r | r in objects :: FactsNullFree(r))
      <==> SectionLawful(src, answer, start)
  {
    var objects := OnWire(P.Objects(src, c, answer.kind, answer.rows, start));
    forall i | 0 <= i < |objects|
      ensures StampRead(objects[i], src.stamp(start + i))
      ensures FactsOf(objects[i]) == answer.rows[i].facts
    {
      ObjectReading(c, answer.kind, answer.rows[i], src.stamp(start + i));
    }
    StampsMatch(objects, src, start);
    FactsMatch(objects, answer.rows);
  }

  /** The record reads as the stamp it was given. */
  ghost predicate StampRead(r: Record, at: Float) {
    (Reading(r).Some? <==> StampLawful(at)) && (StampLawful(at) ==> Reading(r) == Some(at.r))
  }

  lemma StampsMatch(objects: seq<Record>, src: P.Source, start: nat)
    requires forall i | 0 <= i < |objects| :: StampRead(objects[i], src.stamp(start + i))
    ensures StampsSorted(objects) <==>
      && (forall i | start <= i < start + |objects| :: StampLawful(src.stamp(i)))
      && (forall i, j | start <= i < j < start + |objects| ::
            StampLawful(src.stamp(i)) && StampLawful(src.stamp(j)) ==> src.stamp(i).r <= src.stamp(j).r)
  {
    if StampsSorted(objects) {
      forall i | start <= i < start + |objects| ensures StampLawful(src.stamp(i)) {
        assert Reading(objects[i - start]).Some?;
      }
      forall i, j | start <= i < j < start + |objects| ensures src.stamp(i).r <= src.stamp(j).r {
        assert Reading(objects[i - start]).value <= Reading(objects[j - start]).value;
      }
    }
  }

  lemma FactsMatch(objects: seq<Record>, rows: seq<P.Row>)
    requires |objects| == |rows| && forall i | 0 <= i < |rows| :: FactsOf(objects[i]) == rows[i].facts
    ensures (forall r | r in objects :: FactsNullFree(r)) <==>
      forall row, fact | row in rows && fact in row.facts :: !HasNull(row.facts[fact])
  {
    if forall r | r in objects :: FactsNullFree(r) {
      forall row, fact | row in rows && fact in row.facts ensures !HasNull(row.facts[fact]) {
        var i :| 0 <= i < |rows| && rows[i] == row;
        assert objects[i] in objects && FactsNullFree(objects[i]);
      }
    }
  }

  ghost predicate ObjectsClean(objects: seq<Record>) {
    StampsSorted(objects) && forall r | r in objects :: FactsNullFree(r)
  }

  lemma SectionClean(src: P.Source, c: string, answer: P.Answer, g: nat, start: nat)
    requires !answer.Broken?
    ensures ObjectsClean(In(OnWire(P.Section(src, c, answer, g, start)), "object", Named(c)))
      <==> SectionLawful(src, answer, start)
  {
    SectionIn(src, c, answer, g, start);
    if answer.Rows? {
      SectionStamps(src, c, answer, start);
    }
  }

  /** The objects the judge gathers for the i-th requested collection. */
  lemma WholeObjectsOf(src: P.Source, order: seq<string>, i: nat, answers: string -> P.Answer,
                       generations: map<string, nat>)
    requires Request(order, generations) && P.Complete(src, order, answers) && i < |order|
    ensures ObjectsClean(In(Whole(src, order, answers, generations), "object", Named(order[i])))
      <==> SectionLawful(src, answers(order[i]), P.Total(order[..i], answers))
  {
    var c := order[i];
    WholeIn(src, order, answers, generations, "object", Named(c));
    BodyAt(src, order, i, answers, generations, "object");
    SectionClean(src, c, answers(c), generations[c], P.Total(order[..i], answers));
  }

  lemma WholeObjects(src: P.Source, order: seq<string>, answers: string -> P.Answer,
                     generations: map<string, nat>)
    requires Request(order, generations) && P.Complete(src, order, answers)
    ensures ObjectsLawful(Whole(src, order, answers, generations)) <==>
      forall i | 0 <= i < |order| ::
        SectionLawful(src, answers(order[i]), P.Total(order[..i], answers))
  {
    var whole := Whole(src, order, answers, generations);
    forall i | 0 <= i < |order|
      ensures ObjectsClean(In(whole, "object", Named(order[i])))
        <==> SectionLawful(src, answers(order[i]), P.Total(order[..i], answers))
    {
      WholeObjectsOf(src, order, i, answers, generations);
    }
    if ObjectsLawful(whole) {
      forall i | 0 <= i < |order|
        ensures SectionLawful(src, answers(order[i]), P.Total(order[..i], answers))
      {
        forall r | r in In(whole, "object", Named(order[i])) ensures FactsNullFree(r) {
          InMember(whole, "object", Named(order[i]), r);
        }
      }
    }
    if forall i | 0 <= i < |order| ::
         SectionLawful(src, answers(order[i]), P.Total(order[..i], answers)) {
      ObjectsFromSections(src, order, answers, generations);
    }
  }

  lemma ObjectsFromSections(src: P.Source, order: seq<string>, answers: string -> P.Answer,
                            generations: map<string, nat>)
    requires Request(order, generations) && P.Complete(src, order, answers)
    requires forall i | 0 <= i < |order| ::
               SectionLawful(src, answers(order[i]), P.Total(order[..i], answers))
    ensures ObjectsLawful(Whole(src, order, answers, generations))
  {
    var whole, body := Whole(src, order, answers, generations), P.Body(src, order, answers, generations);
    BodyOwners(src, order, answers, generations);
    forall c ensures StampsSorted(In(whole, "object", c))
    {
      if c.Named? && c.name in order {
        var i :| 0 <= i < |order| && order[i] == c.name;
        WholeObjectsOf(src, order, i, answers, generations);
      } else {
        WholeIn(src, order, answers, generations, "object", c);
        InNone(body, "object", c);
      }
    }
    forall r | r in whole && (IsKind(r, "object") || IsKind(r, "relation_assertion"))
      ensures FactsNullFree(r)
    {
      var c := Collection(r);
      var kind := if IsKind(r, "object") then "object" else "relation_assertion";
      InMember(whole, kind, c, r);
      WholeIn(src, order, answers, generations, kind, c);
      if c.Named? && c.name in order {
        var i :| 0 <= i < |order| && order[i] == c.name;
        BodyAt(src, order, i, answers, generations, "relation_assertion");
        SectionIn(src, c.name, answers(c.name), generations[c.name], P.Total(order[..i], answers));
        WholeObjectsOf(src, order, i, answers, generations);
      } else {
        InNone(body, kind, c);
      }
    }
  }

  lemma WholeHeader(src: P.Source, generations: map<string, nat>)
    requires src.bootId.Some? && src.batch.Some? && generations != map[]
    ensures var begin, end := ToWire(P.BeginOf(src, generations)), ToWire(P.EndOf(src));
      && GenerationsOf(begin) == Some(Issue(generations).members)
      && (HeaderLawful(begin, end) <==>
            BootIdOk(Str(src.bootId.value)) && DeclarationOk(Str(src.declaration))
            && src.batch.value != "")
  {
    var begin := ToWire(P.BeginOf(src, generations));
    var c :| c in generations;
    assert c in Issue(generations).members;
    assert Get(begin, "generations") == Issue(generations);
  }

  lemma WholeEnd(src: P.Source, records: seq<Record>, objects: nat)
    requires src.batch.Some?
    requires Of(records, "object") != [] <==> objects > 0
    ensures EndLawful(records, ToWire(P.EndOf(src))) <==> CostsLawful(src.costs, objects)
  {
    NumberReading(src.costs.0);
    NumberReading(src.costs.1);
    var end := ToWire(P.EndOf(src));
    assert Get(end, "cpu_ms") == Number(src.costs.0) && Get(end, "wall_ms") == Number(src.costs.1);
  }

  /** The judge accepts the stream of a completed run exactly when the readings
      the run passed through are lawful: everything the protocol itself
      promises (one begin and end, echoes, endings, counts) always holds. */
  lemma CompletedVerdict(src: P.Source, order: seq<string>, answers: string -> P.Answer,
                         generations: map<string, nat>)
    requires Request(order, generations) && P.Complete(src, order, answers)
    ensures Accepts(Whole(src, order, answers, generations), Some(generations))
      <==> ReadingsLawful(src, order, answers)
  {
    var whole := Whole(src, order, answers, generations);
    assert order[0] in generations;
    AcceptsIffLawful(whole, Some(generations));
    WholeOf(src, order, answers, generations);
    WholeHeader(src, generations);
    WholeCollections(src, order, answers, generations);
    WholeObjects(src, order, answers, generations);
    WholeEnd(src, whole, P.Total(order, answers));
  }

  // ── runs that do not complete ─────────────────────────────────────────

  lemma EndsLast(src: P.Source, order: seq<string>, answers: string -> P.Answer,
                 generations: map<string, nat>, cut: seq<P.Line>)
    requires forall c | c in order :: c in generations
    requires cut <= P.Attempted(src, order, answers, generations)
    requires !(P.Complete(src, order, answers) && cut == P.Attempted(src, order, answers, generations))
    ensures forall l | l in cut :: !l.End?
  {
    if cut != [] {
      var body := P.Body(src, order, answers, generations);
      BodyOwners(src, order, answers, generations);
      var front := [P.BeginOf(src, generations)] + body;
      assert |cut| <= |front|;
      assert cut <= front;
      forall l | l in front ensures !l.End? {
        if l in body {
          assert KindName(l) in {"object", "decline", "commit"};
        }
      }
    }
  }

  /** Every proper prefix of a run's stream, and the whole of a run that broke
      off, is refused: no end record ever closes it. */
  lemma TruncatedRefused(src: P.Source, order: seq<string>, answers: string -> P.Answer,
                         generations: map<string, nat>, cut: seq<P.Line>,
                         issued: Option<map<string, int>>)
    requires forall c | c in order :: c in generations
    requires cut <= P.Attempted(src, order, answers, generations)
    requires !(P.Complete(src, order, answers) && cut == P.Attempted(src, order, answers, generations))
    ensures !Accepts(OnWire(cut), issued)
  {
    EndsLast(src, order, answers, generations, cut);
    forall l | l in cut ensures KindName(l) != "end" {}
    OfNone(cut, "end");
    assert Breaks(OnWire(cut), issued, EndCount(0));
  }

  /** Exit status and verdict are one bit: with lawful readings the collector
      returns 0 exactly when the judge accepts what reached it, for every
      request, every source and every point at which the writer fails. */
  method CollectAndJudge(src: P.Source, served: P.Catalogue, order: seq<string>,
                         generations: map<string, nat>, takes: nat -> bool)
    returns (code: P.Exit, problems: seq<Problem>)
    requires Request(order, generations)
    ensures code != P.EXIT_OK ==> problems != []
    ensures code == P.EXIT_OK ==> P.Complete(src, order, P.DockerAnswers(src, served))
    ensures code == P.EXIT_OK ==>
              (problems == [] <==> ReadingsLawful(src, order, P.DockerAnswers(src, served)))
  {
    var written;
    ghost var answers := P.DockerAnswers(src, served);
    code, written := P.Collect(src, served, order, generations, takes);
    problems := CheckStream(OnWire(written), Some(generations));
    if code == P.EXIT_OK {
      CompletedVerdict(src, order, answers, generations);
    } else {
      TruncatedRefused(src, order, answers, generations, written, Some(generations));
    }
  }
}
