/** The concurrent fixture driver: `_run_concurrent` with its gates and holds,
    against a daemon that serves every collector on a thread of its own. */
module Driver {

  /** How far the daemon has taken one collector's round. */
  datatype Stage = Dialled | Declared | Issued | Requested | Received | Acked

  function Rank(s: Stage): nat {
    match s
    case Dialled => 0
    case Declared => 1
    case Issued => 2
    case Requested => 3
    case Received => 4
    case Acked => 5
  }

  /** Where the driver's own thread stands: waiting for the i-th request,
      about to release the i-th response, waiting for the first batch, done. */
  datatype Phase = Collecting(i: nat) | Releasing(i: nat) | Last | Done

  /** `batches` is constant; `issued` and `acked` log stream indices in order. */
  datatype State = State(batches: seq<string>, stages: seq<Stage>, gates: seq<bool>,
                         released: seq<bool>, phase: Phase, issued: seq<nat>, acked: seq<nat>)

  predicate Shaped(s: State) {
    |s.batches| > 0 && |s.stages| == |s.gates| == |s.released| == |s.batches|
    && (s.phase.Collecting? || s.phase.Releasing? ==> s.phase.i < |s.batches|)
  }

  /** Only the first declare is ungated, only the last response unheld. */
  function Start(batches: seq<string>): State
    requires batches != []
  {
    var n := |batches|;
    State(batches, seq(n, _ => Dialled), seq(n, i => i == 0), seq(n, i => i == n - 1),
          Collecting(0), [], [])
  }

  datatype Step = Declare(i: nat) | Issue(i: nat) | Request(i: nat) | Receive(i: nat) | Ack(i: nat)
    | Drive

  /** The batch ids the store shows as acknowledged. */
  predicate Shown(s: State, batch: string)
    requires Shaped(s)
  {
    exists j | 0 <= j < |s.batches| :: s.stages[j] == Acked && s.batches[j] == batch
  }

  predicate Enabled(s: State, step: Step)
    requires Shaped(s)
  {
    match step
    case Declare(i) => i < |s.batches| && s.stages[i] == Dialled && s.gates[i]
    case Issue(i) => i < |s.batches| && s.stages[i] == Declared
    case Request(i) => i < |s.batches| && s.stages[i] == Issued
    case Receive(i) => i < |s.batches| && s.stages[i] == Requested && s.released[i]
    case Ack(i) => i < |s.batches| && s.stages[i] == Received
    case Drive =>
      match s.phase
      case Collecting(i) => Rank(s.stages[i]) >= 3
      case Releasing(i) => i + 1 < |s.batches| ==> Shown(s, s.batches[i + 1])
      case Last => Shown(s, s.batches[0])
      case Done => false
  }

  function Apply(s: State, step: Step): (t: State)
    requires Shaped(s) && Enabled(s, step)
    ensures Shaped(t)
  {
    match step
    case Declare(i) => s.(stages := s.stages[i := Declared])
    case Issue(i) => s.(stages := s.stages[i := Issued], issued := s.issued + [i])
    case Request(i) => s.(stages := s.stages[i := Requested])
    case Receive(i) => s.(stages := s.stages[i := Received])
    case Ack(i) => s.(stages := s.stages[i := Acked], acked := s.acked + [i])
    case Drive =>
      match s.phase
      case Collecting(i) =>
        if i + 1 < |s.batches|
        then s.(gates := s.gates[i + 1 := true], phase := Collecting(i + 1))
        else s.(phase := Releasing(i))
      case Releasing(i) =>
        s.(released := s.released[i := true], phase := if i == 0 then Last else Releasing(i - 1))
      case Last => s.(phase := Done)
  }

  /** A run: any steps that were enabled, in any interleaving. */
  predicate Steps(s: State, steps: seq<Step>)
    requires Shaped(s)
    decreases |steps|
  {
    steps == [] || (Enabled(s, steps[0]) && Steps(Apply(s, steps[0]), steps[1..]))
  }

  function After(s: State, steps: seq<Step>): (t: State)
    requires Shaped(s) && Steps(s, steps)
    ensures Shaped(t)
    decreases |steps|
  {
    if steps == [] then s else After(Apply(s, steps[0]), steps[1..])
  }

  // ── the invariant ─────────────────────────────────────────────────────

  /** Gates open in stream order: those up to this index. */
  function Opened(s: State): nat
    requires Shaped(s)
  {
    if s.phase.Collecting? then s.phase.i else |s.batches| - 1
  }

  /** Releases happen in reverse: the streams from this index on. */
  function Freed(s: State): nat
    requires Shaped(s)
  {
    match s.phase
    case Collecting(_) => |s.batches| - 1
    case Releasing(i) => if i + 1 < |s.batches| then i + 1 else i
    case _ => 0
  }

  predicate Issuing(s: State)
    requires Shaped(s)
  {
    && (forall j | 0 <= j < |s.batches| :: s.gates[j] <==> j <= Opened(s))
    && (forall j | 0 <= j < |s.batches| && !s.gates[j] :: s.stages[j] == Dialled)
    && (forall j | 0 <= j < Opened(s) :: Rank(s.stages[j]) >= 3)
    && (!s.phase.Collecting? ==> Rank(s.stages[|s.batches| - 1]) >= 3)
    && |s.issued| <= |s.batches|
    && (forall j | 0 <= j < |s.issued| :: s.issued[j] == j)
    && (forall j | 0 <= j < |s.batches| :: Rank(s.stages[j]) >= 2 <==> j < |s.issued|)
  }

  predicate Freeing(s: State)
    requires Shaped(s)
  {
    forall j | 0 <= j < |s.batches| :: s.released[j] <==> j >= Freed(s)
  }

  predicate Acking(s: State)
    requires Shaped(s)
  {
    var n := |s.batches|;
    && Freeing(s)
    && (forall j | 0 <= j < n && Rank(s.stages[j]) >= 4 :: s.released[j])
    && (forall j | 0 <= j < n - 1 && s.released[j] :: s.stages[j + 1] == Acked)
    && |s.acked| <= n
    && (forall m | 0 <= m < |s.acked| :: s.acked[m] == n - 1 - m)
    && (forall j | 0 <= j < n :: s.stages[j] == Acked <==> j >= n - |s.acked|)
  }

  ghost predicate DistinctFrom(batches: seq<string>, start: nat) {
    forall i, j | start <= i < j < |batches| :: batches[i] != batches[j]
  }

  lemma StartHolds(batches: seq<string>)
    requires batches != []
    ensures Issuing(Start(batches)) && Acking(Start(batches))
  {}

  lemma IssuingKept(s: State, step: Step)
    requires Shaped(s) && Issuing(s) && Enabled(s, step)
    ensures Issuing(Apply(s, step))
  {
    match step
    case Issue(i) => IssueKept(s, i);
    case Drive => DriveIssues(s);
    case _ => QuietKept(s, step);
  }

  lemma QuietKept(s: State, step: Step)
    requires Shaped(s) && Issuing(s) && Enabled(s, step) && !step.Issue? && !step.Drive?
    ensures Issuing(Apply(s, step))
  {
    var t := Apply(s, step);
    assert t.gates == s.gates && t.phase == s.phase && t.issued == s.issued && t.batches == s.batches;
    forall j | 0 <= j < |s.batches|
      ensures Rank(t.stages[j]) >= 2 <==> Rank(s.stages[j]) >= 2
      ensures Rank(s.stages[j]) >= 3 ==> Rank(t.stages[j]) >= 3
      ensures !s.gates[j] ==> t.stages[j] == Dialled
    {}
  }

  lemma IssueKept(s: State, i: nat)
    requires Shaped(s) && Issuing(s) && Enabled(s, Issue(i))
    ensures Issuing(Apply(s, Issue(i)))
  {
    var last := Opened(s);
    assert last > 0 ==> Rank(s.stages[last - 1]) >= 3;
    assert s.gates[i];
    assert i == |s.issued|;
  }

  lemma DriveIssues(s: State)
    requires Shaped(s) && Issuing(s) && Enabled(s, Drive)
    ensures Issuing(Apply(s, Drive))
  {}

  /** Acknowledging is the turn of the stream below those already acknowledged. */
  lemma AckIsNext(s: State, i: nat)
    requires Shaped(s) && Acking(s) && i < |s.batches| && s.stages[i] == Received
    ensures i == |s.batches| - |s.acked| - 1
  {
    var n := |s.batches|;
    assert s.released[i] && i < n - |s.acked|;
    if i + 1 < n {
      assert s.stages[i + 1] == Acked;
    }
  }

  /** With the later batches distinct, seeing a batch id acknowledged means its
      own stream was. */
  lemma ShownIsOwn(s: State, i: nat)
    requires Shaped(s) && Acking(s) && DistinctFrom(s.batches, 1)
    requires s.phase == Releasing(i) && i + 1 < |s.batches| && Shown(s, s.batches[i + 1])
    ensures s.stages[i + 1] == Acked
  {
    var j :| 0 <= j < |s.batches| && s.stages[j] == Acked && s.batches[j] == s.batches[i + 1];
    assert s.released[j];
  }

  /** Steps short of an acknowledgement move one stream and nothing else. */
  lemma StageKeeps(s: State, i: nat, to: Stage)
    requires Shaped(s) && Acking(s) && i < |s.batches|
    requires s.stages[i] != Acked && to != Acked && (to == Received ==> s.released[i])
    ensures Shaped(s.(stages := s.stages[i := to])) && Acking(s.(stages := s.stages[i := to]))
  {}

  lemma AckKeeps(s: State, i: nat)
    requires Shaped(s) && Acking(s) && Enabled(s, Ack(i))
    ensures Acking(Apply(s, Ack(i)))
  {
    AckIsNext(s, i);
    var t := Apply(s, Ack(i));
    assert t.stages == s.stages[i := Acked] && t.released == s.released;
    assert Freed(t) == Freed(s);
  }

  lemma ReleaseKeeps(s: State)
    requires Shaped(s) && Acking(s) && s.phase.Releasing?
    requires s.phase.i + 1 < |s.batches| ==> s.stages[s.phase.i + 1] == Acked
    requires Enabled(s, Drive)
    ensures Acking(Apply(s, Drive))
  {
    var t := Apply(s, Drive);
    assert t.stages == s.stages && t.acked == s.acked;
    assert forall j | 0 <= j < |s.batches| :: t.released[j] <==> j >= Freed(t);
  }

  lemma DriveKeeps(s: State)
    requires Shaped(s) && Acking(s) && Enabled(s, Drive) && DistinctFrom(s.batches, 1)
    ensures Acking(Apply(s, Drive))
  {
    if s.phase.Releasing? {
      if s.phase.i + 1 < |s.batches| {
        ShownIsOwn(s, s.phase.i);
      }
      ReleaseKeeps(s);
    } else {
      var t := Apply(s, Drive);
      assert t.stages == s.stages && t.released == s.released && Freed(t) == Freed(s);
    }
  }

  lemma AckingKept(s: State, step: Step)
    requires Shaped(s) && Acking(s) && Enabled(s, step) && DistinctFrom(s.batches, 1)
    ensures Acking(Apply(s, step))
  {
    match step
    case Declare(i) => StageKeeps(s, i, Declared);
    case Issue(i) => StageKeeps(s, i, Issued); assert Freed(Apply(s, step)) == Freed(s);
    case Request(i) => StageKeeps(s, i, Requested);
    case Receive(i) => StageKeeps(s, i, Received);
    case Ack(i) => AckKeeps(s, i);
    case Drive => DriveKeeps(s);
  }

  // ── every interleaving ────────────────────────────────────────────────

  lemma {:induction false} RunKeeps(s: State, steps: seq<Step>)
    requires Shaped(s) && Steps(s, steps) && Issuing(s) && Acking(s) && DistinctFrom(s.batches, 1)
    ensures var t := After(s, steps);
      Issuing(t) && Acking(t) && t.batches == s.batches
    decreases |steps|
  {
    if steps != [] {
      IssuingKept(s, steps[0]);
      AckingKept(s, steps[0]);
      RunKeeps(Apply(s, steps[0]), steps[1..]);
    }
  }

  lemma {:induction false} RunIssues(s: State, steps: seq<Step>)
    requires Shaped(s) && Steps(s, steps) && Issuing(s)
    ensures Issuing(After(s, steps)) && After(s, steps).batches == s.batches
    decreases |steps|
  {
    if steps != [] {
      IssuingKept(s, steps[0]);
      RunIssues(Apply(s, steps[0]), steps[1..]);
    }
  }

  predicate IssuedInOrder(s: State) {
    forall j | 0 <= j < |s.issued| :: s.issued[j] == j
  }

  predicate AckedInReverse(s: State) {
    |s.acked| <= |s.batches|
    && forall m | 0 <= m < |s.acked| :: s.acked[m] == |s.batches| - 1 - m
  }

  /** Generations are issued in stream order in every run, whatever the ids. */
  lemma GenerationsInOrder(batches: seq<string>, steps: seq<Step>)
    requires batches != [] && Steps(Start(batches), steps)
    ensures IssuedInOrder(After(Start(batches), steps))
  {
    StartHolds(batches);
    RunIssues(Start(batches), steps);
  }

  /** Batches are acknowledged in reverse in every run, the later ids distinct. */
  lemma BatchesInReverse(batches: seq<string>, steps: seq<Step>)
    requires batches != [] && Steps(Start(batches), steps) && DistinctFrom(batches, 1)
    ensures AckedInReverse(After(Start(batches), steps))
  {
    StartHolds(batches);
    RunKeeps(Start(batches), steps);
  }

  // ── the condition is exact ────────────────────────────────────────────

  ghost predicate Reaches(s: State, t: State)
    requires Shaped(s)
  {
    exists steps :: Steps(s, steps) && After(s, steps) == t
  }

  lemma {:induction false} RunsJoin(s: State, a: seq<Step>, b: seq<Step>)
    requires Shaped(s) && Steps(s, a) && Steps(After(s, a), b)
    ensures Steps(s, a + b) && After(s, a + b) == After(After(s, a), b)
    decreases |a|
  {
    if a == [] {
      assert a + b == b;
    } else {
      assert (a + b)[0] == a[0] && (a + b)[1..] == a[1..] + b;
      RunsJoin(Apply(s, a[0]), a[1..], b);
    }
  }

  lemma ThenStep(s: State, t: State, step: Step)
    requires Shaped(s) && Shaped(t) && Reaches(s, t) && Enabled(t, step)
    ensures Reaches(s, Apply(t, step))
  {
    var steps :| Steps(s, steps) && After(s, steps) == t;
    assert [step][1..] == [];
    RunsJoin(s, steps, [step]);
    assert After(s, steps + [step]) == Apply(t, step);
  }

  /** The state when the first `i` requests have been seen and nothing else ran. */
  function Gathered(batches: seq<string>, i: nat): (s: State)
    requires i < |batches|
    ensures Shaped(s)
  {
    var n := |batches|;
    State(batches, seq(n, j => if j < i then Requested else Dialled), seq(n, j => j <= i),
          seq(n, j => j == n - 1), Collecting(i), seq(i, j => j), [])
  }

  /** The state when the streams above `i` have been released and acknowledged in turn. */
  function Unwound(batches: seq<string>, i: nat): (s: State)
    requires i < |batches|
    ensures Shaped(s)
  {
    var n := |batches|;
    State(batches, seq(n, j => if j <= i then Requested else Acked), seq(n, j => true),
          seq(n, j => j > i || j == n - 1), Releasing(i), seq(n, j => j),
          seq(n - 1 - i, m => n - 1 - m))
  }

  /** One stream's declare, issue and request after the first `i`. */
  function Asked(batches: seq<string>, i: nat): (s: State)
    requires i < |batches|
    ensures Shaped(s) && Enabled(s, Drive)
  {
    var s := Gathered(batches, i);
    s.(stages := s.stages[i := Requested], issued := s.issued + [i])
  }

  lemma ReachAsked(batches: seq<string>, i: nat)
    requires i < |batches| && Reaches(Start(batches), Gathered(batches, i))
    ensures Reaches(Start(batches), Asked(batches, i))
  {
    var s := Gathered(batches, i);
    ThenStep(Start(batches), s, Declare(i));
    var t := Apply(s, Declare(i));
    ThenStep(Start(batches), t, Issue(i));
    var u := Apply(t, Issue(i));
    ThenStep(Start(batches), u, Request(i));
    assert Apply(u, Request(i)).stages == Asked(batches, i).stages;
    assert Apply(u, Request(i)) == Asked(batches, i);
  }

  lemma GatherOne(batches: seq<string>, i: nat)
    requires 0 < i < |batches|
    ensures Apply(Asked(batches, i - 1), Drive) == Gathered(batches, i)
  {
    var s, t := Apply(Asked(batches, i - 1), Drive), Gathered(batches, i);
    assert s.stages == t.stages;
    assert s.gates == t.gates;
    assert s.issued == t.issued;
  }

  lemma {:induction false} ReachGathered(batches: seq<string>, i: nat)
    requires i < |batches|
    ensures Reaches(Start(batches), Gathered(batches, i))
  {
    if i == 0 {
      assert Start(batches) == Gathered(batches, 0);
      assert Steps(Start(batches), []) && After(Start(batches), []) == Start(batches);
    } else {
      ReachGathered(batches, i - 1);
      ReachAsked(batches, i - 1);
      ThenStep(Start(batches), Asked(batches, i - 1), Drive);
      GatherOne(batches, i);
    }
  }

  /** The last request seen, nothing is left to gather. */
  lemma AskedUnwinds(batches: seq<string>, i: nat)
    requires i == |batches| - 1
    ensures Apply(Asked(batches, i), Drive) == Unwound(batches, i)
  {
    var t, u := Apply(Asked(batches, i), Drive), Unwound(batches, i);
    assert t.stages == u.stages && t.gates == u.gates && t.released == u.released;
    assert t.issued == u.issued && t.acked == u.acked;
  }

  lemma {:induction false} ReachUnwound(batches: seq<string>, i: nat)
    requires i < |batches|
    ensures Reaches(Start(batches), Unwound(batches, i))
    decreases |batches| - i
  {
    var n := |batches|;
    if i == n - 1 {
      ReachGathered(batches, i);
      ReachAsked(batches, i);
      ThenStep(Start(batches), Asked(batches, i), Drive);
      AskedUnwinds(batches, i);
    } else {
      ReachUnwound(batches, i + 1);
      UnwindOne(batches, i + 1);
    }
  }

  lemma MayRelease(batches: seq<string>, i: nat)
    requires i < |batches|
    ensures Enabled(Unwound(batches, i), Drive)
  {
    var s := Unwound(batches, i);
    if i + 1 < |batches| {
      assert s.stages[i + 1] == Acked && s.batches[i + 1] == batches[i + 1];
      assert Shown(s, s.batches[i + 1]);
    }
  }

  lemma UnwindOne(batches: seq<string>, i: nat)
    requires 0 < i < |batches| && Reaches(Start(batches), Unwound(batches, i))
    ensures Reaches(Start(batches), Unwound(batches, i - 1))
  {
    var s := Unwound(batches, i);
    MayRelease(batches, i);
    ThenStep(Start(batches), s, Drive);
    var t := Apply(s, Drive);
    ThenStep(Start(batches), t, Receive(i));
    var u := Apply(t, Receive(i));
    ThenStep(Start(batches), u, Ack(i));
    UnwoundNext(batches, i);
  }

  lemma UnwoundNext(batches: seq<string>, i: nat)
    requires 0 < i < |batches| && Enabled(Unwound(batches, i), Drive)
    ensures var t := Apply(Unwound(batches, i), Drive);
      Enabled(t, Receive(i)) && Apply(Apply(t, Receive(i)), Ack(i)) == Unwound(batches, i - 1)
  {
    var t := Apply(Apply(Apply(Unwound(batches, i), Drive), Receive(i)), Ack(i));
    var n := Unwound(batches, i - 1);
    assert t.stages == n.stages;
    assert t.released == n.released;
    assert t.acked == n.acked;
  }

  /** The driver, waiting for the p-th batch, sees the recurring id already shown
      and goes on to the stream before it. */
  lemma GoesOn(batches: seq<string>, p: nat, q: nat) returns (u: State)
    requires 1 <= p < q < |batches| && batches[p] == batches[q]
    ensures var s := Unwound(batches, p);
      Enabled(s, Drive) && Enabled(Apply(s, Drive), Drive) && u == Apply(Apply(s, Drive), Drive)
    ensures Reaches(Start(batches), u)
  {
    var start, s := Start(batches), Unwound(batches, p);
    ReachUnwound(batches, p);
    MayRelease(batches, p);
    ThenStep(start, s, Drive);
    var t := Apply(s, Drive);
    ShownAlready(batches, p, q);
    ThenStep(start, t, Drive);
    u := Apply(t, Drive);
  }

  lemma ShownAlready(batches: seq<string>, p: nat, q: nat)
    requires 1 <= p < q < |batches| && batches[p] == batches[q] && Enabled(Unwound(batches, p), Drive)
    ensures Enabled(Apply(Unwound(batches, p), Drive), Drive)
  {
    var t := Apply(Unwound(batches, p), Drive);
    assert t.stages[q] == Acked && t.batches[q] == t.batches[p];
    assert Shown(t, t.batches[p]);
  }

  /** A batch id that recurs further on is seen acknowledged before its own
      stream is, so the stream before it may finish first. */
  lemma RepeatBreaks(batches: seq<string>, p: nat, q: nat)
    requires 1 <= p < q < |batches| && batches[p] == batches[q]
    ensures exists steps :: Steps(Start(batches), steps) && !AckedInReverse(After(Start(batches), steps))
  {
    var start := Start(batches);
    var u := GoesOn(batches, p, q);
    ThenStep(start, u, Receive(p - 1));
    var v := Apply(u, Receive(p - 1));
    ThenStep(start, v, Ack(p - 1));
    var w := Apply(v, Ack(p - 1));
    var m := |batches| - 1 - p;
    assert w.acked[m] == p - 1;
    assert !AckedInReverse(w);
    var steps :| Steps(start, steps) && After(start, steps) == w;
    assert !AckedInReverse(After(start, steps));
  }

  /** Three streams of two ids. */
  lemma OneIdTwice()
    ensures exists steps ::
      Steps(Start(["a", "b", "b"]), steps) && !AckedInReverse(After(Start(["a", "b", "b"]), steps))
  {
    RepeatBreaks(["a", "b", "b"], 1, 2);
  }

  ghost predicate AlwaysReversed(batches: seq<string>)
    requires batches != []
  {
    forall steps | Steps(Start(batches), steps) :: AckedInReverse(After(Start(batches), steps))
  }

  /** The schedule forces the reverse order in every interleaving exactly when
      no batch id after the first stream's is used twice. */
  lemma ReversedIffDistinct(batches: seq<string>)
    requires batches != []
    ensures AlwaysReversed(batches) <==> DistinctFrom(batches, 1)
  {
    if DistinctFrom(batches, 1) {
      forall steps | Steps(Start(batches), steps)
        ensures AckedInReverse(After(Start(batches), steps))
      {
        BatchesInReverse(batches, steps);
      }
    } else {
      var p, q :| 1 <= p < q < |batches| && batches[p] == batches[q];
      RepeatBreaks(batches, p, q);
    }
  }

  // ── no deadlock, no livelock ──────────────────────────────────────────

  function Remaining(stages: seq<Stage>): nat {
    if stages == [] then 0 else 5 - Rank(stages[|stages| - 1]) + Remaining(stages[..|stages| - 1])
  }

  function Ahead(s: State): nat
    requires Shaped(s)
  {
    match s.phase
    case Collecting(i) => 2 * |s.batches| - i + 1
    case Releasing(i) => i + 2
    case Last => 1
    case Done => 0
  }

  /** Steps left: five a stream, and the driver's own. */
  function Measure(s: State): nat
    requires Shaped(s)
  {
    Remaining(s.stages) + Ahead(s)
  }

  lemma {:induction false} StageAdvances(stages: seq<Stage>, i: nat, to: Stage)
    requires i < |stages| && Rank(to) == Rank(stages[i]) + 1
    ensures Remaining(stages[i := to]) == Remaining(stages) - 1
  {
    var n := |stages| - 1;
    if i < n {
      StageAdvances(stages[..n], i, to);
      assert stages[i := to][..n] == stages[..n][i := to];
    } else {
      assert stages[i := to][..n] == stages[..n];
    }
  }

  /** Every step of every run uses one of finitely many up. */
  lemma MeasureDecreases(s: State, step: Step)
    requires Shaped(s) && Enabled(s, step)
    ensures Measure(Apply(s, step)) < Measure(s)
  {
    match step
    case Declare(i) => StageAdvances(s.stages, i, Declared);
    case Issue(i) => StageAdvances(s.stages, i, Issued);
    case Request(i) => StageAdvances(s.stages, i, Requested);
    case Receive(i) => StageAdvances(s.stages, i, Received);
    case Ack(i) => StageAdvances(s.stages, i, Acked);
    case Drive =>
  }

  lemma FreeingKept(s: State, step: Step)
    requires Shaped(s) && Freeing(s) && Enabled(s, step)
    ensures Freeing(Apply(s, step))
  {}

  lemma {:induction false} RunFrees(s: State, steps: seq<Step>)
    requires Shaped(s) && Freeing(s) && Steps(s, steps)
    ensures Freeing(After(s, steps))
    decreases |steps|
  {
    if steps != [] {
      FreeingKept(s, steps[0]);
      RunFrees(Apply(s, steps[0]), steps[1..]);
    }
  }

  /** In every unfinished state some thread can move. */
  lemma NeverStuck(s: State)
    requires Shaped(s) && Issuing(s) && Freeing(s) && s.phase != Done
    ensures exists step :: Enabled(s, step)
  {
    var n := |s.batches|;
    var i := match s.phase
      case Collecting(i) => i
      case Releasing(i) => if i + 1 < n then i + 1 else i
      case Last => 0
      case Done => 0;
    match s.stages[i]
    case Dialled => assert Enabled(s, Declare(i));
    case Declared => assert Enabled(s, Issue(i));
    case Issued => assert Enabled(s, Request(i));
    case Requested =>
      if s.phase.Collecting? {
        assert Enabled(s, Drive);
      } else {
        assert s.released[i];
        assert Enabled(s, Receive(i));
      }
    case Received => assert Enabled(s, Ack(i));
    case Acked => assert Enabled(s, Drive);
  }

  /** So no run, however its threads were scheduled and whatever ids repeat, ends
      before it is finished. */
  lemma RunNeverStuck(batches: seq<string>, steps: seq<Step>)
    requires batches != [] && Steps(Start(batches), steps)
    requires After(Start(batches), steps).phase != Done
    ensures exists step :: Enabled(After(Start(batches), steps), step)
  {
    StartHolds(batches);
    RunIssues(Start(batches), steps);
    RunFrees(Start(batches), steps);
    NeverStuck(After(Start(batches), steps));
  }

  /** A finished run acknowledged every batch, last first. */
  lemma FinishedIsComplete(batches: seq<string>, steps: seq<Step>)
    requires batches != [] && Steps(Start(batches), steps) && DistinctFrom(batches, 0)
    requires After(Start(batches), steps).phase == Done
    ensures var t := After(Start(batches), steps);
      |t.issued| == |t.acked| == |batches| && IssuedInOrder(t) && AckedInReverse(t)
  {
    StartHolds(batches);
    RunKeeps(Start(batches), steps);
    RunFinishes(Start(batches), steps);
    var t := After(Start(batches), steps);
    assert t.stages[0] == Acked;
    assert Rank(t.stages[|batches| - 1]) >= 2;
  }

  lemma {:induction false} RunFinishes(s: State, steps: seq<Step>)
    requires Shaped(s) && Steps(s, steps) && DistinctFrom(s.batches, 0)
    requires s.phase == Done ==> s.stages[0] == Acked
    ensures After(s, steps).phase == Done ==> After(s, steps).stages[0] == Acked
    decreases |steps|
  {
    if steps != [] {
      RunFinishes(Apply(s, steps[0]), steps[1..]);
    }
  }
}
