/** What the second thread conserves, and what the thread-blind reading of it sees. */
module ThreadsTheory {
  import opened Options
  import opened Document
  import opened Decimals
  import opened OrderedDict
  import opened Threads

  // ── the blind reading ─────────────────────────────────────────────────

  predicate BothElsewhere(x: Line, y: Line, owner: Owner) {
    x.Record? && y.Record? && x.owner != owner && y.owner != owner
  }

  lemma {:induction false} SamePairs(a: seq<Line>, b: seq<Line>, owner: Owner)
    requires |a| == |b|
    requires forall i | 0 <= i < |a| :: a[i] == b[i] || BothElsewhere(a[i], b[i], owner)
    ensures Pairs(a, owner) == Pairs(b, owner)
  {
    if a != [] {
      var n := |a| - 1;
      SamePairs(a[..n], b[..n], owner);
    }
  }

  lemma ShareKeepsThread0(thread: Figures, lines: seq<Line>)
    ensures Table(SharedAll(thread, lines), Thread0) == Table(lines, Thread0)
  {
    SamePairs(SharedAll(thread, lines), lines, Thread0);
  }

  /** Reading one thread's share of a share changes nothing more. */
  lemma ShareTwice(lines: seq<Line>)
    ensures var once := SharedAll(Table(lines, Thread0), lines);
      SharedAll(Table(once, Thread0), once) == once
  {
    ShareKeepsThread0(Table(lines, Thread0), lines);
  }

  /** Every total stands at its thread 0 twin's figure. */
  ghost predicate TotalsAreTwins(lines: seq<Line>) {
    forall i | 0 <= i < |lines| :: TwinHolds(Table(lines, Thread0), lines[i])
  }

  predicate TwinHolds(thread0: Figures, line: Line) {
    line.Record? && line.owner.Total? && Get(thread0, line.tail).Some? ==>
      line.value == Get(thread0, line.tail).value
  }

  lemma ShareIsIdentityIff(lines: seq<Line>)
    ensures SharedAll(Table(lines, Thread0), lines) == lines <==> TotalsAreTwins(lines)
  {
    var thread0 := Table(lines, Thread0);
    var out := SharedAll(thread0, lines);
    if out == lines {
      forall i | 0 <= i < |lines| ensures TwinHolds(thread0, lines[i]) {
        assert out[i] == Shared(thread0, lines[i]);
      }
    } else if TotalsAreTwins(lines) {
      forall i | 0 <= i < |lines| ensures out[i] == lines[i] {
        assert TwinHolds(thread0, lines[i]);
      }
    }
  }

  // ── the document after the operator ───────────────────────────────────

  predicate IsThread1(line: Line) {
    line.Record? && line.owner.Thread1?
  }

  ghost predicate OneThread(lines: seq<Line>) {
    TotalsAreTwins(lines) && forall i | 0 <= i < |lines| :: !IsThread1(lines[i])
  }

  function WithoutThread1(lines: seq<Line>): seq<Line> {
    if lines == [] then []
    else
      var n := |lines| - 1;
      WithoutThread1(lines[..n]) + (if IsThread1(lines[n]) then [] else [lines[n]])
  }

  lemma {:induction false} WithoutJoins(a: seq<Line>, b: seq<Line>)
    ensures WithoutThread1(a + b) == WithoutThread1(a) + WithoutThread1(b)
  {
    if b == [] {
      assert a + b == a && WithoutThread1(a) + [] == WithoutThread1(a);
    } else {
      var n := |b| - 1;
      WithoutJoins(a, b[..n]);
      assert (a + b)[..|a + b| - 1] == a + b[..n];
    }
  }

  lemma {:induction false} PairsJoin(a: seq<Line>, b: seq<Line>, owner: Owner)
    ensures Pairs(a + b, owner) == Pairs(a, owner) + Pairs(b, owner)
  {
    if b == [] {
      assert a + b == a && Pairs(a, owner) + [] == Pairs(a, owner);
    } else {
      var n := |b| - 1;
      PairsJoin(a, b[..n], owner);
      assert (a + b)[..|a + b| - 1] == a + b[..n];
    }
  }

  lemma {:induction false} BlockHidden(minted: map<string, nat>, thread0: Figures, n: nat)
    requires n <= |thread0| && DistinctKeys(thread0)
    ensures WithoutThread1(Block(minted, thread0, n)) == [] && Pairs(Block(minted, thread0, n), Thread0) == []
  {
    if n > 0 {
      BlockHidden(minted, thread0, n - 1);
      BlockEnds(minted, thread0, n);
    }
  }

  lemma BlockEnds(minted: map<string, nat>, thread0: Figures, n: nat)
    requires 0 < n <= |thread0| && DistinctKeys(thread0)
    ensures Get(thread0, thread0[n - 1].key).Some?
    ensures var block := Block(minted, thread0, n);
      && block[..n - 1] == Block(minted, thread0, n - 1)
      && block[n - 1] == Record(Thread1, thread0[n - 1].key, Share(minted, thread0, thread0[n - 1].key))
  {
    GetAt(thread0, n - 1);
  }

  lemma BlockLines(minted: map<string, nat>, thread0: Figures, n: nat)
    requires n <= |thread0| && DistinctKeys(thread0)
    ensures |Pairs(Block(minted, thread0, n), Thread1)| == n
    ensures forall i | 0 <= i < n ::
      Get(thread0, thread0[i].key).Some?
      && Pairs(Block(minted, thread0, n), Thread1)[i]
           == Member(thread0[i].key, Share(minted, thread0, thread0[i].key))
  {
    if n == 0 {
      assert Pairs([], Thread1) == [];
    } else {
      BlockLine(minted, thread0, n, 0);
    }
    forall i | 0 <= i < n { BlockLine(minted, thread0, n, i); }
  }

  lemma {:induction false} BlockLine(minted: map<string, nat>, thread0: Figures, n: nat, i: nat)
    requires i < n <= |thread0| && DistinctKeys(thread0)
    ensures Get(thread0, thread0[i].key).Some?
    ensures var pairs := Pairs(Block(minted, thread0, n), Thread1);
      |pairs| == n && pairs[i] == Member(thread0[i].key, Share(minted, thread0, thread0[i].key))
    decreases n
  {
    BlockPairs(minted, thread0, n);
    if n == 1 {
      assert Pairs(Block(minted, thread0, 0), Thread1) == [];
    } else {
      BlockLine(minted, thread0, n - 1, if i < n - 1 then i else 0);
    }
  }

  lemma BlockPairs(minted: map<string, nat>, thread0: Figures, n: nat)
    requires 0 < n <= |thread0| && DistinctKeys(thread0)
    ensures Get(thread0, thread0[n - 1].key).Some?
    ensures Pairs(Block(minted, thread0, n), Thread1) == Pairs(Block(minted, thread0, n - 1), Thread1)
      + [Member(thread0[n - 1].key, Share(minted, thread0, thread0[n - 1].key))]
  {
    BlockEnds(minted, thread0, n);
  }

  /** Each line, a total raised where it is one. */
  function Risen(read: Reader, minted: map<string, nat>, thread0: Figures, line: Line): Line {
    match Raised(read, minted, thread0, line)
    case Some(raised) => raised
    case None => line
  }

  function RisenAll(read: Reader, minted: map<string, nat>, thread0: Figures, lines: seq<Line>): (out: seq<Line>)
    ensures |out| == |lines| && forall i | 0 <= i < |lines| :: out[i] == Risen(read, minted, thread0, lines[i])
  {
    seq(|lines|, i requires 0 <= i < |lines| => Risen(read, minted, thread0, lines[i]))
  }

  ghost predicate AllRise(read: Reader, minted: map<string, nat>, thread0: Figures, lines: seq<Line>) {
    forall i | 0 <= i < |lines| :: Raised(read, minted, thread0, lines[i]).Some?
  }

  /** The output of the operator on these lines: its input with totals raised, and
      one block of the new thread's records when anything but thread 0's is there. */
  ghost predicate Shape(read: Reader, minted: map<string, nat>, thread0: Figures, lines: seq<Line>, out: seq<Line>)
    requires DistinctKeys(thread0)
  {
    && WithoutThread1(out) == RisenAll(read, minted, thread0, lines)
    && Pairs(out, Thread0) == Pairs(lines, Thread0)
    && Pairs(out, Thread1)
         == if OnlyThread0(lines) then [] else Pairs(Block(minted, thread0, |thread0|), Thread1)
  }

  lemma {:induction false} WidenedShape(read: Reader, minted: map<string, nat>, thread0: Figures, lines: seq<Line>)
    requires DistinctKeys(thread0) && Widened(read, minted, thread0, lines).Some?
    requires forall i | 0 <= i < |lines| :: !IsThread1(lines[i])
    ensures AllRise(read, minted, thread0, lines)
    ensures Shape(read, minted, thread0, lines, Widened(read, minted, thread0, lines).value)
  {
    if lines != [] {
      var n := |lines| - 1;
      var before, line := lines[..n], lines[n];
      assert lines == before + [line];
      WidenedGrows(read, minted, thread0, before, line);
      WidenedShape(read, minted, thread0, before);
      NextShape(read, minted, thread0, before, line, Widened(read, minted, thread0, before).value);
      RiseGrows(read, minted, thread0, before, line);
    }
  }

  lemma RiseGrows(read: Reader, minted: map<string, nat>, thread0: Figures, before: seq<Line>, line: Line)
    requires AllRise(read, minted, thread0, before) && Raised(read, minted, thread0, line).Some?
    ensures AllRise(read, minted, thread0, before + [line])
  {}

  lemma NextShape(read: Reader, minted: map<string, nat>, thread0: Figures, before: seq<Line>, line: Line, out: seq<Line>)
    requires DistinctKeys(thread0) && !IsThread1(line) && Shape(read, minted, thread0, before, out)
    requires Next(read, minted, thread0, out, !OnlyThread0(before), line).Some?
    ensures Raised(read, minted, thread0, line).Some?
    ensures Shape(read, minted, thread0, before + [line],
                  Next(read, minted, thread0, out, !OnlyThread0(before), line).value)
  {
    var risen := Risen(read, minted, thread0, line);
    assert out + [] == out;
    if IsThread0(line) || !OnlyThread0(before) {
      ShapeGrows(read, minted, thread0, before, line, out, []);
    } else {
      ShapeGrows(read, minted, thread0, before, line, out, Block(minted, thread0, |thread0|));
    }
  }

  lemma ShapeGrows(read: Reader, minted: map<string, nat>, thread0: Figures, before: seq<Line>, line: Line,
                   out: seq<Line>, block: seq<Line>)
    requires DistinctKeys(thread0) && !IsThread1(line) && Shape(read, minted, thread0, before, out)
    requires block ==
      if IsThread0(line) || !OnlyThread0(before) then [] else Block(minted, thread0, |thread0|)
    ensures Shape(read, minted, thread0, before + [line], out + block + [Risen(read, minted, thread0, line)])
  {
    var risen := Risen(read, minted, thread0, line);
    BlockHidden(minted, thread0, |thread0|);
    PairsOne(line, risen);
    OnlyGrows(before, line);
    RisenGrows(read, minted, thread0, before, line, out, block);
    Thread0Grows(before, line, out, block, risen);
    Thread1Grows(out, block, risen);
  }

  lemma RisenGrows(read: Reader, minted: map<string, nat>, thread0: Figures, before: seq<Line>, line: Line,
                   out: seq<Line>, block: seq<Line>)
    requires WithoutThread1(out) == RisenAll(read, minted, thread0, before) && WithoutThread1(block) == []
    requires var risen := Risen(read, minted, thread0, line);
      WithoutThread1([risen]) == [risen]
    ensures WithoutThread1(out + block + [Risen(read, minted, thread0, line)])
      == RisenAll(read, minted, thread0, before + [line])
  {
    var risen := Risen(read, minted, thread0, line);
    WithoutJoins(out, block);
    WithoutJoins(out + block, [risen]);
    assert RisenAll(read, minted, thread0, before + [line]) == RisenAll(read, minted, thread0, before) + [risen];
  }

  lemma Thread0Grows(before: seq<Line>, line: Line, out: seq<Line>, block: seq<Line>, risen: Line)
    requires Pairs(out, Thread0) == Pairs(before, Thread0) && Pairs(block, Thread0) == []
    requires Pairs([risen], Thread0) == Pairs([line], Thread0)
    ensures Pairs(out + block + [risen], Thread0) == Pairs(before + [line], Thread0)
  {
    PairsJoin(out, block, Thread0);
    PairsJoin(out + block, [risen], Thread0);
    PairsJoin(before, [line], Thread0);
  }

  lemma Thread1Grows(out: seq<Line>, block: seq<Line>, risen: Line)
    requires Pairs([risen], Thread1) == []
    ensures Pairs(out + block + [risen], Thread1) == Pairs(out, Thread1) + Pairs(block, Thread1)
  {
    PairsJoin(out, block, Thread1);
    PairsJoin(out + block, [risen], Thread1);
  }

  lemma OnlyGrows(before: seq<Line>, line: Line)
    ensures OnlyThread0(before + [line]) <==> OnlyThread0(before) && IsThread0(line)
  {
    assert forall i | 0 <= i < |before| :: (before + [line])[i] == before[i];
    assert (before + [line])[|before|] == line;
  }

  lemma PairsSingle(line: Line, owner: Owner)
    ensures Pairs([line], owner)
      == if line.Record? && line.owner == owner then [Member(line.tail, line.value)] else []
    ensures WithoutThread1([line]) == if IsThread1(line) then [] else [line]
  {
    assert [line][..0] == [];
  }

  lemma PairsOne(line: Line, risen: Line)
    requires !IsThread1(line)
    requires risen == line || (line.Record? && line.owner.Total? && risen.Record? && risen.owner.Total?)
    ensures WithoutThread1([risen]) == [risen] && Pairs([risen], Thread1) == []
    ensures Pairs([risen], Thread0) == Pairs([line], Thread0)
  {
    PairsSingle(risen, Thread0);
    PairsSingle(risen, Thread1);
    PairsSingle(line, Thread0);
  }

  lemma {:induction false} WithoutMembers(lines: seq<Line>, x: Line)
    ensures x in WithoutThread1(lines) <==> x in lines && !IsThread1(x)
  {
    if lines != [] {
      var n := |lines| - 1;
      WithoutMembers(lines[..n], x);
      assert lines == lines[..n] + [lines[n]];
    }
  }

  lemma KeyAt(thread0: Figures, tail: string) returns (i: nat)
    requires Get(thread0, tail).Some?
    ensures i < |thread0| && thread0[i].key == tail
  {
    GetMember(thread0, tail);
    i :| 0 <= i < |thread0| && thread0[i] == Member(tail, Get(thread0, tail).value);
  }

  /** The block's table holds the new thread's figure under each of thread 0's tails. */
  lemma BlockGives(minted: map<string, nat>, thread0: Figures, tail: string)
    requires DistinctKeys(thread0) && Get(thread0, tail).Some?
    ensures Get(Assigned(Pairs(Block(minted, thread0, |thread0|), Thread1)), tail)
      == Some(Share(minted, thread0, tail))
  {
    var pairs := Pairs(Block(minted, thread0, |thread0|), Thread1);
    BlockLines(minted, thread0, |thread0|);
    AssignedDistinct(pairs);
    var i := KeyAt(thread0, tail);
    GetAt(pairs, i);
  }

  /** What is asked of `int()`: it reads back what `str()` writes. */
  ghost predicate ReadsBack(read: Reader) {
    forall n :: read(ShowInt(n)) == Some(n)
  }

  /** A reading of ASCII digits is one such. */
  function PlainReader(): Reader {
    s =>
      if s != "" && s[0] == '-' then
        if Whole(s[1..]) then Some(-(Decimal(s[1..]) as int)) else None
      else if Whole(s) then Some(Decimal(s)) else None
  }

  predicate Whole(s: string) {
    s != "" && AllDigits(s)
  }

  lemma PlainReadsBack()
    ensures ReadsBack(PlainReader())
  {
    forall n ensures PlainReader()(ShowInt(n)) == Some(n) {
      var size := if n < 0 then -n else n;
      ShowBack(size);
      assert n < 0 ==> ShowInt(n)[1..] == Show(size);
    }
  }

  /** A total of the new document is the sum of its two threads' figures. */
  ghost predicate SumsThreads(read: Reader, out: seq<Line>, line: Line) {
    line.Record? && line.owner.Total? &&
    var first, second := Get(Table(out, Thread0), line.tail), Get(Table(out, Thread1), line.tail);
    && first.Some? && second.Some?
    && read(first.value).Some? && read(second.value).Some?
    && read(line.value) == Some(read(first.value).value + read(second.value).value)
  }

  /** A one-thread document, given a second thread. */
  ghost predicate GivenSecond(read: Reader, minted: map<string, nat>, lines: seq<Line>, out: seq<Line>) {
    OneThread(lines) && Outcomes(read, minted, lines) == Widens(out)
  }

  lemma SecondShape(read: Reader, minted: map<string, nat>, lines: seq<Line>, out: seq<Line>)
    requires GivenSecond(read, minted, lines, out)
    ensures DistinctKeys(Table(lines, Thread0))
    ensures AllRise(read, minted, Table(lines, Thread0), lines)
    ensures Shape(read, minted, Table(lines, Thread0), lines, out)
    ensures Table(out, Thread0) == Table(lines, Thread0)
  {
    FirstPositionLastValue(Pairs(lines, Thread0));
    WidenedShape(read, minted, Table(lines, Thread0), lines);
  }

  /** Conservation: past the new block, line for line, each summed total is the
      two threads' sum, and every other line is what it was. */
  lemma SecondThreadConserves(read: Reader, minted: map<string, nat>, lines: seq<Line>, out: seq<Line>)
    requires ReadsBack(read) && GivenSecond(read, minted, lines, out)
    ensures Table(out, Thread0) == Table(lines, Thread0)
    ensures |WithoutThread1(out)| == |lines|
    ensures forall i | 0 <= i < |lines| ::
      if Adds(Table(lines, Thread0), lines[i]) then
        SumsThreads(read, out, WithoutThread1(out)[i]) && WithoutThread1(out)[i].tail == lines[i].tail
      else WithoutThread1(out)[i] == lines[i]
  {
    var thread0 := Table(lines, Thread0);
    SecondShape(read, minted, lines, out);
    forall i | 0 <= i < |lines| && Adds(thread0, lines[i])
      ensures SumsThreads(read, out, Risen(read, minted, thread0, lines[i]))
    {
      assert TwinHolds(thread0, lines[i]) && Raised(read, minted, thread0, lines[i]).Some?;
      assert !IsThread0(lines[i]);
      BlockGives(minted, thread0, lines[i].tail);
      RisenSums(read, minted, thread0, lines[i], out);
    }
  }

  lemma RisenSums(read: Reader, minted: map<string, nat>, thread0: Figures, line: Line, out: seq<Line>)
    requires ReadsBack(read) && Adds(thread0, line) && TwinHolds(thread0, line) && Raised(read, minted, thread0, line).Some?
    requires Get(Table(out, Thread0), line.tail) == Get(thread0, line.tail)
    requires Get(Table(out, Thread1), line.tail) == Some(Share(minted, thread0, line.tail))
    ensures SumsThreads(read, out, Risen(read, minted, thread0, line))
  {
    var sum := read(line.value).value + read(Share(minted, thread0, line.tail)).value;
    assert read(ShowInt(sum)) == Some(sum);
  }

  lemma {:induction false} ShareCommutes(thread: Figures, lines: seq<Line>)
    ensures WithoutThread1(SharedAll(thread, lines)) == SharedAll(thread, WithoutThread1(lines))
  {
    if lines != [] {
      var n := |lines| - 1;
      ShareCommutes(thread, lines[..n]);
      assert SharedAll(thread, lines)[..n] == SharedAll(thread, lines[..n]);
    }
  }

  /** The port that reads one thread's share sees, past the new block, the very
      document it saw before the thread was added. */
  lemma ShareUndoesSecondThread(read: Reader, minted: map<string, nat>, lines: seq<Line>, out: seq<Line>)
    requires GivenSecond(read, minted, lines, out)
    ensures WithoutThread1(SharedAll(Table(out, Thread0), out)) == lines
  {
    var thread0 := Table(lines, Thread0);
    SecondShape(read, minted, lines, out);
    ShareCommutes(thread0, out);
    SharedRisen(read, minted, thread0, lines);
  }

  lemma SharedRisen(read: Reader, minted: map<string, nat>, thread0: Figures, lines: seq<Line>)
    requires forall i | 0 <= i < |lines| :: TwinHolds(thread0, lines[i])
    ensures SharedAll(thread0, RisenAll(read, minted, thread0, lines)) == lines
  {
    var risen := RisenAll(read, minted, thread0, lines);
    forall i | 0 <= i < |lines| ensures Shared(thread0, risen[i]) == lines[i] {
      assert TwinHolds(thread0, lines[i]);
    }
  }

  /** So it differs from the correct reading exactly when the new thread did
      anything that is summed, or a summed total was not spelled as `str()` does. */
  lemma ShareSeesIff(read: Reader, minted: map<string, nat>, lines: seq<Line>, out: seq<Line>)
    requires ReadsBack(read) && GivenSecond(read, minted, lines, out)
    ensures SharedAll(Table(out, Thread0), out) != out <==> exists i :: Busy(read, minted, lines, i)
  {
    var thread0 := Table(lines, Thread0);
    SecondShape(read, minted, lines, out);
    ShareIsIdentityIff(out);
    var risen := RisenAll(read, minted, thread0, lines);
    forall i | 0 <= i < |lines|
      ensures TwinHolds(thread0, risen[i]) <==> !Busy(read, minted, lines, i)
    {
      TwinHoldsIff(read, minted, lines, i);
    }
    if TotalsAreTwins(out) {
      forall i | 0 <= i < |lines| ensures TwinHolds(thread0, risen[i]) {
        WithoutMembers(out, risen[i]);
        var j :| 0 <= j < |out| && out[j] == risen[i];
      }
    } else {
      var j :| 0 <= j < |out| && !TwinHolds(thread0, out[j]);
      WithoutMembers(out, out[j]);
      var i :| 0 <= i < |risen| && risen[i] == out[j];
      assert Busy(read, minted, lines, i);
    }
  }

  /** The i-th line is a summed total that raising rewrites. */
  ghost predicate Busy(read: Reader, minted: map<string, nat>, lines: seq<Line>, i: int) {
    0 <= i < |lines| && Adds(Table(lines, Thread0), lines[i])
    && (read(Share(minted, Table(lines, Thread0), lines[i].tail)) != Some(0)
        || (read(lines[i].value).Some? && lines[i].value != ShowInt(read(lines[i].value).value)))
  }

  lemma TwinHoldsIff(read: Reader, minted: map<string, nat>, lines: seq<Line>, i: nat)
    requires ReadsBack(read)
    requires OneThread(lines) && i < |lines| && AllRise(read, minted, Table(lines, Thread0), lines)
    ensures TwinHolds(Table(lines, Thread0), Risen(read, minted, Table(lines, Thread0), lines[i]))
      <==> !Busy(read, minted, lines, i)
  {
    var thread0 := Table(lines, Thread0);
    assert TwinHolds(thread0, lines[i]) && Raised(read, minted, thread0, lines[i]).Some?;
    if Adds(thread0, lines[i]) {
      var total := read(lines[i].value).value;
      var sum := total + read(Share(minted, thread0, lines[i].tail)).value;
      assert read(ShowInt(sum)) == Some(sum);
    }
  }
}
