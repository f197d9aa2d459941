/** unbound's statistics with a second thread added, differential.py
    `_second_resolver_thread`, and the port that reads one thread's share,
    a9_thread_share_blind.py `_thread_share`. */
module Threads {
  import opened Options
  import opened Document
  import opened Decimals
  import opened OneLine
  import opened OrderedDict

  /** Whose record a key names, by the prefix before its tail. */
  datatype Owner = Thread0 | Thread1 | Total | Elsewhere

  /** `key=value` split at the first "=", or a line with none. */
  datatype Line = Record(owner: Owner, tail: string, value: string) | Bare(text: string)

  type Figures = seq<Pair<string>>

  function Pairs(lines: seq<Line>, owner: Owner): Figures {
    if lines == [] then []
    else
      var last := lines[|lines| - 1];
      Pairs(lines[..|lines| - 1], owner)
      + (if last.Record? && last.owner == owner then [Member(last.tail, last.value)] else [])
  }

  /** One owner's records as a dict: a repeated tail keeps its place, takes its last value. */
  function Table(lines: seq<Line>, owner: Owner): Figures {
    Assigned(Pairs(lines, owner))
  }

  lemma TableGrows(lines: seq<Line>, line: Line, owner: Owner)
    ensures Table(lines + [line], owner) ==
      if line.Record? && line.owner == owner then With(Table(lines, owner), line.tail, line.value)
      else Table(lines, owner)
  {
    assert (lines + [line])[..|lines|] == lines;
    var pairs := Pairs(lines, owner);
    assert (pairs + [])[..] == pairs;
    if line.Record? && line.owner == owner {
      assert (pairs + [Member(line.tail, line.value)])[..|pairs|] == pairs;
    }
  }

  method ReadTable(lines: seq<Line>, owner: Owner) returns (table: Figures)
    ensures table == Table(lines, owner)
  {
    table := [];
    for i := 0 to |lines|
      invariant table == Table(lines[..i], owner)
    {
      var line := lines[i];
      assert lines[..i + 1] == lines[..i] + [line];
      TableGrows(lines[..i], line, owner);
      if line.Record? && line.owner == owner {
        table := With(table, line.tail, line.value);
      }
    }
    assert lines[..|lines|] == lines;
  }

  // ── the operator ──────────────────────────────────────────────────────

  predicate EndsIn(tail: string, suffix: string) {
    |suffix| <= |tail| && tail[|tail| - |suffix|..] == suffix
  }

  /** Averages, medians and maxima are not sums over the threads. */
  predicate Summed(tail: string) {
    !EndsIn(tail, ".avg") && !EndsIn(tail, ".median") && !EndsIn(tail, ".max")
  }

  /** Python's `int()` over text: None is its ValueError. */
  type Reader = string -> Option<int>

  /** `str()` of an int. */
  function ShowInt(n: int): string {
    if n < 0 then "-" + Show(-n) else Show(n)
  }

  /** The new thread's figure: minted, or thread 0's own copied. */
  function Share(minted: map<string, nat>, thread0: Figures, tail: string): string
    requires Get(thread0, tail).Some?
  {
    if tail in minted then Show(minted[tail]) else Get(thread0, tail).value
  }

  predicate Adds(thread0: Figures, line: Line) {
    line.Record? && line.owner.Total? && Get(thread0, line.tail).Some? && Summed(line.tail)
  }

  /** A total rises by the new thread's figure; None where either is no number. */
  function Raised(read: Reader, minted: map<string, nat>, thread0: Figures, line: Line): Option<Line> {
    if !Adds(thread0, line) then Some(line)
    else
      var total, share := read(line.value), read(Share(minted, thread0, line.tail));
      if total.None? || share.None? then None
      else Some(line.(value := ShowInt(total.value + share.value)))
  }

  function Block(minted: map<string, nat>, thread0: Figures, n: nat): (block: seq<Line>)
    requires n <= |thread0| && DistinctKeys(thread0)
    ensures |block| == n
    decreases n
  {
    if n == 0 then []
    else
      var tail := thread0[n - 1].key;
      GetAt(thread0, n - 1);
      Block(minted, thread0, n - 1) + [Record(Thread1, tail, Share(minted, thread0, tail))]
  }

  predicate IsThread0(line: Line) {
    line.Record? && line.owner.Thread0?
  }

  /** The lines so far with the block where the first line past thread 0's goes. */
  function Widened(read: Reader, minted: map<string, nat>, thread0: Figures, lines: seq<Line>): Option<seq<Line>>
    requires DistinctKeys(thread0)
  {
    if lines == [] then Some([])
    else
      var n := |lines| - 1;
      match Widened(read, minted, thread0, lines[..n])
      case None => None
      case Some(before) =>
        if IsThread0(lines[n]) then Some(before + [lines[n]])
        else
          match Raised(read, minted, thread0, lines[n])
          case None => None
          case Some(line) =>
            Some(before
                    + (if OnlyThread0(lines[..n]) then Block(minted, thread0, |thread0|) else [])
                    + [line])
  }

  predicate OnlyThread0(lines: seq<Line>) {
    forall i | 0 <= i < |lines| :: IsThread0(lines[i])
  }

  datatype Outcome = Widens(lines: seq<Line>) | NoThreadBlock | NotAFigure

  function Outcomes(read: Reader, minted: map<string, nat>, lines: seq<Line>): Outcome {
    FirstPositionLastValue(Pairs(lines, Thread0));
    var thread0 := Table(lines, Thread0);
    if thread0 == [] then NoThreadBlock
    else
      match Widened(read, minted, thread0, lines)
      case None => NotAFigure
      case Some(out) => Widens(out)
  }

  /** One more line of output. */
  function Next(read: Reader, minted: map<string, nat>, thread0: Figures, out: seq<Line>, added: bool, line: Line)
    : Option<seq<Line>>
    requires DistinctKeys(thread0)
  {
    if IsThread0(line) then Some(out + [line])
    else
      match Raised(read, minted, thread0, line)
      case None => None
      case Some(raised) =>
        Some(out + (if added then [] else Block(minted, thread0, |thread0|)) + [raised])
  }

  lemma WidenedGrows(read: Reader, minted: map<string, nat>, thread0: Figures, lines: seq<Line>, line: Line)
    requires DistinctKeys(thread0)
    ensures Widened(read, minted, thread0, lines + [line]) ==
      match Widened(read, minted, thread0, lines)
      case None => None
      case Some(out) => Next(read, minted, thread0, out, !OnlyThread0(lines), line)
  {
    assert (lines + [line])[..|lines|] == lines;
  }

  method ThreadBlock(minted: map<string, nat>, thread0: Figures) returns (block: seq<Line>)
    requires DistinctKeys(thread0)
    ensures block == Block(minted, thread0, |thread0|)
  {
    block := [];
    for k := 0 to |thread0|
      invariant block == Block(minted, thread0, k)
    {
      GetAt(thread0, k);
      block := block + [Record(Thread1, thread0[k].key, Share(minted, thread0, thread0[k].key))];
    }
  }

  method SecondResolverThread(read: Reader, minted: map<string, nat>, lines: seq<Line>) returns (r: Outcome)
    ensures r == Outcomes(read, minted, lines)
  {
    FirstPositionLastValue(Pairs(lines, Thread0));
    var thread0 := ReadTable(lines, Thread0);
    if thread0 == [] {
      return NoThreadBlock;
    }
    var out: seq<Line>, added := [], false;
    for i := 0 to |lines|
      invariant Widened(read, minted, thread0, lines[..i]) == Some(out)
      invariant added <==> !OnlyThread0(lines[..i])
    {
      var line := lines[i];
      assert lines[..i + 1] == lines[..i] + [line];
      WidenedGrows(read, minted, thread0, lines[..i], line);
      if IsThread0(line) {
        out := out + [line];
        continue;
      }
      var raised := Raised(read, minted, thread0, line);
      if raised.None? {
        NotAFigureLater(read, minted, thread0, lines, i);
        return NotAFigure;
      }
      assert out + [] == out;
      if !added {
        var block := ThreadBlock(minted, thread0);
        out := out + block;
        added := true;
      }
      out := out + [raised.value];
    }
    assert lines[..|lines|] == lines;
    r := Widens(out);
  }

  lemma {:induction false} NotAFigureLater(read: Reader, minted: map<string, nat>, thread0: Figures,
                                           lines: seq<Line>, i: nat)
    requires DistinctKeys(thread0) && i < |lines|
    requires !IsThread0(lines[i]) && Raised(read, minted, thread0, lines[i]).None?
    ensures Widened(read, minted, thread0, lines).None?
  {
    var n := |lines| - 1;
    if i < n {
      NotAFigureLater(read, minted, thread0, lines[..n], i);
    }
  }

  // ── the status document ───────────────────────────────────────────────

  function BeforeColon(line: string): string {
    if line == "" || line[0] == ':' then "" else [line[0]] + BeforeColon(line[1..])
  }

  /** `str.strip()` */
  function Stripped(s: string): string {
    if s == "" then ""
    else if Space(Python, s[0]) then Stripped(s[1..])
    else if Space(Python, s[|s| - 1]) then Stripped(s[..|s| - 1])
    else s
  }

  function StatusLine(line: string): string {
    if Stripped(BeforeColon(line)) == "threads" then "threads: 2" else line
  }

  method SecondThreadStatus(lines: seq<string>) returns (out: seq<string>)
    ensures |out| == |lines| && forall i | 0 <= i < |lines| :: out[i] == StatusLine(lines[i])
  {
    out := [];
    for i := 0 to |lines|
      invariant |out| == i && forall j | 0 <= j < i :: out[j] == StatusLine(lines[j])
    {
      out := out + [if Stripped(BeforeColon(lines[i])) == "threads" then "threads: 2" else lines[i]];
    }
  }

  // ── the thread-blind reading ──────────────────────────────────────────

  function Shared(thread: Figures, line: Line): Line {
    if line.Record? && line.owner.Total? && Get(thread, line.tail).Some?
    then line.(value := Get(thread, line.tail).value) else line
  }

  function SharedAll(thread: Figures, lines: seq<Line>): (out: seq<Line>)
    ensures |out| == |lines| && forall i | 0 <= i < |lines| :: out[i] == Shared(thread, lines[i])
  {
    seq(|lines|, i requires 0 <= i < |lines| => Shared(thread, lines[i]))
  }

  method ThreadShare(lines: seq<Line>) returns (out: seq<Line>)
    ensures out == SharedAll(Table(lines, Thread0), lines)
  {
    var thread := ReadTable(lines, Thread0);
    out := [];
    for i := 0 to |lines|
      invariant |out| == i && forall j | 0 <= j < i :: out[j] == Shared(thread, lines[j])
    {
      var line := lines[i];
      if line.Record? && line.owner.Total? {
        var twin := Get(thread, line.tail);
        if twin.Some? {
          line := line.(value := twin.value);
        }
      }
      out := out + [line];
    }
  }
}
