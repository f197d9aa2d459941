/** unbound's second thread in literal terms: which records are not summed, the
    line of the status document, and the new thread's own figures. */
module ThreadForms {
  import opened Options
  import opened Document
  import opened Decimals
  import opened OneLine
  import OrderedDict
  import opened Threads
  import opened ThreadsTheory

  lemma EndsInIff(tail: string, suffix: string)
    ensures EndsIn(tail, suffix) <==> exists front :: tail == front + suffix
  {
    if EndsIn(tail, suffix) {
      assert tail == tail[..|tail| - |suffix|] + suffix;
    }
    forall front | tail == front + suffix ensures EndsIn(tail, suffix) {
      assert tail[|tail| - |suffix|..] == suffix;
    }
  }

  /** Averages, medians and marks are no sums over the threads; all else is. */
  lemma SummedIff(tail: string)
    ensures Summed(tail) <==>
      !exists front :: tail == front + ".avg" || tail == front + ".median" || tail == front + ".max"
  {
    EndsInIff(tail, ".avg");
    EndsInIff(tail, ".median");
    EndsInIff(tail, ".max");
  }

  ghost predicate Mark(tail: string) {
    exists front :: tail == front + ".avg" || tail == front + ".median" || tail == front + ".max"
  }

  /** A total with a thread 0 twin rises by what the new thread did, unless it is an
      average, a median or a mark; every other line is kept as it is. */
  lemma TotalsRise(read: Reader, minted: map<string, nat>, lines: seq<Line>, out: seq<Line>, i: nat)
    requires ReadsBack(read) && GivenSecond(read, minted, lines, out) && i < |lines|
    ensures |WithoutThread1(out)| == |lines|
    ensures var was, now := lines[i], WithoutThread1(out)[i];
      if was.Record? && was.owner.Total? && Get(Table(lines, Thread0), was.tail).Some? && !Mark(was.tail)
      then now.Record? && now.tail == was.tail && SumsThreads(read, out, now)
      else now == was
  {
    SecondThreadConserves(read, minted, lines, out);
    if lines[i].Record? {
      SummedIff(lines[i].tail);
    }
  }

  /** A figure is written in digits without leading zeros, a minus before a negative. */
  lemma ShowIntIs(n: int)
    ensures n >= 0 ==> Unsigned(ShowInt(n)) && Decimal(ShowInt(n)) == n
    ensures n < 0 ==> ShowInt(n) != "" && ShowInt(n)[0] == '-'
    ensures n < 0 ==> Unsigned(ShowInt(n)[1..]) && Decimal(ShowInt(n)[1..]) == -n
  {
    ShowBack(if n < 0 then -n else n);
    assert n < 0 ==> ShowInt(n)[1..] == Show(-n);
  }

  /** A minted figure, or the one thread 0 has, under each of thread 0's tails and
      under no other. */
  lemma ThreadOneStates(read: Reader, minted: map<string, nat>, lines: seq<Line>, out: seq<Line>, tail: string)
    requires GivenSecond(read, minted, lines, out) && !OnlyThread0(lines)
    ensures Get(Table(out, Thread1), tail) ==
      match Get(Table(lines, Thread0), tail)
      case None => None
      case Some(figure) => if tail in minted then Some(Show(minted[tail])) else Some(figure)
  {
    var thread0 := Table(lines, Thread0);
    SecondShape(read, minted, lines, out);
    if Get(thread0, tail).Some? {
      BlockGives(minted, thread0, tail);
    } else {
      BlockOnly(minted, thread0, tail);
    }
  }

  lemma BlockOnly(minted: map<string, nat>, thread0: Figures, tail: string)
    requires DistinctKeys(thread0) && Get(thread0, tail).None?
    ensures Get(OrderedDict.Assigned(Pairs(Block(minted, thread0, |thread0|), Thread1)), tail).None?
  {
    var pairs := Pairs(Block(minted, thread0, |thread0|), Thread1);
    BlockLines(minted, thread0, |thread0|);
    OrderedDict.AssignedDistinct(pairs);
    forall i | 0 <= i < |thread0| ensures thread0[i].key != tail {
      GetAt(thread0, i);
    }
    NotThere(pairs, tail);
  }

  lemma {:induction false} NotThere(members: Figures, key: string)
    requires forall i | 0 <= i < |members| :: members[i].key != key
    ensures Get(members, key).None?
  {
    if members != [] {
      NotThere(members[1..], key);
    }
  }

  // ── the status document ───────────────────────────────────────────────

  ghost predicate Blank(s: string) {
    forall i | 0 <= i < |s| :: Space(Python, s[i])
  }

  /** The line says "threads", blanks around it aside, before its first colon. */
  ghost predicate CountsThreads(line: string) {
    exists pre, post, rest :: Parted(line, pre, post, rest)
  }

  ghost predicate Parted(line: string, pre: string, post: string, rest: string) {
    && Blank(pre) && Blank(post) && ':' !in pre + "threads" + post
    && line == (pre + "threads" + post) + rest && (rest == "" || rest[0] == ':')
  }

  /** That line is rewritten, and no other. */
  lemma StatusLineIs(line: string)
    ensures StatusLine(line) == if CountsThreads(line) then "threads: 2" else line
  {
    if Stripped(BeforeColon(line)) == "threads" {
      var rest := BeforeRest(line);
      var pre, post := StrippedParts(BeforeColon(line));
      assert BeforeColon(line) == pre + "threads" + post;
      assert Parted(line, pre, post, rest);
    }
    if CountsThreads(line) {
      var pre, post, rest :| Parted(line, pre, post, rest);
      BeforeIs(pre + "threads" + post, rest);
      StrippedIs(pre, "threads", post);
    }
  }

  lemma {:induction false} BeforeRest(line: string) returns (rest: string)
    ensures line == BeforeColon(line) + rest && (rest == "" || rest[0] == ':') && ':' !in BeforeColon(line)
  {
    if line == "" || line[0] == ':' {
      rest := line;
    } else {
      rest := BeforeRest(line[1..]);
      assert line == [line[0]] + line[1..];
    }
  }

  lemma {:induction false} BeforeIs(front: string, rest: string)
    requires ':' !in front && (rest == "" || rest[0] == ':')
    ensures BeforeColon(front + rest) == front
  {
    if front == "" {
      assert front + rest == rest;
    } else {
      assert (front + rest)[1..] == front[1..] + rest;
      BeforeIs(front[1..], rest);
    }
  }

  lemma {:induction false} StrippedParts(s: string) returns (pre: string, post: string)
    ensures Blank(pre) && Blank(post) && s == pre + Stripped(s) + post
    decreases |s|
  {
    if s == "" {
      pre, post := "", "";
    } else if Space(Python, s[0]) {
      pre, post := StrippedParts(s[1..]);
      assert s == [s[0]] + s[1..];
      pre := [s[0]] + pre;
    } else if Space(Python, s[|s| - 1]) {
      pre, post := StrippedParts(s[..|s| - 1]);
      assert s == s[..|s| - 1] + [s[|s| - 1]];
      post := post + [s[|s| - 1]];
    } else {
      pre, post := "", "";
    }
  }

  lemma {:induction false} StrippedIs(pre: string, word: string, post: string)
    requires Blank(pre) && Blank(post) && word != ""
    requires !Space(Python, word[0]) && !Space(Python, word[|word| - 1])
    ensures Stripped(pre + word + post) == word
    decreases |pre| + |post|
  {
    var s := pre + word + post;
    if pre != "" {
      assert s[1..] == pre[1..] + word + post;
      StrippedIs(pre[1..], word, post);
    } else if post != "" {
      assert s[0] == word[0] && s[|s| - 1] == post[|post| - 1];
      assert s[..|s| - 1] == pre + word + post[..|post| - 1];
      StrippedIs(pre, word, post[..|post| - 1]);
    } else {
      assert s == word;
    }
  }
}
