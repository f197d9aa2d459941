/** The judge's rules about single values, each in literal terms, and one literal
    stream: accepted as it stands, and refused for each member written wrong. */
module JudgeValues {
  import opened Options
  import opened Wire
  import opened Judge
  import opened JudgeTheory

  // ── begin's identity members ──────────────────────────────────────────

  /** What /proc/sys/kernel/random/boot_id serves: 8-4-4-4-12 hexadecimal in
      either case, and not all zeros. */
  ghost predicate KernelBootId(v: Json) {
    && v.Str? && |v.s| == 36
    && (forall i | 0 <= i < 36 ::
          if i in {8, 13, 18, 23} then v.s[i] == '-' else v.s[i] in "0123456789abcdefABCDEF")
    && (exists i | 0 <= i < 36 :: v.s[i] != '0' && v.s[i] != '-')
  }

  lemma HexDigits(c: char)
    ensures IsHex(c) <==> c in "0123456789abcdefABCDEF"
  {}

  lemma NilDigits(i: int)
    requires 0 <= i < 36
    ensures NIL_UUID[i] == if i in {8, 13, 18, 23} then '-' else '0'
  {}

  lemma BootIdIff(v: Json)
    ensures BootIdOk(v) <==> KernelBootId(v)
  {
    if v.Str? && |v.s| == 36 {
      forall i | 0 <= i < 36
        ensures IsHex(v.s[i]) <==> v.s[i] in "0123456789abcdefABCDEF"
        ensures NIL_UUID[i] == if i in {8, 13, 18, 23} then '-' else '0'
      {
        HexDigits(v.s[i]);
        NilDigits(i);
      }
      if v.s != NIL_UUID && UuidShaped(v.s) {
        var i :| 0 <= i < 36 && v.s[i] != NIL_UUID[i];
        assert v.s[i] != '0' && v.s[i] != '-';
      }
    }
  }

  /** The boot id is a problem exactly when it is not one a kernel serves. */
  lemma BootIdVerdict(records: seq<Record>, issued: Option<map<string, int>>)
    requires Of(records, "begin") != []
    ensures Breaks(records, issued, BadBootId) <==>
      !KernelBootId(Get(Of(records, "begin")[0], "boot_id"))
  {
    BootIdIff(Get(Of(records, "begin")[0], "boot_id"));
  }

  /** The declaration is a problem exactly when it is not "sha256:" and something. */
  lemma DeclarationVerdict(records: seq<Record>, issued: Option<map<string, int>>)
    requires Of(records, "begin") != []
    ensures Breaks(records, issued, BadDeclaration) <==>
      !exists digest :: digest != "" && Get(Of(records, "begin")[0], "declaration") == Str("sha256:" + digest)
  {
    var v := Get(Of(records, "begin")[0], "declaration");
    if DeclarationOk(v) {
      assert v.s == "sha256:" + v.s[7..];
    }
  }

  /** The generations are a problem exactly when they name no collection. */
  lemma GenerationsVerdict(records: seq<Record>, issued: Option<map<string, int>>)
    requires Of(records, "begin") != []
    ensures Breaks(records, issued, NoGenerations) <==>
      !exists m :: m != map[] && Get(Of(records, "begin")[0], "generations") == Dict(m)
  {}

  /** Only the echo rule speaks of request and batch. */
  lemma EchoOnly(records: seq<Record>, issued: Option<map<string, int>>, p: Problem)
    requires Of(records, "begin") != [] && Of(records, "end") != [] && (p.NotOpened? || p.NotClosed?)
    ensures Breaks(records, issued, p) <==>
      EchoRule(Of(records, "begin")[0], Of(records, "end")[0], "request", p)
      || EchoRule(Of(records, "begin")[0], Of(records, "end")[0], "batch", p)
  {}

  /** Request and batch are problems exactly when they are no text, or empty. */
  lemma EchoedVerdict(records: seq<Record>, issued: Option<map<string, int>>, member: string)
    requires Of(records, "begin") != [] && Of(records, "end") != [] && member in {"request", "batch"}
    ensures Breaks(records, issued, NotOpened(member)) <==>
      !exists s :: s != "" && Get(Of(records, "begin")[0], member) == Str(s)
    ensures Breaks(records, issued, NotClosed(member)) <==>
      !exists s :: s != "" && Get(Of(records, "end")[0], member) == Str(s)
  {
    EchoOnly(records, issued, NotOpened(member));
    EchoOnly(records, issued, NotClosed(member));
  }

  // ── figures ───────────────────────────────────────────────────────────

  /** The figure a value is: an int or a finite float, but not a bool. */
  function Figure(v: Json): Option<real> {
    match v
    case Int(i) => Some(i as real)
    case Float(Finite(r)) => Some(r)
    case _ => None
  }

  /** The records are judged past the header. */
  predicate Judged(records: seq<Record>) {
    Of(records, "begin") != [] && GenerationsOf(Of(records, "begin")[0]).Some?
  }

  lemma EndCostOnly(records: seq<Record>, issued: Option<map<string, int>>, p: Problem)
    requires Judged(records) && p.BadEndCost?
    ensures Breaks(records, issued, p) <==> EndRule(records, Of(records, "end"), p)
  {}

  lemma WallOnly(records: seq<Record>, issued: Option<map<string, int>>, p: Problem)
    requires Judged(records) && p.NoWallCost?
    ensures Breaks(records, issued, p) <==> EndRule(records, Of(records, "end"), p)
  {}

  lemma CommitOnly(records: seq<Record>, issued: Option<map<string, int>>, p: Problem)
    requires Judged(records) && (p.CountMissing? || p.CountWrong? || p.BadCommitCost?)
    ensures Breaks(records, issued, p) <==> CommitRule(records, p)
  {}

  lemma ObjectOnly(records: seq<Record>, issued: Option<map<string, int>>, p: Problem)
    requires Judged(records) && p.BadStamp?
    ensures Breaks(records, issued, p) <==> ObjectRule(records, p)
  {}

  /** A stamp is a problem exactly when it is not above zero and at most 1e9. */
  lemma StampVerdict(records: seq<Record>, issued: Option<map<string, int>>, c: Coll, row: Json)
    requires Judged(records)
    ensures Breaks(records, issued, BadStamp(c, row)) <==>
      exists r | r in records :: IsKind(r, "object") && Collection(r) == c && Get(r, "name") == row
        && !(exists x :: Figure(Get(r, "at")) == Some(x) && 0.0 < x <= 1000000000.0)
  {
    ObjectOnly(records, issued, BadStamp(c, row));
    forall r ensures r in In(records, "object", c) <==> r in records && IsKind(r, "object") && Collection(r) == c {
      InMember(records, "object", c, r);
    }
    forall r ensures Reading(r).Some? <==> exists x :: Figure(Get(r, "at")) == Some(x) && 0.0 < x <= 1000000000.0 {
      if Reading(r).Some? {
        assert Figure(Get(r, "at")) == Some(Reading(r).value);
      }
    }
  }

  /** The figure an object's stamp is, where it is a lawful one. */
  function Stamped(r: Record): Option<real> {
    match Figure(Get(r, "at"))
    case Some(x) => if 0.0 < x <= 1000000000.0 then Some(x) else None
    case None => None
  }

  /** The last object before `j` that is stamped, is stamped `previous`. */
  ghost predicate LastStamped(objects: seq<Record>, j: nat, previous: real)
    requires j <= |objects|
  {
    exists i :: StampedLast(objects, i, j, previous)
  }

  ghost predicate StampedLast(objects: seq<Record>, i: int, j: nat, previous: real)
    requires j <= |objects|
  {
    0 <= i < j && Stamped(objects[i]) == Some(previous) && forall k | i < k < j :: Stamped(objects[k]).None?
  }

  lemma {:induction false} LastStampedIs(objects: seq<Record>, j: nat, previous: real)
    requires j <= |objects|
    ensures LastReading(objects[..j]) == Some(previous) <==> LastStamped(objects, j, previous)
  {
    if j > 0 {
      assert objects[..j][..j - 1] == objects[..j - 1];
      LastStampedIs(objects, j - 1, previous);
      ReadingIs(objects[j - 1]);
      LastStampedNext(objects, j - 1, previous);
    }
  }

  lemma LastStampedNext(objects: seq<Record>, j: nat, previous: real)
    requires j < |objects|
    ensures LastStamped(objects, j + 1, previous) <==>
      if Stamped(objects[j]).Some? then Stamped(objects[j]) == Some(previous) else LastStamped(objects, j, previous)
  {
    if Stamped(objects[j]).None? && LastStamped(objects, j, previous) {
      var i :| StampedLast(objects, i, j, previous);
      assert StampedLast(objects, i, j + 1, previous);
    }
    if Stamped(objects[j]) == Some(previous) {
      assert StampedLast(objects, j, j + 1, previous);
    }
    if LastStamped(objects, j + 1, previous) {
      var i :| StampedLast(objects, i, j + 1, previous);
      assert i < j ==> StampedLast(objects, i, j, previous);
    }
  }

  lemma ReadingIs(r: Record)
    ensures Reading(r) == Stamped(r)
  {}

  /** A stamp is backwards exactly when it is below the last one of its collection. */
  lemma BackwardsVerdict(records: seq<Record>, issued: Option<map<string, int>>, c: Coll, row: Json, previous: real)
    requires Judged(records)
    ensures var objects := In(records, "object", c);
      Breaks(records, issued, Backwards(c, row, previous)) <==>
        exists j | 0 <= j < |objects| ::
          Get(objects[j], "name") == row && LastStamped(objects, j, previous)
          && Stamped(objects[j]).Some? && Stamped(objects[j]).value < previous
  {
    var objects := In(records, "object", c);
    BackwardsOnly(records, issued, Backwards(c, row, previous));
    forall j | 0 <= j < |objects|
      ensures LastReading(objects[..j]) == Some(previous) <==> LastStamped(objects, j, previous)
      ensures Reading(objects[j]) == Stamped(objects[j])
    {
      LastStampedIs(objects, j, previous);
      ReadingIs(objects[j]);
    }
  }

  lemma BackwardsOnly(records: seq<Record>, issued: Option<map<string, int>>, p: Problem)
    requires Judged(records) && p.Backwards?
    ensures Breaks(records, issued, p) <==> ObjectRule(records, p)
  {}

  /** A cost of the end is a problem exactly when it is stated and not a figure
      from zero up. */
  lemma EndCostVerdict(records: seq<Record>, issued: Option<map<string, int>>, member: string)
    requires Judged(records) && Of(records, "end") != [] && member in {"cpu_ms", "wall_ms"}
    ensures Breaks(records, issued, BadEndCost(member)) <==>
      member in Of(records, "end")[0] && !NotNegative(Of(records, "end")[0][member])
  {
    EndCostOnly(records, issued, BadEndCost(member));
  }

  /** So is a commit's. */
  lemma CommitCostVerdict(records: seq<Record>, issued: Option<map<string, int>>, c: Coll)
    requires Judged(records)
    ensures Breaks(records, issued, BadCommitCost(c)) <==>
      exists k | k in records :: IsKind(k, "commit") && Collection(k) == c
        && "cpu_ms" in k && !NotNegative(k["cpu_ms"])
  {
    CommitOnly(records, issued, BadCommitCost(c));
    forall k ensures k in In(records, "commit", c) <==> k in records && IsKind(k, "commit") && Collection(k) == c {
      InMember(records, "commit", c, k);
    }
  }

  /** Beside objects the end owes a wall cost above zero. */
  lemma WallCostVerdict(records: seq<Record>, issued: Option<map<string, int>>)
    requires Judged(records) && Of(records, "end") != []
    ensures Breaks(records, issued, NoWallCost) <==>
      Of(records, "object") != []
      && !(exists x :: Figure(Get(Of(records, "end")[0], "wall_ms")) == Some(x) && x > 0.0)
  {
    WallOnly(records, issued, NoWallCost);
    WallIff(Of(records, "end")[0]);
  }

  lemma WallIff(end: Record)
    ensures WallMissing(end) <==> !(exists x :: Figure(Get(end, "wall_ms")) == Some(x) && x > 0.0)
  {
    if !WallMissing(end) {
      assert Figure(Get(end, "wall_ms")) == Some(Numeric(end["wall_ms"]).value);
    }
  }

  predicate NotNegative(v: Json) {
    Figure(v).Some? && Figure(v).value >= 0.0
  }

  /** A generation named by begin is a problem exactly when it is no whole number
      from zero up; Python lets a bool be one. */
  lemma IndexVerdict(records: seq<Record>, issued: Option<map<string, int>>, name: string, g: Json)
    requires Judged(records) && name in Opened(records) && Opened(records)[name] == g
    ensures Breaks(records, issued, NotAnIndex(name)) <==>
      !(g == Bool(true) || g == Bool(false) || exists n: nat :: g == Int(n))
  {}

  // ── counts ────────────────────────────────────────────────────────────

  /** How many records of a kind name the collection; none name what is no text. */
  function Tallied(records: seq<Record>, c: Coll, kind: string): nat {
    match c
    case Named(_) => |In(records, kind, c)|
    case Unnamed(_) => 0
  }

  /** A commit's count is reported exactly when it is missing, or is not the int
      that counts its kind of record. */
  lemma CountVerdict(records: seq<Record>, issued: Option<map<string, int>>, c: Coll, member: string, kind: string)
    requires Judged(records)
    requires (member, kind) in {("objects", "object"), ("assertions", "relation_assertion"),
                                ("unobservable", "unobservable")}
    ensures Breaks(records, issued, CountMissing(c, member)) <==>
      exists k | k in records :: IsKind(k, "commit") && Collection(k) == c && member !in k
    ensures Breaks(records, issued, CountWrong(c, member)) <==>
      exists k | k in records :: IsKind(k, "commit") && Collection(k) == c
        && member in k && k[member] != Int(Tallied(records, c, kind))
  {
    CommitOnly(records, issued, CountMissing(c, member));
    CommitOnly(records, issued, CountWrong(c, member));
    forall k ensures k in In(records, "commit", c) <==> k in records && IsKind(k, "commit") && Collection(k) == c {
      InMember(records, "commit", c, k);
    }
    KindFor(member, kind);
    assert Carried(records, KindOf(member), c) == Tallied(records, c, kind);
    forall v ensures TypedEqual(v, Int(Tallied(records, c, kind))) <==> v == Int(Tallied(records, c, kind)) {}
  }

  lemma KindFor(member: string, kind: string)
    requires (member, kind) in {("objects", "object"), ("assertions", "relation_assertion"),
                                ("unobservable", "unobservable")}
    ensures KindOf(member) == kind && member in COUNTS
  {
    assert "objects"[0] == 'o' && "assertions"[0] == 'a' && "unobservable"[0] == 'u';
    assert COUNTS[0] == "objects" && COUNTS[1] == "assertions" && COUNTS[2] == "unobservable";
  }

  lemma DeclineOnly(records: seq<Record>, issued: Option<map<string, int>>, p: Problem)
    requires Judged(records) && (p.AbsentNotEmpty? || p.DeclineCommitted?)
    ensures Breaks(records, issued, p) <==> DeclineRule(records, p)
  {}

  /** The values that are 0 to Python. */
  predicate Zero(v: Json) {
    v in [Int(0), Bool(false), Json.Float(Finite(0.0))]
  }

  predicate CountsNothing(k: Record) {
    Zero(Get(k, "objects")) && Zero(Get(k, "assertions")) && Zero(Get(k, "unobservable"))
  }

  lemma ZeroIff(k: Record)
    ensures CommitsZero(k) <==> CountsNothing(k)
  {
    assert COUNTS[0] == "objects" && COUNTS[1] == "assertions" && COUNTS[2] == "unobservable";
    forall v ensures LooseEqual(v, Int(0)) <==> Zero(v) {}
  }

  /** A decline as absent is reported exactly when no commit stands beside it, or
      one that does not count nothing. */
  lemma AbsentVerdict(records: seq<Record>, issued: Option<map<string, int>>, c: Coll)
    requires Judged(records)
    ensures Breaks(records, issued, AbsentNotEmpty(c)) <==>
      && States(In(records, "decline", c), "reason", Str("absent"))
      && (In(records, "commit", c) == []
          || exists k | k in In(records, "commit", c) :: !CountsNothing(k))
  {
    DeclineOnly(records, issued, AbsentNotEmpty(c));
    forall k ensures CommitsZero(k) <==> CountsNothing(k) {
      ZeroIff(k);
    }
  }
}
