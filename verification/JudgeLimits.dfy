/** What the judge is indifferent to: stream order, orphan objects, and the
    numeric type of an echoed generation. */
module JudgeLimits {
  import opened Options
  import opened Wire
  import opened Judge
  import opened JudgeTheory

  // ── endings exclude each other ────────────────────────────────────────

  /** An accepted batch leaves every collection named in begin in exactly one
      of the three endings, and commits or declines no other collection. */
  lemma AcceptedEndings(records: seq<Record>, issued: Option<map<string, int>>, name: string)
    returns (ending: Ending)
    requires Accepts(records, issued)
    requires name in Opened(records)
    ensures Ends(records, name, Opened(records)[name], ending)
    ensures forall other :: Ends(records, name, Opened(records)[name], other) ==> other == ending
    ensures forall c :: In(records, "commit", c) != [] || In(records, "decline", c) != [] ==>
              c.Named? && c.name in Opened(records)
  {
    AcceptsIffLawful(records, issued);
    ending :| Ends(records, name, Opened(records)[name], ending);
  }

  // ── order ─────────────────────────────────────────────────────────────

  lemma {:induction false} OfCount(records: seq<Record>, kind: string, r: Record)
    ensures multiset(Of(records, kind))[r] == if IsKind(r, kind) then multiset(records)[r] else 0
  {
    if records != [] {
      var n := |records| - 1;
      OfCount(records[..n], kind, r);
      assert records == records[..n] + [records[n]];
    }
  }

  lemma {:induction false} InCount(records: seq<Record>, kind: string, c: Coll, r: Record)
    ensures multiset(In(records, kind, c))[r]
      == if IsKind(r, kind) && Collection(r) == c then multiset(records)[r] else 0
  {
    if records != [] {
      var n := |records| - 1;
      InCount(records[..n], kind, c, r);
      assert records == records[..n] + [records[n]];
    }
  }

  lemma OfReordered(a: seq<Record>, b: seq<Record>, kind: string)
    requires multiset(a) == multiset(b)
    ensures multiset(Of(a, kind)) == multiset(Of(b, kind)) && |Of(a, kind)| == |Of(b, kind)|
    ensures |Of(a, kind)| <= 1 ==> Of(a, kind) == Of(b, kind)
  {
    forall r ensures multiset(Of(a, kind))[r] == multiset(Of(b, kind))[r] {
      OfCount(a, kind, r);
      OfCount(b, kind, r);
    }
    SameBag(Of(a, kind), Of(b, kind));
  }

  lemma InReordered(a: seq<Record>, b: seq<Record>, kind: string, c: Coll)
    requires multiset(a) == multiset(b)
    ensures |In(a, kind, c)| == |In(b, kind, c)|
    ensures |In(a, kind, c)| <= 1 ==> In(a, kind, c) == In(b, kind, c)
  {
    forall r ensures multiset(In(a, kind, c))[r] == multiset(In(b, kind, c))[r] {
      InCount(a, kind, c, r);
      InCount(b, kind, c, r);
    }
    SameBag(In(a, kind, c), In(b, kind, c));
  }

  lemma SameBag<T>(a: seq<T>, b: seq<T>)
    requires multiset(a) == multiset(b)
    ensures |a| == |b| && (|a| <= 1 ==> a == b)
  {
    assert |multiset(a)| == |a| && |multiset(b)| == |b|;
    if |a| == 1 {
      assert a[0] in multiset(b);
    }
  }

  lemma FootingReordered(a: seq<Record>, b: seq<Record>, name: string, g: Json)
    requires multiset(a) == multiset(b) && HasEnding(a, name, g)
    ensures HasEnding(b, name, g)
  {
    var c := Named(name);
    var ending :| Ends(a, name, g, ending);
    InReordered(a, b, "commit", c);
    InReordered(a, b, "decline", c);
    TallyReordered(a, b, c);
    assert Ends(b, name, g, ending);
  }

  lemma TallyReordered(a: seq<Record>, b: seq<Record>, c: Coll)
    requires multiset(a) == multiset(b)
    ensures TallyOf(a, c) == TallyOf(b, c)
  {
    InReordered(a, b, "object", c);
    InReordered(a, b, "relation_assertion", c);
    InReordered(a, b, "unobservable", c);
  }

  lemma CollectionsReordered(a: seq<Record>, b: seq<Record>, gens: map<string, Json>)
    requires multiset(a) == multiset(b) && CollectionsLawful(a, gens)
    ensures CollectionsLawful(b, gens)
  {
    forall name | name in gens ensures HasEnding(b, name, gens[name]) {
      FootingReordered(a, b, name, gens[name]);
    }
    forall c | In(b, "commit", c) != [] || In(b, "decline", c) != []
      ensures c.Named? && c.name in gens
    {
      InReordered(a, b, "commit", c);
      InReordered(a, b, "decline", c);
    }
  }

  lemma LawfulReordered(a: seq<Record>, b: seq<Record>, issued: Option<map<string, int>>)
    requires multiset(a) == multiset(b)
    requires forall c :: In(a, "object", c) == In(b, "object", c)
    requires Lawful(a, issued)
    ensures Lawful(b, issued)
  {
    OfReordered(a, b, "begin");
    OfReordered(a, b, "end");
    OfReordered(a, b, "object");
    CollectionsReordered(a, b, GenerationsOf(Of(a, "begin")[0]).value);
    forall r | r in b ensures r in a {
      assert r in multiset(b);
    }
  }

  /** Acceptance survives any reordering of the stream that keeps each
      collection's objects in their order. */
  lemma AcceptanceIgnoresInterleaving(a: seq<Record>, b: seq<Record>,
                                      issued: Option<map<string, int>>)
    requires multiset(a) == multiset(b)
    requires forall c :: In(a, "object", c) == In(b, "object", c)
    ensures Accepts(a, issued) <==> Accepts(b, issued)
  {
    AcceptsIffLawful(a, issued);
    AcceptsIffLawful(b, issued);
    if Lawful(a, issued) {
      LawfulReordered(a, b, issued);
    }
    if Lawful(b, issued) {
      LawfulReordered(b, a, issued);
    }
  }

  // ── orphans ───────────────────────────────────────────────────────────

  lemma OfAppend(records: seq<Record>, r: Record, kind: string)
    ensures Of(records + [r], kind) == Of(records, kind) + (if IsKind(r, kind) then [r] else [])
  {
    assert (records + [r])[..|records + [r]| - 1] == records;
  }

  /** A lawful stamp, no older than the one before it. */
  ghost predicate StampFollows(objects: seq<Record>, r: Record) {
    Reading(r).Some? &&
    (objects != [] && Reading(objects[|objects| - 1]).Some? ==>
       Reading(objects[|objects| - 1]).value <= Reading(r).value)
  }

  lemma StampsAppend(objects: seq<Record>, r: Record)
    requires StampsSorted(objects)
    ensures StampsSorted(objects + [r]) <==> StampFollows(objects, r)
  {
    var grown := objects + [r];
    assert grown[|objects|] == r;
    if objects != [] {
      assert grown[|objects| - 1] == objects[|objects| - 1];
    }
  }

  /** The orphan's collection was opened by nobody and is closed by nobody. */
  ghost predicate Orphan(records: seq<Record>, r: Record) {
    IsKind(r, "object")
    && (Collection(r).Named? ==> Collection(r).name !in Opened(records))
  }

  /** An object of a collection the request never opened is refused for its
      stamp, its nulls or a missing wall cost, and for nothing else. */
  lemma OrphanVerdict(records: seq<Record>, issued: Option<map<string, int>>, r: Record)
    requires Accepts(records, issued) && Orphan(records, r)
    ensures Accepts(records + [r], issued) <==>
      && StampFollows(In(records, "object", Collection(r)), r)
      && FactsNullFree(r)
      && forall end | end in Of(records, "end") :: !WallMissing(end)
  {
    assert StampsSorted(In(records, "object", Collection(r))) by {
      AcceptsIffLawful(records, issued);
    }
    StampsAppend(In(records, "object", Collection(r)), r);
    AcceptsIffLawful(records, issued);
    var grown := records + [r];
    AcceptsIffLawful(grown, issued);
    OfAppend(records, r, "begin");
    OfAppend(records, r, "end");
    OfAppend(records, r, "object");
    OrphanCollections(records, r, Opened(records));
    OrphanObjects(records, r);
    OrphanLawful(records, grown, issued, r);
  }

  /** With the header kept, what is lawful is decided by the rest. */
  lemma HeaderKept(records: seq<Record>, after: seq<Record>, issued: Option<map<string, int>>)
    requires Lawful(records, issued)
    requires Of(after, "begin") == Of(records, "begin") && Of(after, "end") == Of(records, "end")
    ensures Of(records, "end") == [Of(records, "end")[0]]
    ensures Lawful(after, issued) <==>
      CollectionsLawful(after, Opened(records)) && ObjectsLawful(after)
      && EndLawful(after, Of(records, "end")[0])
  {}

  lemma OrphanLawful(records: seq<Record>, grown: seq<Record>,
                     issued: Option<map<string, int>>, r: Record)
    requires Lawful(records, issued)
    requires Of(grown, "begin") == Of(records, "begin") && Of(grown, "end") == Of(records, "end")
    requires Of(grown, "object") == Of(records, "object") + [r]
    requires CollectionsLawful(grown, Opened(records))
    ensures Lawful(grown, issued) <==>
      ObjectsLawful(grown) && forall end | end in Of(records, "end") :: !WallMissing(end)
  {
    HeaderKept(records, grown, issued);
    OrphanEnd(records, grown, r, Of(records, "end")[0]);
  }

  lemma OrphanEnd(records: seq<Record>, grown: seq<Record>, r: Record, end: Record)
    requires Of(grown, "object") == Of(records, "object") + [r] && EndLawful(records, end)
    ensures EndLawful(grown, end) <==> !WallMissing(end)
  {}

  lemma OrphanElsewhere(records: seq<Record>, r: Record, c: Coll)
    requires IsKind(r, "object") && Collection(r) != c
    ensures In(records + [r], "commit", c) == In(records, "commit", c)
    ensures In(records + [r], "decline", c) == In(records, "decline", c)
    ensures TallyOf(records + [r], c) == TallyOf(records, c)
  {
    InGrows(records, r, "commit", c);
    InGrows(records, r, "decline", c);
    InGrows(records, r, "object", c);
    InGrows(records, r, "relation_assertion", c);
    InGrows(records, r, "unobservable", c);
  }

  lemma OrphanCollections(records: seq<Record>, r: Record, gens: map<string, Json>)
    requires CollectionsLawful(records, gens) && IsKind(r, "object")
    requires Collection(r).Named? ==> Collection(r).name !in gens
    ensures CollectionsLawful(records + [r], gens)
  {
    forall name | name in gens ensures HasEnding(records + [r], name, gens[name]) {
      OrphanElsewhere(records, r, Named(name));
      var ending :| Ends(records, name, gens[name], ending);
      assert Ends(records + [r], name, gens[name], ending);
    }
    forall c | In(records + [r], "commit", c) != [] || In(records + [r], "decline", c) != []
      ensures c.Named? && c.name in gens
    {
      InGrows(records, r, "commit", c);
      InGrows(records, r, "decline", c);
    }
  }

  lemma OrphanObjects(records: seq<Record>, r: Record)
    requires ObjectsLawful(records) && IsKind(r, "object")
    ensures ObjectsLawful(records + [r]) <==>
      StampsSorted(In(records, "object", Collection(r)) + [r]) && FactsNullFree(r)
  {
    var grown := records + [r];
    forall c ensures In(grown, "object", c)
      == In(records, "object", c) + (if Collection(r) == c then [r] else [])
    {
      InGrows(records, r, "object", c);
    }
    assert r in grown;
    assert ObjectsLawful(grown) ==> StampsSorted(In(grown, "object", Collection(r)));
    if StampsSorted(In(grown, "object", Collection(r))) && FactsNullFree(r) {
      forall c ensures StampsSorted(In(grown, "object", c)) {
        if c != Collection(r) {
          assert In(grown, "object", c) == In(records, "object", c);
        }
      }
    }
  }

  // ── the type of an echoed generation ──────────────────────────────────

  /** The echo is compared with Python's ==, so a generation may come back as
      any value that is numerically the same: 5.0 for 5, true for 1. */
  lemma EchoTest(echoed: Json, n: int)
    ensures LooseEqual(echoed, Int(n)) <==> Numeric(echoed) == Some(n as real)
  {}

  lemma InSplit(records: seq<Record>, i: nat, kind: string, c: Coll)
    requires i < |records|
    ensures In(records, kind, c)
      == In(records[..i], kind, c) + Picked(records[i], kind, c) + In(records[i + 1..], kind, c)
  {
    var upto := records[..i + 1];
    assert records == upto + records[i + 1..];
    InConcat(upto, records[i + 1..], kind, c);
    assert upto[..i] == records[..i] && upto[i] == records[i];
  }

  /** The record, if it is one of those asked for. */
  function Picked(r: Record, kind: string, c: Coll): seq<Record> {
    if IsKind(r, kind) && Collection(r) == c then [r] else []
  }

  lemma InReplaced(records: seq<Record>, i: nat, r: Record, kind: string, c: Coll)
    requires i < |records|
    requires Get(r, "record") == Get(records[i], "record") && Collection(r) == Collection(records[i])
    ensures |In(records[i := r], kind, c)| == |In(records, kind, c)|
    ensures Picked(r, kind, c) == [] ==> In(records[i := r], kind, c) == In(records, kind, c)
    ensures |In(records, kind, c)| == 1 && Picked(r, kind, c) != [] ==> In(records[i := r], kind, c) == [r]
  {
    InSplit(records, i, kind, c);
    InSplit(records[i := r], i, kind, c);
    assert records[i := r][..i] == records[..i] && records[i := r][i + 1..] == records[i + 1..];
  }

  lemma OfReplaced(records: seq<Record>, i: nat, r: Record, kind: string)
    requires i < |records|
    requires Get(r, "record") == Get(records[i], "record") && !IsKind(r, kind)
    ensures Of(records[i := r], kind) == Of(records, kind)
  {
    var n := |records| - 1;
    if i < n {
      OfReplaced(records[..n], i, r, kind);
      assert records[i := r][..n] == records[..n][i := r];
    } else {
      assert records[i := r][..n] == records[..n];
    }
  }

  /** Rewriting a commit touches no record of another kind or collection. */
  lemma FootingReplaced(records: seq<Record>, i: nat, k: Record, c: Coll)
    requires i < |records| && IsKind(records[i], "commit") && IsKind(k, "commit")
    requires Collection(k) == Collection(records[i])
    ensures Collection(k) != c ==> In(records[i := k], "commit", c) == In(records, "commit", c)
    ensures In(records[i := k], "decline", c) == In(records, "decline", c)
    ensures TallyOf(records[i := k], c) == TallyOf(records, c)
  {
    InReplaced(records, i, k, "commit", c);
    InReplaced(records, i, k, "decline", c);
    InReplaced(records, i, k, "object", c);
    InReplaced(records, i, k, "relation_assertion", c);
    InReplaced(records, i, k, "unobservable", c);
  }

  /** The one commit of a served or absent collection, before and after. */
  lemma CommitReplaced(records: seq<Record>, i: nat, k: Record, name: string, g: Json)
    requires i < |records| && IsKind(records[i], "commit") && IsKind(k, "commit")
    requires Collection(k) == Collection(records[i]) == Named(name)
    requires HasEnding(records, name, g)
    ensures In(records, "commit", Named(name)) == [records[i]]
    ensures In(records[i := k], "commit", Named(name)) == [k]
  {
    InMember(records, "commit", Named(name), records[i]);
    OneCommit(records, name, g, records[i]);
    InReplaced(records, i, k, "commit", Named(name));
  }

  lemma OneCommit(records: seq<Record>, name: string, g: Json, commit: Record)
    requires HasEnding(records, name, g) && commit in In(records, "commit", Named(name))
    ensures In(records, "commit", Named(name)) == [commit]
  {
    var ending :| Ends(records, name, g, ending);
    assert |In(records, "commit", Named(name))| == 1;
  }

  lemma EndingReplaced(records: seq<Record>, i: nat, k: Record, v: Json, name: string, g: Json)
    requires i < |records| && IsKind(records[i], "commit")
    requires k == records[i]["generation" := v]
    requires HasEnding(records, name, g)
    ensures HasEnding(records[i := k], name, g) <==>
              (Collection(k) == Named(name) ==> LooseEqual(v, g))
  {
    FootingReplaced(records, i, k, Named(name));
    if Collection(k) == Named(name) {
      CommitReplaced(records, i, k, name, g);
      OneRewritten(records, records[i := k], records[i], v, name, g);
    } else {
      SameFooting(records, records[i := k], name, g);
    }
  }

  lemma SameFooting(a: seq<Record>, b: seq<Record>, name: string, g: Json)
    requires In(a, "commit", Named(name)) == In(b, "commit", Named(name))
    requires In(a, "decline", Named(name)) == In(b, "decline", Named(name))
    requires TallyOf(a, Named(name)) == TallyOf(b, Named(name)) && HasEnding(a, name, g)
    ensures HasEnding(b, name, g)
  {
    var ending :| Ends(a, name, g, ending);
    assert Ends(b, name, g, ending);
  }

  lemma OneRewritten(a: seq<Record>, b: seq<Record>, commit: Record, v: Json, name: string, g: Json)
    requires In(a, "commit", Named(name)) == [commit]
    requires In(b, "commit", Named(name)) == [commit["generation" := v]]
    requires In(a, "decline", Named(name)) == In(b, "decline", Named(name))
    requires TallyOf(a, Named(name)) == TallyOf(b, Named(name)) && HasEnding(a, name, g)
    ensures HasEnding(b, name, g) <==> LooseEqual(v, g)
  {
    var ending :| Ends(a, name, g, ending);
    CommitRewritten(commit, v, TallyOf(a, Named(name)), g);
    if LooseEqual(v, g) {
      assert Ends(b, name, g, ending);
    }
  }

  lemma CommitRewritten(commit: Record, v: Json, t: Tally, g: Json)
    requires CommittedOnce([commit], t, g)
    ensures CommittedOnce([commit["generation" := v]], t, g) <==> LooseEqual(v, g)
  {
    assert Get(commit["generation" := v], "generation") == v;
  }

  lemma EchoTaken(records: seq<Record>, issued: Option<map<string, int>>, i: nat, v: Json)
    requires Accepts(records, issued)
    requires i < |records| && IsKind(records[i], "commit")
    ensures Collection(records[i]).Named? && Collection(records[i]).name in Opened(records)
    ensures Accepts(records[i := records[i]["generation" := v]], issued)
      <==> LooseEqual(v, Opened(records)[Collection(records[i]).name])
  {
    AcceptsIffLawful(records, issued);
    AcceptsIffLawful(records[i := records[i]["generation" := v]], issued);
    CommitNamed(records, issued, i);
    LawfulEcho(records, issued, i, v, records[i]["generation" := v]);
  }

  lemma CommitNamed(records: seq<Record>, issued: Option<map<string, int>>, i: nat)
    requires Lawful(records, issued) && i < |records| && IsKind(records[i], "commit")
    ensures Collection(records[i]).Named? && Collection(records[i]).name in Opened(records)
  {
    InMember(records, "commit", Collection(records[i]), records[i]);
  }

  lemma LawfulEcho(records: seq<Record>, issued: Option<map<string, int>>, i: nat, v: Json, k: Record)
    requires Lawful(records, issued) && i < |records| && IsKind(records[i], "commit")
    requires Collection(records[i]).Named? && Collection(records[i]).name in Opened(records)
    requires k == records[i]["generation" := v]
    ensures Lawful(records[i := k], issued)
      <==> LooseEqual(v, Opened(records)[Collection(records[i]).name])
  {
    LawfulParts(records, issued);
    RewrittenHead(records[i], v);
    EchoLawful(records, issued, i, k);
    CollectionsReplaced(records, i, k, v, Opened(records));
  }

  lemma LawfulParts(records: seq<Record>, issued: Option<map<string, int>>)
    requires Lawful(records, issued)
    ensures CollectionsLawful(records, Opened(records)) && ObjectsLawful(records)
  {}

  lemma RewrittenHead(r: Record, v: Json)
    ensures Get(r["generation" := v], "record") == Get(r, "record")
    ensures Collection(r["generation" := v]) == Collection(r)
  {}

  lemma EchoLawful(records: seq<Record>, issued: Option<map<string, int>>, i: nat, k: Record)
    requires Lawful(records, issued) && i < |records| && IsKind(records[i], "commit")
    requires IsKind(k, "commit") && Collection(k) == Collection(records[i])
    ensures Lawful(records[i := k], issued) <==> CollectionsLawful(records[i := k], Opened(records))
  {
    OfReplaced(records, i, k, "begin");
    OfReplaced(records, i, k, "end");
    OfReplaced(records, i, k, "object");
    HeaderKept(records, records[i := k], issued);
    ObjectsReplaced(records, i, k);
  }

  /** Rewriting one commit's generation in an accepted batch keeps it accepted
      exactly when the new value is loosely equal to the one begin named: where
      that is an int, when it is the same number in any of its spellings. */
  lemma EchoVerdict(records: seq<Record>, issued: Option<map<string, int>>, i: nat, v: Json)
    requires Accepts(records, issued)
    requires i < |records| && IsKind(records[i], "commit")
    ensures Collection(records[i]).Named? && Collection(records[i]).name in Opened(records)
    ensures var named := Opened(records)[Collection(records[i]).name];
      var after := records[i := records[i]["generation" := v]];
      && (Accepts(after, issued) <==> LooseEqual(v, named))
      && (named.Int? ==> (Accepts(after, issued) <==> Numeric(v) == Some(named.i as real)))
  {
    EchoTaken(records, issued, i, v);
    var named := Opened(records)[Collection(records[i]).name];
    if named.Int? {
      EchoTest(v, named.i);
    }
  }

  /** The half of the collection rules that looks at endings, and the half that
      looks at names. */
  ghost predicate AllEnd(records: seq<Record>, gens: map<string, Json>) {
    forall name | name in gens :: IsIndex(gens[name]) && HasEnding(records, name, gens[name])
  }

  ghost predicate AllNamed(records: seq<Record>, gens: map<string, Json>) {
    forall c | In(records, "commit", c) != [] || In(records, "decline", c) != [] ::
      c.Named? && c.name in gens
  }

  lemma EndsReplaced(records: seq<Record>, i: nat, k: Record, v: Json, gens: map<string, Json>)
    requires i < |records| && IsKind(records[i], "commit") && k == records[i]["generation" := v]
    requires AllEnd(records, gens) && Collection(k).Named? && Collection(k).name in gens
    ensures AllEnd(records[i := k], gens) <==> LooseEqual(v, gens[Collection(k).name])
  {
    var after := records[i := k];
    forall name | name in gens
      ensures HasEnding(after, name, gens[name]) <==>
                (Collection(k) == Named(name) ==> LooseEqual(v, gens[name]))
    {
      EndingReplaced(records, i, k, v, name, gens[name]);
    }
    assert HasEnding(after, Collection(k).name, gens[Collection(k).name])
      <==> LooseEqual(v, gens[Collection(k).name]);
  }

  lemma NamesReplaced(records: seq<Record>, i: nat, k: Record, v: Json, gens: map<string, Json>)
    requires i < |records| && IsKind(records[i], "commit") && k == records[i]["generation" := v]
    requires AllNamed(records, gens)
    ensures AllNamed(records[i := k], gens)
  {
    var after := records[i := k];
    forall c
      ensures |In(after, "commit", c)| == |In(records, "commit", c)|
      ensures |In(after, "decline", c)| == |In(records, "decline", c)|
    {
      InReplaced(records, i, k, "commit", c);
      InReplaced(records, i, k, "decline", c);
    }
  }

  lemma CollectionsReplaced(records: seq<Record>, i: nat, k: Record, v: Json, gens: map<string, Json>)
    requires i < |records| && IsKind(records[i], "commit")
    requires k == records[i]["generation" := v]
    requires CollectionsLawful(records, gens)
    requires Collection(k).Named? && Collection(k).name in gens
    ensures CollectionsLawful(records[i := k], gens) <==> LooseEqual(v, gens[Collection(k).name])
  {
    BothHalves(records, gens);
    BothHalves(records[i := k], gens);
    EndsReplaced(records, i, k, v, gens);
    NamesReplaced(records, i, k, v, gens);
  }

  lemma BothHalves(records: seq<Record>, gens: map<string, Json>)
    ensures CollectionsLawful(records, gens) <==> AllEnd(records, gens) && AllNamed(records, gens)
  {}

  lemma ObjectsReplaced(records: seq<Record>, i: nat, k: Record)
    requires i < |records| && IsKind(records[i], "commit") && IsKind(k, "commit")
    requires Collection(k) == Collection(records[i]) && ObjectsLawful(records)
    ensures ObjectsLawful(records[i := k])
  {
    var after := records[i := k];
    forall c ensures StampsSorted(In(after, "object", c)) {
      InReplaced(records, i, k, "object", c);
    }
    forall r | r in records[i := k] ensures r == k || r in records {}
  }
}
