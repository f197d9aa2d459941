/** What an empty diff means: an equivalence of streams, blind to order between
    identities, to run-varying members and to the values of moving facts. */
module DiffTheory {
  import opened Wire
  import opened Judge
  import opened StreamDiff

  // ── the closed form ───────────────────────────────────────────────────

  ghost predicate FactsAgree(a: Json, b: Json, moving: set<string>) {
    if a.Dict? && b.Dict? then
      a.members.Keys == b.members.Keys
      && forall f | f in a.members :: FactAgrees(moving, f, a.members[f], b.members[f])
    else TypedEqual(a, b)
  }

  ghost predicate MemberAgrees(member: string, a: Json, b: Json, moving: set<string>) {
    if member == "facts" && moving != {} then FactsAgree(a, b, moving) else TypedEqual(a, b)
  }

  ghost predicate RecordsAgree(a: Record, b: Record, moving: set<string>) {
    a.Keys == b.Keys && forall m | m in a :: MemberAgrees(m, a[m], b[m], moving)
  }

  ghost predicate GroupsAgree(a: seq<Record>, b: seq<Record>, moving: set<string>) {
    |a| == |b| && forall i | 0 <= i < |a| :: RecordsAgree(a[i], b[i], moving)
  }

  ghost predicate Agrees(expected: seq<Record>, emitted: seq<Record>, moving: set<string>) {
    forall k :: GroupsAgree(Under(Normalise(expected), k), Under(Normalise(emitted), k), moving)
  }

  lemma FactsForms(k: Identity, a: Json, b: Json, moving: set<string>)
    ensures (forall d :: !FactsDiffer(k, a, b, moving, d)) <==> FactsAgree(a, b, moving)
  {
    if forall d :: !FactsDiffer(k, a, b, moving, d) {
      if a.Dict? && b.Dict? {
        var x, y := a.members, b.members;
        forall f ensures (f in x <==> f in y)
          && (f in x && f in y ==> FactAgrees(moving, f, x[f], y[f]))
        {
          assert !FactsDiffer(k, a, b, moving, FactAdded(k, f));
          assert !FactsDiffer(k, a, b, moving, FactDropped(k, f));
          assert !FactsDiffer(k, a, b, moving, FactRetyped(k, f));
          if f in x && f in y {
            assert !FactsDiffer(k, a, b, moving, FactDiffers(k, f, x[f], y[f]));
          }
        }
      } else {
        assert !FactsDiffer(k, a, b, moving, MemberDiffers(k, "facts", a, b));
      }
    }
  }

  lemma PairForms(k: Identity, a: Record, b: Record, moving: set<string>)
    ensures (forall d :: !PairDiffers(k, a, b, moving, d)) <==> RecordsAgree(a, b, moving)
  {
    if "facts" in a && "facts" in b {
      FactsForms(k, a["facts"], b["facts"], moving);
    }
    if forall d :: !PairDiffers(k, a, b, moving, d) {
      forall m ensures m in a <==> m in b {
        assert !PairDiffers(k, a, b, moving, MemberAdded(k, m));
        assert !PairDiffers(k, a, b, moving, MemberDropped(k, m));
      }
      forall m | m in a ensures MemberAgrees(m, a[m], b[m], moving) {
        assert !PairDiffers(k, a, b, moving, MemberDiffers(k, m, a[m], b[m]));
        if m == "facts" && moving != {} {
          forall d ensures !FactsDiffer(k, a[m], b[m], moving, d) {
            assert !PairDiffers(k, a, b, moving, d);
          }
        }
      }
    }
  }

  /** diff finds nothing exactly when, identity by identity, the two streams
      carry as many records and the i-th of one agrees with the i-th of the other. */
  lemma EmptyDiffIffAgrees(expected: seq<Record>, emitted: seq<Record>, moving: set<string>)
    ensures (forall d :: !Differs(Normalise(expected), Normalise(emitted), moving, d))
      <==> Agrees(expected, emitted, moving)
  {
    var want, got := Normalise(expected), Normalise(emitted);
    if forall d :: !Differs(want, got, moving, d) {
      forall k ensures GroupsAgree(Under(want, k), Under(got, k), moving) {
        var a, b := Under(want, k), Under(got, k);
        assert !Differs(want, got, moving, Missing(k));
        assert !Differs(want, got, moving, Unexpected(k));
        assert !Differs(want, got, moving, Multiplicity(k, |a|, |b|));
        forall i | 0 <= i < |a| && i < |b| ensures RecordsAgree(a[i], b[i], moving) {
          forall d ensures !PairDiffers(k, a[i], b[i], moving, d) {
            assert !Differs(want, got, moving, d) && (PairDiffers(k, a[i], b[i], moving, d) ==> d.k == k);
          }
          PairForms(k, a[i], b[i], moving);
        }
      }
    }
    if Agrees(expected, emitted, moving) {
      forall d ensures !Differs(want, got, moving, d) {
        var a, b := Under(want, d.k), Under(got, d.k);
        assert GroupsAgree(a, b, moving);
        forall i | 0 <= i < |a| ensures !PairDiffers(d.k, a[i], b[i], moving, d) {
          PairForms(d.k, a[i], b[i], moving);
        }
      }
    }
  }

  // ── an equivalence relation, for any set of moving facts ──────────────

  /** A record that agrees with itself: no NaN outside its moving facts. */
  ghost predicate Stable(r: Record, moving: set<string>) {
    forall m | m in r ::
      if m == "facts" && moving != {} && r[m].Dict?
      then forall f | f in r[m].members :: f in moving || NaNFree(r[m].members[f])
      else NaNFree(r[m])
  }

  lemma RecordReflexive(r: Record, moving: set<string>)
    ensures RecordsAgree(r, r, moving) <==> Stable(r, moving)
  {
    forall m | m in r ensures TypedEqual(r[m], r[m]) <==> NaNFree(r[m]) {
      TypedEqualIsStructural(r[m], r[m]);
    }
    if "facts" in r && r["facts"].Dict? {
      var facts := r["facts"].members;
      forall f | f in facts ensures TypedEqual(facts[f], facts[f]) <==> NaNFree(facts[f]) {
        TypedEqualIsStructural(facts[f], facts[f]);
      }
    }
    if RecordsAgree(r, r, moving) {
      forall m | m in r ensures MemberAgrees(m, r[m], r[m], moving) {}
    }
  }

  lemma {:induction false} UnderMember(records: seq<Record>, k: Identity, r: Record)
    ensures r in Under(records, k) <==> r in records && KeyOf(r) == k
  {
    if records != [] {
      UnderMember(records[..|records| - 1], k, r);
      assert records == records[..|records| - 1] + [records[|records| - 1]];
    }
  }

  /** A stream agrees with itself exactly when no compared value is NaN. */
  lemma AgreesReflexive(records: seq<Record>, moving: set<string>)
    ensures Agrees(records, records, moving)
      <==> forall r | r in Normalise(records) :: Stable(r, moving)
  {
    var norm := Normalise(records);
    forall k, r ensures r in Under(norm, k) <==> r in norm && KeyOf(r) == k {
      UnderMember(norm, k, r);
    }
    if Agrees(records, records, moving) {
      forall r | r in norm ensures Stable(r, moving) {
        var group := Under(norm, KeyOf(r));
        assert GroupsAgree(group, group, moving);
        var i :| 0 <= i < |group| && group[i] == r;
        RecordReflexive(group[i], moving);
      }
    }
    if forall r | r in norm :: Stable(r, moving) {
      forall k ensures GroupsAgree(Under(norm, k), Under(norm, k), moving) {
        var group := Under(norm, k);
        forall i | 0 <= i < |group| ensures RecordsAgree(group[i], group[i], moving) {
          assert group[i] in group;
          RecordReflexive(group[i], moving);
        }
      }
    }
  }

  lemma MemberSymmetric(m: string, a: Json, b: Json, moving: set<string>)
    requires MemberAgrees(m, a, b, moving)
    ensures MemberAgrees(m, b, a, moving)
  {
    TypedEqualIsStructural(a, b);
    TypedEqualIsStructural(b, a);
    if a.Dict? && b.Dict? && m == "facts" && moving != {} {
      forall f | f in b.members ensures FactAgrees(moving, f, b.members[f], a.members[f]) {
        assert FactAgrees(moving, f, a.members[f], b.members[f]);
        TypedEqualIsStructural(a.members[f], b.members[f]);
        TypedEqualIsStructural(b.members[f], a.members[f]);
      }
    }
  }

  lemma MemberTransitive(m: string, a: Json, b: Json, c: Json, moving: set<string>)
    requires MemberAgrees(m, a, b, moving) && MemberAgrees(m, b, c, moving)
    ensures MemberAgrees(m, a, c, moving)
  {
    TypedEqualIsStructural(a, b);
    TypedEqualIsStructural(b, c);
    if a.Dict? && b.Dict? && c.Dict? && m == "facts" && moving != {} {
      forall f | f in a.members ensures FactAgrees(moving, f, a.members[f], c.members[f]) {
        var x, y, z := a.members[f], b.members[f], c.members[f];
        assert FactAgrees(moving, f, x, y) && FactAgrees(moving, f, y, z);
        TypedEqualIsStructural(x, y);
        TypedEqualIsStructural(y, z);
      }
    }
  }

  lemma AgreesSymmetric(a: seq<Record>, b: seq<Record>, moving: set<string>)
    requires Agrees(a, b, moving)
    ensures Agrees(b, a, moving)
  {
    forall k ensures GroupsAgree(Under(Normalise(b), k), Under(Normalise(a), k), moving) {
      var x, y := Under(Normalise(a), k), Under(Normalise(b), k);
      assert GroupsAgree(x, y, moving);
      forall i, m | 0 <= i < |y| && m in y[i]
        ensures m in x[i] && MemberAgrees(m, y[i][m], x[i][m], moving)
      {
        assert RecordsAgree(x[i], y[i], moving);
        MemberSymmetric(m, x[i][m], y[i][m], moving);
      }
    }
  }

  lemma AgreesTransitive(a: seq<Record>, b: seq<Record>, c: seq<Record>, moving: set<string>)
    requires Agrees(a, b, moving) && Agrees(b, c, moving)
    ensures Agrees(a, c, moving)
  {
    forall k ensures GroupsAgree(Under(Normalise(a), k), Under(Normalise(c), k), moving) {
      var x, y, z := Under(Normalise(a), k), Under(Normalise(b), k), Under(Normalise(c), k);
      assert GroupsAgree(x, y, moving) && GroupsAgree(y, z, moving);
      forall i, m | 0 <= i < |x| && m in x[i]
        ensures m in z[i] && MemberAgrees(m, x[i][m], z[i][m], moving)
      {
        assert RecordsAgree(x[i], y[i], moving) && RecordsAgree(y[i], z[i], moving);
        MemberTransitive(m, x[i][m], y[i][m], z[i][m], moving);
      }
    }
  }

  // ── declaring more facts moving only forgives ─────────────────────────

  lemma MemberMonotone(m: string, a: Json, b: Json, moving: set<string>, more: set<string>)
    requires moving <= more && MemberAgrees(m, a, b, moving)
    ensures MemberAgrees(m, a, b, more)
  {
    TypedEqualIsStructural(a, b);
    if m == "facts" && more != {} && a.Dict? && b.Dict? {
      assert a.members.Keys == b.members.Keys;
      forall f | f in a.members ensures FactAgrees(more, f, a.members[f], b.members[f]) {
        TypedEqualIsStructural(a.members[f], b.members[f]);
        if moving != {} {
          assert FactAgrees(moving, f, a.members[f], b.members[f]);
        }
      }
    }
  }

  lemma AgreesMonotone(a: seq<Record>, b: seq<Record>, moving: set<string>, more: set<string>)
    requires moving <= more && Agrees(a, b, moving)
    ensures Agrees(a, b, more)
  {
    forall k ensures GroupsAgree(Under(Normalise(a), k), Under(Normalise(b), k), more) {
      var x, y := Under(Normalise(a), k), Under(Normalise(b), k);
      assert GroupsAgree(x, y, moving);
      forall i, m | 0 <= i < |x| && m in x[i]
        ensures m in y[i] && MemberAgrees(m, x[i][m], y[i][m], more)
      {
        assert RecordsAgree(x[i], y[i], moving);
        MemberMonotone(m, x[i][m], y[i][m], moving, more);
      }
    }
  }

  // ── what normalise forgets ────────────────────────────────────────────

  /** `b` is `a` after edits confined to run-varying members, begin still
      naming the same collections. */
  ghost predicate SameClaims(a: seq<Record>, b: seq<Record>) {
    |a| == |b|
    && forall i | 0 <= i < |a| ::
         Get(a[i], "record") == Get(b[i], "record")
         && (forall m | m !in RunVarying(Get(a[i], "record")) ::
               (m in a[i] <==> m in b[i]) && (m in a[i] ==> a[i][m] == b[i][m]))
         && (IsKind(a[i], "begin") ==> Requested(a[i]) == Requested(b[i]))
  }

  /** diff cannot see an edit confined to run-varying members, on either side. */
  lemma RunVaryingUnseen(a: seq<Record>, b: seq<Record>, other: seq<Record>, moving: set<string>)
    requires SameClaims(a, b)
    ensures Agrees(a, other, moving) <==> Agrees(b, other, moving)
    ensures Agrees(other, a, moving) <==> Agrees(other, b, moving)
  {
    forall i | 0 <= i < |a| ensures Claim(a[i]) == Claim(b[i]) {
      var x, y := Claim(a[i]), Claim(b[i]);
      assert forall m :: (m in x <==> m in y) && (m in x ==> x[m] == y[m]);
    }
    assert Normalise(a) == Normalise(b);
  }

  // ── with nothing moving: equality of claims, multiplicities included ──

  lemma {:induction false} UnderCount(records: seq<Record>, r: Record)
    ensures multiset(Under(records, KeyOf(r)))[r] == multiset(records)[r]
  {
    if records != [] {
      var n := |records| - 1;
      UnderCount(records[..n], r);
      assert records == records[..n] + [records[n]];
    }
  }

  lemma RecordsEqual(a: Record, b: Record)
    ensures RecordsAgree(a, b, {}) <==> a == b && forall m | m in a :: NaNFree(a[m])
  {
    forall m | m in a && m in b
      ensures TypedEqual(a[m], b[m]) <==> a[m] == b[m] && NaNFree(a[m])
    {
      TypedEqualIsStructural(a[m], b[m]);
    }
    if RecordsAgree(a, b, {}) {
      forall m | m in a ensures MemberAgrees(m, a[m], b[m], {}) {}
      assert a == b;
    }
  }

  ghost predicate ClaimsNaNFree(records: seq<Record>) {
    forall r, m | r in records && m in r :: NaNFree(r[m])
  }

  lemma SameGroupsFromAgrees(a: seq<Record>, b: seq<Record>, k: Identity)
    requires Agrees(a, b, {})
    ensures Under(Normalise(a), k) == Under(Normalise(b), k)
    ensures forall r, m | r in Under(Normalise(a), k) && m in r :: NaNFree(r[m])
  {
    var x, y := Under(Normalise(a), k), Under(Normalise(b), k);
    assert GroupsAgree(x, y, {});
    forall i | 0 <= i < |x| ensures x[i] == y[i] && forall m | m in x[i] :: NaNFree(x[i][m]) {
      RecordsEqual(x[i], y[i]);
    }
  }

  lemma AgreesFromSameGroups(a: seq<Record>, b: seq<Record>)
    requires ClaimsNaNFree(Normalise(a))
    requires SameGroups(Normalise(a), Normalise(b))
    ensures Agrees(a, b, {})
  {
    forall k ensures GroupsAgree(Under(Normalise(a), k), Under(Normalise(b), k), {}) {
      var group := Under(Normalise(a), k);
      assert group == Under(Normalise(b), k);
      forall i | 0 <= i < |group| ensures RecordsAgree(group[i], group[i], {}) {
        UnderMember(Normalise(a), k, group[i]);
        RecordsEqual(group[i], group[i]);
      }
    }
  }

  ghost predicate SameGroups(a: seq<Record>, b: seq<Record>) {
    forall k :: Under(a, k) == Under(b, k)
  }

  /** The exact meaning of an empty diff: no NaN, and every identity's records
      the same sequence on both sides. */
  lemma AgreesIffSameGroups(a: seq<Record>, b: seq<Record>)
    ensures Agrees(a, b, {}) <==>
      ClaimsNaNFree(Normalise(a)) && SameGroups(Normalise(a), Normalise(b))
  {
    if Agrees(a, b, {}) {
      forall k ensures Under(Normalise(a), k) == Under(Normalise(b), k) {
        SameGroupsFromAgrees(a, b, k);
      }
      forall r, m | r in Normalise(a) && m in r ensures NaNFree(r[m]) {
        SameGroupsFromAgrees(a, b, KeyOf(r));
        UnderMember(Normalise(a), KeyOf(r), r);
      }
    } else if ClaimsNaNFree(Normalise(a)) && SameGroups(Normalise(a), Normalise(b)) {
      AgreesFromSameGroups(a, b);
    }
  }

  /** An empty diff makes the normalised streams permutations of each other. */
  lemma EmptyDiffIsPermutation(a: seq<Record>, b: seq<Record>)
    requires Agrees(a, b, {})
    ensures multiset(Normalise(a)) == multiset(Normalise(b))
  {
    AgreesIffSameGroups(a, b);
    forall r ensures multiset(Normalise(a))[r] == multiset(Normalise(b))[r] {
      UnderCount(Normalise(a), r);
      UnderCount(Normalise(b), r);
    }
  }

  ghost predicate OneEach(records: seq<Record>) {
    forall k :: |Under(records, k)| <= 1
  }

  lemma SameSingletons(a: seq<Record>, b: seq<Record>)
    requires |a| <= 1 && |b| <= 1 && forall r :: r in a <==> r in b
    ensures a == b
  {
    if a != [] {
      assert a[0] in b;
    }
    if b != [] {
      assert b[0] in a;
    }
  }

  /** The converse needs identities to be unique: then a permutation suffices. */
  lemma PermutationIsEmptyDiff(a: seq<Record>, b: seq<Record>)
    requires multiset(Normalise(a)) == multiset(Normalise(b))
    requires ClaimsNaNFree(Normalise(a)) && OneEach(Normalise(a)) && OneEach(Normalise(b))
    ensures Agrees(a, b, {})
  {
    var x, y := Normalise(a), Normalise(b);
    forall k ensures Under(x, k) == Under(y, k) {
      forall r ensures r in Under(x, k) <==> r in Under(y, k) {
        UnderMember(x, k, r);
        UnderMember(y, k, r);
        assert r in multiset(x) <==> r in multiset(y);
      }
      SameSingletons(Under(x, k), Under(y, k));
    }
    AgreesIffSameGroups(a, b);
  }

  // ── the order a page is served in ─────────────────────────────────────

  /** The objects of one collection. Collections and names go by their `str()`,
      a parameter here. */
  predicate Serves(str: Json -> string, r: Record, c: string) {
    IsKind(r, "object") && str(Get(r, "collection")) == c
  }

  /** One collection's object names, in emission order. */
  function Names(str: Json -> string, records: seq<Record>, c: string): seq<string> {
    if records == [] then []
    else
      var r := records[|records| - 1];
      Names(str, records[..|records| - 1], c) + (if Serves(str, r, c) then [str(Get(r, "name"))] else [])
  }

  /** What order_differences reports: a collection both sides name the same
      objects of, in different orders. */
  predicate OrderDiffers(str: Json -> string, expected: seq<Record>, emitted: seq<Record>, c: string) {
    var a, b := Names(str, expected, c), Names(str, emitted, c);
    a != [] && b != [] && multiset(a) == multiset(b) && a != b
  }

  method OrderDifferences(str: Json -> string, expected: seq<Record>, emitted: seq<Record>)
    returns (problems: seq<string>)
    ensures forall c :: c in problems <==> OrderDiffers(str, expected, emitted, c)
  {
    var want := Sequences(str, expected);
    var got := Sequences(str, emitted);
    problems := Reorderings(want, got);
    forall c ensures c in problems <==> OrderDiffers(str, expected, emitted, c) {
      HeldDiffers(str, expected, emitted, want, got, c);
    }
  }

  method Reorderings(want: Served, got: Served) returns (problems: seq<string>)
    ensures forall c :: c in problems <==> c in want && c in got && Reordered(want[c], got[c])
  {
    problems := [];
    var todo := want.Keys * got.Keys;
    while todo != {}
      invariant todo <= want.Keys * got.Keys
      invariant forall c :: c in problems <==> c in want.Keys * got.Keys - todo && Reordered(want[c], got[c])
    {
      var c :| c in todo;
      todo := todo - {c};
      if Reordered(want[c], got[c]) {
        problems := problems + [c];
      }
    }
  }

  predicate Reordered(a: seq<string>, b: seq<string>) {
    multiset(a) == multiset(b) && a != b
  }

  lemma HeldDiffers(str: Json -> string, expected: seq<Record>, emitted: seq<Record>, want: Served, got: Served,
                    c: string)
    requires Holds(str, want, expected) && Holds(str, got, emitted)
    ensures OrderDiffers(str, expected, emitted, c) <==> c in want && c in got && Reordered(want[c], got[c])
  {
    assert (if c in want then want[c] else []) == Names(str, expected, c);
    assert (if c in got then got[c] else []) == Names(str, emitted, c);
  }

  type Served = map<string, seq<string>>

  ghost predicate Holds(str: Json -> string, out: Served, records: seq<Record>) {
    forall c :: (if c in out then out[c] else []) == Names(str, records, c) && (c in out ==> out[c] != [])
  }

  method Sequences(str: Json -> string, records: seq<Record>) returns (out: Served)
    ensures Holds(str, out, records)
  {
    out := map[];
    for i := 0 to |records|
      invariant Holds(str, out, records[..i])
    {
      var r := records[i];
      assert records[..i + 1] == records[..i] + [r];
      forall c { NamesGrow(str, records[..i], r, c); }
      if IsKind(r, "object") {
        var c := str(Get(r, "collection"));
        out := out[c := (if c in out then out[c] else []) + [str(Get(r, "name"))]];
      }
    }
    assert records[..|records|] == records;
  }

  lemma NamesGrow(str: Json -> string, records: seq<Record>, r: Record, c: string)
    ensures Names(str, records + [r], c)
      == Names(str, records, c) + (if Serves(str, r, c) then [str(Get(r, "name"))] else [])
  {
    assert (records + [r])[..|records|] == records;
  }

  lemma {:induction false} ClaimKeepsNames(str: Json -> string, records: seq<Record>, c: string)
    ensures Names(str, Normalise(records), c) == Names(str, records, c)
  {
    if records != [] {
      var n := |records| - 1;
      ClaimKeepsNames(str, records[..n], c);
      assert Normalise(records)[..n] == Normalise(records[..n]);
      ClaimHead(records[n]);
    }
  }

  lemma ClaimHead(r: Record)
    ensures Get(Claim(r), "record") == Get(r, "record")
    ensures Get(Claim(r), "collection") == Get(r, "collection") && Get(Claim(r), "name") == Get(r, "name")
  {}

  function NameBag(str: Json -> string, records: seq<Record>, c: string): multiset<string> {
    multiset(Names(str, records, c))
  }

  lemma {:induction false} BagConcat(str: Json -> string, a: seq<Record>, b: seq<Record>, c: string)
    ensures NameBag(str, a + b, c) == NameBag(str, a, c) + NameBag(str, b, c)
  {
    if b == [] {
      assert a + b == a;
    } else {
      var n := |b| - 1;
      assert a + b == (a + b[..n]) + [b[n]] && b == b[..n] + [b[n]];
      BagConcat(str, a, b[..n], c);
      BagGrows(str, a + b[..n], b[n], c);
      BagGrows(str, b[..n], b[n], c);
    }
  }

  lemma BagGrows(str: Json -> string, records: seq<Record>, r: Record, c: string)
    ensures NameBag(str, records + [r], c)
      == NameBag(str, records, c) + (if Serves(str, r, c) then multiset{str(Get(r, "name"))} else multiset{})
  {
    NamesGrow(str, records, r, c);
  }

  lemma TakeOut<T>(s: seq<T>, j: nat)
    requires j < |s|
    ensures s == s[..j] + [s[j]] + s[j + 1..]
    ensures multiset(s) == multiset(s[..j] + s[j + 1..]) + multiset{s[j]}
  {
    assert s == s[..j] + [s[j]] + s[j + 1..];
    assert multiset(s) == multiset(s[..j]) + multiset([s[j]]) + multiset(s[j + 1..]);
  }

  lemma BagWithout(str: Json -> string, records: seq<Record>, j: nat, c: string)
    requires j < |records|
    ensures NameBag(str, records, c)
      == NameBag(str, records[..j] + records[j + 1..], c) + NameBag(str, [records[j]], c)
  {
    TakeOut(records, j);
    BagConcat(str, records[..j] + [records[j]], records[j + 1..], c);
    BagConcat(str, records[..j], [records[j]], c);
    BagConcat(str, records[..j], records[j + 1..], c);
  }

  lemma {:induction false} BagOfPermutation(str: Json -> string, a: seq<Record>, b: seq<Record>, c: string)
    requires multiset(a) == multiset(b)
    ensures NameBag(str, a, c) == NameBag(str, b, c)
  {
    if a == [] {
      assert |multiset(b)| == |b|;
    } else {
      assert a[0] in multiset(b);
      var j :| 0 <= j < |b| && b[j] == a[0];
      TakeOut(a, 0);
      TakeOut(b, j);
      var rest, without := a[..0] + a[1..], b[..j] + b[j + 1..];
      assert multiset(rest) == multiset(a) - multiset{a[0]};
      assert multiset(without) == multiset(b) - multiset{b[j]};
      BagOfPermutation(str, rest, without, c);
      BagWithout(str, a, 0, c);
      BagWithout(str, b, j, c);
    }
  }

  /** diff and order_differences together miss no reordering: when both are
      empty every collection names the same objects in the same sequence, and
      with an empty diff an order problem means exactly that it does not. */
  lemma OrderSeesWhatDiffCannot(str: Json -> string, a: seq<Record>, b: seq<Record>, c: string)
    requires Agrees(a, b, {})
    ensures OrderDiffers(str, a, b, c) <==> Names(str, a, c) != Names(str, b, c)
  {
    EmptyDiffIsPermutation(a, b);
    ClaimKeepsNames(str, a, c);
    ClaimKeepsNames(str, b, c);
    BagOfPermutation(str, Normalise(a), Normalise(b), c);
    assert |NameBag(str, a, c)| == |Names(str, a, c)| && |NameBag(str, b, c)| == |Names(str, b, c)|;
  }

  function Exchanged(records: seq<Record>, i: nat, j: nat): (out: seq<Record>)
    requires i < j < |records|
    ensures |out| == |records|
  {
    records[i := records[j]][j := records[i]]
  }

  lemma ExchangedBag<T>(s: seq<T>, i: nat, j: nat)
    requires i < j < |s|
    ensures multiset(s[i := s[j]][j := s[i]]) == multiset(s)
  {
    var t := s[i := s[j]];
    assert multiset(t) == multiset(s) - multiset{s[i]} + multiset{s[j]};
    assert multiset(t[j := s[i]]) == multiset(t) - multiset{t[j]} + multiset{s[i]};
  }

  /** Where one of an identity's records stands among them. */
  lemma {:induction false} UnderAt(records: seq<Record>, i: nat)
    requires i < |records|
    ensures var k := KeyOf(records[i]);
      var at := |Under(records[..i], k)|;
      at < |Under(records, k)| && Under(records, k)[at] == records[i]
  {
    var n := |records| - 1;
    if i < n {
      UnderAt(records[..n], i);
      assert records[..n][..i] == records[..i];
    }
  }

  /** diff is order-blind between identities only: wherever they stand, exchanging
      two records whose claims differ but share an identity is a difference. */
  lemma ExchangeSeen(records: seq<Record>, i: nat, j: nat)
    requires i < j < |records|
    requires KeyOf(Claim(records[i])) == KeyOf(Claim(records[j])) && Claim(records[i]) != Claim(records[j])
    ensures multiset(Normalise(Exchanged(records, i, j))) == multiset(Normalise(records))
    ensures !Agrees(records, Exchanged(records, i, j), {})
  {
    var x, y := Normalise(records), Normalise(Exchanged(records, i, j));
    assert y == x[i := x[j]][j := x[i]];
    ExchangedBag(x, i, j);
    UnderAt(x, i);
    UnderAt(y, i);
    assert x[..i] == y[..i];
    assert Under(x, KeyOf(x[i])) != Under(y, KeyOf(x[i]));
    AgreesIffSameGroups(records, Exchanged(records, i, j));
  }
}
