/** Ascending lists of distinct elements: the one list a finite set sorts to. */
module Sorting {

  ghost predicate Distinct<T>(s: seq<T>) {
    forall i, j | 0 <= i < j < |s| :: s[i] != s[j]
  }

  ghost predicate TotalOrder<T(!new)>(less: (T, T) -> bool) {
    (forall x :: !less(x, x))
    && (forall x, y :: x != y ==> less(x, y) || less(y, x))
    && (forall x, y, z :: less(x, y) && less(y, z) ==> less(x, z))
  }

  ghost predicate Ascending<T>(less: (T, T) -> bool, s: seq<T>) {
    forall i, j | 0 <= i < j < |s| :: less(s[i], s[j])
  }

  /** Where `x` goes in an ascending list. */
  function Insert<T(==)>(less: (T, T) -> bool, x: T, s: seq<T>): seq<T> {
    if s == [] then [x]
    else if less(x, s[0]) then [x] + s
    else [s[0]] + Insert(less, x, s[1..])
  }

  lemma {:induction false} InsertMembers<T>(less: (T, T) -> bool, x: T, s: seq<T>, y: T)
    ensures y in Insert(less, x, s) <==> y == x || y in s
  {
    if s != [] && !less(x, s[0]) {
      InsertMembers(less, x, s[1..], y);
      assert s == [s[0]] + s[1..];
    }
  }

  lemma {:induction false} InsertAscending<T(!new)>(less: (T, T) -> bool, x: T, s: seq<T>)
    requires TotalOrder(less) && Ascending(less, s) && x !in s
    ensures Ascending(less, Insert(less, x, s))
  {
    if s != [] && !less(x, s[0]) {
      InsertAscending(less, x, s[1..]);
      var rest := Insert(less, x, s[1..]);
      forall j | 0 <= j < |rest| ensures less(s[0], rest[j]) {
        InsertMembers(less, x, s[1..], rest[j]);
        if rest[j] != x {
          var k :| 0 <= k < |s[1..]| && s[1..][k] == rest[j];
          assert less(s[0], s[k + 1]);
        }
      }
    }
  }

  /** Two ascending lists of the same elements are the same list. */
  lemma {:induction false} AscendingUnique<T(!new)>(less: (T, T) -> bool, a: seq<T>, b: seq<T>)
    requires TotalOrder(less) && Ascending(less, a) && Ascending(less, b)
    requires forall x :: x in a <==> x in b
    ensures a == b
  {
    assert |b| > 0 ==> b[0] in b;
    if a != [] {
      assert a[0] in b;
      assert b != [] && b[0] in a;
      var i :| 0 <= i < |a| && a[i] == b[0];
      var j :| 0 <= j < |b| && b[j] == a[0];
      assert a[0] == b[0];
      forall x ensures x in a[1..] <==> x in b[1..] {
        assert a == [a[0]] + a[1..] && b == [b[0]] + b[1..];
        assert a[0] !in a[1..] && b[0] !in b[1..];
        assert x in a <==> x == a[0] || x in a[1..];
        assert x in b <==> x == b[0] || x in b[1..];
      }
      AscendingUnique(less, a[1..], b[1..]);
    }
  }

  /** `sorted(s)`: the ascending list of the elements of `s`. */
  ghost function Sorted<T(!new)>(less: (T, T) -> bool, s: set<T>): (out: seq<T>)
    requires TotalOrder(less)
    ensures Ascending(less, out) && forall x :: x in out <==> x in s
  {
    if s == {} then []
    else
      var x :| x in s;
      var rest := Sorted(less, s - {x});
      InsertAscending(less, x, rest);
      assert forall y :: y in Insert(less, x, rest) <==> y == x || y in rest by {
        forall y ensures y in Insert(less, x, rest) <==> y == x || y in rest {
          InsertMembers(less, x, rest, y);
        }
      }
      Insert(less, x, rest)
  }

  /** Sorting keeps two sets apart. */
  lemma SortedInjective<T(!new)>(less: (T, T) -> bool, s: set<T>, t: set<T>)
    requires TotalOrder(less)
    ensures Sorted(less, s) == Sorted(less, t) <==> s == t
  {
    if Sorted(less, s) == Sorted(less, t) {
      forall x ensures x in s <==> x in t {
        assert x in Sorted(less, s) <==> x in s;
        assert x in Sorted(less, t) <==> x in t;
      }
    }
  }

  method SortSet<T(==,!new)>(less: (T, T) -> bool, s: set<T>) returns (out: seq<T>)
    requires TotalOrder(less)
    ensures out == Sorted(less, s)
  {
    out := [];
    var todo := s;
    while todo != {}
      invariant todo <= s && Ascending(less, out) && forall x :: x in out <==> x in s - todo
    {
      var x :| x in todo;
      todo := todo - {x};
      InsertAscending(less, x, out);
      forall y ensures y in Insert(less, x, out) <==> y == x || y in out {
        InsertMembers(less, x, out, y);
      }
      out := Insert(less, x, out);
    }
    AscendingUnique(less, out, Sorted(less, s));
  }

  // ── sorting by a key: elements the order cannot tell apart stay in some order ──

  ghost predicate WeakOrder<T(!new)>(less: (T, T) -> bool) {
    (forall x, y :: less(x, y) ==> !less(y, x))
    && (forall x, y, z :: less(x, y) ==> less(x, z) || less(z, y))
  }

  ghost predicate Settled<T>(less: (T, T) -> bool, s: seq<T>) {
    forall i, j | 0 <= i < j < |s| :: s[i] != s[j] && !less(s[j], s[i])
  }

  lemma {:induction false} InsertSettles<T(!new)>(less: (T, T) -> bool, x: T, s: seq<T>)
    requires WeakOrder(less) && Settled(less, s) && x !in s
    ensures Settled(less, Insert(less, x, s))
  {
    if s == [] {
    } else if less(x, s[0]) {
      forall j | 0 <= j < |s| ensures x != s[j] && !less(s[j], x) {
        assert less(x, s[j]);
      }
    } else {
      InsertSettles(less, x, s[1..]);
      var rest := Insert(less, x, s[1..]);
      forall j | 0 <= j < |rest| ensures s[0] != rest[j] && !less(rest[j], s[0]) {
        InsertMembers(less, x, s[1..], rest[j]);
        if rest[j] != x {
          var k :| 0 <= k < |s[1..]| && s[1..][k] == rest[j];
          assert s[k + 1] == rest[j];
        }
      }
    }
  }

  /** sort.Slice, on elements that differ: some list in order, nothing promised
      between elements neither of which is less. */
  method SortSlice<T(==,!new)>(less: (T, T) -> bool, s: seq<T>) returns (out: seq<T>)
    requires WeakOrder(less) && Distinct(s)
    ensures Settled(less, out) && forall x :: x in out <==> x in s
  {
    out := [];
    for n := 0 to |s|
      invariant Settled(less, out) && forall x :: x in out <==> x in s[..n]
    {
      assert s[n] !in s[..n] && s[..n + 1] == s[..n] + [s[n]];
      InsertSettles(less, s[n], out);
      forall y ensures y in Insert(less, s[n], out) <==> y == s[n] || y in out {
        InsertMembers(less, s[n], out, y);
      }
      out := Insert(less, s[n], out);
    }
    assert s[..|s|] == s;
  }

  // ── strings by code point ─────────────────────────────────────────────

  predicate Below(a: string, b: string) {
    if b == "" then false
    else if a == "" then true
    else a[0] < b[0] || (a[0] == b[0] && Below(a[1..], b[1..]))
  }

  lemma {:induction false} BelowTrichotomy(a: string, b: string)
    ensures !Below(a, a)
    ensures a != b ==> Below(a, b) || Below(b, a)
  {
    if a != "" {
      BelowTrichotomy(a[1..], if b != "" then b[1..] else "");
      if b != "" && a[0] == b[0] && a != b {
        assert a == [a[0]] + a[1..] && b == [b[0]] + b[1..];
      }
    }
  }

  lemma {:induction false} BelowTransitive(a: string, b: string, c: string)
    requires Below(a, b) && Below(b, c)
    ensures Below(a, c)
  {
    if a != "" && a[0] == b[0] && b[0] == c[0] {
      BelowTransitive(a[1..], b[1..], c[1..]);
    }
  }

  lemma BelowTriple(a: string, b: string, c: string)
    ensures Below(a, b) ==> !Below(b, a) && (Below(a, c) || Below(c, b))
  {
    BelowTrichotomy(a, c);
    BelowTrichotomy(a, a);
    if Below(a, b) {
      if Below(b, a) {
        BelowTransitive(a, b, a);
      } else if Below(c, a) {
        BelowTransitive(c, a, b);
      }
    }
  }

  lemma BelowIsTotal()
    ensures TotalOrder(Below)
  {
    forall a, b ensures !Below(a, a) && (a != b ==> Below(a, b) || Below(b, a)) {
      BelowTrichotomy(a, b);
    }
    forall a, b, c | Below(a, b) && Below(b, c) ensures Below(a, c) {
      BelowTransitive(a, b, c);
    }
  }
}
