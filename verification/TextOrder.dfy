/** What it is to come first, as Python and Go compare strings: character by
    character, and a prefix before what goes on. */
module TextOrder {
  import opened Sorting

  /** The texts are alike up to `n`, where `a` ends or has the smaller character. */
  predicate PartsAt(a: string, b: string, n: nat) {
    && n <= |a| && n <= |b| && a[..n] == b[..n]
    && (if n == |a| then n < |b| else n < |b| && a[n] < b[n])
  }

  ghost predicate First(a: string, b: string) {
    exists n: nat :: PartsAt(a, b, n)
  }

  lemma {:induction false} BelowIff(a: string, b: string)
    ensures Below(a, b) <==> First(a, b)
  {
    if b == "" {
    } else if a == "" {
      assert PartsAt(a, b, 0);
    } else {
      BelowIff(a[1..], b[1..]);
      if a[0] < b[0] {
        assert PartsAt(a, b, 0);
      } else if a[0] == b[0] {
        Onwards(a, b);
      } else {
        forall n: nat ensures !PartsAt(a, b, n) {
          assert n > 0 && n <= |a| && n <= |b| ==> a[..n][0] == a[0] && b[..n][0] == b[0];
        }
      }
    }
  }

  lemma Onwards(a: string, b: string)
    requires a != "" && b != "" && a[0] == b[0]
    ensures First(a, b) <==> First(a[1..], b[1..])
  {
    if First(a[1..], b[1..]) {
      var n: nat :| PartsAt(a[1..], b[1..], n);
      assert a[..n + 1] == [a[0]] + a[1..][..n] && b[..n + 1] == [b[0]] + b[1..][..n];
      assert PartsAt(a, b, n + 1);
    }
    if First(a, b) {
      var n: nat :| PartsAt(a, b, n);
      assert n > 0;
      assert a[1..][..n - 1] == a[..n][1..] && b[1..][..n - 1] == b[..n][1..];
      assert PartsAt(a[1..], b[1..], n - 1);
    }
  }

  /** Ascending is in that order, everywhere. */
  lemma AscendingIff(s: seq<string>)
    ensures Ascending(Below, s) <==> forall i, j | 0 <= i < j < |s| :: First(s[i], s[j])
  {
    forall i, j | 0 <= i < j < |s| ensures Below(s[i], s[j]) <==> First(s[i], s[j]) {
      BelowIff(s[i], s[j]);
    }
  }

  /** So a list in that order is what sorting the set of its elements gives. */
  lemma SortedIs(names: seq<string>, s: set<string>)
    requires forall i, j | 0 <= i < j < |names| :: First(names[i], names[j])
    requires forall x :: x in names <==> x in s
    ensures TotalOrder(Below) && Sorted(Below, s) == names
  {
    BelowIsTotal();
    AscendingIff(names);
    AscendingUnique(Below, Sorted(Below, s), names);
  }
}
