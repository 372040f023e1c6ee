/** The "first free counter" search that the vault repeats whenever a name
    is taken: try prefix + "1" + suffix, prefix + "2" + suffix, ... and keep
    the first candidate that does not exist yet. */
module Naming {
  import opened Strings

  function Numbered(prefix: string, n: nat, suffix: string): string {
    prefix + NatToString(n) + suffix
  }

  /** Different counters give different candidates. */
  lemma NumberedInjective(prefix: string, suffix: string, n: nat, m: nat)
    requires Numbered(prefix, n, suffix) == Numbered(prefix, m, suffix)
    ensures n == m
  {
    var a, b := NatToString(n), NatToString(m);
    var x, y := prefix + a + suffix, prefix + b + suffix;
    assert |a| == |b|;
    assert a == x[|prefix|..|prefix| + |a|] == y[|prefix|..|prefix| + |b|] == b;
    NatToStringInjective(n, m);
  }

  /** n is the counter the search stops at: its candidate is free and the
      candidates of every smaller counter (from 1) are taken. */
  ghost predicate IsFirstFree(existing: set<string>, prefix: string, suffix: string, n: nat) {
    && n >= 1
    && Numbered(prefix, n, suffix) !in existing
    && forall k :: 1 <= k < n ==> Numbered(prefix, k, suffix) in existing
  }

  /** The counter loop: counter starts at 1 and goes up while the candidate exists. */
  method FirstFreeCounter(existing: set<string>, prefix: string, suffix: string) returns (n: nat, name: string)
    ensures name == Numbered(prefix, n, suffix)
    ensures n >= 1 && name !in existing
    ensures forall k :: 1 <= k < n ==> Numbered(prefix, k, suffix) in existing
    ensures n <= |existing| + 1
  {
    n := 1;
    ghost var tried: set<string> := {};
    while Numbered(prefix, n, suffix) in existing
      invariant n >= 1
      invariant tried == set k | 1 <= k < n :: Numbered(prefix, k, suffix)
      invariant |tried| == n - 1
      invariant tried <= existing
      decreases existing - tried
    {
      var c := Numbered(prefix, n, suffix);
      if c in tried {
        var k :| 1 <= k < n && Numbered(prefix, k, suffix) == c;
        NumberedInjective(prefix, suffix, k, n);
      }
      tried := tried + {c};
      n := n + 1;
    }
    name := Numbered(prefix, n, suffix);
    assert |tried| <= |existing| by { SubsetCard(tried, existing); }
  }

  lemma SubsetCard(a: set<string>, b: set<string>)
    requires a <= b
    ensures |a| <= |b|
  {
    assert b == a + (b - a);
  }

  /** Two counters that both satisfy the search's postcondition are equal:
      the search has exactly one answer. */
  lemma FirstFreeUnique(existing: set<string>, prefix: string, suffix: string, n: nat, m: nat)
    requires IsFirstFree(existing, prefix, suffix, n)
    requires IsFirstFree(existing, prefix, suffix, m)
    ensures n == m
  {
  }

  /** `name` is what the search settles on for `original`: the original
      itself when free, else the first free numbered candidate. */
  ghost predicate Resolved(existing: set<string>, original: string, prefix: string, suffix: string, name: string) {
    && name !in existing
    && (original !in existing ==> name == original)
    && (original in existing ==>
          exists n :: IsFirstFree(existing, prefix, suffix, n) && name == Numbered(prefix, n, suffix))
  }

  /** The settled name is free, and is the original or a numbered candidate. */
  lemma ResolvedCases(existing: set<string>, original: string, prefix: string, suffix: string, name: string)
    requires Resolved(existing, original, prefix, suffix, name)
    ensures name !in existing
    ensures name == original || exists n :: n >= 1 && name == Numbered(prefix, n, suffix)
  {
    if original in existing {
      var n :| IsFirstFree(existing, prefix, suffix, n) && name == Numbered(prefix, n, suffix);
      assert n >= 1;
    }
  }

  /** The settled name is determined by the existing names. */
  lemma ResolvedUnique(existing: set<string>, original: string, prefix: string, suffix: string, a: string, b: string)
    requires Resolved(existing, original, prefix, suffix, a)
    requires Resolved(existing, original, prefix, suffix, b)
    ensures a == b
  {
    if original in existing {
      var n :| IsFirstFree(existing, prefix, suffix, n) && a == Numbered(prefix, n, suffix);
      var m :| IsFirstFree(existing, prefix, suffix, m) && b == Numbered(prefix, m, suffix);
      FirstFreeUnique(existing, prefix, suffix, n, m);
    }
  }

  /** The common wrapper: keep `original` when it is free, otherwise number it. */
  method ResolveConflict(existing: set<string>, original: string, prefix: string, suffix: string)
    returns (name: string)
    ensures Resolved(existing, original, prefix, suffix, name)
  {
    if original !in existing {
      return original;
    }
    var n;
    n, name := FirstFreeCounter(existing, prefix, suffix);
  }
}
