/** The collision search shared by item identifiers and attachment file
    names: try a first name, then `prefix + str(n) + suffix` for n = start,
    start + 1, ... until a name is not in use.

    The search always stops: the candidates for distinct counters are
    distinct strings, so each failed try removes one element from the finite
    set of names in use that have not been tried yet. */
module Candidates {
  import opened Decimal

  function Candidate(prefix: string, n: nat, suffix: string): string {
    prefix + NatToString(n) + suffix
  }

  /** Distinct counters give distinct candidates. */
  lemma CandidateInjective(prefix: string, a: nat, b: nat, suffix: string)
    ensures Candidate(prefix, a, suffix) == Candidate(prefix, b, suffix) ==> a == b
  {
    var ca, cb := Candidate(prefix, a, suffix), Candidate(prefix, b, suffix);
    if ca == cb {
      var x, y := NatToString(a), NatToString(b);
      assert |x| == |y|;
      assert ca[|prefix|..|prefix| + |x|] == x;
      assert cb[|prefix|..|prefix| + |y|] == y;
      NatToStringInjective(a, b);
    }
  }

  /** The candidates with a counter below `n`. */
  ghost function Tried(prefix: string, suffix: string, n: nat): set<string> {
    set m | 0 <= m < n :: Candidate(prefix, m, suffix)
  }

  /** A failed try shrinks the set of used names not tried yet. */
  lemma TriedShrinks(used: set<string>, prefix: string, suffix: string, n: nat)
    requires Candidate(prefix, n, suffix) in used
    ensures |used - Tried(prefix, suffix, n + 1)| < |used - Tried(prefix, suffix, n)|
  {
    var c := Candidate(prefix, n, suffix);
    var before := used - Tried(prefix, suffix, n);
    var after := used - Tried(prefix, suffix, n + 1);
    forall m | 0 <= m < n ensures Candidate(prefix, m, suffix) != c {
      CandidateInjective(prefix, m, n, suffix);
    }
    assert c in before;
    assert after == before - {c};
    assert before == after + {c};
  }

  /** The smallest counter `k >= n` whose candidate is not in `used`. */
  function FirstFree(used: set<string>, prefix: string, suffix: string, n: nat): (k: nat)
    ensures k >= n
    ensures Candidate(prefix, k, suffix) !in used
    ensures forall m :: n <= m < k ==> Candidate(prefix, m, suffix) in used
    decreases |used - Tried(prefix, suffix, n)|
  {
    if Candidate(prefix, n, suffix) !in used then n
    else
      TriedShrinks(used, prefix, suffix, n);
      FirstFree(used, prefix, suffix, n + 1)
  }

}
