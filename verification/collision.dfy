/**
 * Placeholder collisions, shared by both versions of the key normaliser: a token already
 * present in the output is stored as `<token>_DUPLICADO_<n>` with the smallest `n >= 1`
 * that is still free. The search is a counting loop over the output's keys.
 */
module Collision {

  import opened Json

  const Marker := "_DUPLICADO_"

  /** `f"{token}_DUPLICADO_{n}"` */
  function Dup(token: string, n: nat): string {
    token + Marker + NatToString(n)
  }

  lemma DupInjective(token: string, a: nat, b: nat)
    requires Dup(token, a) == Dup(token, b)
    ensures a == b
  {
    var p := |token + Marker|;
    assert Dup(token, a)[p..] == NatToString(a);
    assert Dup(token, b)[p..] == NatToString(b);
    NatToStringInjective(a, b);
  }

  /** The candidates `Dup(token, 1)`, ..., `Dup(token, n)`. */
  function Candidates(token: string, n: nat): set<string> {
    set m | 1 <= m <= n :: Dup(token, m)
  }

  lemma {:induction false} CandidatesCount(token: string, n: nat)
    ensures |Candidates(token, n)| == n
  {
    if n > 0 {
      var prev := Candidates(token, n - 1);
      CandidatesCount(token, n - 1);
      assert Candidates(token, n) == prev + {Dup(token, n)};
      if Dup(token, n) in prev {
        var m :| 1 <= m <= n - 1 && Dup(token, m) == Dup(token, n);
        DupInjective(token, m, n);
        assert false;
      }
      assert |prev + {Dup(token, n)}| == |prev| + 1;
    } else {
      assert Candidates(token, 0) == {};
    }
  }

  lemma {:induction false} SetOfSeqSize(ks: seq<string>)
    ensures |set k | k in ks| <= |ks|
  {
    if ks != [] {
      SetOfSeqSize(ks[1..]);
      assert (set k | k in ks) == (set k | k in ks[1..]) + {ks[0]};
    }
  }

  /** Pigeonhole: when the first `n` candidates are all taken, there are at least `n` keys. */
  lemma TakenBound(ks: seq<string>, token: string, n: nat)
    requires forall m :: 1 <= m <= n ==> Dup(token, m) in ks
    ensures n <= |ks|
  {
    CandidatesCount(token, n);
    SetOfSeqSize(ks);
    SubsetSize(Candidates(token, n), set k | k in ks);
  }

  lemma {:induction false} SubsetSize(a: set<string>, b: set<string>)
    requires a <= b
    ensures |a| <= |b|
    decreases |a|
  {
    if a != {} {
      var x :| x in a;
      SubsetSize(a - {x}, b - {x});
    }
  }

  /** The first free suffix at or after `n`, given that every suffix below `n` is taken. */
  function FreeFrom(ks: seq<string>, token: string, n: nat): (r: nat)
    requires 1 <= n && forall m :: 1 <= m < n ==> Dup(token, m) in ks
    ensures n <= r && Dup(token, r) !in ks
    ensures forall m :: n <= m < r ==> Dup(token, m) in ks
    decreases |ks| + 1 - n
  {
    if Dup(token, n) !in ks then n
    else
      TakenBound(ks, token, n);
      FreeFrom(ks, token, n + 1)
  }

  /** The smallest `n >= 1` such that `Dup(token, n)` is not among the keys. */
  function FirstFree(ks: seq<string>, token: string): (r: nat)
    ensures 1 <= r && Dup(token, r) !in ks
    ensures forall m :: 1 <= m < r ==> Dup(token, m) in ks
  {
    FreeFrom(ks, token, 1)
  }

  /** The counting loop of the normaliser: `n` goes up from 1 until `Dup(token, n)` is free. */
  method FindFree(ks: seq<string>, token: string) returns (n: nat)
    ensures n == FirstFree(ks, token)
  {
    n := 1;
    while Dup(token, n) in ks
      invariant 1 <= n
      invariant forall m :: 1 <= m < n ==> Dup(token, m) in ks
      decreases |ks| + 1 - n
    {
      TakenBound(ks, token, n);
      n := n + 1;
    }
    FirstFreeUnique(ks, token, n);
  }

  /** The second copy of a token is `<token>_DUPLICADO_1`. */
  lemma SecondCopy(token: string)
    ensures FirstFree([token], token) == 1
    ensures Dup(token, 1) == token + "_DUPLICADO_1"
  {
    assert NatToString(1) == "1";
    assert |Dup(token, 1)| > |token|;
    FirstFreeUnique([token], token, 1);
  }

  /** Only one `n` is free with every smaller suffix taken. */
  lemma FirstFreeUnique(ks: seq<string>, token: string, n: nat)
    requires 1 <= n && Dup(token, n) !in ks
    requires forall m :: 1 <= m < n ==> Dup(token, m) in ks
    ensures n == FirstFree(ks, token)
  {
  }
}
