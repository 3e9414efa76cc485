/** The arithmetic Asian payoff as the library computes it: `np.mean(ST)`
    has no axis, so the average runs over every entry of the matrix and
    the payoff is a single number rather than one per trajectory. */
module Asian {
  import opened Matrices

  /** `asian_payoff(ST, K)`: the positive part of the mean of all entries
      minus the strike. */
  function Payoff(m: Matrix, k: real): (r: real)
    requires IsPaths(m) && |m| > 0
    ensures r >= 0.0
    ensures r == Max0(Total(m) / ((|m| * |m[0]|) as real) - k)
  {
    FlattenShape(m);
    Max0(Mean(Flatten(m)) - k)
  }

  /** When no sample exceeds the strike the payoff is zero. */
  lemma {:induction false} NothingAboveStrike(m: Matrix, k: real)
    requires IsPaths(m) && |m| > 0
    requires forall i, j :: 0 <= i < |m| && 0 <= j < |m[i]| ==> m[i][j] <= k
    ensures Payoff(m, k) == 0.0
  {
    TotalAtMost(m, k);
    var n := (|m| * |m[0]|) as real;
    assert Total(m) / n <= k by {
      assert Total(m) <= n * k;
    }
  }

  /** A higher strike never increases the payoff. */
  lemma StrikeAntitone(m: Matrix, k1: real, k2: real)
    requires IsPaths(m) && |m| > 0
    requires k1 <= k2
    ensures Payoff(m, k2) <= Payoff(m, k1)
  {
  }

  /** Reordering the trajectories leaves the payoff unchanged. */
  lemma RowPermutation(m: Matrix, m': Matrix, k: real)
    requires IsPaths(m) && |m| > 0 && IsPaths(m')
    requires multiset(m) == multiset(m')
    ensures |m'| > 0
    ensures Payoff(m, k) == Payoff(m', k)
  {
    assert |m'| == |multiset(m')| == |multiset(m)| == |m|;
    assert m'[0] in multiset(m);
    TotalRowPermutation(m, m');
  }

  /** Reordering the samples within each trajectory leaves the payoff
      unchanged. */
  lemma WithinRowPermutation(m: Matrix, m': Matrix, k: real)
    requires IsPaths(m) && |m| > 0 && IsPaths(m')
    requires |m| == |m'|
    requires forall i :: 0 <= i < |m| ==> multiset(m[i]) == multiset(m'[i])
    ensures Payoff(m, k) == Payoff(m', k)
  {
    assert |m[0]| == |multiset(m[0])| == |multiset(m'[0])| == |m'[0]|;
    TotalWithinRowPermutation(m, m');
  }

  /** On a single trajectory the payoff is the classic arithmetic-average
      call on that trajectory. */
  lemma SingleTrajectory(row: seq<real>, k: real)
    requires |row| > 0
    ensures IsPaths([row])
    ensures Payoff([row], k) == Max0(Mean(row) - k)
  {
    assert [row][1..] == [];
    assert Total([row]) == Sum(row);
  }

  /** On the standard two-path scenario with strike 100 the payoff is the
      single number 620/6 - 100 = 10/3, not the per-path vector [0, 20/3]. */
  lemma StandardScenario()
    ensures Payoff([[90.0, 100.0, 110.0], [95.0, 105.0, 120.0]], 100.0) == 10.0 / 3.0
  {
    var m: Matrix := [[90.0, 100.0, 110.0], [95.0, 105.0, 120.0]];
    assert IsPaths(m);
    assert m[1..][1..] == [];
    assert Sum(m[0]) == 300.0 by {
      assert m[0][1..][1..][1..] == [];
    }
    assert Sum(m[1]) == 320.0 by {
      assert m[1][1..][1..][1..] == [];
    }
    assert Total(m) == 620.0;
  }
}
