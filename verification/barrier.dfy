/** Up-barrier call payoffs: the call payoff of each trajectory, gated by
    whether the trajectory ever reaches the barrier level. */
module Barrier {
  import opened Matrices
  import Vanilla

  /** The trajectory stays strictly below the barrier at every sample. */
  ghost predicate Survives(row: seq<real>, barrier: real) {
    forall j :: 0 <= j < |row| ==> row[j] < barrier
  }

  /** The trajectory reaches the barrier at some sample. */
  ghost predicate Touches(row: seq<real>, barrier: real) {
    exists j :: 0 <= j < |row| && row[j] >= barrier
  }

  /** One row of `np.all(ST < barrier, axis=1)`. */
  function AllBelow(row: seq<real>, barrier: real): (r: bool)
    ensures r <==> Survives(row, barrier)
    decreases |row|
  {
    if |row| == 0 then true else row[0] < barrier && AllBelow(row[1..], barrier)
  }

  /** One row of `np.any(ST >= barrier, axis=1)`. */
  function AnyAtOrAbove(row: seq<real>, barrier: real): (r: bool)
    ensures r <==> Touches(row, barrier)
    decreases |row|
  {
    if |row| == 0 then false
    else if row[0] >= barrier then
      assert Touches(row, barrier) by { assert row[0] >= barrier; }
      true
    else
      var rest := AnyAtOrAbove(row[1..], barrier);
      assert rest ==> Touches(row, barrier) by {
        if rest {
          var j :| 0 <= j < |row| - 1 && row[1..][j] >= barrier;
          assert row[j + 1] >= barrier;
        }
      }
      assert Touches(row, barrier) ==> rest by {
        if Touches(row, barrier) {
          var j :| 0 <= j < |row| && row[j] >= barrier;
          assert j != 0;
          assert row[1..][j - 1] >= barrier;
        }
      }
      rest
  }

  /** A boolean mask used as a numeric factor (`True` is 1, `False` is 0). */
  function Indicator(b: bool): (r: real)
    ensures r == 1.0 <==> b
    ensures r == 0.0 <==> !b
  {
    if b then 1.0 else 0.0
  }

  /** `barrier_knock_out(ST, K, barrier)`: a trajectory pays the call
      payoff if it never reaches the barrier, and zero otherwise. */
  function KnockOut(m: Matrix, k: real, barrier: real): (r: seq<real>)
    requires IsPaths(m)
    ensures |r| == |m|
    ensures forall i :: 0 <= i < |m| ==>
      r[i] == (if Survives(m[i], barrier) then Max0(Last(m[i]) - k) else 0.0)
    decreases |m|
  {
    if |m| == 0 then []
    else [Max0(Last(m[0]) - k) * Indicator(AllBelow(m[0], barrier))] + KnockOut(m[1..], k, barrier)
  }

  /** `barrier_knock_in(ST, K, barrier)`: a trajectory pays the call
      payoff if it reaches the barrier at least once, and zero otherwise. */
  function KnockIn(m: Matrix, k: real, barrier: real): (r: seq<real>)
    requires IsPaths(m)
    ensures |r| == |m|
    ensures forall i :: 0 <= i < |m| ==>
      r[i] == (if Touches(m[i], barrier) then Max0(Last(m[i]) - k) else 0.0)
    decreases |m|
  {
    if |m| == 0 then []
    else [Max0(Last(m[0]) - k) * Indicator(AnyAtOrAbove(m[0], barrier))] + KnockIn(m[1..], k, barrier)
  }

  /** The strict survival test and the non-strict touch test are exact
      complements. */
  lemma SurvivesIffNotTouches(row: seq<real>, barrier: real)
    ensures Survives(row, barrier) <==> !Touches(row, barrier)
  {
  }

  /** Knock-out plus knock-in is the vanilla call, trajectory by trajectory. */
  lemma KnockOutPlusKnockIn(m: Matrix, k: real, barrier: real)
    requires IsPaths(m)
    ensures forall i :: 0 <= i < |m| ==>
      KnockOut(m, k, barrier)[i] + KnockIn(m, k, barrier)[i] == Vanilla.Call(m, k)[i]
  {
    forall i | 0 <= i < |m|
      ensures KnockOut(m, k, barrier)[i] + KnockIn(m, k, barrier)[i] == Vanilla.Call(m, k)[i]
    {
      SurvivesIffNotTouches(m[i], barrier);
    }
  }

  /** At most one of the two pays on any trajectory. */
  lemma {:induction false} KnockOutKnockInExclusive(m: Matrix, k: real, barrier: real)
    requires IsPaths(m)
    ensures forall i :: 0 <= i < |m| ==>
      KnockOut(m, k, barrier)[i] * KnockIn(m, k, barrier)[i] == 0.0
  {
    var ko, ki := KnockOut(m, k, barrier), KnockIn(m, k, barrier);
    forall i | 0 <= i < |m|
      ensures ko[i] * ki[i] == 0.0
    {
      SurvivesIffNotTouches(m[i], barrier);
      if Survives(m[i], barrier) {
        assert ki[i] == 0.0;
      } else {
        assert ko[i] == 0.0;
      }
    }
  }

  /** Each barrier payoff lies between zero and the vanilla call payoff. */
  lemma KnockBounds(m: Matrix, k: real, barrier: real)
    requires IsPaths(m)
    ensures forall i :: 0 <= i < |m| ==>
      0.0 <= KnockOut(m, k, barrier)[i] <= Vanilla.Call(m, k)[i]
    ensures forall i :: 0 <= i < |m| ==>
      0.0 <= KnockIn(m, k, barrier)[i] <= Vanilla.Call(m, k)[i]
  {
  }

  /** A trajectory with a sample exactly at the barrier is knocked out and
      knocked in. */
  lemma SampleAtBarrier(m: Matrix, k: real, barrier: real, i: int, j: int)
    requires IsPaths(m)
    requires 0 <= i < |m| && 0 <= j < |m[i]| && m[i][j] == barrier
    ensures KnockOut(m, k, barrier)[i] == 0.0
    ensures KnockIn(m, k, barrier)[i] == Vanilla.Call(m, k)[i]
  {
    assert Touches(m[i], barrier);
  }

  /** Averaged over the trajectories, knock-out plus knock-in equals the
      vanilla call, so in particular their sum never exceeds it. */
  lemma {:induction false} KnockMeansAddUp(m: Matrix, k: real, barrier: real)
    requires IsPaths(m) && |m| > 0
    ensures Mean(KnockOut(m, k, barrier)) + Mean(KnockIn(m, k, barrier)) == Mean(Vanilla.Call(m, k))
  {
    KnockOutPlusKnockIn(m, k, barrier);
    MeanPointwise(KnockOut(m, k, barrier), KnockIn(m, k, barrier), Vanilla.Call(m, k));
  }

  /** Averaged over the trajectories, neither barrier payoff exceeds the
      vanilla call. */
  lemma {:induction false} KnockMeansBelowCall(m: Matrix, k: real, barrier: real)
    requires IsPaths(m) && |m| > 0
    ensures Mean(KnockOut(m, k, barrier)) <= Mean(Vanilla.Call(m, k))
    ensures Mean(KnockIn(m, k, barrier)) <= Mean(Vanilla.Call(m, k))
  {
    KnockBounds(m, k, barrier);
    MeanMonotone(KnockOut(m, k, barrier), Vanilla.Call(m, k));
    MeanMonotone(KnockIn(m, k, barrier), Vanilla.Call(m, k));
  }

  /** The barrier scenario with strike 100 and barrier 120: the first path
      stays below and keeps its payoff 10, the second touches 120 and pays
      15 only as a knock-in. */
  lemma BarrierScenario()
    ensures KnockOut([[90.0, 100.0, 110.0], [130.0, 120.0, 115.0]], 100.0, 120.0) == [10.0, 0.0]
    ensures KnockIn([[90.0, 100.0, 110.0], [130.0, 120.0, 115.0]], 100.0, 120.0) == [0.0, 15.0]
  {
    var m := [[90.0, 100.0, 110.0], [130.0, 120.0, 115.0]];
    assert IsPaths(m);
    assert Last(m[0]) == 110.0 && Last(m[1]) == 115.0;
    assert m[1][0] >= 120.0;
    assert !Touches(m[0], 120.0);
  }
}
