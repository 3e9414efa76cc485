/** European call and put payoffs on the terminal column of a path matrix. */
module Vanilla {
  import opened Matrices

  /** `vanilla_call(ST, K)`: one entry per trajectory, the positive part of
      its terminal price minus the strike. */
  function Call(m: Matrix, k: real): (r: seq<real>)
    requires IsPaths(m)
    ensures |r| == |m|
    ensures forall i :: 0 <= i < |m| ==> r[i] == Max0(Last(m[i]) - k)
    decreases |m|
  {
    if |m| == 0 then [] else [Max0(Last(m[0]) - k)] + Call(m[1..], k)
  }

  /** `vanilla_put(ST, K)`: one entry per trajectory, the positive part of
      the strike minus its terminal price. */
  function Put(m: Matrix, k: real): (r: seq<real>)
    requires IsPaths(m)
    ensures |r| == |m|
    ensures forall i :: 0 <= i < |m| ==> r[i] == Max0(k - Last(m[i]))
    decreases |m|
  {
    if |m| == 0 then [] else [Max0(k - Last(m[0]))] + Put(m[1..], k)
  }

  /** The terminal column `ST[:, -1]`. */
  function LastColumn(m: Matrix): (r: seq<real>)
    requires IsPaths(m)
    ensures |r| == |m|
    ensures forall i :: 0 <= i < |m| ==> r[i] == Last(m[i])
  {
    seq(|m|, i requires 0 <= i < |m| => Last(m[i]))
  }

  /** Neither payoff is ever negative. */
  lemma CallPutNonnegative(m: Matrix, k: real)
    requires IsPaths(m)
    ensures forall i :: 0 <= i < |m| ==> Call(m, k)[i] >= 0.0 && Put(m, k)[i] >= 0.0
  {
  }

  /** Both payoffs read only the terminal column: two matrices that agree on
      it give the same call and the same put payoffs. */
  lemma {:induction false} TerminalColumnOnly(m: Matrix, m': Matrix, k: real)
    requires IsPaths(m) && IsPaths(m')
    requires LastColumn(m) == LastColumn(m')
    ensures Call(m, k) == Call(m', k)
    ensures Put(m, k) == Put(m', k)
  {
    var col, col' := LastColumn(m), LastColumn(m');
    assert |m| == |col| == |m'|;
    var c, c' := Call(m, k), Call(m', k);
    var p, p' := Put(m, k), Put(m', k);
    forall i | 0 <= i < |m|
      ensures c[i] == c'[i] && p[i] == p'[i]
    {
      assert Last(m[i]) == col[i] == col'[i] == Last(m'[i]);
    }
  }

  /** Put-call parity at payoff level: per trajectory, call minus put is
      the terminal price minus the strike. */
  lemma PutCallParity(m: Matrix, k: real)
    requires IsPaths(m)
    ensures forall i :: 0 <= i < |m| ==> Call(m, k)[i] - Put(m, k)[i] == Last(m[i]) - k
  {
  }

  /** Put-call parity averaged over the trajectories: mean call payoff
      minus mean put payoff is the mean terminal price minus the strike. */
  lemma {:induction false} MeanParity(m: Matrix, k: real)
    requires IsPaths(m) && |m| > 0
    ensures Mean(Call(m, k)) - Mean(Put(m, k)) == Mean(LastColumn(m)) - k
  {
    var call := Call(m, k);
    var put := Put(m, k);
    var diff := seq(|m|, i requires 0 <= i < |m| => call[i] - put[i]);
    PutCallParity(m, k);
    MeanPointwise(put, diff, call);
    MeanShift(LastColumn(m), diff, k);
  }

  /** The standard two-path scenario with strike 100: the call pays
      [10, 20] and the put pays nothing. */
  lemma StandardScenario()
    ensures Call([[90.0, 100.0, 110.0], [95.0, 105.0, 120.0]], 100.0) == [10.0, 20.0]
    ensures Put([[90.0, 100.0, 110.0], [95.0, 105.0, 120.0]], 100.0) == [0.0, 0.0]
  {
    var m := [[90.0, 100.0, 110.0], [95.0, 105.0, 120.0]];
    assert IsPaths(m);
    assert Last(m[0]) == 110.0 && Last(m[1]) == 120.0;
  }
}
