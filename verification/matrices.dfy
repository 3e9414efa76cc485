/** Path matrices and the numpy reductions the payoffs are built from.
    A path matrix has one row per simulated trajectory and one column per
    time step; it is a rectangular numpy array, so every row has the same
    length, and the payoffs index its last column, so that length is at
    least one. */
module Matrices {

  type Matrix = seq<seq<real>>

  /** The shape of a path matrix: rectangular with at least one column.
      Zero rows are allowed (numpy handles an empty batch of paths). */
  predicate IsPaths(m: Matrix) {
    forall i :: 0 <= i < |m| ==> 0 < |m[i]| == |m[0]|
  }

  /** The last sample of a trajectory, `row[-1]`. */
  function Last(row: seq<real>): real
    requires |row| > 0
  {
    row[|row| - 1]
  }

  /** `np.maximum(x, 0)`: the positive part of `x`. */
  function Max0(x: real): (r: real)
    ensures r >= 0.0 && r >= x
    ensures r == x || r == 0.0
  {
    if x > 0.0 then x else 0.0
  }

  /** `np.sum` of a vector. */
  function Sum(s: seq<real>): real
    decreases |s|
  {
    if |s| == 0 then 0.0 else s[0] + Sum(s[1..])
  }

  /** `np.mean` of a non-empty vector. */
  function Mean(s: seq<real>): real
    requires |s| > 0
  {
    Sum(s) / (|s| as real)
  }

  /** Division distributes over a sum. */
  lemma DivAdd(x: real, y: real, n: real)
    requires n > 0.0
    ensures x / n + y / n == (x + y) / n
  {
  }

  /** Removing `n` copies of `k` before dividing by `n` removes `k` after. */
  lemma DivShift(x: real, k: real, n: real)
    requires n > 0.0
    ensures (x - n * k) / n == x / n - k
  {
  }

  /** Dividing by a positive number keeps the order. */
  lemma DivMonotone(x: real, y: real, n: real)
    requires n > 0.0 && x <= y
    ensures x / n <= y / n
  {
  }

  /** Averaging is monotone under a pointwise order. */
  lemma MeanMonotone(a: seq<real>, b: seq<real>)
    requires |a| == |b| > 0
    requires forall i :: 0 <= i < |a| ==> a[i] <= b[i]
    ensures Mean(a) <= Mean(b)
  {
    SumMonotone(a, b);
    DivMonotone(Sum(a), Sum(b), |a| as real);
  }

  /** Averaging is additive under a pointwise sum. */
  lemma MeanPointwise(a: seq<real>, b: seq<real>, c: seq<real>)
    requires |a| == |b| == |c| > 0
    requires forall i :: 0 <= i < |c| ==> c[i] == a[i] + b[i]
    ensures Mean(c) == Mean(a) + Mean(b)
  {
    SumPointwise(a, b, c);
    DivAdd(Sum(a), Sum(b), |c| as real);
  }

  /** Shifting every entry by `-k` shifts the average by `-k`. */
  lemma MeanShift(s: seq<real>, t: seq<real>, k: real)
    requires |s| == |t| > 0
    requires forall i :: 0 <= i < |t| ==> t[i] == s[i] - k
    ensures Mean(t) == Mean(s) - k
  {
    SumShift(s, t, k);
    DivShift(Sum(s), k, |s| as real);
  }

  /** The entries of a matrix in row-major order (`ST.ravel()`). */
  function Flatten(m: Matrix): seq<real>
    decreases |m|
  {
    if |m| == 0 then [] else m[0] + Flatten(m[1..])
  }

  /** The sum of all entries of a matrix, row by row. */
  function Total(m: Matrix): real
    decreases |m|
  {
    if |m| == 0 then 0.0 else Sum(m[0]) + Total(m[1..])
  }

  lemma {:induction false} SumConcat(a: seq<real>, b: seq<real>)
    ensures Sum(a + b) == Sum(a) + Sum(b)
    decreases |a|
  {
    if |a| == 0 {
      assert a + b == b;
    } else {
      assert (a + b)[1..] == a[1..] + b;
      SumConcat(a[1..], b);
    }
  }

  /** Removing the entry at `j` removes one occurrence of it. */
  lemma {:induction false} MultisetRemove<T>(b: seq<T>, j: int)
    requires 0 <= j < |b|
    ensures multiset(b[..j] + b[j + 1..]) == multiset(b) - multiset{b[j]}
  {
    assert b == b[..j] + [b[j]] + b[j + 1..];
  }

  lemma {:induction false} SumRemove(b: seq<real>, j: int)
    requires 0 <= j < |b|
    ensures Sum(b) == b[j] + Sum(b[..j] + b[j + 1..])
  {
    assert b == (b[..j] + [b[j]]) + b[j + 1..];
    SumConcat(b[..j] + [b[j]], b[j + 1..]);
    SumConcat(b[..j], [b[j]]);
    SumConcat(b[..j], b[j + 1..]);
    assert Sum([b[j]]) == b[j];
  }

  /** A position at which an element of a sequence occurs. */
  lemma {:induction false} IndexOf<T>(b: seq<T>, x: T) returns (j: int)
    requires x in multiset(b)
    ensures 0 <= j < |b| && b[j] == x
  {
    j :| 0 <= j < |b| && b[j] == x;
  }

  /** When two sequences are permutations of each other, the head of the
      first occurs in the second at some `j`, and removing both leaves two
      permutations of each other. */
  lemma {:induction false} MatchHead<T>(a: seq<T>, b: seq<T>) returns (j: int)
    requires |a| > 0 && multiset(a) == multiset(b)
    ensures 0 <= j < |b| && b[j] == a[0]
    ensures multiset(a[1..]) == multiset(b[..j] + b[j + 1..])
  {
    j := IndexOf(b, a[0]);
    assert a == [a[0]] + a[1..];
    MultisetRemove(b, j);
  }

  /** Summation does not depend on the order of the entries. */
  lemma {:induction false} SumPermutation(a: seq<real>, b: seq<real>)
    requires multiset(a) == multiset(b)
    ensures Sum(a) == Sum(b)
    decreases |a|
  {
    if |a| == 0 {
      assert |b| == |multiset(b)| == 0;
    } else {
      var j := MatchHead(a, b);
      SumPermutation(a[1..], b[..j] + b[j + 1..]);
      SumRemove(b, j);
    }
  }

  lemma {:induction false} SumNonnegative(s: seq<real>)
    requires forall i :: 0 <= i < |s| ==> s[i] >= 0.0
    ensures Sum(s) >= 0.0
    decreases |s|
  {
    if |s| > 0 {
      SumNonnegative(s[1..]);
    }
  }

  /** Summation is monotone under a pointwise order. */
  lemma {:induction false} SumMonotone(a: seq<real>, b: seq<real>)
    requires |a| == |b|
    requires forall i :: 0 <= i < |a| ==> a[i] <= b[i]
    ensures Sum(a) <= Sum(b)
    decreases |a|
  {
    if |a| > 0 {
      SumMonotone(a[1..], b[1..]);
    }
  }

  /** Summation is additive under a pointwise sum. */
  lemma {:induction false} SumPointwise(a: seq<real>, b: seq<real>, c: seq<real>)
    requires |a| == |b| == |c|
    requires forall i :: 0 <= i < |c| ==> c[i] == a[i] + b[i]
    ensures Sum(c) == Sum(a) + Sum(b)
    decreases |c|
  {
    if |c| > 0 {
      SumPointwise(a[1..], b[1..], c[1..]);
    }
  }

  /** Shifting every entry by `-k` shifts the sum by `-|s|·k`. */
  lemma {:induction false} SumShift(s: seq<real>, t: seq<real>, k: real)
    requires |s| == |t|
    requires forall i :: 0 <= i < |t| ==> t[i] == s[i] - k
    ensures Sum(t) == Sum(s) - (|s| as real) * k
    decreases |s|
  {
    if |s| > 0 {
      SumShift(s[1..], t[1..], k);
    }
  }

  /** Every entry at most `k` bounds the sum by `|s|·k`. */
  lemma {:induction false} SumAtMost(s: seq<real>, k: real)
    requires forall i :: 0 <= i < |s| ==> s[i] <= k
    ensures Sum(s) <= (|s| as real) * k
    decreases |s|
  {
    if |s| > 0 {
      SumAtMost(s[1..], k);
    }
  }

  /** Flattening keeps every entry: its length is rows × columns and its
      sum is the row-by-row total. */
  lemma {:induction false} FlattenShape(m: Matrix)
    requires IsPaths(m) && |m| > 0
    ensures |Flatten(m)| == |m| * |m[0]|
    ensures Sum(Flatten(m)) == Total(m)
    decreases |m|
  {
    if |m| == 1 {
      assert m[1..] == [];
      assert Flatten(m) == m[0];
    } else {
      assert IsPaths(m[1..]);
      FlattenShape(m[1..]);
      SumConcat(m[0], Flatten(m[1..]));
    }
  }

  lemma {:induction false} TotalConcat(a: Matrix, b: Matrix)
    ensures Total(a + b) == Total(a) + Total(b)
    decreases |a|
  {
    if |a| == 0 {
      assert a + b == b;
    } else {
      assert (a + b)[1..] == a[1..] + b;
      TotalConcat(a[1..], b);
    }
  }

  lemma {:induction false} TotalRemove(b: Matrix, j: int)
    requires 0 <= j < |b|
    ensures Total(b) == Sum(b[j]) + Total(b[..j] + b[j + 1..])
  {
    assert b == (b[..j] + [b[j]]) + b[j + 1..];
    TotalConcat(b[..j] + [b[j]], b[j + 1..]);
    TotalConcat(b[..j], [b[j]]);
    TotalConcat(b[..j], b[j + 1..]);
    assert [b[j]][1..] == [];
  }

  /** The total does not depend on the order of the rows. */
  lemma {:induction false} TotalRowPermutation(a: Matrix, b: Matrix)
    requires multiset(a) == multiset(b)
    ensures Total(a) == Total(b)
    decreases |a|
  {
    if |a| == 0 {
      assert |b| == |multiset(b)| == 0;
    } else {
      var j := MatchHead(a, b);
      TotalRowPermutation(a[1..], b[..j] + b[j + 1..]);
      TotalRemove(b, j);
    }
  }

  /** The total does not depend on the order of the entries within rows. */
  lemma {:induction false} TotalWithinRowPermutation(a: Matrix, b: Matrix)
    requires |a| == |b|
    requires forall i :: 0 <= i < |a| ==> multiset(a[i]) == multiset(b[i])
    ensures Total(a) == Total(b)
    decreases |a|
  {
    if |a| > 0 {
      SumPermutation(a[0], b[0]);
      TotalWithinRowPermutation(a[1..], b[1..]);
    }
  }

  /** Every entry at most `k` bounds the total by rows × columns × `k`. */
  lemma {:induction false} TotalAtMost(m: Matrix, k: real)
    requires IsPaths(m) && |m| > 0
    requires forall i, j :: 0 <= i < |m| && 0 <= j < |m[i]| ==> m[i][j] <= k
    ensures Total(m) <= ((|m| * |m[0]|) as real) * k
    decreases |m|
  {
    SumAtMost(m[0], k);
    if |m| == 1 {
      assert m[1..] == [];
    } else {
      assert IsPaths(m[1..]);
      TotalAtMost(m[1..], k);
      assert ((|m| * |m[0]|) as real) * k
          == (|m[0]| as real) * k + (((|m| - 1) * |m[0]|) as real) * k;
    }
  }
}
