/** Properties of the pricing aggregator: what each payoff kind is priced
    at, monotonicity, and the two parities (knock-out plus knock-in equals
    the vanilla call; call minus put is the discounted forward value). */
module PricingLaws {
  import opened Outcomes
  import opened Matrices
  import Vanilla
  import Barrier
  import Asian
  import opened MonteCarlo

  /** A per-path payoff is priced at the discounted arithmetic mean of its
      entries. */
  lemma PerPathPrice(m: Matrix, k: real, discount: real, kind: PayoffKind, barrier: Option<real>)
    requires IsPaths(m) && |m| > 0
    requires Evaluate(kind, m, k, barrier).Ok? && Evaluate(kind, m, k, barrier).value.PerPath?
    ensures |Evaluate(kind, m, k, barrier).value.values| == |m|
    ensures Price(m, k, discount, kind, barrier).Ok?
    ensures Price(m, k, discount, kind, barrier).value
         == discount * Mean(Evaluate(kind, m, k, barrier).value.values)
  {
  }

  /** The dispatch of line 45: a barrier kind given a barrier is evaluated
      as `payoff(ST, K, barrier)`, a non-barrier kind without one as
      `payoff(ST, K)`. */
  lemma EvaluateDispatch(m: Matrix, k: real, b: real)
    requires IsPaths(m) && |m| > 0
    ensures Evaluate(VanillaCall, m, k, None).Ok?
    ensures Evaluate(VanillaCall, m, k, None).value == PerPath(Vanilla.Call(m, k))
    ensures Evaluate(VanillaPut, m, k, None).Ok?
    ensures Evaluate(VanillaPut, m, k, None).value == PerPath(Vanilla.Put(m, k))
    ensures Evaluate(KnockOut, m, k, Some(b)).Ok?
    ensures Evaluate(KnockOut, m, k, Some(b)).value == PerPath(Barrier.KnockOut(m, k, b))
    ensures Evaluate(KnockIn, m, k, Some(b)).Ok?
    ensures Evaluate(KnockIn, m, k, Some(b)).value == PerPath(Barrier.KnockIn(m, k, b))
    ensures Evaluate(AsianArithmetic, m, k, None).Ok?
    ensures Evaluate(AsianArithmetic, m, k, None).value == Single(Asian.Payoff(m, k))
  {
  }

  /** The vanilla call is priced at the discounted mean call payoff. */
  lemma {:induction false} CallPrice(m: Matrix, k: real, discount: real)
    requires IsPaths(m) && |m| > 0
    ensures Price(m, k, discount, VanillaCall, None).Ok?
    ensures Price(m, k, discount, VanillaCall, None).value == discount * Mean(Vanilla.Call(m, k))
  {
    assert Evaluate(VanillaCall, m, k, None).value == PerPath(Vanilla.Call(m, k));
    PerPathPrice(m, k, discount, VanillaCall, None);
  }

  /** The vanilla put is priced at the discounted mean put payoff. */
  lemma {:induction false} PutPrice(m: Matrix, k: real, discount: real)
    requires IsPaths(m) && |m| > 0
    ensures Price(m, k, discount, VanillaPut, None).Ok?
    ensures Price(m, k, discount, VanillaPut, None).value == discount * Mean(Vanilla.Put(m, k))
  {
    assert Evaluate(VanillaPut, m, k, None).value == PerPath(Vanilla.Put(m, k));
    PerPathPrice(m, k, discount, VanillaPut, None);
  }

  /** The knock-out is priced at the discounted mean knock-out payoff. */
  lemma {:induction false} KnockOutPrice(m: Matrix, k: real, discount: real, b: real)
    requires IsPaths(m) && |m| > 0
    ensures Price(m, k, discount, KnockOut, Some(b)).Ok?
    ensures Price(m, k, discount, KnockOut, Some(b)).value == discount * Mean(Barrier.KnockOut(m, k, b))
  {
    assert Evaluate(KnockOut, m, k, Some(b)).value == PerPath(Barrier.KnockOut(m, k, b));
    PerPathPrice(m, k, discount, KnockOut, Some(b));
  }

  /** The knock-in is priced at the discounted mean knock-in payoff. */
  lemma {:induction false} KnockInPrice(m: Matrix, k: real, discount: real, b: real)
    requires IsPaths(m) && |m| > 0
    ensures Price(m, k, discount, KnockIn, Some(b)).Ok?
    ensures Price(m, k, discount, KnockIn, Some(b)).value == discount * Mean(Barrier.KnockIn(m, k, b))
  {
    assert Evaluate(KnockIn, m, k, Some(b)).value == PerPath(Barrier.KnockIn(m, k, b));
    PerPathPrice(m, k, discount, KnockIn, Some(b));
  }

  /** The Asian payoff is a scalar and is priced as the discounted scalar
      (`np.mean` of a scalar is the scalar). */
  lemma {:induction false} AsianPrice(m: Matrix, k: real, discount: real)
    requires IsPaths(m) && |m| > 0
    ensures Price(m, k, discount, AsianArithmetic, None).Ok?
    ensures Price(m, k, discount, AsianArithmetic, None).value == discount * Asian.Payoff(m, k)
  {
    assert Evaluate(AsianArithmetic, m, k, None).value == Single(Asian.Payoff(m, k));
  }

  /** Pricing is monotone in the payoff: a pointwise smaller payoff vector
      has a smaller (or equal) price under a non-negative discount. */
  lemma PriceMonotone(a: seq<real>, b: seq<real>, discount: real)
    requires |a| == |b| > 0
    requires forall i :: 0 <= i < |a| ==> a[i] <= b[i]
    requires discount >= 0.0
    ensures discount * Expectation(PerPath(a)) <= discount * Expectation(PerPath(b))
  {
    MeanMonotone(a, b);
  }

  /** Discounting by a non-negative factor keeps the order. */
  lemma ScaleMonotone(d: real, x: real, y: real)
    requires d >= 0.0 && x <= y
    ensures d * x <= d * y
  {
  }

  /** Discounting distributes over a sum.  The prices `px`, `py`, `pz` are
      passed separately so that the caller's proof only has to match them
      with its price terms and never multiplies by the discount itself. */
  lemma ScaleAdd(d: real, x: real, y: real, z: real, px: real, py: real, pz: real)
    requires x + y == z
    requires px == d * x && py == d * y && pz == d * z
    ensures px + py == pz
  {
  }

  /** Discounting distributes over a difference.  The prices `px`, `py`
      are passed separately so that the caller's proof only has to match
      them with its price terms and never multiplies by the discount
      itself. */
  lemma ScaleSub(d: real, x: real, y: real, z: real, k: real, px: real, py: real)
    requires x - y == z - k
    requires px == d * x && py == d * y
    ensures px - py == d * z - d * k
  {
  }

  /** On the same paths, strike and barrier, the knock-out price plus the
      knock-in price is the vanilla call price. */
  lemma {:induction false} BarrierPriceParity(m: Matrix, k: real, discount: real, b: real)
    requires IsPaths(m) && |m| > 0
    ensures Price(m, k, discount, KnockOut, Some(b)).Ok?
    ensures Price(m, k, discount, KnockIn, Some(b)).Ok?
    ensures Price(m, k, discount, VanillaCall, None).Ok?
    ensures Price(m, k, discount, KnockOut, Some(b)).value + Price(m, k, discount, KnockIn, Some(b)).value
         == Price(m, k, discount, VanillaCall, None).value
  {
    CallPrice(m, k, discount);
    KnockOutPrice(m, k, discount, b);
    KnockInPrice(m, k, discount, b);
    var ko, ki, call := Mean(Barrier.KnockOut(m, k, b)), Mean(Barrier.KnockIn(m, k, b)), Mean(Vanilla.Call(m, k));
    Barrier.KnockMeansAddUp(m, k, b);
    ScaleAdd(discount, ko, ki, call,
      Price(m, k, discount, KnockOut, Some(b)).value,
      Price(m, k, discount, KnockIn, Some(b)).value,
      Price(m, k, discount, VanillaCall, None).value);
  }

  /** With a non-negative discount the knock-out price never exceeds the
      vanilla call price. */
  lemma {:induction false} KnockOutPriceBound(m: Matrix, k: real, discount: real, b: real)
    requires IsPaths(m) && |m| > 0
    requires discount >= 0.0
    ensures Price(m, k, discount, KnockOut, Some(b)).Ok?
    ensures Price(m, k, discount, VanillaCall, None).Ok?
    ensures Price(m, k, discount, KnockOut, Some(b)).value <= Price(m, k, discount, VanillaCall, None).value
  {
    CallPrice(m, k, discount);
    KnockOutPrice(m, k, discount, b);
    calc {
      Price(m, k, discount, KnockOut, Some(b)).value;
    ==
      discount * Mean(Barrier.KnockOut(m, k, b));
    <= { Barrier.KnockMeansBelowCall(m, k, b);
         ScaleMonotone(discount, Mean(Barrier.KnockOut(m, k, b)), Mean(Vanilla.Call(m, k))); }
      discount * Mean(Vanilla.Call(m, k));
    ==
      Price(m, k, discount, VanillaCall, None).value;
    }
  }

  /** With a non-negative discount the knock-in price never exceeds the
      vanilla call price. */
  lemma {:induction false} KnockInPriceBound(m: Matrix, k: real, discount: real, b: real)
    requires IsPaths(m) && |m| > 0
    requires discount >= 0.0
    ensures Price(m, k, discount, KnockIn, Some(b)).Ok?
    ensures Price(m, k, discount, VanillaCall, None).Ok?
    ensures Price(m, k, discount, KnockIn, Some(b)).value <= Price(m, k, discount, VanillaCall, None).value
  {
    CallPrice(m, k, discount);
    KnockInPrice(m, k, discount, b);
    calc {
      Price(m, k, discount, KnockIn, Some(b)).value;
    ==
      discount * Mean(Barrier.KnockIn(m, k, b));
    <= { Barrier.KnockMeansBelowCall(m, k, b);
         ScaleMonotone(discount, Mean(Barrier.KnockIn(m, k, b)), Mean(Vanilla.Call(m, k))); }
      discount * Mean(Vanilla.Call(m, k));
    ==
      Price(m, k, discount, VanillaCall, None).value;
    }
  }

  /** Put-call parity for the simulated prices: call minus put is the
      discounted mean terminal price minus the discounted strike. */
  lemma {:induction false} PutCallPriceParity(m: Matrix, k: real, discount: real)
    requires IsPaths(m) && |m| > 0
    ensures Price(m, k, discount, VanillaCall, None).Ok?
    ensures Price(m, k, discount, VanillaPut, None).Ok?
    ensures Price(m, k, discount, VanillaCall, None).value - Price(m, k, discount, VanillaPut, None).value
         == discount * Mean(Vanilla.LastColumn(m)) - discount * k
  {
    CallPrice(m, k, discount);
    PutPrice(m, k, discount);
    var call, put, col := Mean(Vanilla.Call(m, k)), Mean(Vanilla.Put(m, k)), Mean(Vanilla.LastColumn(m));
    Vanilla.MeanParity(m, k);
    ScaleSub(discount, call, put, col, k,
      Price(m, k, discount, VanillaCall, None).value,
      Price(m, k, discount, VanillaPut, None).value);
  }
}
