/** The pricing aggregator `monte_carlo_pricing`: it evaluates one payoff on
    a path matrix, averages it and discounts the average.  The discount
    factor `exp(-r·T)` is taken as a parameter, and the payoff function
    passed in by the caller is one of the five payoffs the library defines,
    named by a `PayoffKind`. */
module MonteCarlo {
  import opened Outcomes
  import opened Matrices
  import Vanilla
  import Barrier
  import Asian

  /** The payoff functions a caller can hand to the aggregator. */
  datatype PayoffKind = VanillaCall | VanillaPut | KnockOut | KnockIn | AsianArithmetic {
    /** The barrier payoffs take a third, mandatory barrier argument; the
        others take only the matrix and the strike. */
    predicate TakesBarrier() {
      KnockOut? || KnockIn?
    }
  }

  /** What a payoff returns: one value per trajectory, or (the Asian payoff)
      a single value for the whole matrix. */
  datatype Payoff = PerPath(values: seq<real>) | Single(value: real)

  /** The payoff was called with the wrong number of arguments. */
  datatype PricingError = TypeError

  predicate Nonnegative(p: Payoff) {
    match p
    case PerPath(v) => forall i :: 0 <= i < |v| ==> v[i] >= 0.0
    case Single(x) => x >= 0.0
  }

  /** Line 45 of the aggregator: the payoff is called with the barrier when
      one is given and without it otherwise.  Calling a two-argument payoff
      with a barrier, or a barrier payoff without one, raises `TypeError`. */
  function Evaluate(kind: PayoffKind, m: Matrix, k: real, barrier: Option<real>): (r: Result<Payoff, PricingError>)
    requires IsPaths(m) && |m| > 0
    ensures r.Ok? <==> (barrier.Some? <==> kind.TakesBarrier())
    ensures r.Ok? ==> Nonnegative(r.value)
    ensures r.Ok? ==> (r.value.Single? <==> kind.AsianArithmetic?)
    ensures r.Ok? && r.value.PerPath? ==> |r.value.values| == |m|
  {
    match barrier
    case Some(b) =>
      (match kind
       case KnockOut => Ok(PerPath(Barrier.KnockOut(m, k, b)))
       case KnockIn => Ok(PerPath(Barrier.KnockIn(m, k, b)))
       case _ => Err(TypeError))
    case None =>
      (match kind
       case VanillaCall => Ok(PerPath(Vanilla.Call(m, k)))
       case VanillaPut => Ok(PerPath(Vanilla.Put(m, k)))
       case AsianArithmetic => Ok(Single(Asian.Payoff(m, k)))
       case _ => Err(TypeError))
  }

  /** `np.mean` of a payoff: the average of a vector, or the scalar itself. */
  function Expectation(p: Payoff): real
    requires p.PerPath? ==> |p.values| > 0
  {
    match p
    case PerPath(v) => Mean(v)
    case Single(x) => x
  }

  /** The mean of a non-negative payoff is non-negative. */
  lemma ExpectationNonnegative(p: Payoff)
    requires p.PerPath? ==> |p.values| > 0
    requires Nonnegative(p)
    ensures Expectation(p) >= 0.0
  {
    if p.PerPath? {
      SumNonnegative(p.values);
    }
  }

  /** `monte_carlo_pricing(ST, K, r, T, payoff_function, barrier)` with
      `discount` standing for `exp(-r·T)`. */
  function Price(m: Matrix, k: real, discount: real, kind: PayoffKind, barrier: Option<real>): (r: Result<real, PricingError>)
    requires IsPaths(m) && |m| > 0
    ensures r.Ok? <==> (barrier.Some? <==> kind.TakesBarrier())
    ensures r.Ok? && discount >= 0.0 ==> r.value >= 0.0
  {
    var payoff := Evaluate(kind, m, k, barrier);
    if payoff.Err? then Err(payoff.error)
    else
      ExpectationNonnegative(payoff.value);
      Ok(discount * Expectation(payoff.value))
  }
}
