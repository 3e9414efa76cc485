# pricing_lib in Dafny

A model of the deterministic core of `pricing_lib`, a Monte Carlo option
pricer. It covers three things.

- **Payoff functions.** Each one maps a matrix of simulated price
  trajectories (one row per trajectory, one column per time step) to
  payoffs:
  - the European call and put, which use only each row's last column;
  - the up-barrier knock-out and knock-in calls;
  - the arithmetic Asian payoff.
- **The pricing aggregator** `monte_carlo_pricing`. It calls one payoff,
  with or without a barrier, averages the result and discounts the average.
- **The configuration object** `PricingConfig`, as nested dictionaries:
  - recursive deep merge;
  - section and key lookup and update;
  - the market and simulation wrappers;
  - the default configuration;
  - the positivity check `validate`.

Modules:

| module | file | contents |
|---|---|---|
| `Outcomes` | `outcomes.dfy` | `Option` and `Result` |
| `Matrices` | `matrices.dfy` | path matrices and `np.maximum(·, 0)`; sums, means and totals with their algebra, including invariance under permutation |
| `Vanilla` | `vanilla.dfy` | `vanilla_call`, `vanilla_put` |
| `Barrier` | `barrier.dfy` | `barrier_knock_out`, `barrier_knock_in` |
| `Asian` | `asian.dfy` | `asian_payoff` |
| `MonteCarlo` | `monte_carlo.dfy` | `monte_carlo_pricing` |
| `PricingLaws` | `pricing_laws.dfy` | what each payoff kind is priced at, plus the price-level parities and bounds |
| `Configuration` | `config.dfy` | `PricingConfig` |

Modelling choices:

- **Numbers.** Prices are Dafny `real`s. NumPy's float arithmetic is
  replaced by exact arithmetic.
- **Matrix shape.** A path matrix is `seq<seq<real>>` whose rows are all
  non-empty and of the same length (`IsPaths`). The payoff functions
  accept the empty matrix and return an empty vector. The Asian payoff and
  the aggregator take the mean, so they require at least one row.
- **Discount factor.** The aggregator's `np.exp(-r * T)` is a parameter
  `discount`.
- **Means.** `Matrices.Mean` is `np.mean` of a non-empty vector and
  `MonteCarlo.Expectation` is `np.mean` of a payoff, a vector or a scalar
  (`pricing/monte_carlo.py:46`). Neither has a contract of its own: their
  algebra is in `Matrices.MeanMonotone`, `Matrices.MeanPointwise`,
  `Matrices.MeanShift`, `MonteCarlo.ExpectationNonnegative` and
  `PricingLaws.AsianPrice`.
- **Payoff argument.** The higher-order `payoff_function` is a closed
  datatype `PayoffKind` naming the five payoffs. Calling a payoff with the
  wrong number of arguments is Python's `TypeError`. It is modelled as
  `Err(TypeError)`:
  - a barrier payoff without a barrier;
  - a vanilla or Asian payoff with one.
- **Configuration values.** A configuration is a `map` from section names
  to a JSON-like `Value`. Every mutating method returns the new map.
- **Configuration errors.** Exceptions that escape are `Err` values:
  - `KeyError` is split into `MissingSection` and `MissingKey`;
  - `TypeError` covers a section that is not a dictionary, and a
    parameter that cannot be compared with `0`.
- **Python semantics of `get`.** `get` follows Python's `in` on whatever
  the section holds:
  - on a string it is a substring test, on a list a membership test;
  - when it succeeds, subscripting the string or list with a string raises
    `TypeError`;
  - on any other non-dictionary value, `in` itself raises `TypeError`.

### Where the code and its documentation or tests disagree

The model follows the code in each case below.

- **Asian payoff.** `asian_payoff` averages the whole matrix with `np.mean(ST)`
  (no axis) and returns one scalar. Its own comment
  (`pricing/payoffs/asian.py:5`) speaks of an average over the trajectory. `tests/test_payoffs.py:38-41` expects the vector
  `[0, 20/3]` on the standard matrix. The code gives the scalar
  `max(620/6 - 100, 0) = 10/3`, and `Asian.StandardScenario` proves that value.
  The aggregator prices the scalar as `discount × scalar`, because `np.mean`
  of a scalar is the scalar.
- **Vanilla tests.** The vanilla tests (`tests/test_payoffs.py:21,26,45`)
  pass the 1-D last column `ST[:, -1]` to `vanilla_call` and `vanilla_put`.
  Both functions index `ST[:, -1]` themselves, so the code rejects a 1-D
  argument. `examples.py:116` does the same for the vanilla reference
  price that the knock-out plus knock-in check at `examples.py:126-129`
  compares against. The model takes the 2-D matrix, as the functions' code
  and the aggregator do. The expected values `[10, 20]` and `[0, 0]` are
  proved for the matrix (`Vanilla.StandardScenario`).
- **Barrier variants.** Other files mention features the code lacks:
  - the default configuration's comment `"up" ou "down"` (`config.py:44`);
  - the down, double-barrier and underlying-payoff calls of
    `examples.py:109-113`;
  - the geometric and floating-strike Asian payoffs imported at
    `pricing/payoffs/__init__.py:3-4`. The code has only
  the two up-barrier calls and the arithmetic whole-matrix Asian payoff.
  Nothing else is modelled.

## Model

| member | source | states |
|---|---|---|
| Matrices.Max0 | pricing/payoffs/vanilla.py:5-9 | `np.maximum(x, 0)`: at least 0 and at least x, and equal to one of them |
| Matrices.MeanMonotone | pricing/monte_carlo.py:46 | `np.mean` is monotone: a pointwise smaller vector has a mean no larger |
| Matrices.MeanPointwise | pricing/monte_carlo.py:46 | `np.mean` is additive: the mean of a pointwise sum is the sum of the means |
| Matrices.MeanShift | pricing/monte_carlo.py:46 | subtracting a constant from every entry subtracts it from the mean |
| Vanilla.Call | pricing/payoffs/vanilla.py:3-5 | one entry per row, equal to `max(last - K, 0)` for that row |
| Vanilla.Put | pricing/payoffs/vanilla.py:7-9 | one entry per row, equal to `max(K - last, 0)` for that row |
| Vanilla.LastColumn | pricing/payoffs/vanilla.py:5 | `ST[:, -1]`: one entry per row, the row's last sample |
| Vanilla.CallPutNonnegative | pricing/payoffs/vanilla.py:3-9 | every call and put entry is at least 0 |
| Vanilla.TerminalColumnOnly | pricing/payoffs/vanilla.py:3-9 | two matrices with the same last column have the same call and the same put payoffs, so no other sample matters |
| Vanilla.PutCallParity | pricing/payoffs/vanilla.py:3-9 | per row, call minus put equals last minus K (put-call parity at payoff level) |
| Vanilla.MeanParity | pricing/payoffs/vanilla.py:3-9 | mean call payoff minus mean put payoff equals the mean terminal price minus K |
| Vanilla.StandardScenario | tests/test_payoffs.py:18-26 | on `[[90,100,110],[95,105,120]]` with K = 100 the call is `[10,20]` and the put `[0,0]` |
| Barrier.AllBelow | pricing/payoffs/barrier.py:5 | one row of `np.all(ST < barrier, axis=1)`: true exactly when every sample of the row is strictly below the barrier |
| Barrier.AnyAtOrAbove | pricing/payoffs/barrier.py:12 | one row of `np.any(ST >= barrier, axis=1)`: true exactly when some sample reaches the barrier |
| Barrier.Indicator | pricing/payoffs/barrier.py:7 | the boolean mask used as a number in `* valid_paths`: 1 exactly when true, 0 exactly when false |
| Barrier.KnockOut | pricing/payoffs/barrier.py:3-8 | one entry per row: the call payoff if every sample of the row is below the barrier, else 0 |
| Barrier.KnockIn | pricing/payoffs/barrier.py:10-17 | one entry per row: the call payoff if some sample of the row is at or above the barrier, else 0 |
| Barrier.SurvivesIffNotTouches | pricing/payoffs/barrier.py:5-12 | the strict `<` test and the `>=` test are exact complements on every row |
| Barrier.KnockOutPlusKnockIn | pricing/payoffs/barrier.py:3-17 | per row, knock-out plus knock-in equals the vanilla call payoff |
| Barrier.KnockOutKnockInExclusive | pricing/payoffs/barrier.py:3-17 | per row, the knock-out and knock-in product is 0, so at most one of them pays |
| Barrier.KnockBounds | pricing/payoffs/barrier.py:7-16 | each knock-out and knock-in entry lies between 0 and the vanilla call entry |
| Barrier.SampleAtBarrier | pricing/payoffs/barrier.py:5-12 | a row with a sample exactly at the barrier is knocked out (pays 0) and knocked in (pays the call) |
| Barrier.KnockMeansAddUp | tests/test_payoffs.py:43-51 | mean knock-out plus mean knock-in equals the mean call, the equality behind the test's `<=` |
| Barrier.KnockMeansBelowCall | tests/test_payoffs.py:43-51 | neither mean barrier payoff exceeds the mean call payoff |
| Barrier.BarrierScenario | tests/test_payoffs.py:28-36 | on `[[90,100,110],[130,120,115]]` with K = 100 and barrier 120, knock-out is `[10,0]` and knock-in `[0,15]` |
| Asian.Payoff | pricing/payoffs/asian.py:3-6 | a single scalar, at least 0, equal to `max(sum of all entries / (rows × columns) - K, 0)` |
| Asian.NothingAboveStrike | pricing/payoffs/asian.py:5-6 | if no entry of the matrix exceeds K the payoff is 0 |
| Asian.StrikeAntitone | pricing/payoffs/asian.py:6 | the payoff does not increase as K increases |
| Asian.RowPermutation | pricing/payoffs/asian.py:5 | reordering the rows does not change the payoff |
| Asian.WithinRowPermutation | pricing/payoffs/asian.py:5 | reordering the samples within each row does not change the payoff |
| Asian.SingleTrajectory | pricing/payoffs/asian.py:5-6 | on a one-row matrix the payoff is the floored average of that row minus K |
| Asian.StandardScenario | pricing/payoffs/asian.py:5-6 | on `[[90,100,110],[95,105,120]]` with K = 100 the payoff is the scalar 10/3 |
| MonteCarlo.Evaluate | pricing/monte_carlo.py:45 | the call succeeds exactly when a barrier is given to a barrier kind or withheld from a non-barrier kind; the result is non-negative; it is a scalar exactly for the Asian kind and otherwise has one entry per path |
| MonteCarlo.ExpectationNonnegative | pricing/monte_carlo.py:46 | `np.mean` of a non-negative payoff, whether a vector or a scalar, is non-negative |
| MonteCarlo.Price | pricing/monte_carlo.py:30-48 | pricing fails exactly on the `TypeError` argument mismatch; with a non-negative discount the price is non-negative |
| PricingLaws.EvaluateDispatch | pricing/monte_carlo.py:45 | a barrier kind with a barrier is evaluated as `payoff(ST, K, barrier)`; a non-barrier kind without one as `payoff(ST, K)` |
| PricingLaws.PerPathPrice | pricing/monte_carlo.py:46 | a per-path payoff is priced at discount × (sum of its entries / number of entries) |
| PricingLaws.CallPrice | pricing/monte_carlo.py:45-46 | the vanilla call is priced at discount × mean call payoff |
| PricingLaws.PutPrice | pricing/monte_carlo.py:45-46 | the vanilla put is priced at discount × mean put payoff |
| PricingLaws.KnockOutPrice | pricing/monte_carlo.py:45-46 | the knock-out is priced at discount × mean knock-out payoff |
| PricingLaws.KnockInPrice | pricing/monte_carlo.py:45-46 | the knock-in is priced at discount × mean knock-in payoff |
| PricingLaws.AsianPrice | pricing/monte_carlo.py:46 | the scalar Asian payoff is priced at discount × that scalar |
| PricingLaws.PriceMonotone | pricing/monte_carlo.py:46 | under a non-negative discount, a pointwise smaller payoff vector has a price no larger |
| PricingLaws.BarrierPriceParity | pricing/monte_carlo.py:45-46 | on the same paths, strike and barrier, the knock-out price plus the knock-in price is the vanilla call price |
| PricingLaws.KnockOutPriceBound | pricing/monte_carlo.py:45-46 | under a non-negative discount the knock-out price is at most the vanilla call price |
| PricingLaws.KnockInPriceBound | pricing/monte_carlo.py:45-46 | under a non-negative discount the knock-in price is at most the vanilla call price |
| PricingLaws.PutCallPriceParity | pricing/monte_carlo.py:45-46 | call price minus put price is discount × mean terminal price minus discount × K |
| Configuration.DefaultConfig | config.py:26-55 | the five default sections, and the defaults pass validation |
| Configuration.MergeValue | config.py:93-96 | a dictionary update always leaves a dictionary; unless both sides are dictionaries the update value replaces the old one |
| Configuration.MergeValueKeeps | config.py:93-96 | two dictionaries are merged key by key at every depth; otherwise the update value replaces the old one |
| Configuration.MergeKeeps | config.py:90-96 | the deep merge in full: keys are the union; base-only keys keep their values; update-only keys hold the update's values; a key in both holds the recursive merge when both values are dictionaries and the update's value otherwise, at every depth |
| Configuration.NestedMergeKeepsBase | config.py:92-94 | merging `{"a": {"y": 2}}` into `{"a": {"x": 1}}` gives `{"a": {"x": 1, "y": 2}}`: the nested base key survives |
| Configuration.Merge | config.py:90-96 | the merged keys are the union; keys only in the base keep their values; non-dictionary update values are stored as given; dictionary update values stay dictionaries |
| Configuration.MergeCarries | config.py:90-96 | after a merge every key of the update is present, with every value it gives in place at every depth |
| Configuration.MergeAbsorbed | config.py:90-96 | merging an update the base already carries changes nothing |
| Configuration.MergeIdempotent | config.py:90-96 | merging the same update twice gives the same result as merging it once |
| Configuration.MergeSelf | config.py:90-96 | merging a dictionary into itself gives it back |
| Configuration.Occurs | config.py:115 | Python's `in` on strings: true exactly when the key occurs as a substring at some position |
| Configuration.Lookup | config.py:115-118 | lookup succeeds exactly for a dictionary section holding the key, returning its entry; a dictionary without the key raises `KeyError`; a string section raises `TypeError` exactly when the key is a substring and `KeyError` otherwise; a list section raises `TypeError` exactly when the key is an element and `KeyError` otherwise; any other section raises `TypeError` |
| Configuration.Get | config.py:98-118 | a missing section raises `KeyError`; with no key the whole section is returned; with a key the call succeeds exactly when the section is a dictionary holding it, and a missing key raises `KeyError` |
| Configuration.Set | config.py:120-132 | succeeds exactly when the section is missing or a dictionary, failing otherwise with `TypeError`; adds the section if needed; leaves every other section as it was |
| Configuration.GetAfterSet | config.py:120-132 | after a successful `set`, `get` of the same section and key returns the value that was set |
| Configuration.SetKeepsOtherKeys | config.py:129-132 | a `set` leaves every other key of its section unchanged; a section it creates holds no other key |
| Configuration.SetKeepsOtherSections | config.py:129-132 | a `set` leaves every other section unchanged, as seen by `get` |
| Configuration.GetMarketParam | config.py:134-144 | succeeds exactly when the market section is a dictionary holding the key, returning its entry; a missing section raises `KeyError` |
| Configuration.SetMarketParam | config.py:146-154 | succeeds exactly when the market section is missing or a dictionary; afterwards the parameter reads back as the value; other sections are unchanged |
| Configuration.GetMarketParams | config.py:156-158 | succeeds exactly when the market section exists, returning it whole |
| Configuration.GetSimulationParam | config.py:160-170 | succeeds exactly when the simulation section is a dictionary holding the key, returning its entry; a missing section raises `KeyError` |
| Configuration.SetSimulationParam | config.py:172-180 | succeeds exactly when the simulation section is missing or a dictionary; afterwards the parameter reads back as the value; other sections are unchanged |
| Configuration.GetSimulationParams | config.py:182-184 | succeeds exactly when the simulation section exists, returning it whole |
| Configuration.Positive | config.py:198-205 | `v > 0` succeeds exactly on numbers (bool included) and is true exactly when the number is positive |
| Configuration.CheckKey | config.py:198-205 | one assert: true exactly when the key is present with a positive value; raises exactly when the section is not a dictionary or the present value is not a number |
| Configuration.CheckKeys | config.py:197-205 | the asserts in order: true exactly when every listed key passes; never raises when every listed key can be compared |
| Configuration.Validate | config.py:186-211 | returns true exactly when both sections exist and S, K, T, sigma, num_simulations and num_steps all exist and are positive (`r` is not checked); a missing section gives false; no exception escapes when both sections are dictionaries and every checked value present is a number, so then a missing key gives false |
| Configuration.DefaultValidates | config.py:186-211 | the default configuration passes `validate` |
| Configuration.CheckKeysFrame | config.py:197-205 | the asserts read only the listed keys |
| Configuration.UncheckedKeyIgnored | config.py:194-205 | setting a parameter `validate` does not check (`r`, `seed`, `antithetic`, …) in an existing section does not change its verdict |
| Configuration.SetPositiveKeepsValid | config.py:194-207 | setting any parameter to a positive number keeps a valid configuration valid |
| Configuration.Customise | examples.py:186-188 | the three updates succeed exactly when the market and simulation sections are each missing or a dictionary, and fail with `TypeError` otherwise; they add both sections if needed and leave every other section unchanged |
| Configuration.CustomisedDefaultReadsBack | examples.py:183-193 | after setting S = 120, sigma = 0.25 and num_simulations = 200000 on the defaults, each reads back as set |
| Configuration.CustomisedDefaultValidates | examples.py:183-188 | that customised configuration still passes `validate` |

## Left out

- `monte_carlo_simulation` (`pricing/monte_carlo.py:4-26`) is left out. It draws Gaussian random numbers, uses floating-point `exp` and `sqrt`, and fixes the global seed 42. The model takes the path matrix as an input instead.
- `pricing/black_scholes.py` and `pricing/binomial_tree.py` are not part of this model. They are closed-form and lattice floating-point numerics.
- `double_barrier_knock_out`, `asian_geometric_payoff` and `asian_strike_payoff` are imported by `pricing/payoffs/__init__.py` but defined nowhere. The barrier-direction and underlying-payoff arguments and `simple_monte_carlo_pricing` used by `examples.py` do not exist in the code either. None of them is modelled.
- Configuration file I/O is left out: `load_from_file`, `save_to_file`, `__str__` and `to_dict`. They cover JSON parsing, files and printing, and the constructor's optional file load. `Merge` models the merge that `load_from_file` performs.
- Python aliasing and in-place mutation are not modelled. `_update_config` and `set` mutate shared dictionaries; the model returns new values. A dictionary stored by `base[key] = value` stays shared with the update in Python, which the model cannot express.
- Float semantics are not modelled: NaN, infinities and rounding. With NaN, `ST < barrier` and `ST >= barrier` are both false, so knock-out plus knock-in would not equal the call.
- The mean of an empty payoff is `nan` in NumPy. The aggregator and the Asian payoff require at least one trajectory instead.
- `np.exp(-r * T)` is the parameter `discount`. The results that need a sign (non-negative price, price bounds) require `discount >= 0`.
- Configuration.Validate: `validate` checks with Python `assert`, which `python -O` strips together with the subscripts inside it. Under `-O`, `validate` returns true exactly when both sections exist (`config.py:194-195` still raise `KeyError`). The model follows the unoptimised behaviour.
- Configuration.Validate: comparison of a `float` NaN parameter with `0` is not modelled; numbers are exact.
- The printed messages of `validate` and of the configuration file methods are left out.
- Scripts and packaging are left out: `examples.py`, `main.py`, `tests/test_performance.py`, `setup.py` and the `__init__` files. Only the computations they check appear, as the scenario lemmas.
