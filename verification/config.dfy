/** The configuration object `PricingConfig`: a two-level JSON-like
    dictionary of sections and keys, with a recursive deep merge, section
    and key lookup and update, and a positivity check of the market and
    simulation parameters.  Python's in-place mutation is modelled by
    functions that return the new dictionary. */
module Configuration {
  import opened Outcomes

  /** A JSON value as it can appear in the configuration. */
  datatype Value =
    | Real(r: real)
    | Int(i: int)
    | Bool(b: bool)
    | Str(s: string)
    | Null
    | List(items: seq<Value>)
    | Dict(entries: map<string, Value>)

  /** The whole configuration: section name to section value. */
  type Config = map<string, Value>

  /** The exceptions the configuration code lets escape.  Both missing-name
      cases are Python's `KeyError`; `TypeError` is raised when a section
      is not a dictionary, or when a parameter is compared with `0` but is
      not a number. */
  datatype ConfigError =
    | MissingSection(section: string)
    | MissingKey(section: string, key: string)
    | TypeError

  const MarketSection := "market_params"
  const SimulationSection := "simulation_params"

  /** The market parameters that must be positive (`r` is not checked). */
  const MarketKeys: seq<string> := ["S", "K", "T", "sigma"]

  /** The simulation parameters that must be positive. */
  const SimulationKeys: seq<string> := ["num_simulations", "num_steps"]

  // ---------------------------------------------------------------------
  // Default configuration

  /** `_load_default_config`. */
  function DefaultConfig(): (c: Config)
    ensures c.Keys == {MarketSection, SimulationSection, "barrier_params", "visualization", "validation"}
    ensures Valid(c)
  {
    map[
      MarketSection := Dict(map[
        "S" := Real(100.0),
        "K" := Real(100.0),
        "T" := Real(0.25),
        "r" := Real(0.05),
        "sigma" := Real(0.20)]),
      SimulationSection := Dict(map[
        "num_simulations" := Int(10000),
        "num_steps" := Int(252),
        "seed" := Null,
        "antithetic" := Bool(false)]),
      "barrier_params" := Dict(map[
        "barrier" := Real(120.0),
        "barrier_type" := Str("up")]),
      "visualization" := Dict(map[
        "show_plots" := Bool(true),
        "num_paths_plot" := Int(100),
        "figure_size" := List([Int(12), Int(6)])]),
      "validation" := Dict(map[
        "tolerance" := Real(0.5),
        "run_checks" := Bool(true)])
    ]
  }

  // ---------------------------------------------------------------------
  // Deep merge

  /** The value stored under a key present on both sides: two dictionaries
      merge recursively, anything else is replaced by the update. */
  function MergeValue(base: Value, update: Value): (r: Value)
    ensures update.Dict? ==> r.Dict?
    ensures !(base.Dict? && update.Dict?) ==> r == update
    decreases update, 1
  {
    if base.Dict? && update.Dict? then Dict(Merge(base.entries, update.entries)) else update
  }

  /** `_update_config(base, update)`, as a function returning the merged
      dictionary. */
  function Merge(base: map<string, Value>, update: map<string, Value>): (r: map<string, Value>)
    ensures r.Keys == base.Keys + update.Keys
    ensures forall key :: key in base && key !in update ==> r[key] == base[key]
    ensures forall key :: key in update && !update[key].Dict? ==> r[key] == update[key]
    ensures forall key :: key in update && update[key].Dict? ==> r[key].Dict?
    decreases Dict(update), 0
  {
    map key | key in base.Keys + update.Keys ::
      if key in update then
        (if key in base then MergeValue(base[key], update[key]) else update[key])
      else base[key]
  }

  /** `v` carries everything `u` says: every non-dictionary value of `u`
      sits at the same place in `v`, and every dictionary of `u` is matched
      by a dictionary of `v` that in turn carries it. */
  ghost predicate ValueCarries(v: Value, u: Value)
    decreases u, 1
  {
    if u.Dict? then v.Dict? && Carries(v.entries, u.entries) else v == u
  }

  ghost predicate Carries(r: map<string, Value>, u: map<string, Value>)
    decreases Dict(u), 0
  {
    forall key :: key in u ==> key in r && ValueCarries(r[key], u[key])
  }

  lemma {:induction false} ValueCarriesItself(v: Value)
    ensures ValueCarries(v, v)
    decreases v, 1
  {
    if v.Dict? {
      CarriesItself(v.entries);
    }
  }

  /** Every dictionary carries itself. */
  lemma {:induction false} CarriesItself(m: map<string, Value>)
    ensures Carries(m, m)
    decreases Dict(m), 0
  {
    forall key | key in m
      ensures ValueCarries(m[key], m[key])
    {
      ValueCarriesItself(m[key]);
    }
  }

  lemma {:induction false} MergeValueCarries(base: Value, update: Value)
    ensures ValueCarries(MergeValue(base, update), update)
    decreases update, 1
  {
    if base.Dict? && update.Dict? {
      MergeCarries(base.entries, update.entries);
    } else {
      ValueCarriesItself(update);
    }
  }

  /** After a merge every key of the update is present and every value the
      update gives is in place, at every depth. */
  lemma {:induction false} MergeCarries(base: map<string, Value>, update: map<string, Value>)
    ensures Carries(Merge(base, update), update)
    decreases Dict(update), 0
  {
    var r := Merge(base, update);
    forall key | key in update
      ensures key in r && ValueCarries(r[key], update[key])
    {
      if key in base {
        MergeValueCarries(base[key], update[key]);
      } else {
        ValueCarriesItself(update[key]);
      }
    }
  }

  lemma {:induction false} MergeValueAbsorbed(base: Value, update: Value)
    requires ValueCarries(base, update)
    ensures MergeValue(base, update) == base
    decreases update, 1
  {
    if update.Dict? {
      MergeAbsorbed(base.entries, update.entries);
    }
  }

  /** Merging an update that the base already carries changes nothing. */
  lemma {:induction false} MergeAbsorbed(base: map<string, Value>, update: map<string, Value>)
    requires Carries(base, update)
    ensures Merge(base, update) == base
    decreases Dict(update), 0
  {
    var r := Merge(base, update);
    forall key | key in update
      ensures r[key] == base[key]
    {
      MergeValueAbsorbed(base[key], update[key]);
    }
  }

  /** What `_update_config` leaves in `v` for a key present on both sides:
      two dictionaries are merged in the sense of `Keeps`, anything else is
      the update's value. */
  ghost predicate ValueKeeps(v: Value, base: Value, update: Value)
    decreases update, 1
  {
    if base.Dict? && update.Dict? then v.Dict? && Keeps(v.entries, base.entries, update.entries)
    else v == update
  }

  /** `r` is the deep merge of `update` into `base`: it has the keys of
      both; keys of only one side keep that side's value; keys of both
      sides satisfy `ValueKeeps`, so base-only keys survive at every
      depth. */
  ghost predicate Keeps(r: map<string, Value>, base: map<string, Value>, update: map<string, Value>)
    decreases Dict(update), 0
  {
    && r.Keys == base.Keys + update.Keys
    && (forall key :: key in base && key !in update ==> r[key] == base[key])
    && (forall key :: key in update && key !in base ==> r[key] == update[key])
    && (forall key :: key in base && key in update ==> ValueKeeps(r[key], base[key], update[key]))
  }

  lemma {:induction false} MergeValueKeeps(base: Value, update: Value)
    ensures ValueKeeps(MergeValue(base, update), base, update)
    decreases update, 1
  {
    if base.Dict? && update.Dict? {
      MergeKeeps(base.entries, update.entries);
    }
  }

  /** `Merge` is the deep merge: nested dictionaries present on both sides
      are merged recursively rather than replaced. */
  lemma {:induction false} MergeKeeps(base: map<string, Value>, update: map<string, Value>)
    ensures Keeps(Merge(base, update), base, update)
    decreases Dict(update), 0
  {
    var r := Merge(base, update);
    forall key | key in base && key in update
      ensures ValueKeeps(r[key], base[key], update[key])
    {
      MergeValueKeeps(base[key], update[key]);
    }
  }

  /** A nested update adds to a nested section instead of replacing it:
      merging `{"a": {"y": 2}}` into `{"a": {"x": 1}}` keeps `"x"`. */
  lemma NestedMergeKeepsBase()
    ensures Merge(map["a" := Dict(map["x" := Int(1)])], map["a" := Dict(map["y" := Int(2)])])
         == map["a" := Dict(map["x" := Int(1), "y" := Int(2)])]
  {
    var inner := Merge(map["x" := Int(1)], map["y" := Int(2)]);
    assert inner == map["x" := Int(1), "y" := Int(2)];
  }

  /** Merging the same update twice is the same as merging it once. */
  lemma {:induction false} MergeIdempotent(base: map<string, Value>, update: map<string, Value>)
    ensures Merge(Merge(base, update), update) == Merge(base, update)
  {
    MergeCarries(base, update);
    MergeAbsorbed(Merge(base, update), update);
  }

  /** Merging a dictionary into itself gives it back. */
  lemma {:induction false} MergeSelf(m: map<string, Value>)
    ensures Merge(m, m) == m
  {
    CarriesItself(m);
    MergeAbsorbed(m, m);
  }

  // ---------------------------------------------------------------------
  // Lookup and update

  /** `t` sits in `s` starting at position `i`. */
  ghost predicate OccursAt(t: string, s: string, i: int) {
    0 <= i <= |s| - |t| && s[i..i + |t|] == t
  }

  /** Python's `t in s` on strings: `t` occurs in `s` as a substring (the
      empty string occurs in every string). */
  predicate Occurs(t: string, s: string): (r: bool)
    ensures r <==> exists i :: OccursAt(t, s, i)
    decreases |s|
  {
    if t <= s then
      assert OccursAt(t, s, 0);
      true
    else if |s| == 0 then
      assert forall i :: !OccursAt(t, s, i);
      false
    else
      var rest := Occurs(t, s[1..]);
      assert rest ==> exists i :: OccursAt(t, s, i) by {
        if rest {
          var i :| OccursAt(t, s[1..], i);
          assert s[1..][i..i + |t|] == s[i + 1..i + 1 + |t|];
          assert OccursAt(t, s, i + 1);
        }
      }
      assert (exists i :: OccursAt(t, s, i)) ==> rest by {
        if exists i :: OccursAt(t, s, i) {
          var i :| OccursAt(t, s, i);
          assert i != 0;
          assert s[1..][i - 1..i - 1 + |t|] == s[i..i + |t|];
          assert OccursAt(t, s[1..], i - 1);
        }
      }
      rest
  }

  /** `key in section` followed by `section[key]` on an arbitrary section
      value: a dictionary looks the key up; a string tests for a substring
      and a list for an element, and then cannot be subscripted by a
      string; any other value does not support `in`. */
  function Lookup(name: string, section: Value, key: string): (r: Result<Value, ConfigError>)
    ensures r.Ok? <==> section.Dict? && key in section.entries
    ensures r.Ok? ==> r.value == section.entries[key]
    ensures section.Dict? && key !in section.entries ==> r == Err(MissingKey(name, key))
    ensures section.Str? ==> r.Err? && (r.error == TypeError <==> Occurs(key, section.s))
    ensures section.List? ==> r.Err? && (r.error == TypeError <==> Str(key) in section.items)
    ensures !section.Dict? ==> r.Err? && (r.error == TypeError || r.error == MissingKey(name, key))
    ensures !section.Dict? && !section.Str? && !section.List? ==> r == Err(TypeError)
  {
    match section
    case Dict(e) => if key in e then Ok(e[key]) else Err(MissingKey(name, key))
    case Str(s) => if Occurs(key, s) then Err(TypeError) else Err(MissingKey(name, key))
    case List(items) => if Str(key) in items then Err(TypeError) else Err(MissingKey(name, key))
    case _ => Err(TypeError)
  }

  /** `get(section, key=None)`. */
  function Get(c: Config, section: string, key: Option<string>): (r: Result<Value, ConfigError>)
    ensures section !in c ==> r == Err(MissingSection(section))
    ensures section in c && key.None? ==> r.Ok? && r.value == c[section]
    ensures key.Some? ==> (r.Ok? <==> section in c && c[section].Dict? && key.value in c[section].entries)
    ensures key.Some? && r.Ok? ==> r.value == c[section].entries[key.value]
    ensures key.Some? && section in c && c[section].Dict? && key.value !in c[section].entries
            ==> r == Err(MissingKey(section, key.value))
  {
    if section !in c then Err(MissingSection(section))
    else
      match key
      case None => Ok(c[section])
      case Some(k) => Lookup(section, c[section], k)
  }

  /** `set(section, key, value)`: a missing section is created empty first;
      assigning into a section that is not a dictionary raises
      `TypeError` and leaves the configuration as it was. */
  function Set(c: Config, section: string, key: string, value: Value): (r: Result<Config, ConfigError>)
    ensures r.Ok? <==> section !in c || c[section].Dict?
    ensures r.Err? ==> r.error == TypeError
    ensures r.Ok? ==> r.value.Keys == c.Keys + {section}
    ensures r.Ok? ==> forall s :: s in c && s != section ==> r.value[s] == c[s]
  {
    if section !in c then Ok(c[section := Dict(map[key := value])])
    else
      match c[section]
      case Dict(e) => Ok(c[section := Dict(e[key := value])])
      case _ => Err(TypeError)
  }

  /** After a successful `set`, `get` of the same section and key returns
      the value that was set. */
  lemma GetAfterSet(c: Config, section: string, key: string, value: Value)
    requires Set(c, section, key, value).Ok?
    ensures Get(Set(c, section, key, value).value, section, Some(key)).Ok?
    ensures Get(Set(c, section, key, value).value, section, Some(key)).value == value
  {
  }

  /** A `set` leaves every other key of its section as it was; a section
      it creates holds only the key that was set. */
  lemma SetKeepsOtherKeys(c: Config, section: string, key: string, value: Value, other: string)
    requires Set(c, section, key, value).Ok?
    requires other != key
    ensures Get(Set(c, section, key, value).value, section, Some(other))
         == if section in c then Get(c, section, Some(other)) else Err(MissingKey(section, other))
  {
  }

  /** A `set` leaves every other section as it was. */
  lemma SetKeepsOtherSections(c: Config, section: string, key: string, value: Value, other: string, otherKey: Option<string>)
    requires Set(c, section, key, value).Ok?
    requires other != section
    ensures Get(Set(c, section, key, value).value, other, otherKey) == Get(c, other, otherKey)
  {
  }

  // ---------------------------------------------------------------------
  // Market and simulation wrappers

  /** `get_market_param(key)`. */
  function GetMarketParam(c: Config, key: string): (r: Result<Value, ConfigError>)
    ensures r.Ok? <==> MarketSection in c && c[MarketSection].Dict? && key in c[MarketSection].entries
    ensures r.Ok? ==> r.value == c[MarketSection].entries[key]
    ensures MarketSection !in c ==> r == Err(MissingSection(MarketSection))
  {
    Get(c, MarketSection, Some(key))
  }

  /** `set_market_param(key, value)`. */
  function SetMarketParam(c: Config, key: string, value: Value): (r: Result<Config, ConfigError>)
    ensures r.Ok? <==> MarketSection !in c || c[MarketSection].Dict?
    ensures r.Ok? ==> GetMarketParam(r.value, key).Ok? && GetMarketParam(r.value, key).value == value
    ensures r.Ok? ==> forall s :: s in c && s != MarketSection ==> s in r.value && r.value[s] == c[s]
  {
    Set(c, MarketSection, key, value)
  }

  /** `get_market_params()`: the whole market section. */
  function GetMarketParams(c: Config): (r: Result<Value, ConfigError>)
    ensures r.Ok? <==> MarketSection in c
    ensures r.Ok? ==> r.value == c[MarketSection]
  {
    Get(c, MarketSection, None)
  }

  /** `get_simulation_param(key)`. */
  function GetSimulationParam(c: Config, key: string): (r: Result<Value, ConfigError>)
    ensures r.Ok? <==> SimulationSection in c && c[SimulationSection].Dict? && key in c[SimulationSection].entries
    ensures r.Ok? ==> r.value == c[SimulationSection].entries[key]
    ensures SimulationSection !in c ==> r == Err(MissingSection(SimulationSection))
  {
    Get(c, SimulationSection, Some(key))
  }

  /** `set_simulation_param(key, value)`. */
  function SetSimulationParam(c: Config, key: string, value: Value): (r: Result<Config, ConfigError>)
    ensures r.Ok? <==> SimulationSection !in c || c[SimulationSection].Dict?
    ensures r.Ok? ==> GetSimulationParam(r.value, key).Ok? && GetSimulationParam(r.value, key).value == value
    ensures r.Ok? ==> forall s :: s in c && s != SimulationSection ==> s in r.value && r.value[s] == c[s]
  {
    Set(c, SimulationSection, key, value)
  }

  /** `get_simulation_params()`: the whole simulation section. */
  function GetSimulationParams(c: Config): (r: Result<Value, ConfigError>)
    ensures r.Ok? <==> SimulationSection in c
    ensures r.Ok? ==> r.value == c[SimulationSection]
  {
    Get(c, SimulationSection, None)
  }

  // ---------------------------------------------------------------------
  // Validation

  /** A number Python can compare with `0` (`bool` is an `int`). */
  predicate IsNumber(v: Value) {
    v.Real? || v.Int? || v.Bool?
  }

  /** `v > 0` holds. */
  ghost predicate IsPositive(v: Value) {
    (v.Real? && v.r > 0.0) || (v.Int? && v.i > 0) || (v.Bool? && v.b)
  }

  /** `v > 0`, raising `TypeError` when `v` is not a number. */
  function Positive(v: Value): (r: Result<bool, ConfigError>)
    ensures r.Ok? <==> IsNumber(v)
    ensures r.Ok? ==> (r.value <==> IsPositive(v))
  {
    match v
    case Real(x) => Ok(x > 0.0)
    case Int(i) => Ok(i > 0)
    case Bool(b) => Ok(b)
    case _ => Err(TypeError)
  }

  /** The parameter `key` of `section` exists and is positive. */
  ghost predicate Passes(section: Value, key: string) {
    section.Dict? && key in section.entries && IsPositive(section.entries[key])
  }

  /** Subscripting `section` by `key` cannot raise `TypeError`, and neither
      can comparing the entry with `0`. */
  predicate Comparable(section: Value, key: string) {
    section.Dict? && (key in section.entries ==> IsNumber(section.entries[key]))
  }

  /** The assert `section[key] > 0`: `Ok(false)` when the key is missing
      (`KeyError`) or the value is not positive (`AssertionError`), both
      caught by `validate`; `TypeError` when `section` cannot be subscripted
      by a string or the value cannot be compared with `0`. */
  function CheckKey(section: Value, key: string): (r: Result<bool, ConfigError>)
    ensures r.Ok? && r.value <==> Passes(section, key)
    ensures r.Ok? <==> Comparable(section, key)
  {
    if !section.Dict? then Err(TypeError)
    else if key !in section.entries then Ok(false)
    else Positive(section.entries[key])
  }

  /** The asserts for each key in turn, stopping at the first that fails or
      raises. */
  function CheckKeys(section: Value, keys: seq<string>): (r: Result<bool, ConfigError>)
    ensures r.Ok? && r.value <==> forall key :: key in keys ==> Passes(section, key)
    ensures (forall key :: key in keys ==> Comparable(section, key)) ==> r.Ok?
    decreases |keys|
  {
    if |keys| == 0 then Ok(true)
    else
      assert forall key :: key in keys <==> key == keys[0] || key in keys[1..];
      var first := CheckKey(section, keys[0]);
      if first.Err? || !first.value then first else CheckKeys(section, keys[1..])
  }

  /** What `validate` accepts: both sections exist and every checked
      parameter exists and is positive. */
  ghost predicate Valid(c: Config) {
    && MarketSection in c && SimulationSection in c
    && (forall key :: key in MarketKeys ==> Passes(c[MarketSection], key))
    && (forall key :: key in SimulationKeys ==> Passes(c[SimulationSection], key))
  }

  /** Every checked parameter that is present can be compared with `0`. */
  predicate WellTyped(c: Config) {
    && (MarketSection in c ==> forall key :: key in MarketKeys ==> Comparable(c[MarketSection], key))
    && (SimulationSection in c ==> forall key :: key in SimulationKeys ==> Comparable(c[SimulationSection], key))
  }

  /** `validate()`: `Ok(b)` is the boolean it returns, `Err` the exception
      that escapes it (only `KeyError` and `AssertionError` are caught). */
  function Validate(c: Config): (r: Result<bool, ConfigError>)
    ensures r.Ok? && r.value <==> Valid(c)
    ensures MarketSection !in c || SimulationSection !in c ==> r.Ok? && !r.value
    ensures WellTyped(c) ==> r.Ok?
  {
    if MarketSection !in c || SimulationSection !in c then Ok(false)
    else
      var market := CheckKeys(c[MarketSection], MarketKeys);
      if market.Err? || !market.value then market
      else CheckKeys(c[SimulationSection], SimulationKeys)
  }

  /** The default configuration passes validation. */
  lemma DefaultValidates()
    ensures Validate(DefaultConfig()).Ok? && Validate(DefaultConfig()).value
  {
  }

  /** `CheckKeys` only looks at the listed keys. */
  lemma {:induction false} CheckKeysFrame(s: Value, s': Value, keys: seq<string>)
    requires s.Dict? && s'.Dict?
    requires forall key :: key in keys ==> (key in s.entries <==> key in s'.entries)
    requires forall key :: key in keys && key in s.entries ==> s.entries[key] == s'.entries[key]
    ensures CheckKeys(s, keys) == CheckKeys(s', keys)
    decreases |keys|
  {
    if |keys| > 0 {
      CheckKeysFrame(s, s', keys[1..]);
    }
  }

  /** Setting a parameter that `validate` does not check (such as `r`,
      `seed` or `antithetic`) does not change its verdict. */
  lemma {:induction false} UncheckedKeyIgnored(c: Config, section: string, key: string, value: Value)
    requires section in c && Set(c, section, key, value).Ok?
    requires section == MarketSection ==> key !in MarketKeys
    requires section == SimulationSection ==> key !in SimulationKeys
    ensures Validate(Set(c, section, key, value).value) == Validate(c)
  {
    var c' := Set(c, section, key, value).value;
    if section == MarketSection {
      CheckKeysFrame(c[section], c'[section], MarketKeys);
    } else if section == SimulationSection {
      CheckKeysFrame(c[section], c'[section], SimulationKeys);
    }
  }

  /** The three updates of the configuration example, `set_market_param('S',
      120)`, `set_market_param('sigma', 0.25)` and
      `set_simulation_param('num_simulations', 200000)`, on any
      configuration: the first that meets a section that is not a
      dictionary raises `TypeError`. */
  function Customise(c: Config): (r: Result<Config, ConfigError>)
    ensures r.Ok? <==> (MarketSection !in c || c[MarketSection].Dict?) && (SimulationSection !in c || c[SimulationSection].Dict?)
    ensures r.Err? ==> r.error == TypeError
    ensures r.Ok? ==> r.value.Keys == c.Keys + {MarketSection, SimulationSection}
    ensures r.Ok? ==> forall s :: s in c && s != MarketSection && s != SimulationSection ==> r.value[s] == c[s]
  {
    var c1 := SetMarketParam(c, "S", Int(120));
    assert c1 == Set(c, MarketSection, "S", Int(120));
    if c1.Err? then c1
    else
      var c2 := SetMarketParam(c1.value, "sigma", Real(0.25));
      assert c2 == Set(c1.value, MarketSection, "sigma", Real(0.25));
      if c2.Err? then c2
      else
        assert SetSimulationParam(c2.value, "num_simulations", Int(200000))
            == Set(c2.value, SimulationSection, "num_simulations", Int(200000));
        SetSimulationParam(c2.value, "num_simulations", Int(200000))
  }

  /** The default configuration after those three updates. */
  function CustomisedDefault(): Config
  {
    Customise(DefaultConfig()).value
  }

  /** Each changed parameter reads back as the value it was set to. */
  lemma {:induction false} CustomisedDefaultReadsBack()
    ensures GetMarketParam(CustomisedDefault(), "S") == Ok(Int(120))
    ensures GetMarketParam(CustomisedDefault(), "sigma") == Ok(Real(0.25))
    ensures GetSimulationParam(CustomisedDefault(), "num_simulations") == Ok(Int(200000))
  {
    var c1 := SetMarketParam(DefaultConfig(), "S", Int(120)).value;
    SetKeepsOtherKeys(c1, MarketSection, "sigma", Real(0.25), "S");
  }

  /** Setting any parameter to a positive number keeps a valid
      configuration valid. */
  lemma {:induction false} SetPositiveKeepsValid(c: Config, section: string, key: string, value: Value)
    requires Valid(c) && Set(c, section, key, value).Ok? && IsPositive(value)
    ensures Valid(Set(c, section, key, value).value)
  {
  }

  /** The customised configuration still validates. */
  lemma {:induction false} CustomisedDefaultValidates()
    ensures Validate(CustomisedDefault()) == Ok(true)
  {
    var c1 := SetMarketParam(DefaultConfig(), "S", Int(120)).value;
    var c2 := SetMarketParam(c1, "sigma", Real(0.25)).value;
    SetPositiveKeepsValid(DefaultConfig(), MarketSection, "S", Int(120));
    SetPositiveKeepsValid(c1, MarketSection, "sigma", Real(0.25));
    SetPositiveKeepsValid(c2, SimulationSection, "num_simulations", Int(200000));
  }
}
