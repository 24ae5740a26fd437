/**
 * How a fueled thruster rates the gas in its inlet
 * (Content.Server/Shuttles/Systems/ThrusterSystem.cs, OnAtmosUpdateEvent,
 * lines 112-180).
 *
 * Each rule of the thruster compares its target mixture with the inlet and
 * yields a benefit; the benefits fold, rule by rule, into a multiplicative
 * consumption efficiency and thrust multiplier, and any fuel rule with a
 * positive benefit makes the thruster fueled. The two products are then
 * clamped to the thruster's bounds and the thrust recomputed.
 */
module Performance {
  import opened Wrappers
  import opened Numeric
  import opened GasComparators
  import opened ThrusterData

  /** Every rule's target has no more species than the inlet (the comparators loop over the target's species). */
  predicate RulesFit(rules: seq<ThrusterGasMixturePair>, inlet: GasMixture)
  {
    forall k :: 0 <= k < |rules| ==> |rules[k].mixture| <= |inlet|
  }

  /**
   * The benefit of one rule for the inlet mixture, by its condition: None is
   * full benefit when any target species is above the GasMinMoles floor;
   * SingleThreshold is full benefit when every target species reaches its
   * share within the default threshold; SingleThresholdPure is the purity
   * ratio; Pure, and any other value, is the similarity.
   */
  function Benefit(rule: ThrusterGasMixturePair, inlet: GasMixture, gasMinMoles: real): real
    requires |rule.mixture| <= |inlet|
  {
    var c := rule.benefitsCondition;
    if c == BenefitsNone then
      (if AnyRequiredGas(rule.mixture, inlet, gasMinMoles) then 1.0 else 0.0)
    else if c == BenefitsSingleThreshold then
      (if GasesAboveThreshold(rule.mixture, inlet, DefaultThreshold) then 1.0 else 0.0)
    else if c == BenefitsSingleThresholdPure then
      PurityRatio(rule.mixture, inlet)
    else
      Similarity(Some(rule.mixture), Some(inlet))
  }

  /** The three accumulators of the evaluation loop. */
  datatype Accumulated = Accumulated(efficiency: real, multiplier: real, isFueled: bool)

  /** acc *= benefit * factor: one rule's share of an accumulator. */
  function Scale(acc: real, benefit: real, factor: real): real
  {
    acc * (benefit * factor)
  }

  /** The accumulators after the first n rules, starting from efficiency 1, multiplier 1 and fueled iff fuel is not required. */
  function AccumulateTo(rules: seq<ThrusterGasMixturePair>, inlet: GasMixture, requiresFuel: bool,
                        gasMinMoles: real, n: nat): Accumulated
    requires n <= |rules| && RulesFit(rules, inlet)
  {
    if n == 0 then Accumulated(1.0, 1.0, !requiresFuel)
    else
      var a := AccumulateTo(rules, inlet, requiresFuel, gasMinMoles, n - 1);
      var rule := rules[n - 1];
      var b := Benefit(rule, inlet, gasMinMoles);
      Accumulated(Scale(a.efficiency, b, rule.consumptionEfficiency),
                  Scale(a.multiplier, b, rule.thrustMultiplier),
                  a.isFueled || (b > 0.0 && rule.isFuel))
  }

  /** The accumulators after every rule. */
  function Accumulate(rules: seq<ThrusterGasMixturePair>, inlet: GasMixture, requiresFuel: bool,
                      gasMinMoles: real): Accumulated
    requires RulesFit(rules, inlet)
  {
    AccumulateTo(rules, inlet, requiresFuel, gasMinMoles, |rules|)
  }

  /** The switch on a rule's condition inside the rating loop: the benefit of one rule. */
  method RateRule(rule: ThrusterGasMixturePair, inlet: GasMixture, gasMinMoles: real) returns (benefit: real)
    requires |rule.mixture| <= |inlet|
    ensures benefit == Benefit(rule, inlet, gasMinMoles)
  {
    benefit := 0.0;
    var condition := rule.benefitsCondition;
    if condition == BenefitsNone {
      var has := HasAnyRequiredGas(rule.mixture, inlet, gasMinMoles);
      if has {
        benefit := 1.0;
      }
    } else if condition == BenefitsSingleThreshold {
      var has := HasGasesAboveThreshold(rule.mixture, inlet, DefaultThreshold);
      if has {
        benefit := 1.0;
      }
    } else if condition == BenefitsSingleThresholdPure {
      benefit := GetPurityRatio(rule.mixture, inlet);
    } else {
      benefit := GetGasMixtureSimilarity(Some(rule.mixture), Some(inlet));
    }
  }

  /**
   * The rating loop of OnAtmosUpdateEvent. Every branch of the source's switch
   * marks the thruster fueled by a fuel rule exactly when its benefit is
   * positive, which is the one test written here after the switch.
   */
  method EvaluateGasMixtures(rules: seq<ThrusterGasMixturePair>, inlet: GasMixture, requiresFuel: bool,
                             gasMinMoles: real) returns (acc: Accumulated)
    requires RulesFit(rules, inlet)
    ensures acc == Accumulate(rules, inlet, requiresFuel, gasMinMoles)
  {
    var finalEfficiency, finalMultiplier, isFueled := 1.0, 1.0, !requiresFuel;
    for k := 0 to |rules|
      invariant Accumulated(finalEfficiency, finalMultiplier, isFueled)
             == AccumulateTo(rules, inlet, requiresFuel, gasMinMoles, k)
    {
      var mixture := rules[k];
      var benefit := RateRule(mixture, inlet, gasMinMoles);
      AccumulateStep(rules, inlet, requiresFuel, gasMinMoles, k);
      if benefit > 0.0 {
        isFueled := isFueled || mixture.isFuel;
      }
      finalEfficiency := Scale(finalEfficiency, benefit, mixture.consumptionEfficiency);
      finalMultiplier := Scale(finalMultiplier, benefit, mixture.thrustMultiplier);
    }
    acc := Accumulated(finalEfficiency, finalMultiplier, isFueled);
  }

  /** One step of the fold, with the rule's benefit named. */
  lemma AccumulateStep(rules: seq<ThrusterGasMixturePair>, inlet: GasMixture, requiresFuel: bool,
                       gasMinMoles: real, k: nat)
    requires k < |rules| && RulesFit(rules, inlet)
    ensures var a := AccumulateTo(rules, inlet, requiresFuel, gasMinMoles, k);
      var b := Benefit(rules[k], inlet, gasMinMoles);
      AccumulateTo(rules, inlet, requiresFuel, gasMinMoles, k + 1)
        == Accumulated(Scale(a.efficiency, b, rules[k].consumptionEfficiency),
                       Scale(a.multiplier, b, rules[k].thrustMultiplier),
                       a.isFueled || (b > 0.0 && rules[k].isFuel))
  {
  }

  // ---------------------------------------------------------------------------
  // Properties of the rating
  // ---------------------------------------------------------------------------

  /** Every benefit is a fraction in [0, 1] for non-negative mixtures; None and SingleThreshold give 0 or 1. */
  lemma BenefitInUnitRange(rule: ThrusterGasMixturePair, inlet: GasMixture, gasMinMoles: real)
    requires |rule.mixture| <= |inlet| && NonNegative(rule.mixture) && NonNegative(inlet)
    ensures 0.0 <= Benefit(rule, inlet, gasMinMoles) <= 1.0
    ensures rule.benefitsCondition in {BenefitsNone, BenefitsSingleThreshold} ==>
      Benefit(rule, inlet, gasMinMoles) == 0.0 || Benefit(rule, inlet, gasMinMoles) == 1.0
  {
    SimilarityInUnitRange(rule.mixture, inlet);
  }

  /**
   * The thruster ends fueled exactly when fuel is not required or some fuel
   * rule among the first n has a positive benefit.
   */
  lemma {:induction false} FueledIff(rules: seq<ThrusterGasMixturePair>, inlet: GasMixture, requiresFuel: bool,
                                     gasMinMoles: real, n: nat)
    requires n <= |rules| && RulesFit(rules, inlet)
    ensures AccumulateTo(rules, inlet, requiresFuel, gasMinMoles, n).isFueled
        <==> !requiresFuel
             || exists k :: 0 <= k < n && rules[k].isFuel && Benefit(rules[k], inlet, gasMinMoles) > 0.0
  {
    if n > 0 {
      FueledIff(rules, inlet, requiresFuel, gasMinMoles, n - 1);
      var rule := rules[n - 1];
      if rule.isFuel && Benefit(rule, inlet, gasMinMoles) > 0.0 {
        assert exists k :: 0 <= k < n && rules[k].isFuel && Benefit(rules[k], inlet, gasMinMoles) > 0.0 by {
          assert 0 <= n - 1 < n && rules[n - 1] == rule;
        }
      }
    }
  }

  /**
   * The products are strict: one rule without benefit among the first n
   * zeroes both the efficiency and the multiplier, however well the other
   * rules match.
   */
  lemma {:induction false} ZeroBenefitZeroesProducts(rules: seq<ThrusterGasMixturePair>, inlet: GasMixture,
                                                     requiresFuel: bool, gasMinMoles: real, n: nat, k: nat)
    requires n <= |rules| && RulesFit(rules, inlet) && k < n
    requires Benefit(rules[k], inlet, gasMinMoles) == 0.0
    ensures AccumulateTo(rules, inlet, requiresFuel, gasMinMoles, n).efficiency == 0.0
    ensures AccumulateTo(rules, inlet, requiresFuel, gasMinMoles, n).multiplier == 0.0
  {
    if k < n - 1 {
      ZeroBenefitZeroesProducts(rules, inlet, requiresFuel, gasMinMoles, n - 1, k);
    }
  }

  /**
   * With full benefit from every rule, the products are the products of the
   * rules' own efficiency and multiplier.
   */
  lemma {:induction false} FullBenefitProducts(rules: seq<ThrusterGasMixturePair>, inlet: GasMixture,
                                               requiresFuel: bool, gasMinMoles: real, n: nat)
    requires n <= |rules| && RulesFit(rules, inlet)
    requires forall k :: 0 <= k < n ==> Benefit(rules[k], inlet, gasMinMoles) == 1.0
    ensures AccumulateTo(rules, inlet, requiresFuel, gasMinMoles, n).efficiency == EfficiencyProduct(rules, n)
    ensures AccumulateTo(rules, inlet, requiresFuel, gasMinMoles, n).multiplier == MultiplierProduct(rules, n)
  {
    if n > 0 {
      FullBenefitProducts(rules, inlet, requiresFuel, gasMinMoles, n - 1);
    }
  }

  /** The product of the first n rules' consumption efficiencies. */
  function EfficiencyProduct(rules: seq<ThrusterGasMixturePair>, n: nat): real
    requires n <= |rules|
  {
    if n == 0 then 1.0 else EfficiencyProduct(rules, n - 1) * rules[n - 1].consumptionEfficiency
  }

  /** The product of the first n rules' thrust multipliers. */
  function MultiplierProduct(rules: seq<ThrusterGasMixturePair>, n: nat): real
    requires n <= |rules|
  {
    if n == 0 then 1.0 else MultiplierProduct(rules, n - 1) * rules[n - 1].thrustMultiplier
  }

  /** The default rule's target holds no gas, so it never grants any benefit whatever the inlet holds. */
  lemma DefaultRuleNeverBenefits(species: nat, inlet: GasMixture, gasMinMoles: real)
    requires species <= |inlet|
    ensures Benefit(DefaultGasMixturePair(species), inlet, gasMinMoles) == 0.0
  {
    DefaultRuleFields(species);
    var rule := DefaultGasMixturePair(species);
    EmptyTargetOutcomes(rule.mixture, inlet, gasMinMoles);
  }

  // ---------------------------------------------------------------------------
  // Clamping and the new thrust
  // ---------------------------------------------------------------------------

  /**
   * The thruster after its rating: efficiency and multiplier clamped to their
   * bounds and the thrust recomputed from the base thrust.
   */
  function Evaluated(t: Thruster, acc: Accumulated): (r: Thruster)
    requires BoundsOrdered(t)
    ensures t.minGasConsumptionEfficiency <= r.gasConsumptionEfficiency <= t.maxGasConsumptionEfficiency
    ensures t.minGasThrustMultiplier <= r.gasThrustMultiplier <= t.maxGasThrustMultiplier
    ensures r.thrust == r.baseThrust * r.gasThrustMultiplier
    ensures r.(gasConsumptionEfficiency := t.gasConsumptionEfficiency, gasThrustMultiplier := t.gasThrustMultiplier,
               thrust := t.thrust) == t
  {
    var efficiency := Clamp(acc.efficiency, t.minGasConsumptionEfficiency, t.maxGasConsumptionEfficiency);
    var multiplier := Clamp(acc.multiplier, t.minGasThrustMultiplier, t.maxGasThrustMultiplier);
    t.(gasConsumptionEfficiency := efficiency, gasThrustMultiplier := multiplier, thrust := t.baseThrust * multiplier)
  }

  /** With a non-negative base thrust the new thrust lies between base * min and base * max multiplier. */
  lemma EvaluatedThrustBounds(t: Thruster, acc: Accumulated)
    requires BoundsOrdered(t) && t.baseThrust >= 0.0
    ensures t.baseThrust * t.minGasThrustMultiplier <= Evaluated(t, acc).thrust <= t.baseThrust * t.maxGasThrustMultiplier
  {
    var m := Evaluated(t, acc).gasThrustMultiplier;
    assert t.baseThrust * (m - t.minGasThrustMultiplier) >= 0.0;
    assert t.baseThrust * (t.maxGasThrustMultiplier - m) >= 0.0;
  }

  /** Documented example: a single fully matched rule with multiplier 1.5 raises a base thrust of 100 to 150. */
  lemma SingleRuleMultiplierExample(t: Thruster, rule: ThrusterGasMixturePair, inlet: GasMixture, gasMinMoles: real)
    requires t.gasMixturePair == [rule] && rule.thrustMultiplier == 1.5 && |rule.mixture| <= |inlet|
    requires Benefit(rule, inlet, gasMinMoles) == 1.0
    requires BoundsOrdered(t) && t.minGasThrustMultiplier <= 1.5 <= t.maxGasThrustMultiplier
    requires t.baseThrust == 100.0
    ensures Evaluated(t, Accumulate(t.gasMixturePair, inlet, t.requiresFuel, gasMinMoles)).thrust == 150.0
  {
    var acc := Accumulate(t.gasMixturePair, inlet, t.requiresFuel, gasMinMoles);
    assert AccumulateTo(t.gasMixturePair, inlet, t.requiresFuel, gasMinMoles, 0).multiplier == 1.0;
    assert acc.multiplier == 1.5;
  }

  /**
   * The efficiency bounds the thruster component declares are inverted, so a
   * default thruster can never be rated: Math.Clamp throws on every atmos update.
   */
  lemma DefaultBoundsInverted(species: nat)
    ensures DefaultThruster(species).minGasConsumptionEfficiency > DefaultThruster(species).maxGasConsumptionEfficiency
    ensures !BoundsOrdered(DefaultThruster(species))
  {
  }

  /** The default thruster with its efficiency bounds in the evident order (min 0.1, max 5), like the multiplier's. */
  function CorrectedDefaultThruster(species: nat): Thruster
  {
    DefaultThruster(species).(minGasConsumptionEfficiency := 0.1, maxGasConsumptionEfficiency := 5.0)
  }

  /**
   * With the corrected bounds every rating succeeds and lands within [0.1, 5]
   * for both efficiency and multiplier, so thrust stays within [10, 500].
   */
  lemma CorrectedDefaultsEvaluateWithinBounds(species: nat, acc: Accumulated)
    ensures BoundsOrdered(CorrectedDefaultThruster(species))
    ensures var r := Evaluated(CorrectedDefaultThruster(species), acc);
      && 0.1 <= r.gasConsumptionEfficiency <= 5.0
      && 0.1 <= r.gasThrustMultiplier <= 5.0
      && 10.0 <= r.thrust <= 500.0
  {
    EvaluatedThrustBounds(CorrectedDefaultThruster(species), acc);
  }

  /**
   * A default thruster that had the corrected bounds would, whatever its inlet,
   * be rated with both products 0 (its one rule never benefits), so clamped
   * to the minimum 0.1: 10 thrust, and fueled only if fuel is not required.
   */
  lemma CorrectedDefaultRating(species: nat, inlet: GasMixture, gasMinMoles: real)
    requires species <= |inlet|
    ensures var t := CorrectedDefaultThruster(species);
      var acc := Accumulate(t.gasMixturePair, inlet, t.requiresFuel, gasMinMoles);
      && acc == Accumulated(0.0, 0.0, !t.requiresFuel)
      && Evaluated(t, acc).thrust == 10.0
      && Evaluated(t, acc).gasConsumptionEfficiency == 0.1
  {
    var t := CorrectedDefaultThruster(species);
    DefaultRuleNeverBenefits(species, inlet, gasMinMoles);
    assert t.gasMixturePair[0] == DefaultGasMixturePair(species);
    var a0 := AccumulateTo(t.gasMixturePair, inlet, t.requiresFuel, gasMinMoles, 0);
    assert a0 == Accumulated(1.0, 1.0, !t.requiresFuel);
    var acc := Accumulate(t.gasMixturePair, inlet, t.requiresFuel, gasMinMoles);
    assert acc == AccumulateTo(t.gasMixturePair, inlet, t.requiresFuel, gasMinMoles, 1);
    assert acc == Accumulated(0.0, 0.0, !t.requiresFuel);
  }
}
