/**
 * The data the thruster systems operate on
 * (Content.Server/Shuttles/Components/ThrusterComponent.cs): the thruster
 * component with its defaults, the gas rules of a fueled thruster, and the
 * part of an entity's transform the systems read.
 */
module ThrusterData {
  import opened Wrappers
  import opened Directions
  import opened Burning
  import opened GasComparators

  datatype ThrusterType = Linear | Angular

  /** ComponentLifeStage, in the order of its values. */
  datatype LifeStage = PreAdd | Added | Initializing | Initialized | Starting | Running | Stopping | Stopped | Deleted

  function LifeStageValue(s: LifeStage): nat
  {
    match s
    case PreAdd => 0
    case Added => 1
    case Initializing => 2
    case Initialized => 3
    case Starting => 4
    case Running => 5
    case Stopping => 6
    case Stopped => 7
    case Deleted => 8
  }

  /** LifeStage > ComponentLifeStage.Running: the component is shutting down or gone. */
  predicate PastRunning(s: LifeStage)
  {
    LifeStageValue(s) > LifeStageValue(Running)
  }

  /**
   * The part of a TransformComponent the systems read: the grid the entity
   * stands on (GridUid), its local rotation as the cardinal direction it
   * snaps to (every use goes through GetCardinalDir), and whether it is anchored.
   */
  datatype Xform = Xform(grid: Option<EntityUid>, rotation: CardinalDir, anchored: bool)

  // ---------------------------------------------------------------------------
  // Gas rules
  // ---------------------------------------------------------------------------

  /**
   * GasMixtureBenefitsCondition, a byte enum. The evaluator's switch sends any
   * value other than the three named ones to the Pure branch.
   */
  type GasMixtureBenefitsCondition = bv8

  const BenefitsNone: GasMixtureBenefitsCondition := 0
  const BenefitsSingleThreshold: GasMixtureBenefitsCondition := 1
  const BenefitsSingleThresholdPure: GasMixtureBenefitsCondition := 2
  const BenefitsPure: GasMixtureBenefitsCondition := 3

  /** ThrusterGasMixturePair: a target mixture and the effects granted when the inlet matches it. */
  datatype ThrusterGasMixturePair = ThrusterGasMixturePair(
    mixture: GasMixture,
    thrustMultiplier: real,
    consumptionEfficiency: real,
    isFuel: bool,
    benefitsCondition: GasMixtureBenefitsCondition)

  /** A rule with every default: an empty mixture over the given species, no change to thrust or efficiency, fuel, condition None. */
  function DefaultGasMixturePair(species: nat): (p: ThrusterGasMixturePair)
  {
    ThrusterGasMixturePair(seq(species, _ => 0.0), 1.0, 1.0, true, BenefitsNone)
  }

  // ---------------------------------------------------------------------------
  // The thruster component
  // ---------------------------------------------------------------------------

  /**
   * ThrusterComponent. The burn fields (Firing, Colliding, Damage != null,
   * FireCooldown, NextFire) are grouped in burn. BurnPoly, the exhaust
   * polygon, only feeds the physics engine and is not part of this model.
   */
  datatype Thruster = Thruster(
    enabled: bool,
    isOn: bool,
    thrust: real,
    thrusterType: ThrusterType,
    requireSpace: bool,
    burn: BurnState,
    lifeStage: LifeStage,
    // fueled thrusters
    isFueledThruster: bool,
    isAllowedActive: bool,
    requiresFuel: bool,
    inletName: string,
    previousThrust: real,
    baseGasConsumptionRate: real,
    baseThrust: real,
    gasThrustMultiplier: real,
    gasConsumptionEfficiency: real,
    maxGasThrustMultiplier: real,
    maxGasConsumptionEfficiency: real,
    minGasThrustMultiplier: real,
    minGasConsumptionEfficiency: real,
    previousValueComparisonTolerance: real,
    gasBenefitsUpdateInterval: int,
    gasMixturePair: seq<ThrusterGasMixturePair>)

  /** A freshly created thruster component, every field at its declared default; the rule list holds one default rule. */
  function DefaultThruster(species: nat): (t: Thruster)
  {
    Thruster(
      enabled := true,
      isOn := false,
      thrust := 100.0,
      thrusterType := Linear,
      requireSpace := true,
      burn := BurnState(false, [], true, 2 * TicksPerSecond, 0),
      lifeStage := Running,
      isFueledThruster := false,
      isAllowedActive := false,
      requiresFuel := false,
      inletName := "inlet",
      previousThrust := 0.0,
      baseGasConsumptionRate := 10.0,
      baseThrust := 100.0,
      gasThrustMultiplier := 1.0,
      gasConsumptionEfficiency := 1.0,
      maxGasThrustMultiplier := 5.0,
      maxGasConsumptionEfficiency := 0.1,
      minGasThrustMultiplier := 0.1,
      minGasConsumptionEfficiency := 5.0,
      previousValueComparisonTolerance := 1.0,
      gasBenefitsUpdateInterval := 5 * TicksPerSecond,
      gasMixturePair := [DefaultGasMixturePair(species)])
  }

  /** The clamp bounds of both accumulators are ordered (min <= max), as Math.Clamp demands. */
  predicate BoundsOrdered(t: Thruster)
  {
    t.minGasConsumptionEfficiency <= t.maxGasConsumptionEfficiency
    && t.minGasThrustMultiplier <= t.maxGasThrustMultiplier
  }

  /** The thruster's counted thrust and the thrust of the last atmos update agree. */
  predicate PreviousThrustCurrent(t: Thruster)
  {
    t.previousThrust == t.thrust
  }

  /**
   * The declared defaults: on, linear, needing space, not firing, a two second
   * cooldown; 100 thrust from 100 base thrust at multiplier and efficiency 1,
   * 10 moles per update; ordered multiplier bounds but inverted efficiency
   * bounds (min 5 above max 0.1); and a previous thrust of 0 that disagrees
   * with the thrust of 100.
   */
  lemma DefaultThrusterFields(species: nat)
    ensures var t := DefaultThruster(species);
      && t.enabled && !t.isOn && t.thrust == 100.0 && t.thrusterType == Linear && t.requireSpace
      && !t.burn.firing && t.burn.cooldown == 2 * TicksPerSecond && t.burn.colliding == []
      && t.baseThrust == 100.0 && t.baseGasConsumptionRate == 10.0
      && t.gasThrustMultiplier == 1.0 && t.gasConsumptionEfficiency == 1.0
      && t.thrust == t.baseThrust * t.gasThrustMultiplier
      && t.minGasThrustMultiplier <= t.maxGasThrustMultiplier
      && t.minGasConsumptionEfficiency > t.maxGasConsumptionEfficiency
      && !BoundsOrdered(t)
      && !PreviousThrustCurrent(t)
      && |t.gasMixturePair| == 1 && t.gasMixturePair[0] == DefaultGasMixturePair(species)
  {
  }

  /** The default rule: multiplier and efficiency 1, fuel, condition None, and no gas at all in its mixture. */
  lemma DefaultRuleFields(species: nat)
    ensures var p := DefaultGasMixturePair(species);
      && p.thrustMultiplier == 1.0 && p.consumptionEfficiency == 1.0 && p.isFuel
      && p.benefitsCondition == BenefitsNone
      && |p.mixture| == species && TotalMoles(p.mixture) == 0.0
  {
    var m := DefaultGasMixturePair(species).mixture;
    ZeroMixtureHasNoMoles(m, |m|);
  }

  lemma {:induction false} ZeroMixtureHasNoMoles(m: GasMixture, n: nat)
    requires n <= |m|
    requires forall i :: 0 <= i < |m| ==> m[i] == 0.0
    ensures SumTo(m, n) == 0.0
  {
    if n > 0 {
      ZeroMixtureHasNoMoles(m, n - 1);
    }
  }
}
