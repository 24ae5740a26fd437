/**
 * ThrusterSystem (Content.Server/Shuttles/Systems/ThrusterSystem.cs): the
 * entity system that switches thrusters on and off, keeps each shuttle's
 * thrust buckets up to date, rates fueled thrusters on the gas in their inlet,
 * fires thrusters by direction and burns whatever stands in their exhaust.
 *
 * The system's component stores are maps from entity id to component value:
 * the thruster components, the transforms and the shuttle components. A
 * handler that updates a component in place assigns a new value to its entry.
 * Engine queries the handlers make (power, the tile behind the nozzle, the
 * inlet's pipe node) are parameters.
 */
module ThrusterSystems {
  import opened Wrappers
  import opened Numeric
  import opened Directions
  import opened Burning
  import opened GasComparators
  import opened ThrusterData
  import opened ShuttleThrust
  import opened Performance
  import opened Bookkeeping

  // ---------------------------------------------------------------------------
  // Queries
  // ---------------------------------------------------------------------------

  /**
   * NozzleExposed: a thruster on no grid is exposed; on a grid, it is exposed
   * when the tile behind its nozzle is space (the tile lookup is the
   * parameter tileIsSpace).
   */
  predicate NozzleExposed(x: Xform, tileIsSpace: bool)
  {
    x.grid.None? || tileIsSpace
  }

  /**
   * CanEnable: a disabled thruster never; a fueled thruster exactly when its
   * last gas rating allowed it; otherwise it must still be running, anchored,
   * powered and, if it requires space, have its nozzle exposed.
   */
  predicate CanEnable(t: Thruster, x: Xform, powered: bool, tileIsSpace: bool)
  {
    if !t.enabled then false
    else if t.isFueledThruster then t.isAllowedActive
    else if PastRunning(t.lifeStage) then false
    else if !x.anchored || !powered then false
    else if !t.requireSpace then true
    else NozzleExposed(x, tileIsSpace)
  }

  /** The guards of CanEnable as one condition per kind of thruster. */
  lemma CanEnableConditions(t: Thruster, x: Xform, powered: bool, tileIsSpace: bool)
    ensures CanEnable(t, x, powered, tileIsSpace) ==> t.enabled
    ensures t.isFueledThruster ==> (CanEnable(t, x, powered, tileIsSpace) <==> t.enabled && t.isAllowedActive)
    ensures !t.isFueledThruster ==>
      (CanEnable(t, x, powered, tileIsSpace) <==>
         t.enabled && !PastRunning(t.lifeStage) && x.anchored && powered
         && (t.requireSpace ==> x.grid.None? || tileIsSpace))
  {
  }

  /**
   * A fueled thruster skips the lifecycle, anchoring, power and space checks:
   * whatever its lifecycle stage, transform, power and the tile behind it,
   * the answer is the same.
   */
  lemma FueledThrusterSkipsGuards(t: Thruster, stage: LifeStage, x: Xform, x': Xform,
                                  powered: bool, powered': bool, tileIsSpace: bool, tileIsSpace': bool)
    requires t.isFueledThruster
    ensures CanEnable(t, x, powered, tileIsSpace)
         == CanEnable(t.(lifeStage := stage), x', powered', tileIsSpace')
  {
  }

  // ---------------------------------------------------------------------------
  // Firing
  // ---------------------------------------------------------------------------

  /** A thruster with Firing set to on. */
  function Fired(t: Thruster, on: bool): Thruster
  {
    t.(burn := t.burn.(firing := on))
  }

  /**
   * The thrusters after Firing is set to on for every member of ids;
   * members without a thruster component are skipped.
   */
  function SetFiring(th: map<EntityUid, Thruster>, ids: set<EntityUid>, on: bool): (r: map<EntityUid, Thruster>)
    ensures r.Keys == th.Keys
  {
    map u | u in th :: if u in ids then Fired(th[u], on) else th[u]
  }

  /** Setting Firing on one set of thrusters and then another is setting it on both. */
  lemma SetFiringUnion(th: map<EntityUid, Thruster>, a: set<EntityUid>, b: set<EntityUid>, on: bool)
    ensures SetFiring(SetFiring(th, a, on), b, on) == SetFiring(th, a + b, on)
  {
  }

  /** Firing is no part of the bookkeeping, so setting it keeps the bookkeeping consistent. */
  lemma SetFiringKeepsConsistency(th: map<EntityUid, Thruster>, xf: map<EntityUid, Xform>, sh: map<EntityUid, Shuttle>,
                                  ids: set<EntityUid>, on: bool)
    ensures Bookkeeping.Consistent(th, xf, sh) ==> Bookkeeping.Consistent(SetFiring(th, ids, on), xf, sh)
  {
    SameCountingKeepsConsistency(th, SetFiring(th, ids, on), xf, sh);
  }

  /** Firing one more thruster u that was not yet set. */
  lemma SetFiringOneMore(th: map<EntityUid, Thruster>, done: set<EntityUid>, u: EntityUid, on: bool)
    requires u in th && u !in done
    ensures SetFiring(th, done, on)[u := Fired(th[u], on)] == SetFiring(th, done + {u}, on)
  {
  }

  /** Skipping an id without a thruster component changes nothing. */
  lemma SetFiringAbsent(th: map<EntityUid, Thruster>, done: set<EntityUid>, u: EntityUid, on: bool)
    requires u !in th
    ensures SetFiring(th, done, on) == SetFiring(th, done + {u}, on)
  {
  }

  /** The thruster after DisableThruster switched it off: Colliding is cleared only when its grid has a shuttle. */
  function SwitchedOff(t: Thruster, onShuttle: bool): Thruster
  {
    t.(isOn := false, burn := if onShuttle then t.burn.(colliding := []) else t.burn)
  }

  /** The gas a firing fueled thruster draws from its inlet on one atmos update. */
  function GasConsumption(t: Thruster): real
  {
    t.baseGasConsumptionRate * t.gasConsumptionEfficiency
  }

  /**
   * A higher GasConsumptionEfficiency draws more gas at the same base rate:
   * the consumption is the base rate times the efficiency, although the
   * field's documentation says higher values consume less.
   */
  lemma HigherEfficiencyConsumesMore(t: Thruster, e1: real, e2: real)
    requires 0.0 <= e1 < e2 && t.baseGasConsumptionRate > 0.0
    ensures GasConsumption(t.(gasConsumptionEfficiency := e1)) < GasConsumption(t.(gasConsumptionEfficiency := e2))
  {
    assert t.baseGasConsumptionRate * e2 - t.baseGasConsumptionRate * e1 == t.baseGasConsumptionRate * (e2 - e1);
  }

  /**
   * The thruster after the fuel step of OnAtmosUpdateEvent: IsAllowedActive
   * records whether it is fueled; a fueled thruster that is off is switched on
   * when it can be enabled, an unfueled one that is on is switched off. Its
   * rating is untouched.
   */
  function FuelApplied(t: Thruster, x: Xform, onShuttle: bool, isFueled: bool, powered: bool, tileIsSpace: bool): (r: Thruster)
    ensures r.isAllowedActive == isFueled
    ensures r.thrust == t.thrust && r.gasConsumptionEfficiency == t.gasConsumptionEfficiency
    ensures r.burn.firing == t.burn.firing && r.baseGasConsumptionRate == t.baseGasConsumptionRate
    ensures RatedWithinBounds(t) ==> RatedWithinBounds(r)
    ensures isFueled ==> (r.isOn <==> t.isOn || CanEnable(t.(isAllowedActive := true), x, powered, tileIsSpace))
    ensures !isFueled ==> !r.isOn
  {
    var allowed := t.(isAllowedActive := isFueled);
    if isFueled && !t.isOn && CanEnable(allowed, x, powered, tileIsSpace) then allowed.(isOn := true)
    else if !isFueled && t.isOn then SwitchedOff(allowed, onShuttle)
    else allowed
  }

  /**
   * The shuttles after the fuel step of OnAtmosUpdateEvent: a fueled thruster
   * that is off and can be enabled joins the bucket it faces, an unfueled one
   * that is on leaves it, and otherwise nothing changes.
   */
  function FuelAppliedShuttles(sh: map<EntityUid, Shuttle>, t: Thruster, x: Xform, uid: EntityUid,
                               isFueled: bool, powered: bool, tileIsSpace: bool): map<EntityUid, Shuttle>
    requires ShuttlesWellFormed(sh)
  {
    var allowed := t.(isAllowedActive := isFueled);
    if isFueled && !t.isOn && CanEnable(allowed, x, powered, tileIsSpace) then Enrol(sh, x, allowed.(isOn := true), uid)
    else if !isFueled && t.isOn then Withdraw(sh, x.grid, x.rotation, allowed, uid)
    else sh
  }

  /** The entry the rating step leaves for a thruster whose bounds are ordered. */
  lemma RatedEntry(th0: map<EntityUid, Thruster>, uid: EntityUid, t0: Thruster, acc: Accumulated, th: map<EntityUid, Thruster>)
    requires BoundsOrdered(t0)
    requires th == th0[uid := Evaluated(t0, acc).(previousThrust := Evaluated(t0, acc).thrust)]
    ensures uid in th && RatedWithinBounds(th[uid]) && th[uid].thrust == Evaluated(t0, acc).thrust
    ensures th[uid].burn == t0.burn && GasConsumption(th[uid]) == GasConsumption(Evaluated(t0, acc))
  {
  }

  /** One thruster changing only fields the bookkeeping does not read keeps it consistent. */
  lemma SameCountingUpdate(th: map<EntityUid, Thruster>, xf: map<EntityUid, Xform>, sh: map<EntityUid, Shuttle>,
                           uid: EntityUid, t': Thruster)
    requires uid in th && SameCounting(th[uid], t')
    ensures Bookkeeping.Consistent(th, xf, sh) ==> Bookkeeping.Consistent(th[uid := t'], xf, sh)
  {
    SameCountingKeepsConsistency(th, th[uid := t'], xf, sh);
  }

  // ---------------------------------------------------------------------------
  // DisableLinearThrusters
  // ---------------------------------------------------------------------------

  /**
   * The state of DisableLinearThrusters before flag k: the mask of grid g
   * holds the original bits outside those already visited, and the
   * thrusters of the buckets of the set bits already visited stopped firing.
   */
  ghost predicate SweptUpTo(th0: map<EntityUid, Thruster>, sh0: map<EntityUid, Shuttle>, g: EntityUid, k: nat,
                            th: map<EntityUid, Thruster>, sh: map<EntityUid, Shuttle>)
  {
    && g in sh0 && WellFormed(sh0[g]) && k <= |AllFlags|
    && sh0[g].thrustDirections & !DirectionBits == 0
    && sh == sh0[g := sh0[g].(thrustDirections := sh0[g].thrustDirections & !SweptBits(k))]
    && th == SetFiring(th0, LinearMembers(sh0[g], ActiveIndices(sh0[g].thrustDirections & SweptBits(k))), false)
  }

  /**
   * The state after flag k of DisableLinearThrusters, from the state before
   * it and what DisableLinearThrustDirection does with flag k.
   */
  lemma SweepState(th0: map<EntityUid, Thruster>, sh0: map<EntityUid, Shuttle>, g: EntityUid, k: nat,
                   th1: map<EntityUid, Thruster>, sh1: map<EntityUid, Shuttle>,
                   th2: map<EntityUid, Thruster>, sh2: map<EntityUid, Shuttle>)
    requires SweptUpTo(th0, sh0, g, k, th1, sh1) && k < |AllFlags|
    requires var s, f := sh1[g], AllFlags[k];
      if s.thrustDirections & f == 0 then th2 == th1 && sh2 == sh1
      else
        && 0 <= GetFlagIndex(f) < 4
        && sh2 == sh1[g := s.(thrustDirections := DisabledDirections(s.thrustDirections, f))]
        && th2 == SetFiring(th1, s.linearThrusters[GetFlagIndex(f)], false)
    ensures SweptUpTo(th0, sh0, g, k + 1, th2, sh2)
  {
    var s0, mask := sh0[g], sh0[g].thrustDirections;
    var m, f := mask & !SweptBits(k), AllFlags[k];
    SweepStep(mask, k);
    if m & f != 0 {
      var i := GetFlagIndex(f);
      LinearMembersAdd(s0, ActiveIndices(mask & SweptBits(k)), i);
      SetFiringUnion(th0, LinearMembers(s0, ActiveIndices(mask & SweptBits(k))), s0.linearThrusters[i], false);
      OverwriteEntry(sh0, g, s0.(thrustDirections := m), s0.(thrustDirections := m & !f));
    } else {
      assert m == m & !f;
    }
  }

  /** After the last flag DisableLinearThrusters has emptied the mask and cleared every set bit's bucket. */
  lemma SweepFinished(th0: map<EntityUid, Thruster>, xf: map<EntityUid, Xform>, sh0: map<EntityUid, Shuttle>, g: EntityUid,
                      th: map<EntityUid, Thruster>, sh: map<EntityUid, Shuttle>)
    requires SweptUpTo(th0, sh0, g, |AllFlags|, th, sh)
    ensures sh == sh0[g := sh0[g].(thrustDirections := FlagNone)]
    ensures th == SetFiring(th0, LinearMembers(sh0[g], ActiveIndices(sh0[g].thrustDirections)), false)
    ensures Bookkeeping.Consistent(th0, xf, sh0) ==> Bookkeeping.Consistent(th, xf, sh)
  {
    SweepComplete(sh0[g].thrustDirections);
    MaskChangeKeepsConsistency(th0, xf, sh0, g, FlagNone);
    SetFiringKeepsConsistency(th0, xf, sh, LinearMembers(sh0[g], ActiveIndices(sh0[g].thrustDirections)), false);
  }

  // ---------------------------------------------------------------------------
  // Burning
  // ---------------------------------------------------------------------------

  /** Every thruster after the update at time now: each due one moves NextFire on by its cooldown. */
  function Ticked(th: map<EntityUid, Thruster>, now: int): (r: map<EntityUid, Thruster>)
    ensures r.Keys == th.Keys
  {
    map u | u in th :: th[u].(burn := Tick(th[u].burn, now))
  }

  /** The thrusters part way through the update: those in todo are not yet visited. */
  function TickedExcept(th: map<EntityUid, Thruster>, todo: set<EntityUid>, now: int): map<EntityUid, Thruster>
  {
    map u | u in th :: if u in todo then th[u] else th[u].(burn := Tick(th[u].burn, now))
  }

  /** Visiting one more thruster of todo. */
  lemma TickOneMore(th: map<EntityUid, Thruster>, todo: set<EntityUid>, u: EntityUid, now: int)
    requires u in todo && todo <= th.Keys
    ensures TickedExcept(th, todo, now)[u := th[u].(burn := Tick(th[u].burn, now))] == TickedExcept(th, todo - {u}, now)
    ensures (Burns(th, now) - todo)[u := TickTargets(th[u].burn, now)] == Burns(th, now) - (todo - {u})
  {
  }

  /** Before the loop nothing is visited; with nothing left to visit every thruster is. */
  lemma TickedUpTo(th: map<EntityUid, Thruster>, todo: set<EntityUid>, now: int)
    ensures todo == th.Keys ==> TickedExcept(th, todo, now) == th && Burns(th, now) - todo == map[]
    ensures todo == {} ==> TickedExcept(th, todo, now) == Ticked(th, now) && Burns(th, now) - todo == Burns(th, now)
  {
  }

  /** The entities each thruster damages in the update at time now. */
  function Burns(th: map<EntityUid, Thruster>, now: int): (r: map<EntityUid, seq<EntityUid>>)
    ensures r.Keys == th.Keys
  {
    map u | u in th :: TickTargets(th[u].burn, now)
  }

  /**
   * What an update does to each thruster: only NextFire changes, and only for
   * a due thruster; a thruster damages anything exactly when it is due,
   * firing, has a damage specifier and something is in its exhaust, and then
   * it damages its whole colliding list.
   */
  lemma UpdateEffect(th: map<EntityUid, Thruster>, now: int, u: EntityUid)
    requires u in th
    ensures var t, t' := th[u], Ticked(th, now)[u];
      && t'.(burn := t.burn) == t
      && (t.burn.nextFire > now ==> t' == t)
      && (t.burn.nextFire <= now ==> t'.burn.nextFire == t.burn.nextFire + t.burn.cooldown)
      && t'.burn.(nextFire := t.burn.nextFire) == t.burn
      && (Burns(th, now)[u] != [] <==> t.burn.nextFire <= now && t.burn.firing && t.burn.hasDamage && t.burn.colliding != [])
      && (Burns(th, now)[u] != [] ==> Burns(th, now)[u] == t.burn.colliding)
  {
    TickEffect(th[u].burn, now);
  }

  /** An update touches no field the bookkeeping reads. */
  lemma UpdateKeepsConsistency(th: map<EntityUid, Thruster>, xf: map<EntityUid, Xform>, sh: map<EntityUid, Shuttle>,
                               now: int)
    ensures Bookkeeping.Consistent(th, xf, sh) ==> Bookkeeping.Consistent(Ticked(th, now), xf, sh)
  {
    SameCountingKeepsConsistency(th, Ticked(th, now), xf, sh);
  }

  // ---------------------------------------------------------------------------
  // Gas rating
  // ---------------------------------------------------------------------------

  /**
   * The condition under which RefreshThrusterContribution, as written, keeps
   * the bookkeeping when the thrust becomes newThrust: off a shuttle grid
   * always; on one, a thruster that is on must be counted with its
   * PreviousThrust, and one that is off must not change its thrust.
   */
  predicate PreviousThrustCounted(t: Thruster, newThrust: real, onShuttle: bool)
  {
    onShuttle ==> if t.isOn then t.previousThrust == t.thrust else newThrust == t.previousThrust
  }

  /** Efficiency and multiplier within their bounds, thrust from the multiplier, and PreviousThrust caught up. */
  predicate RatedWithinBounds(t: Thruster)
  {
    && t.minGasConsumptionEfficiency <= t.gasConsumptionEfficiency <= t.maxGasConsumptionEfficiency
    && t.minGasThrustMultiplier <= t.gasThrustMultiplier <= t.maxGasThrustMultiplier
    && t.thrust == t.baseThrust * t.gasThrustMultiplier
    && t.previousThrust == t.thrust
  }

  /** Writing an entry twice is writing the second value. */
  lemma OverwriteEntry<V>(m: map<EntityUid, V>, k: EntityUid, a: V, b: V)
    ensures m[k := a][k := b] == m[k := b]
  {
  }

  // ---------------------------------------------------------------------------
  // The system
  // ---------------------------------------------------------------------------

  class ThrusterSystem {
    /** The thruster components, by entity. */
    var thrusters: map<EntityUid, Thruster>
    /** The transforms, by entity. */
    var xforms: map<EntityUid, Xform>
    /** The shuttle components, by grid entity. */
    var shuttles: map<EntityUid, Shuttle>

    /** Every thruster has a transform, and every shuttle has four linear buckets and a mask of direction bits. */
    ghost predicate Valid()
      reads this
    {
      thrusters.Keys <= xforms.Keys && ShuttlesWellFormed(shuttles)
    }

    /** The shuttles count exactly the thrusters that are on on their grids, each bucket with its members' thrust. */
    ghost predicate Consistent()
      reads this
    {
      Bookkeeping.Consistent(thrusters, xforms, shuttles)
    }

    // -------------------------------------------------------------------------
    // Switching on and off
    // -------------------------------------------------------------------------

    /**
     * EnableThruster: nothing if the thruster is already on; otherwise it is
     * switched on and, when its grid has a shuttle, its thrust joins the
     * bucket it faces. A consistent system stays consistent, and the
     * debug assertion that the thruster was not yet counted holds.
     */
    method EnableThruster(uid: EntityUid)
      requires Valid() && uid in thrusters
      modifies this
      ensures Valid() && xforms == old(xforms)
      ensures old(thrusters[uid].isOn) ==> thrusters == old(thrusters) && shuttles == old(shuttles)
      ensures !old(thrusters[uid].isOn) ==>
        && thrusters == old(thrusters)[uid := old(thrusters[uid]).(isOn := true)]
        && shuttles == Enrol(old(shuttles), xforms[uid], thrusters[uid], uid)
      ensures old(Consistent()) && !old(thrusters[uid].isOn) ==>
        old(NotCounted(shuttles, xforms[uid], thrusters[uid], uid))
      ensures old(Consistent()) ==> Consistent()
    {
      var t := thrusters[uid];
      if t.isOn {
        return;
      }
      ghost var th, sh := thrusters, shuttles;
      var on := t.(isOn := true);
      thrusters := thrusters[uid := on];
      var x := xforms[uid];
      if OnShuttle(shuttles, x.grid) {
        var g := x.grid.value;
        shuttles := shuttles[g := AddContribution(shuttles[g], on.thrusterType, CardinalIndex(x.rotation), uid, on.thrust)];
      }
      if Bookkeeping.Consistent(th, xforms, sh) {
        AgreementGivesAssertions(th, xforms, sh, uid);
        EnrolKeepsConsistency(th, xforms, sh, uid, on);
      }
    }

    /**
     * DisableThruster with an explicit grid and, optionally, facing: nothing
     * if the thruster is off; otherwise it is switched off and, when that
     * grid has a shuttle, its thrust leaves the bucket of that facing (its
     * own rotation when none is given) and its exhaust contacts are cleared.
     */
    method DisableThrusterAt(uid: EntityUid, gridId: Option<EntityUid>, angle: Option<CardinalDir>)
      requires Valid() && uid in thrusters
      modifies this
      ensures Valid() && xforms == old(xforms)
      ensures old(!thrusters[uid].isOn) ==> thrusters == old(thrusters) && shuttles == old(shuttles)
      ensures old(thrusters[uid].isOn) ==>
        && thrusters == old(thrusters)[uid := SwitchedOff(old(thrusters[uid]), OnShuttle(old(shuttles), gridId))]
        && shuttles == Withdraw(old(shuttles), gridId, if angle.Some? then angle.value else xforms[uid].rotation,
                                old(thrusters[uid]), uid)
    {
      var t := thrusters[uid];
      if !t.isOn {
        return;
      }
      var x := xforms[uid];
      thrusters := thrusters[uid := t.(isOn := false)];
      if !OnShuttle(shuttles, gridId) {
        return;
      }
      var g := gridId.value;
      var dir := if angle.Some? then angle.value else x.rotation;
      shuttles := shuttles[g := RemoveContribution(shuttles[g], t.thrusterType, CardinalIndex(dir), uid, t.thrust)];
      thrusters := thrusters[uid := SwitchedOff(t, true)];
    }

    /**
     * DisableThruster on the thruster's own grid (the overload that resolves
     * the transform; it does not pass its angle on, so the facing is always
     * the current rotation). A consistent system stays consistent, and the
     * debug assertion that the thruster was counted holds.
     */
    method DisableThruster(uid: EntityUid)
      requires Valid() && uid in thrusters
      modifies this
      ensures Valid() && xforms == old(xforms)
      ensures old(!thrusters[uid].isOn) ==> thrusters == old(thrusters) && shuttles == old(shuttles)
      ensures old(thrusters[uid].isOn) ==>
        && thrusters == old(thrusters)[uid := SwitchedOff(old(thrusters[uid]), OnShuttle(old(shuttles), xforms[uid].grid))]
        && shuttles == Withdraw(old(shuttles), xforms[uid].grid, xforms[uid].rotation, old(thrusters[uid]), uid)
      ensures old(Consistent()) && old(thrusters[uid].isOn) ==>
        old(Counted(shuttles, xforms[uid].grid, xforms[uid].rotation, thrusters[uid], uid))
      ensures old(Consistent()) ==> Consistent()
    {
      ghost var th, sh := thrusters, shuttles;
      var x := xforms[uid];
      DisableThrusterAt(uid, x.grid, None);
      if Bookkeeping.Consistent(th, xforms, sh) && th[uid].isOn {
        AgreementGivesAssertions(th, xforms, sh, uid);
        WithdrawKeepsConsistency(th, xforms, sh, uid, SwitchedOff(th[uid], OnShuttle(sh, x.grid)));
      }
    }

    // -------------------------------------------------------------------------
    // Gas rating
    // -------------------------------------------------------------------------

    /**
     * RefreshThrusterContribution as written: when the thruster's grid has a
     * shuttle, the bucket it faces moves by Thrust minus PreviousThrust,
     * whether or not the shuttle counts the thruster; nothing else changes.
     */
    method RefreshThrusterContribution(uid: EntityUid)
      requires Valid() && uid in thrusters
      modifies this
      ensures Valid() && thrusters == old(thrusters) && xforms == old(xforms)
      ensures shuttles == Refreshed(old(shuttles), xforms[uid], thrusters[uid].thrusterType,
                                    thrusters[uid].thrust - thrusters[uid].previousThrust)
    {
      var t, x := thrusters[uid], xforms[uid];
      if !OnShuttle(shuttles, x.grid) {
        return;
      }
      var g := x.grid.value;
      var direction := CardinalIndex(x.rotation);
      var deltaThrust := t.thrust - t.previousThrust;
      if t.thrusterType == Linear {
        var s := shuttles[g];
        shuttles := shuttles[g := s.(linearThrust := s.linearThrust[direction := s.linearThrust[direction] + deltaThrust])];
      }
      if t.thrusterType == Angular {
        var s := shuttles[g];
        shuttles := shuttles[g := s.(angularThrust := s.angularThrust + deltaThrust)];
      }
    }

    /**
     * The refresh as evidently intended: the thrust becomes newThrust (and
     * PreviousThrust with it), and only a thruster that is on moves its
     * bucket, by the difference from the thrust it was counted with. It keeps
     * a consistent system consistent in every case.
     */
    method RefreshCountedContribution(uid: EntityUid, newThrust: real)
      requires Valid() && uid in thrusters
      modifies this
      ensures Valid() && xforms == old(xforms)
      ensures thrusters == old(thrusters)[uid := old(thrusters[uid]).(thrust := newThrust, previousThrust := newThrust)]
      ensures shuttles == CountedRefresh(old(shuttles), xforms[uid], old(thrusters[uid]), newThrust)
      ensures old(Consistent()) ==> Consistent()
    {
      ghost var th, sh := thrusters, shuttles;
      var t, x := thrusters[uid], xforms[uid];
      var t' := t.(thrust := newThrust, previousThrust := newThrust);
      thrusters := thrusters[uid := t'];
      if t.isOn && OnShuttle(shuttles, x.grid) {
        var g := x.grid.value;
        shuttles := shuttles[g := ApplyDelta(shuttles[g], t.thrusterType, CardinalIndex(x.rotation), newThrust - t.thrust)];
      }
      if Bookkeeping.Consistent(th, xforms, sh) {
        CountedRefreshKeepsConsistency(th, xforms, sh, uid, t', shuttles);
      }
    }

    /**
     * The clamping step of OnAtmosUpdateEvent: inverted efficiency bounds make
     * Math.Clamp throw before anything is stored; inverted multiplier bounds
     * make it throw after the clamped efficiency is stored; otherwise both are
     * clamped and the thrust recomputed from the base thrust.
     */
    method ApplyRating(uid: EntityUid, acc: Accumulated) returns (status: Status)
      requires Valid() && uid in thrusters
      modifies this
      ensures Valid() && xforms == old(xforms) && shuttles == old(shuttles)
      ensures var t := old(thrusters[uid]);
        if t.minGasConsumptionEfficiency > t.maxGasConsumptionEfficiency then
          status == Threw(ClampBoundsInverted) && thrusters == old(thrusters)
        else if t.minGasThrustMultiplier > t.maxGasThrustMultiplier then
          status == Threw(ClampBoundsInverted)
          && thrusters == old(thrusters)[uid := t.(gasConsumptionEfficiency :=
               Clamp(acc.efficiency, t.minGasConsumptionEfficiency, t.maxGasConsumptionEfficiency))]
        else
          status == Completed && thrusters == old(thrusters)[uid := Evaluated(t, acc)]
      ensures status.Threw? && old(Consistent()) ==> Consistent()
    {
      var t := thrusters[uid];
      if t.minGasConsumptionEfficiency > t.maxGasConsumptionEfficiency {
        return Threw(ClampBoundsInverted);
      }
      if t.minGasThrustMultiplier > t.maxGasThrustMultiplier {
        var efficient := t.(gasConsumptionEfficiency :=
                              Clamp(acc.efficiency, t.minGasConsumptionEfficiency, t.maxGasConsumptionEfficiency));
        SameCountingUpdate(thrusters, xforms, shuttles, uid, efficient);
        thrusters := thrusters[uid := efficient];
        return Threw(ClampBoundsInverted);
      }
      thrusters := thrusters[uid := Evaluated(t, acc)];
      status := Completed;
    }

    /**
     * The bookkeeping step after a rating: the shuttle is refreshed as written
     * and PreviousThrust caught up with the new thrust. The bookkeeping of the
     * thrusters before the rating (th0, which differ from the current ones in
     * this thruster's rating fields only) stays consistent exactly when the
     * refresh moved the bucket by the right amount (PreviousThrustCounted).
     */
    method RefreshAndCatchUp(uid: EntityUid, ghost th0: map<EntityUid, Thruster>)
      requires Valid() && uid in thrusters && uid in th0 && thrusters == th0[uid := thrusters[uid]]
      requires thrusters[uid].isOn == th0[uid].isOn && thrusters[uid].thrusterType == th0[uid].thrusterType
      requires thrusters[uid].previousThrust == th0[uid].previousThrust
      modifies this
      ensures Valid() && xforms == old(xforms)
      ensures var t := old(thrusters[uid]);
        && thrusters == old(thrusters)[uid := t.(previousThrust := t.thrust)]
        && shuttles == Refreshed(old(shuttles), xforms[uid], t.thrusterType, t.thrust - t.previousThrust)
      ensures Bookkeeping.Consistent(th0, xforms, old(shuttles))
              && PreviousThrustCounted(th0[uid], old(thrusters[uid]).thrust, OnShuttle(old(shuttles), xforms[uid].grid))
              ==> Consistent()
    {
      ghost var sh0 := shuttles;
      var t := thrusters[uid];
      RefreshThrusterContribution(uid);
      ghost var sh1 := shuttles;
      var caughtUp := t.(previousThrust := t.thrust);
      thrusters := thrusters[uid := caughtUp];
      assert Bookkeeping.Consistent(th0, xforms, sh0) && PreviousThrustCounted(th0[uid], t.thrust, OnShuttle(sh0, xforms[uid].grid))
             ==> Bookkeeping.Consistent(thrusters, xforms, shuttles) by {
        if Bookkeeping.Consistent(th0, xforms, sh0) && PreviousThrustCounted(th0[uid], t.thrust, OnShuttle(sh0, xforms[uid].grid)) {
          assert old(thrusters) == th0[uid := t];
          assert sh1 == Refreshed(sh0, xforms[uid], th0[uid].thrusterType, t.thrust - th0[uid].previousThrust);
          AsWrittenRefreshKeepsConsistency(th0, xforms, sh0, uid, t);
          SameCountingUpdate(old(thrusters), xforms, sh1, uid, caughtUp);
        }
      }
    }

    /**
     * The rating half of OnAtmosUpdateEvent: the rules are rated on the inlet
     * gas (the rating is returned) and the result clamped (ApplyRating). When
     * the clamp did not throw, the shuttle is refreshed as written and
     * PreviousThrust caught up (RefreshAndCatchUp).
     */
    method RateOnInlet(uid: EntityUid, air: GasMixture, gasMinMoles: real) returns (status: Status, acc: Accumulated)
      requires Valid() && uid in thrusters && RulesFit(thrusters[uid].gasMixturePair, air)
      modifies this
      ensures Valid() && xforms == old(xforms)
      ensures acc == Accumulate(old(thrusters[uid]).gasMixturePair, air, old(thrusters[uid]).requiresFuel, gasMinMoles)
      ensures !BoundsOrdered(old(thrusters[uid])) ==>
        var t := old(thrusters[uid]);
        && status == Threw(ClampBoundsInverted) && shuttles == old(shuttles)
        && thrusters == old(thrusters)[uid :=
             if t.minGasConsumptionEfficiency > t.maxGasConsumptionEfficiency then t
             else t.(gasConsumptionEfficiency :=
                       Clamp(acc.efficiency, t.minGasConsumptionEfficiency, t.maxGasConsumptionEfficiency))]
      ensures BoundsOrdered(old(thrusters[uid])) ==>
        var t := old(thrusters[uid]);
        var e := Evaluated(t, acc);
        && status == Completed
        && thrusters == old(thrusters)[uid := e.(previousThrust := e.thrust)]
        && shuttles == Refreshed(old(shuttles), xforms[uid], t.thrusterType, e.thrust - t.previousThrust)
      ensures old(Consistent())
              && (BoundsOrdered(old(thrusters[uid])) ==>
                    PreviousThrustCounted(old(thrusters[uid]), Evaluated(old(thrusters[uid]), acc).thrust,
                                          OnShuttle(old(shuttles), xforms[uid].grid)))
              ==> Consistent()
    {
      var t0 := thrusters[uid];
      ghost var th0 := thrusters;
      acc := EvaluateGasMixtures(t0.gasMixturePair, air, t0.requiresFuel, gasMinMoles);
      status := ApplyRating(uid, acc);
      if status.Threw? {
        return;
      }
      ghost var e := Evaluated(t0, acc);
      assert thrusters == th0[uid := e];
      assert e.isOn == t0.isOn && e.thrusterType == t0.thrusterType && e.previousThrust == t0.previousThrust;
      RefreshAndCatchUp(uid, th0);
      OverwriteEntry(th0, uid, e, e.(previousThrust := e.thrust));
    }

    /**
     * The fuel half of OnAtmosUpdateEvent: a fueled thruster is allowed to
     * run, switched on if it can be and, when firing, asks the inlet for its
     * base rate times its efficiency in gas (the amount requested is
     * returned); an unfueled one is not allowed and is switched off.
     */
    method ApplyFuelState(uid: EntityUid, isFueled: bool, powered: bool, tileIsSpace: bool) returns (removed: real)
      requires Valid() && uid in thrusters
      modifies this
      ensures Valid() && xforms == old(xforms)
      ensures var t, x := old(thrusters[uid]), xforms[uid];
        && removed == (if isFueled && t.burn.firing then GasConsumption(t) else 0.0)
        && thrusters == old(thrusters)[uid := FuelApplied(t, x, OnShuttle(old(shuttles), x.grid), isFueled, powered, tileIsSpace)]
        && shuttles == FuelAppliedShuttles(old(shuttles), t, x, uid, isFueled, powered, tileIsSpace)
      ensures old(Consistent()) ==> Consistent()
    {
      ghost var th0 := thrusters;
      var t := thrusters[uid].(isAllowedActive := isFueled);
      thrusters := thrusters[uid := t];
      SameCountingUpdate(th0, xforms, shuttles, uid, t);
      ghost var sh0 := shuttles;
      removed := 0.0;
      if isFueled {
        if CanEnable(t, xforms[uid], powered, tileIsSpace) {
          EnableThruster(uid);
          OverwriteEntry(th0, uid, t, t.(isOn := true));
        }
        // enabling changes neither the firing state nor the consumption fields
        if t.burn.firing {
          removed := GasConsumption(t);
        }
      } else {
        DisableThruster(uid);
        OverwriteEntry(th0, uid, t, SwitchedOff(t, OnShuttle(sh0, xforms[uid].grid)));
      }
    }

    /**
     * OnAtmosUpdateEvent: without an inlet node nothing happens; otherwise the
     * thruster is rated on the inlet gas and, unless the clamp threw, its fuel
     * state applied. Returns how the handler ended and the amount of gas it
   * requested from the inlet.
     */
    method OnAtmosUpdateEvent(uid: EntityUid, inlet: Option<GasMixture>, gasMinMoles: real,
                              powered: bool, tileIsSpace: bool) returns (status: Status, removed: real)
      requires Valid() && uid in thrusters
      requires inlet.Some? ==> RulesFit(thrusters[uid].gasMixturePair, inlet.value)
      modifies this
      ensures Valid() && xforms == old(xforms) && thrusters.Keys == old(thrusters).Keys
      ensures inlet.None? ==>
        status == Completed && removed == 0.0 && thrusters == old(thrusters) && shuttles == old(shuttles)
      ensures status == Threw(ClampBoundsInverted) <==> inlet.Some? && !BoundsOrdered(old(thrusters[uid]))
      ensures status.Threw? ==>
        var t := old(thrusters[uid]);
        var acc := Accumulate(t.gasMixturePair, inlet.value, t.requiresFuel, gasMinMoles);
        && removed == 0.0 && shuttles == old(shuttles)
        && thrusters == old(thrusters)[uid :=
             if t.minGasConsumptionEfficiency > t.maxGasConsumptionEfficiency then t
             else t.(gasConsumptionEfficiency :=
                       Clamp(acc.efficiency, t.minGasConsumptionEfficiency, t.maxGasConsumptionEfficiency))]
      ensures inlet.Some? && BoundsOrdered(old(thrusters[uid])) ==>
        var t, x := old(thrusters[uid]), xforms[uid];
        var e := Evaluated(t, Accumulate(t.gasMixturePair, inlet.value, t.requiresFuel, gasMinMoles));
        var rated := e.(previousThrust := e.thrust);
        var isFueled := Accumulate(t.gasMixturePair, inlet.value, t.requiresFuel, gasMinMoles).isFueled;
        var refreshed := Refreshed(old(shuttles), x, t.thrusterType, e.thrust - t.previousThrust);
        && status == Completed
        && thrusters == old(thrusters)[uid := FuelApplied(rated, x, OnShuttle(refreshed, x.grid), isFueled, powered, tileIsSpace)]
        && shuttles == FuelAppliedShuttles(refreshed, rated, x, uid, isFueled, powered, tileIsSpace)
      ensures inlet.Some? && BoundsOrdered(old(thrusters[uid])) ==>
        var t := old(thrusters[uid]);
        var acc := Accumulate(t.gasMixturePair, inlet.value, t.requiresFuel, gasMinMoles);
        var e := Evaluated(t, acc);
        && RatedWithinBounds(thrusters[uid])
        && thrusters[uid].thrust == e.thrust
        && thrusters[uid].isAllowedActive == acc.isFueled
        && (acc.isFueled ==> thrusters[uid].isOn == (t.isOn || CanEnable(
              e.(previousThrust := e.thrust, isAllowedActive := true), xforms[uid], powered, tileIsSpace)))
        && (!acc.isFueled ==> !thrusters[uid].isOn)
        && removed == (if acc.isFueled && t.burn.firing then GasConsumption(e) else 0.0)
      ensures old(Consistent())
              && (inlet.Some? && BoundsOrdered(old(thrusters[uid])) ==>
                    var t := old(thrusters[uid]);
                    PreviousThrustCounted(t, Evaluated(t, Accumulate(t.gasMixturePair, inlet.value, t.requiresFuel, gasMinMoles)).thrust,
                                          OnShuttle(old(shuttles), xforms[uid].grid)))
              ==> Consistent()
    {
      removed := 0.0;
      if inlet.None? {
        return Completed, removed;
      }
      var acc;
      ghost var th0, t0 := thrusters, thrusters[uid];
      status, acc := RateOnInlet(uid, inlet.value, gasMinMoles);
      if status.Threw? {
        return;
      }
      ghost var e := Evaluated(t0, acc);
      ghost var x := xforms[uid];
      RatedEntry(th0, uid, t0, acc, thrusters);
      ghost var sh1 := shuttles;
      removed := ApplyFuelState(uid, acc.isFueled, powered, tileIsSpace);
      OverwriteEntry(th0, uid, e.(previousThrust := e.thrust),
                     FuelApplied(e.(previousThrust := e.thrust), x, OnShuttle(sh1, x.grid), acc.isFueled, powered, tileIsSpace));
    }

    // -------------------------------------------------------------------------
    // Event handlers that switch a thruster
    // -------------------------------------------------------------------------

    /**
     * The part of OnRotate for an on thruster that stays on, on a grid with a
     * shuttle: its thrust moves from the bucket of its old grid and facing to
     * the bucket of its new ones. When the grid changed, the old one must have
     * a shuttle component or the lookup throws; an angular thruster turning on
     * the same grid needs no update.
     */
    method MoveContribution(uid: EntityUid, oldX: Xform) returns (status: Status)
      requires Valid() && uid in thrusters && OnShuttle(shuttles, xforms[uid].grid)
      modifies this
      ensures Valid() && xforms == old(xforms) && thrusters == old(thrusters)
      ensures var t, x := thrusters[uid], xforms[uid];
        if oldX.grid != x.grid && !OnShuttle(old(shuttles), oldX.grid) then
          status == Threw(MissingShuttleComponent) && shuttles == old(shuttles)
        else if oldX.grid == x.grid && t.thrusterType == Angular then
          status == Completed && shuttles == old(shuttles)
        else
          status == Completed && shuttles == Enrol(Withdraw(old(shuttles), oldX.grid, oldX.rotation, t, uid), x, t, uid)
    {
      var t, x := thrusters[uid], xforms[uid];
      var oldDirection := CardinalIndex(oldX.rotation);
      var direction := CardinalIndex(x.rotation);
      var g := x.grid.value;
      status := Completed;
      if oldX.grid != x.grid {
        if !OnShuttle(shuttles, oldX.grid) {
          return Threw(MissingShuttleComponent);
        }
        if t.thrusterType == Angular {
          var og := oldX.grid.value;
          shuttles := shuttles[og := RemoveContribution(shuttles[og], Angular, oldDirection, uid, t.thrust)];
          shuttles := shuttles[g := AddContribution(shuttles[g], Angular, direction, uid, t.thrust)];
          return;
        }
      }
      if t.thrusterType == Linear {
        var og := oldX.grid.value;
        shuttles := shuttles[og := RemoveContribution(shuttles[og], Linear, oldDirection, uid, t.thrust)];
        shuttles := shuttles[g := AddContribution(shuttles[g], Linear, direction, uid, t.thrust)];
      }
    }

    /**
     * OnRotate, raised after the thruster moved from oldX to its current
     * transform. Nothing happens when it is disabled, its new grid has no
     * shuttle, or it is off and cannot be enabled. An off thruster that can
     * be enabled is switched on where it now stands; an on thruster that can
     * no longer be is switched off at its old grid and facing; an on
     * thruster that stays on moves its contribution (MoveContribution). The
     * bookkeeping as it was before the move stays consistent after it,
     * provided an on thruster is enabled and both its old and new grid have
     * a shuttle.
     */
    method OnRotate(uid: EntityUid, oldX: Xform, powered: bool, tileIsSpace: bool) returns (status: Status)
      requires Valid() && uid in thrusters
      modifies this
      ensures Valid() && xforms == old(xforms)
      ensures var t, x := old(thrusters[uid]), xforms[uid];
        var can := CanEnable(t, x, powered, tileIsSpace);
        if !t.enabled || !OnShuttle(old(shuttles), x.grid) || (!can && !t.isOn) then
          status == Completed && thrusters == old(thrusters) && shuttles == old(shuttles)
        else if !t.isOn then
          status == Completed && thrusters == old(thrusters)[uid := t.(isOn := true)]
          && shuttles == Enrol(old(shuttles), x, t.(isOn := true), uid)
        else if !can then
          status == Completed
          && thrusters == old(thrusters)[uid := SwitchedOff(t, OnShuttle(old(shuttles), oldX.grid))]
          && shuttles == Withdraw(old(shuttles), oldX.grid, oldX.rotation, t, uid)
        else
          thrusters == old(thrusters)
          && (oldX.grid != x.grid && !OnShuttle(old(shuttles), oldX.grid) ==>
                status == Threw(MissingShuttleComponent) && shuttles == old(shuttles))
          && (oldX.grid == x.grid && t.thrusterType == Angular ==>
                status == Completed && shuttles == old(shuttles))
          && (OnShuttle(old(shuttles), oldX.grid) && (oldX.grid != x.grid || t.thrusterType == Linear) ==>
                status == Completed
                && shuttles == Enrol(Withdraw(old(shuttles), oldX.grid, oldX.rotation, t, uid), x, t, uid))
      ensures Bookkeeping.Consistent(old(thrusters), old(xforms)[uid := oldX], old(shuttles))
              && (old(thrusters[uid].isOn) ==>
                    old(thrusters[uid].enabled) && OnShuttle(old(shuttles), xforms[uid].grid)
                    && OnShuttle(old(shuttles), oldX.grid))
              ==> Consistent()
    {
      ghost var th, sh := thrusters, shuttles;
      ghost var xfOld := xforms[uid := oldX];
      var t, x := thrusters[uid], xforms[uid];
      ghost var before := Bookkeeping.Consistent(th, xfOld, sh);
      if before {
        RestoreEntry(xforms, uid, oldX);
      }
      status := Completed;
      if !t.enabled || !OnShuttle(shuttles, x.grid) {
        if before && !t.isOn {
          IdleThrusterMayMove(th, xfOld, sh, uid, x);
        }
        return;
      }
      var canEnable := CanEnable(t, x, powered, tileIsSpace);
      if !canEnable && !t.isOn {
        if before {
          IdleThrusterMayMove(th, xfOld, sh, uid, x);
        }
        return;
      }
      if !t.isOn && canEnable {
        if before {
          IdleThrusterMayMove(th, xfOld, sh, uid, x);
        }
        EnableThruster(uid);
        return;
      }
      if t.isOn && !canEnable {
        if before {
          var off := SwitchedOff(t, OnShuttle(sh, oldX.grid));
          WithdrawKeepsConsistency(th, xfOld, sh, uid, off);
          IdleThrusterMayMove(th[uid := off], xfOld, Withdraw(sh, oldX.grid, oldX.rotation, t, uid), uid, x);
        }
        DisableThrusterAt(uid, oldX.grid, Some(oldX.rotation));
        return;
      }
      if before && OnShuttle(sh, oldX.grid) {
        if oldX.grid == x.grid && t.thrusterType == Angular {
          TurnInPlaceKeepsConsistency(th, xfOld, sh, uid, x);
        } else {
          MoveKeepsConsistency(th, xfOld, sh, uid, x);
        }
      }
      status := MoveContribution(uid, oldX);
    }

    /**
     * OnActivateThruster: an interaction that is already handled, is not
     * complex, or targets a fueled thruster (those are switched by the atmos
     * update only) does nothing. Otherwise Enabled flips; a thruster that is
     * now disabled is switched off, one that is now enabled is switched on
     * when it can be, and either of those marks the interaction handled.
     */
    method OnActivateThruster(uid: EntityUid, handled: bool, complex: bool, powered: bool, tileIsSpace: bool)
      returns (handledOut: bool)
      requires Valid() && uid in thrusters
      modifies this
      ensures Valid() && xforms == old(xforms)
      ensures var t, x := old(thrusters[uid]), xforms[uid];
        var toggled := t.(enabled := !t.enabled);
        if handled || !complex || t.isFueledThruster then
          handledOut == handled && thrusters == old(thrusters) && shuttles == old(shuttles)
        else if t.enabled && t.isOn then
          handledOut
          && thrusters == old(thrusters)[uid := SwitchedOff(toggled, OnShuttle(old(shuttles), x.grid))]
          && shuttles == Withdraw(old(shuttles), x.grid, x.rotation, toggled, uid)
        else if t.enabled || (t.isOn && CanEnable(toggled, x, powered, tileIsSpace)) then
          handledOut && thrusters == old(thrusters)[uid := toggled] && shuttles == old(shuttles)
        else if CanEnable(toggled, x, powered, tileIsSpace) then
          handledOut
          && thrusters == old(thrusters)[uid := toggled.(isOn := true)]
          && shuttles == Enrol(old(shuttles), x, toggled.(isOn := true), uid)
        else
          handledOut == handled && thrusters == old(thrusters)[uid := toggled] && shuttles == old(shuttles)
      ensures old(Consistent()) ==> Consistent()
    {
      handledOut := handled;
      var t := thrusters[uid];
      if handled || !complex || t.isFueledThruster {
        return;
      }
      var toggled := t.(enabled := !t.enabled);
      SameCountingUpdate(thrusters, xforms, shuttles, uid, toggled);
      thrusters := thrusters[uid := toggled];
      if !toggled.enabled {
        DisableThruster(uid);
        handledOut := true;
      } else if CanEnable(toggled, xforms[uid], powered, tileIsSpace) {
        EnableThruster(uid);
        handledOut := true;
      }
    }

    // -------------------------------------------------------------------------
    // Burning
    // -------------------------------------------------------------------------

    /**
     * Update at time now: every due thruster moves NextFire on by one
     * cooldown and, when it is firing, has a damage specifier and something
     * is in its exhaust, damages everything in its colliding list. Returns
     * the entities each thruster damaged.
     */
    method Update(now: int) returns (damaged: map<EntityUid, seq<EntityUid>>)
      requires Valid()
      modifies this
      ensures Valid() && xforms == old(xforms) && shuttles == old(shuttles)
      ensures thrusters == Ticked(old(thrusters), now)
      ensures damaged == Burns(old(thrusters), now)
      ensures old(Consistent()) ==> Consistent()
    {
      ghost var th0 := thrusters;
      var todo := thrusters.Keys;
      damaged := map[];
      TickedUpTo(th0, todo, now);
      while todo != {}
        invariant todo <= th0.Keys && xforms == old(xforms) && shuttles == old(shuttles)
        invariant thrusters == TickedExcept(th0, todo, now)
        invariant damaged == Burns(th0, now) - todo
        decreases todo
      {
        var u :| u in todo;
        var t := thrusters[u];
        TickOneMore(th0, todo, u, now);
        thrusters := thrusters[u := t.(burn := Tick(t.burn, now))];
        damaged := damaged[u := TickTargets(t.burn, now)];
        todo := todo - {u};
      }
      TickedUpTo(th0, todo, now);
      UpdateKeepsConsistency(th0, xforms, shuttles, now);
    }

    /** OnStartCollide: a contact with the burn fixture adds the other entity to the colliding list. */
    method OnStartCollide(uid: EntityUid, ourFixture: string, other: EntityUid)
      requires Valid() && uid in thrusters
      modifies this
      ensures Valid() && xforms == old(xforms) && shuttles == old(shuttles)
      ensures thrusters == old(thrusters)[uid := old(thrusters[uid]).(burn := StartCollide(old(thrusters[uid]).burn, ourFixture, other))]
      ensures old(Consistent()) ==> Consistent()
    {
      var t := thrusters[uid];
      var t' := t.(burn := StartCollide(t.burn, ourFixture, other));
      SameCountingUpdate(thrusters, xforms, shuttles, uid, t');
      thrusters := thrusters[uid := t'];
    }

    /** OnEndCollide: the end of a contact with the burn fixture removes one entry of the other entity. */
    method OnEndCollide(uid: EntityUid, ourFixture: string, other: EntityUid)
      requires Valid() && uid in thrusters
      modifies this
      ensures Valid() && xforms == old(xforms) && shuttles == old(shuttles)
      ensures thrusters == old(thrusters)[uid := old(thrusters[uid]).(burn := EndCollide(old(thrusters[uid]).burn, ourFixture, other))]
      ensures old(Consistent()) ==> Consistent()
    {
      var t := thrusters[uid];
      var t' := t.(burn := EndCollide(t.burn, ourFixture, other));
      SameCountingUpdate(thrusters, xforms, shuttles, uid, t');
      thrusters := thrusters[uid := t'];
    }

    // -------------------------------------------------------------------------
    // Firing by direction
    // -------------------------------------------------------------------------

    /** The loop the firing toggles share: Firing becomes on for every member of ids that has a thruster component. */
    method FireMembers(ids: set<EntityUid>, on: bool)
      requires Valid()
      modifies this
      ensures Valid() && xforms == old(xforms) && shuttles == old(shuttles)
      ensures thrusters == SetFiring(old(thrusters), ids, on)
      ensures old(Consistent()) ==> Consistent()
    {
      ghost var th0 := thrusters;
      var todo := ids;
      while todo != {}
        invariant todo <= ids && xforms == old(xforms) && shuttles == old(shuttles)
        invariant thrusters == SetFiring(th0, ids - todo, on)
        decreases todo
      {
        var u :| u in todo;
        if u in thrusters {
          SetFiringOneMore(th0, ids - todo, u, on);
          thrusters := thrusters[u := Fired(thrusters[u], on)];
        } else {
          SetFiringAbsent(th0, ids - todo, u, on);
        }
        assert ids - (todo - {u}) == (ids - todo) + {u};
        todo := todo - {u};
      }
      SetFiringKeepsConsistency(th0, xforms, shuttles, ids, on);
    }

    /**
     * EnableLinearThrustDirection: nothing when a bit of the flag is already
     * set. Otherwise the flag's bits are set and the bucket of its highest
     * bit fires; for DirectionFlag.None that index is negative and the
     * bucket lookup throws, with nothing changed.
     */
    method EnableLinearThrustDirection(g: EntityUid, flag: DirectionFlag) returns (status: Status)
      requires Valid() && g in shuttles && flag in AllFlags
      modifies this
      ensures Valid() && xforms == old(xforms)
      ensures var s := old(shuttles[g]);
        if s.thrustDirections & flag != 0 then
          status == Completed && thrusters == old(thrusters) && shuttles == old(shuttles)
        else if flag == FlagNone then
          status == Threw(FlagIndexOutOfRange) && thrusters == old(thrusters) && shuttles == old(shuttles)
        else
          && status == Completed
          && 0 <= GetFlagIndex(flag) < 4
          && shuttles == old(shuttles)[g := s.(thrustDirections := EnabledDirections(s.thrustDirections, flag))]
          && thrusters == SetFiring(old(thrusters), s.linearThrusters[GetFlagIndex(flag)], true)
      ensures old(Consistent()) ==> Consistent()
    {
      var s := shuttles[g];
      if s.thrustDirections & flag != 0 {
        return Completed;
      }
      TogglesKeepDirectionBits(s.thrustDirections, flag);
      ghost var sh0 := shuttles;
      shuttles := shuttles[g := s.(thrustDirections := EnabledDirections(s.thrustDirections, flag))];
      MaskChangeKeepsConsistency(thrusters, xforms, sh0, g, EnabledDirections(s.thrustDirections, flag));
      if flag != FlagNone {
        FlagIndexOfDeclaredFlags(flag);
      }
      var index := GetFlagIndex(flag);
      if !(0 <= index < 4) {
        assert flag == FlagNone;
        assert s.(thrustDirections := EnabledDirections(s.thrustDirections, flag)) == s;
        assert sh0[g := s] == sh0;
        return Threw(FlagIndexOutOfRange);
      }
      FireMembers(s.linearThrusters[index], true);
      status := Completed;
    }

    /**
     * DisableLinearThrustDirection: nothing when no bit of the flag is set.
     * Otherwise the flag's bits are cleared and the bucket of its highest bit
     * stops firing.
     */
    method DisableLinearThrustDirection(g: EntityUid, flag: DirectionFlag)
      requires Valid() && g in shuttles && flag in AllFlags
      modifies this
      ensures Valid() && xforms == old(xforms)
      ensures var s := old(shuttles[g]);
        if s.thrustDirections & flag == 0 then
          thrusters == old(thrusters) && shuttles == old(shuttles)
        else
          && 0 <= GetFlagIndex(flag) < 4
          && shuttles == old(shuttles)[g := s.(thrustDirections := DisabledDirections(s.thrustDirections, flag))]
          && thrusters == SetFiring(old(thrusters), s.linearThrusters[GetFlagIndex(flag)], false)
      ensures old(Consistent()) ==> Consistent()
    {
      var s := shuttles[g];
      if s.thrustDirections & flag == 0 {
        return;
      }
      TogglesKeepDirectionBits(s.thrustDirections, flag);
      ghost var sh0 := shuttles;
      shuttles := shuttles[g := s.(thrustDirections := DisabledDirections(s.thrustDirections, flag))];
      MaskChangeKeepsConsistency(thrusters, xforms, sh0, g, DisabledDirections(s.thrustDirections, flag));
      FlagIndexOfDeclaredFlags(flag);
      FireMembers(s.linearThrusters[GetFlagIndex(flag)], false);
    }

    /**
     * DisableLinearThrusters: disables every declared flag in turn. Every set
     * bit's bucket stops firing and the mask ends empty, as the closing debug
     * assertion demands.
     */
    method DisableLinearThrusters(g: EntityUid)
      requires Valid() && g in shuttles
      modifies this
      ensures Valid() && xforms == old(xforms)
      ensures shuttles == old(shuttles)[g := old(shuttles[g]).(thrustDirections := FlagNone)]
      ensures thrusters == SetFiring(old(thrusters), LinearMembers(old(shuttles[g]), ActiveIndices(old(shuttles[g]).thrustDirections)), false)
      ensures old(Consistent()) ==> Consistent()
    {
      ghost var th0, sh0 := thrusters, shuttles;
      SweepStart(shuttles[g].thrustDirections);
      for k := 0 to |AllFlags|
        invariant Valid() && xforms == old(xforms)
        invariant SweptUpTo(th0, sh0, g, k, thrusters, shuttles)
      {
        DisableFlag(g, k, th0, sh0);
      }
      SweepFinished(th0, xforms, sh0, g, thrusters, shuttles);
    }

    /** One iteration of DisableLinearThrusters: flag k is disabled. */
    method DisableFlag(g: EntityUid, k: nat, ghost th0: map<EntityUid, Thruster>, ghost sh0: map<EntityUid, Shuttle>)
      requires Valid() && g in shuttles && k < |AllFlags| && SweptUpTo(th0, sh0, g, k, thrusters, shuttles)
      modifies this
      ensures Valid() && xforms == old(xforms) && SweptUpTo(th0, sh0, g, k + 1, thrusters, shuttles)
    {
      ghost var th1, sh1 := thrusters, shuttles;
      DisableLinearThrustDirection(g, AllFlags[k]);
      SweepState(th0, sh0, g, k, th1, sh1, thrusters, shuttles);
    }

    /** SetAngularThrust: every angular thruster of the shuttle starts or stops firing. */
    method SetAngularThrust(g: EntityUid, on: bool)
      requires Valid() && g in shuttles
      modifies this
      ensures Valid() && xforms == old(xforms) && shuttles == old(shuttles)
      ensures thrusters == SetFiring(old(thrusters), shuttles[g].angularThrusters, on)
      ensures old(Consistent()) ==> Consistent()
    {
      FireMembers(shuttles[g].angularThrusters, on);
    }
  }
}
