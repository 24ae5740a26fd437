/**
 * EsThrusterSystem (Content.Server/Shuttles/Systems/EsThrusterSystem.cs): the
 * refactored variant of ThrusterSystem. Part of it is unfinished in the
 * source: TryEnableThruster stops after its lookups, and CanThrusterEnable
 * refuses every thruster that requires space. What it does implement is the
 * thrust contribution update, the enable guard, the nozzle check, the damage
 * tick, the contact handlers and the firing toggles by direction.
 *
 * As in ThrusterSystems, the component stores are maps from entity id to
 * component value. Unlike there, a thruster's transform may be missing: the
 * handlers resolve it and take a branch when it cannot be resolved.
 */
module EsThrusterSystems {
  import opened Wrappers
  import opened Directions
  import opened Burning
  import opened ThrusterData
  import opened ShuttleThrust
  import opened Bookkeeping
  import ThrusterSystems

  // ---------------------------------------------------------------------------
  // Data
  // ---------------------------------------------------------------------------

  /** EsThrusterType: the two declared kinds, and any other value the enum field can hold. */
  datatype EsThrusterType = EsLinear | EsAngular | EsUndeclared(value: int)

  /** The shuttle bucket kind of a declared thruster type. */
  function BucketKind(k: EsThrusterType): ThrusterType
    requires !k.EsUndeclared?
  {
    if k.EsLinear? then Linear else Angular
  }

  /**
   * The fields of EsThrusterComponent the system reads or writes
   * (EsThrusterComponent.cs is not part of this model): whether it is on,
   * the Enabled toggle, the component's lifecycle stage, whether it needs
   * power or space, its type, and its burn state (Firing, Colliding, whether
   * Damage is set, DamageCooldown, NextFire).
   */
  datatype EsThruster = EsThruster(
    isOn: bool,
    enabled: bool,
    lifeStage: LifeStage,
    requirePower: bool,
    requireSpace: bool,
    thrusterType: EsThrusterType,
    burn: BurnState)

  // ---------------------------------------------------------------------------
  // Queries
  // ---------------------------------------------------------------------------

  /**
   * CanThrusterEnable: refuses, in this order, a disabled thruster, one whose
   * component is past Running, one whose transform resolves and is not
   * anchored, one that requires power and is unpowered, and one that
   * requires space; accepts every other. A transform that cannot be resolved
   * skips the anchoring check.
   */
  function CanThrusterEnable(t: EsThruster, x: Option<Xform>, powered: bool): (r: bool)
    ensures r <==> && t.enabled
                   && !PastRunning(t.lifeStage)
                   && (x.Some? ==> x.value.anchored)
                   && (t.requirePower ==> powered)
                   && !t.requireSpace
  {
    if !t.enabled then false
    else if PastRunning(t.lifeStage) then false
    else if x.Some? && !x.value.anchored then false
    else if t.requirePower && !powered then false
    else if t.requireSpace then false
    else true
  }

  /**
   * The two guards side by side: for a thruster that is not fueled, with a
   * resolved transform, that requires power and not space, CanThrusterEnable
   * and ThrusterSystem's CanEnable agree. Where they part: a thruster that
   * requires space, whose nozzle is exposed, passes CanEnable but never
   * CanThrusterEnable; an unpowered thruster that does not require power
   * fails CanEnable but passes CanThrusterEnable.
   */
  lemma GuardsCompared(t: Thruster, e: EsThruster, x: Xform, powered: bool, tileIsSpace: bool)
    requires !t.isFueledThruster && e.enabled == t.enabled && e.lifeStage == t.lifeStage
    ensures !t.requireSpace && e.requirePower && !e.requireSpace ==>
      (CanThrusterEnable(e, Some(x), powered) <==> ThrusterSystems.CanEnable(t, x, powered, tileIsSpace))
    ensures t.requireSpace && e.requireSpace && ThrusterSystems.NozzleExposed(x, tileIsSpace) ==>
      !CanThrusterEnable(e, Some(x), powered)
      && (ThrusterSystems.CanEnable(t, x, powered, tileIsSpace)
          <==> t.enabled && !PastRunning(t.lifeStage) && x.anchored && powered)
    ensures !powered && !e.requirePower && !e.requireSpace ==>
      !ThrusterSystems.CanEnable(t, x, powered, tileIsSpace)
      && (CanThrusterEnable(e, Some(x), powered) <==> e.enabled && !PastRunning(e.lifeStage) && x.anchored)
  {
  }

  /**
   * IsNozzleExposed: a transform that cannot be resolved is not exposed;
   * otherwise as ThrusterSystem's NozzleExposed: exposed on no grid, and on a
   * grid when the tile behind the nozzle is space (the parameter tileIsSpace).
   */
  function IsNozzleExposed(x: Option<Xform>, tileIsSpace: bool): (r: bool)
    ensures x.None? ==> !r
    ensures x.Some? ==> (r <==> ThrusterSystems.NozzleExposed(x.value, tileIsSpace))
  {
    if x.None? then false
    else if x.value.grid.None? then true
    else tileIsSpace
  }

  // ---------------------------------------------------------------------------
  // Thrust contribution
  // ---------------------------------------------------------------------------

  /**
   * ModifyThrustContribution's debug assertion is exactly what a change of
   * thrust needs: for a thruster counted only in the bucket it faces, or in
   * none, moving that bucket by x minus the thrust it was counted with keeps
   * every bucket matching if and only if the thruster is a member of that
   * bucket or its thrust does not change.
   */
  lemma ContributionNeedsMembership(s: Shuttle, thrust: map<EntityUid, real>, kind: ThrusterType, d: nat,
                                    u: EntityUid, x: real)
    requires BucketsMatch(s, thrust) && d < 4 && u in thrust
    requires OnlyIn(s, kind, d, u) || InNoBucket(s, u)
    ensures BucketsMatch(ApplyDelta(s, kind, d, x - thrust[u]), thrust[u := x])
        <==> u in Members(s, kind, d) || x == thrust[u]
  {
    RefreshKeepsBucketsMatchIff(s, thrust, kind, d, u, x, thrust[u]);
  }

  /** Moving a bucket by delta and then by -delta restores the shuttle. */
  lemma ContributionRoundTrip(s: Shuttle, kind: ThrusterType, d: nat, delta: real)
    requires WellFormed(s) && d < 4
    ensures ApplyDelta(ApplyDelta(s, kind, d, delta), kind, d, -delta) == s
  {
    match kind
    case Linear =>
      assert ApplyDelta(ApplyDelta(s, kind, d, delta), kind, d, -delta).linearThrust == s.linearThrust;
    case Angular =>
  }

  // ---------------------------------------------------------------------------
  // Firing
  // ---------------------------------------------------------------------------

  /** A thruster with Firing set to on. */
  function EsFired(t: EsThruster, on: bool): EsThruster
  {
    t.(burn := t.burn.(firing := on))
  }

  /**
   * The thrusters after Firing is set to on for every member of ids;
   * members without a thruster component are skipped.
   */
  function EsSetFiring(th: map<EntityUid, EsThruster>, ids: set<EntityUid>, on: bool): (r: map<EntityUid, EsThruster>)
    ensures r.Keys == th.Keys
  {
    map u | u in th :: if u in ids then EsFired(th[u], on) else th[u]
  }

  /** Firing one more thruster u that was not yet set. */
  lemma EsSetFiringOneMore(th: map<EntityUid, EsThruster>, done: set<EntityUid>, u: EntityUid, on: bool)
    requires u in th && u !in done
    ensures EsSetFiring(th, done, on)[u := EsFired(th[u], on)] == EsSetFiring(th, done + {u}, on)
  {
  }

  /** Skipping an id without a thruster component changes nothing. */
  lemma EsSetFiringAbsent(th: map<EntityUid, EsThruster>, done: set<EntityUid>, u: EntityUid, on: bool)
    requires u !in th
    ensures EsSetFiring(th, done, on) == EsSetFiring(th, done + {u}, on)
  {
  }

  /** Setting Firing on one set of thrusters and then another is setting it on both. */
  lemma EsSetFiringUnion(th: map<EntityUid, EsThruster>, a: set<EntityUid>, b: set<EntityUid>, on: bool)
    ensures EsSetFiring(EsSetFiring(th, a, on), b, on) == EsSetFiring(th, a + b, on)
  {
  }

  /**
   * The firing toggles: setting Firing on a set of thrusters sets it on
   * exactly those that have a component, touches nothing else of them, and
   * doing it twice is doing it once.
   */
  lemma EsSetFiringEffect(th: map<EntityUid, EsThruster>, ids: set<EntityUid>, on: bool, u: EntityUid)
    requires u in th
    ensures u in ids ==> EsSetFiring(th, ids, on)[u].burn.firing == on
    ensures EsSetFiring(th, ids, on)[u].(burn := th[u].burn) == th[u]
    ensures EsSetFiring(th, ids, on)[u].burn.(firing := th[u].burn.firing) == th[u].burn
    ensures u !in ids ==> EsSetFiring(th, ids, on)[u] == th[u]
    ensures EsSetFiring(EsSetFiring(th, ids, on), ids, on) == EsSetFiring(th, ids, on)
  {
    EsSetFiringUnion(th, ids, ids, on);
    assert ids + ids == ids;
  }

  // ---------------------------------------------------------------------------
  // DisableLinearThrusters
  // ---------------------------------------------------------------------------

  /**
   * The state of DisableLinearThrusters before flag k: the mask of grid g
   * holds the original bits outside those already visited, and the
   * thrusters of the buckets of the set bits already visited stopped firing.
   */
  ghost predicate EsSweptUpTo(th0: map<EntityUid, EsThruster>, sh0: map<EntityUid, Shuttle>, g: EntityUid, k: nat,
                              th: map<EntityUid, EsThruster>, sh: map<EntityUid, Shuttle>)
  {
    && g in sh0 && WellFormed(sh0[g]) && k <= |AllFlags|
    && sh == sh0[g := sh0[g].(thrustDirections := sh0[g].thrustDirections & !SweptBits(k))]
    && th == EsSetFiring(th0, LinearMembers(sh0[g], ActiveIndices(sh0[g].thrustDirections & SweptBits(k))), false)
  }

  /**
   * The state after flag k of DisableLinearThrusters, from the state before
   * it and what DisableLinearThrustDirection does with flag k.
   */
  lemma EsSweepState(th0: map<EntityUid, EsThruster>, sh0: map<EntityUid, Shuttle>, g: EntityUid, k: nat,
                     th1: map<EntityUid, EsThruster>, sh1: map<EntityUid, Shuttle>,
                     th2: map<EntityUid, EsThruster>, sh2: map<EntityUid, Shuttle>)
    requires EsSweptUpTo(th0, sh0, g, k, th1, sh1) && k < |AllFlags|
    requires var s, f := sh1[g], AllFlags[k];
      if s.thrustDirections & f == 0 then th2 == th1 && sh2 == sh1
      else
        && 0 <= GetFlagIndex(f) < 4
        && sh2 == sh1[g := s.(thrustDirections := DisabledDirections(s.thrustDirections, f))]
        && th2 == EsSetFiring(th1, s.linearThrusters[GetFlagIndex(f)], false)
    ensures EsSweptUpTo(th0, sh0, g, k + 1, th2, sh2)
  {
    var s0, mask := sh0[g], sh0[g].thrustDirections;
    var m, f := mask & !SweptBits(k), AllFlags[k];
    SweepStep(mask, k);
    if m & f != 0 {
      var i := GetFlagIndex(f);
      LinearMembersAdd(s0, ActiveIndices(mask & SweptBits(k)), i);
      EsSetFiringUnion(th0, LinearMembers(s0, ActiveIndices(mask & SweptBits(k))), s0.linearThrusters[i], false);
      ThrusterSystems.OverwriteEntry(sh0, g, s0.(thrustDirections := m), s0.(thrustDirections := m & !f));
    } else {
      assert m == m & !f;
    }
  }

  /** After the last flag DisableLinearThrusters has emptied the mask and cleared every set bit's bucket. */
  lemma EsSweepFinished(th0: map<EntityUid, EsThruster>, sh0: map<EntityUid, Shuttle>, g: EntityUid,
                        th: map<EntityUid, EsThruster>, sh: map<EntityUid, Shuttle>)
    requires EsSweptUpTo(th0, sh0, g, |AllFlags|, th, sh)
    ensures sh == sh0[g := sh0[g].(thrustDirections := FlagNone)]
    ensures th == EsSetFiring(th0, LinearMembers(sh0[g], ActiveIndices(sh0[g].thrustDirections)), false)
  {
    SweepComplete(sh0[g].thrustDirections);
  }

  // ---------------------------------------------------------------------------
  // Burning
  // ---------------------------------------------------------------------------

  /** Every thruster after the update at time now: each due one moves NextFire on by its DamageCooldown. */
  function EsTicked(th: map<EntityUid, EsThruster>, now: int): (r: map<EntityUid, EsThruster>)
    ensures r.Keys == th.Keys
  {
    map u | u in th :: th[u].(burn := Tick(th[u].burn, now))
  }

  /** The thrusters part way through the update: those in todo are not yet visited. */
  function EsTickedExcept(th: map<EntityUid, EsThruster>, todo: set<EntityUid>, now: int): map<EntityUid, EsThruster>
  {
    map u | u in th :: if u in todo then th[u] else th[u].(burn := Tick(th[u].burn, now))
  }

  /** The entities each thruster damages in the update at time now. */
  function EsBurns(th: map<EntityUid, EsThruster>, now: int): (r: map<EntityUid, seq<EntityUid>>)
    ensures r.Keys == th.Keys
  {
    map u | u in th :: TickTargets(th[u].burn, now)
  }

  /** Visiting one more thruster of todo. */
  lemma EsTickOneMore(th: map<EntityUid, EsThruster>, todo: set<EntityUid>, u: EntityUid, now: int)
    requires u in todo && todo <= th.Keys
    ensures EsTickedExcept(th, todo, now)[u := th[u].(burn := Tick(th[u].burn, now))] == EsTickedExcept(th, todo - {u}, now)
    ensures (EsBurns(th, now) - todo)[u := TickTargets(th[u].burn, now)] == EsBurns(th, now) - (todo - {u})
  {
  }

  /** Before the loop nothing is visited; with nothing left to visit every thruster is. */
  lemma EsTickedUpTo(th: map<EntityUid, EsThruster>, todo: set<EntityUid>, now: int)
    ensures todo == th.Keys ==> EsTickedExcept(th, todo, now) == th && EsBurns(th, now) - todo == map[]
    ensures todo == {} ==> EsTickedExcept(th, todo, now) == EsTicked(th, now) && EsBurns(th, now) - todo == EsBurns(th, now)
  {
  }

  /**
   * What an update does to each thruster: a thruster that is not yet due is
   * unchanged and damages nothing; a due one moves NextFire on by exactly its
   * DamageCooldown and changes nothing else; it damages anything exactly when
   * it is due, firing, has a damage specifier and something is in its
   * exhaust, and then it damages its whole colliding list.
   */
  lemma EsUpdateEffect(th: map<EntityUid, EsThruster>, now: int, u: EntityUid)
    requires u in th
    ensures var t, t' := th[u], EsTicked(th, now)[u];
      && (t.burn.nextFire > now ==> t' == t && EsBurns(th, now)[u] == [])
      && (t.burn.nextFire <= now ==> t' == t.(burn := t.burn.(nextFire := t.burn.nextFire + t.burn.cooldown)))
      && (EsBurns(th, now)[u] != [] <==> t.burn.nextFire <= now && t.burn.firing && t.burn.hasDamage && t.burn.colliding != [])
      && (EsBurns(th, now)[u] != [] ==> EsBurns(th, now)[u] == t.burn.colliding)
  {
    TickEffect(th[u].burn, now);
  }

  // ---------------------------------------------------------------------------
  // The system
  // ---------------------------------------------------------------------------

  class EsThrusterSystem {
    /** The thruster components, by entity. */
    var thrusters: map<EntityUid, EsThruster>
    /** The transforms, by entity; an entity without one has no entry. */
    var xforms: map<EntityUid, Xform>
    /** The shuttle components, by grid entity. */
    var shuttles: map<EntityUid, Shuttle>

    /** Every shuttle has its four linear buckets and a mask within the four direction bits. */
    ghost predicate Valid()
      reads this
    {
      ShuttlesWellFormed(shuttles)
    }

    /**
     * TryEnableThruster: true for a thruster that is already on; otherwise
     * false when its transform cannot be resolved or its grid has no shuttle,
     * and true when it does. Nothing is switched on.
     */
    method TryEnableThruster(uid: EntityUid) returns (r: bool)
      requires uid in thrusters
      ensures r <==> thrusters[uid].isOn || (uid in xforms && OnShuttle(shuttles, xforms[uid].grid))
      ensures r && !thrusters[uid].isOn ==> uid in xforms && xforms[uid].grid.Some? && xforms[uid].grid.value in shuttles
    {
      if thrusters[uid].isOn {
        return true;
      }
      if uid !in xforms || !OnShuttle(shuttles, xforms[uid].grid) {
        return false;
      }
      return true;
    }

    /**
     * ModifyThrustContribution: the bucket of grid g that the thruster's type
     * and facing select moves by delta, and membership is untouched. The
     * debug assertion (the thruster is a member of that bucket) is returned
     * as memberAsserted; a type outside the declared ones throws before
     * anything changes.
     */
    method ModifyThrustContribution(uid: EntityUid, g: EntityUid, delta: real) returns (status: Status, memberAsserted: bool)
      requires Valid() && uid in thrusters && uid in xforms && g in shuttles
      modifies this
      ensures Valid() && thrusters == old(thrusters) && xforms == old(xforms)
      ensures var k, s, d := thrusters[uid].thrusterType, old(shuttles[g]), CardinalIndex(xforms[uid].rotation);
        if k.EsUndeclared? then
          status == Threw(InvalidThrusterType) && !memberAsserted && shuttles == old(shuttles)
        else
          && status == Completed
          && memberAsserted == (uid in Members(s, BucketKind(k), d))
          && shuttles == old(shuttles)[g := ApplyDelta(s, BucketKind(k), d, delta)]
    {
      var s := shuttles[g];
      match thrusters[uid].thrusterType
      case EsLinear =>
        var direction := CardinalIndex(xforms[uid].rotation);
        memberAsserted := uid in s.linearThrusters[direction];
        shuttles := shuttles[g := s.(linearThrust := s.linearThrust[direction := s.linearThrust[direction] + delta])];
        status := Completed;
      case EsAngular =>
        memberAsserted := uid in s.angularThrusters;
        shuttles := shuttles[g := s.(angularThrust := s.angularThrust + delta)];
        status := Completed;
      case EsUndeclared(_) =>
        return Threw(InvalidThrusterType), false;
    }

    /** OnStartCollide: a contact with the burn fixture adds the other entity to the colliding list. */
    method OnStartCollide(uid: EntityUid, ourFixture: string, other: EntityUid)
      requires uid in thrusters
      modifies this
      ensures xforms == old(xforms) && shuttles == old(shuttles)
      ensures thrusters == old(thrusters)[uid := old(thrusters[uid]).(burn := StartCollide(old(thrusters[uid]).burn, ourFixture, other))]
    {
      var t := thrusters[uid];
      thrusters := thrusters[uid := t.(burn := StartCollide(t.burn, ourFixture, other))];
    }

    /** OnEndCollide: the end of a contact with the burn fixture removes one entry of the other entity. */
    method OnEndCollide(uid: EntityUid, ourFixture: string, other: EntityUid)
      requires uid in thrusters
      modifies this
      ensures xforms == old(xforms) && shuttles == old(shuttles)
      ensures thrusters == old(thrusters)[uid := old(thrusters[uid]).(burn := EndCollide(old(thrusters[uid]).burn, ourFixture, other))]
    {
      var t := thrusters[uid];
      thrusters := thrusters[uid := t.(burn := EndCollide(t.burn, ourFixture, other))];
    }

    /**
     * Update at time now: every due thruster moves NextFire on by its
     * DamageCooldown and, when it is firing, has a damage specifier and
     * something is in its exhaust, damages everything in its colliding list.
     * Returns the entities each thruster damaged.
     */
    method Update(now: int) returns (damaged: map<EntityUid, seq<EntityUid>>)
      modifies this
      ensures xforms == old(xforms) && shuttles == old(shuttles)
      ensures thrusters == EsTicked(old(thrusters), now)
      ensures damaged == EsBurns(old(thrusters), now)
    {
      ghost var th0 := thrusters;
      var todo := thrusters.Keys;
      damaged := map[];
      EsTickedUpTo(th0, todo, now);
      while todo != {}
        invariant todo <= th0.Keys && xforms == old(xforms) && shuttles == old(shuttles)
        invariant thrusters == EsTickedExcept(th0, todo, now)
        invariant damaged == EsBurns(th0, now) - todo
        decreases todo
      {
        var u :| u in todo;
        var t := thrusters[u];
        EsTickOneMore(th0, todo, u, now);
        thrusters := thrusters[u := t.(burn := Tick(t.burn, now))];
        damaged := damaged[u := TickTargets(t.burn, now)];
        todo := todo - {u};
      }
      EsTickedUpTo(th0, todo, now);
    }

    /** SetThrusterFiringState: Firing becomes state; the appearance update is not modelled. */
    method SetThrusterFiringState(uid: EntityUid, state: bool)
      requires uid in thrusters
      modifies this
      ensures xforms == old(xforms) && shuttles == old(shuttles)
      ensures thrusters == old(thrusters)[uid := EsFired(old(thrusters[uid]), state)]
    {
      thrusters := thrusters[uid := EsFired(thrusters[uid], state)];
    }

    /** The loop the firing toggles share: each member of ids that has a thruster component gets Firing set to on. */
    method FireMembers(ids: set<EntityUid>, on: bool)
      modifies this
      ensures xforms == old(xforms) && shuttles == old(shuttles)
      ensures thrusters == EsSetFiring(old(thrusters), ids, on)
    {
      ghost var th0 := thrusters;
      var todo := ids;
      while todo != {}
        invariant todo <= ids && xforms == old(xforms) && shuttles == old(shuttles)
        invariant thrusters == EsSetFiring(th0, ids - todo, on)
        decreases todo
      {
        var u :| u in todo;
        if u in thrusters {
          EsSetFiringOneMore(th0, ids - todo, u, on);
          SetThrusterFiringState(u, on);
        } else {
          EsSetFiringAbsent(th0, ids - todo, u, on);
        }
        assert ids - (todo - {u}) == (ids - todo) + {u};
        todo := todo - {u};
      }
    }

    /**
     * EnableLinearThrustDirection: nothing when a bit of the flag is already
     * set. Otherwise the flag's bits are set and the bucket of its highest
     * bit fires; for DirectionFlag.None that index is negative and the
     * bucket lookup throws after the (unchanged) mask is stored.
     */
    method EnableLinearThrustDirection(g: EntityUid, flag: DirectionFlag) returns (status: Status)
      requires Valid() && g in shuttles && flag in AllFlags
      modifies this
      ensures Valid() && xforms == old(xforms)
      ensures var s := old(shuttles[g]);
        if s.thrustDirections & flag != 0 then
          status == Completed && thrusters == old(thrusters) && shuttles == old(shuttles)
        else if flag == FlagNone then
          status == Threw(FlagIndexOutOfRange) && thrusters == old(thrusters) && shuttles == old(shuttles)
        else
          && status == Completed
          && 0 <= GetFlagIndex(flag) < 4
          && shuttles == old(shuttles)[g := s.(thrustDirections := EnabledDirections(s.thrustDirections, flag))]
          && thrusters == EsSetFiring(old(thrusters), s.linearThrusters[GetFlagIndex(flag)], true)
    {
      var s := shuttles[g];
      if s.thrustDirections & flag != 0 {
        return Completed;
      }
      TogglesKeepDirectionBits(s.thrustDirections, flag);
      ghost var sh0 := shuttles;
      shuttles := shuttles[g := s.(thrustDirections := EnabledDirections(s.thrustDirections, flag))];
      if flag != FlagNone {
        FlagIndexOfDeclaredFlags(flag);
      }
      var index := GetFlagIndex(flag);
      if !(0 <= index < 4) {
        assert s.(thrustDirections := EnabledDirections(s.thrustDirections, flag)) == s;
        assert sh0[g := s] == sh0;
        return Threw(FlagIndexOutOfRange);
      }
      FireMembers(s.linearThrusters[index], true);
      status := Completed;
    }

    /**
     * DisableLinearThrustDirection: nothing when no bit of the flag is set.
     * Otherwise the flag's bits are cleared and the bucket of its highest bit
     * stops firing.
     */
    method DisableLinearThrustDirection(g: EntityUid, flag: DirectionFlag)
      requires Valid() && g in shuttles && flag in AllFlags
      modifies this
      ensures Valid() && xforms == old(xforms)
      ensures var s := old(shuttles[g]);
        if s.thrustDirections & flag == 0 then
          thrusters == old(thrusters) && shuttles == old(shuttles)
        else
          && 0 <= GetFlagIndex(flag) < 4
          && shuttles == old(shuttles)[g := s.(thrustDirections := DisabledDirections(s.thrustDirections, flag))]
          && thrusters == EsSetFiring(old(thrusters), s.linearThrusters[GetFlagIndex(flag)], false)
    {
      var s := shuttles[g];
      if s.thrustDirections & flag == 0 {
        return;
      }
      TogglesKeepDirectionBits(s.thrustDirections, flag);
      shuttles := shuttles[g := s.(thrustDirections := DisabledDirections(s.thrustDirections, flag))];
      FlagIndexOfDeclaredFlags(flag);
      FireMembers(s.linearThrusters[GetFlagIndex(flag)], false);
    }

    /**
     * DisableLinearThrusters: disables every declared flag in turn. Every set
     * bit's bucket stops firing and the mask ends empty, as the closing debug
     * assertion demands.
     */
    method DisableLinearThrusters(g: EntityUid)
      requires Valid() && g in shuttles
      modifies this
      ensures Valid() && xforms == old(xforms)
      ensures shuttles == old(shuttles)[g := old(shuttles[g]).(thrustDirections := FlagNone)]
      ensures thrusters == EsSetFiring(old(thrusters), LinearMembers(old(shuttles[g]), ActiveIndices(old(shuttles[g]).thrustDirections)), false)
    {
      ghost var th0, sh0 := thrusters, shuttles;
      SweepStart(shuttles[g].thrustDirections);
      for k := 0 to |AllFlags|
        invariant Valid() && xforms == old(xforms)
        invariant EsSweptUpTo(th0, sh0, g, k, thrusters, shuttles)
      {
        DisableFlag(g, k, th0, sh0);
      }
      EsSweepFinished(th0, sh0, g, thrusters, shuttles);
    }

    /** One iteration of DisableLinearThrusters: flag k is disabled. */
    method DisableFlag(g: EntityUid, k: nat, ghost th0: map<EntityUid, EsThruster>, ghost sh0: map<EntityUid, Shuttle>)
      requires Valid() && g in shuttles && k < |AllFlags| && EsSweptUpTo(th0, sh0, g, k, thrusters, shuttles)
      modifies this
      ensures Valid() && xforms == old(xforms) && EsSweptUpTo(th0, sh0, g, k + 1, thrusters, shuttles)
    {
      ghost var th1, sh1 := thrusters, shuttles;
      DisableLinearThrustDirection(g, AllFlags[k]);
      EsSweepState(th0, sh0, g, k, th1, sh1, thrusters, shuttles);
    }

    /** SetAngularThrust: every angular thruster of the shuttle starts or stops firing. */
    method SetAngularThrust(g: EntityUid, on: bool)
      requires g in shuttles
      modifies this
      ensures xforms == old(xforms) && shuttles == old(shuttles)
      ensures thrusters == EsSetFiring(old(thrusters), shuttles[g].angularThrusters, on)
    {
      if on {
        FireMembers(shuttles[g].angularThrusters, true);
      } else {
        FireMembers(shuttles[g].angularThrusters, false);
      }
    }
  }
}
