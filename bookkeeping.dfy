/**
 * The bookkeeping invariant between thrusters and the shuttles they push
 * (Content.Server/Shuttles/Systems/ThrusterSystem.cs, EnableThruster,
 * DisableThruster and OnRotate).
 *
 * Components live in maps from entity id to component value. A thruster is
 * counted by a shuttle exactly when it is on and stands on that shuttle's
 * grid: a linear thruster in the bucket of the cardinal direction it faces,
 * an angular thruster in the rotation bucket. The invariant has two halves:
 * membership agrees with that rule, and every bucket's total is the sum of
 * its members' thrust. Enabling and disabling update both halves together.
 */
module Bookkeeping {
  import opened Wrappers
  import opened Directions
  import opened ThrusterData
  import opened ShuttleThrust

  /** The thrust of every thruster, by entity. */
  function ThrustOf(th: map<EntityUid, Thruster>): (m: map<EntityUid, real>)
    ensures m.Keys == th.Keys
    ensures forall u :: u in th ==> m[u] == th[u].thrust
  {
    map u | u in th :: th[u].thrust
  }

  predicate ShuttlesWellFormed(sh: map<EntityUid, Shuttle>)
  {
    forall g :: g in sh ==> WellFormed(sh[g])
  }

  /** The grid exists and has a shuttle component. */
  predicate OnShuttle(sh: map<EntityUid, Shuttle>, grid: Option<EntityUid>)
  {
    grid.Some? && grid.value in sh
  }

  /** A thruster in this state, standing at x, belongs in linear bucket d of grid g. */
  predicate InLinearBucket(t: Thruster, x: Xform, g: EntityUid, d: nat)
  {
    t.isOn && t.thrusterType == Linear && x.grid == Some(g) && CardinalIndex(x.rotation) == d
  }

  /** A thruster in this state, standing at x, belongs in the rotation bucket of grid g. */
  predicate InAngularBucket(t: Thruster, x: Xform, g: EntityUid)
  {
    t.isOn && t.thrusterType == Angular && x.grid == Some(g)
  }

  /** Shuttle s of grid g counts exactly the thrusters that belong in its buckets. */
  ghost predicate ShuttleAgrees(s: Shuttle, g: EntityUid, th: map<EntityUid, Thruster>, xf: map<EntityUid, Xform>)
    requires WellFormed(s)
  {
    && (forall d, u :: 0 <= d < 4 && u in s.linearThrusters[d] ==>
          u in th && u in xf && InLinearBucket(th[u], xf[u], g, d))
    && (forall u :: u in s.angularThrusters ==> u in th && u in xf && InAngularBucket(th[u], xf[u], g))
    && (forall u :: u in th && u in xf && th[u].isOn && xf[u].grid == Some(g) ==>
          u in Members(s, th[u].thrusterType, CardinalIndex(xf[u].rotation)))
  }

  /** Every shuttle counts exactly the thrusters that belong in its buckets. */
  ghost predicate MembershipAgrees(th: map<EntityUid, Thruster>, xf: map<EntityUid, Xform>, sh: map<EntityUid, Shuttle>)
  {
    && th.Keys <= xf.Keys
    && ShuttlesWellFormed(sh)
    && (forall g :: g in sh ==> ShuttleAgrees(sh[g], g, th, xf))
  }

  /** Every shuttle's buckets hold the sum of their members' thrust. */
  ghost predicate TotalsMatch(sh: map<EntityUid, Shuttle>, thrust: map<EntityUid, real>)
  {
    forall g :: g in sh ==> BucketsMatch(sh[g], thrust)
  }

  ghost predicate Consistent(th: map<EntityUid, Thruster>, xf: map<EntityUid, Xform>, sh: map<EntityUid, Shuttle>)
  {
    MembershipAgrees(th, xf, sh) && TotalsMatch(sh, ThrustOf(th))
  }

  /** Updating one thruster's entry changes its thrust, and no other, in ThrustOf. */
  lemma ThrustOfUpdate(th: map<EntityUid, Thruster>, uid: EntityUid, t': Thruster)
    ensures ThrustOf(th[uid := t']) == ThrustOf(th)[uid := t'.thrust]
  {
  }

  lemma ThrustOfSameThrust(th: map<EntityUid, Thruster>, uid: EntityUid, t': Thruster)
    requires uid in th && t'.thrust == th[uid].thrust
    ensures ThrustOf(th[uid := t']) == ThrustOf(th)
  {
  }

  lemma RestoreEntry<V>(m: map<EntityUid, V>, k: EntityUid, v: V)
    requires k in m
    ensures m[k := v][k := m[k]] == m
  {
  }

  // ---------------------------------------------------------------------------
  // The shuttle updates of enabling and disabling
  // ---------------------------------------------------------------------------

  /** EnableThruster's shuttle update: if x's grid is a shuttle, t's thrust joins the bucket t belongs in. */
  function Enrol(sh: map<EntityUid, Shuttle>, x: Xform, t: Thruster, uid: EntityUid): (r: map<EntityUid, Shuttle>)
    requires ShuttlesWellFormed(sh)
    ensures ShuttlesWellFormed(r) && r.Keys == sh.Keys
  {
    if OnShuttle(sh, x.grid) then
      sh[x.grid.value := AddContribution(sh[x.grid.value], t.thrusterType, CardinalIndex(x.rotation), uid, t.thrust)]
    else sh
  }

  /** DisableThruster's shuttle update: if the grid is a shuttle, t's thrust leaves the bucket for the given facing. */
  function Withdraw(sh: map<EntityUid, Shuttle>, grid: Option<EntityUid>, dir: CardinalDir, t: Thruster,
                    uid: EntityUid): (r: map<EntityUid, Shuttle>)
    requires ShuttlesWellFormed(sh)
    ensures ShuttlesWellFormed(r) && r.Keys == sh.Keys
  {
    if OnShuttle(sh, grid) then
      sh[grid.value := RemoveContribution(sh[grid.value], t.thrusterType, CardinalIndex(dir), uid, t.thrust)]
    else sh
  }

  /** RefreshThrusterContribution's shuttle update: if x's grid is a shuttle, the bucket t faces moves by delta. */
  function Refreshed(sh: map<EntityUid, Shuttle>, x: Xform, kind: ThrusterType, delta: real): (r: map<EntityUid, Shuttle>)
    requires ShuttlesWellFormed(sh)
    ensures ShuttlesWellFormed(r) && r.Keys == sh.Keys
  {
    if OnShuttle(sh, x.grid) then
      sh[x.grid.value := ApplyDelta(sh[x.grid.value], kind, CardinalIndex(x.rotation), delta)]
    else sh
  }

  /**
   * The refresh as evidently intended: only a thruster that is on moves the
   * bucket that counts it, by the difference between its new thrust and the
   * thrust it was counted with.
   */
  function CountedRefresh(sh: map<EntityUid, Shuttle>, x: Xform, t: Thruster, newThrust: real): (r: map<EntityUid, Shuttle>)
    requires ShuttlesWellFormed(sh)
    ensures ShuttlesWellFormed(r) && r.Keys == sh.Keys
  {
    if t.isOn then Refreshed(sh, x, t.thrusterType, newThrust - t.thrust) else sh
  }

  /** EnableThruster's debug assertion: the shuttle at x does not count uid yet. */
  predicate NotCounted(sh: map<EntityUid, Shuttle>, x: Xform, t: Thruster, uid: EntityUid)
    requires ShuttlesWellFormed(sh)
  {
    OnShuttle(sh, x.grid) ==> uid !in Members(sh[x.grid.value], t.thrusterType, CardinalIndex(x.rotation))
  }

  /** DisableThruster's debug assertion: the shuttle of the grid counts uid for the given facing. */
  predicate Counted(sh: map<EntityUid, Shuttle>, grid: Option<EntityUid>, dir: CardinalDir, t: Thruster, uid: EntityUid)
    requires ShuttlesWellFormed(sh)
  {
    OnShuttle(sh, grid) ==> uid in Members(sh[grid.value], t.thrusterType, CardinalIndex(dir))
  }

  /** A thruster that differs from t only in fields the bookkeeping does not read. */
  predicate SameCounting(t: Thruster, t': Thruster)
  {
    t'.isOn == t.isOn && t'.thrusterType == t.thrusterType && t'.thrust == t.thrust
  }

  // ---------------------------------------------------------------------------
  // One shuttle
  // ---------------------------------------------------------------------------

  /** Where shuttle g agrees, a thruster that is on at g is counted in its one bucket, and any other in none. */
  lemma AgreementGivesOnlyIn(s: Shuttle, g: EntityUid, th: map<EntityUid, Thruster>, xf: map<EntityUid, Xform>,
                             uid: EntityUid)
    requires WellFormed(s) && ShuttleAgrees(s, g, th, xf) && uid in th && uid in xf
    ensures th[uid].isOn && xf[uid].grid == Some(g) ==>
      OnlyIn(s, th[uid].thrusterType, CardinalIndex(xf[uid].rotation), uid)
    ensures !(th[uid].isOn && xf[uid].grid == Some(g)) ==> InNoBucket(s, uid)
  {
  }

  /** Shuttle g keeps agreeing when a thruster at g switches on and joins the bucket it faces. */
  lemma AgreesAfterAdd(s: Shuttle, g: EntityUid, th: map<EntityUid, Thruster>, xf: map<EntityUid, Xform>,
                       uid: EntityUid, t': Thruster, x: real)
    requires WellFormed(s) && ShuttleAgrees(s, g, th, xf) && uid in th && uid in xf
    requires !th[uid].isOn && xf[uid].grid == Some(g)
    requires t'.isOn && t'.thrusterType == th[uid].thrusterType
    ensures ShuttleAgrees(AddContribution(s, t'.thrusterType, CardinalIndex(xf[uid].rotation), uid, x), g, th[uid := t'], xf)
  {
  }

  /** Shuttle g keeps agreeing when a thruster on at g switches off and leaves the bucket it faces. */
  lemma AgreesAfterRemove(s: Shuttle, g: EntityUid, th: map<EntityUid, Thruster>, xf: map<EntityUid, Xform>,
                          uid: EntityUid, t': Thruster, x: real)
    requires WellFormed(s) && ShuttleAgrees(s, g, th, xf) && uid in th && uid in xf
    requires th[uid].isOn && xf[uid].grid == Some(g)
    requires !t'.isOn && t'.thrusterType == th[uid].thrusterType
    ensures ShuttleAgrees(RemoveContribution(s, t'.thrusterType, CardinalIndex(xf[uid].rotation), uid, x), g, th[uid := t'], xf)
  {
  }

  /** Shuttle g is not concerned by a thruster that neither was nor is on at g. */
  lemma AgreesElsewhere(s: Shuttle, g: EntityUid, th: map<EntityUid, Thruster>, xf: map<EntityUid, Xform>,
                        uid: EntityUid, t': Thruster, x': Xform)
    requires WellFormed(s) && ShuttleAgrees(s, g, th, xf) && uid in th && uid in xf
    requires !(th[uid].isOn && xf[uid].grid == Some(g)) && !(t'.isOn && x'.grid == Some(g))
    ensures ShuttleAgrees(s, g, th[uid := t'], xf[uid := x'])
  {
    AgreementGivesOnlyIn(s, g, th, xf, uid);
  }

  /** Shuttle g keeps agreeing when no thruster changes whether it is on or its type. */
  lemma AgreesSameCounting(s: Shuttle, g: EntityUid, th: map<EntityUid, Thruster>, th': map<EntityUid, Thruster>,
                           xf: map<EntityUid, Xform>)
    requires WellFormed(s) && ShuttleAgrees(s, g, th, xf)
    requires th'.Keys == th.Keys
    requires forall u :: u in th ==> th'[u].isOn == th[u].isOn && th'[u].thrusterType == th[u].thrusterType
    ensures ShuttleAgrees(s, g, th', xf)
  {
  }

  /** Shuttle g is not concerned by a thruster, standing where it stands, that neither was nor is on at g. */
  lemma AgreesElsewhereInPlace(s: Shuttle, g: EntityUid, th: map<EntityUid, Thruster>, xf: map<EntityUid, Xform>,
                               uid: EntityUid, t': Thruster)
    requires WellFormed(s) && ShuttleAgrees(s, g, th, xf) && uid in th && uid in xf
    requires xf[uid].grid != Some(g)
    ensures ShuttleAgrees(s, g, th[uid := t'], xf)
  {
    AgreementGivesOnlyIn(s, g, th, xf, uid);
  }

  /** Agreement reads only a shuttle's membership sets. */
  lemma AgreesSameSets(s: Shuttle, s': Shuttle, g: EntityUid, th: map<EntityUid, Thruster>, xf: map<EntityUid, Xform>)
    requires WellFormed(s) && WellFormed(s') && ShuttleAgrees(s, g, th, xf)
    requires s'.linearThrusters == s.linearThrusters && s'.angularThrusters == s.angularThrusters
    ensures ShuttleAgrees(s', g, th, xf)
  {
  }

  // ---------------------------------------------------------------------------
  // All shuttles
  // ---------------------------------------------------------------------------

  /** Where membership agrees, both debug assertions hold at the thruster's own transform. */
  lemma AgreementGivesAssertions(th: map<EntityUid, Thruster>, xf: map<EntityUid, Xform>, sh: map<EntityUid, Shuttle>,
                                 uid: EntityUid)
    requires MembershipAgrees(th, xf, sh) && uid in th
    ensures !th[uid].isOn ==> NotCounted(sh, xf[uid], th[uid], uid)
    ensures th[uid].isOn ==> Counted(sh, xf[uid].grid, xf[uid].rotation, th[uid], uid)
  {
    if OnShuttle(sh, xf[uid].grid) {
      AgreementGivesOnlyIn(sh[xf[uid].grid.value], xf[uid].grid.value, th, xf, uid);
    }
  }

  /** Changing fields the bookkeeping does not read keeps it consistent. */
  lemma SameCountingKeepsConsistency(th: map<EntityUid, Thruster>, th': map<EntityUid, Thruster>,
                                     xf: map<EntityUid, Xform>, sh: map<EntityUid, Shuttle>)
    requires th'.Keys == th.Keys && forall u :: u in th ==> SameCounting(th[u], th'[u])
    ensures MembershipAgrees(th, xf, sh) ==> MembershipAgrees(th', xf, sh)
    ensures ThrustOf(th') == ThrustOf(th)
    ensures Consistent(th, xf, sh) ==> Consistent(th', xf, sh)
  {
    if MembershipAgrees(th, xf, sh) {
      forall g | g in sh
        ensures ShuttleAgrees(sh[g], g, th', xf)
      {
        AgreesSameCounting(sh[g], g, th, th', xf);
      }
    }
  }

  /** The transform of a thruster that is off does not matter to the bookkeeping. */
  lemma IdleThrusterMayMove(th: map<EntityUid, Thruster>, xf: map<EntityUid, Xform>, sh: map<EntityUid, Shuttle>,
                            uid: EntityUid, x: Xform)
    requires MembershipAgrees(th, xf, sh) && uid in th && !th[uid].isOn
    ensures MembershipAgrees(th, xf[uid := x], sh)
  {
    forall g | g in sh
      ensures ShuttleAgrees(sh[g], g, th, xf[uid := x])
    {
      AgreesElsewhere(sh[g], g, th, xf, uid, th[uid], x);
      assert th[uid := th[uid]] == th;
    }
  }

  /** A shuttle's direction mask is read neither by agreement nor by the totals. */
  lemma MaskChangeShuttle(s: Shuttle, g: EntityUid, th: map<EntityUid, Thruster>, xf: map<EntityUid, Xform>,
                          thrust: map<EntityUid, real>, mask: DirectionFlag)
    requires WellFormed(s) && mask & !DirectionBits == 0
    ensures WellFormed(s.(thrustDirections := mask))
    ensures ShuttleAgrees(s, g, th, xf) ==> ShuttleAgrees(s.(thrustDirections := mask), g, th, xf)
    ensures BucketsMatch(s, thrust) ==> BucketsMatch(s.(thrustDirections := mask), thrust)
  {
  }

  /** Changes to a shuttle's direction mask do not touch its buckets. */
  lemma MaskChangeKeepsConsistency(th: map<EntityUid, Thruster>, xf: map<EntityUid, Xform>, sh: map<EntityUid, Shuttle>,
                                   g: EntityUid, mask: DirectionFlag)
    requires g in sh && mask & !DirectionBits == 0
    ensures MembershipAgrees(th, xf, sh) ==> MembershipAgrees(th, xf, sh[g := sh[g].(thrustDirections := mask)])
    ensures Consistent(th, xf, sh) ==> Consistent(th, xf, sh[g := sh[g].(thrustDirections := mask)])
  {
    if MembershipAgrees(th, xf, sh) {
      MaskChangeShuttle(sh[g], g, th, xf, ThrustOf(th), mask);
      assert ShuttleAgrees(sh[g], g, th, xf);
      if TotalsMatch(sh, ThrustOf(th)) {
        assert BucketsMatch(sh[g], ThrustOf(th));
      }
    }
  }

  /** One shuttle after EnableThruster's update: it agrees and, if its totals matched, they still match. */
  lemma EnrolShuttle(th: map<EntityUid, Thruster>, xf: map<EntityUid, Xform>, sh: map<EntityUid, Shuttle>,
                     uid: EntityUid, t': Thruster, h: EntityUid)
    requires ShuttlesWellFormed(sh) && h in sh && uid in th && uid in xf && ShuttleAgrees(sh[h], h, th, xf)
    requires !th[uid].isOn && t'.isOn && t'.thrusterType == th[uid].thrusterType && t'.thrust == th[uid].thrust
    ensures ShuttleAgrees(Enrol(sh, xf[uid], t', uid)[h], h, th[uid := t'], xf)
    ensures BucketsMatch(sh[h], ThrustOf(th)) ==> BucketsMatch(Enrol(sh, xf[uid], t', uid)[h], ThrustOf(th[uid := t']))
  {
    var t, x := th[uid], xf[uid];
    ThrustOfSameThrust(th, uid, t');
    if x.grid == Some(h) {
      assert Enrol(sh, x, t', uid)[h] == AddContribution(sh[h], t.thrusterType, CardinalIndex(x.rotation), uid, t.thrust);
      AgreesAfterAdd(sh[h], h, th, xf, uid, t', t.thrust);
      if BucketsMatch(sh[h], ThrustOf(th)) {
        AgreementGivesOnlyIn(sh[h], h, th, xf, uid);
        AddKeepsBucketsMatch(sh[h], ThrustOf(th), t.thrusterType, CardinalIndex(x.rotation), uid);
      }
    } else {
      assert Enrol(sh, x, t', uid)[h] == sh[h];
      AgreesElsewhereInPlace(sh[h], h, th, xf, uid, t');
    }
  }

  /**
   * Switching a thruster on while recording it with its own thrust in the
   * bucket it belongs in keeps the bookkeeping consistent.
   */
  lemma EnrolKeepsConsistency(th: map<EntityUid, Thruster>, xf: map<EntityUid, Xform>, sh: map<EntityUid, Shuttle>,
                              uid: EntityUid, t': Thruster)
    requires MembershipAgrees(th, xf, sh) && uid in th && !th[uid].isOn
    requires t'.isOn && t'.thrusterType == th[uid].thrusterType && t'.thrust == th[uid].thrust
    ensures MembershipAgrees(th[uid := t'], xf, Enrol(sh, xf[uid], t', uid))
    ensures TotalsMatch(sh, ThrustOf(th)) ==> TotalsMatch(Enrol(sh, xf[uid], t', uid), ThrustOf(th[uid := t']))
  {
    forall h | h in Enrol(sh, xf[uid], t', uid)
      ensures ShuttleAgrees(Enrol(sh, xf[uid], t', uid)[h], h, th[uid := t'], xf)
      ensures BucketsMatch(sh[h], ThrustOf(th)) ==> BucketsMatch(Enrol(sh, xf[uid], t', uid)[h], ThrustOf(th[uid := t']))
    {
      EnrolShuttle(th, xf, sh, uid, t', h);
    }
  }

  /** One shuttle after DisableThruster's update: it agrees and, if its totals matched, they still match. */
  lemma WithdrawShuttle(th: map<EntityUid, Thruster>, xf: map<EntityUid, Xform>, sh: map<EntityUid, Shuttle>,
                        uid: EntityUid, t': Thruster, h: EntityUid)
    requires ShuttlesWellFormed(sh) && h in sh && uid in th && uid in xf && ShuttleAgrees(sh[h], h, th, xf)
    requires th[uid].isOn && !t'.isOn && t'.thrusterType == th[uid].thrusterType && t'.thrust == th[uid].thrust
    ensures ShuttleAgrees(Withdraw(sh, xf[uid].grid, xf[uid].rotation, th[uid], uid)[h], h, th[uid := t'], xf)
    ensures BucketsMatch(sh[h], ThrustOf(th)) ==>
      BucketsMatch(Withdraw(sh, xf[uid].grid, xf[uid].rotation, th[uid], uid)[h], ThrustOf(th[uid := t']))
  {
    var t, x := th[uid], xf[uid];
    ThrustOfSameThrust(th, uid, t');
    if x.grid == Some(h) {
      assert Withdraw(sh, x.grid, x.rotation, t, uid)[h]
          == RemoveContribution(sh[h], t.thrusterType, CardinalIndex(x.rotation), uid, t.thrust);
      AgreesAfterRemove(sh[h], h, th, xf, uid, t', t.thrust);
      if BucketsMatch(sh[h], ThrustOf(th)) {
        AgreementGivesOnlyIn(sh[h], h, th, xf, uid);
        RemoveKeepsBucketsMatch(sh[h], ThrustOf(th), t.thrusterType, CardinalIndex(x.rotation), uid);
      }
    } else {
      assert Withdraw(sh, x.grid, x.rotation, t, uid)[h] == sh[h];
      AgreesElsewhereInPlace(sh[h], h, th, xf, uid, t');
    }
  }

  /**
   * Switching a thruster off while taking its own thrust out of the bucket it
   * is counted in keeps the bookkeeping consistent.
   */
  lemma WithdrawKeepsConsistency(th: map<EntityUid, Thruster>, xf: map<EntityUid, Xform>, sh: map<EntityUid, Shuttle>,
                                 uid: EntityUid, t': Thruster)
    requires MembershipAgrees(th, xf, sh) && uid in th && th[uid].isOn
    requires !t'.isOn && t'.thrusterType == th[uid].thrusterType && t'.thrust == th[uid].thrust
    ensures MembershipAgrees(th[uid := t'], xf, Withdraw(sh, xf[uid].grid, xf[uid].rotation, th[uid], uid))
    ensures TotalsMatch(sh, ThrustOf(th)) ==>
      TotalsMatch(Withdraw(sh, xf[uid].grid, xf[uid].rotation, th[uid], uid), ThrustOf(th[uid := t']))
  {
    forall h | h in Withdraw(sh, xf[uid].grid, xf[uid].rotation, th[uid], uid)
      ensures ShuttleAgrees(Withdraw(sh, xf[uid].grid, xf[uid].rotation, th[uid], uid)[h], h, th[uid := t'], xf)
      ensures BucketsMatch(sh[h], ThrustOf(th)) ==>
        BucketsMatch(Withdraw(sh, xf[uid].grid, xf[uid].rotation, th[uid], uid)[h], ThrustOf(th[uid := t']))
    {
      WithdrawShuttle(th, xf, sh, uid, t', h);
    }
  }

  /**
   * A thruster that is on moving from one shuttle grid, or facing, to another
   * shuttle grid, or facing, keeps the bookkeeping consistent when its thrust
   * leaves the old bucket and joins the new one.
   */
  lemma MoveKeepsConsistency(th: map<EntityUid, Thruster>, xf: map<EntityUid, Xform>, sh: map<EntityUid, Shuttle>,
                             uid: EntityUid, x': Xform)
    requires MembershipAgrees(th, xf, sh) && uid in th && th[uid].isOn
    requires OnShuttle(sh, xf[uid].grid) && OnShuttle(sh, x'.grid)
    ensures MembershipAgrees(th, xf[uid := x'], Enrol(Withdraw(sh, xf[uid].grid, xf[uid].rotation, th[uid], uid), x', th[uid], uid))
    ensures TotalsMatch(sh, ThrustOf(th)) ==>
      TotalsMatch(Enrol(Withdraw(sh, xf[uid].grid, xf[uid].rotation, th[uid], uid), x', th[uid], uid), ThrustOf(th))
  {
    var t, x := th[uid], xf[uid];
    var off := t.(isOn := false);
    var th1 := th[uid := off];
    var sh1 := Withdraw(sh, x.grid, x.rotation, t, uid);
    WithdrawKeepsConsistency(th, xf, sh, uid, off);
    IdleThrusterMayMove(th1, xf, sh1, uid, x');
    EnrolKeepsConsistency(th1, xf[uid := x'], sh1, uid, t);
    RestoreEntry(th, uid, off);
    ThrustOfSameThrust(th, uid, off);
  }

  /**
   * The converse case OnRotate does not handle: a thruster that is on and
   * counted by the shuttle of its old grid, moved to a grid without a
   * shuttle, stays a member of its old bucket, so leaving the shuttles as
   * they are leaves the bookkeeping inconsistent.
   */
  lemma MoveOffShuttleLeavesStaleMember(th: map<EntityUid, Thruster>, xf: map<EntityUid, Xform>, sh: map<EntityUid, Shuttle>,
                                        uid: EntityUid, x': Xform)
    requires MembershipAgrees(th, xf, sh) && uid in th && th[uid].isOn
    requires OnShuttle(sh, xf[uid].grid) && !OnShuttle(sh, x'.grid)
    ensures uid in Members(sh[xf[uid].grid.value], th[uid].thrusterType, CardinalIndex(xf[uid].rotation))
    ensures !MembershipAgrees(th, xf[uid := x'], sh)
  {
    var g := xf[uid].grid.value;
    assert ShuttleAgrees(sh[g], g, th, xf);
    AgreementGivesOnlyIn(sh[g], g, th, xf, uid);
    if MembershipAgrees(th, xf[uid := x'], sh) {
      AgreementGivesOnlyIn(sh[g], g, th, xf[uid := x'], uid);
      assert false;
    }
  }

  /** An angular thruster that is on and turns in place on its grid needs no bucket update. */
  lemma TurnInPlaceKeepsConsistency(th: map<EntityUid, Thruster>, xf: map<EntityUid, Xform>, sh: map<EntityUid, Shuttle>,
                                    uid: EntityUid, x': Xform)
    requires MembershipAgrees(th, xf, sh) && uid in th && th[uid].thrusterType == Angular
    requires x'.grid == xf[uid].grid
    ensures MembershipAgrees(th, xf[uid := x'], sh)
  {
    var t, x := th[uid], xf[uid];
    forall h | h in sh
      ensures ShuttleAgrees(sh[h], h, th, xf[uid := x'])
    {
      assert ShuttleAgrees(sh[h], h, th, xf);
      if x.grid != Some(h) || !t.isOn {
        AgreesElsewhere(sh[h], h, th, xf, uid, t, x');
        assert th[uid := t] == th;
      }
    }
  }

  /** One shuttle after the corrected refresh: no membership set changes, and no thruster switches. */
  lemma ShuttleAgreesAfterRefresh(th: map<EntityUid, Thruster>, xf: map<EntityUid, Xform>,
                                  sh: map<EntityUid, Shuttle>, uid: EntityUid, t': Thruster, h: EntityUid)
    requires ShuttlesWellFormed(sh) && h in sh && uid in th && uid in xf && ShuttleAgrees(sh[h], h, th, xf)
    requires t'.isOn == th[uid].isOn && t'.thrusterType == th[uid].thrusterType
    ensures ShuttleAgrees(CountedRefresh(sh, xf[uid], th[uid], t'.thrust)[h], h, th[uid := t'], xf)
  {
    var th' := th[uid := t'];
    AgreesSameCounting(sh[h], h, th, th', xf);
    AgreesSameSets(sh[h], CountedRefresh(sh, xf[uid], th[uid], t'.thrust)[h], h, th', xf);
  }

  /** The membership half of the corrected refresh. */
  lemma CountedRefreshKeepsMembership(th: map<EntityUid, Thruster>, xf: map<EntityUid, Xform>,
                                      sh: map<EntityUid, Shuttle>, uid: EntityUid, t': Thruster)
    requires MembershipAgrees(th, xf, sh) && uid in th
    requires t'.isOn == th[uid].isOn && t'.thrusterType == th[uid].thrusterType
    ensures MembershipAgrees(th[uid := t'], xf, CountedRefresh(sh, xf[uid], th[uid], t'.thrust))
  {
    forall h | h in CountedRefresh(sh, xf[uid], th[uid], t'.thrust)
      ensures ShuttleAgrees(CountedRefresh(sh, xf[uid], th[uid], t'.thrust)[h], h, th[uid := t'], xf)
    {
      ShuttleAgreesAfterRefresh(th, xf, sh, uid, t', h);
    }
  }

  /** One shuttle's totals after the corrected refresh: only the bucket that counts the thruster moves. */
  lemma ShuttleTotalsAfterRefresh(th: map<EntityUid, Thruster>, xf: map<EntityUid, Xform>,
                                  sh: map<EntityUid, Shuttle>, uid: EntityUid, t': Thruster, h: EntityUid)
    requires ShuttlesWellFormed(sh) && h in sh && uid in th && uid in xf
    requires ShuttleAgrees(sh[h], h, th, xf) && BucketsMatch(sh[h], ThrustOf(th))
    ensures BucketsMatch(CountedRefresh(sh, xf[uid], th[uid], t'.thrust)[h],
                         ThrustOf(th[uid := t']))
  {
    var t, x, s := th[uid], xf[uid], sh[h];
    ThrustOfUpdate(th, uid, t');
    AgreementGivesOnlyIn(s, h, th, xf, uid);
    if t.isOn && x.grid == Some(h) {
      DeltaKeepsBucketsMatch(s, ThrustOf(th), t.thrusterType, CardinalIndex(x.rotation), uid, t'.thrust);
    } else {
      UncountedChangeKeepsBucketsMatch(s, ThrustOf(th), uid, t'.thrust);
    }
  }

  /** The totals half of the corrected refresh. */
  lemma CountedRefreshKeepsTotals(th: map<EntityUid, Thruster>, xf: map<EntityUid, Xform>,
                                  sh: map<EntityUid, Shuttle>, uid: EntityUid, t': Thruster)
    requires Consistent(th, xf, sh) && uid in th
    ensures TotalsMatch(CountedRefresh(sh, xf[uid], th[uid], t'.thrust),
                        ThrustOf(th[uid := t']))
  {
    forall h | h in CountedRefresh(sh, xf[uid], th[uid], t'.thrust)
      ensures BucketsMatch(CountedRefresh(sh, xf[uid], th[uid], t'.thrust)[h],
                           ThrustOf(th[uid := t']))
    {
      ShuttleTotalsAfterRefresh(th, xf, sh, uid, t', h);
    }
  }

  /**
   * The corrected refresh: a thruster's thrust changing to x keeps the
   * bookkeeping consistent when the bucket that counts it, if any, moves by
   * x minus the thrust it was counted with.
   */
  lemma CountedRefreshKeepsConsistency(th: map<EntityUid, Thruster>, xf: map<EntityUid, Xform>,
                                       sh: map<EntityUid, Shuttle>, uid: EntityUid, t': Thruster,
                                       sh': map<EntityUid, Shuttle>)
    requires Consistent(th, xf, sh) && uid in th
    requires t'.isOn == th[uid].isOn && t'.thrusterType == th[uid].thrusterType
    requires sh' == CountedRefresh(sh, xf[uid], th[uid], t'.thrust)
    ensures Consistent(th[uid := t'], xf, sh')
  {
    CountedRefreshKeepsMembership(th, xf, sh, uid, t');
    CountedRefreshKeepsTotals(th, xf, sh, uid, t');
  }

  /**
   * The refresh as written moves the bucket by the new thrust minus
   * PreviousThrust, member or not. It keeps the bookkeeping consistent when
   * PreviousThrust is the thrust the thruster is counted with, or when the
   * thruster is counted nowhere (off, or not on a shuttle) and its thrust
   * does not change.
   */
  lemma AsWrittenRefreshKeepsConsistency(th: map<EntityUid, Thruster>, xf: map<EntityUid, Xform>,
                                         sh: map<EntityUid, Shuttle>, uid: EntityUid, t': Thruster)
    requires Consistent(th, xf, sh) && uid in th
    requires t'.isOn == th[uid].isOn && t'.thrusterType == th[uid].thrusterType
    requires OnShuttle(sh, xf[uid].grid) ==>
      if th[uid].isOn then th[uid].previousThrust == th[uid].thrust else t'.thrust == th[uid].previousThrust
    ensures Consistent(th[uid := t'], xf, Refreshed(sh, xf[uid], th[uid].thrusterType, t'.thrust - th[uid].previousThrust))
  {
    AsWrittenMatchesCounted(sh, xf[uid], th[uid], t'.thrust);
    CountedRefreshKeepsConsistency(th, xf, sh, uid, t',
      Refreshed(sh, xf[uid], th[uid].thrusterType, t'.thrust - th[uid].previousThrust));
  }

  /** Under those conditions the refresh as written moves the same bucket by the same amount as the corrected one. */
  lemma AsWrittenMatchesCounted(sh: map<EntityUid, Shuttle>, x: Xform, t: Thruster, newThrust: real)
    requires ShuttlesWellFormed(sh)
    requires OnShuttle(sh, x.grid) ==> if t.isOn then t.previousThrust == t.thrust else newThrust == t.previousThrust
    ensures CountedRefresh(sh, x, t, newThrust) == Refreshed(sh, x, t.thrusterType, newThrust - t.previousThrust)
  {
    if OnShuttle(sh, x.grid) && !t.isOn {
      AddZeroDelta(sh[x.grid.value], t.thrusterType, CardinalIndex(x.rotation));
    }
  }

  /**
   * The converse: on a shuttle grid, a thruster that is on and was counted
   * with a thrust other than its PreviousThrust, or one that is off whose
   * thrust moves away from its PreviousThrust, leaves the bucket it faces
   * off its members' sum after the refresh as written. A freshly created
   * thruster (PreviousThrust 0, Thrust 100) that is switched on is the first
   * kind: its first atmospheric update counts its thrust twice.
   */
  lemma AsWrittenRefreshBreaksConsistency(th: map<EntityUid, Thruster>, xf: map<EntityUid, Xform>,
                                          sh: map<EntityUid, Shuttle>, uid: EntityUid, t': Thruster)
    requires Consistent(th, xf, sh) && uid in th
    requires t'.isOn == th[uid].isOn && t'.thrusterType == th[uid].thrusterType
    requires OnShuttle(sh, xf[uid].grid)
    requires if th[uid].isOn then th[uid].previousThrust != th[uid].thrust else t'.thrust != th[uid].previousThrust
    ensures !Consistent(th[uid := t'], xf, Refreshed(sh, xf[uid], th[uid].thrusterType, t'.thrust - th[uid].previousThrust))
  {
    var x := xf[uid];
    var g := x.grid.value;
    var r := Refreshed(sh, x, th[uid].thrusterType, t'.thrust - th[uid].previousThrust);
    ShuttleOffAfterAsWritten(th, xf, sh[g], g, uid, t', r[g]);
  }

  /** The one shuttle the as-written refresh touches: the bucket the thruster faces no longer matches its members. */
  lemma ShuttleOffAfterAsWritten(th: map<EntityUid, Thruster>, xf: map<EntityUid, Xform>, s: Shuttle, g: EntityUid,
                                 uid: EntityUid, t': Thruster, s': Shuttle)
    requires WellFormed(s) && uid in th && uid in xf && xf[uid].grid == Some(g)
    requires ShuttleAgrees(s, g, th, xf) && BucketsMatch(s, ThrustOf(th))
    requires t'.isOn == th[uid].isOn
    requires if th[uid].isOn then th[uid].previousThrust != th[uid].thrust else t'.thrust != th[uid].previousThrust
    requires s' == ApplyDelta(s, th[uid].thrusterType, CardinalIndex(xf[uid].rotation), t'.thrust - th[uid].previousThrust)
    ensures !BucketsMatch(s', ThrustOf(th[uid := t']))
  {
    var t, d := th[uid], CardinalIndex(xf[uid].rotation);
    AgreementGivesOnlyIn(s, g, th, xf, uid);
    assert uid in Members(s, t.thrusterType, d) <==> t.isOn;
    RefreshKeepsBucketsMatchIff(s, ThrustOf(th), t.thrusterType, d, uid, t'.thrust, t.previousThrust);
    ThrustOfUpdate(th, uid, t');
  }
}
