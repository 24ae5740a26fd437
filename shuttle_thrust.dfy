/**
 * A shuttle's thrust bookkeeping, as the thruster systems update it.
 *
 * ShuttleComponent is not part of this model's source; its movement fields
 * are inferred from their use in Content.Server/Shuttles/Systems/ThrusterSystem.cs
 * and EsThrusterSystem.cs: per cardinal bucket a thrust total (LinearThrust)
 * and the set of thrusters counted in it (LinearThrusters), the same once for
 * rotation (AngularThrust, AngularThrusters), and the ThrustDirections mask of
 * directions being fired.
 *
 * The invariant the systems maintain is that every bucket's total is the sum
 * of the thrust of its members. The functions here are the individual updates
 * the systems make; the lemmas say which of them keep the invariant.
 */
module ShuttleThrust {
  import opened Wrappers
  import opened Directions
  import opened ThrusterData

  datatype Shuttle = Shuttle(
    linearThrust: seq<real>,
    linearThrusters: seq<set<EntityUid>>,
    angularThrust: real,
    angularThrusters: set<EntityUid>,
    thrustDirections: DirectionFlag)

  /** Four linear buckets, and no bit outside the four direction bits in the mask. */
  predicate WellFormed(s: Shuttle)
  {
    |s.linearThrust| == 4 && |s.linearThrusters| == 4 && s.thrustDirections & !DirectionBits == 0
  }

  /** A shuttle with no thrusters counted and no direction fired. */
  function EmptyShuttle(): (s: Shuttle)
    ensures WellFormed(s)
  {
    Shuttle([0.0, 0.0, 0.0, 0.0], [{}, {}, {}, {}], 0.0, {}, FlagNone)
  }

  /** The members of the bucket a thruster of the given type facing bucket index d is counted in. */
  function Members(s: Shuttle, kind: ThrusterType, d: nat): set<EntityUid>
    requires WellFormed(s) && d < 4
  {
    match kind
    case Linear => s.linearThrusters[d]
    case Angular => s.angularThrusters
  }

  /** The total of that bucket. */
  function Total(s: Shuttle, kind: ThrusterType, d: nat): real
    requires WellFormed(s) && d < 4
  {
    match kind
    case Linear => s.linearThrust[d]
    case Angular => s.angularThrust
  }

  // ---------------------------------------------------------------------------
  // Sum of member thrust
  // ---------------------------------------------------------------------------

  /** The sum of the given thrusters' thrust. */
  ghost function SumThrust(ids: set<EntityUid>, thrust: map<EntityUid, real>): real
    requires ids <= thrust.Keys
    decreases ids
  {
    if ids == {} then 0.0
    else
      var u :| u in ids;
      thrust[u] + SumThrust(ids - {u}, thrust)
  }

  /** Any member can be taken out of the sum first. */
  lemma {:induction false} SumRemove(ids: set<EntityUid>, thrust: map<EntityUid, real>, u: EntityUid)
    requires ids <= thrust.Keys && u in ids
    ensures SumThrust(ids, thrust) == thrust[u] + SumThrust(ids - {u}, thrust)
    decreases ids
  {
    var v :| v in ids && SumThrust(ids, thrust) == thrust[v] + SumThrust(ids - {v}, thrust);
    if v != u {
      SumRemove(ids - {v}, thrust, u);
      SumRemove(ids - {u}, thrust, v);
      assert ids - {v} - {u} == ids - {u} - {v};
    }
  }

  /** Adding a new member adds its thrust. */
  lemma SumInsert(ids: set<EntityUid>, thrust: map<EntityUid, real>, u: EntityUid)
    requires ids <= thrust.Keys && u in thrust && u !in ids
    ensures SumThrust(ids + {u}, thrust) == thrust[u] + SumThrust(ids, thrust)
  {
    SumRemove(ids + {u}, thrust, u);
    assert ids + {u} - {u} == ids;
  }

  /** The sum only depends on the members' thrust. */
  lemma {:induction false} SumFrame(ids: set<EntityUid>, t1: map<EntityUid, real>, t2: map<EntityUid, real>)
    requires ids <= t1.Keys && ids <= t2.Keys
    requires forall v :: v in ids ==> t1[v] == t2[v]
    ensures SumThrust(ids, t1) == SumThrust(ids, t2)
    decreases ids
  {
    if ids != {} {
      var u :| u in ids;
      SumRemove(ids, t1, u);
      SumRemove(ids, t2, u);
      SumFrame(ids - {u}, t1, t2);
    }
  }

  /** Changing one member's thrust changes the sum by the difference. */
  lemma SumUpdate(ids: set<EntityUid>, thrust: map<EntityUid, real>, u: EntityUid, x: real)
    requires ids <= thrust.Keys && u in ids
    ensures SumThrust(ids, thrust[u := x]) == SumThrust(ids, thrust) - thrust[u] + x
  {
    var thrust' := thrust[u := x];
    SumRemove(ids, thrust, u);
    SumRemove(ids, thrust', u);
    SumFrame(ids - {u}, thrust, thrust');
  }

  // ---------------------------------------------------------------------------
  // The invariant
  // ---------------------------------------------------------------------------

  /** Every bucket's total is the sum of its members' thrust. */
  ghost predicate BucketsMatch(s: Shuttle, thrust: map<EntityUid, real>)
  {
    && WellFormed(s)
    && (forall d :: 0 <= d < 4 ==> s.linearThrusters[d] <= thrust.Keys)
    && s.angularThrusters <= thrust.Keys
    && (forall d :: 0 <= d < 4 ==> s.linearThrust[d] == SumThrust(s.linearThrusters[d], thrust))
    && s.angularThrust == SumThrust(s.angularThrusters, thrust)
  }

  /** u is counted in the bucket (kind, d) and in no other bucket of the shuttle. */
  predicate OnlyIn(s: Shuttle, kind: ThrusterType, d: nat, u: EntityUid)
    requires WellFormed(s) && d < 4
  {
    && (forall e :: 0 <= e < 4 && (kind == Angular || e != d) ==> u !in s.linearThrusters[e])
    && (kind == Linear ==> u !in s.angularThrusters)
    && u in Members(s, kind, d)
  }

  /** u is counted in no bucket of the shuttle. */
  predicate InNoBucket(s: Shuttle, u: EntityUid)
    requires WellFormed(s)
  {
    (forall e :: 0 <= e < 4 ==> u !in s.linearThrusters[e]) && u !in s.angularThrusters
  }

  // ---------------------------------------------------------------------------
  // Updates
  // ---------------------------------------------------------------------------

  /** EnableThruster on a shuttle: the thrust joins bucket (kind, d) and u becomes a member. */
  function AddContribution(s: Shuttle, kind: ThrusterType, d: nat, u: EntityUid, x: real): (r: Shuttle)
    requires WellFormed(s) && d < 4
    ensures WellFormed(r)
  {
    match kind
    case Linear =>
      s.(linearThrust := s.linearThrust[d := s.linearThrust[d] + x],
         linearThrusters := s.linearThrusters[d := s.linearThrusters[d] + {u}])
    case Angular =>
      s.(angularThrust := s.angularThrust + x, angularThrusters := s.angularThrusters + {u})
  }

  /** DisableThruster on a shuttle: the thrust leaves bucket (kind, d) and u stops being a member. */
  function RemoveContribution(s: Shuttle, kind: ThrusterType, d: nat, u: EntityUid, x: real): (r: Shuttle)
    requires WellFormed(s) && d < 4
    ensures WellFormed(r)
  {
    match kind
    case Linear =>
      s.(linearThrust := s.linearThrust[d := s.linearThrust[d] - x],
         linearThrusters := s.linearThrusters[d := s.linearThrusters[d] - {u}])
    case Angular =>
      s.(angularThrust := s.angularThrust - x, angularThrusters := s.angularThrusters - {u})
  }

  /** A change of a bucket's total alone (LinearThrust[d] += delta or AngularThrust += delta); membership is untouched. */
  function ApplyDelta(s: Shuttle, kind: ThrusterType, d: nat, delta: real): (r: Shuttle)
    requires WellFormed(s) && d < 4
    ensures WellFormed(r)
  {
    match kind
    case Linear => s.(linearThrust := s.linearThrust[d := s.linearThrust[d] + delta])
    case Angular => s.(angularThrust := s.angularThrust + delta)
  }

  /** Adding exactly one bucket's worth: membership grows by u in that bucket only and its total by x. */
  lemma AddContributionEffect(s: Shuttle, kind: ThrusterType, d: nat, u: EntityUid, x: real)
    requires WellFormed(s) && d < 4
    ensures var r := AddContribution(s, kind, d, u, x);
      && Members(r, kind, d) == Members(s, kind, d) + {u}
      && Total(r, kind, d) == Total(s, kind, d) + x
      && r.thrustDirections == s.thrustDirections
      && (forall e :: 0 <= e < 4 && (kind == Angular || e != d) ==>
            r.linearThrusters[e] == s.linearThrusters[e] && r.linearThrust[e] == s.linearThrust[e])
      && (kind == Linear ==> r.angularThrusters == s.angularThrusters && r.angularThrust == s.angularThrust)
  {
  }

  /** Removing a contribution undoes adding it, when u was not yet a member. */
  lemma RemoveUndoesAdd(s: Shuttle, kind: ThrusterType, d: nat, u: EntityUid, x: real)
    requires WellFormed(s) && d < 4 && u !in Members(s, kind, d)
    ensures RemoveContribution(AddContribution(s, kind, d, u, x), kind, d, u, x) == s
  {
    var r := RemoveContribution(AddContribution(s, kind, d, u, x), kind, d, u, x);
    match kind
    case Linear =>
      assert s.linearThrusters[d] + {u} - {u} == s.linearThrusters[d];
      assert r.linearThrusters == s.linearThrusters;
      assert r.linearThrust == s.linearThrust;
    case Angular =>
      assert s.angularThrusters + {u} - {u} == s.angularThrusters;
  }

  /** Adding a contribution undoes removing it, when u was a member. */
  lemma AddUndoesRemove(s: Shuttle, kind: ThrusterType, d: nat, u: EntityUid, x: real)
    requires WellFormed(s) && d < 4 && u in Members(s, kind, d)
    ensures AddContribution(RemoveContribution(s, kind, d, u, x), kind, d, u, x) == s
  {
    var r := AddContribution(RemoveContribution(s, kind, d, u, x), kind, d, u, x);
    match kind
    case Linear =>
      assert s.linearThrusters[d] - {u} + {u} == s.linearThrusters[d];
      assert r.linearThrusters == s.linearThrusters;
      assert r.linearThrust == s.linearThrust;
    case Angular =>
      assert s.angularThrusters - {u} + {u} == s.angularThrusters;
  }

  /** The sum of the four linear totals. */
  function LinearTotal(s: Shuttle): real
    requires WellFormed(s)
  {
    s.linearThrust[0] + s.linearThrust[1] + s.linearThrust[2] + s.linearThrust[3]
  }

  /** Moving a linear thruster from one bucket to another of the same shuttle keeps the summed linear thrust. */
  lemma MoveKeepsLinearTotal(s: Shuttle, u: EntityUid, from: nat, to: nat, x: real)
    requires WellFormed(s) && from < 4 && to < 4
    ensures LinearTotal(AddContribution(RemoveContribution(s, Linear, from, u, x), Linear, to, u, x)) == LinearTotal(s)
  {
  }

  // ---------------------------------------------------------------------------
  // Which updates keep the invariant
  // ---------------------------------------------------------------------------

  /** Adding a non-member with its own thrust keeps every bucket matching. */
  lemma AddKeepsBucketsMatch(s: Shuttle, thrust: map<EntityUid, real>, kind: ThrusterType, d: nat, u: EntityUid)
    requires BucketsMatch(s, thrust) && d < 4 && u in thrust && u !in Members(s, kind, d)
    ensures BucketsMatch(AddContribution(s, kind, d, u, thrust[u]), thrust)
  {
    SumInsert(Members(s, kind, d), thrust, u);
  }

  /** Removing a member with its own thrust keeps every bucket matching. */
  lemma RemoveKeepsBucketsMatch(s: Shuttle, thrust: map<EntityUid, real>, kind: ThrusterType, d: nat, u: EntityUid)
    requires BucketsMatch(s, thrust) && d < 4 && u in Members(s, kind, d)
    ensures BucketsMatch(RemoveContribution(s, kind, d, u, thrust[u]), thrust)
  {
    SumRemove(Members(s, kind, d), thrust, u);
  }

  /** A thruster counted nowhere can change its thrust without touching any bucket. */
  lemma UncountedChangeKeepsBucketsMatch(s: Shuttle, thrust: map<EntityUid, real>, u: EntityUid, x: real)
    requires BucketsMatch(s, thrust) && InNoBucket(s, u) && u in thrust
    ensures BucketsMatch(s, thrust[u := x])
  {
    var thrust' := thrust[u := x];
    forall d | 0 <= d < 4
      ensures SumThrust(s.linearThrusters[d], thrust') == SumThrust(s.linearThrusters[d], thrust)
    {
      SumFrame(s.linearThrusters[d], thrust, thrust');
    }
    SumFrame(s.angularThrusters, thrust, thrust');
  }

  /**
   * A member counted in exactly one bucket that changes its thrust to x keeps
   * every bucket matching when that bucket's total moves by x minus the
   * thrust it was counted with.
   */
  lemma DeltaKeepsBucketsMatch(s: Shuttle, thrust: map<EntityUid, real>, kind: ThrusterType, d: nat, u: EntityUid, x: real)
    requires BucketsMatch(s, thrust) && d < 4 && OnlyIn(s, kind, d, u)
    ensures BucketsMatch(ApplyDelta(s, kind, d, x - thrust[u]), thrust[u := x])
  {
    var thrust' := thrust[u := x];
    SumUpdate(Members(s, kind, d), thrust, u, x);
    forall e | 0 <= e < 4 && (kind == Angular || e != d)
      ensures SumThrust(s.linearThrusters[e], thrust') == SumThrust(s.linearThrusters[e], thrust)
    {
      SumFrame(s.linearThrusters[e], thrust, thrust');
    }
    if kind == Linear {
      SumFrame(s.angularThrusters, thrust, thrust');
    }
  }

  /**
   * The update RefreshThrusterContribution makes, characterised exactly: a
   * thruster u whose thrust becomes x moves its bucket's total by x minus
   * previous. That keeps the buckets matching if and only if u is a member
   * and previous is the thrust it was counted with, or u is no member and
   * previous equals x (no change at all).
   */
  lemma RefreshKeepsBucketsMatchIff(s: Shuttle, thrust: map<EntityUid, real>, kind: ThrusterType, d: nat,
                                    u: EntityUid, x: real, previous: real)
    requires BucketsMatch(s, thrust) && d < 4 && u in thrust
    requires OnlyIn(s, kind, d, u) || InNoBucket(s, u)
    ensures BucketsMatch(ApplyDelta(s, kind, d, x - previous), thrust[u := x])
        <==> (if u in Members(s, kind, d) then previous == thrust[u] else x == previous)
  {
    var thrust' := thrust[u := x];
    var r := ApplyDelta(s, kind, d, x - previous);
    assert Total(r, kind, d) == Total(s, kind, d) + x - previous;
    assert Members(r, kind, d) == Members(s, kind, d);
    if u in Members(s, kind, d) {
      SumUpdate(Members(s, kind, d), thrust, u, x);
      assert SumThrust(Members(r, kind, d), thrust') == Total(s, kind, d) - thrust[u] + x;
      if previous == thrust[u] {
        DeltaKeepsBucketsMatch(s, thrust, kind, d, u, x);
      } else {
        BucketMismatch(r, thrust', kind, d);
      }
    } else {
      SumFrame(Members(s, kind, d), thrust, thrust');
      if x == previous {
        assert r == s by { AddZeroDelta(s, kind, d); }
        UncountedChangeKeepsBucketsMatch(s, thrust, u, x);
      } else {
        BucketMismatch(r, thrust', kind, d);
      }
    }
  }

  /** A bucket whose total differs from its members' sum breaks the invariant. */
  lemma BucketMismatch(s: Shuttle, thrust: map<EntityUid, real>, kind: ThrusterType, d: nat)
    requires WellFormed(s) && d < 4 && Members(s, kind, d) <= thrust.Keys
    requires Total(s, kind, d) != SumThrust(Members(s, kind, d), thrust)
    ensures !BucketsMatch(s, thrust)
  {
  }

  lemma AddZeroDelta(s: Shuttle, kind: ThrusterType, d: nat)
    requires WellFormed(s) && d < 4
    ensures ApplyDelta(s, kind, d, 0.0) == s
  {
    match kind
    case Linear =>
      assert s.linearThrust[d := s.linearThrust[d] + 0.0] == s.linearThrust;
    case Angular =>
  }

  /** The members of the linear buckets with the given indices. */
  function LinearMembers(s: Shuttle, indices: set<int>): set<EntityUid>
    requires WellFormed(s)
  {
    (if 0 in indices then s.linearThrusters[0] else {})
    + (if 1 in indices then s.linearThrusters[1] else {})
    + (if 2 in indices then s.linearThrusters[2] else {})
    + (if 3 in indices then s.linearThrusters[3] else {})
  }

  /** The members of one more bucket. */
  lemma LinearMembersAdd(s: Shuttle, indices: set<int>, i: int)
    requires WellFormed(s) && 0 <= i < 4
    ensures LinearMembers(s, indices + {i}) == LinearMembers(s, indices) + s.linearThrusters[i]
  {
  }
}
