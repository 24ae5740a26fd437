/**
 * The burn a firing thruster deals to whatever stands in its exhaust
 * (Content.Server/Shuttles/Systems/ThrusterSystem.cs "Burning" region and the
 * same logic in EsThrusterSystem.cs).
 *
 * While a linear thruster is on it carries a "thruster-burn" fixture; the
 * physics engine reports entities starting and ending contact with it, and
 * the per-frame update damages the colliding entities on a fixed cooldown.
 * Times are TimeSpan values counted in ticks.
 */
module Burning {
  import opened Wrappers

  /** Id of the exhaust fixture; contact events from any other fixture are ignored. */
  const BurnFixture: string := "thruster-burn"

  /** TimeSpan ticks per second. */
  const TicksPerSecond: int := 10_000_000

  /**
   * The burn-related fields of a thruster component: whether it is firing, the
   * entities touching its exhaust (a list: an entity may appear more than
   * once), whether it has a damage specifier (Damage != null), the cooldown and
   * the next time damage is due.
   */
  datatype BurnState = BurnState(
    firing: bool,
    colliding: seq<EntityUid>,
    hasDamage: bool,
    cooldown: int,
    nextFire: int)

  /** The update at time now handles this thruster (NextFire is not after now). */
  predicate Due(b: BurnState, now: int)
  {
    b.nextFire <= now
  }

  /** The update at time now damages the colliding entities. */
  predicate Damages(b: BurnState, now: int)
  {
    Due(b, now) && b.firing && |b.colliding| > 0 && b.hasDamage
  }

  /** The burn state after the update at time now: a due thruster moves NextFire on by one cooldown. */
  function Tick(b: BurnState, now: int): BurnState
  {
    if !Due(b, now) then b else b.(nextFire := b.nextFire + b.cooldown)
  }

  /** The entities damaged by the update at time now, once per list entry, in list order. */
  function TickTargets(b: BurnState, now: int): (targets: seq<EntityUid>)
  {
    if Damages(b, now) then b.colliding else []
  }

  /**
   * What one update does: a thruster that is not yet due is untouched and
   * deals nothing; a due one advances by exactly one cooldown, keeps every
   * other field, and damages the whole colliding list only when it is firing,
   * has a damage specifier and something is colliding.
   */
  lemma TickEffect(b: BurnState, now: int)
    ensures !Due(b, now) ==> Tick(b, now) == b && TickTargets(b, now) == []
    ensures Due(b, now) ==> Tick(b, now).nextFire == b.nextFire + b.cooldown
    ensures Tick(b, now).(nextFire := b.nextFire) == b
    ensures |TickTargets(b, now)| > 0 <==> Due(b, now) && b.firing && b.hasDamage && |b.colliding| > 0
    ensures TickTargets(b, now) != [] ==> TickTargets(b, now) == b.colliding
  {
  }

  // ---------------------------------------------------------------------------
  // A run of updates
  // ---------------------------------------------------------------------------

  /** The burn state after the updates at the given times, in order. */
  function Run(b: BurnState, times: seq<int>): BurnState
    decreases |times|
  {
    if |times| == 0 then b else Run(Tick(b, times[0]), times[1..])
  }

  /** How many of the updates at the given times find the thruster due. */
  function DueCount(b: BurnState, times: seq<int>): nat
    decreases |times|
  {
    if |times| == 0 then 0
    else (if Due(b, times[0]) then 1 else 0) + DueCount(Tick(b, times[0]), times[1..])
  }

  /** The schedule keeps its phase: NextFire only ever moves by whole cooldowns, one per due update. */
  lemma {:induction false} RunAdvancesPerDueUpdate(b: BurnState, times: seq<int>)
    ensures Run(b, times).nextFire == b.nextFire + DueCount(b, times) * b.cooldown
    ensures Run(b, times).(nextFire := b.nextFire) == b
    decreases |times|
  {
    if |times| > 0 {
      RunAdvancesPerDueUpdate(Tick(b, times[0]), times[1..]);
    }
  }

  /**
   * Rate limit: with a positive cooldown, updates that all happen by time
   * last find the thruster due at most once per cooldown counted from the
   * first NextFire. (A long pause lets several consecutive updates be due.)
   */
  lemma {:induction false} DueUpdatesAreRateLimited(b: BurnState, times: seq<int>, last: int)
    requires b.cooldown > 0
    requires forall i :: 0 <= i < |times| ==> times[i] <= last
    ensures DueCount(b, times) > 0 ==> b.nextFire + (DueCount(b, times) - 1) * b.cooldown <= last
    decreases |times|
  {
    if |times| > 0 {
      var b' := Tick(b, times[0]);
      DueUpdatesAreRateLimited(b', times[1..], last);
      var k' := DueCount(b', times[1..]);
      if Due(b, times[0]) && k' > 0 {
        assert b'.nextFire + (k' - 1) * b.cooldown <= last;
        assert b.nextFire + k' * b.cooldown == b'.nextFire + (k' - 1) * b.cooldown;
      }
    }
  }

  /** After a long pause the schedule catches up: three updates at the same moment are all due. */
  lemma CatchUpAfterPause()
    ensures var b := BurnState(true, [7], true, 2 * TicksPerSecond, 0);
      var times := [10 * TicksPerSecond, 10 * TicksPerSecond, 10 * TicksPerSecond];
      DueCount(b, times) == 3 && Run(b, times).nextFire == 6 * TicksPerSecond
  {
    var b := BurnState(true, [7], true, 2 * TicksPerSecond, 0);
    var t := 10 * TicksPerSecond;
    var b1 := Tick(b, t);
    var b2 := Tick(b1, t);
    assert [t, t, t][1..] == [t, t];
    assert [t, t][1..] == [t];
    assert [t][1..] == [];
    assert DueCount(b2, [t]) == 1;
    assert Run(b2, [t]).nextFire == 6 * TicksPerSecond;
  }

  // ---------------------------------------------------------------------------
  // Contacts with the exhaust
  // ---------------------------------------------------------------------------

  /** The position of the first occurrence of x in s. */
  function FirstIndex(s: seq<EntityUid>, x: EntityUid): (i: nat)
    requires x in s
    ensures i < |s| && s[i] == x && x !in s[..i]
    decreases |s|
  {
    if s[0] == x then 0
    else
      LaterOccurrence(s, x);
      var j := FirstIndex(s[1..], x);
      assert s[..j + 1] == [s[0]] + s[1..][..j];
      j + 1
  }

  /** An element that is not at the head of a sequence occurs in its tail. */
  lemma LaterOccurrence(s: seq<EntityUid>, x: EntityUid)
    requires x in s && s[0] != x
    ensures x in s[1..]
  {
    var k :| 0 <= k < |s| && s[k] == x;
    assert s[1..][k - 1] == x;
  }

  /** Removing at position j + 1 of s is keeping the head and removing at position j of the tail. */
  lemma RemoveAtStep(s: seq<EntityUid>, j: nat)
    requires j + 1 < |s|
    ensures [s[0]] + (s[1..][..j] + s[1..][j + 1..]) == s[..j + 1] + s[j + 2..]
  {
    assert s[..j + 1] == [s[0]] + s[1..][..j];
    assert s[j + 2..] == s[1..][j + 1..];
  }

  /**
   * List.Remove: drops the first occurrence of x, if any, and keeps the
   * order of everything else.
   */
  function RemoveFirst(s: seq<EntityUid>, x: EntityUid): (r: seq<EntityUid>)
    ensures x in s ==> r == s[..FirstIndex(s, x)] + s[FirstIndex(s, x) + 1..]
    ensures x in s ==> |r| == |s| - 1 && multiset(r) == multiset(s) - multiset{x}
    ensures x !in s ==> r == s
    decreases |s|
  {
    if |s| == 0 then s
    else if s[0] == x then
      assert s == [s[0]] + s[1..];
      s[1..]
    else if x in s then
      LaterOccurrence(s, x);
      RemoveAtStep(s, FirstIndex(s[1..], x));
      assert s == [s[0]] + s[1..];
      [s[0]] + RemoveFirst(s[1..], x)
    else
      assert s == [s[0]] + s[1..];
      [s[0]] + RemoveFirst(s[1..], x)
  }

  /** OnStartCollide: a contact with the exhaust fixture appends the other entity. */
  function StartCollide(b: BurnState, ourFixture: string, other: EntityUid): BurnState
  {
    if ourFixture != BurnFixture then b else b.(colliding := b.colliding + [other])
  }

  /** OnEndCollide: the end of a contact with the exhaust fixture removes one entry of the other entity. */
  function EndCollide(b: BurnState, ourFixture: string, other: EntityUid): BurnState
  {
    if ourFixture != BurnFixture then b else b.(colliding := RemoveFirst(b.colliding, other))
  }

  /**
   * A contact that starts and ends leaves the colliding entities as they were
   * (as a multiset; exactly when the entity was not already in the list), and
   * contacts of other fixtures change nothing.
   */
  lemma EndCollideUndoesStartCollide(b: BurnState, ourFixture: string, other: EntityUid)
    ensures multiset(EndCollide(StartCollide(b, ourFixture, other), ourFixture, other).colliding)
         == multiset(b.colliding)
    ensures other !in b.colliding ==> EndCollide(StartCollide(b, ourFixture, other), ourFixture, other) == b
    ensures ourFixture != BurnFixture ==>
      StartCollide(b, ourFixture, other) == b && EndCollide(b, ourFixture, other) == b
  {
    if ourFixture == BurnFixture {
      var s := b.colliding + [other];
      assert other in s by { assert s[|s| - 1] == other; }
      if other !in b.colliding {
        RemoveAppended(b.colliding, other);
      }
    }
  }

  /** Removing the first occurrence of an entity that only occurs at the end strips it. */
  lemma RemoveAppended(s: seq<EntityUid>, x: EntityUid)
    requires x !in s
    ensures RemoveFirst(s + [x], x) == s
  {
    var t := s + [x];
    assert t[|s|] == x;
    assert FirstIndex(t, x) == |s|;
    assert t[..|s|] == s;
  }

  /** Each started contact is counted: an entity that started colliding n times more than it ended is listed n times. */
  lemma StartCollideCounts(b: BurnState, other: EntityUid)
    ensures multiset(StartCollide(b, BurnFixture, other).colliding)[other] == multiset(b.colliding)[other] + 1
  {
  }
}
