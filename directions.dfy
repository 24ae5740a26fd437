/**
 * Cardinal directions and direction flags as the thruster systems use them to
 * index a shuttle's four linear thrust buckets
 * (Content.Server/Shuttles/Systems/ThrusterSystem.cs and EsThrusterSystem.cs).
 *
 * Direction and DirectionFlag are engine enums. Their values, which this model
 * relies on, are: Direction South = 0, East = 2, North = 4, West = 6; and
 * DirectionFlag None = 0, South = 1, East = 2, North = 4, West = 8, with the
 * composites SouthEast = 3, NorthEast = 6, SouthWest = 9, NorthWest = 12.
 */
module Directions {

  /** The four results of Angle.GetCardinalDir(). */
  datatype CardinalDir = South | East | North | West

  /** The Direction enum value of a cardinal direction. */
  function DirectionValue(d: CardinalDir): nat
  {
    match d
    case South => 0
    case East => 2
    case North => 4
    case West => 6
  }

  /** The bucket index (int)GetCardinalDir() / 2 used for LinearThrust and LinearThrusters. */
  function CardinalIndex(d: CardinalDir): (i: nat)
    ensures i < 4
  {
    DirectionValue(d) / 2
  }

  /** The cardinal direction whose bucket has index i. */
  function CardinalOfIndex(i: nat): CardinalDir
    requires i < 4
  {
    if i == 0 then South else if i == 1 then East else if i == 2 then North else West
  }

  /** Bucket indices and cardinal directions are in one-to-one correspondence. */
  lemma CardinalIndexRoundTrip(d: CardinalDir, i: nat)
    requires i < 4
    ensures CardinalOfIndex(CardinalIndex(d)) == d
    ensures CardinalIndex(CardinalOfIndex(i)) == i
  {
  }

  // ---------------------------------------------------------------------------
  // Direction flags
  // ---------------------------------------------------------------------------

  type DirectionFlag = bv8

  const FlagNone: DirectionFlag := 0
  const FlagSouth: DirectionFlag := 1
  const FlagEast: DirectionFlag := 2
  const FlagNorth: DirectionFlag := 4
  const FlagWest: DirectionFlag := 8

  /** Enum.GetValues of DirectionFlag: every declared value, in ascending order. */
  const AllFlags: seq<DirectionFlag> := [0, 1, 2, 3, 4, 6, 8, 9, 12]

  /** The four bits a shuttle's ThrustDirections mask may hold. */
  const DirectionBits: DirectionFlag := 0x0F

  /** The single-bit flag of a cardinal direction. */
  function FlagOf(d: CardinalDir): DirectionFlag
  {
    match d
    case South => FlagSouth
    case East => FlagEast
    case North => FlagNorth
    case West => FlagWest
  }

  function Pow2(n: nat): (r: nat)
    ensures r >= 1
  {
    if n == 0 then 1 else 2 * Pow2(n - 1)
  }

  /** The integer part of the base-2 logarithm of a positive number. */
  function FloorLog2(n: nat): (r: nat)
    requires n > 0
    ensures Pow2(r) <= n < Pow2(r + 1)
  {
    if n == 1 then 0 else 1 + FloorLog2(n / 2)
  }

  /** int.MinValue: what (int)Math.Log2(0), that is (int) of negative infinity, evaluates to. */
  const IntMinValue: int := -0x8000_0000

  /**
   * GetFlagIndex: (int)Math.Log2((int)flag), the position of the highest set
   * bit. For None the logarithm is negative infinity and the cast yields
   * int.MinValue, which is no valid array index.
   */
  function GetFlagIndex(flag: DirectionFlag): (r: int)
    ensures flag == 0 ==> r < 0
    ensures flag != 0 ==> r >= 0
  {
    if flag == 0 then IntMinValue else FloorLog2(flag as nat)
  }

  /** FloorLog2 on the values of the declared flags. */
  lemma FloorLog2OfDeclaredFlags()
    ensures FloorLog2(1) == 0
    ensures FloorLog2(2) == 1 && FloorLog2(3) == 1
    ensures FloorLog2(4) == 2 && FloorLog2(6) == 2
    ensures FloorLog2(8) == 3 && FloorLog2(9) == 3 && FloorLog2(12) == 3
  {
    assert FloorLog2(2) == 1 + FloorLog2(1);
    assert FloorLog2(3) == 1 + FloorLog2(1);
    assert FloorLog2(4) == 1 + FloorLog2(2);
    assert FloorLog2(6) == 1 + FloorLog2(3);
    assert FloorLog2(8) == 1 + FloorLog2(4);
    assert FloorLog2(9) == 1 + FloorLog2(4);
    assert FloorLog2(12) == 1 + FloorLog2(6);
  }

  /** A single-direction flag indexes the bucket of its own direction (South 0, East 1, North 2, West 3). */
  lemma FlagIndexOfCardinal(d: CardinalDir)
    ensures GetFlagIndex(FlagOf(d)) == CardinalIndex(d)
  {
    FloorLog2OfDeclaredFlags();
  }

  /**
   * Every declared flag other than None indexes one of the four buckets: a
   * composite flag picks the bucket of its higher bit (SouthEast East,
   * NorthEast North, SouthWest and NorthWest West).
   */
  lemma FlagIndexOfDeclaredFlags(flag: DirectionFlag)
    requires flag in AllFlags && flag != FlagNone
    ensures 0 <= GetFlagIndex(flag) < 4
    ensures flag == 3 ==> GetFlagIndex(flag) == 1
    ensures flag == 6 ==> GetFlagIndex(flag) == 2
    ensures flag == 9 || flag == 12 ==> GetFlagIndex(flag) == 3
  {
    FloorLog2OfDeclaredFlags();
  }

  // ---------------------------------------------------------------------------
  // The ThrustDirections mask
  // ---------------------------------------------------------------------------

  /** ThrustDirections |= flag. */
  function EnabledDirections(dirs: DirectionFlag, flag: DirectionFlag): DirectionFlag
  {
    dirs | flag
  }

  /** ThrustDirections &= ~flag. */
  function DisabledDirections(dirs: DirectionFlag, flag: DirectionFlag): DirectionFlag
  {
    dirs & !flag
  }

  /** Enabling marks the flag's bits active and leaves the others as they were; disabling is the dual. */
  lemma EnableDisableBits(dirs: DirectionFlag, flag: DirectionFlag)
    ensures EnabledDirections(dirs, flag) & flag == flag
    ensures EnabledDirections(dirs, flag) & !flag == dirs & !flag
    ensures DisabledDirections(dirs, flag) & flag == 0
    ensures DisabledDirections(dirs, flag) & !flag == dirs & !flag
  {
  }

  /** Enabling (and disabling) twice is enabling (disabling) once. */
  lemma ToggleIdempotent(dirs: DirectionFlag, flag: DirectionFlag)
    ensures EnabledDirections(EnabledDirections(dirs, flag), flag) == EnabledDirections(dirs, flag)
    ensures DisabledDirections(DisabledDirections(dirs, flag), flag) == DisabledDirections(dirs, flag)
  {
  }

  /** Disabling undoes an enable of bits that were clear, and enabling undoes a disable of bits that were set. */
  lemma ToggleInverse(dirs: DirectionFlag, flag: DirectionFlag)
    ensures dirs & flag == 0 ==> DisabledDirections(EnabledDirections(dirs, flag), flag) == dirs
    ensures dirs & flag == flag ==> EnabledDirections(DisabledDirections(dirs, flag), flag) == dirs
  {
  }

  /** Toggles with declared flags never set a bit outside the four direction bits. */
  lemma TogglesKeepDirectionBits(dirs: DirectionFlag, flag: DirectionFlag)
    requires dirs & !DirectionBits == 0 && flag in AllFlags
    ensures EnabledDirections(dirs, flag) & !DirectionBits == 0
    ensures DisabledDirections(dirs, flag) & !DirectionBits == 0
  {
  }

  // ---------------------------------------------------------------------------
  // Visiting every declared flag in turn (DisableLinearThrusters)
  // ---------------------------------------------------------------------------

  /** The bits of the first k flags DisableLinearThrusters visits. */
  function SweptBits(k: nat): DirectionFlag
    requires k <= |AllFlags|
  {
    if k == 0 then FlagNone else SweptBits(k - 1) | AllFlags[k - 1]
  }

  /** The bucket indices whose direction bit is set in mask. */
  function ActiveIndices(mask: DirectionFlag): set<int>
  {
    (if mask & FlagSouth != 0 then {0} else {})
    + (if mask & FlagEast != 0 then {1} else {})
    + (if mask & FlagNorth != 0 then {2} else {})
    + (if mask & FlagWest != 0 then {3} else {})
  }

  /**
   * One step of DisableLinearThrusters. Before flag k the mask holds the
   * original bits outside those already visited, and the buckets whose
   * firing was cleared are the set bits already visited. Flag k clears the
   * bucket of one more set bit or, when none of its bits is still set
   * (every composite flag comes after both of its bits), nothing.
   */
  lemma SweepStep(mask: DirectionFlag, k: nat)
    requires k < |AllFlags| && mask & !DirectionBits == 0
    ensures var m, f := mask & !SweptBits(k), AllFlags[k];
      && m & !f == mask & !SweptBits(k + 1)
      && (m & f != 0 ==>
            0 <= GetFlagIndex(f) < 4
            && ActiveIndices(mask & SweptBits(k + 1)) == ActiveIndices(mask & SweptBits(k)) + {GetFlagIndex(f)})
      && (m & f == 0 ==> ActiveIndices(mask & SweptBits(k + 1)) == ActiveIndices(mask & SweptBits(k)))
  {
    FloorLog2OfDeclaredFlags();
    assert SweptBits(1) == 0;
    assert SweptBits(2) == 1;
    assert SweptBits(3) == 3;
    assert SweptBits(4) == 3;
    assert SweptBits(5) == 7;
    assert SweptBits(6) == 7;
    assert SweptBits(7) == 15;
    assert SweptBits(8) == 15;
    assert SweptBits(9) == 15;
  }

  /** After every declared flag, no bit of the mask is left and every set bit's bucket was visited. */
  lemma SweepComplete(mask: DirectionFlag)
    requires mask & !DirectionBits == 0
    ensures mask & !SweptBits(|AllFlags|) == FlagNone
    ensures ActiveIndices(mask & SweptBits(|AllFlags|)) == ActiveIndices(mask)
  {
    assert SweptBits(|AllFlags|) == 15 by {
      assert SweptBits(7) == 15;
      assert SweptBits(9) == 15;
    }
  }

  /** Before any flag, nothing is cleared. */
  lemma SweepStart(mask: DirectionFlag)
    ensures mask & !SweptBits(0) == mask
    ensures ActiveIndices(mask & SweptBits(0)) == {}
  {
  }
}
