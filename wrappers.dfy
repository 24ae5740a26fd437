/** Small shared types: entity ids, an optional value and the outcome of a handler that may throw. */
module Wrappers {

  /** An entity id. */
  type EntityUid = nat

  /** A value that may be absent (a C# null reference or a failed component lookup). */
  datatype Option<+T> = None | Some(value: T)

  /** Why a handler stopped with an exception instead of completing. */
  datatype Fault =
    | ClampBoundsInverted      // Math.Clamp was called with min > max (ArgumentException)
    | MissingShuttleComponent  // Comp<ShuttleComponent> on an entity that has none
    | FlagIndexOutOfRange      // an array index computed from DirectionFlag.None
    | InvalidThrusterType      // a thruster type outside the declared ones (ArgumentOutOfRangeException)

  /** How a state-changing handler ended. */
  datatype Status = Completed | Threw(fault: Fault)
}

/** Arithmetic helpers with the semantics of System.Math on the values the model uses. */
module Numeric {

  function Min(x: real, y: real): (r: real)
    ensures r <= x && r <= y && (r == x || r == y)
  {
    if x <= y then x else y
  }

  function Max(x: real, y: real): (r: real)
    ensures r >= x && r >= y && (r == x || r == y)
  {
    if x >= y then x else y
  }

  /**
   * Math.Clamp(value, lo, hi). The .NET method throws when lo > hi, so every
   * caller must establish lo <= hi (or model the exception itself).
   */
  function Clamp(value: real, lo: real, hi: real): (r: real)
    requires lo <= hi
    ensures lo <= r <= hi
    ensures lo <= value <= hi ==> r == value
    ensures value < lo ==> r == lo
    ensures hi < value ==> r == hi
  {
    if value < lo then lo else if value > hi then hi else value
  }
}
