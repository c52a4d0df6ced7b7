/** The bounded retry around agreement creation. */
module AgreementRetry {
  import opened Basics

  const MAX_CREATE_ATTEMPTS := 5

  /** How one attempt of the unit ends. */
  datatype Attempt<T> =
    | Success(value: T)
    | Serialization
    | UniqueViolation
    | Other(error: string)

  datatype Outcome<T> = Returned(value: T) | Thrown(error: string) | NotFound | Busy

  predicate Retryable<T>(a: Attempt<T>) { a.Serialization? || a.UniqueViolation? }

  function Ended<T>(a: Attempt<T>): Outcome<T>
    requires !Retryable(a)
  {
    match a
    case Success(v) => Returned(v)
    case Other(e) => Thrown(e)
  }

  /**
   * The first attempt that is not retryable decides; when every attempt is, the last one
   * does. `used` attempts ran, with a pause between each two.
   */
  method RunWithRetry<T>(unit: seq<Attempt<T>>, attempts: nat) returns (r: Outcome<T>, used: nat, pauses: nat)
    requires attempts <= |unit|
    ensures used <= attempts && pauses == if used == 0 then 0 else used - 1
    ensures forall i :: 0 <= i < used - 1 ==> Retryable(unit[i])
    ensures used > 0 && !Retryable(unit[used - 1]) ==> r == Ended(unit[used - 1])
    ensures used == 0 || Retryable(unit[used - 1]) ==>
              used == attempts && r == if used > 0 && unit[used - 1].UniqueViolation? then NotFound else Busy
  {
    var last: Option<Attempt<T>> := None;
    used, pauses := 0, 0;
    while used < attempts
      invariant used <= attempts && pauses == (if used == 0 then 0 else if used < attempts then used else used - 1)
      invariant forall i :: 0 <= i < used ==> Retryable(unit[i])
      invariant last == if used == 0 then None else Some(unit[used - 1])
    {
      var attempt := unit[used];
      used := used + 1;
      if !Retryable(attempt) { return Ended(attempt), used, pauses; }
      last := Some(attempt);
      if used < attempts { pauses := pauses + 1; }
    }
    if last.Some? && last.value.UniqueViolation? { return NotFound, used, pauses; }
    return Busy, used, pauses;
  }
}
