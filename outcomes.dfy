/**
 * How a validator run ends, shared by the structure and article validators:
 * the script reports the messages it collected, or it dies with an uncaught
 * exception before reporting anything.
 */
module Outcomes {
  datatype Outcome<E> = Finished(errors: seq<E>) | Crashed

  /** `process.exit(1)` when there are messages, `0` otherwise; an uncaught exception also ends Node with `1`. */
  function ExitCode<E>(o: Outcome<E>): (code: nat)
    ensures code <= 1
    ensures code == 0 <==> o.Finished? && |o.errors| == 0
  {
    match o
    case Crashed => 1
    case Finished(errors) => if |errors| > 0 then 1 else 0
  }
}
