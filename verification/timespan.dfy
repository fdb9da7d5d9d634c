/**
  Time spans as the store sees them. A timestamp is an integer count of
  seconds; a span starts at `start` and lasts `duration` seconds, and it
  contains the half-open interval [start, start + duration).
 */
module Timespan {

  const Hour: nat := 3600
  const Day: nat := 24 * Hour

  datatype Span = Span(start: int, duration: nat) {

    function End(): int {
      start + duration
    }

    /** Start inclusive, end exclusive. */
    predicate ContainsTime(t: int) {
      start <= t < End()
    }
  }
}
