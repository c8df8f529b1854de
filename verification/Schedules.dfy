/** Schedules made of rounds. */
module Schedules {
  function Concat<T>(rounds: seq<seq<T>>): seq<T> {
    if rounds == [] then [] else rounds[0] + Concat(rounds[1..])
  }
}
