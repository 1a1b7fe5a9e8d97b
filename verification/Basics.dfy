/** Types shared by the modules. */
module Basics {

  datatype Option<+T> = None | Some(value: T)

  /** A medium, by its name; media of one family and library are compared. */
  type Medium = string

  datatype Time = Time(sec: int, usec: int)

  /** A time as a number of microseconds. */
  function Micros(t: Time): int {
    t.sec * 1000000 + t.usec
  }

  /** The microseconds are less than a second. */
  predicate Normal(t: Time) {
    0 <= t.usec < 1000000
  }

  function Total(values: seq<nat>): nat {
    if values == [] then 0 else values[0] + Total(values[1..])
  }

  predicate NoDup<T(==)>(s: seq<T>) {
    forall i, j :: 0 <= i < j < |s| ==> s[i] != s[j]
  }

  // Error codes; functions return them negated.
  const EIO: int := 5
  const EINVAL: int := 22
  const ENODATA: int := 61
  const ENOTSUP: int := 95
  const ENOMEDIUM: int := 123
}
