/**
 Small shared vocabulary: optional values, results that carry a domain error,
 and the two rounding rules of the modelled program.
 */
module Base {

  datatype Option<+T> = None | Some(value: T)

  datatype Result<+T, +E> = Ok(value: T) | Err(error: E) {
    predicate IsFailure() {
      Err?
    }

    function PropagateFailure<U>(): Result<U, E>
      requires Err?
    {
      Err(error)
    }

    function Extract(): T
      requires Ok?
    {
      value
    }
  }

  function Abs(x: real): real {
    if x < 0.0 then -x else x
  }

  function MaxReal(x: real, y: real): real {
    if x < y then y else x
  }

  function MinReal(x: real, y: real): real {
    if y < x then y else x
  }

  function MaxInt(x: int, y: int): int {
    if x < y then y else x
  }

  function MinInt(x: int, y: int): int {
    if y < x then y else x
  }

  /** The built-in `round` of one argument: to nearest, ties to even. */
  function RoundHalfEven(x: real): (n: int)
    ensures Abs(x - n as real) <= 0.5
    ensures Abs(x - n as real) == 0.5 ==> n % 2 == 0
  {
    var floor := x.Floor;
    var fraction := x - floor as real;
    if fraction < 0.5 || (fraction == 0.5 && floor % 2 == 0) then floor else floor + 1
  }

  /** Those two facts determine the rounded value. */
  lemma RoundHalfEvenIsUnique(x: real, n: int)
    requires Abs(x - n as real) <= 0.5
    requires Abs(x - n as real) == 0.5 ==> n % 2 == 0
    ensures n == RoundHalfEven(x)
  {
    var r := RoundHalfEven(x);
    assert -1.0 <= (n - r) as real <= 1.0;
  }

  /** Rounding is off by half a unit at most, seen from either side. */
  lemma RoundingBounds(x: real, n: int)
    ensures x < n as real ==> RoundHalfEven(x) <= n
    ensures RoundHalfEven(x) < n ==> x < n as real
    ensures RoundHalfEven(x) >= n ==> x >= n as real - 0.5
    ensures RoundHalfEven(x) <= n ==> x <= n as real + 0.5
  {
    var r := RoundHalfEven(x);
    assert r as real - 0.5 <= x <= r as real + 0.5;
  }

  /** The last element of a non-empty sequence. */
  function Last<T>(s: seq<T>): T
    requires s != []
  {
    s[|s| - 1]
  }
}
