/**
 JavaScript number values as the calculator uses them: absolute value,
 division (which yields a non-finite value instead of failing), scaling by a
 positive constant, and `Number.prototype.toFixed(2)`.

 Finite values are modelled as exact reals: binary rounding of IEEE-754
 doubles and the sign of zero are not part of this model.
 */
module Numbers {

  /** `Math.abs` */
  function Abs(x: real): (r: real)
    ensures r >= 0.0
    ensures r == x || r == -x
  {
    if x < 0.0 then -x else x
  }

  /** A JavaScript number: a finite value, or one of the three non-finite
      values that a division by zero produces. */
  datatype Number = Finite(value: real) | Infinity | MinusInfinity | NaN

  /** JavaScript `a / b` on two finite operands. */
  function Divide(a: real, b: real): (r: Number)
    ensures r.Finite? <==> b != 0.0
    ensures r.Finite? ==> r.value * b == a
    ensures r == NaN <==> b == 0.0 && a == 0.0
    ensures r == Infinity <==> b == 0.0 && a > 0.0
    ensures r == MinusInfinity <==> b == 0.0 && a < 0.0
  {
    if b != 0.0 then Finite(a / b)
    else if a > 0.0 then Infinity
    else if a < 0.0 then MinusInfinity
    else NaN
  }

  /** JavaScript `x * k` for a positive finite factor `k`. */
  function Scale(x: Number, k: real): (r: Number)
    requires k > 0.0
    ensures r.Finite? <==> x.Finite?
    ensures r.Finite? ==> r.value / k == x.value
    ensures !x.Finite? ==> r == x
  {
    match x
    case Finite(v) => Finite(v * k)
    case _ => x
  }

  /** The integer nearest to `y`, the larger one when two are equally near. */
  function RoundHalfUp(y: real): (n: int)
    ensures n as real - 0.5 <= y < n as real + 0.5
    ensures y >= 0.0 ==> n >= 0
  {
    (y + 0.5).Floor
  }

  /** RoundHalfUp picks, among all integers, one nearest to `y`, and of two
      equally near ones the larger: the selection rule of `toFixed`. */
  lemma RoundHalfUpIsNearest(y: real, m: int)
    ensures Abs(RoundHalfUp(y) as real - y) <= Abs(m as real - y)
    ensures Abs(RoundHalfUp(y) as real - y) == Abs(m as real - y) ==> m <= RoundHalfUp(y)
  {
  }

  /** RoundHalfUp never decreases as its argument grows. */
  lemma RoundHalfUpMonotone(x: real, y: real)
    requires x <= y
    ensures RoundHalfUp(x) <= RoundHalfUp(y)
  {
  }

  /** An integer is its own rounding. */
  lemma RoundHalfUpOfInteger(k: int)
    ensures RoundHalfUp(k as real) == k
  {
  }

  /** The text `toFixed(2)` returns, up to the rendering of digits: a sign and
      a count of hundredths for a finite value, "Infinity" or "-Infinity",
      or "NaN". */
  datatype Fixed2 = Digits(negative: bool, hundredths: nat) | InfinityText(negative: bool) | NaNText
  {
    /** The value a `Digits` text denotes. */
    function Shown(): real
      requires Digits?
    {
      if negative then -(hundredths as real) / 100.0 else hundredths as real / 100.0
    }
  }

  /** `x.toFixed(2)`: a non-finite value is written out by name; otherwise
      the sign is taken off, the magnitude is rounded to the nearest hundredth
      (ties away from zero) and the sign is put back. */
  function ToFixed2(x: Number): (r: Fixed2)
    ensures r.Digits? <==> x.Finite?
    ensures r.Digits? ==> (r.negative <==> x.value < 0.0)
    ensures r.Digits? ==> Abs(r.Shown() - x.value) <= 0.005
    ensures r.Digits? ==> r.hundredths == RoundHalfUp(Abs(x.value) * 100.0)
    ensures r == NaNText <==> x == NaN
    ensures r == InfinityText(false) <==> x == Infinity
    ensures r == InfinityText(true) <==> x == MinusInfinity
  {
    match x
    case NaN => NaNText
    case Infinity => InfinityText(false)
    case MinusInfinity => InfinityText(true)
    case Finite(v) =>
      if v < 0.0 then Digits(true, RoundHalfUp(-v * 100.0))
      else Digits(false, RoundHalfUp(v * 100.0))
  }

  /** The hundredths `toFixed(2)` shows are, among all counts of hundredths,
      one nearest to the magnitude of the value, and of two equally near
      counts the larger: a tie such as 0.125 is shown as "0.13". */
  lemma ToFixed2IsNearest(v: real, m: nat)
    ensures Abs(ToFixed2(Finite(v)).hundredths as real - Abs(v) * 100.0) <= Abs(m as real - Abs(v) * 100.0)
    ensures Abs(ToFixed2(Finite(v)).hundredths as real - Abs(v) * 100.0) == Abs(m as real - Abs(v) * 100.0)
            ==> m <= ToFixed2(Finite(v)).hundredths
  {
    RoundHalfUpIsNearest(Abs(v) * 100.0, m);
  }

  /** An exact half-hundredth goes to the larger count: 0.125 shows as 0.13,
      and -0.125 as -0.13. */
  lemma ToFixed2Tie()
    ensures ToFixed2(Finite(0.125)) == Digits(false, 13)
    ensures ToFixed2(Finite(-0.125)) == Digits(true, 13)
  {
  }

  /** A value that is already a whole number of hundredths is shown exactly. */
  lemma ToFixed2Exact(k: int)
    ensures ToFixed2(Finite(k as real / 100.0)).Shown() == k as real / 100.0
  {
    if k < 0 {
      assert -(k as real / 100.0) * 100.0 == (-k) as real;
      RoundHalfUpOfInteger(-k);
    } else {
      assert (k as real / 100.0) * 100.0 == k as real;
      RoundHalfUpOfInteger(k);
    }
  }

  /** toFixed(2) is odd: negating a non-zero value only flips the sign. */
  lemma ToFixed2Negate(v: real)
    requires v != 0.0
    ensures ToFixed2(Finite(-v)).hundredths == ToFixed2(Finite(v)).hundredths
    ensures ToFixed2(Finite(-v)).negative != ToFixed2(Finite(v)).negative
  {
  }
}
