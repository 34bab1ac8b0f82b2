/** Factors as the converter computes with them: a float, or an instance of
    a `NonLinearConverter` subclass (units/conversions.py:532-583), with
    Python's `*`, `/` and `**` on them as the old-style class defines them. */
module Converters {
  import opened Tables
  import opened Outcomes

  /** A float, or a converter instance with its `prefix` and `power`. */
  datatype Factor = Linear(r: real) | NonLinear(kind: Kind, prefix: real, power: real)

  /** `Kind()`: an instance with the default `prefix=1.` and `power=1.`. */
  function Fresh(kind: Kind): Factor {
    NonLinear(kind, 1.0, 1.0)
  }

  /** The magnitude systems' `__call__`, which takes `10**` and `log10`:
      supplied by the caller as `(system, value, inv)`. */
  type MagMaths = (Magnitude, real, bool) -> real

  /** `x * y`. A float times a float multiplies; a float times a converter
      goes to `__rmul__`, which scales the prefix and resets the power to its
      default; a converter on the left has no `__mul__`, so Python raises
      `TypeError` (and a converter times a converter gives `None`, which
      fails as soon as it is used). */
  function Times(x: Factor, y: Factor): (r: Result<Factor>)
    ensures r.Err? <==> x.NonLinear?
    ensures r.Err? ==> r.error == OperandType
    ensures r.Ok? ==> (r.value.Linear? <==> y.Linear?)
  {
    match (x, y)
    case (Linear(a), Linear(b)) => Ok(Linear(a * b))
    case (Linear(a), NonLinear(k, p, _)) => Ok(NonLinear(k, p * a, 1.0))
    case (NonLinear(_, _, _), _) => Err(OperandType)
  }

  /** `x / y`. Floats divide, failing on a zero divisor; a converter divided
      by a number goes to `__div__`, which multiplies the prefix and resets
      the power; a float has no way to divide by a converter (no
      `__rdiv__`). A converter divided by a converter is reported as the
      same `OperandType` failure, where `__div__` returns `None`. */
  function Divide(x: Factor, y: Factor): (r: Result<Factor>)
    ensures r.Err? <==> y.NonLinear? || (x.Linear? && y.r == 0.0)
    ensures r.Ok? ==> (r.value.Linear? <==> x.Linear?)
  {
    match (x, y)
    case (Linear(a), Linear(b)) => if b == 0.0 then Err(DivisionByZero) else Ok(Linear(a / b))
    case (NonLinear(k, p, _), Linear(b)) => Ok(NonLinear(k, p * b, 1.0))
    case (_, NonLinear(_, _, _)) => Err(OperandType)
  }

  /** `r ** n` for a natural `n`. */
  function NatPower(r: real, n: nat): real {
    if n == 0 then 1.0 else r * NatPower(r, n - 1)
  }

  /** `x ** n` for an integer `n`: a float is raised to the power (zero to a
      negative power raises `ZeroDivisionError`); a converter's `__pow__`
      adds `n` to its power and keeps its prefix. */
  function Power(x: Factor, n: int): (r: Result<Factor>)
    ensures r.Err? <==> x == Linear(0.0) && n < 0
    ensures r.Ok? ==> (r.value.Linear? <==> x.Linear?)
  {
    match x
    case Linear(a) =>
      if n >= 0 then Ok(Linear(NatPower(a, n)))
      else if a == 0.0 then Err(DivisionByZero)
      else
        NatPowerNonZero(a, -n);
        Ok(Linear(1.0 / NatPower(a, -n)))
    case NonLinear(k, p, q) => Ok(NonLinear(k, p, q + n as real))
  }

  /** `c(a)`: the converter's value in SI for the reading `a`. */
  function Forward(c: Factor, a: real, mag: MagMaths): real
    requires c.NonLinear?
  {
    match c.kind
    case Fahrenheit => (a * c.prefix + 459.67) * 5.0 / 9.0
    case Celcius => a * c.prefix - 273.15
    case Mag(m) => mag(m, a, false)
  }

  /** `c(a, inv=True)`: the reading for the SI value `a`; the temperature
      scales divide by the prefix. */
  function Inverse(c: Factor, a: real, mag: MagMaths): (r: Result<real>)
    requires c.NonLinear?
    ensures r.Err? <==> !c.kind.Mag? && c.prefix == 0.0
  {
    match c.kind
    case Fahrenheit => if c.prefix == 0.0 then Err(DivisionByZero) else Ok((a * 9.0 / 5.0 - 459.67) / c.prefix)
    case Celcius => if c.prefix == 0.0 then Err(DivisionByZero) else Ok((a + 273.15) / c.prefix)
    case Mag(m) => Ok(mag(m, a, true))
  }

  // ---------------------------------------------------------------------
  // Properties

  /** For a non-zero prefix, the inverse call undoes the forward call of the
      temperature scales. */
  lemma TemperatureRoundTrip(c: Factor, a: real, mag: MagMaths)
    requires c.NonLinear? && !c.kind.Mag? && c.prefix != 0.0
    ensures Inverse(c, Forward(c, a, mag), mag) == Ok(a)
  {
    var p := c.prefix;
    if c.kind == Fahrenheit {
      var b := (a * p + 459.67) * 5.0 / 9.0;
      assert Forward(c, a, mag) == b;
      assert Inverse(c, b, mag) == Ok((b * 9.0 / 5.0 - 459.67) / p);
      assert b * 9.0 / 5.0 - 459.67 == a * p;
      Cancel(a, p);
    } else {
      var b := a * p - 273.15;
      assert Forward(c, a, mag) == b;
      assert Inverse(c, b, mag) == Ok((b + 273.15) / p);
      assert b + 273.15 == a * p;
      Cancel(a, p);
    }
  }

  lemma Cancel(u: real, p: real)
    requires p != 0.0
    ensures (u * p) / p == u
  {
  }

  /** And the forward call undoes the inverse call. */
  lemma TemperatureRoundTripInverse(c: Factor, a: real, mag: MagMaths)
    requires c.NonLinear? && !c.kind.Mag? && c.prefix != 0.0
    ensures Inverse(c, a, mag).Ok? && Forward(c, Inverse(c, a, mag).value, mag) == a
  {
    var p := c.prefix;
    if c.kind == Fahrenheit {
      var x := (a * 9.0 / 5.0 - 459.67) / p;
      assert x * p == a * 9.0 / 5.0 - 459.67;
    } else {
      var x := (a + 273.15) / p;
      assert x * p == a + 273.15;
    }
  }

  /** `Celcius` reads `a` as `a * prefix - 273.15`: the reading 0 is
      -273.15 in SI, not 273.15 (the sign is the source's). */
  lemma CelciusOffset(mag: MagMaths)
    ensures Forward(Fresh(Celcius), 0.0, mag) == -273.15
    ensures Forward(Fresh(Celcius), 273.15, mag) == 0.0
  {
  }

  /** A fresh `Fahrenheit` reads `a` as `(a + 459.67) * 5 / 9`. */
  lemma FahrenheitReading(a: real, mag: MagMaths)
    ensures Forward(Fresh(Fahrenheit), a, mag) == (a + 459.67) * 5.0 / 9.0
  {
  }

  /** A number times a converter scales its readings: `(k * c)(a)` is
      `c(k * a)` for the temperature scales. */
  lemma ScaledReading(k: real, c: Factor, a: real, mag: MagMaths)
    requires c.NonLinear? && !c.kind.Mag?
    ensures Times(Linear(k), c).Ok? && Times(Linear(k), c).value.NonLinear?
    ensures Forward(Times(Linear(k), c).value, a, mag) == Forward(c, k * a, mag)
  {
    var p := c.prefix;
    assert a * (p * k) == (k * a) * p;
  }

  /** `__rmul__` resets the power to its default whatever it was. */
  lemma TimesResetsPower(k: real, c: Factor)
    requires c.NonLinear?
    ensures Times(Linear(k), c).Ok? && Times(Linear(k), c).value.power == 1.0
    ensures Times(Linear(k), c).value.kind == c.kind
  {
  }

  /** `__div__` multiplies the prefix by the divisor: dividing by `k`
      scales readings by `k`, as multiplying by `k` does. */
  lemma DivideMultiplies(c: Factor, k: real)
    requires c.NonLinear?
    ensures Divide(c, Linear(k)) == Times(Linear(k), c)
  {
    var d, t := Divide(c, Linear(k)), Times(Linear(k), c);
    assert d.Ok? && d.value == NonLinear(c.kind, c.prefix * k, 1.0);
    assert t.Ok? && t.value == NonLinear(c.kind, c.prefix * k, 1.0);
  }

  /** `__pow__` adds to the power and keeps the prefix, so the readings of
      a converter do not depend on the power it is raised to. */
  lemma PowerKeepsReadings(c: Factor, n: int, a: real, mag: MagMaths)
    requires c.NonLinear?
    ensures Power(c, n).Ok? && Power(c, n).value.NonLinear?
    ensures Power(c, n).value.power == c.power + n as real
    ensures Forward(Power(c, n).value, a, mag) == Forward(c, a, mag)
  {
  }

  /** A non-zero float raised to any power is non-zero. */
  lemma {:induction false} NatPowerNonZero(r: real, n: nat)
    requires r != 0.0
    ensures NatPower(r, n) != 0.0
  {
    if n > 0 {
      NatPowerNonZero(r, n - 1);
    }
  }

  /** `x ** -n` is the reciprocal of `x ** n`. */
  lemma PowerNegate(r: real, n: int)
    requires r != 0.0
    ensures Power(Linear(r), n).Ok? && Power(Linear(r), -n).Ok?
    ensures Power(Linear(r), n).value.r * Power(Linear(r), -n).value.r == 1.0
  {
    NatPowerNonZero(r, if n < 0 then -n else n);
  }
}
