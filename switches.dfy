/** The linear change-of-base functions of `_switch`
    (units/conversions.py:299-526): each takes an SI value and the SI values
    of the keyword arguments, reads the reference quantity it needs (`wave`
    before `freq`, `diam` before `radius`) and changes base with it. */
module Switches {
  import opened Tables
  import opened Outcomes

  /** `**kwargs_SI`: keyword to SI value. */
  type Kwargs = map<string, real>

  /** The keyword argument a change-of-base function has read. */
  datatype Reference = Reference(key: string, value: real)

  /** `x / y`, raising `ZeroDivisionError` on a zero divisor. */
  function Quotient(x: real, y: real): (r: Result<real>)
    ensures r.Err? <==> y == 0.0
    ensures r.Err? ==> r.error == DivisionByZero
    ensures r.Ok? ==> r.value * y == x
  {
    if y == 0.0 then Err(DivisionByZero) else Ok(x / y)
  }

  const WaveMissing := "reference wavelength (wave) not given"
  const WaveFreqMissing := "reference wave/freq not given"
  const SizeMissing := "angular size (diam/radius) not given"

  /** The keywords a change-of-base function reads, in the order its
      `if`/`elif` chain tries them. */
  function References(s: Switch): seq<string> {
    match s
    case Distance2Velocity => ["wave"]
    case Velocity2Distance => ["wave"]
    case Distance2Frequency => []
    case PerSr => ["diam", "radius"]
    case TimesSr => ["diam", "radius"]
    case _ => ["wave", "freq"]
  }

  /** The message of the `ValueError` raised when none of them is given. */
  function Missing(s: Switch): string {
    match s
    case Distance2Velocity => WaveMissing
    case Velocity2Distance => WaveMissing
    case PerSr => SizeMissing
    case TimesSr => SizeMissing
    case _ => WaveFreqMissing
  }

  /** The first of `keys` that is among the keyword arguments. */
  function Pick(keys: seq<string>, kw: Kwargs): (r: Option<Reference>)
    ensures r.None? <==> forall key :: key in keys ==> key !in kw
    ensures r.Some? ==> r.value.key in keys && r.value.key in kw && kw[r.value.key] == r.value.value
  {
    if keys == [] then None
    else if keys[0] in kw then Some(Reference(keys[0], kw[keys[0]]))
    else
      var r := Pick(keys[1..], kw);
      assert forall key :: key in keys ==> key == keys[0] || key in keys[1..];
      r
  }

  /** The angular radius `per_sr` and `times_sr` use: half of `diam`, or
      `radius`. */
  function RadiusOf(ref: Reference): real {
    if ref.key == "diam" then ref.value / 2.0 else ref.value
  }

  /** The solid-angle factor `pi*(2*pi*radius)**2`. */
  function SolidAngle(radius: real, k: Physics): real {
    k.pi * ((2.0 * k.pi * radius) * (2.0 * k.pi * radius))
  }

  /** The arithmetic of a change-of-base function once it has read its
      reference; `wave` and `diam` are the first keywords tried. */
  function Change(s: Switch, arg: real, ref: Reference, k: Physics): (r: Result<real>)
    requires s != Distance2Frequency
    ensures r.Err? ==> r.error == DivisionByZero
  {
    var cc, pi, v := k.cc, k.pi, ref.value;
    var wave := ref.key == "wave";
    match s
    case Distance2Velocity =>
      var q :- Quotient(arg - v, v);
      Ok(q * cc)
    case Velocity2Distance =>
      Ok(v / cc * arg + v)
    case Fnu2Flambda =>
      if wave then
        var q :- Quotient(cc, v * v);
        Ok(q * arg)
      else Ok(v * v / cc * arg)
    case Flambda2Fnu =>
      if wave then Ok(v * v / cc * arg)
      else
        var q :- Quotient(cc, v * v);
        Ok(q * arg)
    case Fnu2NuFnu =>
      if wave then
        var q :- Quotient(cc, v);
        Ok(q * arg)
      else Ok(v / cc * arg)
    case NuFnu2Fnu =>
      if wave then Ok(v / cc * arg)
      else
        var q :- Quotient(cc, v);
        Ok(q * arg)
    case Distance2SpatialFreq =>
      if wave then Quotient(2.0 * pi * arg, v)
      else Ok(2.0 * pi * arg * cc * v)
    case SpatialFreq2Distance =>
      if wave then Ok(v * arg / (2.0 * pi))
      else
        var q :- Quotient(cc, v);
        Ok(q * arg / (2.0 * pi))
    case PerSr =>
      Quotient(arg, SolidAngle(RadiusOf(ref), k))
    case TimesSr =>
      Ok(arg * SolidAngle(RadiusOf(ref), k))
  }

  /** `_switch[key](arg, **kwargs)`: fails with the function's `ValueError`
      exactly when it needs a reference and none of its keywords is given,
      and otherwise only on a division by zero. */
  function Apply(s: Switch, arg: real, kw: Kwargs, k: Physics): (r: Result<real>)
    ensures r.Err? ==> r.error.MissingReference? || r.error == DivisionByZero
    ensures (r.Err? && r.error.MissingReference?) <==>
      References(s) != [] && forall key :: key in References(s) ==> key !in kw
    ensures r.Err? && r.error.MissingReference? ==> r.error.message == Missing(s)
  {
    if s == Distance2Frequency then Quotient(k.cc, arg)
    else
      match Pick(References(s), kw)
      case None => Err(MissingReference(Missing(s)))
      case Some(ref) => Change(s, arg, ref, k)
  }

  // ---------------------------------------------------------------------
  // Properties

  /** `Pick` on two keywords is the `if`/`elif` chain. */
  lemma PickTwo(a: string, b: string, kw: Kwargs)
    ensures Pick([a, b], kw) ==
      if a in kw then Some(Reference(a, kw[a]))
      else if b in kw then Some(Reference(b, kw[b]))
      else None
  {
    assert [a, b][1..] == [b];
    assert [b][1..] == [];
  }

  /** The entry of `_switch` that undoes each entry: the pairs undo each
      other and `distance2frequency` undoes itself. */
  function Back(s: Switch): (b: Switch)
    ensures References(b) == References(s)
  {
    match s
    case Distance2Velocity => Velocity2Distance
    case Velocity2Distance => Distance2Velocity
    case Distance2Frequency => Distance2Frequency
    case Distance2SpatialFreq => SpatialFreq2Distance
    case SpatialFreq2Distance => Distance2SpatialFreq
    case Fnu2Flambda => Flambda2Fnu
    case Flambda2Fnu => Fnu2Flambda
    case Fnu2NuFnu => NuFnu2Fnu
    case NuFnu2Fnu => Fnu2NuFnu
    case PerSr => TimesSr
    case TimesSr => PerSr
  }

  /** `Back` pairs the entries up. */
  lemma BackInvolution(s: Switch)
    ensures Back(Back(s)) == s
  {
  }

  /** The references under which `s` is undone by `Back(s)`: a non-zero
      reference, which for the spatial-frequency pair must be `wave`. */
  predicate Undoable(s: Switch, ref: Reference) {
    && ref.value != 0.0
    && (s == Distance2SpatialFreq || s == SpatialFreq2Distance ==> ref.key == "wave")
  }

  /** The arguments under which `s` is undone by `Back(s)`: a non-zero value
      for `distance2frequency`, otherwise an undoable reference. */
  predicate Invertible(s: Switch, x: real, kw: Kwargs) {
    if s == Distance2Frequency then x != 0.0
    else
      var ref := Pick(References(s), kw);
      ref.Some? && Undoable(s, ref.value)
  }

  lemma MulBoth(a: real, b: real, c: real)
    requires a == b
    ensures a * c == b * c
  {
  }

  lemma MultiplyThenDivide(x: real, a: real, y: real)
    requires a != 0.0 && y == x * a
    ensures y / a == x
  {
    assert (y / a) * a == x * a;
    CancelRight(y / a, x, a);
  }

  lemma CancelRight(a: real, b: real, p: real)
    requires p != 0.0 && a * p == b * p
    ensures a == b
  {
    assert (a - b) * p == 0.0;
  }

  /** Multiplying by `a` and then by `b` is the identity when `a` takes
      `p` to `q` and `b` takes `q` back to `p`. */
  lemma Reciprocal(a: real, b: real, p: real, q: real, x: real)
    requires p != 0.0 && q != 0.0
    requires a * p == q && b * q == p
    ensures b * (a * x) == x
  {
    assert (b * a) * p == b * q;
    assert (b * a - 1.0) * p == 0.0;
    assert b * a == 1.0;
  }

  lemma SquareNonZero(a: real)
    requires a != 0.0
    ensures a * a != 0.0
  {
  }

  lemma SolidAnglePositive(radius: real, k: Physics)
    requires radius != 0.0
    ensures SolidAngle(radius, k) > 0.0
  {
    var l := 2.0 * k.pi * radius;
    assert l * l > 0.0;
  }

  /** Going forth to `y` and back to `z`. */
  lemma Chain(s: Switch, x: real, y: real, z: real, ref: Reference, k: Physics)
    requires s != Distance2Frequency
    requires Change(s, x, ref, k).Ok? && Change(s, x, ref, k).value == y
    requires Change(Back(s), y, ref, k).Ok? && Change(Back(s), y, ref, k).value == z
    ensures Change(s, x, ref, k).Ok?
    ensures Change(Back(s), Change(s, x, ref, k).value, ref, k) == Ok(z)
  {
  }

  lemma VelocityAlgebra(x: real, v: real, cc: real)
    requires v != 0.0 && cc != 0.0
    ensures v / cc * ((x - v) / v * cc) + v == x
  {
    var q, t := (x - v) / v, v / cc;
    assert q * v == x - v;
    assert t * cc == v;
    assert t * (q * cc) == (t * cc) * q;
  }

  lemma DistanceAlgebra(x: real, v: real, cc: real)
    requires v != 0.0 && cc != 0.0
    ensures (v / cc * x + v - v) / v * cc == x
  {
    var t := v / cc;
    var u := (t * x + v - v) / v;
    assert t * cc == v;
    assert u * v == t * x;
    assert (u * cc) * v == (u * v) * cc;
    assert (t * x) * cc == (t * cc) * x;
    CancelRight(u * cc, x, v);
  }

  /** Distance to velocity and back, through `wave`. */
  lemma VelocityRoundTrip(x: real, ref: Reference, k: Physics)
    requires ref.value != 0.0
    ensures Change(Distance2Velocity, x, ref, k).Ok?
    ensures Change(Velocity2Distance, Change(Distance2Velocity, x, ref, k).value, ref, k) == Ok(x)
  {
    var cc, v := k.cc, ref.value;
    var y := (x - v) / v * cc;
    assert Change(Distance2Velocity, x, ref, k).Ok? && Change(Distance2Velocity, x, ref, k).value == y;
    var z := v / cc * y + v;
    assert Change(Velocity2Distance, y, ref, k).Ok? && Change(Velocity2Distance, y, ref, k).value == z;
    VelocityAlgebra(x, v, cc);
    assert z == x;
    Chain(Distance2Velocity, x, y, z, ref, k);
  }

  /** Velocity to distance and back. */
  lemma DistanceRoundTrip(x: real, ref: Reference, k: Physics)
    requires ref.value != 0.0
    ensures Change(Velocity2Distance, x, ref, k).Ok?
    ensures Change(Distance2Velocity, Change(Velocity2Distance, x, ref, k).value, ref, k) == Ok(x)
  {
    var cc, v := k.cc, ref.value;
    var y := v / cc * x + v;
    assert Change(Velocity2Distance, x, ref, k).Ok? && Change(Velocity2Distance, x, ref, k).value == y;
    var z := (y - v) / v * cc;
    assert Change(Distance2Velocity, y, ref, k).Ok? && Change(Distance2Velocity, y, ref, k).value == z;
    DistanceAlgebra(x, v, cc);
    assert z == x;
    Chain(Velocity2Distance, x, y, z, ref, k);
  }

  lemma DivideThenMultiply(x: real, a: real, b: real)
    requires a != 0.0 && b != 0.0
    ensures b * (a * x / b) / a == x
  {
    var y := a * x / b;
    var z := b * y / a;
    assert y * b == a * x;
    assert z * a == b * y;
    assert z * a == x * a;
    CancelRight(z, x, a);
  }

  /** Distance to spatial frequency and back, through `wave`. */
  lemma SpatialRoundTrip(x: real, ref: Reference, k: Physics)
    requires ref.value != 0.0 && ref.key == "wave"
    ensures Change(Distance2SpatialFreq, x, ref, k).Ok?
    ensures Change(SpatialFreq2Distance, Change(Distance2SpatialFreq, x, ref, k).value, ref, k) == Ok(x)
  {
    var tau, v := 2.0 * k.pi, ref.value;
    var y := tau * x / v;
    assert Change(Distance2SpatialFreq, x, ref, k).Ok? && Change(Distance2SpatialFreq, x, ref, k).value == y;
    var z := v * y / tau;
    assert Change(SpatialFreq2Distance, y, ref, k).Ok? && Change(SpatialFreq2Distance, y, ref, k).value == z;
    DivideThenMultiply(x, tau, v);
    assert z == x;
    Chain(Distance2SpatialFreq, x, y, z, ref, k);
  }

  /** Spatial frequency to distance and back, through `wave`. */
  lemma SpatialInverseRoundTrip(x: real, ref: Reference, k: Physics)
    requires ref.value != 0.0 && ref.key == "wave"
    ensures Change(SpatialFreq2Distance, x, ref, k).Ok?
    ensures Change(Distance2SpatialFreq, Change(SpatialFreq2Distance, x, ref, k).value, ref, k) == Ok(x)
  {
    var tau, v := 2.0 * k.pi, ref.value;
    var y := v * x / tau;
    assert Change(SpatialFreq2Distance, x, ref, k).Ok? && Change(SpatialFreq2Distance, x, ref, k).value == y;
    var z := tau * y / v;
    assert Change(Distance2SpatialFreq, y, ref, k).Ok? && Change(Distance2SpatialFreq, y, ref, k).value == z;
    DivideThenMultiply(x, v, tau);
    assert z == x;
    Chain(SpatialFreq2Distance, x, y, z, ref, k);
  }

  /** `per_sr` then `times_sr`, and the other way round. */
  lemma SolidAngleRoundTrip(s: Switch, x: real, ref: Reference, k: Physics)
    requires s == PerSr || s == TimesSr
    requires ref.value != 0.0
    ensures Change(s, x, ref, k).Ok?
    ensures Change(Back(s), Change(s, x, ref, k).value, ref, k) == Ok(x)
  {
    var a := SolidAngle(RadiusOf(ref), k);
    SolidAnglePositive(RadiusOf(ref), k);
    if s == PerSr {
      var y := x / a;
      assert Change(s, x, ref, k).Ok? && Change(s, x, ref, k).value == y;
      assert y * a == x;
      assert Change(Back(s), y, ref, k).Ok? && Change(Back(s), y, ref, k).value == y * a;
      Chain(s, x, y, x, ref, k);
    } else {
      var y := x * a;
      assert Change(s, x, ref, k).Ok? && Change(s, x, ref, k).value == y;
      MultiplyThenDivide(x, a, y);
      assert Change(Back(s), y, ref, k).Ok? && Change(Back(s), y, ref, k).value == x;
      Chain(s, x, y, x, ref, k);
    }
  }

  /** The flux pairs multiply by factors that are each other's reciprocal:
      `a` takes `p` to `q` and `b` takes `q` back. */
  lemma ScaleRoundTrip(s: Switch, x: real, ref: Reference, k: Physics, a: real, b: real, p: real, q: real)
    requires s != Distance2Frequency
    requires p != 0.0 && q != 0.0 && a * p == q && b * q == p
    requires Change(s, x, ref, k).Ok? && Change(s, x, ref, k).value == a * x
    requires Change(Back(s), a * x, ref, k).Ok? && Change(Back(s), a * x, ref, k).value == b * (a * x)
    ensures Change(s, x, ref, k).Ok?
    ensures Change(Back(s), Change(s, x, ref, k).value, ref, k) == Ok(x)
  {
    Reciprocal(a, b, p, q, x);
    Chain(s, x, a * x, x, ref, k);
  }

  /** `fnu2flambda` and `flambda2fnu` undo each other. */
  lemma FlambdaRoundTrip(s: Switch, x: real, ref: Reference, k: Physics)
    requires s == Fnu2Flambda || s == Flambda2Fnu
    requires ref.value != 0.0
    ensures Change(s, x, ref, k).Ok?
    ensures Change(Back(s), Change(s, x, ref, k).value, ref, k) == Ok(x)
  {
    var cc, v := k.cc, ref.value;
    SquareNonZero(v);
    var m, d := cc / (v * v), v * v / cc;
    assert m * (v * v) == cc;
    assert d * cc == v * v;
    if (s == Fnu2Flambda) == (ref.key == "wave") {
      FlambdaDivides(s, x, ref, k, m);
      FlambdaMultiplies(Back(s), m * x, ref, k, d);
      ScaleRoundTrip(s, x, ref, k, m, d, v * v, cc);
    } else {
      FlambdaMultiplies(s, x, ref, k, d);
      FlambdaDivides(Back(s), d * x, ref, k, m);
      ScaleRoundTrip(s, x, ref, k, d, m, cc, v * v);
    }
  }

  /** The direction of the flux pair that divides by the squared
      reference. */
  lemma FlambdaDivides(s: Switch, x: real, ref: Reference, k: Physics, m: real)
    requires (s == Fnu2Flambda && ref.key == "wave") || (s == Flambda2Fnu && ref.key != "wave")
    requires ref.value != 0.0 && m == k.cc / (ref.value * ref.value)
    ensures Change(s, x, ref, k).Ok? && Change(s, x, ref, k).value == m * x
  {
    SquareNonZero(ref.value);
  }

  /** The direction of the flux pair that multiplies by the squared
      reference. */
  lemma FlambdaMultiplies(s: Switch, x: real, ref: Reference, k: Physics, d: real)
    requires (s == Fnu2Flambda && ref.key != "wave") || (s == Flambda2Fnu && ref.key == "wave")
    requires d == ref.value * ref.value / k.cc
    ensures Change(s, x, ref, k).Ok? && Change(s, x, ref, k).value == d * x
  {
  }

  /** `fnu2nufnu` and `nufnu2fnu` undo each other. */
  lemma NuFnuRoundTrip(s: Switch, x: real, ref: Reference, k: Physics)
    requires s == Fnu2NuFnu || s == NuFnu2Fnu
    requires ref.value != 0.0
    ensures Change(s, x, ref, k).Ok?
    ensures Change(Back(s), Change(s, x, ref, k).value, ref, k) == Ok(x)
  {
    var cc, v := k.cc, ref.value;
    var m, d := cc / v, v / cc;
    assert m * v == cc;
    assert d * cc == v;
    if (s == Fnu2NuFnu) == (ref.key == "wave") {
      assert Change(s, x, ref, k).Ok? && Change(s, x, ref, k).value == m * x;
      assert Change(Back(s), m * x, ref, k).Ok? && Change(Back(s), m * x, ref, k).value == d * (m * x);
      ScaleRoundTrip(s, x, ref, k, m, d, v, cc);
    } else {
      assert Change(s, x, ref, k).Ok? && Change(s, x, ref, k).value == d * x;
      assert Change(Back(s), d * x, ref, k).Ok? && Change(Back(s), d * x, ref, k).value == m * (d * x);
      ScaleRoundTrip(s, x, ref, k, d, m, cc, v);
    }
  }

  /** Every entry but `distance2frequency` is undone by its partner for an
      undoable reference. */
  lemma ChangeRoundTrip(s: Switch, x: real, ref: Reference, k: Physics)
    requires s != Distance2Frequency
    requires Undoable(s, ref)
    ensures Change(s, x, ref, k).Ok?
    ensures Change(Back(s), Change(s, x, ref, k).value, ref, k) == Ok(x)
  {
    match s
    case Distance2Velocity => VelocityRoundTrip(x, ref, k);
    case Velocity2Distance => DistanceRoundTrip(x, ref, k);
    case Distance2SpatialFreq => SpatialRoundTrip(x, ref, k);
    case SpatialFreq2Distance => SpatialInverseRoundTrip(x, ref, k);
    case PerSr => SolidAngleRoundTrip(s, x, ref, k);
    case TimesSr => SolidAngleRoundTrip(s, x, ref, k);
    case Fnu2Flambda => FlambdaRoundTrip(s, x, ref, k);
    case Flambda2Fnu => FlambdaRoundTrip(s, x, ref, k);
    case Fnu2NuFnu => NuFnuRoundTrip(s, x, ref, k);
    case NuFnu2Fnu => NuFnuRoundTrip(s, x, ref, k);
  }

  /** Each entry of `_switch` is undone by its partner. */
  lemma RoundTrip(s: Switch, x: real, kw: Kwargs, k: Physics)
    requires Invertible(s, x, kw)
    ensures Apply(s, x, kw, k).Ok?
    ensures Apply(Back(s), Apply(s, x, kw, k).value, kw, k) == Ok(x)
  {
    if s == Distance2Frequency {
      var y := k.cc / x;
      assert y * x == k.cc;
      assert y != 0.0;
      assert Apply(s, x, kw, k).Ok? && Apply(s, x, kw, k).value == y;
      var z := k.cc / y;
      assert Apply(s, y, kw, k).Ok? && Apply(s, y, kw, k).value == z;
      assert z * y == x * y;
      CancelRight(z, x, y);
    } else {
      var ref := Pick(References(s), kw).value;
      ChangeRoundTrip(s, x, ref, k);
    }
  }

  /** A reference that is given and non-zero. */
  predicate Given(kw: Kwargs, key: string) {
    key in kw && kw[key] != 0.0
  }

  /** Through `freq` alone the spatial-frequency pair does not undo itself:
      going to spatial frequency and back multiplies by `cc` squared, since
      `distance2spatialfreq` multiplies by `cc * freq` where
      `spatialfreq2distance` multiplies by `cc / freq`. */
  lemma SpatialFreqByFrequency(x: real, kw: Kwargs, k: Physics)
    requires "wave" !in kw && Given(kw, "freq")
    ensures Apply(Distance2SpatialFreq, x, kw, k).Ok?
    ensures Apply(SpatialFreq2Distance, Apply(Distance2SpatialFreq, x, kw, k).value, kw, k) == Ok(k.cc * k.cc * x)
  {
    var ref := Reference("freq", kw["freq"]);
    PickTwo("wave", "freq", kw);
    assert Pick(["wave", "freq"], kw) == Some(ref);
    FrequencyRoundTrip(x, ref, k);
  }

  lemma FrequencyRoundTrip(x: real, ref: Reference, k: Physics)
    requires ref == Reference("freq", ref.value) && ref.value != 0.0
    ensures Change(Distance2SpatialFreq, x, ref, k).Ok?
    ensures Change(SpatialFreq2Distance, Change(Distance2SpatialFreq, x, ref, k).value, ref, k) == Ok(k.cc * k.cc * x)
  {
    var f, tau := ref.value, 2.0 * k.pi;
    assert "freq"[0] != "wave"[0];
    var y := tau * x * k.cc * f;
    assert Change(Distance2SpatialFreq, x, ref, k).Ok? && Change(Distance2SpatialFreq, x, ref, k).value == y;
    var z := k.cc / f * y / tau;
    assert Change(SpatialFreq2Distance, y, ref, k).Ok? && Change(SpatialFreq2Distance, y, ref, k).value == z;
    FrequencyAlgebra(x, f, k.cc, tau);
    Chain(Distance2SpatialFreq, x, y, k.cc * k.cc * x, ref, k);
  }

  lemma FrequencyAlgebra(x: real, f: real, cc: real, tau: real)
    requires f != 0.0 && tau != 0.0
    ensures cc / f * (tau * x * cc * f) / tau == cc * cc * x
  {
    var q := cc / f;
    var z := q * (tau * x * cc * f) / tau;
    assert q * f == cc;
    assert q * (tau * x * cc * f) == (q * f) * (tau * x * cc);
    assert z * tau == (cc * cc * x) * tau;
    CancelRight(z, cc * cc * x, tau);
  }

  /** Where both references are given, `wave` decides and `freq` is
      ignored. */
  lemma WaveFirst(s: Switch, x: real, kw: Kwargs, k: Physics)
    requires References(s) != [] && References(s)[0] == "wave"
    requires "wave" in kw
    ensures Apply(s, x, kw, k) == Apply(s, x, map["wave" := kw["wave"]], k)
  {
    var kw' := map["wave" := kw["wave"]];
    var keys := References(s);
    assert Pick(keys, kw) == Pick(keys, kw') == Some(Reference("wave", kw["wave"]));
  }

  /** `per_sr` and `times_sr` read their reference only as a radius. */
  lemma SameRadius(s: Switch, x: real, ref: Reference, ref': Reference, k: Physics)
    requires s == PerSr || s == TimesSr
    requires RadiusOf(ref) == RadiusOf(ref')
    ensures Change(s, x, ref, k) == Change(s, x, ref', k)
  {
    var a := SolidAngle(RadiusOf(ref), k);
    if s == PerSr {
      assert Change(s, x, ref, k) == Quotient(x, a) == Change(s, x, ref', k);
    } else {
      assert Change(s, x, ref, k).Ok? && Change(s, x, ref, k).value == x * a;
      assert Change(s, x, ref', k).Ok? && Change(s, x, ref', k).value == x * a;
    }
  }

  /** Likewise `diam` before `radius`, read as twice the radius. */
  lemma DiamFirst(s: Switch, x: real, kw: Kwargs, k: Physics)
    requires s == PerSr || s == TimesSr
    requires "diam" in kw
    ensures Apply(s, x, kw, k) == Apply(s, x, map["radius" := kw["diam"] / 2.0], k)
  {
    var kw' := map["radius" := kw["diam"] / 2.0];
    assert "diam"[0] != "radius"[0];
    PickTwo("diam", "radius", kw);
    PickTwo("diam", "radius", kw');
    var ref, ref' := Reference("diam", kw["diam"]), Reference("radius", kw["diam"] / 2.0);
    assert Pick(References(s), kw) == Some(ref);
    assert Pick(References(s), kw') == Some(ref');
    assert RadiusOf(ref) == RadiusOf(ref');
    assert Apply(s, x, kw, k) == Change(s, x, ref, k);
    assert Apply(s, x, kw', k) == Change(s, x, ref', k);
    SameRadius(s, x, ref, ref', k);
  }
}
