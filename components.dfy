/** `components` (units/conversions.py:192-250): one atom of a unit, such as
    `10mW2`, decomposed into its factor to SI, the registry's SI signature
    and its power. */
module Decomposition {
  import opened Text
  import opened Tables
  import opened Outcomes
  import opened AtomPattern
  import opened Converters

  /** What `components` returns: the factor, the SI signature and the power. */
  datatype Component = Component(factor: Factor, sig: string, power: int)

  /** Python's `s[:n]`. */
  function Before(s: string, n: nat): string {
    if n <= |s| then s[..n] else s
  }

  /** Python's `s[n:]`. */
  function After(s: string, n: nat): string {
    if n <= |s| then s[n..] else []
  }

  /** The prefix `scale` splits `basis`: the name starts with it and the
      rest is a registered base unit. */
  predicate Fits(t: Registry, basis: string, scale: string) {
    Before(basis, |scale|) == scale && After(basis, |scale|) in t.factors
  }

  /** The first prefix from position `i` of `t.scalings` on that splits
      `basis`, if any. */
  function FirstFit(t: Registry, basis: string, i: nat): (r: Option<nat>)
    requires i <= |t.scalings|
    ensures r.Some? ==> i <= r.value < |t.scalings| && Fits(t, basis, t.scalings[r.value].0)
    ensures forall j :: i <= j < (if r.Some? then r.value else |t.scalings|) ==> !Fits(t, basis, t.scalings[j].0)
    decreases |t.scalings| - i
  {
    if i == |t.scalings| then None
    else if Fits(t, basis, t.scalings[i].0) then Some(i)
    else FirstFit(t, basis, i + 1)
  }

  /** The registry's scale as a factor: `_factors[basis][0]`, or a fresh
      instance `_factors[basis][0]()` of a converter class. */
  function Unit(t: Registry, basis: string, k: Physics): (f: Factor)
    requires basis in t.factors
    ensures f.NonLinear? <==> t.factors[basis].scale.Converter?
  {
    match t.factors[basis].scale
    case Exact(r) => Linear(r)
    case Named(a) => Linear(AstroValue(a, k))
    case Converter(kind) => Fresh(kind)
  }

  /** The prefix step, the `for`/`break`/`else` over `_scalings`: the scale
      of the first prefix that splits the name and the registered rest, or
      no prefix when the whole name is registered, or `Unknown unit`. */
  function Split(t: Registry, basis: string): (r: Result<(real, string)>)
    ensures r.Ok? ==> r.value.1 in t.factors
    ensures r.Err? <==> FirstFit(t, basis, 0).None? && basis !in t.factors
    ensures r.Err? ==> r.error == UnknownUnit(basis)
  {
    match FirstFit(t, basis, 0)
    case Some(j) => Ok((t.scalings[j].1, After(basis, |t.scalings[j].0|)))
    case None => if basis in t.factors then Ok((1.0, basis)) else Err(UnknownUnit(basis))
  }

  /** The signatures the registry holds. */
  function RegistrySigs(t: Registry): set<string> {
    set b | b in t.factors :: t.factors[b].sig
  }

  /** The part of `components` after the pattern match: the prefix step,
      then the registry's scale and signature. It fails exactly on a name
      that neither a prefix split nor the registry knows; the factor is
      non-linear exactly for a converter class. */
  function Resolve(t: Registry, a: Atom, k: Physics): (r: Result<Component>)
    ensures r.Err? <==> Split(t, a.basis).Err?
    ensures r.Err? ==> r.error == UnknownUnit(a.basis)
    ensures r.Ok? ==> r.value.power == a.power
    ensures r.Ok? ==> (r.value.factor.NonLinear? <==> t.factors[Split(t, a.basis).value.1].scale.Converter?)
  {
    var split :- Split(t, a.basis);
    var base := split.1;
    var factor := Times(Linear(a.lead as real * split.0), Unit(t, base, k)).value;
    Ok(Component(factor, t.factors[base].sig, a.power))
  }

  /** `components(unit)`: an empty atom fails before the pattern is tried. */
  function Components(t: Registry, unit: string, k: Physics): (r: Result<Component>)
    ensures r.Err? <==> unit == [] || Split(t, Parse(WithPower(unit)).basis).Err?
    ensures unit == [] ==> r == Err(EmptyPiece)
  {
    var a :- AtomOf(unit);
    Resolve(t, a, k)
  }

  /** `components(unit)` as the source computes it: the atom's groups, then
      the prefix loop, then the registry's scale and signature. */
  method ComponentsOf(t: Registry, unit: string, k: Physics) returns (r: Result<Component>)
    ensures r == Components(t, unit, k)
  {
    if unit == [] {
      return Err(EmptyPiece);
    }
    var a := Parse(WithPower(unit));
    ComponentsOfAtom(t, unit, k);
    r := ResolveAtom(t, a, k);
  }

  /** The rest of `components` once the atom's groups are known. */
  method ResolveAtom(t: Registry, a: Atom, k: Physics) returns (r: Result<Component>)
    ensures r == Resolve(t, a, k)
  {
    var factor, basis, found := PrefixLoop(t, a.lead as real, a.basis);
    if !found && basis !in t.factors {
      return Err(UnknownUnit(basis));
    }
    ghost var scale := if found then Split(t, a.basis).value.0 else 1.0;
    assert factor == a.lead as real * scale;
    ResolveSplit(t, a, k, scale, basis);
    var f := Times(Linear(factor), Unit(t, basis, k)).value;
    return Ok(Component(f, t.factors[basis].sig, a.power));
  }

  /** The `for`/`break`/`else` over `_scalings`, updating `factor` and
      `basis` in place: the first prefix that splits the name is taken. */
  method PrefixLoop(t: Registry, factor0: real, basis0: string) returns (factor: real, basis: string, found: bool)
    ensures found ==> Split(t, basis0).Ok? && factor == factor0 * Split(t, basis0).value.0 && basis == Split(t, basis0).value.1
    ensures !found ==> FirstFit(t, basis0, 0).None? && factor == factor0 && basis == basis0
  {
    factor, basis, found := factor0, basis0, false;
    for i := 0 to |t.scalings|
      invariant !found
      invariant factor == factor0 && basis == basis0
      invariant forall j :: 0 <= j < i ==> !Fits(t, basis0, t.scalings[j].0)
    {
      var (scale, value) := t.scalings[i];
      var scaleUnit, baseUnit := Before(basis, |scale|), After(basis, |scale|);
      if scaleUnit == scale && baseUnit in t.factors {
        FirstFitAt(t, basis0, i);
        factor := factor * value;
        basis := baseUnit;
        found := true;
        return;
      }
    }
    FirstFitNone(t, basis0);
  }

  lemma ComponentsOfAtom(t: Registry, unit: string, k: Physics)
    requires unit != []
    ensures Components(t, unit, k) == Resolve(t, Parse(WithPower(unit)), k)
  {
  }

  lemma ResolveSplit(t: Registry, a: Atom, k: Physics, scale: real, basis: string)
    requires Split(t, a.basis) == Ok((scale, basis))
    ensures basis in t.factors
    ensures Resolve(t, a, k).Ok?
    ensures Resolve(t, a, k).value == Component(Times(Linear(a.lead as real * scale), Unit(t, basis, k)).value, t.factors[basis].sig, a.power)
  {
    var split := Split(t, a.basis).value;
    assert split == (scale, basis);
    assert split.1 in t.factors;
    var factor := Times(Linear(a.lead as real * split.0), Unit(t, split.1, k)).value;
    assert split.0 == scale && split.1 == basis;
    assert Resolve(t, a, k).Ok?;
    assert Resolve(t, a, k).value.factor == factor;
    assert Resolve(t, a, k).value.sig == t.factors[basis].sig;
    assert factor == Times(Linear(a.lead as real * scale), Unit(t, basis, k)).value;
  }

  lemma FirstFitAt(t: Registry, basis: string, i: nat)
    requires i < |t.scalings| && Fits(t, basis, t.scalings[i].0)
    requires forall j :: 0 <= j < i ==> !Fits(t, basis, t.scalings[j].0)
    ensures FirstFit(t, basis, 0) == Some(i)
  {
    FirstFitFrom(t, basis, 0, i);
  }

  lemma {:induction false} FirstFitFrom(t: Registry, basis: string, m: nat, i: nat)
    requires m <= i < |t.scalings| && Fits(t, basis, t.scalings[i].0)
    requires forall j :: m <= j < i ==> !Fits(t, basis, t.scalings[j].0)
    ensures FirstFit(t, basis, m) == Some(i)
    decreases i - m
  {
    if m < i {
      FirstFitFrom(t, basis, m + 1, i);
    }
  }

  lemma FirstFitNone(t: Registry, basis: string)
    requires forall j :: 0 <= j < |t.scalings| ==> !Fits(t, basis, t.scalings[j].0)
    ensures FirstFit(t, basis, 0).None?
  {
  }

  // ---------------------------------------------------------------------
  // Properties

  /** An atom `<digits><name><power>` whose name has no digit reaches the
      prefix step with its own parts: the digits as the leading number (1
      when absent) and the power as written (1 when absent). */
  lemma ComponentsRegular(t: Registry, ds: string, b: string, ps: string, k: Physics)
    requires AllDigits(ds) && PlainName(b) && (ps == [] || IsSignedInt(ps))
    ensures Components(t, ds + b + ps, k)
      == Resolve(t, Atom(if ds == [] then 1 else DigitsValue(ds), b, if ps == [] then 1 else SignedValue(ps)), k)
  {
    AtomOfRegular(ds, b, ps);
  }

  /** The factor is the leading number times the prefix scale times the
      registry's scale; the signature is the registry's, unchanged. */
  lemma ResolveLinear(t: Registry, a: Atom, k: Physics, scale: real, base: string, f: real)
    requires Split(t, a.basis) == Ok((scale, base))
    requires Unit(t, base, k).Linear? && f == a.lead as real * scale * Unit(t, base, k).r
    ensures Resolve(t, a, k) == Ok(Component(Linear(f), t.factors[base].sig, a.power))
  {
    ResolveSplit(t, a, k, scale, base);
    var c := Component(Linear(f), t.factors[base].sig, a.power);
    assert Resolve(t, a, k).value == c;
  }

  /** A converter class in the registry gives a fresh instance whose prefix
      is the leading number times the prefix scale, with the power reset to
      1 by `__rmul__`. */
  lemma ResolveConverter(t: Registry, a: Atom, k: Physics, scale: real, base: string, p: real)
    requires Split(t, a.basis) == Ok((scale, base))
    requires t.factors[base].scale.Converter? && p == a.lead as real * scale
    ensures Resolve(t, a, k) == Ok(Component(NonLinear(t.factors[base].scale.kind, p, 1.0), t.factors[base].sig, a.power))
  {
    ResolveSplit(t, a, k, scale, base);
    var c := Component(NonLinear(t.factors[base].scale.kind, p, 1.0), t.factors[base].sig, a.power);
    assert Resolve(t, a, k).value == c;
  }

  /** A name no prefix splits is taken whole when registered (scale 1), and
      is `Unknown unit` otherwise. */
  lemma SplitWhole(t: Registry, basis: string)
    requires forall j :: 0 <= j < |t.scalings| ==> !Fits(t, basis, t.scalings[j].0)
    ensures basis in t.factors ==> Split(t, basis) == Ok((1.0, basis))
    ensures basis !in t.factors ==> Split(t, basis) == Err(UnknownUnit(basis))
  {
    FirstFitNone(t, basis);
  }

  /** The first prefix that splits the name wins, even when a later one
      splits it too, and even when the whole name is registered. */
  lemma SplitFirst(t: Registry, basis: string, i: nat)
    requires i < |t.scalings| && Fits(t, basis, t.scalings[i].0)
    requires forall j :: 0 <= j < i ==> !Fits(t, basis, t.scalings[j].0)
    ensures Split(t, basis) == Ok((t.scalings[i].1, After(basis, |t.scalings[i].0|)))
  {
    FirstFitAt(t, basis, i);
  }

  /** `ComponentsRegular` with the prefix step's outcome given. */
  lemma RegularAtomIs(t: Registry, ds: string, b: string, ps: string, k: Physics, a: Atom, r: Result<Component>)
    requires AllDigits(ds) && PlainName(b) && (ps == [] || IsSignedInt(ps))
    requires a == Atom(if ds == [] then 1 else DigitsValue(ds), b, if ps == [] then 1 else SignedValue(ps))
    requires Resolve(t, a, k) == r
    ensures Components(t, ds + b + ps, k) == r
  {
    ComponentsRegular(t, ds, b, ps, k);
  }

  /** An unprefixed registered name with a number scale: the factor is the
      leading number times the registry's scale, the signature the
      registry's, the power as written. */
  lemma UnprefixedAtom(t: Registry, ds: string, b: string, ps: string, k: Physics, a: Atom)
    requires AllDigits(ds) && PlainName(b) && (ps == [] || IsSignedInt(ps))
    requires a == Atom(if ds == [] then 1 else DigitsValue(ds), b, if ps == [] then 1 else SignedValue(ps))
    requires FirstFit(t, b, 0).None? && b in t.factors && Unit(t, b, k).Linear?
    ensures Components(t, ds + b + ps, k) == Ok(Component(Linear(a.lead as real * Unit(t, b, k).r), t.factors[b].sig, a.power))
  {
    ResolveUnprefixed(t, a, b, k);
    RegularAtomIs(t, ds, b, ps, k, a, Ok(Component(Linear(a.lead as real * Unit(t, b, k).r), t.factors[b].sig, a.power)));
  }

  lemma ResolveUnprefixed(t: Registry, a: Atom, b: string, k: Physics)
    requires a.basis == b && FirstFit(t, b, 0).None? && b in t.factors && Unit(t, b, k).Linear?
    ensures Resolve(t, a, k) == Ok(Component(Linear(a.lead as real * Unit(t, b, k).r), t.factors[b].sig, a.power))
  {
    ResolveLinear(t, a, k, 1.0, b, a.lead as real * Unit(t, b, k).r);
  }

  /** A name split by the `i`-th prefix: the factor is the leading number
      times the prefix scale times the registry's scale of the rest, and the
      signature is the rest's. */
  lemma PrefixedAtom(t: Registry, ds: string, b: string, ps: string, k: Physics, a: Atom, i: nat)
    requires AllDigits(ds) && PlainName(b) && (ps == [] || IsSignedInt(ps))
    requires a == Atom(if ds == [] then 1 else DigitsValue(ds), b, if ps == [] then 1 else SignedValue(ps))
    requires i < |t.scalings| && FirstFit(t, b, 0) == Some(i)
    requires Unit(t, After(b, |t.scalings[i].0|), k).Linear?
    ensures Components(t, ds + b + ps, k) == Ok(Component(
      Linear(a.lead as real * t.scalings[i].1 * Unit(t, After(b, |t.scalings[i].0|), k).r),
      t.factors[After(b, |t.scalings[i].0|)].sig,
      a.power))
  {
    ResolvePrefixed(t, a, b, k, i);
    RegularAtomIs(t, ds, b, ps, k, a, Ok(Component(
      Linear(a.lead as real * t.scalings[i].1 * Unit(t, After(b, |t.scalings[i].0|), k).r),
      t.factors[After(b, |t.scalings[i].0|)].sig,
      a.power)));
  }

  lemma ResolvePrefixed(t: Registry, a: Atom, b: string, k: Physics, i: nat)
    requires a.basis == b && i < |t.scalings| && FirstFit(t, b, 0) == Some(i)
    requires Unit(t, After(b, |t.scalings[i].0|), k).Linear?
    ensures Resolve(t, a, k) == Ok(Component(
      Linear(a.lead as real * t.scalings[i].1 * Unit(t, After(b, |t.scalings[i].0|), k).r),
      t.factors[After(b, |t.scalings[i].0|)].sig,
      a.power))
  {
    SplitPrefixed(t, b, i);
    ResolveLinear(t, a, k, t.scalings[i].1, After(b, |t.scalings[i].0|),
      a.lead as real * t.scalings[i].1 * Unit(t, After(b, |t.scalings[i].0|), k).r);
  }

  lemma SplitPrefixed(t: Registry, b: string, i: nat)
    requires i < |t.scalings| && FirstFit(t, b, 0) == Some(i)
    ensures Split(t, b) == Ok((t.scalings[i].1, After(b, |t.scalings[i].0|)))
  {
  }

  /** An unprefixed converter class: a fresh instance whose prefix is the
      leading number. */
  lemma ConverterAtom(t: Registry, ds: string, b: string, ps: string, k: Physics, a: Atom)
    requires AllDigits(ds) && PlainName(b) && (ps == [] || IsSignedInt(ps))
    requires a == Atom(if ds == [] then 1 else DigitsValue(ds), b, if ps == [] then 1 else SignedValue(ps))
    requires FirstFit(t, b, 0).None? && b in t.factors && t.factors[b].scale.Converter?
    ensures Components(t, ds + b + ps, k) == Ok(Component(NonLinear(t.factors[b].scale.kind, a.lead as real, 1.0), t.factors[b].sig, a.power))
  {
    ResolveUnprefixedConverter(t, a, b, k);
    RegularAtomIs(t, ds, b, ps, k, a, Ok(Component(NonLinear(t.factors[b].scale.kind, a.lead as real, 1.0), t.factors[b].sig, a.power)));
  }

  lemma ResolveUnprefixedConverter(t: Registry, a: Atom, b: string, k: Physics)
    requires a.basis == b && FirstFit(t, b, 0).None? && b in t.factors && t.factors[b].scale.Converter?
    ensures Resolve(t, a, k) == Ok(Component(NonLinear(t.factors[b].scale.kind, a.lead as real, 1.0), t.factors[b].sig, a.power))
  {
    ResolveConverter(t, a, k, 1.0, b, a.lead as real);
  }

  /** A name that no prefix splits and the registry does not hold is an
      `Unknown unit`, whatever digits surround it. */
  lemma UnknownAtom(t: Registry, ds: string, b: string, ps: string, k: Physics)
    requires AllDigits(ds) && PlainName(b) && (ps == [] || IsSignedInt(ps))
    requires FirstFit(t, b, 0).None? && b !in t.factors
    ensures Components(t, ds + b + ps, k) == Err(UnknownUnit(b))
  {
    ComponentsRegular(t, ds, b, ps, k);
  }

  // ---------------------------------------------------------------------
  // Examples against the module's own registry

  /** `_scalings` as written: names and scales, in order. */
  predicate StandardPrefixes(t: Registry) {
    && |t.scalings| == 10
    && t.scalings[0] == ("n", 1e-9) && t.scalings[1] == ("mu", 1e-6)
    && t.scalings[2] == ("m", 1e-3) && t.scalings[3] == ("c", 1e-2)
    && t.scalings[4] == ("d", 1e-1) && t.scalings[5] == ("da", 1e1)
    && t.scalings[6] == ("h", 1e2) && t.scalings[7] == ("k", 1e3)
    && t.scalings[8] == ("M", 1e6) && t.scalings[9] == ("G", 1e9)
  }

  lemma BuiltinPrefixes()
    ensures StandardPrefixes(Builtin)
  {
  }

  /** A prefix whose first letter differs from the name's does not fit. */
  lemma HeadMismatch(t: Registry, b: string, i: nat)
    requires i < |t.scalings| && b != [] && t.scalings[i].0 != [] && b[0] != t.scalings[i].0[0]
    ensures !Fits(t, b, t.scalings[i].0)
  {
    var p := t.scalings[i].0;
    if |p| <= |b| {
      assert Before(b, |p|)[0] == b[0];
    }
  }

  /** A two-letter prefix whose second letter differs does not fit. */
  lemma SecondMismatch(t: Registry, b: string, i: nat)
    requires i < |t.scalings| && |t.scalings[i].0| == 2 <= |b| && b[1] != t.scalings[i].0[1]
    ensures !Fits(t, b, t.scalings[i].0)
  {
    assert Before(b, 2)[1] == b[1];
  }

  /** A prefix longer than the name does not fit. */
  lemma TooLong(t: Registry, b: string, i: nat)
    requires i < |t.scalings| && |b| < |t.scalings[i].0|
    ensures !Fits(t, b, t.scalings[i].0)
  {
  }

  /** A one-letter prefix fits a name that starts with it and whose rest is
      registered. */
  lemma OneLetterFits(t: Registry, b: string, i: nat)
    requires i < |t.scalings| && |t.scalings[i].0| == 1 && b != [] && b[0] == t.scalings[i].0[0]
    requires b[1..] in t.factors
    ensures Fits(t, b, t.scalings[i].0) && After(b, 1) == b[1..]
  {
    assert Before(b, 1) == [b[0]];
  }

  lemma Skip(t: Registry, b: string, i: nat)
    requires i < |t.scalings| && !Fits(t, b, t.scalings[i].0)
    ensures FirstFit(t, b, i) == FirstFit(t, b, i + 1)
  {
  }

  /** No prefix starts with the name's first letter, so none fits. */
  lemma NoPrefixFits(t: Registry, b: string)
    requires StandardPrefixes(t) && b != [] && b[0] !in "nmcdhkMG"
    ensures FirstFit(t, b, 0).None?
  {
    assert FirstFit(t, b, 10).None?;
    HeadMismatch(t, b, 9);
    Skip(t, b, 9);
    HeadMismatch(t, b, 8);
    Skip(t, b, 8);
    HeadMismatch(t, b, 7);
    Skip(t, b, 7);
    HeadMismatch(t, b, 6);
    Skip(t, b, 6);
    HeadMismatch(t, b, 5);
    Skip(t, b, 5);
    HeadMismatch(t, b, 4);
    Skip(t, b, 4);
    HeadMismatch(t, b, 3);
    Skip(t, b, 3);
    HeadMismatch(t, b, 2);
    Skip(t, b, 2);
    HeadMismatch(t, b, 1);
    Skip(t, b, 1);
    HeadMismatch(t, b, 0);
    Skip(t, b, 0);
  }

  /** `m` alone is not milli-nothing: the empty rest is not registered. */
  lemma MetreNoFit(t: Registry)
    requires StandardPrefixes(t) && "" !in t.factors
    ensures FirstFit(t, "m", 0).None?
  {
    var b := "m";
    assert FirstFit(t, b, 10).None?;
    HeadMismatch(t, b, 9);
    Skip(t, b, 9);
    HeadMismatch(t, b, 8);
    Skip(t, b, 8);
    HeadMismatch(t, b, 7);
    Skip(t, b, 7);
    HeadMismatch(t, b, 6);
    Skip(t, b, 6);
    HeadMismatch(t, b, 5);
    Skip(t, b, 5);
    HeadMismatch(t, b, 4);
    Skip(t, b, 4);
    HeadMismatch(t, b, 3);
    Skip(t, b, 3);
    assert After(b, 1) == "";
    Skip(t, b, 2);
    TooLong(t, b, 1);
    Skip(t, b, 1);
    HeadMismatch(t, b, 0);
    Skip(t, b, 0);
  }

  /** `cy` is not centi-something: `y` is not registered. */
  lemma CycleNoFit(t: Registry)
    requires StandardPrefixes(t) && "y" !in t.factors
    ensures FirstFit(t, "cy", 0).None?
  {
    var b := "cy";
    assert FirstFit(t, b, 10).None?;
    HeadMismatch(t, b, 9);
    Skip(t, b, 9);
    HeadMismatch(t, b, 8);
    Skip(t, b, 8);
    HeadMismatch(t, b, 7);
    Skip(t, b, 7);
    HeadMismatch(t, b, 6);
    Skip(t, b, 6);
    HeadMismatch(t, b, 5);
    Skip(t, b, 5);
    HeadMismatch(t, b, 4);
    Skip(t, b, 4);
    assert After(b, 1) == "y";
    Skip(t, b, 3);
    HeadMismatch(t, b, 2);
    Skip(t, b, 2);
    HeadMismatch(t, b, 1);
    Skip(t, b, 1);
    HeadMismatch(t, b, 0);
    Skip(t, b, 0);
  }

  /** `m` followed by anything but `u` and a registered rest is milli. */
  lemma MilliFits(t: Registry, b: string)
    requires StandardPrefixes(t) && |b| >= 2 && b[0] == 'm' && b[1] != 'u' && b[1..] in t.factors
    ensures FirstFit(t, b, 0) == Some(2) && After(b, 1) == b[1..]
  {
    OneLetterFits(t, b, 2);
    HeadMismatch(t, b, 0);
    SecondMismatch(t, b, 1);
  }

  /** `d` followed by a registered rest is deci, tried before deca. */
  lemma DeciFits(t: Registry, b: string)
    requires StandardPrefixes(t) && b != [] && b[0] == 'd' && b[1..] in t.factors
    ensures FirstFit(t, b, 0) == Some(4) && After(b, 1) == b[1..]
  {
    OneLetterFits(t, b, 4);
    HeadMismatch(t, b, 3);
    Skip(t, b, 3);
    HeadMismatch(t, b, 2);
    Skip(t, b, 2);
    HeadMismatch(t, b, 1);
    Skip(t, b, 1);
    HeadMismatch(t, b, 0);
    Skip(t, b, 0);
  }

  /** `M` followed by a registered rest is mega. */
  lemma MegaFits(t: Registry, b: string)
    requires StandardPrefixes(t) && b != [] && b[0] == 'M' && b[1..] in t.factors
    ensures FirstFit(t, b, 0) == Some(8) && After(b, 1) == b[1..]
  {
    OneLetterFits(t, b, 8);
    HeadMismatch(t, b, 7);
    Skip(t, b, 7);
    HeadMismatch(t, b, 6);
    Skip(t, b, 6);
    HeadMismatch(t, b, 5);
    Skip(t, b, 5);
    HeadMismatch(t, b, 4);
    Skip(t, b, 4);
    HeadMismatch(t, b, 3);
    Skip(t, b, 3);
    HeadMismatch(t, b, 2);
    Skip(t, b, 2);
    HeadMismatch(t, b, 1);
    Skip(t, b, 1);
    HeadMismatch(t, b, 0);
    Skip(t, b, 0);
  }

  /** `k` followed by a registered rest is kilo. */
  lemma KiloFits(t: Registry, b: string)
    requires StandardPrefixes(t) && b != [] && b[0] == 'k' && b[1..] in t.factors
    ensures FirstFit(t, b, 0) == Some(7) && After(b, 1) == b[1..]
  {
    OneLetterFits(t, b, 7);
    HeadMismatch(t, b, 6);
    Skip(t, b, 6);
    HeadMismatch(t, b, 5);
    Skip(t, b, 5);
    HeadMismatch(t, b, 4);
    Skip(t, b, 4);
    HeadMismatch(t, b, 3);
    Skip(t, b, 3);
    HeadMismatch(t, b, 2);
    Skip(t, b, 2);
    HeadMismatch(t, b, 1);
    Skip(t, b, 1);
    HeadMismatch(t, b, 0);
    Skip(t, b, 0);
  }

  /** `h` followed by a registered rest is hecto. */
  lemma HectoFits(t: Registry, b: string)
    requires StandardPrefixes(t) && b != [] && b[0] == 'h' && b[1..] in t.factors
    ensures FirstFit(t, b, 0) == Some(6) && After(b, 1) == b[1..]
  {
    OneLetterFits(t, b, 6);
    HeadMismatch(t, b, 5);
    Skip(t, b, 5);
    HeadMismatch(t, b, 4);
    Skip(t, b, 4);
    HeadMismatch(t, b, 3);
    Skip(t, b, 3);
    HeadMismatch(t, b, 2);
    Skip(t, b, 2);
    HeadMismatch(t, b, 1);
    Skip(t, b, 1);
    HeadMismatch(t, b, 0);
    Skip(t, b, 0);
  }

  /** `c` followed by a registered rest is centi. */
  lemma CentiFits(t: Registry, b: string)
    requires StandardPrefixes(t) && b != [] && b[0] == 'c' && b[1..] in t.factors
    ensures FirstFit(t, b, 0) == Some(3) && After(b, 1) == b[1..]
  {
    OneLetterFits(t, b, 3);
    HeadMismatch(t, b, 2);
    Skip(t, b, 2);
    HeadMismatch(t, b, 1);
    Skip(t, b, 1);
    HeadMismatch(t, b, 0);
    Skip(t, b, 0);
  }

  // Registry entries the examples read, one fact per lemma.

  lemma NoEmptyName()
    ensures "" !in Builtin.factors
  {
  }

  lemma MetreEntry()
    ensures "m" in Builtin.factors && Builtin.factors["m"] == Entry(Exact(1.0), "m")
  {
  }

  lemma SecondEntry()
    ensures "s" in Builtin.factors && Builtin.factors["s"] == Entry(Exact(1.0), "s")
  {
  }

  lemma GramEntry()
    ensures "g" in Builtin.factors && Builtin.factors["g"] == Entry(Exact(1e-3), "kg")
  {
  }

  lemma WattEntry()
    ensures "W" in Builtin.factors && Builtin.factors["W"] == Entry(Exact(1.0), "kg m2 s-3")
  {
  }

  lemma ArcminuteEntry()
    ensures "am" in Builtin.factors && Builtin.factors["am"] == Entry(Exact(1.0 / 360.0 / 60.0), "cy")
  {
  }

  lemma KelvinEntry()
    ensures "K" in Builtin.factors && Builtin.factors["K"] == Entry(Exact(1.0), "K")
  {
  }

  lemma FahrenheitEntry()
    ensures "F" in Builtin.factors && Builtin.factors["F"] == Entry(Converter(Fahrenheit), "K")
  {
  }

  lemma ErgEntry()
    ensures "erg" in Builtin.factors && Builtin.factors["erg"] == Entry(Exact(1e-7), "kg m2 s-2")
  {
  }

  lemma AngstromEntry()
    ensures "A" in Builtin.factors && Builtin.factors["A"] == Entry(Exact(1e-10), "m")
  {
  }

  lemma CycleEntry()
    ensures "cy" in Builtin.factors && Builtin.factors["cy"] == Entry(Exact(1.0), "cy")
  {
  }

  lemma SteradianEntry()
    ensures "sr" in Builtin.factors && Builtin.factors["sr"] == Entry(Exact(1.0), "sr")
  {
  }

  lemma NoY()
    ensures "y" !in Builtin.factors
  {
  }

  lemma NoFeet()
    ensures "ft" !in Builtin.factors
  {
  }

  /** `components('m')` is `(1.0, 'm', 1)`: `m` alone is the metre, not a
      milli-prefix on nothing. */
  lemma MetreExample(k: Physics)
    ensures Components(Builtin, "m", k) == Ok(Component(Linear(1.0), "m", 1))
  {
    BuiltinPrefixes();
    NoEmptyName();
    MetreEntry();
    MetreNoFit(Builtin);
    assert PlainName("m") && "" + "m" + "" == "m";
    UnprefixedAtom(Builtin, "", "m", "", k, Atom(1, "m", 1));
  }

  /** `components('s-2')` is `(1.0, 's', -2)`: the trailing signed integer
      is the power. */
  lemma PerSecondSquaredExample(k: Physics)
    ensures Components(Builtin, "s-2", k) == Ok(Component(Linear(1.0), "s", -2))
  {
    BuiltinPrefixes();
    SecondEntry();
    NoPrefixFits(Builtin, "s");
    assert PlainName("s") && IsSignedInt("-2") && SignedValue("-2") == -2;
    assert "" + "s" + "-2" == "s-2";
    UnprefixedAtom(Builtin, "", "s", "-2", k, Atom(1, "s", -2));
  }

  /** `components('mm')` is `(0.001, 'm', 1)`: milli on the metre. */
  lemma MillimetreExample(k: Physics)
    ensures Components(Builtin, "mm", k) == Ok(Component(Linear(0.001), "m", 1))
  {
    BuiltinPrefixes();
    MetreEntry();
    assert "mm"[1..] == "m";
    MilliFits(Builtin, "mm");
    assert PlainName("mm") && "" + "mm" + "" == "mm";
    PrefixedAtom(Builtin, "", "mm", "", k, Atom(1, "mm", 1), 2);
  }

  /** `components('Mg4')` is `(1000.0, 'kg', 4)`: mega on the gram, whose
      SI base is the kilogram. */
  lemma MegagramExample(k: Physics)
    ensures Components(Builtin, "Mg4", k) == Ok(Component(Linear(1000.0), "kg", 4))
  {
    BuiltinPrefixes();
    GramEntry();
    assert "Mg"[1..] == "g";
    MegaFits(Builtin, "Mg");
    assert PlainName("Mg") && IsSignedInt("4") && SignedValue("4") == 4;
    assert "" + "Mg" + "4" == "Mg4";
    PrefixedAtom(Builtin, "", "Mg", "4", k, Atom(1, "Mg", 4), 8);
  }

  /** `components('W3')` is `(1.0, 'kg m2 s-3', 3)`: the registry's
      composite signature is returned as it stands. */
  lemma WattCubedExample(k: Physics)
    ensures Components(Builtin, "W3", k) == Ok(Component(Linear(1.0), "kg m2 s-3", 3))
  {
    BuiltinPrefixes();
    WattEntry();
    NoPrefixFits(Builtin, "W");
    assert PlainName("W") && IsSignedInt("3") && SignedValue("3") == 3;
    assert "" + "W" + "3" == "W3";
    UnprefixedAtom(Builtin, "", "W", "3", k, Atom(1, "W", 3));
  }

  /** `components('10mW2')`: the leading digits multiply the prefix scale. */
  lemma LeadingNumberExample(k: Physics)
    ensures Components(Builtin, "10mW2", k) == Ok(Component(Linear(0.01), "kg m2 s-3", 2))
  {
    BuiltinPrefixes();
    WattEntry();
    assert "mW"[1..] == "W";
    MilliFits(Builtin, "mW");
    assert AllDigits("10") && DigitsValue("10") == 10;
    assert PlainName("mW") && IsSignedInt("2") && SignedValue("2") == 2;
    assert "10" + "mW" + "2" == "10mW2";
    PrefixedAtom(Builtin, "10", "mW", "2", k, Atom(10, "mW", 2), 2);
  }

  /** `components('dam')` is a deci-arcminute, not a decametre: `d` comes
      before `da` among the prefixes and `am` is registered. */
  lemma DeciArcminuteExample(k: Physics)
    ensures Components(Builtin, "dam", k) == Ok(Component(Linear(0.1 / 360.0 / 60.0), "cy", 1))
  {
    BuiltinPrefixes();
    ArcminuteEntry();
    assert "dam"[1..] == "am";
    DeciFits(Builtin, "dam");
    assert PlainName("dam") && "" + "dam" + "" == "dam";
    PrefixedAtom(Builtin, "", "dam", "", k, Atom(1, "dam", 1), 4);
  }

  /** `components('F')` is a fresh `Fahrenheit()` with the kelvin
      signature. */
  lemma FahrenheitExample(k: Physics)
    ensures Components(Builtin, "F", k) == Ok(Component(Fresh(Fahrenheit), "K", 1))
  {
    BuiltinPrefixes();
    FahrenheitEntry();
    NoPrefixFits(Builtin, "F");
    assert PlainName("F") && "" + "F" + "" == "F";
    ConverterAtom(Builtin, "", "F", "", k, Atom(1, "F", 1));
  }

  /** `components('ft')` raises `Unknown unit`. */
  lemma UnknownExample(k: Physics)
    ensures Components(Builtin, "ft", k) == Err(UnknownUnit("ft"))
  {
    BuiltinPrefixes();
    NoFeet();
    NoPrefixFits(Builtin, "ft");
    assert PlainName("ft") && "" + "ft" + "" == "ft";
    UnknownAtom(Builtin, "", "ft", "", k);
  }

  /** `components('W')` is `(1.0, 'kg m2 s-3', 1)`. */
  lemma WattExample(k: Physics)
    ensures Components(Builtin, "W", k) == Ok(Component(Linear(1.0), "kg m2 s-3", 1))
  {
    BuiltinPrefixes();
    WattEntry();
    NoPrefixFits(Builtin, "W");
    assert PlainName("W") && "" + "W" + "" == "W";
    UnprefixedAtom(Builtin, "", "W", "", k, Atom(1, "W", 1));
  }

  /** `components('kg')` is `(1.0, 'kg', 1)`: kilo on the gram. */
  lemma KilogramExample(k: Physics)
    ensures Components(Builtin, "kg", k) == Ok(Component(Linear(1.0), "kg", 1))
  {
    BuiltinPrefixes();
    GramEntry();
    assert "kg"[1..] == "g";
    KiloFits(Builtin, "kg");
    assert PlainName("kg") && "" + "kg" + "" == "kg";
    PrefixedAtom(Builtin, "", "kg", "", k, Atom(1, "kg", 1), 7);
  }

  /** `components('m2')` is `(1.0, 'm', 2)`. */
  lemma SquareMetreExample(k: Physics)
    ensures Components(Builtin, "m2", k) == Ok(Component(Linear(1.0), "m", 2))
  {
    BuiltinPrefixes();
    NoEmptyName();
    MetreEntry();
    MetreNoFit(Builtin);
    assert PlainName("m") && IsSignedInt("2") && SignedValue("2") == 2;
    assert "" + "m" + "2" == "m2";
    UnprefixedAtom(Builtin, "", "m", "2", k, Atom(1, "m", 2));
  }

  /** `components('m-3')` is `(1.0, 'm', -3)`. */
  lemma PerCubicMetreExample(k: Physics)
    ensures Components(Builtin, "m-3", k) == Ok(Component(Linear(1.0), "m", -3))
  {
    BuiltinPrefixes();
    NoEmptyName();
    MetreEntry();
    MetreNoFit(Builtin);
    assert PlainName("m") && IsSignedInt("-3") && SignedValue("-3") == -3;
    assert "" + "m" + "-3" == "m-3";
    UnprefixedAtom(Builtin, "", "m", "-3", k, Atom(1, "m", -3));
  }

  /** `components('s-3')` is `(1.0, 's', -3)`. */
  lemma PerSecondCubedExample(k: Physics)
    ensures Components(Builtin, "s-3", k) == Ok(Component(Linear(1.0), "s", -3))
  {
    BuiltinPrefixes();
    SecondEntry();
    NoPrefixFits(Builtin, "s");
    assert PlainName("s") && IsSignedInt("-3") && SignedValue("-3") == -3;
    assert "" + "s" + "-3" == "s-3";
    UnprefixedAtom(Builtin, "", "s", "-3", k, Atom(1, "s", -3));
  }

  /** `components('K')` is `(1.0, 'K', 1)`. */
  lemma KelvinExample(k: Physics)
    ensures Components(Builtin, "K", k) == Ok(Component(Linear(1.0), "K", 1))
  {
    BuiltinPrefixes();
    KelvinEntry();
    NoPrefixFits(Builtin, "K");
    assert PlainName("K") && "" + "K" + "" == "K";
    UnprefixedAtom(Builtin, "", "K", "", k, Atom(1, "K", 1));
  }

  /** `components('g2')` is `(0.001, 'kg', 2)`: the gram's SI base is the
      kilogram. */
  lemma GramSquaredExample(k: Physics)
    ensures Components(Builtin, "g2", k) == Ok(Component(Linear(0.001), "kg", 2))
  {
    BuiltinPrefixes();
    GramEntry();
    NoPrefixFits(Builtin, "g");
    assert PlainName("g") && IsSignedInt("2") && SignedValue("2") == 2;
    assert "" + "g" + "2" == "g2";
    UnprefixedAtom(Builtin, "", "g", "2", k, Atom(1, "g", 2));
  }

  /** `components('hg3')` is `(0.1, 'kg', 3)`: hecto on the gram (Python
      prints the nearest double, `0.10000000000000001`). */
  lemma HectogramCubedExample(k: Physics)
    ensures Components(Builtin, "hg3", k) == Ok(Component(Linear(0.1), "kg", 3))
  {
    BuiltinPrefixes();
    GramEntry();
    assert "hg"[1..] == "g";
    HectoFits(Builtin, "hg");
    assert PlainName("hg") && IsSignedInt("3") && SignedValue("3") == 3;
    assert "" + "hg" + "3" == "hg3";
    PrefixedAtom(Builtin, "", "hg", "3", k, Atom(1, "hg", 3), 6);
  }

  /** `components('cm-2')` is `(0.01, 'm', -2)`: centi on the metre. */
  lemma PerSquareCentimetreExample(k: Physics)
    ensures Components(Builtin, "cm-2", k) == Ok(Component(Linear(0.01), "m", -2))
  {
    BuiltinPrefixes();
    MetreEntry();
    assert "cm"[1..] == "m";
    CentiFits(Builtin, "cm");
    assert PlainName("cm") && IsSignedInt("-2") && SignedValue("-2") == -2;
    assert "" + "cm" + "-2" == "cm-2";
    PrefixedAtom(Builtin, "", "cm", "-2", k, Atom(1, "cm", -2), 3);
  }

  /** `components('km')` is `(1000.0, 'm', 1)`: kilo on the metre. */
  lemma KilometreExample(k: Physics)
    ensures Components(Builtin, "km", k) == Ok(Component(Linear(1000.0), "m", 1))
  {
    BuiltinPrefixes();
    MetreEntry();
    assert "km"[1..] == "m";
    KiloFits(Builtin, "km");
    assert PlainName("km") && "" + "km" + "" == "km";
    PrefixedAtom(Builtin, "", "km", "", k, Atom(1, "km", 1), 7);
  }

  /** `components('cm')` is `(0.01, 'm', 1)`. */
  lemma CentimetreExample(k: Physics)
    ensures Components(Builtin, "cm", k) == Ok(Component(Linear(0.01), "m", 1))
  {
    BuiltinPrefixes();
    MetreEntry();
    assert "cm"[1..] == "m";
    CentiFits(Builtin, "cm");
    assert PlainName("cm") && "" + "cm" + "" == "cm";
    PrefixedAtom(Builtin, "", "cm", "", k, Atom(1, "cm", 1), 3);
  }

  /** `components('erg')` is `(1e-7, 'kg m2 s-2', 1)`. */
  lemma ErgExample(k: Physics)
    ensures Components(Builtin, "erg", k) == Ok(Component(Linear(1e-7), "kg m2 s-2", 1))
  {
    BuiltinPrefixes();
    ErgEntry();
    NoPrefixFits(Builtin, "erg");
    ErgSpelling();
    UnprefixedAtom(Builtin, "", "erg", "", k, Atom(1, "erg", 1));
  }

  lemma ErgSpelling()
    ensures PlainName("erg") && "" + "erg" + "" == "erg"
  {
  }

  /** `components('s')` is `(1.0, 's', 1)`. */
  lemma SecondExample(k: Physics)
    ensures Components(Builtin, "s", k) == Ok(Component(Linear(1.0), "s", 1))
  {
    BuiltinPrefixes();
    SecondEntry();
    NoPrefixFits(Builtin, "s");
    assert PlainName("s") && "" + "s" + "" == "s";
    UnprefixedAtom(Builtin, "", "s", "", k, Atom(1, "s", 1));
  }

  /** `components('s-1')` is `(1.0, 's', -1)`. */
  lemma PerSecondExample(k: Physics)
    ensures Components(Builtin, "s-1", k) == Ok(Component(Linear(1.0), "s", -1))
  {
    BuiltinPrefixes();
    SecondEntry();
    NoPrefixFits(Builtin, "s");
    assert PlainName("s") && IsSignedInt("-1") && SignedValue("-1") == -1;
    assert "" + "s" + "-1" == "s-1";
    UnprefixedAtom(Builtin, "", "s", "-1", k, Atom(1, "s", -1));
  }

  /** `components('W2')` is `(1.0, 'kg m2 s-3', 2)`. */
  lemma WattSquaredExample(k: Physics)
    ensures Components(Builtin, "W2", k) == Ok(Component(Linear(1.0), "kg m2 s-3", 2))
  {
    BuiltinPrefixes();
    WattEntry();
    NoPrefixFits(Builtin, "W");
    assert PlainName("W") && IsSignedInt("2") && SignedValue("2") == 2;
    assert "" + "W" + "2" == "W2";
    UnprefixedAtom(Builtin, "", "W", "2", k, Atom(1, "W", 2));
  }

  /** `components('kg2')` is `(1.0, 'kg', 2)`. */
  lemma KilogramSquaredExample(k: Physics)
    ensures Components(Builtin, "kg2", k) == Ok(Component(Linear(1.0), "kg", 2))
  {
    BuiltinPrefixes();
    GramEntry();
    assert "kg"[1..] == "g";
    KiloFits(Builtin, "kg");
    assert PlainName("kg") && IsSignedInt("2") && SignedValue("2") == 2;
    assert "" + "kg" + "2" == "kg2";
    PrefixedAtom(Builtin, "", "kg", "2", k, Atom(1, "kg", 2), 7);
  }

  /** `components('A-1')` is `(1e-10, 'm', -1)`: `A` is the angstrom. */
  lemma PerAngstromExample(k: Physics)
    ensures Components(Builtin, "A-1", k) == Ok(Component(Linear(1e-10), "m", -1))
  {
    BuiltinPrefixes();
    AngstromEntry();
    NoPrefixFits(Builtin, "A");
    assert PlainName("A") && IsSignedInt("-1") && SignedValue("-1") == -1;
    assert "" + "A" + "-1" == "A-1";
    UnprefixedAtom(Builtin, "", "A", "-1", k, Atom(1, "A", -1));
  }

  /** `components('cy')` is `(1.0, 'cy', 1)`: the cycle, not a
      centi-prefix. */
  lemma CycleExample(k: Physics)
    ensures Components(Builtin, "cy", k) == Ok(Component(Linear(1.0), "cy", 1))
  {
    BuiltinPrefixes();
    NoY();
    CycleEntry();
    CycleNoFit(Builtin);
    assert PlainName("cy") && "" + "cy" + "" == "cy";
    UnprefixedAtom(Builtin, "", "cy", "", k, Atom(1, "cy", 1));
  }

  /** `components('cy-1')` is `(1.0, 'cy', -1)`. */
  lemma PerCycleExample(k: Physics)
    ensures Components(Builtin, "cy-1", k) == Ok(Component(Linear(1.0), "cy", -1))
  {
    BuiltinPrefixes();
    NoY();
    CycleEntry();
    CycleNoFit(Builtin);
    assert PlainName("cy") && IsSignedInt("-1") && SignedValue("-1") == -1;
    assert "" + "cy" + "-1" == "cy-1";
    UnprefixedAtom(Builtin, "", "cy", "-1", k, Atom(1, "cy", -1));
  }

  /** `components('sr')` is `(1.0, 'sr', 1)`. */
  lemma SteradianExample(k: Physics)
    ensures Components(Builtin, "sr", k) == Ok(Component(Linear(1.0), "sr", 1))
  {
    BuiltinPrefixes();
    SteradianEntry();
    NoPrefixFits(Builtin, "sr");
    assert PlainName("sr") && "" + "sr" + "" == "sr";
    UnprefixedAtom(Builtin, "", "sr", "", k, Atom(1, "sr", 1));
  }

  /** `components('m-1')` is `(1.0, 'm', -1)`. */
  lemma PerMetreExample(k: Physics)
    ensures Components(Builtin, "m-1", k) == Ok(Component(Linear(1.0), "m", -1))
  {
    BuiltinPrefixes();
    NoEmptyName();
    MetreEntry();
    MetreNoFit(Builtin);
    assert PlainName("m") && IsSignedInt("-1") && SignedValue("-1") == -1;
    assert "" + "m" + "-1" == "m-1";
    UnprefixedAtom(Builtin, "", "m", "-1", k, Atom(1, "m", -1));
  }
}
