/** The converter's fixed tables: the base-unit registry `_factors`, the
    metric prefixes `_scalings`, the ordered alias list `_aliases` and the
    change-of-base registry `_switch`, with the physical constants they use. */
module Tables {

  /** The three magnitude systems of `VegaMag`, `ABMag` and `STMag`. */
  datatype Magnitude = Vega | AB | ST

  /** The subclasses of `NonLinearConverter`. */
  datatype Kind = Fahrenheit | Celcius | Mag(system: Magnitude)

  /** Scale constants that the registry takes from the `constants` module. */
  datatype Astro = AU | Parsec | LightYear | SolarRadius | SolarMass

  /** The first field of a registry entry: a number, a named constant, or a
      converter class. */
  datatype Scale = Exact(r: real) | Named(a: Astro) | Converter(kind: Kind)

  /** A registry entry: the scale to SI and the SI signature string. */
  datatype Entry = Entry(scale: Scale, sig: string)

  /** The values of `cc`, `au`, `pc`, `ly`, `Rsun`, `Msun` and `pi`, which
      come from outside this file. */
  datatype Constants = Constants(cc: real, au: real, pc: real, ly: real, rsun: real, msun: real, pi: real)

  /** Constants as physics has them: all positive. */
  type Physics = k: Constants
    | k.cc > 0.0 && k.au > 0.0 && k.pc > 0.0 && k.ly > 0.0 && k.rsun > 0.0 && k.msun > 0.0 && k.pi > 0.0
    witness Constants(1.0, 1.0, 1.0, 1.0, 1.0, 1.0, 1.0)

  function AstroValue(a: Astro, k: Physics): (v: real)
    ensures v > 0.0
  {
    match a
    case AU => k.au
    case Parsec => k.pc
    case LightYear => k.ly
    case SolarRadius => k.rsun
    case SolarMass => k.msun
  }

  /** `_factors`: every base unit the converter knows. */
  const Factors: map<string, Entry> := map[
    // distance
    "m" := Entry(Exact(1.0), "m"),
    "A" := Entry(Exact(1e-10), "m"),
    "AU" := Entry(Named(AU), "m"),
    "pc" := Entry(Named(Parsec), "m"),
    "ly" := Entry(Named(LightYear), "m"),
    "Rsun" := Entry(Named(SolarRadius), "m"),
    // mass
    "g" := Entry(Exact(1e-3), "kg"),
    "Msun" := Entry(Named(SolarMass), "kg"),
    // time
    "s" := Entry(Exact(1.0), "s"),
    "min" := Entry(Exact(60.0), "s"),
    "h" := Entry(Exact(3600.0), "s"),
    "d" := Entry(Exact(24.0 * 3600.0), "s"),
    "yr" := Entry(Exact(365.0 * 24.0 * 3600.0), "s"),
    "cr" := Entry(Exact((100 * 365 * 24 * 3600) as real), "s"),
    "hz" := Entry(Exact(1.0), "cy s-1"),
    // angles
    "rad" := Entry(Exact(0.15915494309189535), "cy"),
    "cy" := Entry(Exact(1.0), "cy"),
    "deg" := Entry(Exact(1.0 / 360.0), "cy"),
    "am" := Entry(Exact(1.0 / 360.0 / 60.0), "cy"),
    "as" := Entry(Exact(1.0 / 360.0 / 3600.0), "cy"),
    "sr" := Entry(Exact(1.0), "sr"),
    // force
    "N" := Entry(Exact(1.0), "kg m s-2"),
    "dy" := Entry(Exact(1e-5), "kg m s-2"),
    // temperature
    "K" := Entry(Exact(1.0), "K"),
    "F" := Entry(Converter(Fahrenheit), "K"),
    "C" := Entry(Converter(Celcius), "K"),
    // energy and power
    "J" := Entry(Exact(1.0), "kg m2 s-2"),
    "W" := Entry(Exact(1.0), "kg m2 s-3"),
    "erg" := Entry(Exact(1e-7), "kg m2 s-2"),
    "eV" := Entry(Exact(1.60217646e-19), "kg m2 s-2"),
    "cal" := Entry(Exact(4.184), "kg m2 s-2"),
    // flux
    "Jy" := Entry(Exact(1e-26), "kg s-2 cy-1"),
    "vegamag" := Entry(Converter(Mag(Vega)), "kg m-1 s-3"),
    "STmag" := Entry(Converter(Mag(ST)), "kg m-1 s-3"),
    "ABmag" := Entry(Converter(Mag(AB)), "kg s-2 cy-1")
  ]

  /** `_scalings`, in the order the table is written; the first prefix that
      fits wins. */
  const Scalings: seq<(string, real)> := [
    ("n", 1e-9),
    ("mu", 1e-6),
    ("m", 1e-3),
    ("c", 1e-2),
    ("d", 1e-1),
    ("da", 1e1),
    ("h", 1e2),
    ("k", 1e3),
    ("M", 1e6),
    ("G", 1e9)
  ]

  /** `_aliases`: literal replacements, applied in this order. */
  const Aliases: seq<(string, string)> := [
    ("micron", "mum"),
    ("micro", "mu"),
    ("milli", "m"),
    ("kilo", "k"),
    ("mega", "M"),
    ("giga", "G"),
    ("nano", "n"),
    ("watt", "W"),
    ("Watt", "W"),
    ("Hz", "hz"),
    ("joule", "J"),
    ("Joule", "J"),
    ("jansky", "Jy"),
    ("Jansky", "Jy"),
    ("arcsec", "as"),
    ("arcmin", "am"),
    ("cycles", "cy"),
    ("cycle", "cy"),
    ("cyc", "cy"),
    ("angstrom", "A"),
    ("Angstrom", "A"),
    (" mag", " vegamag"),
    ("/mag", " /vegamag"),
    ("^", ""),
    ("**", "")
  ]

  /** The change-of-base functions registered in `_switch`. */
  datatype Switch =
    | Distance2Velocity | Velocity2Distance
    | Distance2Frequency
    | Distance2SpatialFreq | SpatialFreq2Distance
    | Fnu2Flambda | Flambda2Fnu
    | Fnu2NuFnu | NuFnu2Fnu
    | PerSr | TimesSr

  /** `_switch`, keyed by `'<only_from>_to_<only_to>'`. */
  const Switchboard: map<string, Switch> := map[
    "_to_s-1" := Distance2Velocity,
    "s-1_to_" := Velocity2Distance,
    "m1_to_cy1s-1" := Distance2Frequency,
    "cy1s-1_to_m1" := Distance2Frequency,
    "m1_to_" := Distance2SpatialFreq,
    "_to_m1" := SpatialFreq2Distance,
    "cy-1s-2_to_m-1s-3" := Fnu2Flambda,
    "m-1s-3_to_cy-1s-2" := Flambda2Fnu,
    "cy-1s-2_to_s-3" := Fnu2NuFnu,
    "s-3_to_cy-1s-2" := NuFnu2Fnu,
    "_to_sr-1" := PerSr,
    "sr-1_to_" := TimesSr
  ]

  /** The tables the converter reads, gathered as one value so that the
      operations can be stated for any registry and instantiated with the
      module's own. */
  datatype Registry = Registry(factors: map<string, Entry>, scalings: seq<(string, real)>, switchboard: map<string, Switch>)

  /** The registry as `units/conversions.py` defines it. */
  const Builtin: Registry := Registry(Factors, Scalings, Switchboard)
}
