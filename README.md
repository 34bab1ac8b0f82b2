# Unit conversion engine, modelled in Dafny

This project models the unit-conversion engine of `units/conversions.py`. The
engine has five stages:

- **`solve_aliases`** rewrites a unit string. It applies the ordered alias
  table by literal substring replacement, then turns `a/b/c2` into
  `a b-1 c-2`.
- **`components`** splits one atom such as `10mW2` into four parts:
  - a leading integer factor;
  - a metric prefix, resolved against `_scalings`;
  - a base unit from the `_factors` registry;
  - a signed power.

  It returns the factor in SI, the registry's SI signature and the power.
- **`breakdown`** folds all atoms of a unit into one total factor and a
  canonical signature. Powers are merged, zero powers dropped and tokens
  sorted.
- **`convert`** takes one of two routes:
  - when both signatures agree, it scales the value, applying a
    `Fahrenheit`/`Celcius` converter forward or inversely;
  - otherwise it calls the change-of-base function of `_switch`. The key is
    built from the tokens that only one side has, after the solid-angle
    steps `per_sr`/`times_sr` have peeled off a trailing `sr-1`.
- **The change-of-base functions and the converter classes.**
  - The change-of-base functions (`distance2velocity` … `times_sr`) read the
    reference keyword `wave`, `freq`, `diam` or `radius`, preferring the one
    listed first.
  - The converter classes are `NonLinearConverter`, `Fahrenheit` and
    `Celcius`.

All arithmetic is exact: Python floats are Dafny `real`s. The external
constants (`cc`, `au`, `pc`, `ly`, `Rsun`, `Msun`, `pi`) are a parameter `k`
of type `Physics`, which holds arbitrary positive reals. Every Python
exception the core can raise is an `Error` case of a `Result`:

- `ValueError('Unknown unit …')` is `UnknownUnit`;
- a missing reference `ValueError` is `MissingReference`;
- the `_switch` `KeyError` is `UnsupportedConversion`;
- `IndexError` on an empty piece is `EmptyPiece`;
- `ZeroDivisionError` is `DivisionByZero`;
- the `TypeError` of `converter * number` is `OperandType`;
- the `TypeError` of a keyword argument that names a parameter already
  given by position (`_from`/`_to` of `convert`, `arg` of a `_switch`
  function) is `KeywordClash`.

Modules, one per file:

| module | file | models |
|---|---|---|
| `Outcomes` | outcomes.dfy | `Result`, `Option`, the error cases, mapping a fallible function over a list |
| `Text` | text.dfy | `str.split`, `join`, `replace`, `%d`, `int()`, `sorted` on strings |
| `AtomPattern` | pattern.dfy | the regular expression `(\d*)(.+?)(-{0,1}\d+)` as `re.search` runs it |
| `Tables` | tables.dfy | `_factors`, `_scalings` (in written order), `_aliases`, `_switch` |
| `Aliases` | aliases.dfy | `solve_aliases` |
| `Decomposition` | components.dfy | `components` |
| `Reduction` | breakdown.dfy | `breakdown` |
| `ReductionExamples` | breakdown_examples.dfy | the `breakdown` doctests and other concrete reductions |
| `Canonical` | canonical.dfy | the shape of every signature `breakdown` returns |
| `Converters` | converters.dfy | `NonLinearConverter`, `Fahrenheit`, `Celcius`, and Python's `*`, `/`, `**` on factors |
| `Switches` | switches.dfy | the change-of-base functions |
| `Conversion` | convert.dfy | `convert` |

Each imperative loop of the source is a method. Its contract says that it
computes the same thing as a reference function. The properties are proved
about those functions:

- `SolveAliases` is proved equal to `Resolved`;
- `ComponentsOf` to `Components`;
- `BreakdownOf` to `Breakdown`;
- `KwargsOf` to `KwargsSI`;
- `ConvertOf` to `Convert`.

## Model

| member | source | states |
|---|---|---|
| Aliases.RewritePiece | units/conversions.py:174-184 | a piece after a `/` fails (`IndexError`) exactly when it is empty |
| Aliases.PieceRegular | units/conversions.py:175-184 | a piece `kbN` after a `/` becomes `b` with power −N (−1 when no power is written), with `k` in front only when it is not 1 |
| Aliases.GroupPointwise | units/conversions.py:172-184 | a `/`-group fails exactly when a later piece is empty; otherwise it keeps its length and first piece, and every later piece is rewritten on its own |
| Aliases.UnslashedGroups | units/conversions.py:171-188 | with a `/` present: fails exactly on an empty piece after a `/`; otherwise returns the groups joined with single spaces, each keeping its first piece verbatim and rewriting the later ones |
| Aliases.NoSlashUnslashed | units/conversions.py:171-188 | the slash rewriting leaves no `/` in its output |
| Aliases.NoSlashResolved | units/conversions.py:155-189 | `solve_aliases` output contains no `/` |
| Aliases.AliasesLeaveAlone | units/conversions.py:167-168 | a unit in which no alias pattern occurs is unchanged by the alias loop |
| Aliases.AliasesMarked | units/conversions.py:647-672 | every pattern of `_aliases` contains one of a fixed set of marker characters |
| Aliases.UnmarkedResolved | units/conversions.py:155-189 | a unit with none of those characters comes back from `solve_aliases` unchanged |
| Aliases.PlainUnitResolved | units/conversions.py:155-189 | a unit with no `/` and no alias pattern is returned unchanged |
| Aliases.RewritePieceStep | units/conversions.py:175-184 | the per-piece rewriting, step by step, gives the reference rewriting |
| Aliases.RewriteGroupInPlace | units/conversions.py:174-184 | `uni[1+j]` overwritten in place: succeeds exactly when no later piece is empty, keeps the first piece, rewrites every later one |
| Aliases.RewriteAllGroups | units/conversions.py:173-184 | the outer loop rewrites every group in order, stopping at the first failure |
| Aliases.Ravel | units/conversions.py:185-187 | `ravelled += uni` yields the concatenation of all groups |
| Aliases.Unslash | units/conversions.py:171-188 | the slash half of `solve_aliases` equals its reference definition |
| Aliases.SolveAliases | units/conversions.py:155-189 | the whole imperative `solve_aliases` equals the reference `Resolved` |
| AtomPattern.WithPower | units/conversions.py:218 | `'1'` is appended exactly when the atom does not end in a digit |
| AtomPattern.SignedIntAt | units/conversions.py:220 | group 3 `-{0,1}\d+`: a maximal run of digits, optionally after one minus sign |
| AtomPattern.ParseRegularAtom | units/conversions.py:220-224 | leading digits, a name and a signed power parse to (digits, name, power), whatever follows the power (the search is unanchored) |
| AtomPattern.AtomOfRegular | units/conversions.py:218-224 | an atom `ds b ps` gives factor `ds` (1 when absent), name `b`, and power `ps` (1 when absent) |
| AtomPattern.DigitRun | units/conversions.py:220 | `\d*` / `\d+` read a maximal run of digits: every character read is a digit and the next one is not |
| AtomPattern.WithPowerRegular | units/conversions.py:218 | for `ds b ps`, appending `'1'` happens exactly when `ps` is absent, and the power read is then 1 |
| AtomPattern.SearchRegular | units/conversions.py:220-222 | `re.search` matches a regular atom at position 0 with the groups at the expected places |
| Decomposition.FirstFit | units/conversions.py:231-236 | the first prefix, in table order, whose remainder is a registry key; no earlier prefix fits |
| Decomposition.Split | units/conversions.py:231-241 | fails with `Unknown unit` exactly when no prefix split fits and the raw name is not a key; a success always names a registry key |
| Decomposition.Unit | units/conversions.py:244-247 | the registry scale is a converter exactly when the entry is a converter class |
| Decomposition.Resolve | units/conversions.py:227-250 | fails exactly when `Split` fails; keeps the power; the factor is a converter exactly when the resolved entry is one |
| Decomposition.ResolveLinear | units/conversions.py:231-250 | for a numeric entry the component is (lead × prefix × scale, registry signature, power) |
| Decomposition.ResolveConverter | units/conversions.py:244-245 | for a converter entry the component is a fresh converter with prefix lead × prefix |
| Decomposition.Components | units/conversions.py:192-250 | fails exactly on an empty atom or an unknown name |
| Decomposition.SplitWhole | units/conversions.py:237-241 | when no prefix fits, the raw name is used if it is a registry key, else `Unknown unit` |
| Decomposition.SplitFirst | units/conversions.py:231-236 | the first fitting prefix gives its scale and the remainder of the name |
| Decomposition.UnprefixedAtom | units/conversions.py:218-250 | an atom whose name takes no prefix resolves to (lead × registry scale, registry signature, power) |
| Decomposition.PrefixedAtom | units/conversions.py:218-250 | an atom whose name takes prefix i resolves to (lead × prefix scale × registry scale of the remainder, its signature, power) |
| Decomposition.NoPrefixFits | units/conversions.py:231-236 | a name not starting with a prefix letter takes no prefix |
| Decomposition.NoEmptyName | units/conversions.py:587-631 | the registry has no empty name |
| Decomposition.ComponentsRegular | units/conversions.py:218-250 | `components(ds b ps)` resolves the atom (digits, name, power) |
| Decomposition.ConverterAtom | units/conversions.py:243-250 | an atom `ds b ps` naming a converter entry with no prefix gives a fresh converter with prefix `ds` and default power, the registry signature and the power `ps` |
| Decomposition.UnknownAtom | units/conversions.py:239-241 | an unknown name raises `Unknown unit` with that name |
| Decomposition.FirstFitAt | units/conversions.py:231-236 | the loop breaks at the first fitting prefix |
| Decomposition.FirstFitNone | units/conversions.py:237-241 | the for-else branch runs when no prefix fits |
| Decomposition.ComponentsOf | units/conversions.py:192-250 | the imperative `components` equals `Components` |
| Decomposition.PrefixLoop | units/conversions.py:231-236 | the for/break loop multiplies `factor` by the first fitting prefix scale and replaces `basis`, or leaves both when none fits |
| Decomposition.ResolveAtom | units/conversions.py:227-250 | the prefix loop and registry substitution equal `Resolve` |
| Decomposition.BuiltinPrefixes | units/conversions.py:634-644 | `_scalings` holds the SI prefixes n, mu, m, c, d, da, h, k, M, G with their decimal scales |
| Decomposition.MetreExample | units/conversions.py:198-199 | `components('m')` = (1, 'm', 1) |
| Decomposition.PerSecondSquaredExample | units/conversions.py:210-211 | `components('s-2')` = (1, 's', −2) |
| Decomposition.MillimetreExample | units/conversions.py:206-207 | `components('mm')` = (0.001, 'm', 1) |
| Decomposition.MegagramExample | units/conversions.py:204-205 | `components('Mg4')` = (1000, 'kg', 4) |
| Decomposition.WattCubedExample | units/conversions.py:208-209 | `components('W3')` = (1, 'kg m2 s-3', 3) |
| Decomposition.LeadingNumberExample | units/conversions.py:218-250 | `components('10mW2')` = (0.01, 'kg m2 s-3', 2) |
| Decomposition.DeciArcminuteExample | units/conversions.py:231-236 | `dam` splits as `d`+`am` (the first fitting prefix in written order) |
| Decomposition.FahrenheitExample | units/conversions.py:244-245 | `components('F')` is a fresh Fahrenheit converter with signature `K` |
| Decomposition.UnknownExample | units/conversions.py:239-241 | `components('ft')` raises `Unknown unit ft` |
| Decomposition.WattExample | units/conversions.py:218-250 | `components('W')` = (1, 'kg m2 s-3', 1) |
| Decomposition.KilogramExample | units/conversions.py:231-250 | `kg` is the prefix `k` on `g`: (1, 'kg', 1) |
| Decomposition.SquareMetreExample | units/conversions.py:218-250 | `components('m2')` = (1, 'm', 2) |
| Decomposition.PerCubicMetreExample | units/conversions.py:218-250 | `components('m-3')` = (1, 'm', −3) |
| Decomposition.PerSecondCubedExample | units/conversions.py:218-250 | `components('s-3')` = (1, 's', −3) |
| Decomposition.KelvinExample | units/conversions.py:218-250 | `components('K')` = (1, 'K', 1) |
| Decomposition.GramSquaredExample | units/conversions.py:200-201 | `components('g2')` = (0.001, 'kg', 2) |
| Decomposition.HectogramCubedExample | units/conversions.py:202-203 | `components('hg3')` = (0.1, 'kg', 3); Python prints the nearest double, 0.10000000000000001 |
| Decomposition.KilometreExample | units/conversions.py:218-250 | `components('km')` = (1000, 'm', 1) |
| Decomposition.CentimetreExample | units/conversions.py:218-250 | `components('cm')` = (0.01, 'm', 1) |
| Decomposition.CycleExample | units/conversions.py:218-250 | `components('cy')` = (1, 'cy', 1): no prefix fits, although `c` is a prefix |
| Decomposition.SteradianExample | units/conversions.py:218-250 | `components('sr')` = (1, 'sr', 1) |
| Reduction.Index | units/conversions.py:285 | `list.index`: the first position holding the name |
| Reduction.MergeSpec | units/conversions.py:284-289 | merging one base keeps the lists parallel and duplicate-free, keeps earlier entries, and adds the power to that base only |
| Reduction.MergeWordsSpec | units/conversions.py:281-289 | after one atom's signature words, each base's power grew by the atom power × its sub-power |
| Reduction.TotalsTally | units/conversions.py:277-289 | after all atoms the bases are exactly those mentioned, and each total power is the sum over atoms of atom power × sub-power |
| Reduction.TotalsLinear | units/conversions.py:274-280 | a numeric total factor is the product of factor^power over the atoms |
| Reduction.ConverterNotLast | units/conversions.py:280 | a converter followed by another atom makes `breakdown` fail; when everything up to the converter and the next atom resolve, the failure is the `TypeError` of converter × number |
| Reduction.ConverterLast | units/conversions.py:280 | a converter total comes from the last atom: a number times that converter |
| Reduction.TimesConverter | units/conversions.py:536-538 | a product that is a converter is number × converter, with the prefix scaled and the power reset |
| Reduction.PowerTimesConverter | units/conversions.py:536-544 | `x * c**n` = `x * c`: the power a converter takes is reset by `__rmul__` |
| Reduction.PlainBreakdown | units/conversions.py:271-294 | for a unit without alias patterns, `breakdown` is the atom totals rendered as the signature |
| Reduction.TotalsStops | units/conversions.py:277-289 | the first failing atom's error is the result |
| Reduction.MergeWordsStops | units/conversions.py:282-289 | the first failing signature word's error is the result |
| Reduction.TokensSpec | units/conversions.py:292 | the tokens are exactly `name%d` for the bases with non-zero total power |
| Reduction.TokensDistinct | units/conversions.py:292 | no token is listed twice |
| Reduction.RenderSpec | units/conversions.py:292-294 | the signature's words are strictly sorted and are exactly the non-zero `name%d` tokens |
| Reduction.WattPerCubicMetreExample | units/conversions.py:262-263 | `breakdown('W m-3')` = (1, 'kg1 m-1 s-3') |
| Reduction.ConverterLastExample | units/conversions.py:271-294 | `breakdown('m F')` = (Fahrenheit converter, 'K1 m1') |
| Reduction.ConverterFirstExample | units/conversions.py:280 | `breakdown('F m')` raises `TypeError` |
| ReductionExamples.PowerUnitExample | units/conversions.py:258-259 | `breakdown('erg s-1 W2 kg2 cm-2')` = (0.001, 'kg5 m4 s-9') |
| ReductionExamples.FluxUnitExample | units/conversions.py:260-261 | `breakdown('erg s-1 cm-2 A-1')` = (10000000, 'kg1 m-1 s-3') |
| ReductionExamples.KilometreReduced | units/conversions.py:252-294 | `breakdown('km')` = (1000, 'm1') |
| ReductionExamples.CentimetreReduced | units/conversions.py:252-294 | `breakdown('cm')` = (0.01, 'm1') |
| Canonical.BreakdownCanonical | units/conversions.py:277-294 | for a registry whose signatures are made of base names, every signature `breakdown` returns is strictly sorted, each word is a base name followed by a non-zero power, and no base name occurs twice |
| Canonical.BuiltinBaseWords | units/conversions.py:587-631 | every word of every signature in `_factors` is read by `components` as one of m, kg, s, cy, sr, K |
| Canonical.BuiltinBreakdownCanonical | units/conversions.py:252-294 | with the module's tables, every signature `breakdown` returns is canonical in that sense |
| Reduction.BreakdownOf | units/conversions.py:252-294 | the imperative `breakdown` equals `Breakdown` |
| Reduction.TotalsOf | units/conversions.py:274-289 | the atom loop, updating `total_factor`, `total_units` and `total_power`, equals `Totals` |
| Reduction.MergeBasis | units/conversions.py:281-289 | the inner loop over one atom's signature equals `MergeWords` |
| Reduction.MergeInto | units/conversions.py:284-289 | `total_power[index] +=` or append equals `Merge` |
| Reduction.TokensOf | units/conversions.py:292 | the comprehension filtering zero powers equals `Tokens` |
| Converters.Times | units/conversions.py:536-538 | `x * y` fails (`TypeError`) exactly when a converter is on the left; the result is a converter exactly when the right operand is |
| Converters.Divide | units/conversions.py:539-541 | `x / y` fails exactly when dividing by a converter or by zero; converter / number multiplies the prefix (converter / converter, `None` in Python, is a failure here: see "## Left out") |
| Converters.Power | units/conversions.py:542-544 | `x ** n` fails exactly for 0 to a negative power |
| Converters.Inverse | units/conversions.py:546-558 | the inverse call fails exactly for a zero prefix on a temperature scale |
| Converters.TemperatureRoundTrip | units/conversions.py:546-558 | for a non-zero prefix the inverse call undoes the forward call |
| Converters.TemperatureRoundTripInverse | units/conversions.py:546-558 | and the forward call undoes the inverse call |
| Converters.CelciusOffset | units/conversions.py:556 | `Celcius` reads 0 as −273.15 (the sign as written) |
| Converters.FahrenheitReading | units/conversions.py:549 | a fresh `Fahrenheit` reads `a` as (a + 459.67) × 5/9 |
| Converters.ScaledReading | units/conversions.py:536-558 | `(k * c)(a)` = `c(k * a)` for the temperature scales |
| Converters.TimesResetsPower | units/conversions.py:537-538 | `__rmul__` resets the power to its default and keeps the class |
| Converters.DivideMultiplies | units/conversions.py:539-541 | `c / k` multiplies the prefix, exactly as `k * c` does |
| Converters.PowerKeepsReadings | units/conversions.py:542-544 | `c ** n` adds `n` to the power and reads values as `c` does |
| Converters.PowerNegate | units/conversions.py:280 | `r ** n` × `r ** -n` = 1 for non-zero `r` |
| Switches.Quotient | units/conversions.py:137-151 | division fails exactly on a zero divisor; otherwise quotient × divisor = dividend |
| Switches.Pick | units/conversions.py:299-526 | the first listed reference present among the keywords; none exactly when all are absent |
| Switches.PickTwo | units/conversions.py:351-358 | `wave` is used when given, else `freq`, else none |
| Switches.Apply | units/conversions.py:299-526 | a switch fails with `ValueError` exactly when it needs a reference and none is given, with that function's message; any other failure is a division by zero |
| Switches.Change | units/conversions.py:299-526 | once a reference is read, a change of base fails only by dividing by zero |
| Switches.ScaleRoundTrip | units/conversions.py:299-526 | a change that multiplies by a and whose partner multiplies by b = 1/a is undone by its partner |
| Switches.Back | units/conversions.py:675-686 | each function's partner in `_switch` reads the same references |
| Switches.BackInvolution | units/conversions.py:675-686 | the partner of the partner is the function itself |
| Switches.VelocityRoundTrip | units/conversions.py:299-333 | `velocity2distance` ∘ `distance2velocity` is the identity for a non-zero `wave` |
| Switches.DistanceRoundTrip | units/conversions.py:299-333 | and the other way round |
| Switches.SpatialRoundTrip | units/conversions.py:450-490 | the `wave` branch of the spatial-frequency pair undoes itself |
| Switches.SpatialInverseRoundTrip | units/conversions.py:450-490 | and the other way round |
| Switches.FrequencyRoundTrip | units/conversions.py:450-490 | the `freq` branch gives back cc² × x, not x |
| Switches.SpatialFreqByFrequency | units/conversions.py:450-490 | with only `freq` given, the spatial round trip gives cc² × x |
| Switches.SolidAngleRoundTrip | units/conversions.py:492-526 | `times_sr` ∘ `per_sr` and `per_sr` ∘ `times_sr` are the identity for a non-zero size |
| Switches.FlambdaRoundTrip | units/conversions.py:335-385 | `flambda2fnu` ∘ `fnu2flambda` (and back) is the identity via `wave` or `freq` |
| Switches.NuFnuRoundTrip | units/conversions.py:387-437 | `nufnu2fnu` ∘ `fnu2nufnu` (and back) is the identity via `wave` or `freq` |
| Switches.ChangeRoundTrip | units/conversions.py:299-526 | every function other than `distance2frequency` is undone by its partner for an undoable reference |
| Switches.RoundTrip | units/conversions.py:299-526 | `Back(s)` undoes `s` whenever the keywords make `s` invertible; this includes `distance2frequency` on non-zero values |
| Switches.WaveFirst | units/conversions.py:299-469 | when `wave` is given, the other keywords do not matter |
| Switches.DiamFirst | units/conversions.py:492-526 | `diam` is preferred and means a radius of diam/2 |
| Switches.SameRadius | units/conversions.py:492-526 | the solid-angle functions depend only on the radius |
| Switches.SolidAnglePositive | units/conversions.py:501-504 | a non-zero radius gives a positive solid angle |
| Tables.AstroValue | units/conversions.py:591-597 | the astronomical scale constants are positive |
| Conversion.Scaled | units/conversions.py:125-126 | a keyword converts exactly when its unit reduces to a number; the value is factor × value |
| Conversion.KwargsOk | units/conversions.py:123-126 | the keyword loop succeeds exactly when every keyword's unit reduces to a number |
| Conversion.KwargsFailure | units/conversions.py:123-126 | otherwise the first keyword that does not convert gives the error |
| Conversion.KwargsKeys | units/conversions.py:123-126 | on success the map's keys are exactly the keywords given |
| Conversion.KwargsValues | units/conversions.py:123-126 | each entry is the last same-named keyword's value times its unit's factor |
| Conversion.KwargsFailurePersists | units/conversions.py:123-126 | once a keyword fails the loop ends with that error |
| Conversion.KwargsOf | units/conversions.py:123-126 | the imperative keyword loop equals `KwargsSI` |
| Conversion.ConvertOf | units/conversions.py:9-151 | the imperative `convert` equals `Convert` over the module's tables |
| Conversion.Minus | units/conversions.py:141-142 | `set(a) - set(b)`: exactly the elements of `a` not in `b`, without repeats |
| Conversion.OnlyTokensSpec | units/conversions.py:141-142 | `only_from` tokens are strictly sorted and are exactly the tokens of one side missing on the other |
| Conversion.OnlyTokensUnique | units/conversions.py:141-142 | any strictly sorted list with those elements is that list |
| Conversion.Peeled | units/conversions.py:144-149 | a trailing `sr-1` is removed; otherwise the string is unchanged |
| Conversion.RouteBack | units/conversions.py:139-151 | swapping the units swaps the two solid-angle steps and the two halves of the key |
| Conversion.Board | units/conversions.py:675-686 | `_switch` with the constants fixed has the same keys |
| Conversion.ReservedKey | units/conversions.py:9 | none exactly when no keyword is named `_from` or `_to`; otherwise the name of the first such keyword |
| Conversion.ConvertFailsFirst | units/conversions.py:9-126 | errors come in order: a keyword named `_from`/`_to` (`TypeError` at the call, naming the first one), then source unit, then target unit, then the first failing keyword |
| Conversion.BoardClash | units/conversions.py:299-526 | a keyword `arg` makes every `_switch` function fail with `TypeError`, since `arg` is its positional parameter |
| Conversion.SwitchClash | units/conversions.py:139-151 | different signatures, plain factors and a keyword `arg`: `convert` raises `TypeError` at the first `_switch` call (`per_sr`, `times_sr` or the keyed function) |
| Conversion.ConvertScales | units/conversions.py:129-137 | equal signatures and numeric factors: result × fac_to = fac_from × value, failing only for fac_to = 0 |
| Conversion.ConvertToSI | units/conversions.py:116-137 | target `'SI'` gives fac_from × value, or the converter's forward reading |
| Conversion.ConvertFromConverter | units/conversions.py:131-132 | a converter source is read forward and divided by fac_to; a converter on both sides raises `TypeError` |
| Conversion.ConvertToConverter | units/conversions.py:133-134 | a converter target is applied inversely to fac_from × value |
| Conversion.ScaleRoundTrip | units/conversions.py:129-137 | converting there and back with numeric non-zero factors returns the value |
| Conversion.TemperatureRoundTrip | units/conversions.py:129-137 | converting from a temperature unit and back returns the value |
| Conversion.SwitchedLinear | units/conversions.py:139-151 | different signatures: the keyed function on fac_from × value, divided by fac_to; a missing key raises `KeyError` |
| Conversion.ConvertSwitches | units/conversions.py:139-151 | `convert` with different signatures is `_switch[key](fac_from*arg)/fac_to`, failing with `KeyError` on a missing key |
| Conversion.ConvertSwitchConverter | units/conversions.py:151 | a converter source in a change of base raises `TypeError` |
| Conversion.SwitchedRoundTrip | units/conversions.py:139-151 | the change of base there and back returns the value when the way back undoes the way there |
| Conversion.SwitchRoundTrip | units/conversions.py:9-151 | `convert` there and back between different signatures returns the value |
| Conversion.BoardRoundTrip | units/conversions.py:139-151 | with the module's functions, `convert` there and back returns the value when the keys name partners and the keywords (none named `arg`) make the function invertible |
| Conversion.SwitchboardPaired | units/conversions.py:675-686 | every key `a_to_b` of `_switch` has the key `b_to_a`, and its function is the partner (`Back`) of the function at `a_to_b` |
| Conversion.BuiltinBoardRoundTrip | units/conversions.py:139-151 | with the module's own `_switch`, `convert` there and back between different signatures returns the value whenever the key exists and the keywords (none named `arg`) make its function invertible |
| Conversion.ConvertRatio | units/conversions.py:129-137 | equal signatures, plain factors a and b, no keywords: the result is (a/b) × value |
| Conversion.KilometreToCentimetreExample | units/conversions.py:38-39 | `convert('km', 'cm', x)` = 100000 × x |
| Conversion.ConverterToSIExample | units/conversions.py:116-137 | `convert('m F', 'SI', x)` = (x + 459.67) × 5/9 |
| Conversion.MetreFahrenheitReduced | units/conversions.py:271-294 | `breakdown('m F')` with the module's tables is a fresh Fahrenheit converter with signature 'K1 m1' |
| Conversion.ConverterFirstExample | units/conversions.py:116 | `convert('F m', …)` raises `TypeError` whatever the target and the bindable keywords |
| Conversion.AngstromToSpeedKey | units/conversions.py:139-142 | `A` (m1) to `km/s` (m1 s-1): only_from = '' and only_to = 's-1', selecting `_to_s-1` |
| Text.Pieces | units/conversions.py:172 | `s.split('/')`: at least one piece, none containing `/`, joining back to `s` |
| Text.Words | units/conversions.py:273 | `str.split()`: every word is non-empty and holds no whitespace |
| Text.NatToStringSpec | units/conversions.py:183 | `%d` of a natural is a non-empty digit run without a leading zero that reads back as the number |
| Text.WordsOfJoin | units/conversions.py:273-294 | splitting space-joined words gives them back |
| Text.ReplaceAbsent | units/conversions.py:168 | `replace` leaves a string that holds no occurrence of the pattern unchanged |
| Text.ReplaceKeepsPrefix | units/conversions.py:168 | the text before the first occurrence of the pattern is copied through unchanged |
| Text.ReplaceLeftmost | units/conversions.py:168 | the first occurrence is replaced, the text before it kept, and the scan resumes right after it (no overlapping matches) |
| Text.IntToStringRoundTrip | units/conversions.py:183 | `%d` formatting reads back as the same integer |
| Text.SortSpec | units/conversions.py:292 | `sorted` returns an ordered permutation |
| Text.SortedUnique | units/conversions.py:141 | there is only one ordered permutation |

## Left out

- Floating-point rounding: factors and values are exact reals. The doctest
  value `0.10000000000000001` for `components('hg3')` is the double nearest
  to 0.1 as Python prints it; the model proves the exact value 0.1.
- The constants module (`cc`, `au`, `pc`, `ly`, `Rsun`, `Msun`) and numpy's
  `pi` are parameters: positive reals with no fixed value. Results that
  depend on them stay symbolic.
- `VegaMag`, `ABMag` and `STMag` use `10**` and `log10`. They are converter
  tags whose readings come from a caller-supplied function `MagMaths`.
- Python dict iteration order: `_scalings` is taken in written order, so
  `das` splits as `d`+`as`. The keyword arguments are a sequence in call
  order, where a later keyword of the same name overwrites an earlier one.
- `convert` takes a single positional value. The `args` tuple beyond
  `args[0]` is not modelled.
- The change-of-base registry is a map from keys to functions over values
  and keywords. `Board` builds it from `_switch` with the constants fixed.
  The generic `convert` lemmas hold for any such map.
- Converters.Times: converter × converter is reported at once as
  `OperandType`. In Python `__rmul__` returns `None`, so `breakdown('F F')`
  returns `(None, 'K2')`, and the failure only comes later in `convert`: a
  `TypeError` when `None` is multiplied or divided, or first a `KeyError`
  from `_switch` or a `ValueError` from `per_sr`.
- Converters.Divide: converter / converter is reported as `OperandType`.
  In Python `__div__` returns `None` for a non-number divisor, and the
  failure only comes when `None` is used later. `convert` cannot build this
  quotient from unit strings, since `breakdown` only multiplies and raises
  to powers.
- Converters.Power: the exponent is any integer, and `__pow__` always
  returns a converter. In Python 2, `int()` of a power of 2**63 or more
  gives a `long`, for which `__pow__` returns `None`; so
  `breakdown('F9223372036854775808')` raises `TypeError` there, while the
  model yields a converter. Machine integer widths are not modelled.
- Concrete `convert` doctest values other than `km`→`cm` (such as
  `cy/d`→`muHz`) are not stated one by one; the scaling lemmas state them
  in general.
- Conversion.AngstromToSpeedKey: states the two token strings; the key
  `'_to_s-1'` follows from `SwitchKey`. The full route is not stated as one
  concrete lemma.
- The `__main__` doctest runner and the `sigproc` test suite.

