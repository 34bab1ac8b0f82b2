/** `breakdown` (units/conversions.py:252-294): a whole unit reduced to one
    total factor and a canonical SI signature, such as `'kg1 m-1 s-3'`. */
module Reduction {
  import opened Text
  import opened Tables
  import opened Outcomes
  import opened Converters
  import opened Decomposition
  import Aliases

  /** `total_units` and `total_power`: the base names in order of first
      appearance and the power accumulated for each. */
  datatype Tally = Tally(units: seq<string>, powers: seq<int>)

  /** A function that decomposes one atom, as `components` does. */
  type Decomposer = string -> Result<Component>

  /** `components` with the registry and the constants fixed: the loops
      below are stated for any decomposer and instantiated with this one. */
  function Decompose(t: Registry, k: Physics): Decomposer {
    unit => Components(t, unit, k)
  }

  /** The lists start empty. */
  const Empty: Tally := Tally([], [])

  /** The two lists run in parallel and no name is listed twice. */
  predicate WellFormed(tl: Tally) {
    && |tl.units| == |tl.powers|
    && forall i, j :: 0 <= i < j < |tl.units| ==> tl.units[i] != tl.units[j]
  }

  /** `total_units.index(name)`: the first position holding `name`. */
  function Index(s: seq<string>, x: string): (i: nat)
    requires x in s
    ensures i < |s| && s[i] == x
    ensures forall j :: 0 <= j < i ==> s[j] != x
  {
    if s[0] == x then 0 else 1 + Index(s[1..], x)
  }

  /** The power a tally holds for `name`; zero when it is not listed. */
  function PowerOf(tl: Tally, name: string): int
    requires |tl.units| == |tl.powers|
  {
    if name in tl.units then tl.powers[Index(tl.units, name)] else 0
  }

  /** The inner loop's body: `total_power[index] += p` for a listed name,
      otherwise both lists grow by one. */
  function Merge(tl: Tally, name: string, p: int): (r: Tally)
    requires |tl.units| == |tl.powers|
    ensures |r.units| == |r.powers|
  {
    if name in tl.units then
      var index := Index(tl.units, name);
      Tally(tl.units, tl.powers[index := tl.powers[index] + p])
    else
      Tally(tl.units + [name], tl.powers + [p])
  }

  /** The inner loop over the words of an atom's signature: each word is
      decomposed on its own and its power, times the atom's, is merged. */
  function MergeWords(dec: Decomposer, tl: Tally, words: seq<string>, power: int): (r: Result<Tally>)
    requires |tl.units| == |tl.powers|
    ensures r.Ok? ==> |r.value.units| == |r.value.powers|
    decreases |words|
  {
    if words == [] then Ok(tl)
    else
      var before :- MergeWords(dec, tl, words[..|words| - 1], power);
      var sub :- dec(words[|words| - 1]);
      Ok(Merge(before, sub.sig, sub.power * power))
  }

  /** The outer loop's body for one atom: `total_factor*factor**power`,
      then the inner loop. */
  function Absorb(dec: Decomposer, total: Factor, tl: Tally, atom: string): (r: Result<(Factor, Tally)>)
    requires |tl.units| == |tl.powers|
    ensures r.Ok? ==> |r.value.1.units| == |r.value.1.powers|
  {
    var c :- dec(atom);
    var raised :- Power(c.factor, c.power);
    var product :- Times(total, raised);
    var merged :- MergeWords(dec, tl, Words(c.sig), c.power);
    Ok((product, merged))
  }

  /** The totals after the outer loop has run over `atoms`, starting from
      `1.` and empty lists. */
  function Totals(dec: Decomposer, atoms: seq<string>): (r: Result<(Factor, Tally)>)
    ensures r.Ok? ==> |r.value.1.units| == |r.value.1.powers|
    decreases |atoms|
  {
    if atoms == [] then Ok((Linear(1.0), Empty))
    else
      var before :- Totals(dec, atoms[..|atoms| - 1]);
      Absorb(dec, before.0, before.1, atoms[|atoms| - 1])
  }

  /** The list comprehension: `'%s%s' % (i, j)` for each listed name whose
      power is not zero, in the tally's order. */
  function Tokens(tl: Tally): seq<string>
    requires |tl.units| == |tl.powers|
    decreases |tl.units|
  {
    if tl.units == [] then []
    else
      var n := |tl.units| - 1;
      var rest := Tokens(Tally(tl.units[..n], tl.powers[..n]));
      if tl.powers[n] != 0 then rest + [tl.units[n] + IntToString(tl.powers[n])] else rest
  }

  /** The sorted tokens joined by single spaces. */
  function Render(tl: Tally): string
    requires |tl.units| == |tl.powers|
  {
    Join(Sort(Tokens(tl)), " ")
  }

  /** `breakdown(unit)`: aliases first, then the atoms in turn. */
  function Breakdown(t: Registry, unit: string, k: Physics): Result<(Factor, string)> {
    var solved :- Aliases.Resolved(unit);
    var totals :- Totals(Decompose(t, k), Words(solved));
    Ok((totals.0, Render(totals.1)))
  }

  // ---------------------------------------------------------------------
  // Reference definitions: what the loops add up, stated without the lists

  /** The power of `name` that one signature word contributes. */
  function WordWeight(dec: Decomposer, word: string, name: string): int {
    match dec(word)
    case Ok(sub) => if sub.sig == name then sub.power else 0
    case Err(_) => 0
  }

  /** The sum of the words' contributions to `name`. */
  function WordsWeight(dec: Decomposer, words: seq<string>, name: string): int
    decreases |words|
  {
    if words == [] then 0
    else WordsWeight(dec, words[..|words| - 1], name) + WordWeight(dec, words[|words| - 1], name)
  }

  /** The power of `name` an atom contributes: the atom's power times the
      sum over the words of its signature. */
  function AtomWeight(dec: Decomposer, atom: string, name: string): int {
    match dec(atom)
    case Ok(c) => c.power * WordsWeight(dec, Words(c.sig), name)
    case Err(_) => 0
  }

  /** The sum over all atoms. */
  function Weight(dec: Decomposer, atoms: seq<string>, name: string): int
    decreases |atoms|
  {
    if atoms == [] then 0
    else Weight(dec, atoms[..|atoms| - 1], name) + AtomWeight(dec, atoms[|atoms| - 1], name)
  }

  /** `name` is the signature of some word of some atom's signature. */
  predicate WordsMention(dec: Decomposer, words: seq<string>, name: string)
    decreases |words|
  {
    && words != []
    && (|| WordsMention(dec, words[..|words| - 1], name)
        || (dec(words[|words| - 1]).Ok? && dec(words[|words| - 1]).value.sig == name))
  }

  predicate Mentions(dec: Decomposer, atoms: seq<string>, name: string)
    decreases |atoms|
  {
    && atoms != []
    && (|| Mentions(dec, atoms[..|atoms| - 1], name)
        || (dec(atoms[|atoms| - 1]).Ok?
            && WordsMention(dec, Words(dec(atoms[|atoms| - 1]).value.sig), name)))
  }

  /** The float `factor**power` of an atom; 1 when it is not a float. */
  function Scale(dec: Decomposer, atom: string): real {
    match dec(atom)
    case Ok(c) => (match Power(c.factor, c.power) case Ok(Linear(r)) => r case _ => 1.0)
    case Err(_) => 1.0
  }

  /** The product of the atoms' scales, multiplied left to right. */
  function Product(dec: Decomposer, atoms: seq<string>): real
    decreases |atoms|
  {
    if atoms == [] then 1.0 else Product(dec, atoms[..|atoms| - 1]) * Scale(dec, atoms[|atoms| - 1])
  }

  // ---------------------------------------------------------------------
  // The merge step

  /** `index` finds the one position of a name in a list without repeats. */
  lemma IndexIs(s: seq<string>, x: string, i: nat)
    requires i < |s| && s[i] == x
    requires forall j :: 0 <= j < |s| && j != i ==> s[j] != x
    ensures x in s && Index(s, x) == i
  {
  }

  /** Merging keeps the lists parallel and free of repeats, keeps the
      order of the names already listed, adds `p` to the power of `name`
      and leaves every other power as it was. */
  lemma MergeSpec(tl: Tally, name: string, p: int)
    requires WellFormed(tl)
    ensures WellFormed(Merge(tl, name, p))
    ensures Merge(tl, name, p).units[..|tl.units|] == tl.units
    ensures forall x :: x in Merge(tl, name, p).units <==> x in tl.units || x == name
    ensures forall x :: PowerOf(Merge(tl, name, p), x) == PowerOf(tl, x) + (if x == name then p else 0)
  {
    var r := Merge(tl, name, p);
    forall x ensures PowerOf(r, x) == PowerOf(tl, x) + (if x == name then p else 0) {
      if x in tl.units {
        var i := Index(tl.units, x);
        IndexIs(r.units, x, i);
      } else if x == name {
        IndexIs(r.units, x, |tl.units|);
      } else {
        assert x !in r.units;
      }
    }
  }

  // ---------------------------------------------------------------------
  // Once a step fails, the loops fail with it

  lemma {:induction false} MergeWordsStops(dec: Decomposer, tl: Tally, words: seq<string>, i: nat, power: int)
    requires |tl.units| == |tl.powers|
    requires i <= |words| && MergeWords(dec, tl, words[..i], power).Err?
    ensures MergeWords(dec, tl, words, power) == MergeWords(dec, tl, words[..i], power)
    decreases |words|
  {
    if i < |words| {
      var n := |words| - 1;
      assert words[..n][..i] == words[..i];
      MergeWordsStops(dec, tl, words[..n], i, power);
    } else {
      assert words[..i] == words;
    }
  }

  /** The inner loop has merged the first `j` words of `words` into `tl`,
      giving `now`. */
  predicate MergedUpTo(dec: Decomposer, tl: Tally, words: seq<string>, j: nat, power: int, now: Tally) {
    && j <= |words| && |tl.units| == |tl.powers|
    && MergeWords(dec, tl, words[..j], power) == Ok(now)
  }

  /** One more pass of the inner loop. */
  lemma MergeWordsStep(dec: Decomposer, tl: Tally, words: seq<string>, j: nat, power: int, before: Tally, sub: Component, p: int)
    requires MergedUpTo(dec, tl, words, j, power, before) && j < |words|
    requires dec(words[j]) == Ok(sub) && p == sub.power * power
    ensures |before.units| == |before.powers|
    ensures MergedUpTo(dec, tl, words, j + 1, power, Merge(before, sub.sig, p))
  {
    assert words[..j + 1][..j] == words[..j];
  }

  /** A word that fails ends the inner loop with its error. */
  lemma MergeWordsFail(dec: Decomposer, tl: Tally, words: seq<string>, j: nat, power: int, before: Tally)
    requires MergedUpTo(dec, tl, words, j, power, before) && j < |words|
    requires dec(words[j]).Err?
    ensures MergeWords(dec, tl, words, power) == Err(dec(words[j]).error)
  {
    assert words[..j + 1][..j] == words[..j];
    MergeWordsStops(dec, tl, words, j + 1, power);
  }

  lemma MergedStart(dec: Decomposer, tl: Tally, words: seq<string>, power: int)
    requires |tl.units| == |tl.powers|
    ensures MergedUpTo(dec, tl, words, 0, power, tl)
  {
    assert words[..0] == [];
  }

  lemma MergedAll(dec: Decomposer, tl: Tally, words: seq<string>, power: int, now: Tally)
    requires MergedUpTo(dec, tl, words, |words|, power, now)
    ensures MergeWords(dec, tl, words, power) == Ok(now)
  {
    assert words[..|words|] == words;
  }

  /** One more pass of the outer loop. */
  lemma TotalsStep(dec: Decomposer, atoms: seq<string>, i: nat, before: (Factor, Tally))
    requires i < |atoms| && |before.1.units| == |before.1.powers|
    requires Totals(dec, atoms[..i]) == Ok(before)
    ensures Totals(dec, atoms[..i + 1]) == Absorb(dec, before.0, before.1, atoms[i])
  {
    assert atoms[..i + 1][..i] == atoms[..i];
  }

  /** A pass of the outer loop that fails ends the loop with its error. */
  lemma TotalsFail(dec: Decomposer, atoms: seq<string>, i: nat, before: (Factor, Tally))
    requires i < |atoms| && |before.1.units| == |before.1.powers|
    requires Totals(dec, atoms[..i]) == Ok(before)
    requires Absorb(dec, before.0, before.1, atoms[i]).Err?
    ensures Totals(dec, atoms) == Absorb(dec, before.0, before.1, atoms[i])
  {
    TotalsStep(dec, atoms, i, before);
    TotalsStops(dec, atoms, i + 1);
  }

  lemma {:induction false} TotalsStops(dec: Decomposer, atoms: seq<string>, i: nat)
    requires i <= |atoms| && Totals(dec, atoms[..i]).Err?
    ensures Totals(dec, atoms) == Totals(dec, atoms[..i])
    decreases |atoms|
  {
    if i < |atoms| {
      var n := |atoms| - 1;
      assert atoms[..n][..i] == atoms[..i];
      TotalsStops(dec, atoms[..n], i);
    } else {
      assert atoms[..i] == atoms;
    }
  }

  // ---------------------------------------------------------------------
  // What the loops compute

  /** One more word's power, times the atom's, added to a running sum. */
  lemma Accumulate(after: int, before: int, start: int, w0: int, w1: int, w: int, power: int, p: int, hit: bool)
    requires w == (if hit then p else 0)
    requires after == before + (if hit then p * power else 0)
    requires before == start + power * w0
    requires w1 == w0 + w
    ensures after == start + power * w1
  {
  }

  /** The inner loop keeps the tally free of repeats, lists exactly the
      names it met besides those already listed, and adds to each name
      the atom's power times the sum of the words' powers for it. */
  lemma {:induction false} MergeWordsSpec(dec: Decomposer, tl: Tally, words: seq<string>, power: int)
    requires WellFormed(tl)
    requires MergeWords(dec, tl, words, power).Ok?
    ensures WellFormed(MergeWords(dec, tl, words, power).value)
    ensures forall x :: x in MergeWords(dec, tl, words, power).value.units <==> x in tl.units || WordsMention(dec, words, x)
    ensures forall x :: PowerOf(MergeWords(dec, tl, words, power).value, x) == PowerOf(tl, x) + power * WordsWeight(dec, words, x)
    decreases |words|
  {
    if words != [] {
      var n := |words| - 1;
      var before := MergeWords(dec, tl, words[..n], power).value;
      MergeWordsSpec(dec, tl, words[..n], power);
      var sub := dec(words[n]).value;
      MergeSpec(before, sub.sig, sub.power * power);
      var after := MergeWords(dec, tl, words, power).value;
      forall x ensures PowerOf(after, x) == PowerOf(tl, x) + power * WordsWeight(dec, words, x) {
        Accumulate(PowerOf(after, x), PowerOf(before, x), PowerOf(tl, x),
          WordsWeight(dec, words[..n], x), WordsWeight(dec, words, x), WordWeight(dec, words[n], x),
          power, sub.power, sub.sig == x);
      }
    }
  }

  /** The outer loop keeps the tally free of repeats; it lists exactly the
      names some signature word resolves to, and holds for each the sum
      over the atoms of the atom's power times the words' powers. */
  lemma {:induction false} TotalsTally(dec: Decomposer, atoms: seq<string>)
    requires Totals(dec, atoms).Ok?
    ensures WellFormed(Totals(dec, atoms).value.1)
    ensures forall x :: x in Totals(dec, atoms).value.1.units <==> Mentions(dec, atoms, x)
    ensures forall x :: PowerOf(Totals(dec, atoms).value.1, x) == Weight(dec, atoms, x)
    decreases |atoms|
  {
    if atoms != [] {
      var n := |atoms| - 1;
      var before := Totals(dec, atoms[..n]).value;
      TotalsTally(dec, atoms[..n]);
      var c := dec(atoms[n]).value;
      MergeWordsSpec(dec, before.1, Words(c.sig), c.power);
    }
  }

  /** When the total factor is a float, every atom's `factor**power` was
      a float and the total is their product. */
  lemma {:induction false} TotalsLinear(dec: Decomposer, atoms: seq<string>)
    requires Totals(dec, atoms).Ok? && Totals(dec, atoms).value.0.Linear?
    ensures Totals(dec, atoms).value.0.r == Product(dec, atoms)
    decreases |atoms|
  {
    if atoms != [] {
      var n := |atoms| - 1;
      var before := Totals(dec, atoms[..n]).value;
      TotalsLinear(dec, atoms[..n]);
    }
  }

  /** A converter unit can only come last: `'m F'` breaks down to a
      converter, while in `'F m'` the converter would be multiplied by a
      float from the left, which its class does not support. When the atoms
      up to the converter went through and the next atom is known, the
      failure is that `TypeError`, and it is what the whole unit gives. */
  lemma ConverterNotLast(dec: Decomposer, atoms: seq<string>, i: nat)
    requires i + 1 < |atoms|
    requires dec(atoms[i]).Ok? && dec(atoms[i]).value.factor.NonLinear?
    ensures Totals(dec, atoms).Err?
    ensures Totals(dec, atoms[..i + 1]).Ok? && dec(atoms[i + 1]).Ok? &&
            Power(dec(atoms[i + 1]).value.factor, dec(atoms[i + 1]).value.power).Ok? ==>
              Totals(dec, atoms) == Err(OperandType)
  {
    var p := atoms[..i + 2];
    assert p[..i + 1] == atoms[..i + 1];
    assert p[i] == atoms[i] && p[i + 1] == atoms[i + 1];
    ConverterThenAtom(dec, p);
    TotalsStops(dec, atoms, i + 2);
  }

  /** The step of `ConverterNotLast`: a converter in the last but one place. */
  lemma ConverterThenAtom(dec: Decomposer, p: seq<string>)
    requires |p| >= 2
    requires dec(p[|p| - 2]).Ok? && dec(p[|p| - 2]).value.factor.NonLinear?
    ensures Totals(dec, p).Err?
    ensures Totals(dec, p[..|p| - 1]).Ok? && dec(p[|p| - 1]).Ok? &&
            Power(dec(p[|p| - 1]).value.factor, dec(p[|p| - 1]).value.power).Ok? ==>
              Totals(dec, p) == Err(OperandType)
  {
    var n := |p| - 1;
    var q := p[..n];
    assert q[..n - 1] == p[..n - 1];
    assert q[n - 1] == p[n - 1];
  }

  /** A converter in last place: the atoms before it left a float total
      (by `TotalsLinear`, the product of their `factor**power`), and the
      result is that float times the converter, which scales its prefix
      and drops whatever power the atom gave it. */
  lemma ConverterLast(dec: Decomposer, atoms: seq<string>)
    requires Totals(dec, atoms).Ok? && Totals(dec, atoms).value.0.NonLinear?
    ensures atoms != []
    ensures dec(atoms[|atoms| - 1]).Ok?
    ensures dec(atoms[|atoms| - 1]).value.factor.NonLinear?
    ensures Totals(dec, atoms[..|atoms| - 1]).Ok? && Totals(dec, atoms[..|atoms| - 1]).value.0.Linear?
    ensures Times(Totals(dec, atoms[..|atoms| - 1]).value.0, dec(atoms[|atoms| - 1]).value.factor) == Ok(Totals(dec, atoms).value.0)
  {
    TotalsLast(dec, atoms);
    AbsorbConverter(dec, Totals(dec, atoms[..|atoms| - 1]).value.0, Totals(dec, atoms[..|atoms| - 1]).value.1, atoms[|atoms| - 1]);
  }

  /** A successful outer loop ended with a successful pass over its last
      atom. */
  lemma TotalsLast(dec: Decomposer, atoms: seq<string>)
    requires atoms != [] && Totals(dec, atoms).Ok?
    ensures Totals(dec, atoms[..|atoms| - 1]).Ok?
    ensures Totals(dec, atoms) == Absorb(dec, Totals(dec, atoms[..|atoms| - 1]).value.0, Totals(dec, atoms[..|atoms| - 1]).value.1, atoms[|atoms| - 1])
  {
  }

  /** A pass of the outer loop that leaves a converter total: the atom is a
      converter and the total before it a float. */
  lemma AbsorbConverter(dec: Decomposer, total: Factor, tl: Tally, atom: string)
    requires |tl.units| == |tl.powers|
    requires Absorb(dec, total, tl, atom).Ok? && Absorb(dec, total, tl, atom).value.0.NonLinear?
    ensures dec(atom).Ok? && dec(atom).value.factor.NonLinear? && total.Linear?
    ensures Times(total, dec(atom).value.factor) == Ok(Absorb(dec, total, tl, atom).value.0)
  {
    AbsorbFactor(dec, total, tl, atom);
    var c := dec(atom).value;
    TimesConverter(total, Power(c.factor, c.power).value, Absorb(dec, total, tl, atom).value.0);
    PowerTimesConverter(total, c.factor, c.power);
  }

  /** What a successful pass of the outer loop did to the total factor. */
  lemma AbsorbFactor(dec: Decomposer, total: Factor, tl: Tally, atom: string)
    requires |tl.units| == |tl.powers|
    requires Absorb(dec, total, tl, atom).Ok?
    ensures dec(atom).Ok? && Power(dec(atom).value.factor, dec(atom).value.power).Ok?
    ensures Times(total, Power(dec(atom).value.factor, dec(atom).value.power).value) == Ok(Absorb(dec, total, tl, atom).value.0)
  {
  }

  /** A float times a converter raised to a power: the power is lost and
      the float scales the prefix. */
  lemma PowerTimesConverter(x: Factor, c: Factor, n: int)
    requires c.NonLinear?
    ensures Times(x, Power(c, n).value) == Times(x, c)
  {
    var y := Power(c, n).value;
    assert y.kind == c.kind && y.prefix == c.prefix;
    if x.Linear? {
      var u, v := Times(x, y).value, Times(x, c).value;
      assert u.NonLinear? && v.NonLinear?;
      assert u.kind == v.kind && u.prefix == v.prefix && u.power == v.power;
    }
  }

  /** A product that is a converter is a float times a converter. */
  lemma TimesConverter(x: Factor, y: Factor, z: Factor)
    requires Times(x, y) == Ok(z) && z.NonLinear?
    ensures x.Linear? && y.NonLinear? && z == NonLinear(y.kind, y.prefix * x.r, 1.0)
  {
  }

  // ---------------------------------------------------------------------
  // The rendering

  /** A base name as the registry writes them: not empty, and without
      spaces, digits or minus signs. */
  predicate BaseName(u: string) {
    u != [] && forall i :: 0 <= i < |u| ==> !IsSpace(u[i]) && !IsDigit(u[i]) && u[i] != '-'
  }

  /** The tokens are exactly the listed names with their non-zero powers. */
  lemma {:induction false} TokensSpec(tl: Tally)
    requires |tl.units| == |tl.powers|
    ensures forall s :: s in Tokens(tl) <==>
      exists i :: 0 <= i < |tl.units| && tl.powers[i] != 0 && s == tl.units[i] + IntToString(tl.powers[i])
    decreases |tl.units|
  {
    if tl.units != [] {
      var n := |tl.units| - 1;
      var init := Tally(tl.units[..n], tl.powers[..n]);
      TokensSpec(init);
    }
  }

  /** `'%d'` renders an integer as a non-empty run of digits, possibly
      after a minus sign. */
  lemma RenderedInt(p: int)
    ensures var s := IntToString(p); s != [] && (IsDigit(s[0]) || s[0] == '-') && NoSpace(s)
  {
    IntToStringRoundTrip(p);
  }

  /** Length of the leading run of characters that are neither digits nor
      minus signs. */
  function NameLength(s: string): (n: nat)
    ensures n <= |s|
  {
    if s == [] || IsDigit(s[0]) || s[0] == '-' then 0 else 1 + NameLength(s[1..])
  }

  lemma {:induction false} NameLengthOfToken(u: string, rest: string)
    requires forall i :: 0 <= i < |u| ==> !IsDigit(u[i]) && u[i] != '-'
    requires rest != [] && (IsDigit(rest[0]) || rest[0] == '-')
    ensures NameLength(u + rest) == |u|
  {
    if u == [] {
      assert u + rest == rest;
    } else {
      assert (u + rest)[1..] == u[1..] + rest;
      NameLengthOfToken(u[1..], rest);
    }
  }

  /** A token determines its base name. */
  lemma TokenNames(u: string, p: int, v: string, q: int)
    requires BaseName(u) && BaseName(v)
    requires u + IntToString(p) == v + IntToString(q)
    ensures u == v
  {
    RenderedInt(p);
    RenderedInt(q);
    NameLengthOfToken(u, IntToString(p));
    NameLengthOfToken(v, IntToString(q));
    var s := u + IntToString(p);
    assert u == s[..|u|];
    assert v == s[..|v|];
  }

  /** No token repeats when the names are base names without repeats. */
  lemma {:induction false} TokensDistinct(tl: Tally)
    requires WellFormed(tl)
    requires forall i :: 0 <= i < |tl.units| ==> BaseName(tl.units[i])
    ensures forall s :: multiset(Tokens(tl))[s] <= 1
    decreases |tl.units|
  {
    if tl.units != [] {
      var n := |tl.units| - 1;
      var init := Tally(tl.units[..n], tl.powers[..n]);
      TokensDistinct(init);
      if tl.powers[n] != 0 {
        var last := tl.units[n] + IntToString(tl.powers[n]);
        if last in Tokens(init) {
          TokensSpec(init);
          var i :| 0 <= i < n && init.powers[i] != 0 && last == init.units[i] + IntToString(init.powers[i]);
          TokenNames(tl.units[n], tl.powers[n], tl.units[i], tl.powers[i]);
          assert false;
        }
      }
    }
  }

  /** Each token is a space-free, non-empty word. */
  lemma TokensAreWords(tl: Tally)
    requires |tl.units| == |tl.powers|
    requires forall i :: 0 <= i < |tl.units| ==> BaseName(tl.units[i])
    ensures forall s :: s in Tokens(tl) ==> s != [] && NoSpace(s)
  {
    TokensSpec(tl);
    forall s | s in Tokens(tl) ensures s != [] && NoSpace(s) {
      var i :| 0 <= i < |tl.units| && tl.powers[i] != 0 && s == tl.units[i] + IntToString(tl.powers[i]);
      RenderedInt(tl.powers[i]);
      assert forall j :: 0 <= j < |s| ==> s[j] == if j < |tl.units[i]| then tl.units[i][j] else IntToString(tl.powers[i])[j - |tl.units[i]|];
    }
  }

  /** An element found at two positions is counted twice. */
  lemma Repeated(s: seq<string>, i: nat, j: nat)
    requires i < j < |s| && s[i] == s[j]
    ensures multiset(s)[s[j]] >= 2
  {
    assert s == s[..j] + [s[j]] + s[j + 1..];
    assert s[..j][i] == s[j];
    assert multiset(s[..j])[s[j]] >= 1;
  }

  /** A sorted list in which nothing repeats is strictly increasing. */
  lemma StrictlyWhenDistinct(s: seq<string>)
    requires Sorted(s)
    requires forall x :: multiset(s)[x] <= 1
    ensures StrictlySorted(s)
  {
    forall i, j | 0 <= i < j < |s| ensures Below(s[i], s[j]) {
      if s[i] == s[j] {
        Repeated(s, i, j);
        assert false;
      }
      BelowTotal(s[i], s[j]);
    }
  }

  /** The signature `breakdown` returns, read back with `split()`: strictly
      increasing in string order, so each name appears once, and holding
      exactly one token `name + '%d' % power` for each listed name whose
      power is not zero. */
  lemma RenderSpec(tl: Tally)
    requires WellFormed(tl)
    requires forall i :: 0 <= i < |tl.units| ==> BaseName(tl.units[i])
    ensures StrictlySorted(Words(Render(tl)))
    ensures forall s :: s in Words(Render(tl)) <==>
      exists i :: 0 <= i < |tl.units| && tl.powers[i] != 0 && s == tl.units[i] + IntToString(tl.powers[i])
  {
    var ts := Tokens(tl);
    SortSpec(ts);
    TokensAreWords(tl);
    forall j | 0 <= j < |Sort(ts)| ensures Sort(ts)[j] != [] && NoSpace(Sort(ts)[j]) {
      assert Sort(ts)[j] in multiset(Sort(ts));
      assert Sort(ts)[j] in ts;
    }
    WordsOfJoin(Sort(ts));
    TokensDistinct(tl);
    StrictlyWhenDistinct(Sort(ts));
    TokensSpec(tl);
    forall s ensures s in Sort(ts) <==> s in ts {
      assert s in Sort(ts) <==> s in multiset(Sort(ts));
    }
  }

  // ---------------------------------------------------------------------
  // Example: `breakdown('W m-3')` is `(1.0, 'kg1 m-1 s-3')`

  /** What `components` returns for each atom the example meets. */
  predicate WattAtoms(dec: Decomposer, watt: string, metre: string) {
    && dec("W") == Ok(Component(Linear(1.0), watt, 1))
    && dec("m-3") == Ok(Component(Linear(1.0), metre, -3))
    && Words(watt) == ["kg", "m2", "s-3"] && Words(metre) == ["m"]
    && dec("kg") == Ok(Component(Linear(1.0), "kg", 1))
    && dec("m2") == Ok(Component(Linear(1.0), "m", 2))
    && dec("s-3") == Ok(Component(Linear(1.0), "s", -3))
    && dec("m") == Ok(Component(Linear(1.0), "m", 1))
  }

  /** `split()` on the strings the example meets. */
  lemma WattWords()
    ensures Words("kg m2 s-3") == ["kg", "m2", "s-3"]
  {
    var ts := ["kg", "m2", "s-3"];
    WordsOfJoin(ts);
    assert ts[1..][1..] == ["s-3"];
    assert Join(ts[1..], " ") == "m2 s-3";
    assert Join(ts, " ") == "kg m2 s-3";
  }

  lemma MetreWords()
    ensures Words("m") == ["m"]
  {
    WordsOfJoin(["m"]);
  }

  lemma UnitWords()
    ensures Words("W m-3") == ["W", "m-3"]
  {
    var ts := ["W", "m-3"];
    WordsOfJoin(ts);
    assert Join(ts[1..], " ") == "m-3";
    assert Join(ts, " ") == "W m-3";
  }

  /** The watt's signature merged into empty lists. */
  lemma WattSignature(dec: Decomposer, watt: string, metre: string)
    requires WattAtoms(dec, watt, metre)
    ensures MergeWords(dec, Empty, ["kg", "m2", "s-3"], 1) == Ok(Tally(["kg", "m", "s"], [1, 2, -3]))
  {
    var ws := ["kg", "m2", "s-3"];
    MergedStart(dec, Empty, ws, 1);
    MergeWordsStep(dec, Empty, ws, 0, 1, Empty, Component(Linear(1.0), "kg", 1), 1);
    assert Merge(Empty, "kg", 1) == Tally(["kg"], [1]);
    MergeWordsStep(dec, Empty, ws, 1, 1, Tally(["kg"], [1]), Component(Linear(1.0), "m", 2), 2);
    assert Merge(Tally(["kg"], [1]), "m", 2) == Tally(["kg", "m"], [1, 2]);
    MergeWordsStep(dec, Empty, ws, 2, 1, Tally(["kg", "m"], [1, 2]), Component(Linear(1.0), "s", -3), -3);
    assert Merge(Tally(["kg", "m"], [1, 2]), "s", -3) == Tally(["kg", "m", "s"], [1, 2, -3]);
    MergedAll(dec, Empty, ws, 1, Tally(["kg", "m", "s"], [1, 2, -3]));
  }

  /** The metre's `-3` merged into the lists the watt left. */
  lemma PerCubicMetreSignature(dec: Decomposer, watt: string, metre: string)
    requires WattAtoms(dec, watt, metre)
    ensures MergeWords(dec, Tally(["kg", "m", "s"], [1, 2, -3]), ["m"], -3) == Ok(Tally(["kg", "m", "s"], [1, -1, -3]))
  {
    var tl := Tally(["kg", "m", "s"], [1, 2, -3]);
    MergedStart(dec, tl, ["m"], -3);
    MergeWordsStep(dec, tl, ["m"], 0, -3, tl, Component(Linear(1.0), "m", 1), -3);
    assert Index(tl.units, "m") == 1;
    assert Merge(tl, "m", -3) == Tally(["kg", "m", "s"], [1, -1, -3]);
    MergedAll(dec, tl, ["m"], -3, Tally(["kg", "m", "s"], [1, -1, -3]));
  }

  /** Raising `1.0` to any integer power leaves it `1.0`. */
  lemma UnitPowers()
    ensures Power(Linear(1.0), 1) == Ok(Linear(1.0))
    ensures Power(Linear(1.0), -3) == Ok(Linear(1.0))
  {
    assert NatPower(1.0, 1) == 1.0;
    assert NatPower(1.0, 3) == 1.0;
  }

  /** One pass of the outer loop for an atom whose factor is `1.0`. */
  lemma AbsorbUnit(dec: Decomposer, tl: Tally, atom: string, sig: string, power: int, merged: Tally)
    requires |tl.units| == |tl.powers|
    requires dec(atom) == Ok(Component(Linear(1.0), sig, power))
    requires Power(Linear(1.0), power) == Ok(Linear(1.0))
    requires MergeWords(dec, tl, Words(sig), power) == Ok(merged)
    ensures Absorb(dec, Linear(1.0), tl, atom) == Ok((Linear(1.0), merged))
  {
  }

  /** The outer loop over `W` and `m-3`: the factor stays `1.0`. */
  lemma WattTotals(dec: Decomposer, watt: string, metre: string)
    requires WattAtoms(dec, watt, metre)
    ensures Totals(dec, ["W", "m-3"]) == Ok((Linear(1.0), Tally(["kg", "m", "s"], [1, -1, -3])))
  {
    WattAbsorbed(dec, watt, metre);
    PerCubicMetreAbsorbed(dec, watt, metre);
    TotalsOfTwo(dec, "W", "m-3", Tally(["kg", "m", "s"], [1, 2, -3]), (Linear(1.0), Tally(["kg", "m", "s"], [1, -1, -3])));
  }

  lemma WattAbsorbed(dec: Decomposer, watt: string, metre: string)
    requires WattAtoms(dec, watt, metre)
    ensures Absorb(dec, Linear(1.0), Empty, "W") == Ok((Linear(1.0), Tally(["kg", "m", "s"], [1, 2, -3])))
  {
    UnitPowers();
    WattSignature(dec, watt, metre);
    AbsorbUnit(dec, Empty, "W", watt, 1, Tally(["kg", "m", "s"], [1, 2, -3]));
  }

  lemma PerCubicMetreAbsorbed(dec: Decomposer, watt: string, metre: string)
    requires WattAtoms(dec, watt, metre)
    ensures Absorb(dec, Linear(1.0), Tally(["kg", "m", "s"], [1, 2, -3]), "m-3") == Ok((Linear(1.0), Tally(["kg", "m", "s"], [1, -1, -3])))
  {
    UnitPowers();
    PerCubicMetreSignature(dec, watt, metre);
    AbsorbUnit(dec, Tally(["kg", "m", "s"], [1, 2, -3]), "m-3", metre, -3, Tally(["kg", "m", "s"], [1, -1, -3]));
  }

  /** The outer loop over two atoms. */
  lemma TotalsOfTwo(dec: Decomposer, first: string, second: string, mid: Tally, r: (Factor, Tally))
    requires |mid.units| == |mid.powers|
    requires Absorb(dec, Linear(1.0), Empty, first) == Ok((Linear(1.0), mid))
    requires Absorb(dec, Linear(1.0), mid, second) == Ok(r)
    ensures Totals(dec, [first, second]) == Ok(r)
  {
    var atoms := [first, second];
    assert atoms[..0] == [];
    TotalsStep(dec, atoms, 0, (Linear(1.0), Empty));
    TotalsStep(dec, atoms, 1, (Linear(1.0), mid));
    assert atoms[..2] == atoms;
  }

  /** One more entry of the lists adds at most one token at the end. */
  lemma TokensSnoc(units: seq<string>, powers: seq<int>, u: string, p: int)
    requires |units| == |powers|
    ensures Tokens(Tally(units + [u], powers + [p]))
      == Tokens(Tally(units, powers)) + (if p != 0 then [u + IntToString(p)] else [])
  {
    assert (units + [u])[..|units|] == units;
    assert (powers + [p])[..|powers|] == powers;
  }

  /** The list comprehension over the example's lists. */
  lemma WattTokens()
    ensures Tokens(Tally(["kg", "m", "s"], [1, -1, -3])) == ["kg1", "m-1", "s-3"]
  {
    assert IntToString(1) == "1" && IntToString(-1) == "-1" && IntToString(-3) == "-3";
    assert "kg" + "1" == "kg1" && "m" + "-1" == "m-1" && "s" + "-3" == "s-3";
    TokensSnoc([], [], "kg", 1);
    assert [] + ["kg"] == ["kg"] && [] + [1] == [1];
    TokensSnoc(["kg"], [1], "m", -1);
    assert ["kg"] + ["m"] == ["kg", "m"] && [1] + [-1] == [1, -1];
    TokensSnoc(["kg", "m"], [1, -1], "s", -3);
    assert ["kg", "m"] + ["s"] == ["kg", "m", "s"] && [1, -1] + [-3] == [1, -1, -3];
  }

  /** The tokens are already in order, so `sorted` keeps them. */
  lemma WattSorted()
    ensures Sort(["kg1", "m-1", "s-3"]) == ["kg1", "m-1", "s-3"]
  {
    var ts := ["kg1", "m-1", "s-3"];
    assert Below("kg1", "m-1") && Below("m-1", "s-3");
    BelowAsymmetric("kg1", "m-1");
    BelowAsymmetric("m-1", "s-3");
    assert Sort(ts[2..]) == ["s-3"];
    assert Sort(ts[1..]) == ["m-1", "s-3"];
  }

  /** The tally renders as `'kg1 m-1 s-3'`. */
  lemma WattRender()
    ensures Render(Tally(["kg", "m", "s"], [1, -1, -3])) == "kg1 m-1 s-3"
  {
    WattTokens();
    WattSorted();
    WattJoined();
  }

  lemma WattJoined()
    ensures Join(["kg1", "m-1", "s-3"], " ") == "kg1 m-1 s-3"
  {
    var ts := ["kg1", "m-1", "s-3"];
    assert ts[1..][1..] == ["s-3"];
    assert Join(ts[1..], " ") == "m-1 s-3";
  }

  lemma WattUnmarked()
    ensures forall i :: 0 <= i < |"W m-3"| ==> !Aliases.IsMark("W m-3"[i])
  {
  }

  /** `breakdown('W m-3')` with the module's own tables: `(1.0,
      'kg1 m-1 s-3')`, the reduction the watt per cubic metre documents. */
  lemma WattPerCubicMetreExample(k: Physics)
    ensures Breakdown(Builtin, "W m-3", k) == Ok((Linear(1.0), "kg1 m-1 s-3"))
  {
    WattExample(k);
    PerCubicMetreExample(k);
    KilogramExample(k);
    SquareMetreExample(k);
    PerSecondCubedExample(k);
    MetreExample(k);
    WattWords();
    MetreWords();
    UnitWords();
    assert WattAtoms(Decompose(Builtin, k), "kg m2 s-3", "m");
    WattTotals(Decompose(Builtin, k), "kg m2 s-3", "m");
    WattRender();
    WattUnmarked();
    PlainBreakdown(Builtin, "W m-3", k, ["W", "m-3"], (Linear(1.0), Tally(["kg", "m", "s"], [1, -1, -3])), "kg1 m-1 s-3");
  }

  // ---------------------------------------------------------------------
  // Example: a converter must come last, `'m F'` but not `'F m'`

  /** What `components` returns for the metre, the Fahrenheit class and the
      kelvin its signature names. */
  predicate FahrenheitAtoms(dec: Decomposer) {
    && dec("m") == Ok(Component(Linear(1.0), "m", 1))
    && dec("F") == Ok(Component(Fresh(Fahrenheit), "K", 1))
    && dec("K") == Ok(Component(Linear(1.0), "K", 1))
  }

  lemma LetterWords()
    ensures Words("K") == ["K"] && Words("m") == ["m"]
  {
    WordsOfJoin(["K"]);
    WordsOfJoin(["m"]);
  }

  /** A single word of power one merged into a tally that lacks it. */
  lemma MergeNewWord(dec: Decomposer, tl: Tally, word: string)
    requires |tl.units| == |tl.powers| && word !in tl.units
    requires dec(word) == Ok(Component(Linear(1.0), word, 1))
    ensures MergeWords(dec, tl, [word], 1) == Ok(Tally(tl.units + [word], tl.powers + [1]))
  {
    assert [word][..0] == [];
  }

  /** `1.*Fahrenheit()**1` is a Fahrenheit converter with prefix `1.` and
      power `1.`: `__pow__` raises the power, `__rmul__` resets it. */
  lemma FahrenheitScaled()
    ensures Power(Fresh(Fahrenheit), 1) == Ok(NonLinear(Fahrenheit, 1.0, 2.0))
    ensures Times(Linear(1.0), NonLinear(Fahrenheit, 1.0, 2.0)) == Ok(Fresh(Fahrenheit))
  {
    var r := Times(Linear(1.0), NonLinear(Fahrenheit, 1.0, 2.0));
    assert r.Ok? && r.value.NonLinear?;
    assert r.value.kind == Fahrenheit && r.value.prefix == 1.0 && r.value.power == 1.0;
  }

  /** The Fahrenheit atom absorbed after the linear total `1.`. */
  lemma FahrenheitAbsorbed(dec: Decomposer, tl: Tally)
    requires FahrenheitAtoms(dec)
    requires |tl.units| == |tl.powers| && "K" !in tl.units
    ensures Absorb(dec, Linear(1.0), tl, "F") == Ok((Fresh(Fahrenheit), Tally(tl.units + ["K"], tl.powers + [1])))
  {
    LetterWords();
    FahrenheitScaled();
    MergeNewWord(dec, tl, "K");
  }

  /** The metre atom absorbed into empty totals. */
  lemma MetreAbsorbed(dec: Decomposer)
    requires FahrenheitAtoms(dec)
    ensures Absorb(dec, Linear(1.0), Empty, "m") == Ok((Linear(1.0), Tally(["m"], [1])))
  {
    LetterWords();
    UnitPowers();
    MergeNewWord(dec, Empty, "m");
    assert Empty.units + ["m"] == ["m"] && Empty.powers + [1] == [1];
    AbsorbUnit(dec, Empty, "m", "m", 1, Tally(["m"], [1]));
  }

  lemma MetreKelvin()
    ensures ["m"] + ["K"] == ["m", "K"] && [1] + [1] == [1, 1]
  {
  }

  lemma FahrenheitAfterMetre(dec: Decomposer)
    requires FahrenheitAtoms(dec)
    ensures Absorb(dec, Linear(1.0), Tally(["m"], [1]), "F") == Ok((Fresh(Fahrenheit), Tally(["m", "K"], [1, 1])))
  {
    MetreKelvin();
    FahrenheitAbsorbed(dec, Tally(["m"], [1]));
  }

  /** `'m F'`: the metre, then the converter as the last atom. */
  lemma MetreFahrenheitTotals(dec: Decomposer)
    requires FahrenheitAtoms(dec)
    ensures Totals(dec, ["m", "F"]) == Ok((Fresh(Fahrenheit), Tally(["m", "K"], [1, 1])))
  {
    MetreAbsorbed(dec);
    FahrenheitAfterMetre(dec);
    TotalsOfTwo(dec, "m", "F", Tally(["m"], [1]), (Fresh(Fahrenheit), Tally(["m", "K"], [1, 1])));
  }

  /** `'F m'`: the converter's total cannot be multiplied by the metre's
      factor, so the second pass raises `TypeError`. */
  lemma FahrenheitMetreTotals(dec: Decomposer)
    requires FahrenheitAtoms(dec)
    ensures Totals(dec, ["F", "m"]) == Err(OperandType)
  {
    var atoms := ["F", "m"];
    assert atoms[..0] == [];
    FahrenheitAbsorbed(dec, Empty);
    assert Empty.units + ["K"] == ["K"] && Empty.powers + [1] == [1];
    TotalsStep(dec, atoms, 0, (Linear(1.0), Empty));
    UnitPowers();
    assert Absorb(dec, Fresh(Fahrenheit), Tally(["K"], [1]), "m") == Err(OperandType);
    TotalsFail(dec, atoms, 1, (Fresh(Fahrenheit), Tally(["K"], [1])));
  }

  lemma MetreFahrenheitTokens()
    ensures Tokens(Tally(["m", "K"], [1, 1])) == ["m1", "K1"]
  {
    assert IntToString(1) == "1";
    assert "m" + "1" == "m1" && "K" + "1" == "K1";
    TokensSnoc([], [], "m", 1);
    assert [] + ["m"] == ["m"] && [] + [1] == [1];
    TokensSnoc(["m"], [1], "K", 1);
    assert ["m"] + ["K"] == ["m", "K"] && [1] + [1] == [1, 1];
  }

  /** The tally of `'m F'` renders as `'K1 m1'`: upper case sorts first. */
  lemma MetreFahrenheitRender()
    ensures Render(Tally(["m", "K"], [1, 1])) == "K1 m1"
  {
    MetreFahrenheitTokens();
    var ts := ["m1", "K1"];
    assert Below("K1", "m1");
    assert Sort(ts[1..]) == ["K1"];
    assert Sort(ts) == ["K1", "m1"];
    assert Join(["K1", "m1"], " ") == "K1 m1";
  }

  /** The words of the two temperature examples, neither holding an alias
      mark. */
  lemma TemperatureExampleWords()
    ensures Words("m F") == ["m", "F"]
    ensures forall i :: 0 <= i < |"m F"| ==> !Aliases.IsMark("m F"[i])
    ensures Words("F m") == ["F", "m"]
    ensures forall i :: 0 <= i < |"F m"| ==> !Aliases.IsMark("F m"[i])
  {
    WordsOfJoin(["m", "F"]);
    assert Join(["m", "F"], " ") == "m F";
    WordsOfJoin(["F", "m"]);
    assert Join(["F", "m"], " ") == "F m";
  }

  /** A unit without alias marks reduces to the totals of its words. */
  lemma PlainBreakdown(t: Registry, unit: string, k: Physics, atoms: seq<string>, totals: (Factor, Tally), sig: string)
    requires forall i :: 0 <= i < |unit| ==> !Aliases.IsMark(unit[i])
    requires Words(unit) == atoms
    requires Totals(Decompose(t, k), atoms) == Ok(totals)
    requires |totals.1.units| == |totals.1.powers| && Render(totals.1) == sig
    ensures Breakdown(t, unit, k) == Ok((totals.0, sig))
  {
    Aliases.UnmarkedResolved(unit);
  }

  /** And it fails as its words' totals fail. */
  lemma PlainBreakdownFails(t: Registry, unit: string, k: Physics, atoms: seq<string>, e: Error)
    requires forall i :: 0 <= i < |unit| ==> !Aliases.IsMark(unit[i])
    requires Words(unit) == atoms
    requires Totals(Decompose(t, k), atoms) == Err(e)
    ensures Breakdown(t, unit, k) == Err(e)
  {
    Aliases.UnmarkedResolved(unit);
  }

  lemma FahrenheitDecomposed(k: Physics)
    ensures FahrenheitAtoms(Decompose(Builtin, k))
  {
    MetreExample(k);
    FahrenheitExample(k);
    KelvinExample(k);
  }

  /** `breakdown('m F')` is a Fahrenheit converter with the signature
      `'K1 m1'`: a temperature converter is accepted as the last atom. */
  lemma ConverterLastExample(k: Physics)
    ensures Breakdown(Builtin, "m F", k) == Ok((Fresh(Fahrenheit), "K1 m1"))
  {
    FahrenheitDecomposed(k);
    TemperatureExampleWords();
    MetreFahrenheitTotals(Decompose(Builtin, k));
    MetreFahrenheitRender();
    PlainBreakdown(Builtin, "m F", k, ["m", "F"], (Fresh(Fahrenheit), Tally(["m", "K"], [1, 1])), "K1 m1");
  }

  /** `breakdown('F m')` raises `TypeError`: the same atoms in the other
      order put the converter before a number. */
  lemma ConverterFirstExample(k: Physics)
    ensures Breakdown(Builtin, "F m", k) == Err(OperandType)
  {
    FahrenheitDecomposed(k);
    TemperatureExampleWords();
    FahrenheitMetreTotals(Decompose(Builtin, k));
    PlainBreakdownFails(Builtin, "F m", k, ["F", "m"], OperandType);
  }

  // ---------------------------------------------------------------------
  // The procedure

  /** `breakdown(unit)` as the source computes it: aliases, `split()`, the
      loops, then the comprehension, the sort and the join. */
  method BreakdownOf(t: Registry, unit0: string, k: Physics) returns (r: Result<(Factor, string)>)
    ensures r == Breakdown(t, unit0, k)
  {
    var unit := Aliases.SolveAliases(unit0);
    if unit.Err? {
      return Err(unit.error);
    }
    var units := Words(unit.value);
    var totals := TotalsOf(t, units, k);
    if totals.Err? {
      return Err(totals.error);
    }
    var tokens := TokensOf(totals.value.1.units, totals.value.1.powers);
    return Ok((totals.value.0, Join(Sort(tokens), " ")));
  }

  /** The outer loop over the atoms: `total_factor` is reassigned and the
      lists are handed to the inner loop. */
  method TotalsOf(t: Registry, units: seq<string>, k: Physics) returns (r: Result<(Factor, Tally)>)
    ensures r == Totals(Decompose(t, k), units)
  {
    ghost var dec := Decompose(t, k);
    var totalFactor := Linear(1.0);
    var totalUnits: seq<string> := [];
    var totalPower: seq<int> := [];
    for i := 0 to |units|
      invariant |totalUnits| == |totalPower|
      invariant Totals(dec, units[..i]) == Ok((totalFactor, Tally(totalUnits, totalPower)))
    {
      TotalsStep(dec, units, i, (totalFactor, Tally(totalUnits, totalPower)));
      var c := ComponentsOf(t, units[i], k);
      if c.Err? {
        TotalsFail(dec, units, i, (totalFactor, Tally(totalUnits, totalPower)));
        return Err(c.error);
      }
      var raised := Power(c.value.factor, c.value.power);
      if raised.Err? {
        TotalsFail(dec, units, i, (totalFactor, Tally(totalUnits, totalPower)));
        return Err(raised.error);
      }
      var product := Times(totalFactor, raised.value);
      if product.Err? {
        TotalsFail(dec, units, i, (totalFactor, Tally(totalUnits, totalPower)));
        return Err(product.error);
      }
      var merged := MergeBasis(t, totalUnits, totalPower, Words(c.value.sig), c.value.power, k);
      if merged.Err? {
        TotalsFail(dec, units, i, (totalFactor, Tally(totalUnits, totalPower)));
        return Err(merged.error);
      }
      totalFactor := product.value;
      totalUnits, totalPower := merged.value.units, merged.value.powers;
    }
    assert units[..|units|] == units;
    return Ok((totalFactor, Tally(totalUnits, totalPower)));
  }

  /** The inner loop: `total_units` grows and `total_power` is updated in
      place, word by word of one atom's signature. */
  method MergeBasis(t: Registry, units0: seq<string>, powers0: seq<int>, basis: seq<string>, power: int, k: Physics)
    returns (r: Result<Tally>)
    requires |units0| == |powers0|
    ensures r == MergeWords(Decompose(t, k), Tally(units0, powers0), basis, power)
  {
    ghost var dec := Decompose(t, k);
    var totalUnits, totalPower := units0, powers0;
    MergedStart(dec, Tally(units0, powers0), basis, power);
    for j := 0 to |basis|
      invariant MergedUpTo(dec, Tally(units0, powers0), basis, j, power, Tally(totalUnits, totalPower))
    {
      var sub := ComponentsOf(t, basis[j], k);
      if sub.Err? {
        MergeWordsFail(dec, Tally(units0, powers0), basis, j, power, Tally(totalUnits, totalPower));
        return Err(sub.error);
      }
      var basis_, power_ := sub.value.sig, sub.value.power;
      var p := power_ * power;
      MergeWordsStep(dec, Tally(units0, powers0), basis, j, power, Tally(totalUnits, totalPower), sub.value, p);
      totalUnits, totalPower := MergeInto(totalUnits, totalPower, basis_, p);
    }
    MergedAll(dec, Tally(units0, powers0), basis, power, Tally(totalUnits, totalPower));
    return Ok(Tally(totalUnits, totalPower));
  }

  /** The body of the inner loop: `total_power[index] += p` in place for
      a listed name, otherwise an append to both lists. */
  method MergeInto(units0: seq<string>, powers0: seq<int>, name: string, p: int) returns (units: seq<string>, powers: seq<int>)
    requires |units0| == |powers0|
    ensures Tally(units, powers) == Merge(Tally(units0, powers0), name, p)
  {
    units, powers := units0, powers0;
    if name in units {
      var index := Index(units, name);
      powers := powers[index := powers[index] + p];
    } else {
      units := units + [name];
      powers := powers + [p];
    }
  }

  /** The list comprehension over `zip(total_units, total_power)`. */
  method TokensOf(units: seq<string>, powers: seq<int>) returns (tokens: seq<string>)
    requires |units| == |powers|
    ensures tokens == Tokens(Tally(units, powers))
  {
    tokens := [];
    for i := 0 to |units|
      invariant tokens == Tokens(Tally(units[..i], powers[..i]))
    {
      assert units[..i + 1][..i] == units[..i];
      assert powers[..i + 1][..i] == powers[..i];
      if powers[i] != 0 {
        tokens := tokens + [units[i] + IntToString(powers[i])];
      }
    }
    assert units[..|units|] == units;
    assert powers[..|powers|] == powers;
  }
}
