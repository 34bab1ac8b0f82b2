/** Two reductions worked through with the module's own tables: the
    `breakdown` doctests `'erg s-1 W2 kg2 cm-2'`, which gives
    `(0.001, 'kg5 m4 s-9')`, and `'erg s-1 cm-2 A-1'`, which gives
    `(10000000.0, 'kg1 m-1 s-3')` (units/conversions.py:258-261). */
module ReductionExamples {
  import opened Text
  import opened Tables
  import opened Outcomes
  import opened Converters
  import opened Decomposition
  import opened Reduction

  /** What `components` returns for every atom and every signature word the
      two examples meet, and how the atoms' signatures split into words.
      The signatures are parameters here, so that the reasoning about one
      atom does not unfold `split()` on the others. */
  predicate ErgAtoms(dec: Decomposer, erg: string, sec: string, watt: string, kilo: string, metre: string) {
    && dec("erg") == Ok(Component(Linear(1e-7), erg, 1))
    && dec("s-1") == Ok(Component(Linear(1.0), sec, -1))
    && dec("W2") == Ok(Component(Linear(1.0), watt, 2))
    && dec("kg2") == Ok(Component(Linear(1.0), kilo, 2))
    && dec("cm-2") == Ok(Component(Linear(0.01), metre, -2))
    && dec("A-1") == Ok(Component(Linear(1e-10), metre, -1))
    && Words(erg) == ["kg", "m2", "s-2"] && Words(sec) == ["s"]
    && Words(watt) == ["kg", "m2", "s-3"] && Words(kilo) == ["kg"] && Words(metre) == ["m"]
    && dec("kg") == Ok(Component(Linear(1.0), "kg", 1))
    && dec("m2") == Ok(Component(Linear(1.0), "m", 2))
    && dec("s-2") == Ok(Component(Linear(1.0), "s", -2))
    && dec("s-3") == Ok(Component(Linear(1.0), "s", -3))
    && dec("s") == Ok(Component(Linear(1.0), "s", 1))
    && dec("m") == Ok(Component(Linear(1.0), "m", 1))
  }

  lemma ErgDecomposed(k: Physics)
    ensures ErgAtoms(Decompose(Builtin, k), "kg m2 s-2", "s", "kg m2 s-3", "kg", "m")
  {
    ErgWords();
    SingleWords();
    WattWords();
    MetreWords();
    ErgExample(k);
    PerSecondExample(k);
    WattSquaredExample(k);
    KilogramSquaredExample(k);
    PerSquareCentimetreExample(k);
    PerAngstromExample(k);
    KilogramExample(k);
    SquareMetreExample(k);
    PerSecondSquaredExample(k);
    PerSecondCubedExample(k);
    SecondExample(k);
    MetreExample(k);
  }

  // ---------------------------------------------------------------------
  // `split()` on the strings the examples meet

  lemma ErgWords()
    ensures Words("kg m2 s-2") == ["kg", "m2", "s-2"]
  {
    var ts := ["kg", "m2", "s-2"];
    WordsOfJoin(ts);
    assert ts[1..][1..] == ["s-2"];
    assert Join(ts[1..], " ") == "m2 s-2";
    assert Join(ts, " ") == "kg m2 s-2";
  }

  lemma SingleWords()
    ensures Words("s") == ["s"] && Words("kg") == ["kg"]
  {
    WordsOfJoin(["s"]);
    WordsOfJoin(["kg"]);
  }

  /** Words joined by single spaces, built from the right, split back into
      them. */
  lemma ThreeWords(a: string, b: string, c: string, bc: string, abc: string)
    requires a != [] && NoSpace(a) && b != [] && NoSpace(b) && c != [] && NoSpace(c)
    requires bc == b + " " + c && abc == a + " " + bc
    ensures Words(abc) == [a, b, c]
  {
    WordsOfJoin([c]);
    WordsCons(b, c);
    WordsCons(a, bc);
  }

  lemma FourWords(a: string, b: string, c: string, d: string, cd: string, bcd: string, abcd: string)
    requires a != [] && NoSpace(a) && b != [] && NoSpace(b)
    requires c != [] && NoSpace(c) && d != [] && NoSpace(d)
    requires cd == c + " " + d && bcd == b + " " + cd && abcd == a + " " + bcd
    ensures Words(abcd) == [a, b, c, d]
  {
    ThreeWords(b, c, d, cd, bcd);
    WordsCons(a, bcd);
  }

  lemma FiveWords(a: string, b: string, c: string, d: string, e: string, de: string, cde: string, bcde: string, abcde: string)
    requires a != [] && NoSpace(a) && b != [] && NoSpace(b) && c != [] && NoSpace(c)
    requires d != [] && NoSpace(d) && e != [] && NoSpace(e)
    requires de == d + " " + e && cde == c + " " + de && bcde == b + " " + cde && abcde == a + " " + bcde
    ensures Words(abcde) == [a, b, c, d, e]
  {
    FourWords(b, c, d, e, de, cde, bcde);
    WordsCons(a, bcde);
  }

  lemma PowerUnitWords()
    ensures Words("erg s-1 W2 kg2 cm-2") == ["erg", "s-1", "W2", "kg2", "cm-2"]
  {
    FiveWords("erg", "s-1", "W2", "kg2", "cm-2", "kg2 cm-2", "W2 kg2 cm-2", "s-1 W2 kg2 cm-2", "erg s-1 W2 kg2 cm-2");
  }

  lemma FluxUnitWords()
    ensures Words("erg s-1 cm-2 A-1") == ["erg", "s-1", "cm-2", "A-1"]
  {
    FourWords("erg", "s-1", "cm-2", "A-1", "cm-2 A-1", "s-1 cm-2 A-1", "erg s-1 cm-2 A-1");
  }

  lemma PowerUnitUnmarked(unit: string)
    requires unit == "erg s-1 W2 kg2 cm-2"
    ensures forall i :: 0 <= i < |unit| ==> !Aliases.IsMark(unit[i])
  {
  }

  lemma FluxUnitUnmarked(unit: string)
    requires unit == "erg s-1 cm-2 A-1"
    ensures forall i :: 0 <= i < |unit| ==> !Aliases.IsMark(unit[i])
  {
  }

  // ---------------------------------------------------------------------
  // `factor**power` for the atoms' factors

  lemma ErgPower()
    ensures Power(Linear(1e-7), 1) == Ok(Linear(1e-7))
  {
    assert NatPower(1e-7, 1) == 1e-7;
  }

  lemma UnitFloatPowers()
    ensures Power(Linear(1.0), -1) == Ok(Linear(1.0))
    ensures Power(Linear(1.0), 2) == Ok(Linear(1.0))
  {
    assert NatPower(1.0, 1) == 1.0;
    assert NatPower(1.0, 2) == 1.0;
  }

  lemma PerSquareCentimetrePower()
    ensures Power(Linear(0.01), -2) == Ok(Linear(10000.0))
  {
    assert NatPower(0.01, 2) == 0.0001;
  }

  lemma PerAngstromPower()
    ensures Power(Linear(1e-10), -1) == Ok(Linear(1e10))
  {
    assert NatPower(1e-10, 1) == 1e-10;
  }

  // ---------------------------------------------------------------------
  // The inner loop

  /** Every example tally lists `kg`, `m`, `s` in that order, so a merged
      word adds to the power of the name it finds there. */
  lemma MergeListed(ps: seq<int>, name: string, p: int, i: nat, qs: seq<int>)
    requires |ps| == 3 && i < 3 && ["kg", "m", "s"][i] == name
    requires |qs| == 3 && qs[i] == ps[i] + p
    requires forall j :: 0 <= j < 3 && j != i ==> qs[j] == ps[j]
    ensures Merge(Tally(["kg", "m", "s"], ps), name, p) == Tally(["kg", "m", "s"], qs)
  {
    var us := ["kg", "m", "s"];
    assert us[i] == name;
    assert Index(us, name) == i;
    assert ps[i := ps[i] + p] == qs;
  }

  /** The inner loop over a single word. */
  lemma MergeOneWord(dec: Decomposer, tl: Tally, w: string, power: int, sub: Component, now: Tally)
    requires |tl.units| == |tl.powers|
    requires dec(w) == Ok(sub) && now == Merge(tl, sub.sig, sub.power * power)
    ensures MergeWords(dec, tl, [w], power) == Ok(now)
  {
    assert [w][..0] == [];
  }

  /** The inner loop over three words. */
  lemma MergeThreeWords(dec: Decomposer, tl: Tally, ws: seq<string>, power: int, s0: Component, s1: Component, s2: Component, t1: Tally, t2: Tally, now: Tally)
    requires |tl.units| == |tl.powers| && |ws| == 3
    requires dec(ws[0]) == Ok(s0) && dec(ws[1]) == Ok(s1) && dec(ws[2]) == Ok(s2)
    requires |t1.units| == |t1.powers| && |t2.units| == |t2.powers|
    requires t1 == Merge(tl, s0.sig, s0.power * power)
    requires t2 == Merge(t1, s1.sig, s1.power * power)
    requires now == Merge(t2, s2.sig, s2.power * power)
    ensures MergeWords(dec, tl, ws, power) == Ok(now)
  {
    MergedStart(dec, tl, ws, power);
    MergeWordsStep(dec, tl, ws, 0, power, tl, s0, s0.power * power);
    MergeWordsStep(dec, tl, ws, 1, power, t1, s1, s1.power * power);
    MergeWordsStep(dec, tl, ws, 2, power, t2, s2, s2.power * power);
    MergedAll(dec, tl, ws, power, now);
  }

  // ---------------------------------------------------------------------
  // The outer loop

  /** One pass of the outer loop for an atom whose factor is a float; the
      new total is passed in as `product`. */
  lemma AbsorbFloat(dec: Decomposer, r: real, tl: Tally, atom: string, f: real, sig: string, power: int, g: real, product: real, merged: Tally)
    requires |tl.units| == |tl.powers|
    requires dec(atom) == Ok(Component(Linear(f), sig, power))
    requires Power(Linear(f), power) == Ok(Linear(g)) && product == r * g
    requires MergeWords(dec, tl, Words(sig), power) == Ok(merged)
    ensures Absorb(dec, Linear(r), tl, atom) == Ok((Linear(product), merged))
  {
    var t := Times(Linear(r), Linear(g));
    assert t.Ok? && t.value.Linear? && t.value.r == product;
    assert t.value == Linear(product);
  }

  /** The erg's signature merged into empty lists. */
  lemma ErgSignature(dec: Decomposer, erg: string, sec: string, watt: string, kilo: string, metre: string)
    requires ErgAtoms(dec, erg, sec, watt, kilo, metre)
    ensures MergeWords(dec, Empty, ["kg", "m2", "s-2"], 1) == Ok(Tally(["kg", "m", "s"], [1, 2, -2]))
  {
    assert Merge(Empty, "kg", 1) == Tally(["kg"], [1]);
    assert Merge(Tally(["kg"], [1]), "m", 2) == Tally(["kg", "m"], [1, 2]);
    assert Merge(Tally(["kg", "m"], [1, 2]), "s", -2) == Tally(["kg", "m", "s"], [1, 2, -2]);
    MergeThreeWords(dec, Empty, ["kg", "m2", "s-2"], 1,
      Component(Linear(1.0), "kg", 1), Component(Linear(1.0), "m", 2), Component(Linear(1.0), "s", -2),
      Tally(["kg"], [1]), Tally(["kg", "m"], [1, 2]), Tally(["kg", "m", "s"], [1, 2, -2]));
  }

  /** `erg` absorbed into `1.` and empty lists. */
  lemma ErgAbsorbed(dec: Decomposer, atoms: seq<string>, i: nat, erg: string, sec: string, watt: string, kilo: string, metre: string)
    requires ErgAtoms(dec, erg, sec, watt, kilo, metre)
    requires i < |atoms| && atoms[i] == "erg" && Totals(dec, atoms[..i]) == Ok((Linear(1.0), Empty))
    ensures Totals(dec, atoms[..i + 1]) == Ok((Linear(1e-7), Tally(["kg", "m", "s"], [1, 2, -2])))
  {
    ErgPower();
    ErgSignature(dec, erg, sec, watt, kilo, metre);
    AbsorbFloat(dec, 1.0, Empty, "erg", 1e-7, erg, 1, 1e-7, 1e-7, Tally(["kg", "m", "s"], [1, 2, -2]));
    TotalsStep(dec, atoms, i, (Linear(1.0), Empty));
  }

  /** `s-1`: the seconds' power goes from -2 to -3. */
  lemma PerSecondAbsorbed(dec: Decomposer, atoms: seq<string>, i: nat, erg: string, sec: string, watt: string, kilo: string, metre: string)
    requires ErgAtoms(dec, erg, sec, watt, kilo, metre)
    requires i < |atoms| && atoms[i] == "s-1" && Totals(dec, atoms[..i]) == Ok((Linear(1e-7), Tally(["kg", "m", "s"], [1, 2, -2])))
    ensures Totals(dec, atoms[..i + 1]) == Ok((Linear(1e-7), Tally(["kg", "m", "s"], [1, 2, -3])))
  {
    UnitFloatPowers();
    var tl := Tally(["kg", "m", "s"], [1, 2, -2]);
    MergeListed([1, 2, -2], "s", -1, 2, [1, 2, -3]);
    MergeOneWord(dec, tl, "s", -1, Component(Linear(1.0), "s", 1), Tally(["kg", "m", "s"], [1, 2, -3]));
    AbsorbFloat(dec, 1e-7, tl, "s-1", 1.0, sec, -1, 1.0, 1e-7, Tally(["kg", "m", "s"], [1, 2, -3]));
    TotalsStep(dec, atoms, i, (Linear(1e-7), Tally(["kg", "m", "s"], [1, 2, -2])));
  }

  /** `W2`: the watt's signature, doubled. */
  lemma WattSquaredAbsorbed(dec: Decomposer, atoms: seq<string>, i: nat, erg: string, sec: string, watt: string, kilo: string, metre: string)
    requires ErgAtoms(dec, erg, sec, watt, kilo, metre)
    requires i < |atoms| && atoms[i] == "W2" && Totals(dec, atoms[..i]) == Ok((Linear(1e-7), Tally(["kg", "m", "s"], [1, 2, -3])))
    ensures Totals(dec, atoms[..i + 1]) == Ok((Linear(1e-7), Tally(["kg", "m", "s"], [3, 6, -9])))
  {
    UnitFloatPowers();
    var tl := Tally(["kg", "m", "s"], [1, 2, -3]);
    MergeListed([1, 2, -3], "kg", 2, 0, [3, 2, -3]);
    MergeListed([3, 2, -3], "m", 4, 1, [3, 6, -3]);
    MergeListed([3, 6, -3], "s", -6, 2, [3, 6, -9]);
    MergeThreeWords(dec, tl, ["kg", "m2", "s-3"], 2,
      Component(Linear(1.0), "kg", 1), Component(Linear(1.0), "m", 2), Component(Linear(1.0), "s", -3),
      Tally(["kg", "m", "s"], [3, 2, -3]), Tally(["kg", "m", "s"], [3, 6, -3]), Tally(["kg", "m", "s"], [3, 6, -9]));
    AbsorbFloat(dec, 1e-7, tl, "W2", 1.0, watt, 2, 1.0, 1e-7, Tally(["kg", "m", "s"], [3, 6, -9]));
    TotalsStep(dec, atoms, i, (Linear(1e-7), Tally(["kg", "m", "s"], [1, 2, -3])));
  }

  /** `kg2`. */
  lemma KilogramSquaredAbsorbed(dec: Decomposer, atoms: seq<string>, i: nat, erg: string, sec: string, watt: string, kilo: string, metre: string)
    requires ErgAtoms(dec, erg, sec, watt, kilo, metre)
    requires i < |atoms| && atoms[i] == "kg2" && Totals(dec, atoms[..i]) == Ok((Linear(1e-7), Tally(["kg", "m", "s"], [3, 6, -9])))
    ensures Totals(dec, atoms[..i + 1]) == Ok((Linear(1e-7), Tally(["kg", "m", "s"], [5, 6, -9])))
  {
    UnitFloatPowers();
    var tl := Tally(["kg", "m", "s"], [3, 6, -9]);
    MergeListed([3, 6, -9], "kg", 2, 0, [5, 6, -9]);
    MergeOneWord(dec, tl, "kg", 2, Component(Linear(1.0), "kg", 1), Tally(["kg", "m", "s"], [5, 6, -9]));
    AbsorbFloat(dec, 1e-7, tl, "kg2", 1.0, kilo, 2, 1.0, 1e-7, Tally(["kg", "m", "s"], [5, 6, -9]));
    TotalsStep(dec, atoms, i, (Linear(1e-7), Tally(["kg", "m", "s"], [3, 6, -9])));
  }

  /** `cm-2` after `kg2`: the factor picks up `0.01**-2`. */
  lemma PerSquareCentimetreAbsorbed(dec: Decomposer, atoms: seq<string>, i: nat, erg: string, sec: string, watt: string, kilo: string, metre: string)
    requires ErgAtoms(dec, erg, sec, watt, kilo, metre)
    requires i < |atoms| && atoms[i] == "cm-2" && Totals(dec, atoms[..i]) == Ok((Linear(1e-7), Tally(["kg", "m", "s"], [5, 6, -9])))
    ensures Totals(dec, atoms[..i + 1]) == Ok((Linear(0.001), Tally(["kg", "m", "s"], [5, 4, -9])))
  {
    PerSquareCentimetrePower();
    var tl := Tally(["kg", "m", "s"], [5, 6, -9]);
    MergeListed([5, 6, -9], "m", -2, 1, [5, 4, -9]);
    MergeOneWord(dec, tl, "m", -2, Component(Linear(1.0), "m", 1), Tally(["kg", "m", "s"], [5, 4, -9]));
    AbsorbFloat(dec, 1e-7, tl, "cm-2", 0.01, metre, -2, 10000.0, 0.001, Tally(["kg", "m", "s"], [5, 4, -9]));
    TotalsStep(dec, atoms, i, (Linear(1e-7), Tally(["kg", "m", "s"], [5, 6, -9])));
  }

  /** `cm-2` right after `s-1`: the metres cancel for now. */
  lemma FluxCentimetreAbsorbed(dec: Decomposer, atoms: seq<string>, i: nat, erg: string, sec: string, watt: string, kilo: string, metre: string)
    requires ErgAtoms(dec, erg, sec, watt, kilo, metre)
    requires i < |atoms| && atoms[i] == "cm-2" && Totals(dec, atoms[..i]) == Ok((Linear(1e-7), Tally(["kg", "m", "s"], [1, 2, -3])))
    ensures Totals(dec, atoms[..i + 1]) == Ok((Linear(0.001), Tally(["kg", "m", "s"], [1, 0, -3])))
  {
    PerSquareCentimetrePower();
    var tl := Tally(["kg", "m", "s"], [1, 2, -3]);
    MergeListed([1, 2, -3], "m", -2, 1, [1, 0, -3]);
    MergeOneWord(dec, tl, "m", -2, Component(Linear(1.0), "m", 1), Tally(["kg", "m", "s"], [1, 0, -3]));
    AbsorbFloat(dec, 1e-7, tl, "cm-2", 0.01, metre, -2, 10000.0, 0.001, Tally(["kg", "m", "s"], [1, 0, -3]));
    TotalsStep(dec, atoms, i, (Linear(1e-7), Tally(["kg", "m", "s"], [1, 2, -3])));
  }

  /** `A-1`: the angstrom's `1e-10**-1` brings the factor to `1e7`. */
  lemma PerAngstromAbsorbed(dec: Decomposer, atoms: seq<string>, i: nat, erg: string, sec: string, watt: string, kilo: string, metre: string)
    requires ErgAtoms(dec, erg, sec, watt, kilo, metre)
    requires i < |atoms| && atoms[i] == "A-1" && Totals(dec, atoms[..i]) == Ok((Linear(0.001), Tally(["kg", "m", "s"], [1, 0, -3])))
    ensures Totals(dec, atoms[..i + 1]) == Ok((Linear(1e7), Tally(["kg", "m", "s"], [1, -1, -3])))
  {
    PerAngstromPower();
    var tl := Tally(["kg", "m", "s"], [1, 0, -3]);
    MergeListed([1, 0, -3], "m", -1, 1, [1, -1, -3]);
    MergeOneWord(dec, tl, "m", -1, Component(Linear(1.0), "m", 1), Tally(["kg", "m", "s"], [1, -1, -3]));
    AbsorbFloat(dec, 0.001, tl, "A-1", 1e-10, metre, -1, 1e10, 1e7, Tally(["kg", "m", "s"], [1, -1, -3]));
    TotalsStep(dec, atoms, i, (Linear(0.001), Tally(["kg", "m", "s"], [1, 0, -3])));
  }

  /** The first two passes of the outer loop, shared by both units. */
  lemma ErgPerSecondTotals(dec: Decomposer, atoms: seq<string>, erg: string, sec: string, watt: string, kilo: string, metre: string)
    requires ErgAtoms(dec, erg, sec, watt, kilo, metre)
    requires |atoms| >= 2 && atoms[0] == "erg" && atoms[1] == "s-1"
    ensures Totals(dec, atoms[..2]) == Ok((Linear(1e-7), Tally(["kg", "m", "s"], [1, 2, -3])))
  {
    assert atoms[..0] == [];
    ErgAbsorbed(dec, atoms, 0, erg, sec, watt, kilo, metre);
    PerSecondAbsorbed(dec, atoms, 1, erg, sec, watt, kilo, metre);
  }

  /** The outer loop over `erg s-1 W2 kg2 cm-2`, one atom at a time. */
  lemma PowerUnitTotals(dec: Decomposer, atoms: seq<string>, erg: string, sec: string, watt: string, kilo: string, metre: string)
    requires ErgAtoms(dec, erg, sec, watt, kilo, metre)
    requires |atoms| == 5 && atoms[0] == "erg" && atoms[1] == "s-1" && atoms[2] == "W2"
    requires atoms[3] == "kg2" && atoms[4] == "cm-2"
    ensures Totals(dec, atoms) == Ok((Linear(0.001), Tally(["kg", "m", "s"], [5, 4, -9])))
  {
    ErgPerSecondTotals(dec, atoms, erg, sec, watt, kilo, metre);
    WattSquaredAbsorbed(dec, atoms, 2, erg, sec, watt, kilo, metre);
    KilogramSquaredAbsorbed(dec, atoms, 3, erg, sec, watt, kilo, metre);
    PerSquareCentimetreAbsorbed(dec, atoms, 4, erg, sec, watt, kilo, metre);
    assert atoms[..5] == atoms;
  }

  /** The outer loop over `erg s-1 cm-2 A-1`. */
  lemma FluxUnitTotals(dec: Decomposer, atoms: seq<string>, erg: string, sec: string, watt: string, kilo: string, metre: string)
    requires ErgAtoms(dec, erg, sec, watt, kilo, metre)
    requires |atoms| == 4 && atoms[0] == "erg" && atoms[1] == "s-1" && atoms[2] == "cm-2" && atoms[3] == "A-1"
    ensures Totals(dec, atoms) == Ok((Linear(1e7), Tally(["kg", "m", "s"], [1, -1, -3])))
  {
    ErgPerSecondTotals(dec, atoms, erg, sec, watt, kilo, metre);
    FluxCentimetreAbsorbed(dec, atoms, 2, erg, sec, watt, kilo, metre);
    PerAngstromAbsorbed(dec, atoms, 3, erg, sec, watt, kilo, metre);
    assert atoms[..4] == atoms;
  }

  // ---------------------------------------------------------------------
  // The signature string

  lemma PowerUnitTokens()
    ensures Tokens(Tally(["kg", "m", "s"], [5, 4, -9])) == ["kg5", "m4", "s-9"]
  {
    assert IntToString(5) == "5" && IntToString(4) == "4" && IntToString(-9) == "-9";
    assert "kg" + "5" == "kg5" && "m" + "4" == "m4" && "s" + "-9" == "s-9";
    TokensSnoc([], [], "kg", 5);
    assert [] + ["kg"] == ["kg"] && [] + [5] == [5];
    TokensSnoc(["kg"], [5], "m", 4);
    assert ["kg"] + ["m"] == ["kg", "m"] && [5] + [4] == [5, 4];
    TokensSnoc(["kg", "m"], [5, 4], "s", -9);
    assert ["kg", "m"] + ["s"] == ["kg", "m", "s"] && [5, 4] + [-9] == [5, 4, -9];
  }

  lemma PowerUnitSorted()
    ensures Sort(["kg5", "m4", "s-9"]) == ["kg5", "m4", "s-9"]
  {
    var ts := ["kg5", "m4", "s-9"];
    assert Below("kg5", "m4") && Below("m4", "s-9");
    BelowAsymmetric("kg5", "m4");
    BelowAsymmetric("m4", "s-9");
    assert Sort(ts[2..]) == ["s-9"];
    assert Sort(ts[1..]) == ["m4", "s-9"];
  }

  lemma PowerUnitJoined()
    ensures Join(["kg5", "m4", "s-9"], " ") == "kg5 m4 s-9"
  {
    var ts := ["kg5", "m4", "s-9"];
    assert ts[1..][1..] == ["s-9"];
    assert Join(ts[1..], " ") == "m4 s-9";
  }

  lemma PowerUnitRender()
    ensures Render(Tally(["kg", "m", "s"], [5, 4, -9])) == "kg5 m4 s-9"
  {
    PowerUnitTokens();
    PowerUnitSorted();
    PowerUnitJoined();
  }

  // ---------------------------------------------------------------------
  // A single prefixed length

  lemma MetreTokens()
    ensures Tokens(Tally(["m"], [1])) == ["m1"]
  {
    assert IntToString(1) == "1";
    assert "m" + "1" == "m1";
    TokensSnoc([], [], "m", 1);
    assert [] + ["m"] == ["m"] && [] + [1] == [1];
  }

  lemma MetreSorted()
    ensures Sort(["m1"]) == ["m1"]
  {
  }

  lemma MetreJoined()
    ensures Join(["m1"], " ") == "m1"
  {
  }

  lemma MetreRender()
    ensures Render(Tally(["m"], [1])) == "m1"
  {
    MetreTokens();
    MetreSorted();
    MetreJoined();
  }

  lemma FirstPower(f: real)
    ensures Power(Linear(f), 1) == Ok(Linear(f))
  {
    assert NatPower(f, 0) == 1.0;
    assert NatPower(f, 1) == f * 1.0;
    var one := Power(Linear(f), 1);
    assert one.Ok? && one.value.Linear? && one.value.r == f;
  }

  /** A unit of one atom that `components` reads as `f` metres reduces to
      `(f, 'm1')`. */
  lemma LengthReduced(t: Registry, k: Physics, unit: string, f: real, metre: string)
    requires Decompose(t, k)(unit) == Ok(Component(Linear(f), metre, 1))
    requires Decompose(t, k)("m") == Ok(Component(Linear(1.0), "m", 1))
    requires Words(metre) == ["m"] && Words(unit) == [unit]
    requires forall i :: 0 <= i < |unit| ==> !Aliases.IsMark(unit[i])
    ensures Breakdown(t, unit, k) == Ok((Linear(f), "m1"))
  {
    LengthTotals(Decompose(t, k), unit, f, metre);
    MetreRender();
    PlainBreakdown(t, unit, k, [unit], (Linear(f), Tally(["m"], [1])), "m1");
  }

  /** The outer loop over that one atom. */
  lemma LengthTotals(dec: Decomposer, unit: string, f: real, metre: string)
    requires dec(unit) == Ok(Component(Linear(f), metre, 1))
    requires dec("m") == Ok(Component(Linear(1.0), "m", 1))
    requires Words(metre) == ["m"]
    ensures Totals(dec, [unit]) == Ok((Linear(f), Tally(["m"], [1])))
  {
    var atoms := [unit];
    FirstPower(f);
    MergeOneWord(dec, Empty, "m", 1, Component(Linear(1.0), "m", 1), Tally(["m"], [1]));
    AbsorbFloat(dec, 1.0, Empty, unit, f, metre, 1, f, f, Tally(["m"], [1]));
    assert atoms[..0] == [] && atoms[..1] == atoms && atoms[0] == unit;
    TotalsStep(dec, atoms, 0, (Linear(1.0), Empty));
  }

  lemma LengthWords()
    ensures Words("km") == ["km"] && Words("cm") == ["cm"]
  {
    WordsOfJoin(["km"]);
    WordsOfJoin(["cm"]);
  }

  /** `breakdown('km')` is `(1000.0, 'm1')`. */
  lemma KilometreReduced(k: Physics)
    ensures Breakdown(Builtin, "km", k) == Ok((Linear(1000.0), "m1"))
  {
    KilometreExample(k);
    MetreExample(k);
    MetreWords();
    LengthWords();
    LengthReduced(Builtin, k, "km", 1000.0, "m");
  }

  /** `breakdown('cm')` is `(0.01, 'm1')`. */
  lemma CentimetreReduced(k: Physics)
    ensures Breakdown(Builtin, "cm", k) == Ok((Linear(0.01), "m1"))
  {
    CentimetreExample(k);
    MetreExample(k);
    MetreWords();
    LengthWords();
    LengthReduced(Builtin, k, "cm", 0.01, "m");
  }

  // ---------------------------------------------------------------------
  // The two doctests

  /** How `erg s-1 W2 kg2 cm-2` is written: no alias marks, five words. */
  predicate PowerUnitSpelling(unit: string, atoms: seq<string>) {
    && (forall i :: 0 <= i < |unit| ==> !Aliases.IsMark(unit[i]))
    && Words(unit) == atoms
    && |atoms| == 5 && atoms[0] == "erg" && atoms[1] == "s-1" && atoms[2] == "W2"
    && atoms[3] == "kg2" && atoms[4] == "cm-2"
  }

  /** How `erg s-1 cm-2 A-1` is written. */
  predicate FluxUnitSpelling(unit: string, atoms: seq<string>) {
    && (forall i :: 0 <= i < |unit| ==> !Aliases.IsMark(unit[i]))
    && Words(unit) == atoms
    && |atoms| == 4 && atoms[0] == "erg" && atoms[1] == "s-1" && atoms[2] == "cm-2" && atoms[3] == "A-1"
  }

  lemma PowerUnitListed(atoms: seq<string>)
    requires atoms == ["erg", "s-1", "W2", "kg2", "cm-2"]
    ensures |atoms| == 5 && atoms[0] == "erg" && atoms[1] == "s-1" && atoms[2] == "W2"
    ensures atoms[3] == "kg2" && atoms[4] == "cm-2"
  {
  }

  lemma FluxUnitListed(atoms: seq<string>)
    requires atoms == ["erg", "s-1", "cm-2", "A-1"]
    ensures |atoms| == 4 && atoms[0] == "erg" && atoms[1] == "s-1" && atoms[2] == "cm-2" && atoms[3] == "A-1"
  {
  }

  lemma PowerUnitSpelt()
    ensures PowerUnitSpelling("erg s-1 W2 kg2 cm-2", ["erg", "s-1", "W2", "kg2", "cm-2"])
  {
    PowerUnitWords();
    PowerUnitUnmarked("erg s-1 W2 kg2 cm-2");
    PowerUnitListed(["erg", "s-1", "W2", "kg2", "cm-2"]);
  }

  lemma FluxUnitSpelt()
    ensures FluxUnitSpelling("erg s-1 cm-2 A-1", ["erg", "s-1", "cm-2", "A-1"])
  {
    FluxUnitWords();
    FluxUnitUnmarked("erg s-1 cm-2 A-1");
    FluxUnitListed(["erg", "s-1", "cm-2", "A-1"]);
  }

  /** The reduction of `erg s-1 W2 kg2 cm-2` from what `components` returns
      for its atoms, whatever the tables; the unit and its words are
      parameters so that only the given facts about them are used. */
  lemma PowerUnitReduced(t: Registry, k: Physics, unit: string, atoms: seq<string>)
    requires ErgAtoms(Decompose(t, k), "kg m2 s-2", "s", "kg m2 s-3", "kg", "m")
    requires PowerUnitSpelling(unit, atoms)
    ensures Breakdown(t, unit, k) == Ok((Linear(0.001), "kg5 m4 s-9"))
  {
    PowerUnitTotals(Decompose(t, k), atoms, "kg m2 s-2", "s", "kg m2 s-3", "kg", "m");
    PowerUnitRender();
    PlainBreakdown(t, unit, k, atoms, (Linear(0.001), Tally(["kg", "m", "s"], [5, 4, -9])), "kg5 m4 s-9");
  }

  /** The reduction of `erg s-1 cm-2 A-1`, whatever the tables. */
  lemma FluxUnitReduced(t: Registry, k: Physics, unit: string, atoms: seq<string>)
    requires ErgAtoms(Decompose(t, k), "kg m2 s-2", "s", "kg m2 s-3", "kg", "m")
    requires FluxUnitSpelling(unit, atoms)
    ensures Breakdown(t, unit, k) == Ok((Linear(1e7), "kg1 m-1 s-3"))
  {
    FluxUnitTotals(Decompose(t, k), atoms, "kg m2 s-2", "s", "kg m2 s-3", "kg", "m");
    WattRender();
    PlainBreakdown(t, unit, k, atoms, (Linear(1e7), Tally(["kg", "m", "s"], [1, -1, -3])), "kg1 m-1 s-3");
  }

  /** The same for the unit as written. */
  lemma PowerUnitSpelled(t: Registry, k: Physics)
    requires ErgAtoms(Decompose(t, k), "kg m2 s-2", "s", "kg m2 s-3", "kg", "m")
    ensures Breakdown(t, "erg s-1 W2 kg2 cm-2", k) == Ok((Linear(0.001), "kg5 m4 s-9"))
  {
    PowerUnitSpelt();
    PowerUnitReduced(t, k, "erg s-1 W2 kg2 cm-2", ["erg", "s-1", "W2", "kg2", "cm-2"]);
  }

  /** The same for the unit as written. */
  lemma FluxUnitSpelled(t: Registry, k: Physics)
    requires ErgAtoms(Decompose(t, k), "kg m2 s-2", "s", "kg m2 s-3", "kg", "m")
    ensures Breakdown(t, "erg s-1 cm-2 A-1", k) == Ok((Linear(1e7), "kg1 m-1 s-3"))
  {
    FluxUnitSpelt();
    FluxUnitReduced(t, k, "erg s-1 cm-2 A-1", ["erg", "s-1", "cm-2", "A-1"]);
  }

  /** `breakdown('erg s-1 W2 kg2 cm-2')` is `(0.001, 'kg5 m4 s-9')`. */
  lemma PowerUnitExample(k: Physics)
    ensures Breakdown(Builtin, "erg s-1 W2 kg2 cm-2", k) == Ok((Linear(0.001), "kg5 m4 s-9"))
  {
    ErgDecomposed(k);
    PowerUnitSpelled(Builtin, k);
  }

  /** `breakdown('erg s-1 cm-2 A-1')` is `(1e7, 'kg1 m-1 s-3')`: a flux
      density per wavelength reduces to the signature of the watt per
      cubic metre. */
  lemma FluxUnitExample(k: Physics)
    ensures Breakdown(Builtin, "erg s-1 cm-2 A-1", k) == Ok((Linear(1e7), "kg1 m-1 s-3"))
  {
    ErgDecomposed(k);
    FluxUnitSpelled(Builtin, k);
  }
}
