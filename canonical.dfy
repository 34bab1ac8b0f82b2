/** The shape of the signature `breakdown` returns (units/conversions.py:
    277-294): each token is a base name followed by a non-zero power, no
    base name appears twice, and the tokens are sorted. It holds for any
    registry whose signatures are written in words that `components` reads
    as base names, and the module's own registry is such a registry. */
module Canonical {
  import opened Text
  import opened Tables
  import opened Outcomes
  import opened Converters
  import opened Decomposition
  import opened Reduction
  import Aliases
  import ReductionExamples

  /** `components` reads every word of `sig` as a base name. */
  predicate WordsBase(t: Registry, k: Physics, sig: string) {
    forall w :: w in Words(sig) ==> Components(t, w, k).Ok? && BaseName(Components(t, w, k).value.sig)
  }

  /** Every signature of the registry is written in such words. */
  predicate BaseWords(t: Registry, k: Physics) {
    forall sig :: sig in RegistrySigs(t) ==> WordsBase(t, k, sig)
  }

  /** The name a token starts with: everything before its power. */
  function TokenBase(s: string): string {
    s[..NameLength(s)]
  }

  /** A base name followed by a non-zero power. */
  ghost predicate CanonicalToken(s: string) {
    BaseName(TokenBase(s)) && exists p :: p != 0 && s == TokenBase(s) + IntToString(p)
  }

  // ---------------------------------------------------------------------
  // Any registry

  /** What `components` returns carries one of the registry's signatures. */
  lemma ComponentSig(t: Registry, unit: string, k: Physics)
    requires Components(t, unit, k).Ok?
    ensures Components(t, unit, k).value.sig in RegistrySigs(t)
  {
    var a := AtomPattern.Parse(AtomPattern.WithPower(unit));
    var base := Split(t, a.basis).value.1;
    assert Components(t, unit, k).value.sig == t.factors[base].sig;
  }

  /** A name that the words mention is the signature of one of them. */
  lemma {:induction false} WordsMentionWitness(dec: Decomposer, words: seq<string>, x: string)
    requires WordsMention(dec, words, x)
    ensures exists w :: w in words && dec(w).Ok? && dec(w).value.sig == x
    decreases |words|
  {
    var n := |words| - 1;
    if WordsMention(dec, words[..n], x) {
      WordsMentionWitness(dec, words[..n], x);
      var w :| w in words[..n] && dec(w).Ok? && dec(w).value.sig == x;
      assert w in words;
    } else {
      assert words[n] in words;
    }
  }

  /** Every name the outer loop lists is a base name. */
  lemma {:induction false} MentionsBase(t: Registry, k: Physics, atoms: seq<string>, x: string)
    requires BaseWords(t, k) && Mentions(Decompose(t, k), atoms, x)
    ensures BaseName(x)
    decreases |atoms|
  {
    var dec := Decompose(t, k);
    var n := |atoms| - 1;
    if Mentions(dec, atoms[..n], x) {
      MentionsBase(t, k, atoms[..n], x);
    } else {
      var c := Components(t, atoms[n], k).value;
      ComponentSig(t, atoms[n], k);
      WordsMentionWitness(dec, Words(c.sig), x);
      var w :| w in Words(c.sig) && dec(w).Ok? && dec(w).value.sig == x;
      assert WordsBase(t, k, c.sig);
    }
  }

  /** A token's name is the base name it was built from. */
  lemma TokenBaseOf(u: string, p: int)
    requires BaseName(u)
    ensures TokenBase(u + IntToString(p)) == u
  {
    RenderedInt(p);
    NameLengthOfToken(u, IntToString(p));
    assert (u + IntToString(p))[..|u|] == u;
  }

  /** The tokens of a tally over base names, read back with `split()`. */
  lemma RenderedTokens(tl: Tally)
    requires WellFormed(tl)
    requires forall i :: 0 <= i < |tl.units| ==> BaseName(tl.units[i])
    ensures StrictlySorted(Words(Render(tl)))
    ensures forall m :: 0 <= m < |Words(Render(tl))| ==> CanonicalToken(Words(Render(tl))[m])
    ensures forall m, n :: 0 <= m < n < |Words(Render(tl))| ==>
      TokenBase(Words(Render(tl))[m]) != TokenBase(Words(Render(tl))[n])
  {
    var ws := Words(Render(tl));
    RenderSpec(tl);
    forall m | 0 <= m < |ws|
      ensures exists i :: 0 <= i < |tl.units| && tl.powers[i] != 0 && ws[m] == tl.units[i] + IntToString(tl.powers[i])
    {
      assert ws[m] in ws;
    }
    forall m | 0 <= m < |ws| ensures CanonicalToken(ws[m]) {
      var i :| 0 <= i < |tl.units| && tl.powers[i] != 0 && ws[m] == tl.units[i] + IntToString(tl.powers[i]);
      TokenBaseOf(tl.units[i], tl.powers[i]);
    }
    forall m, n | 0 <= m < n < |ws| ensures TokenBase(ws[m]) != TokenBase(ws[n]) {
      var i :| 0 <= i < |tl.units| && tl.powers[i] != 0 && ws[m] == tl.units[i] + IntToString(tl.powers[i]);
      var j :| 0 <= j < |tl.units| && tl.powers[j] != 0 && ws[n] == tl.units[j] + IntToString(tl.powers[j]);
      TokenBaseOf(tl.units[i], tl.powers[i]);
      TokenBaseOf(tl.units[j], tl.powers[j]);
      if TokenBase(ws[m]) == TokenBase(ws[n]) {
        assert i == j;
        BelowAsymmetric(ws[m], ws[n]);
        assert false;
      }
    }
  }

  /** The signature `breakdown` returns is canonical: sorted, every token a
      base name with a non-zero power, and no base name twice. */
  lemma BreakdownCanonical(t: Registry, u: string, k: Physics, f: Factor, sig: string)
    requires BaseWords(t, k) && Breakdown(t, u, k) == Ok((f, sig))
    ensures StrictlySorted(Words(sig))
    ensures forall m :: 0 <= m < |Words(sig)| ==> CanonicalToken(Words(sig)[m])
    ensures forall m, n :: 0 <= m < n < |Words(sig)| ==> TokenBase(Words(sig)[m]) != TokenBase(Words(sig)[n])
  {
    var dec := Decompose(t, k);
    var atoms := Words(Aliases.Resolved(u).value);
    var tl := Totals(dec, atoms).value.1;
    assert sig == Render(tl);
    TotalsTally(dec, atoms);
    forall i | 0 <= i < |tl.units| ensures BaseName(tl.units[i]) {
      assert tl.units[i] in tl.units;
      MentionsBase(t, k, atoms, tl.units[i]);
    }
    RenderedTokens(tl);
  }

  // ---------------------------------------------------------------------
  // The module's own registry

  /** The signatures the module's `_factors` table uses. */
  function BuiltinSigSet(): set<string> {
    MechanicalSigSet() + CycleSigSet() + DerivedSigSet() + RadiantSigSet()
  }

  function MechanicalSigSet(): set<string> {
    {"m", "kg", "s"}
  }

  function CycleSigSet(): set<string> {
    {"cy s-1", "cy", "sr"}
  }

  function DerivedSigSet(): set<string> {
    {"kg m s-2", "K", "kg m2 s-2"}
  }

  function RadiantSigSet(): set<string> {
    {"kg m2 s-3", "kg s-2 cy-1", "kg m-1 s-3"}
  }


  lemma BuiltinSigs()
    ensures RegistrySigs(Builtin) <= BuiltinSigSet()
  {
  }

  lemma TwoWords(a: string, b: string, ab: string)
    requires a != [] && NoSpace(a) && b != [] && NoSpace(b) && ab == a + " " + b
    ensures Words(ab) == [a, b]
  {
    WordsOfJoin([b]);
    WordsCons(a, b);
  }

  /** Base words for four sets of signatures covering the registry's. */
  lemma BaseWordsCovered(t: Registry, k: Physics, a: set<string>, b: set<string>, c: set<string>, d: set<string>)
    requires RegistrySigs(t) <= a + b + c + d
    requires forall sig :: sig in a ==> WordsBase(t, k, sig)
    requires forall sig :: sig in b ==> WordsBase(t, k, sig)
    requires forall sig :: sig in c ==> WordsBase(t, k, sig)
    requires forall sig :: sig in d ==> WordsBase(t, k, sig)
    ensures BaseWords(t, k)
  {
  }

  lemma BaseNames()
    ensures BaseName("m") && BaseName("kg") && BaseName("s") && BaseName("cy") && BaseName("sr") && BaseName("K")
  {
  }

  /** `components` reads `w` as a base name. */
  predicate BaseWord(t: Registry, k: Physics, w: string) {
    Components(t, w, k).Ok? && BaseName(Components(t, w, k).value.sig)
  }

  /** A signature of one word that `components` reads as a base name. */
  lemma OneWordBase(t: Registry, k: Physics, sig: string, a: string)
    requires Words(sig) == [a] && BaseWord(t, k, a)
    ensures WordsBase(t, k, sig)
  {
  }

  lemma TwoWordsBase(t: Registry, k: Physics, sig: string, a: string, b: string)
    requires Words(sig) == [a, b] && BaseWord(t, k, a) && BaseWord(t, k, b)
    ensures WordsBase(t, k, sig)
  {
  }

  lemma ThreeWordsBase(t: Registry, k: Physics, sig: string, a: string, b: string, c: string)
    requires Words(sig) == [a, b, c] && BaseWord(t, k, a) && BaseWord(t, k, b) && BaseWord(t, k, c)
    ensures WordsBase(t, k, sig)
  {
  }

  lemma MetreWord(k: Physics)
    ensures BaseWord(Builtin, k, "m")
  {
    MetreExample(k);
    BaseNames();
  }

  lemma KilogramWord(k: Physics)
    ensures BaseWord(Builtin, k, "kg")
  {
    KilogramExample(k);
    BaseNames();
  }

  lemma SecondWord(k: Physics)
    ensures BaseWord(Builtin, k, "s")
  {
    SecondExample(k);
    BaseNames();
  }

  lemma CycleWord(k: Physics)
    ensures BaseWord(Builtin, k, "cy")
  {
    CycleExample(k);
    BaseNames();
  }

  lemma PerSecondWord(k: Physics)
    ensures BaseWord(Builtin, k, "s-1")
  {
    PerSecondExample(k);
    BaseNames();
  }

  lemma SteradianWord(k: Physics)
    ensures BaseWord(Builtin, k, "sr")
  {
    SteradianExample(k);
    BaseNames();
  }

  lemma PerSecondSquaredWord(k: Physics)
    ensures BaseWord(Builtin, k, "s-2")
  {
    PerSecondSquaredExample(k);
    BaseNames();
  }

  lemma KelvinWord(k: Physics)
    ensures BaseWord(Builtin, k, "K")
  {
    KelvinExample(k);
    BaseNames();
  }

  lemma SquareMetreWord(k: Physics)
    ensures BaseWord(Builtin, k, "m2")
  {
    SquareMetreExample(k);
    BaseNames();
  }

  lemma PerSecondCubedWord(k: Physics)
    ensures BaseWord(Builtin, k, "s-3")
  {
    PerSecondCubedExample(k);
    BaseNames();
  }

  lemma PerCycleWord(k: Physics)
    ensures BaseWord(Builtin, k, "cy-1")
  {
    PerCycleExample(k);
    BaseNames();
  }

  lemma PerMetreWord(k: Physics)
    ensures BaseWord(Builtin, k, "m-1")
  {
    PerMetreExample(k);
    BaseNames();
  }

  lemma MetreSig(k: Physics)
    ensures WordsBase(Builtin, k, "m")
  {
    MetreWords();
    MetreWord(k);
    OneWordBase(Builtin, k, "m", "m");
  }

  lemma KilogramSig(k: Physics)
    ensures WordsBase(Builtin, k, "kg")
  {
    ReductionExamples.SingleWords();
    KilogramWord(k);
    OneWordBase(Builtin, k, "kg", "kg");
  }

  lemma SecondSig(k: Physics)
    ensures WordsBase(Builtin, k, "s")
  {
    ReductionExamples.SingleWords();
    SecondWord(k);
    OneWordBase(Builtin, k, "s", "s");
  }

  lemma FrequencySig(k: Physics)
    ensures WordsBase(Builtin, k, "cy s-1")
  {
    TwoWords("cy", "s-1", "cy s-1");
    CycleWord(k);
    PerSecondWord(k);
    TwoWordsBase(Builtin, k, "cy s-1", "cy", "s-1");
  }

  lemma CycleSig(k: Physics)
    ensures WordsBase(Builtin, k, "cy")
  {
    WordsOfJoin(["cy"]);
    CycleWord(k);
    OneWordBase(Builtin, k, "cy", "cy");
  }

  lemma SteradianSig(k: Physics)
    ensures WordsBase(Builtin, k, "sr")
  {
    WordsOfJoin(["sr"]);
    SteradianWord(k);
    OneWordBase(Builtin, k, "sr", "sr");
  }

  lemma ForceSig(k: Physics)
    ensures WordsBase(Builtin, k, "kg m s-2")
  {
    ReductionExamples.ThreeWords("kg", "m", "s-2", "m s-2", "kg m s-2");
    KilogramWord(k);
    MetreWord(k);
    PerSecondSquaredWord(k);
    ThreeWordsBase(Builtin, k, "kg m s-2", "kg", "m", "s-2");
  }

  lemma KelvinSig(k: Physics)
    ensures WordsBase(Builtin, k, "K")
  {
    WordsOfJoin(["K"]);
    KelvinWord(k);
    OneWordBase(Builtin, k, "K", "K");
  }

  lemma EnergySig(k: Physics)
    ensures WordsBase(Builtin, k, "kg m2 s-2")
  {
    ReductionExamples.ErgWords();
    KilogramWord(k);
    SquareMetreWord(k);
    PerSecondSquaredWord(k);
    ThreeWordsBase(Builtin, k, "kg m2 s-2", "kg", "m2", "s-2");
  }

  lemma PowerSig(k: Physics)
    ensures WordsBase(Builtin, k, "kg m2 s-3")
  {
    WattWords();
    KilogramWord(k);
    SquareMetreWord(k);
    PerSecondCubedWord(k);
    ThreeWordsBase(Builtin, k, "kg m2 s-3", "kg", "m2", "s-3");
  }

  lemma SpectralSig(k: Physics)
    ensures WordsBase(Builtin, k, "kg s-2 cy-1")
  {
    ReductionExamples.ThreeWords("kg", "s-2", "cy-1", "s-2 cy-1", "kg s-2 cy-1");
    KilogramWord(k);
    PerSecondSquaredWord(k);
    PerCycleWord(k);
    ThreeWordsBase(Builtin, k, "kg s-2 cy-1", "kg", "s-2", "cy-1");
  }

  lemma WavelengthSpectralSig(k: Physics)
    ensures WordsBase(Builtin, k, "kg m-1 s-3")
  {
    ReductionExamples.ThreeWords("kg", "m-1", "s-3", "m-1 s-3", "kg m-1 s-3");
    KilogramWord(k);
    PerMetreWord(k);
    PerSecondCubedWord(k);
    ThreeWordsBase(Builtin, k, "kg m-1 s-3", "kg", "m-1", "s-3");
  }

  /** Every word of every signature in `_factors` is read by `components`
      as a base name: m, kg, s, cy, sr or K, with a power. */
  lemma BuiltinBaseWords(k: Physics)
    ensures BaseWords(Builtin, k)
  {
    BuiltinSigs();
    MechanicalSigs(k);
    CycleSigs(k);
    DerivedSigs(k);
    RadiantSigs(k);
    BaseWordsCovered(Builtin, k, MechanicalSigSet(), CycleSigSet(), DerivedSigSet(), RadiantSigSet());
  }

  lemma MechanicalSigs(k: Physics)
    ensures forall sig :: sig in MechanicalSigSet() ==> WordsBase(Builtin, k, sig)
  {
    forall sig | sig in MechanicalSigSet() ensures WordsBase(Builtin, k, sig) {
      if sig == "m" { MetreSig(k); }
      else if sig == "kg" { KilogramSig(k); }
      else { SecondSig(k); }
    }
  }

  lemma CycleSigs(k: Physics)
    ensures forall sig :: sig in CycleSigSet() ==> WordsBase(Builtin, k, sig)
  {
    forall sig | sig in CycleSigSet() ensures WordsBase(Builtin, k, sig) {
      if sig == "cy s-1" { FrequencySig(k); }
      else if sig == "cy" { CycleSig(k); }
      else { SteradianSig(k); }
    }
  }

  lemma DerivedSigs(k: Physics)
    ensures forall sig :: sig in DerivedSigSet() ==> WordsBase(Builtin, k, sig)
  {
    forall sig | sig in DerivedSigSet() ensures WordsBase(Builtin, k, sig) {
      if sig == "kg m s-2" { ForceSig(k); }
      else if sig == "K" { KelvinSig(k); }
      else { EnergySig(k); }
    }
  }

  lemma RadiantSigs(k: Physics)
    ensures forall sig :: sig in RadiantSigSet() ==> WordsBase(Builtin, k, sig)
  {
    forall sig | sig in RadiantSigSet() ensures WordsBase(Builtin, k, sig) {
      if sig == "kg m2 s-3" { PowerSig(k); }
      else if sig == "kg s-2 cy-1" { SpectralSig(k); }
      else { WavelengthSpectralSig(k); }
    }
  }

  /** With the module's own tables, every signature `breakdown` returns is
      canonical. */
  lemma BuiltinBreakdownCanonical(u: string, k: Physics, f: Factor, sig: string)
    requires Breakdown(Builtin, u, k) == Ok((f, sig))
    ensures StrictlySorted(Words(sig))
    ensures forall m :: 0 <= m < |Words(sig)| ==> CanonicalToken(Words(sig)[m])
    ensures forall m, n :: 0 <= m < n < |Words(sig)| ==> TokenBase(Words(sig)[m]) != TokenBase(Words(sig)[n])
  {
    BuiltinBaseWords(k);
    BreakdownCanonical(Builtin, u, k, f, sig);
  }
}
