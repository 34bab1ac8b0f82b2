/** The atom pattern `(\d*)(.+?)(-{0,1}\d+)` as `re.search` applies it
    (units/conversions.py, in `solve_aliases` and `components`): the first
    start position at which it matches, and at that position the first
    success of its backtracking order (group 1 greedy, group 2 lazy, group 3
    greedy). The match is not anchored at the end, so text after the power
    is ignored. */
module AtomPattern {
  import opened Text
  import opened Outcomes

  /** A match: its start and the lengths of its three groups. */
  datatype Match = Match(start: nat, lead: nat, body: nat, power: nat)

  /** What an atom is decomposed into: the leading number (1 when absent),
      the base name and the signed power. */
  datatype Atom = Atom(lead: nat, basis: string, power: int)

  /** Length of the run of digits at position `i`: the digits there, up to
      the end or the first non-digit. */
  function DigitRun(s: string, i: nat): (n: nat)
    requires i <= |s|
    ensures i + n <= |s|
    ensures forall j :: i <= j < i + n ==> IsDigit(s[j])
    ensures i + n == |s| || !IsDigit(s[i + n])
    decreases |s| - i
  {
    if i < |s| && IsDigit(s[i]) then 1 + DigitRun(s, i + 1) else 0
  }

  /** The greedy `-{0,1}\d+` at position `p`: it matches exactly when a
      digit, or a minus and a digit, stand there, and then takes a signed
      integer up to the end or a non-digit. */
  function SignedIntAt(s: string, p: nat): (n: Option<nat>)
    requires p <= |s|
    ensures n.Some? ==> p + n.value <= |s| && IsSignedInt(s[p..p + n.value])
    ensures n.Some? ==> p + n.value == |s| || !IsDigit(s[p + n.value])
    ensures n.None? <==> !(p < |s| && IsDigit(s[p])) && !(p + 1 < |s| && s[p] == '-' && IsDigit(s[p + 1]))
  {
    if p + 1 < |s| && s[p] == '-' && IsDigit(s[p + 1]) then
      var n := 1 + DigitRun(s, p + 1);
      assert s[p..p + n][1..] == s[p + 1..p + n];
      Some(n)
    else if p < |s| && IsDigit(s[p]) then Some(DigitRun(s, p))
    else None
  }

  /** The lazy `.+?` starting at `q`, currently `b` characters long: the
      shortest run of non-newline characters after which group 3 matches,
      with the length group 3 then takes. */
  function LazyBody(s: string, q: nat, b: nat): Option<(nat, nat)>
    requires 1 <= b && q + b <= |s|
    decreases |s| - q - b
  {
    if s[q + b - 1] == '\n' then None
    else match SignedIntAt(s, q + b)
      case Some(n) => Some((b, n))
      case None => if q + b < |s| then LazyBody(s, q, b + 1) else None
  }

  /** Group 1 at `i` with `g` digits, backing off one digit at a time. */
  function TryLead(s: string, i: nat, g: nat): Option<Match>
    requires i + g <= |s|
    decreases g
  {
    var body := if i + g < |s| then LazyBody(s, i + g, 1) else None;
    if body.Some? then Some(Match(i, g, body.value.0, body.value.1))
    else if g == 0 then None
    else TryLead(s, i, g - 1)
  }

  /** `re.search`: the first start position from `i` on where the pattern
      matches. */
  function SearchFrom(s: string, i: nat): Option<Match>
    requires i <= |s|
    decreases |s| - i
  {
    var m := TryLead(s, i, DigitRun(s, i));
    if m.Some? then m
    else if i < |s| then SearchFrom(s, i + 1)
    else None
  }

  /** A match that fits in `s`, whose groups are a digit run, a non-empty
      base and a signed integer. */
  predicate WellFormed(s: string, m: Match) {
    && m.start + m.lead + m.body + m.power <= |s|
    && m.body >= 1
    && AllDigits(s[m.start..m.start + m.lead])
    && IsSignedInt(s[m.start + m.lead + m.body..m.start + m.lead + m.body + m.power])
  }

  lemma {:induction false} LazyBodyWellFormed(s: string, q: nat, b: nat)
    requires 1 <= b && q + b <= |s|
    ensures LazyBody(s, q, b).Some? ==>
      var r := LazyBody(s, q, b).value;
      r.0 >= 1 && q + r.0 + r.1 <= |s| && IsSignedInt(s[q + r.0..q + r.0 + r.1])
    decreases |s| - q - b
  {
    if s[q + b - 1] != '\n' && SignedIntAt(s, q + b).None? && q + b < |s| {
      LazyBodyWellFormed(s, q, b + 1);
    }
  }

  lemma {:induction false} TryLeadWellFormed(s: string, i: nat, g: nat)
    requires i + g <= |s|
    requires forall j :: i <= j < i + g ==> IsDigit(s[j])
    ensures TryLead(s, i, g).Some? ==> TryLead(s, i, g).value.start == i && WellFormed(s, TryLead(s, i, g).value)
    decreases g
  {
    if i + g < |s| && LazyBody(s, i + g, 1).Some? {
      LeadBodyWellFormed(s, i, g);
    } else if g > 0 {
      TryLeadWellFormed(s, i, g - 1);
    }
  }

  /** Group 1 of `g` digits at `i` followed by a successful group 2. */
  lemma LeadBodyWellFormed(s: string, i: nat, g: nat)
    requires i + g < |s|
    requires forall j :: i <= j < i + g ==> IsDigit(s[j])
    requires LazyBody(s, i + g, 1).Some?
    ensures var r := LazyBody(s, i + g, 1).value;
      WellFormed(s, Match(i, g, r.0, r.1))
  {
    LazyBodyWellFormed(s, i + g, 1);
    DigitsSlice(s, i, g);
  }

  lemma DigitsSlice(s: string, i: nat, g: nat)
    requires i + g <= |s|
    requires forall j :: i <= j < i + g ==> IsDigit(s[j])
    ensures AllDigits(s[i..i + g])
  {
    var lead := s[i..i + g];
    forall j | 0 <= j < g ensures IsDigit(lead[j]) {
      assert lead[j] == s[i + j];
    }
  }

  lemma {:induction false} SearchWellFormed(s: string, i: nat)
    requires i <= |s|
    ensures SearchFrom(s, i).Some? ==> WellFormed(s, SearchFrom(s, i).value)
    decreases |s| - i
  {
    TryLeadWellFormed(s, i, DigitRun(s, i));
    if TryLead(s, i, DigitRun(s, i)).None? && i < |s| {
      SearchWellFormed(s, i + 1);
    }
  }

  /** The groups of a match as `components` and `solve_aliases` read them:
      an empty group 1 counts as the number 1. */
  function AtomAt(s: string, m: Match): Atom
    requires WellFormed(s, m)
  {
    var p := m.start + m.lead + m.body;
    Atom(if m.lead == 0 then 1 else DigitsValue(s[m.start..m.start + m.lead]),
         s[m.start + m.lead..p],
         SignedValue(s[p..p + m.power]))
  }

  /** The groups of the first match, or `(1, s, 1)` when there is none. */
  function Parse(s: string): (a: Atom) {
    match SearchFrom(s, 0)
    case Some(m) =>
      SearchWellFormed(s, 0);
      AtomAt(s, m)
    case None => Atom(1, s, 1)
  }

  /** `if not unit[-1].isdigit(): unit += '1'`. */
  function WithPower(u: string): (s: string)
    requires u != []
    ensures s != [] && IsDigit(s[|s| - 1])
    ensures s == u || s == u + "1"
  {
    if IsDigit(u[|u| - 1]) then u else u + "1"
  }

  /** Both steps together, failing like `x[-1]` on the empty string. */
  function AtomOf(u: string): Result<Atom> {
    if u == [] then Err(EmptyPiece) else Ok(Parse(WithPower(u)))
  }

  /** A base name that the lazy group 2 reads whole: it starts with a
      non-digit and holds no digit, no newline, and no trailing minus. */
  predicate PlainName(b: string) {
    && b != []
    && (forall j :: 0 <= j < |b| ==> !IsDigit(b[j]) && b[j] != '\n')
    && b[|b| - 1] != '-'
  }

  lemma {:induction false} DigitRunExact(s: string, i: nat, n: nat)
    requires i + n <= |s|
    requires forall j :: i <= j < i + n ==> IsDigit(s[j])
    requires i + n == |s| || !IsDigit(s[i + n])
    ensures DigitRun(s, i) == n
    decreases n
  {
    if n > 0 {
      DigitRunExact(s, i + 1, n - 1);
    }
  }

  lemma {:induction false} LazyBodyReachesEnd(s: string, q: nat, b: nat, len: nat, n: nat)
    requires 1 <= b <= len && q + len <= |s|
    requires forall j :: q <= j < q + len ==> !IsDigit(s[j]) && s[j] != '\n'
    requires s[q + len - 1] != '-'
    requires SignedIntAt(s, q + len) == Some(n)
    ensures LazyBody(s, q, b) == Some((len, n))
    decreases len - b
  {
    if b < len {
      assert SignedIntAt(s, q + b).None? by {
        assert !IsDigit(s[q + b]);
        if b + 1 < len {
          assert !IsDigit(s[q + b + 1]);
        } else {
          assert s[q + b] != '-';
        }
      }
      LazyBodyReachesEnd(s, q, b + 1, len, n);
    }
  }

  /** `s` holds a digit run `ds` at its start, then a plain name `b`,
      then a signed integer `ps` that is followed by a non-digit or the end. */
  predicate RegularParts(s: string, ds: string, b: string, ps: string) {
    && |ds| + |b| + |ps| <= |s|
    && s[0..|ds|] == ds && s[|ds|..|ds| + |b|] == b && s[|ds| + |b|..|ds| + |b| + |ps|] == ps
    && AllDigits(ds) && PlainName(b) && IsSignedInt(ps)
    && (|ds| + |b| + |ps| == |s| || !IsDigit(s[|ds| + |b| + |ps|]))
  }

  /** The same, character by character: digits up to `q`, a name of `len`
      non-digit non-newline characters not ending in a minus, then the
      signed integer `ps`. */
  predicate RegularIndex(s: string, q: nat, len: nat, ps: string) {
    && 1 <= len && q + len + |ps| <= |s|
    && (forall j :: 0 <= j < q ==> IsDigit(s[j]))
    && (forall j :: q <= j < q + len ==> !IsDigit(s[j]) && s[j] != '\n')
    && s[q + len - 1] != '-'
    && IsSignedInt(ps)
    && (forall j :: 0 <= j < |ps| ==> s[q + len + j] == ps[j])
    && (q + len + |ps| == |s| || !IsDigit(s[q + len + |ps|]))
  }

  lemma RegularPartsIndex(s: string, ds: string, b: string, ps: string)
    requires RegularParts(s, ds, b, ps)
    ensures RegularIndex(s, |ds|, |b|, ps)
  {
    var q, len := |ds|, |b|;
    forall j | 0 <= j < q ensures IsDigit(s[j]) {
      assert s[j] == s[0..q][j];
    }
    forall j | q <= j < q + len ensures !IsDigit(s[j]) && s[j] != '\n' {
      assert s[j] == s[q..q + len][j - q];
    }
    assert s[q + len - 1] == s[q..q + len][len - 1];
    forall j | 0 <= j < |ps| ensures s[q + len + j] == ps[j] {
      assert s[q + len + j] == s[q + len..q + len + |ps|][j];
    }
  }

  /** Group 3 on a signed integer followed by a non-digit takes exactly the
      signed integer. */
  lemma PowerGroupRegular(s: string, p: nat, ps: string)
    requires p + |ps| <= |s|
    requires forall j :: 0 <= j < |ps| ==> s[p + j] == ps[j]
    requires IsSignedInt(ps)
    requires p + |ps| == |s| || !IsDigit(s[p + |ps|])
    ensures SignedIntAt(s, p) == Some(|ps|)
  {
    var n := |ps|;
    if ps[0] == '-' {
      forall j | p + 1 <= j < p + n ensures IsDigit(s[j]) {
        assert s[j] == ps[j - p] == ps[1..][j - p - 1];
      }
      DigitRunExact(s, p + 1, n - 1);
    } else {
      forall j | p <= j < p + n ensures IsDigit(s[j]) {
        assert s[j] == ps[j - p];
      }
      DigitRunExact(s, p, n);
    }
  }

  /** The search succeeds at the start when the leading digits are followed
      by a base after which group 3 matches. */
  lemma SearchAtStart(s: string, q: nat, len: nat, n: nat)
    requires q < |s|
    requires DigitRun(s, 0) == q
    requires LazyBody(s, q, 1) == Some((len, n))
    ensures SearchFrom(s, 0) == Some(Match(0, q, len, n))
  {
    assert TryLead(s, 0, q) == Some(Match(0, q, len, n));
  }

  /** Where the search succeeds on such an `s`. */
  lemma SearchRegular(s: string, q: nat, len: nat, ps: string)
    requires RegularIndex(s, q, len, ps)
    ensures SearchFrom(s, 0) == Some(Match(0, q, len, |ps|))
  {
    DigitRunExact(s, 0, q);
    PowerGroupRegular(s, q + len, ps);
    LazyBodyReachesEnd(s, q, 1, len, |ps|);
    SearchAtStart(s, q, len, |ps|);
  }

  /** Parsing such an `s`. */
  lemma ParseParts(s: string, ds: string, b: string, ps: string)
    requires RegularParts(s, ds, b, ps)
    ensures Parse(s) == Atom(if ds == [] then 1 else DigitsValue(ds), b, SignedValue(ps))
  {
    RegularPartsIndex(s, ds, b, ps);
    SearchRegular(s, |ds|, |b|, ps);
    ParseOfMatch(s, Match(0, |ds|, |b|, |ps|));
    AtomAtParts(s, ds, b, ps);
  }

  lemma ParseOfMatch(s: string, m: Match)
    requires SearchFrom(s, 0) == Some(m)
    ensures WellFormed(s, m) && Parse(s) == AtomAt(s, m)
  {
    SearchWellFormed(s, 0);
  }

  /** The groups of a match are the parts of `s` they cover. */
  lemma AtomAtParts(s: string, ds: string, b: string, ps: string)
    requires |ds| + |b| + |ps| <= |s|
    requires s[0..|ds|] == ds && s[|ds|..|ds| + |b|] == b && s[|ds| + |b|..|ds| + |b| + |ps|] == ps
    requires AllDigits(ds) && b != [] && IsSignedInt(ps)
    ensures WellFormed(s, Match(0, |ds|, |b|, |ps|))
    ensures AtomAt(s, Match(0, |ds|, |b|, |ps|)) == Atom(if ds == [] then 1 else DigitsValue(ds), b, SignedValue(ps))
  {
    PartsWellFormed(s, ds, b, ps);
    LeadPart(s, ds, b, ps);
    BasisPart(s, ds, b, ps);
    PowerPart(s, ds, b, ps);
  }

  lemma PartsWellFormed(s: string, ds: string, b: string, ps: string)
    requires |ds| + |b| + |ps| <= |s|
    requires s[0..|ds|] == ds && s[|ds|..|ds| + |b|] == b && s[|ds| + |b|..|ds| + |b| + |ps|] == ps
    requires AllDigits(ds) && b != [] && IsSignedInt(ps)
    ensures WellFormed(s, Match(0, |ds|, |b|, |ps|))
  {
  }

  lemma LeadPart(s: string, ds: string, b: string, ps: string)
    requires |ds| + |b| + |ps| <= |s|
    requires s[0..|ds|] == ds && s[|ds|..|ds| + |b|] == b && s[|ds| + |b|..|ds| + |b| + |ps|] == ps
    requires AllDigits(ds) && b != [] && IsSignedInt(ps)
    requires WellFormed(s, Match(0, |ds|, |b|, |ps|))
    ensures AtomAt(s, Match(0, |ds|, |b|, |ps|)).lead == if ds == [] then 1 else DigitsValue(ds)
  {
  }

  lemma BasisPart(s: string, ds: string, b: string, ps: string)
    requires |ds| + |b| + |ps| <= |s|
    requires s[0..|ds|] == ds && s[|ds|..|ds| + |b|] == b && s[|ds| + |b|..|ds| + |b| + |ps|] == ps
    requires AllDigits(ds) && b != [] && IsSignedInt(ps)
    requires WellFormed(s, Match(0, |ds|, |b|, |ps|))
    ensures AtomAt(s, Match(0, |ds|, |b|, |ps|)).basis == b
  {
  }

  lemma PowerPart(s: string, ds: string, b: string, ps: string)
    requires |ds| + |b| + |ps| <= |s|
    requires s[0..|ds|] == ds && s[|ds|..|ds| + |b|] == b && s[|ds| + |b|..|ds| + |b| + |ps|] == ps
    requires AllDigits(ds) && b != [] && IsSignedInt(ps)
    requires WellFormed(s, Match(0, |ds|, |b|, |ps|))
    ensures AtomAt(s, Match(0, |ds|, |b|, |ps|)).power == SignedValue(ps)
  {
  }

  /** The regular shape of an atom, `<digits><name><signed integer><rest>`,
      decomposes as written: the digits are the leading number (1 when there
      are none), the name is the base, the signed integer is the power, and
      whatever follows a non-digit after the power is dropped. */
  lemma ParseRegularAtom(ds: string, b: string, ps: string, tail: string)
    requires AllDigits(ds)
    requires PlainName(b)
    requires IsSignedInt(ps)
    requires tail == [] || !IsDigit(tail[0])
    ensures Parse(ds + b + ps + tail) == Atom(if ds == [] then 1 else DigitsValue(ds), b, SignedValue(ps))
  {
    ConcatParts(ds, b, ps, tail);
    ParseParts(ds + b + ps + tail, ds, b, ps);
  }

  /** `ds + b + ps + tail` cut back into its parts. */
  lemma Quarters(ds: string, b: string, ps: string, tail: string)
    ensures var s := ds + b + ps + tail;
      && |s| == |ds| + |b| + |ps| + |tail|
      && s[0..|ds|] == ds
      && s[|ds|..|ds| + |b|] == b
      && s[|ds| + |b|..|ds| + |b| + |ps|] == ps
      && (tail != [] ==> s[|ds| + |b| + |ps|] == tail[0])
  {
    var s := ds + b + ps + tail;
    if tail != [] {
      assert s[|ds| + |b| + |ps|] == tail[0];
    }
  }

  lemma ConcatParts(ds: string, b: string, ps: string, tail: string)
    requires AllDigits(ds)
    requires PlainName(b)
    requires IsSignedInt(ps)
    requires tail == [] || !IsDigit(tail[0])
    ensures RegularParts(ds + b + ps + tail, ds, b, ps)
  {
    Quarters(ds, b, ps, tail);
  }

  /** An atom made of leading digits, a plain base name and an optional
      signed power decomposes into those three parts, the power defaulting
      to 1. */
  lemma AtomOfRegular(ds: string, b: string, ps: string)
    requires AllDigits(ds) && PlainName(b)
    requires ps == [] || IsSignedInt(ps)
    ensures AtomOf(ds + b + ps) == Ok(Atom(if ds == [] then 1 else DigitsValue(ds), b, if ps == [] then 1 else SignedValue(ps)))
  {
    var q := if ps == [] then "1" else ps;
    WithPowerRegular(ds, b, ps);
    ParseRegularAtom(ds, b, q, []);
  }

  /** Without a power, `WithPower` appends the `1` the atom then reads. */
  lemma WithPowerRegular(ds: string, b: string, ps: string)
    requires PlainName(b)
    requires ps == [] || IsSignedInt(ps)
    ensures var q := if ps == [] then "1" else ps;
      IsSignedInt(q) && SignedValue(q) == (if ps == [] then 1 else SignedValue(ps))
      && WithPower(ds + b + ps) == ds + b + q + []
  {
    var p := ds + b + ps;
    if ps == [] {
      assert p[|p| - 1] == b[|b| - 1];
      assert DigitsValue("1") == 10 * DigitsValue("") + DigitOf('1');
    } else {
      assert p[|p| - 1] == ps[|ps| - 1];
      assert ps[0] == '-' ==> ps[|ps| - 1] == ps[1..][|ps| - 2];
    }
  }
}
