/** The string operations the converter relies on, as Python 2 performs them
    on byte strings: character classes, `split()`, `split(d)`, `join`,
    `replace`, `'%d'` rendering and `int()` parsing, and `sorted()` on lists
    of strings. */
module Text {

  /** `c.isdigit()` on a Python 2 byte string: the ASCII digits only. */
  predicate IsDigit(c: char) {
    '0' <= c <= '9'
  }

  /** The characters `str.split()` with no argument splits on. */
  predicate IsSpace(c: char) {
    c == ' ' || c == '\t' || c == '\n' || c == '\r' || c == '\U{0B}' || c == '\U{0C}'
  }

  predicate NoSpace(s: string) {
    forall i :: 0 <= i < |s| ==> !IsSpace(s[i])
  }

  predicate AllDigits(s: string) {
    forall i :: 0 <= i < |s| ==> IsDigit(s[i])
  }

  // ---------------------------------------------------------------------
  // split() and join

  /** Length of the leading run of non-whitespace characters. */
  function WordLength(s: string): (n: nat)
    ensures n <= |s|
    ensures forall i :: 0 <= i < n ==> !IsSpace(s[i])
    ensures n == |s| || IsSpace(s[n])
  {
    if s == [] || IsSpace(s[0]) then 0 else 1 + WordLength(s[1..])
  }

  /** `s.split()`: the maximal runs of non-whitespace characters, in order. */
  function Words(s: string): (ws: seq<string>)
    ensures forall k :: 0 <= k < |ws| ==> ws[k] != [] && NoSpace(ws[k])
    decreases |s|
  {
    if s == [] then []
    else if IsSpace(s[0]) then Words(s[1..])
    else
      var n := WordLength(s);
      [s[..n]] + Words(s[n..])
  }

  /** `sep.join(ts)`. */
  function Join(ts: seq<string>, sep: string): string {
    if |ts| == 0 then []
    else if |ts| == 1 then ts[0]
    else ts[0] + sep + Join(ts[1..], sep)
  }

  lemma {:induction false} WordLengthOfWord(w: string, rest: string)
    requires NoSpace(w)
    requires rest == [] || IsSpace(rest[0])
    ensures WordLength(w + rest) == |w|
  {
    if w != [] {
      assert (w + rest)[1..] == w[1..] + rest;
      WordLengthOfWord(w[1..], rest);
    }
  }

  /** Joining space-free, non-empty tokens with single spaces and splitting
      the result again gives the tokens back: `" ".join(ts).split() == ts`. */
  lemma {:induction false} WordsOfJoin(ts: seq<string>)
    requires forall k :: 0 <= k < |ts| ==> ts[k] != [] && NoSpace(ts[k])
    ensures Words(Join(ts, " ")) == ts
  {
    if |ts| == 0 {
    } else if |ts| == 1 {
      var w := ts[0];
      WordLengthOfWord(w, []);
      assert w + [] == w;
      assert w[|w|..] == [];
      assert Words(w) == [w[..|w|]] + Words(w[|w|..]);
    } else {
      var w := ts[0];
      var rest := " " + Join(ts[1..], " ");
      assert Join(ts, " ") == w + rest;
      WordLengthOfWord(w, rest);
      var s := w + rest;
      assert s[..|w|] == w;
      assert s[|w|..] == rest;
      assert rest[1..] == Join(ts[1..], " ");
      assert Words(rest) == Words(rest[1..]);
      WordsOfJoin(ts[1..]);
      assert ts == [w] + ts[1..];
    }
  }

  /** A word followed by a space and more text: `split()` takes the word
      and goes on with the rest. */
  lemma WordsCons(w: string, s: string)
    requires w != [] && NoSpace(w)
    ensures Words(w + " " + s) == [w] + Words(s)
  {
    var x := w + " " + s;
    assert x == w + (" " + s);
    WordLengthOfWord(w, " " + s);
    assert x[0] == w[0];
    assert x[..|w|] == w;
    assert x[|w|..] == " " + s;
    assert (" " + s)[1..] == s;
  }

  /** First position of `d` in `s`. */
  function IndexOf(s: string, d: char): (i: nat)
    requires d in s
    ensures i < |s| && s[i] == d && d !in s[..i]
  {
    if s[0] == d then 0 else 1 + IndexOf(s[1..], d)
  }

  /** `s.split(d)`: the pieces between occurrences of `d`, empty ones
      included; joining them with `d` restores `s`. */
  function Pieces(s: string, d: char): (ps: seq<string>)
    ensures |ps| >= 1
    ensures forall k :: 0 <= k < |ps| ==> d !in ps[k]
    ensures Join(ps, [d]) == s
    decreases |s|
  {
    if d !in s then [s]
    else
      var i := IndexOf(s, d);
      var rest := Pieces(s[i + 1..], d);
      assert ([s[..i]] + rest)[1..] == rest;
      assert s == s[..i] + [d] + s[i + 1..];
      [s[..i]] + rest
  }

  /** Concatenation of a list of lists. */
  function Flatten(tss: seq<seq<string>>): seq<string> {
    if tss == [] then [] else tss[0] + Flatten(tss[1..])
  }

  // ---------------------------------------------------------------------
  // replace()

  predicate OccursAt(s: string, pat: string, i: nat) {
    i + |pat| <= |s| && s[i..i + |pat|] == pat
  }

  ghost predicate Occurs(pat: string, s: string) {
    exists i: nat | i <= |s| :: OccursAt(s, pat, i)
  }

  /** A pattern one of whose characters `s` never holds does not occur in
      `s`. */
  lemma CharAbsent(pat: string, s: string, c: nat)
    requires c < |pat| && pat[c] !in s
    ensures !Occurs(pat, s)
  {
    forall i: nat | i <= |s| ensures !OccursAt(s, pat, i) {
      if i + |pat| <= |s| {
        assert s[i..i + |pat|][c] == s[i + c];
      }
    }
  }

  /** `s.replace(pat, rep)`: every occurrence of `pat` found scanning left to
      right, without overlap, becomes `rep`. */
  function Replace(s: string, pat: string, rep: string): (r: string)
    requires pat != []
    decreases |s|
  {
    if |s| < |pat| then s
    else if s[..|pat|] == pat then rep + Replace(s[|pat|..], pat, rep)
    else [s[0]] + Replace(s[1..], pat, rep)
  }

  /** A string that holds no occurrence of `pat` is returned unchanged. */
  lemma {:induction false} ReplaceAbsent(s: string, pat: string, rep: string)
    requires pat != [] && !Occurs(pat, s)
    ensures Replace(s, pat, rep) == s
    decreases |s|
  {
    if |s| >= |pat| {
      assert !OccursAt(s, pat, 0);
      ReplacePast(s, pat, rep);
      forall j: nat | j <= |s[1..]| ensures !OccursAt(s[1..], pat, j) {
        ShiftedOccurrence(s, pat, j);
      }
      ReplaceAbsent(s[1..], pat, rep);
    }
  }

  /** `pat` does not occur in `s` before position `i`. */
  predicate NoneBefore(s: string, pat: string, i: nat) {
    forall j: nat :: j < i ==> !OccursAt(s, pat, j)
  }

  /** The leftmost occurrence of `pat` is replaced by `rep`, the text before
      it is kept, and the scan resumes after it. With the case of a string
      that holds no occurrence, this determines `replace` on every input. */
  lemma ReplaceLeftmost(s: string, pat: string, rep: string, i: nat)
    requires pat != [] && OccursAt(s, pat, i) && NoneBefore(s, pat, i)
    ensures Replace(s, pat, rep) == s[..i] + rep + Replace(s[i + |pat|..], pat, rep)
  {
    ReplaceKeepsPrefix(s, pat, rep, i);
    var u := s[i..];
    OccurrenceStarts(s, pat, i);
    ReplaceHere(u, pat, rep);
    ConcatAssociates(Replace(s, pat, rep), s[..i], Replace(u, pat, rep), rep, Replace(s[i + |pat|..], pat, rep));
  }

  /** Text before the first occurrence is copied through unchanged. */
  lemma {:induction false} ReplaceKeepsPrefix(s: string, pat: string, rep: string, i: nat)
    requires pat != [] && OccursAt(s, pat, i) && NoneBefore(s, pat, i)
    ensures Replace(s, pat, rep) == s[..i] + Replace(s[i..], pat, rep)
    decreases i
  {
    if i == 0 {
      assert s[..0] == [] && s[0..] == s;
    } else {
      var t := s[1..];
      NoneBeforeShift(s, pat, i);
      ReplacePast(s, pat, rep);
      ReplaceKeepsPrefix(t, pat, rep, i - 1);
      PrefixShift(s, i);
      SuffixShift(s, i, 0);
      ReplaceGlue(Replace(s, pat, rep), Replace(t, pat, rep), s[0], t[..i - 1], Replace(s[i..], pat, rep), s[..i]);
    }
  }

  /** Moving past a first character that starts no occurrence. */
  lemma NoneBeforeShift(s: string, pat: string, i: nat)
    requires 0 < i && OccursAt(s, pat, i) && NoneBefore(s, pat, i)
    ensures |s| >= |pat| && !OccursAt(s, pat, 0)
    ensures OccursAt(s[1..], pat, i - 1) && NoneBefore(s[1..], pat, i - 1)
  {
    forall j: nat | j < i - 1 ensures !OccursAt(s[1..], pat, j) {
      ShiftedOccurrence(s, pat, j);
    }
    ShiftedOccurrence(s, pat, i - 1);
  }

  lemma SuffixShift(s: string, i: nat, n: nat)
    requires 1 <= i && i + n <= |s|
    ensures s[1..][i - 1 + n..] == s[i + n..]
  {
  }

  lemma PrefixShift(s: string, i: nat)
    requires 1 <= i <= |s|
    ensures [s[0]] + s[1..][..i - 1] == s[..i]
  {
  }

  lemma ReplaceGlue(whole: string, later: string, c: char, head: string, tail: string, before: string)
    requires whole == [c] + later && later == head + tail && before == [c] + head
    ensures whole == before + tail
  {
  }

  /** Cutting `s` at an occurrence leaves it at the start of what remains. */
  lemma OccurrenceStarts(s: string, pat: string, i: nat)
    requires OccursAt(s, pat, i)
    ensures OccursAt(s[i..], pat, 0) && s[i..][|pat|..] == s[i + |pat|..]
  {
    assert s[i..][..|pat|] == s[i..i + |pat|];
  }

  lemma ConcatAssociates(whole: string, before: string, later: string, rep: string, tail: string)
    requires whole == before + later && later == rep + tail
    ensures whole == before + rep + tail
  {
  }

  /** An occurrence at the start is replaced. */
  lemma ReplaceHere(s: string, pat: string, rep: string)
    requires pat != [] && OccursAt(s, pat, 0)
    ensures Replace(s, pat, rep) == rep + Replace(s[|pat|..], pat, rep)
  {
    assert s[..|pat|] == pat;
  }

  /** Without an occurrence at the start, the first character is kept. */
  lemma ReplacePast(s: string, pat: string, rep: string)
    requires pat != [] && |s| >= |pat| && !OccursAt(s, pat, 0)
    ensures Replace(s, pat, rep) == [s[0]] + Replace(s[1..], pat, rep)
  {
    assert s[..|pat|] != pat;
  }

  /** An occurrence in `s[1..]` is one in `s`, one place further on. */
  lemma ShiftedOccurrence(s: string, pat: string, j: nat)
    requires s != []
    ensures OccursAt(s[1..], pat, j) <==> OccursAt(s, pat, j + 1)
  {
    if j + 1 + |pat| <= |s| {
      assert s[1..][j..j + |pat|] == s[j + 1..j + 1 + |pat|];
    }
  }

  // ---------------------------------------------------------------------
  // '%d' and int()

  function DigitChar(d: nat): (c: char)
    requires d < 10
    ensures IsDigit(c)
  {
    (('0' as int) + d) as char
  }

  function DigitOf(c: char): nat
    requires IsDigit(c)
  {
    (c as int) - ('0' as int)
  }

  /** `int(s)` for a run of ASCII digits. */
  function DigitsValue(s: string): nat
    requires AllDigits(s)
  {
    if s == [] then 0 else 10 * DigitsValue(s[..|s| - 1]) + DigitOf(s[|s| - 1])
  }

  /** `'%d' % n` for a natural number. */
  function NatToString(n: nat): string {
    if n < 10 then [DigitChar(n)] else NatToString(n / 10) + [DigitChar(n % 10)]
  }

  /** The rendering is a non-empty run of digits without a leading zero that
      `int()` reads back as `n`. */
  lemma {:induction false} NatToStringSpec(n: nat)
    ensures var s := NatToString(n);
      && s != [] && AllDigits(s)
      && DigitsValue(s) == n
      && (|s| > 1 ==> s[0] != '0')
  {
    if n >= 10 {
      NatToStringSpec(n / 10);
      var s := NatToString(n);
      assert s[..|s| - 1] == NatToString(n / 10);
      assert s[0] == NatToString(n / 10)[0];
    }
  }

  /** `'%d' % i`. */
  function IntToString(i: int): string {
    if i < 0 then "-" + NatToString(-i) else NatToString(i)
  }

  /** A run of digits with an optional leading minus sign, as `-{0,1}\d+`
      matches it. */
  predicate IsSignedInt(s: string) {
    (|s| >= 1 && AllDigits(s)) || (|s| >= 2 && s[0] == '-' && AllDigits(s[1..]))
  }

  /** `int(s)` for a string matched by `-{0,1}\d+`. */
  function SignedValue(s: string): int
    requires IsSignedInt(s)
  {
    if s[0] == '-' then 0 - DigitsValue(s[1..]) else DigitsValue(s)
  }

  /** `int('%d' % i) == i`, and the rendering is matched by `-{0,1}\d+`. */
  lemma IntToStringRoundTrip(i: int)
    ensures IsSignedInt(IntToString(i))
    ensures SignedValue(IntToString(i)) == i
  {
    var s := IntToString(i);
    if i < 0 {
      NatToStringSpec(-i);
      assert s[1..] == NatToString(-i);
    } else {
      NatToStringSpec(i);
    }
  }

  // ---------------------------------------------------------------------
  // string order and sorted()

  /** Python 2 byte-string comparison `a < b`. */
  predicate Below(a: string, b: string) {
    if a == [] then b != []
    else if b == [] then false
    else if a[0] == b[0] then Below(a[1..], b[1..])
    else a[0] < b[0]
  }

  lemma {:induction false} BelowIrreflexive(a: string)
    ensures !Below(a, a)
  {
    if a != [] {
      BelowIrreflexive(a[1..]);
    }
  }

  lemma {:induction false} BelowTransitive(a: string, b: string, c: string)
    requires Below(a, b) && Below(b, c)
    ensures Below(a, c)
  {
    if a != [] && b != [] && c != [] && a[0] == b[0] && b[0] == c[0] {
      BelowTransitive(a[1..], b[1..], c[1..]);
    }
  }

  lemma {:induction false} BelowTotal(a: string, b: string)
    requires a != b
    ensures Below(a, b) || Below(b, a)
  {
    if a != [] && b != [] && a[0] == b[0] {
      assert a == [a[0]] + a[1..];
      assert b == [b[0]] + b[1..];
      BelowTotal(a[1..], b[1..]);
    }
  }

  lemma {:induction false} BelowAsymmetric(a: string, b: string)
    requires Below(a, b)
    ensures !Below(b, a)
  {
    if a != [] && b != [] && a[0] == b[0] {
      BelowAsymmetric(a[1..], b[1..]);
    }
  }

  /** Non-decreasing in string order. */
  predicate Sorted(s: seq<string>) {
    forall i, j :: 0 <= i < j < |s| ==> !Below(s[j], s[i])
  }

  /** Strictly increasing in string order: sorted and without repeats. */
  predicate StrictlySorted(s: seq<string>) {
    forall i, j :: 0 <= i < j < |s| ==> Below(s[i], s[j])
  }

  function Insert(x: string, s: seq<string>): (r: seq<string>)
    ensures multiset(r) == multiset(s) + multiset{x}
  {
    if s == [] then [x]
    else if Below(s[0], x) then
      assert s == [s[0]] + s[1..];
      [s[0]] + Insert(x, s[1..])
    else [x] + s
  }

  lemma {:induction false} InsertSorted(x: string, s: seq<string>)
    requires Sorted(s)
    ensures Sorted(Insert(x, s))
  {
    if s != [] && Below(s[0], x) {
      InsertSorted(x, s[1..]);
      var r := Insert(x, s);
      var tail := Insert(x, s[1..]);
      assert r == [s[0]] + tail;
      forall k | 0 <= k < |tail| ensures !Below(tail[k], s[0]) {
        assert tail[k] in multiset(tail);
        assert tail[k] in multiset(s[1..]) || tail[k] == x;
        if tail[k] == x {
          BelowAsymmetric(s[0], x);
        } else {
          var m :| 0 <= m < |s[1..]| && s[1..][m] == tail[k];
          assert s[1 + m] == tail[k];
        }
      }
    } else if s != [] {
      var r := Insert(x, s);
      assert r == [x] + s;
      forall j | 0 < j < |r| ensures !Below(r[j], x) {
        assert r[j] == s[j - 1];
        if Below(s[j - 1], x) {
          if j - 1 > 0 {
            assert !Below(s[j - 1], s[0]);
            if s[j - 1] != s[0] {
              BelowTotal(s[j - 1], s[0]);
              BelowTransitive(s[0], s[j - 1], x);
            }
          }
        }
      }
    }
  }

  /** `sorted(s)` on a list of strings (insertion sort; for strings equal
      elements are identical, so the stability of Python's sort is
      unobservable). */
  function Sort(s: seq<string>): seq<string> {
    if s == [] then [] else Insert(s[0], Sort(s[1..]))
  }

  /** `sorted` returns an ordered permutation of its argument. */
  lemma {:induction false} SortSpec(s: seq<string>)
    ensures Sorted(Sort(s))
    ensures multiset(Sort(s)) == multiset(s)
  {
    if s != [] {
      SortSpec(s[1..]);
      InsertSorted(s[0], Sort(s[1..]));
      assert s == [s[0]] + s[1..];
    }
  }

  lemma BelowAntisymmetric(a: string, b: string)
    requires !Below(a, b) && !Below(b, a)
    ensures a == b
  {
    if a != b {
      BelowTotal(a, b);
    }
  }

  /** The head of a sorted list is below none of its elements. */
  lemma SortedHead(s: seq<string>, x: string)
    requires Sorted(s) && x in s
    ensures !Below(x, s[0])
  {
    var k :| 0 <= k < |s| && s[k] == x;
    if k == 0 {
      BelowIrreflexive(x);
    }
  }

  /** Two sorted lists with the same elements are the same list: what
      `sorted` returns depends only on the multiset it is given, so the
      order in which a Python set is listed before sorting is unobservable. */
  lemma {:induction false} SortedUnique(a: seq<string>, b: seq<string>)
    requires Sorted(a) && Sorted(b)
    requires multiset(a) == multiset(b)
    ensures a == b
  {
    if a == [] {
      assert |b| == |multiset(b)| == 0;
    } else {
      assert |b| == |multiset(b)| == |multiset(a)| == |a|;
      assert a[0] in multiset(b);
      assert b[0] in multiset(a);
      SortedHead(b, a[0]);
      SortedHead(a, b[0]);
      BelowAntisymmetric(a[0], b[0]);
      assert a == [a[0]] + a[1..];
      assert b == [b[0]] + b[1..];
      assert multiset(a) == multiset{a[0]} + multiset(a[1..]);
      assert multiset(b) == multiset{b[0]} + multiset(b[1..]);
      assert multiset(a[1..]) == multiset(a) - multiset{a[0]};
      assert multiset(b[1..]) == multiset(b) - multiset{b[0]};
      SortedUnique(a[1..], b[1..]);
    }
  }

  predicate EndsWith(s: string, suffix: string) {
    |suffix| <= |s| && s[|s| - |suffix|..] == suffix
  }
}
