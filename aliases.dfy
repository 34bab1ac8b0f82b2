/** `solve_aliases` (units/conversions.py:155-189): the ordered literal alias
    replacements, then the rewriting of `a/b/c2` into `a b-1 c-2`. */
module Aliases {
  import opened Text
  import opened Outcomes
  import opened AtomPattern
  import Tables

  /** An alias table whose patterns can be searched for. */
  predicate Searchable(table: seq<(string, string)>) {
    forall k :: 0 <= k < |table| ==> table[k].0 != []
  }

  /** The replacements of `table` applied one after the other to `u`. */
  function ApplyAliases(u: string, table: seq<(string, string)>): string
    requires Searchable(table)
    decreases table
  {
    if table == [] then u else ApplyAliases(Replace(u, table[0].0, table[0].1), table[1..])
  }

  /** A piece after a `/`: `b`, `bN` or `kbN` becomes `b-N` or `kb-N`, the
      number `k` written only when it is not 1; an empty piece fails as
      `x[-1]` does. */
  function RewritePiece(p: string): (r: Result<string>)
    ensures r.Err? <==> p == []
    ensures r.Err? ==> r.error == EmptyPiece
  {
    var a :- AtomOf(p);
    Ok(Render(a))
  }

  /** `'%s%d' % (basis, -power)`, with `'%d' % factor` in front when the
      factor is not 1. */
  function Render(a: Atom): string {
    (if a.lead != 1 then NatToString(a.lead) else "") + a.basis + IntToString(-a.power)
  }

  /** A group keeps its first piece and has the others rewritten. */
  function RewriteGroup(g: seq<string>): Result<seq<string>>
    requires |g| >= 1
  {
    var t :- MapResult(RewritePiece, g[1..]);
    Ok([g[0]] + t)
  }

  predicate NonEmptyGroups(gs: seq<seq<string>>) {
    forall i :: 0 <= i < |gs| ==> |gs[i]| >= 1
  }

  /** `[uni.split('/') for uni in unit.split()]`. */
  function Groups(u: string): seq<seq<string>> {
    var ws := Words(u);
    seq(|ws|, i requires 0 <= i < |ws| => Pieces(ws[i], '/'))
  }

  lemma AliasTableSearchable()
    ensures Searchable(Tables.Aliases)
  {
  }

  /** The second half of `solve_aliases`: with a `/` present, the groups
      rewritten and joined again with single spaces. */
  function Unslashed(u: string): Result<string> {
    if '/' !in u then Ok(u)
    else
      var gs :- MapResult(RewriteGroup, Groups(u));
      Ok(Join(Flatten(gs), " "))
  }

  /** What `solve_aliases(unit)` returns, or the exception it raises. */
  function Resolved(unit: string): Result<string> {
    AliasTableSearchable();
    Unslashed(ApplyAliases(unit, Tables.Aliases))
  }

  // ---------------------------------------------------------------------
  // Characterisation of the rewriting

  /** A group fails exactly when one of its later pieces is empty; when it
      succeeds it has as many pieces, the first unchanged and every later
      one rewritten on its own. */
  lemma GroupPointwise(g: seq<string>)
    requires |g| >= 1
    ensures RewriteGroup(g).Ok? <==> forall m :: 1 <= m < |g| ==> g[m] != []
    ensures RewriteGroup(g).Err? ==> RewriteGroup(g).error == EmptyPiece
    ensures RewriteGroup(g).Ok? ==>
      && |RewriteGroup(g).value| == |g| && RewriteGroup(g).value[0] == g[0]
      && forall m :: 1 <= m < |g| ==> RewritePiece(g[m]) == Ok(RewriteGroup(g).value[m])
  {
    TailPointwise(RewritePiece, g);
  }

  /** `GroupPointwise` for any rewriting of pieces that fails exactly on
      the empty piece. */
  lemma TailPointwise(f: string -> Result<string>, g: seq<string>)
    requires |g| >= 1
    requires forall p :: f(p).Err? <==> p == []
    requires forall p :: f(p).Err? ==> f(p).error == EmptyPiece
    ensures var r := (var t :- MapResult(f, g[1..]); Ok([g[0]] + t));
      && (r.Ok? <==> forall m :: 1 <= m < |g| ==> g[m] != [])
      && (r.Err? ==> r.error == EmptyPiece)
      && (r.Ok? ==> |r.value| == |g| && r.value[0] == g[0] && forall m :: 1 <= m < |g| ==> f(g[m]) == Ok(r.value[m]))
  {
    var t := g[1..];
    MapResultPointwise(f, t);
    forall m | 1 <= m < |g| ensures g[m] == t[m - 1] {
    }
    if MapResult(f, t).Err? {
      var i :| 0 <= i < |t| && f(t[i]) == Err(MapResult(f, t).error);
      assert g[i + 1] == [];
    } else {
      var v := [g[0]] + MapResult(f, t).value;
      forall m | 1 <= m < |g| ensures f(g[m]) == Ok(v[m]) {
        assert v[m] == MapResult(f, t).value[m - 1];
      }
    }
  }

  /** What a group rewrites to is determined by the emptiness of its later
      pieces and the rewriting of each. */
  lemma KeepHeadOf(f: string -> Result<string>, g: seq<string>, r: Result<seq<string>>)
    requires |g| >= 1
    requires forall p :: f(p).Err? <==> p == []
    requires forall p :: f(p).Err? ==> f(p).error == EmptyPiece
    requires r.Ok? <==> forall k :: 1 <= k < |g| ==> g[k] != []
    requires r.Err? ==> r.error == EmptyPiece
    requires r.Ok? ==> |r.value| == |g| && r.value[0] == g[0]
    requires r.Ok? ==> forall k :: 1 <= k < |g| ==> f(g[k]) == Ok(r.value[k])
    ensures (var t :- MapResult(f, g[1..]); Ok([g[0]] + t)) == r
  {
    TailPointwise(f, g);
    var e := (var t :- MapResult(f, g[1..]); Ok([g[0]] + t));
    if r.Ok? {
      assert e.value == r.value by {
        forall k | 1 <= k < |g| ensures e.value[k] == r.value[k] {
          assert f(g[k]) == Ok(e.value[k]);
        }
      }
    }
  }

  lemma GroupOfPointwise(g: seq<string>, r: Result<seq<string>>)
    requires |g| >= 1
    requires r.Ok? <==> forall k :: 1 <= k < |g| ==> g[k] != []
    requires r.Err? ==> r.error == EmptyPiece
    requires r.Ok? ==> Rewritten(g, r.value, |g|) && r.value[0] == g[0]
    ensures r == RewriteGroup(g)
  {
    KeepHeadOf(RewritePiece, g, r);
  }

  /** Each later piece `b`, `bN` or `kbN` (digits `k`, a name `b` without
      digits, a signed integer `N`) becomes `b` with the power `-N`, `N`
      being 1 when absent, and `k` written in front only when its value is
      not 1. */
  lemma PieceRegular(ds: string, b: string, ps: string)
    requires AllDigits(ds) && PlainName(b)
    requires ps == [] || IsSignedInt(ps)
    ensures var n := if ps == [] then 1 else SignedValue(ps);
      var k := if ds == [] then 1 else DigitsValue(ds);
      RewritePiece(ds + b + ps) == Ok(Render(Atom(k, b, n)))
  {
    AtomOfRegular(ds, b, ps);
    RewriteOfAtom(ds + b + ps, Atom(if ds == [] then 1 else DigitsValue(ds), b, if ps == [] then 1 else SignedValue(ps)));
  }

  lemma RewriteOfAtom(p: string, a: Atom)
    requires AtomOf(p) == Ok(a)
    ensures RewritePiece(p) == Ok(Render(a))
  {
  }

  // ---------------------------------------------------------------------
  // No '/' survives

  lemma {:induction false} JoinAvoids(ts: seq<string>, sep: string, c: char)
    requires c !in sep
    requires forall k :: 0 <= k < |ts| ==> c !in ts[k]
    ensures c !in Join(ts, sep)
  {
    if |ts| > 1 {
      JoinAvoids(ts[1..], sep, c);
    }
  }

  lemma {:induction false} FlattenAvoids(tss: seq<seq<string>>, c: char)
    requires forall i, m :: 0 <= i < |tss| && 0 <= m < |tss[i]| ==> c !in tss[i][m]
    ensures forall k :: 0 <= k < |Flatten(tss)| ==> c !in Flatten(tss)[k]
  {
    if tss != [] {
      FlattenAvoids(tss[1..], c);
      var rest := Flatten(tss[1..]);
      forall k | 0 <= k < |Flatten(tss)| ensures c !in Flatten(tss)[k] {
        if k >= |tss[0]| {
          assert Flatten(tss)[k] == rest[k - |tss[0]|];
        }
      }
    }
  }

  lemma ParseBasisAvoids(s: string, c: char)
    requires c !in s
    ensures c !in Parse(s).basis
  {
    match SearchFrom(s, 0)
    case None =>
    case Some(m) =>
      ParseOfMatch(s, m);
      var basis := Parse(s).basis;
      forall j | 0 <= j < |basis| ensures basis[j] != c {
        assert basis[j] == s[m.start + m.lead + j];
      }
  }

  lemma RenderingAvoidsSlash(n: nat, i: int)
    ensures '/' !in NatToString(n) && '/' !in IntToString(i)
  {
    NatToStringSpec(n);
    var s := NatToString(n);
    assert forall j :: 0 <= j < |s| ==> IsDigit(s[j]);
    NatToStringSpec(if i < 0 then -i else i);
    var t := NatToString(if i < 0 then -i else i);
    assert forall j :: 0 <= j < |t| ==> IsDigit(t[j]);
  }

  lemma PieceAvoidsSlash(p: string)
    requires '/' !in p && RewritePiece(p).Ok?
    ensures '/' !in RewritePiece(p).value
  {
    var w := WithPower(p);
    assert '/' !in w;
    ParseBasisAvoids(w, '/');
    var a := Parse(w);
    RenderingAvoidsSlash(a.lead, -a.power);
  }

  lemma GroupAvoidsSlash(g: seq<string>)
    requires |g| >= 1 && RewriteGroup(g).Ok?
    requires forall m :: 0 <= m < |g| ==> '/' !in g[m]
    ensures |RewriteGroup(g).value| == |g|
    ensures forall m :: 0 <= m < |g| ==> '/' !in RewriteGroup(g).value[m]
  {
    GroupPointwise(g);
    var h := RewriteGroup(g).value;
    forall m | 1 <= m < |g| ensures '/' !in h[m] {
      PieceAvoidsSlash(g[m]);
    }
  }

  /** Rewriting the groups fails exactly when some later piece is empty, and
      then with `IndexError`. */
  lemma GroupsPointwise(gs: seq<seq<string>>)
    requires NonEmptyGroups(gs)
    ensures MapResult(RewriteGroup, gs).Ok? <==>
      forall i, m :: 0 <= i < |gs| && 1 <= m < |gs[i]| ==> gs[i][m] != []
    ensures MapResult(RewriteGroup, gs).Err? ==> MapResult(RewriteGroup, gs).error == EmptyPiece
    ensures MapResult(RewriteGroup, gs).Ok? ==>
      && |MapResult(RewriteGroup, gs).value| == |gs|
      && forall i :: 0 <= i < |gs| ==> RewriteGroup(gs[i]) == Ok(MapResult(RewriteGroup, gs).value[i])
  {
    MapResultPointwise(RewriteGroup, gs);
    forall i | 0 <= i < |gs|
      ensures RewriteGroup(gs[i]).Ok? <==> forall m :: 1 <= m < |gs[i]| ==> gs[i][m] != []
      ensures RewriteGroup(gs[i]).Err? ==> RewriteGroup(gs[i]).error == EmptyPiece
    {
      GroupPointwise(gs[i]);
    }
  }

  /** The slash rewriting leaves no `/` behind. */
  lemma NoSlashUnslashed(u: string)
    requires Unslashed(u).Ok?
    ensures '/' !in Unslashed(u).value
  {
    if '/' in u {
      var gs := Groups(u);
      GroupsPointwise(gs);
      var hs := MapResult(RewriteGroup, gs).value;
      forall i, m | 0 <= i < |hs| && 0 <= m < |hs[i]| ensures '/' !in hs[i][m] {
        GroupAvoidsSlash(gs[i]);
      }
      FlattenAvoids(hs, '/');
      JoinAvoids(Flatten(hs), " ", '/');
    }
  }

  /** `solve_aliases` leaves no `/` in what it returns. */
  lemma NoSlashResolved(unit: string)
    requires Resolved(unit).Ok?
    ensures '/' !in Resolved(unit).value
  {
    AliasTableSearchable();
    NoSlashUnslashed(ApplyAliases(unit, Tables.Aliases));
  }

  // ---------------------------------------------------------------------
  // The structure of the result

  /** With a `/` present, the rewriting fails exactly when a piece after a
      `/` is empty, with `IndexError`; otherwise it returns the space-joined
      groups, each keeping its first `/`-piece verbatim and holding every
      later piece rewritten. */
  lemma UnslashedGroups(u: string)
    requires '/' in u
    ensures var gs := Groups(u);
      && (Unslashed(u).Err? <==> exists i, m :: 0 <= i < |gs| && 1 <= m < |gs[i]| && gs[i][m] == [])
      && (Unslashed(u).Err? ==> Unslashed(u).error == EmptyPiece)
      && (Unslashed(u).Ok? ==> exists hs: seq<seq<string>> ::
        && Unslashed(u).value == Join(Flatten(hs), " ")
        && |hs| == |gs|
        && forall i :: 0 <= i < |gs| ==>
          && |hs[i]| == |gs[i]| && hs[i][0] == gs[i][0]
          && forall m :: 1 <= m < |gs[i]| ==> RewritePiece(gs[i][m]) == Ok(hs[i][m]))
  {
    var gs := Groups(u);
    GroupsPointwise(gs);
    if MapResult(RewriteGroup, gs).Ok? {
      var hs := MapResult(RewriteGroup, gs).value;
      forall i | 0 <= i < |gs|
        ensures |hs[i]| == |gs[i]| && hs[i][0] == gs[i][0]
        ensures forall m :: 1 <= m < |gs[i]| ==> RewritePiece(gs[i][m]) == Ok(hs[i][m])
      {
        GroupPointwise(gs[i]);
      }
    }
  }

  /** A unit with no alias and no `/` in it comes back unchanged. */
  lemma {:induction false} AliasesLeaveAlone(u: string, table: seq<(string, string)>)
    requires Searchable(table)
    requires forall k :: 0 <= k < |table| ==> !Occurs(table[k].0, u)
    ensures ApplyAliases(u, table) == u
  {
    if table != [] {
      ReplaceAbsent(u, table[0].0, table[0].1);
      forall k | 0 <= k < |table[1..]| ensures !Occurs(table[1..][k].0, u) {
        assert table[1..][k] == table[k + 1];
      }
      AliasesLeaveAlone(u, table[1..]);
    }
  }

  lemma PlainUnitResolved(u: string)
    requires '/' !in u
    requires forall k :: 0 <= k < |Tables.Aliases| ==> !Occurs(Tables.Aliases[k].0, u)
    ensures Resolved(u) == Ok(u)
  {
    AliasTableSearchable();
    AliasesLeaveAlone(u, Tables.Aliases);
  }

  /** The characters of which every alias pattern holds at least one. */
  predicate IsMark(c: char) {
    c == 'a' || c == 'i' || c == 'o' || c == 'y' || c == 'z' || c == '^' || c == '*' || c == '/'
  }

  /** The first position of `pat` holding a mark, or `|pat|`. */
  function MarkAt(pat: string): (c: nat)
    ensures c <= |pat|
    ensures c < |pat| ==> IsMark(pat[c])
  {
    if pat == [] then 0
    else if IsMark(pat[0]) then 0
    else 1 + MarkAt(pat[1..])
  }

  /** A unit without marks is returned unchanged: no alias pattern occurs
      in it and it has no `/`. */
  lemma UnmarkedResolved(u: string)
    requires forall i :: 0 <= i < |u| ==> !IsMark(u[i])
    ensures Resolved(u) == Ok(u)
  {
    AliasesMarked();
    forall k | 0 <= k < |Tables.Aliases| ensures !Occurs(Tables.Aliases[k].0, u) {
      var pat := Tables.Aliases[k].0;
      CharAbsent(pat, u, MarkAt(pat));
    }
    PlainUnitResolved(u);
  }

  /** Every pattern of `_aliases` holds a mark. */
  lemma AliasesMarked()
    ensures forall k :: 0 <= k < |Tables.Aliases| ==> MarkAt(Tables.Aliases[k].0) < |Tables.Aliases[k].0|
  {
    PrefixAliasesMarked();
    UnitAliasesMarked();
  }

  /** The patterns that spell out a prefix or a unit name. */
  lemma PrefixAliasesMarked()
    ensures forall k :: 0 <= k < 12 ==> MarkAt(Tables.Aliases[k].0) < |Tables.Aliases[k].0|
  {
  }

  lemma UnitAliasesMarked()
    ensures forall k :: 12 <= k < |Tables.Aliases| ==> MarkAt(Tables.Aliases[k].0) < |Tables.Aliases[k].0|
  {
  }

  // ---------------------------------------------------------------------
  // The imperative procedure

  lemma {:induction false} FlattenSnoc(tss: seq<seq<string>>, ts: seq<string>)
    ensures Flatten(tss + [ts]) == Flatten(tss) + ts
  {
    if tss != [] {
      assert (tss + [ts])[1..] == tss[1..] + [ts];
      FlattenSnoc(tss[1..], ts);
    }
  }

  lemma AliasStep(u: string, table: seq<(string, string)>, k: nat)
    requires k < |table| && Searchable(table[k..])
    ensures Searchable(table[k + 1..])
    ensures ApplyAliases(u, table[k..]) == ApplyAliases(Replace(u, table[k].0, table[k].1), table[k + 1..])
  {
    assert table[k..][1..] == table[k + 1..];
  }

  lemma ConcatAssoc(x: string, y: string, z: string)
    ensures x + (y + z) == x + y + z
  {
  }

  lemma ConcatEmpty(x: string)
    ensures "" + x == x
  {
  }

  /** One piece after a `/`, as the body of the inner loop of
      `solve_aliases` rewrites it: the negated power, and the leading number
      in front when it is not 1. */
  method RewritePieceStep(afterDiv: string) returns (piece: string)
    requires afterDiv != []
    ensures RewritePiece(afterDiv) == Ok(piece)
  {
    var a := Parse(WithPower(afterDiv));
    piece := a.basis + IntToString(-a.power);
    if a.lead != 1 {
      piece := NatToString(a.lead) + piece;
    }
    Rendered(a, piece);
    RewriteOfAtom(afterDiv, a);
  }

  /** The two statements of the loop body build `Render(a)`. */
  lemma Rendered(a: Atom, piece: string)
    requires a.lead != 1 ==> piece == NatToString(a.lead) + (a.basis + IntToString(-a.power))
    requires a.lead == 1 ==> piece == a.basis + IntToString(-a.power)
    ensures Render(a) == piece
  {
    if a.lead != 1 {
      ConcatAssoc(NatToString(a.lead), a.basis, IntToString(-a.power));
    } else {
      ConcatEmpty(a.basis);
    }
  }

  /** The first `n` pieces of `h` are those of `g` with every piece after
      the first rewritten. */
  predicate Rewritten(g: seq<string>, h: seq<string>, n: nat) {
    && |h| == |g| && n <= |g|
    && forall k :: 1 <= k < n ==> RewritePiece(g[k]) == Ok(h[k])
  }

  /** Rewriting one more piece in place. */
  lemma RewrittenStep(g: seq<string>, h: seq<string>, n: nat, piece: string)
    requires 1 <= n < |g| && Rewritten(g, h, n)
    requires RewritePiece(g[n]) == Ok(piece)
    ensures Rewritten(g, h[n := piece], n + 1)
  {
  }

  /** The inner loop of `solve_aliases`: every piece after the first is
      overwritten in place by its rewriting; an empty piece stops
      everything. */
  method RewriteGroupInPlace(uni0: seq<string>) returns (r: Result<seq<string>>)
    requires |uni0| >= 1
    ensures r.Ok? <==> forall k :: 1 <= k < |uni0| ==> uni0[k] != []
    ensures r.Err? ==> r.error == EmptyPiece
    ensures r.Ok? ==> Rewritten(uni0, r.value, |uni0|) && r.value[0] == uni0[0]
  {
    var uni := uni0;
    var tail := uni[1..];
    for j := 0 to |tail|
      invariant Rewritten(uni0, uni, 1 + j) && uni[0] == uni0[0]
      invariant forall k :: 1 <= k < 1 + j ==> uni0[k] != []
    {
      var afterDiv := tail[j];
      assert afterDiv == uni0[1 + j];
      if afterDiv == [] {
        return Err(EmptyPiece);
      }
      var piece := RewritePieceStep(afterDiv);
      RewrittenStep(uni0, uni, 1 + j, piece);
      uni := uni[1 + j := piece];
    }
    return Ok(uni);
  }

  /** The outer loop of `solve_aliases`: each group of `unit_` replaced by
      its rewritten form, in order. */
  method RewriteAllGroups(groups: seq<seq<string>>) returns (r: Result<seq<seq<string>>>)
    requires NonEmptyGroups(groups)
    ensures r == MapResult(RewriteGroup, groups)
  {
    var unit_ := groups;
    for i := 0 to |unit_|
      invariant |unit_| == |groups|
      invariant forall k :: i <= k < |groups| ==> unit_[k] == groups[k]
      invariant forall k :: 0 <= k < i ==> RewriteGroup(groups[k]) == Ok(unit_[k])
    {
      var g := RewriteGroupInPlace(unit_[i]);
      GroupOfPointwise(groups[i], g);
      if g.Err? {
        MapResultFirstErr(RewriteGroup, groups, i);
        return Err(g.error);
      }
      unit_ := unit_[i := g.value];
    }
    MapResultAllOk(RewriteGroup, groups, unit_);
    return Ok(unit_);
  }

  /** The second half of `solve_aliases`: when the unit holds a `/`, its
      groups rewritten in place and `ravelled` extended group by group. */
  method Unslash(unit: string) returns (r: Result<string>)
    ensures r == Unslashed(unit)
  {
    if '/' !in unit {
      return Ok(unit);
    }
    var unit_ :- RewriteAllGroups(Groups(unit));
    var ravelled := Ravel(unit_);
    return Ok(Join(ravelled, " "));
  }

  /** `ravelled += uni` for each group in turn. */
  method Ravel(unit_: seq<seq<string>>) returns (ravelled: seq<string>)
    ensures ravelled == Flatten(unit_)
  {
    ravelled := [];
    for i := 0 to |unit_|
      invariant ravelled == Flatten(unit_[..i])
    {
      FlattenSnoc(unit_[..i], unit_[i]);
      assert unit_[..i + 1] == unit_[..i] + [unit_[i]];
      ravelled := ravelled + unit_[i];
    }
    assert unit_[..|unit_|] == unit_;
  }

  /** `solve_aliases`: the alias loop reassigning `unit`, then the slashes. */
  method SolveAliases(unit0: string) returns (r: Result<string>)
    ensures r == Resolved(unit0)
  {
    var table := Tables.Aliases;
    AliasTableSearchable();
    var unit := unit0;
    for k := 0 to |table|
      invariant Searchable(table[k..])
      invariant ApplyAliases(unit, table[k..]) == ApplyAliases(unit0, table)
    {
      var alias := table[k];
      AliasStep(unit, table, k);
      unit := Replace(unit, alias.0, alias.1);
    }
    assert table[|table|..] == [];
    r := Unslash(unit);
  }
}
