/** `convert` (units/conversions.py:9-151): a value in one unit expressed in
    another. Both units are reduced with `breakdown`; equal signatures are a
    matter of scaling, different ones go through the change-of-base function
    of `_switch` whose key names the tokens only one side has. */
module Conversion {
  import opened Text
  import opened Tables
  import opened Outcomes
  import opened Converters
  import opened Switches
  import Reduction
  import ReductionExamples

  /** One keyword argument `key=(value, unit)`. */
  datatype Keyword = Keyword(key: string, value: real, unit: string)

  /** A function that reduces a unit, as `breakdown` does. */
  type Reducer = string -> Result<(Factor, string)>

  /** `breakdown` with the registry and the constants fixed. */
  function Reduce(t: Registry, k: Physics): Reducer {
    unit => Reduction.Breakdown(t, unit, k)
  }

  // ---------------------------------------------------------------------
  // The keyword arguments

  /** A keyword whose unit reduces to a number. */
  predicate Convertible(reduce: Reducer, kw: Keyword) {
    reduce(kw.unit).Ok? && reduce(kw.unit).value.0.Linear?
  }

  /** The error a keyword that does not convert raises: its reduction's,
      or `TypeError` for a converter times a number. */
  function FailureOf(reduce: Reducer, kw: Keyword): Error {
    if reduce(kw.unit).Err? then reduce(kw.unit).error else OperandType
  }

  /** `fac_key * value` for one keyword, after `breakdown(unit)`. */
  function Scaled(reduce: Reducer, kw: Keyword): (r: Result<real>)
    ensures r.Ok? <==> Convertible(reduce, kw)
    ensures r.Err? ==> r.error == FailureOf(reduce, kw)
    ensures r.Ok? ==> r.value == reduce(kw.unit).value.0.r * kw.value
  {
    var reduced :- reduce(kw.unit);
    var v :- Times(reduced.0, Linear(kw.value));
    Ok(v.r)
  }

  /** `kwargs_SI` after the loop over the keyword arguments, taken in the
      order given: each unit is reduced and its factor multiplies the value;
      a later keyword of the same name overwrites an earlier one. */
  function KwargsSI(reduce: Reducer, kwargs: seq<Keyword>): (r: Result<Kwargs>)
    decreases |kwargs|
  {
    if kwargs == [] then Ok(map[])
    else
      var before :- KwargsSI(reduce, kwargs[..|kwargs| - 1]);
      var last := kwargs[|kwargs| - 1];
      var v :- Scaled(reduce, last);
      Ok(before[last.key := v])
  }

  /** No later keyword has the same name. */
  predicate LastOfName(kwargs: seq<Keyword>, i: nat)
    requires i < |kwargs|
  {
    forall j :: i < j < |kwargs| ==> kwargs[j].key != kwargs[i].key
  }

  /** The names of `convert`'s own positional parameters. */
  predicate Reserved(key: string) {
    key == "_from" || key == "_to"
  }

  /** No keyword is named `_from` or `_to`. */
  predicate Unreserved(kwargs: seq<Keyword>) {
    forall i :: 0 <= i < |kwargs| ==> !Reserved(kwargs[i].key)
  }

  /** Keyword `i` is the first named `_from` or `_to`. */
  predicate FirstReserved(kwargs: seq<Keyword>, i: nat)
    requires i < |kwargs|
  {
    Reserved(kwargs[i].key) && forall j :: 0 <= j < i ==> !Reserved(kwargs[j].key)
  }

  /** The first keyword, in the order given, that `convert(_from, _to,
      *args, **kwargs)` cannot bind because its name is that of a
      positional parameter. */
  function ReservedKey(kwargs: seq<Keyword>): (r: Option<string>)
    ensures r.None? <==> Unreserved(kwargs)
    ensures r.Some? ==> exists i :: 0 <= i < |kwargs| && FirstReserved(kwargs, i) && kwargs[i].key == r.value
  {
    if kwargs == [] then None
    else if Reserved(kwargs[0].key) then Some(kwargs[0].key)
    else
      var r := ReservedKey(kwargs[1..]);
      assert forall i :: 0 < i < |kwargs| ==> kwargs[i] == kwargs[1..][i - 1];
      assert r.Some? ==> exists i :: 0 <= i < |kwargs| && FirstReserved(kwargs, i) && kwargs[i].key == r.value by {
        if r.Some? {
          var i :| 0 <= i < |kwargs[1..]| && FirstReserved(kwargs[1..], i) && kwargs[1..][i].key == r.value;
          assert FirstReserved(kwargs, i + 1) && kwargs[i + 1].key == r.value;
        }
      }
      r
  }

  // ---------------------------------------------------------------------
  // The key into `_switch`

  /** The distinct elements of `a` that `b` lacks: `set(a) - set(b)` listed
      in order of first appearance. */
  function Minus(a: seq<string>, b: seq<string>): (r: seq<string>)
    ensures forall x :: x in r <==> x in a && x !in b
    ensures forall i, j :: 0 <= i < j < |r| ==> r[i] != r[j]
    decreases |a|
  {
    if a == [] then []
    else
      var rest := Minus(a[..|a| - 1], b);
      var x := a[|a| - 1];
      assert forall y :: y in a <==> y in a[..|a| - 1] || y == x;
      if x in b || x in rest then rest else rest + [x]
  }

  /** `sorted(list(set(a.split()) - set(b.split())))`. */
  function OnlyTokens(a: string, b: string): seq<string> {
    Sort(Minus(Words(a), Words(b)))
  }

  /** `only_from` or `only_to`: the tokens concatenated without spaces. */
  function Only(a: string, b: string): string {
    Join(OnlyTokens(a, b), "")
  }

  /** `s[-4:] == 'sr-1'`. */
  predicate EndsSr(s: string) {
    |s| >= 4 && s[|s| - 4..] == "sr-1"
  }

  /** `s[:-4]` after a trailing `sr-1`, or `s` unchanged. */
  function Peeled(s: string): (r: string)
    ensures EndsSr(s) ==> r + "sr-1" == s
    ensures !EndsSr(s) ==> r == s
  {
    if EndsSr(s) then s[..|s| - 4] else s
  }

  /** `'%s_to_%s' % (only_from, only_to)`. */
  function SwitchKey(from: string, to: string): string {
    from + "_to_" + to
  }

  /** The route between two different signatures: whether `per_sr` runs,
      whether `times_sr` runs, and the key of the final change of base. */
  datatype Route = Route(perSr: bool, timesSr: bool, key: string)

  function RouteOf(uniFrom: string, uniTo: string): Route {
    var onlyFrom := Only(uniFrom, uniTo);
    var onlyTo := Only(uniTo, uniFrom);
    Route(EndsSr(onlyTo), EndsSr(onlyFrom), SwitchKey(Peeled(onlyFrom), Peeled(onlyTo)))
  }

  /** A change-of-base function of `_switch`, called with the value and the
      keyword arguments in SI. */
  type Changer = (real, Kwargs) -> Result<real>

  /** `_switch` with the physical constants fixed: the same keys, each
      naming its function. */
  function Board(sw: map<string, Switch>, k: Physics): (board: map<string, Changer>)
    ensures board.Keys == sw.Keys
  {
    map key | key in sw :: (x: real, kw: Kwargs) => Bound(sw[key], x, kw, k)
  }

  /** `f(x, **kw)` for a function `f(arg, **kwargs)` of `_switch`: a keyword
      named `arg` clashes with the value passed by position. */
  function Bound(s: Switch, x: real, kw: Kwargs, k: Physics): Result<real> {
    if "arg" in kw then Err(KeywordClash("arg")) else Apply(s, x, kw, k)
  }

  /** `_switch[key](arg, **kwargs_SI)`; an absent key raises `KeyError`. */
  function Call(board: map<string, Changer>, key: string, arg: real, kw: Kwargs): Result<real> {
    if key in board then board[key](arg, kw) else Err(UnsupportedConversion(key))
  }

  // ---------------------------------------------------------------------
  // The two branches and the whole

  /** Equal signatures: a converter on the source side is applied to the
      value and the result divided by the target factor; one on the target
      side is applied inversely to the scaled value; otherwise the value is
      scaled by `fac_from / fac_to`. */
  function SameBase(from: Factor, to: Factor, arg: real, mag: MagMaths): Result<real> {
    if from.NonLinear? then
      var q :- Divide(Linear(Forward(from, arg, mag)), to);
      Ok(q.r)
    else if to.NonLinear? then Inverse(to, from.r * arg, mag)
    else Quotient(from.r * arg, to.r)
  }

  /** The two solid-angle steps on the raw value: `per_sr` when the target
      side ends in `sr-1`, then `times_sr` when the source side does. */
  function Prepared(board: map<string, Changer>, route: Route, arg: real, kw: Kwargs): Result<real> {
    var a1 :- if route.perSr then Call(board, "_to_sr-1", arg, kw) else Ok(arg);
    if route.timesSr then Call(board, "sr-1_to_", a1, kw) else Ok(a1)
  }

  /** Different signatures: the solid-angle steps, then the keyed function
      on `fac_from` times the value, divided by `fac_to`. The key is looked
      up before the product is formed. */
  function Switched(board: map<string, Changer>, from: Factor, to: Factor, uniFrom: string, uniTo: string, arg: real, kw: Kwargs): Result<real> {
    var route := RouteOf(uniFrom, uniTo);
    var a :- Prepared(board, route, arg, kw);
    if route.key !in board then Err(UnsupportedConversion(route.key))
    else
      var x :- Times(from, Linear(a));
      var y :- board[route.key](x.r, kw);
      var q :- Divide(Linear(y), to);
      Ok(q.r)
  }

  /** `convert(_from, _to, arg, **kwargs)`: a keyword named `_from` or `_to`
      fails the call itself; then the source is reduced, then the
      target (`'SI'` stands for the source's own signature with factor 1),
      then the keyword arguments, and only then is the branch chosen. */
  function Convert(reduce: Reducer, board: map<string, Changer>, from: string, to: string, arg: real, kwargs: seq<Keyword>, mag: MagMaths): Result<real> {
    if ReservedKey(kwargs).Some? then Err(KeywordClash(ReservedKey(kwargs).value))
    else
      var source :- reduce(from);
      var target :- if to != "SI" then reduce(to) else Ok((Linear(1.0), source.1));
      var kw :- KwargsSI(reduce, kwargs);
      if source.1 == target.1 then SameBase(source.0, target.0, arg, mag)
      else Switched(board, source.0, target.0, source.1, target.1, arg, kw)
  }

  /** `convert` step by step with the module's own tables: the source
      unit, then the target unit, then the keyword arguments, then the
      branch. */
  method ConvertOf(t: Registry, k: Physics, from: string, to: string, arg: real, kwargs: seq<Keyword>, mag: MagMaths) returns (r: Result<real>)
    ensures r == Convert(Reduce(t, k), Board(t.switchboard, k), from, to, arg, kwargs, mag)
  {
    var clash := ReservedKey(kwargs);
    if clash.Some? {
      return Err(KeywordClash(clash.value));
    }
    var source := Reduction.BreakdownOf(t, from, k);
    if source.Err? {
      return Err(source.error);
    }
    var target: Result<(Factor, string)>;
    if to != "SI" {
      target := Reduction.BreakdownOf(t, to, k);
      if target.Err? {
        return Err(target.error);
      }
    } else {
      target := Ok((Linear(1.0), source.value.1));
    }
    var kw := KwargsOf(Reduce(t, k), kwargs);
    if kw.Err? {
      return Err(kw.error);
    }
    if source.value.1 == target.value.1 {
      r := SameBase(source.value.0, target.value.0, arg, mag);
    } else {
      r := Switched(Board(t.switchboard, k), source.value.0, target.value.0, source.value.1, target.value.1, arg, kw.value);
    }
  }

  // ---------------------------------------------------------------------
  // Properties of the keyword loop

  /** Keyword `i` is the first that does not convert. */
  predicate FirstFailure(reduce: Reducer, kwargs: seq<Keyword>, i: nat)
    requires i < |kwargs|
  {
    !Convertible(reduce, kwargs[i]) && forall j :: 0 <= j < i ==> Convertible(reduce, kwargs[j])
  }

  /** One more pass of the loop. */
  lemma KwargsStep(reduce: Reducer, kwargs: seq<Keyword>)
    requires kwargs != []
    ensures var n := |kwargs| - 1;
      KwargsSI(reduce, kwargs) ==
        if KwargsSI(reduce, kwargs[..n]).Err? then KwargsSI(reduce, kwargs[..n])
        else if !Convertible(reduce, kwargs[n]) then Err(FailureOf(reduce, kwargs[n]))
        else Ok(KwargsSI(reduce, kwargs[..n]).value[kwargs[n].key := Scaled(reduce, kwargs[n]).value])
  {
  }

  /** The loop succeeds exactly when every keyword's unit reduces to a
      number. */
  lemma {:induction false} KwargsOk(reduce: Reducer, kwargs: seq<Keyword>)
    ensures KwargsSI(reduce, kwargs).Ok? <==> forall i :: 0 <= i < |kwargs| ==> Convertible(reduce, kwargs[i])
    decreases |kwargs|
  {
    if kwargs != [] {
      var n := |kwargs| - 1;
      KwargsStep(reduce, kwargs);
      KwargsOk(reduce, kwargs[..n]);
      assert forall i :: 0 <= i < n ==> kwargs[..n][i] == kwargs[i];
    }
  }

  /** Otherwise the first keyword that does not convert decides the error. */
  lemma {:induction false} KwargsFailure(reduce: Reducer, kwargs: seq<Keyword>)
    ensures KwargsSI(reduce, kwargs).Err? ==>
      exists i :: 0 <= i < |kwargs| && FirstFailure(reduce, kwargs, i) && KwargsSI(reduce, kwargs).error == FailureOf(reduce, kwargs[i])
    decreases |kwargs|
  {
    if kwargs != [] {
      var n := |kwargs| - 1;
      var init := kwargs[..n];
      KwargsStep(reduce, kwargs);
      KwargsFailure(reduce, init);
      KwargsOk(reduce, init);
      if KwargsSI(reduce, init).Err? {
        var i :| 0 <= i < n && FirstFailure(reduce, init, i) && KwargsSI(reduce, init).error == FailureOf(reduce, init[i]);
        assert init[i] == kwargs[i];
        assert forall j :: 0 <= j < i ==> init[j] == kwargs[j];
        assert FirstFailure(reduce, kwargs, i);
      } else if !Convertible(reduce, kwargs[n]) {
        assert forall j :: 0 <= j < n ==> init[j] == kwargs[j];
        assert FirstFailure(reduce, kwargs, n);
      }
    }
  }

  /** On success the map holds exactly the keywords given. */
  lemma {:induction false} KwargsKeys(reduce: Reducer, kwargs: seq<Keyword>)
    ensures KwargsSI(reduce, kwargs).Ok? ==> forall key ::
      key in KwargsSI(reduce, kwargs).value <==> (exists i :: 0 <= i < |kwargs| && kwargs[i].key == key)
    decreases |kwargs|
  {
    if kwargs != [] && KwargsSI(reduce, kwargs).Ok? {
      var n := |kwargs| - 1;
      var init := kwargs[..n];
      KwargsStep(reduce, kwargs);
      KwargsKeys(reduce, init);
      var r := KwargsSI(reduce, kwargs).value;
      var before := KwargsSI(reduce, init).value;
      assert r.Keys == before.Keys + {kwargs[n].key};
      forall key ensures key in r <==> (exists i :: 0 <= i < |kwargs| && kwargs[i].key == key) {
        if key in before {
          var i :| 0 <= i < n && init[i].key == key;
          assert kwargs[i].key == key;
        }
        if key != kwargs[n].key && (exists i :: 0 <= i < |kwargs| && kwargs[i].key == key) {
          var i :| 0 <= i < |kwargs| && kwargs[i].key == key;
          assert i < n && init[i].key == key;
        }
      }
    }
  }

  /** On success each keyword's entry is the value of the last keyword of
      that name times the factor of its unit. */
  lemma {:induction false} KwargsValues(reduce: Reducer, kwargs: seq<Keyword>)
    ensures KwargsSI(reduce, kwargs).Ok? ==> forall i :: 0 <= i < |kwargs| && LastOfName(kwargs, i) ==>
      Convertible(reduce, kwargs[i]) && kwargs[i].key in KwargsSI(reduce, kwargs).value &&
      KwargsSI(reduce, kwargs).value[kwargs[i].key] == reduce(kwargs[i].unit).value.0.r * kwargs[i].value
    decreases |kwargs|
  {
    if kwargs != [] && KwargsSI(reduce, kwargs).Ok? {
      var n := |kwargs| - 1;
      var init := kwargs[..n];
      KwargsStep(reduce, kwargs);
      KwargsValues(reduce, init);
      KwargsOk(reduce, kwargs);
      var r := KwargsSI(reduce, kwargs).value;
      forall i | 0 <= i < |kwargs| && LastOfName(kwargs, i)
        ensures Convertible(reduce, kwargs[i]) && kwargs[i].key in r && r[kwargs[i].key] == reduce(kwargs[i].unit).value.0.r * kwargs[i].value
      {
        if i < n {
          assert kwargs[n].key != kwargs[i].key;
          assert init[i] == kwargs[i];
          assert LastOfName(init, i) by {
            forall j | i < j < n ensures init[j].key != init[i].key {
              assert init[j] == kwargs[j];
            }
          }
        }
      }
    }
  }

  /** Once a prefix of the keywords fails, the loop fails with its error. */
  lemma {:induction false} KwargsFailurePersists(reduce: Reducer, kwargs: seq<Keyword>, i: nat)
    requires i <= |kwargs| && KwargsSI(reduce, kwargs[..i]).Err?
    ensures KwargsSI(reduce, kwargs) == KwargsSI(reduce, kwargs[..i])
    decreases |kwargs|
  {
    if i < |kwargs| {
      var n := |kwargs| - 1;
      assert kwargs[..n][..i] == kwargs[..i];
      KwargsFailurePersists(reduce, kwargs[..n], i);
      KwargsStep(reduce, kwargs);
    } else {
      assert kwargs[..i] == kwargs;
    }
  }

  /** The loop filling `kwargs_SI`, one keyword at a time in the order
      given; the first keyword whose unit fails to reduce, or reduces to a
      converter, ends it with that error. */
  method KwargsOf(reduce: Reducer, kwargs: seq<Keyword>) returns (r: Result<Kwargs>)
    ensures r == KwargsSI(reduce, kwargs)
  {
    var kw: Kwargs := map[];
    var i := 0;
    while i < |kwargs|
      invariant 0 <= i <= |kwargs|
      invariant KwargsSI(reduce, kwargs[..i]) == Ok(kw)
    {
      KwargsStep(reduce, kwargs[..i + 1]);
      assert kwargs[..i + 1][..i] == kwargs[..i];
      var v := Scaled(reduce, kwargs[i]);
      if v.Err? {
        KwargsFailurePersists(reduce, kwargs, i + 1);
        return Err(v.error);
      }
      kw := kw[kwargs[i].key := v.value];
      i := i + 1;
    }
    assert kwargs[..i] == kwargs;
    return Ok(kw);
  }

  // ---------------------------------------------------------------------
  // Properties of the key

  /** In a list without repeats every element is counted once. */
  lemma {:induction false} DistinctCounts(s: seq<string>)
    requires forall i, j :: 0 <= i < j < |s| ==> s[i] != s[j]
    ensures forall x :: multiset(s)[x] == if x in s then 1 else 0
    decreases |s|
  {
    if s != [] {
      var init := s[..|s| - 1];
      DistinctCounts(init);
      assert s == init + [s[|s| - 1]];
      assert s[|s| - 1] !in init;
      forall x ensures multiset(s)[x] == if x in s then 1 else 0 {
        assert x in s <==> x in init || x == s[|s| - 1];
      }
    }
  }

  /** The tokens only `a` has, sorted: strictly increasing, and holding
      exactly the words of `a` that are not words of `b`. */
  lemma OnlyTokensSpec(a: string, b: string)
    ensures StrictlySorted(OnlyTokens(a, b))
    ensures forall x :: x in OnlyTokens(a, b) <==> x in Words(a) && x !in Words(b)
  {
    var m := Minus(Words(a), Words(b));
    SortSpec(m);
    DistinctCounts(m);
    forall x ensures x in Sort(m) <==> x in m {
      assert x in Sort(m) <==> x in multiset(Sort(m));
    }
    Reduction.StrictlyWhenDistinct(Sort(m));
  }

  /** The order in which the set is listed before `sorted` does not matter:
      any listing without repeats of the same tokens sorts the same. */
  lemma OnlyTokensUnique(a: string, b: string, listing: seq<string>)
    requires forall i, j :: 0 <= i < j < |listing| ==> listing[i] != listing[j]
    requires forall x :: x in listing <==> x in Words(a) && x !in Words(b)
    ensures Sort(listing) == OnlyTokens(a, b)
  {
    var m := Minus(Words(a), Words(b));
    DistinctCounts(m);
    DistinctCounts(listing);
    assert multiset(listing) == multiset(m);
    SortSpec(m);
    SortSpec(listing);
    SortedUnique(Sort(listing), Sort(m));
  }

  /** Going back swaps the sides of the route: what was peeled on the
      target side is peeled on the source side. */
  lemma RouteBack(uniFrom: string, uniTo: string)
    ensures RouteOf(uniTo, uniFrom).perSr == RouteOf(uniFrom, uniTo).timesSr
    ensures RouteOf(uniTo, uniFrom).timesSr == RouteOf(uniFrom, uniTo).perSr
    ensures RouteOf(uniTo, uniFrom).key == SwitchKey(Peeled(Only(uniTo, uniFrom)), Peeled(Only(uniFrom, uniTo)))
  {
  }

  // ---------------------------------------------------------------------
  // Properties of convert

  /** Every keyword converts. */
  predicate AllConvertible(reduce: Reducer, kwargs: seq<Keyword>) {
    forall i :: 0 <= i < |kwargs| ==> Convertible(reduce, kwargs[i])
  }

  /** The failures come in the order of the statements: the call itself
      when a keyword is named `_from` or `_to`, then the source's
      reduction, then the target's, then the keywords', and all of them
      before the branch is chosen, so an unusable keyword fails even a
      conversion that would not read it. */
  lemma ConvertFailsFirst(reduce: Reducer, board: map<string, Changer>, from: string, to: string, arg: real, kwargs: seq<Keyword>, mag: MagMaths)
    ensures !Unreserved(kwargs) ==>
      Convert(reduce, board, from, to, arg, kwargs, mag).Err? &&
      exists i :: 0 <= i < |kwargs| && FirstReserved(kwargs, i) &&
        Convert(reduce, board, from, to, arg, kwargs, mag).error == KeywordClash(kwargs[i].key)
    ensures Unreserved(kwargs) && reduce(from).Err? ==> Convert(reduce, board, from, to, arg, kwargs, mag) == Err(reduce(from).error)
    ensures Unreserved(kwargs) && reduce(from).Ok? && to != "SI" && reduce(to).Err? ==>
      Convert(reduce, board, from, to, arg, kwargs, mag) == Err(reduce(to).error)
    ensures Unreserved(kwargs) && reduce(from).Ok? && (to == "SI" || reduce(to).Ok?) && !AllConvertible(reduce, kwargs) ==>
      Convert(reduce, board, from, to, arg, kwargs, mag).Err? &&
      exists i :: 0 <= i < |kwargs| && FirstFailure(reduce, kwargs, i) &&
        Convert(reduce, board, from, to, arg, kwargs, mag).error == FailureOf(reduce, kwargs[i])
  {
    KwargsOk(reduce, kwargs);
    KwargsFailure(reduce, kwargs);
  }

  /** Equal signatures and plain factors `a` and `b`: the result times `b`
      is `a` times the value; a zero target factor raises
      `ZeroDivisionError`. */
  lemma ConvertScales(reduce: Reducer, board: map<string, Changer>, from: string, to: string, arg: real, kwargs: seq<Keyword>, mag: MagMaths, a: real, b: real, sig: string)
    requires reduce(from) == Ok((Linear(a), sig))
    requires to != "SI" && reduce(to) == Ok((Linear(b), sig))
    requires Unreserved(kwargs) && AllConvertible(reduce, kwargs)
    ensures Convert(reduce, board, from, to, arg, kwargs, mag).Ok? <==> b != 0.0
    ensures Convert(reduce, board, from, to, arg, kwargs, mag).Ok? ==>
      Convert(reduce, board, from, to, arg, kwargs, mag).value * b == a * arg
    ensures Convert(reduce, board, from, to, arg, kwargs, mag).Err? ==>
      Convert(reduce, board, from, to, arg, kwargs, mag).error == DivisionByZero
  {
    KwargsOk(reduce, kwargs);
  }

  /** `'SI'` as the target: a plain factor scales the value, a converter
      is applied to it. */
  lemma ConvertToSI(reduce: Reducer, board: map<string, Changer>, from: string, arg: real, kwargs: seq<Keyword>, mag: MagMaths, f: Factor, sig: string)
    requires reduce(from) == Ok((f, sig))
    requires Unreserved(kwargs) && AllConvertible(reduce, kwargs)
    ensures f.Linear? ==> Convert(reduce, board, from, "SI", arg, kwargs, mag) == Ok(f.r * arg)
    ensures f.NonLinear? ==> Convert(reduce, board, from, "SI", arg, kwargs, mag) == Ok(Forward(f, arg, mag))
  {
    KwargsOk(reduce, kwargs);
  }

  /** A converter on the source side reads the value and the reading is
      divided by the target factor; a converter on both sides raises
      `TypeError`, since a float cannot be divided by one. */
  lemma ConvertFromConverter(reduce: Reducer, board: map<string, Changer>, from: string, to: string, arg: real, kwargs: seq<Keyword>, mag: MagMaths, c: Factor, g: Factor, sig: string)
    requires reduce(from) == Ok((c, sig)) && c.NonLinear?
    requires to != "SI" && reduce(to) == Ok((g, sig))
    requires Unreserved(kwargs) && AllConvertible(reduce, kwargs)
    ensures g.NonLinear? ==> Convert(reduce, board, from, to, arg, kwargs, mag) == Err(OperandType)
    ensures g.Linear? && g.r == 0.0 ==> Convert(reduce, board, from, to, arg, kwargs, mag) == Err(DivisionByZero)
    ensures g.Linear? && g.r != 0.0 ==> Convert(reduce, board, from, to, arg, kwargs, mag) == Ok(Forward(c, arg, mag) / g.r)
  {
    KwargsOk(reduce, kwargs);
  }

  /** A converter on the target side only is applied inversely to the
      value scaled by the source factor. */
  lemma ConvertToConverter(reduce: Reducer, board: map<string, Changer>, from: string, to: string, arg: real, kwargs: seq<Keyword>, mag: MagMaths, a: real, c: Factor, sig: string)
    requires reduce(from) == Ok((Linear(a), sig))
    requires to != "SI" && reduce(to) == Ok((c, sig)) && c.NonLinear?
    requires Unreserved(kwargs) && AllConvertible(reduce, kwargs)
    ensures Convert(reduce, board, from, to, arg, kwargs, mag) == Inverse(c, a * arg, mag)
  {
    KwargsOk(reduce, kwargs);
    var f := reduce(from).value.0;
    ToConverter(f, c, arg, mag);
    MulBoth(f.r, a, arg);
    InverseAt(c, f.r * arg, a * arg, mag);
  }

  lemma ToConverter(f: Factor, c: Factor, arg: real, mag: MagMaths)
    requires f.Linear? && c.NonLinear?
    ensures SameBase(f, c, arg, mag) == Inverse(c, f.r * arg, mag)
  {
  }

  lemma InverseAt(c: Factor, x: real, y: real, mag: MagMaths)
    requires c.NonLinear? && x == y
    ensures Inverse(c, x, mag) == Inverse(c, y, mag)
  {
  }

  /** Converting there and back between units of the same signature with
      non-zero factors gives the value back. */
  lemma ScaleRoundTrip(reduce: Reducer, board: map<string, Changer>, from: string, to: string, x: real, kwargs: seq<Keyword>, mag: MagMaths, a: real, b: real, sig: string)
    requires from != "SI" && reduce(from) == Ok((Linear(a), sig)) && a != 0.0
    requires to != "SI" && reduce(to) == Ok((Linear(b), sig)) && b != 0.0
    requires Unreserved(kwargs) && AllConvertible(reduce, kwargs)
    ensures Convert(reduce, board, from, to, x, kwargs, mag).Ok?
    ensures Convert(reduce, board, to, from, Convert(reduce, board, from, to, x, kwargs, mag).value, kwargs, mag) == Ok(x)
  {
    ConvertScales(reduce, board, from, to, x, kwargs, mag, a, b, sig);
    var y := Convert(reduce, board, from, to, x, kwargs, mag).value;
    ConvertScales(reduce, board, to, from, y, kwargs, mag, b, a, sig);
    var z := Convert(reduce, board, to, from, y, kwargs, mag).value;
    assert z * a == x * a;
    CancelRight(z, x, a);
  }

  /** From a temperature scale to a plain unit of the same signature and
      back gives the value back, the inverse call undoing the forward one. */
  lemma TemperatureRoundTrip(reduce: Reducer, board: map<string, Changer>, from: string, to: string, x: real, kwargs: seq<Keyword>, mag: MagMaths, c: Factor, b: real, sig: string)
    requires from != "SI" && reduce(from) == Ok((c, sig))
    requires c.NonLinear? && !c.kind.Mag? && c.prefix != 0.0
    requires to != "SI" && reduce(to) == Ok((Linear(b), sig)) && b != 0.0
    requires Unreserved(kwargs) && AllConvertible(reduce, kwargs)
    ensures Convert(reduce, board, from, to, x, kwargs, mag).Ok?
    ensures Convert(reduce, board, to, from, Convert(reduce, board, from, to, x, kwargs, mag).value, kwargs, mag) == Ok(x)
  {
    ConvertFromConverter(reduce, board, from, to, x, kwargs, mag, c, Linear(b), sig);
    var y := Forward(c, x, mag) / b;
    ConvertToConverter(reduce, board, to, from, y, kwargs, mag, b, c, sig);
    assert b * y == Forward(c, x, mag);
    Converters.TemperatureRoundTrip(c, x, mag);
  }

  /** `Switched` for plain factors once the solid-angle steps have given
      `w`. */
  lemma SwitchedLinear(board: map<string, Changer>, f: Factor, g: Factor, u: string, v: string, arg: real, kw: Kwargs, w: real)
    requires f.Linear? && g.Linear?
    requires Prepared(board, RouteOf(u, v), arg, kw) == Ok(w)
    ensures RouteOf(u, v).key !in board ==> Switched(board, f, g, u, v, arg, kw) == Err(UnsupportedConversion(RouteOf(u, v).key))
    ensures RouteOf(u, v).key in board && board[RouteOf(u, v).key](f.r * w, kw).Err? ==>
      Switched(board, f, g, u, v, arg, kw) == board[RouteOf(u, v).key](f.r * w, kw)
    ensures RouteOf(u, v).key in board && board[RouteOf(u, v).key](f.r * w, kw).Ok? ==>
      Switched(board, f, g, u, v, arg, kw) == Quotient(board[RouteOf(u, v).key](f.r * w, kw).value, g.r)
  {
    var key := RouteOf(u, v).key;
    if key in board {
      TimesLinear(f, w);
      var y := board[key](f.r * w, kw);
      if y.Ok? {
        DivideLinear(y.value, g);
      }
    }
  }

  lemma TimesLinear(f: Factor, w: real)
    requires f.Linear?
    ensures Times(f, Linear(w)).Ok? && Times(f, Linear(w)).value.Linear?
    ensures Times(f, Linear(w)).value.r == f.r * w
  {
  }

  lemma DivideLinear(y: real, g: Factor)
    requires g.Linear?
    ensures g.r == 0.0 ==> Divide(Linear(y), g) == Err(DivisionByZero)
    ensures g.r != 0.0 ==> Divide(Linear(y), g) == Ok(Linear(y / g.r))
  {
  }

  /** Without a solid angle on either side the raw value is used as is. */
  lemma PreparedPlain(board: map<string, Changer>, route: Route, arg: real, kw: Kwargs)
    requires !route.perSr && !route.timesSr
    ensures Prepared(board, route, arg, kw) == Ok(arg)
  {
  }

  lemma ChangerAt(h: Changer, x: real, y: real, kw: Kwargs)
    requires x == y
    ensures h(x, kw) == h(y, kw)
  {
  }

  /** Different signatures: `convert` is the change of base. */
  lemma ConvertDifferent(reduce: Reducer, board: map<string, Changer>, from: string, to: string, arg: real, kwargs: seq<Keyword>, mag: MagMaths, f: Factor, u: string, g: Factor, v: string, kw: Kwargs)
    requires reduce(from) == Ok((f, u))
    requires to != "SI" && reduce(to) == Ok((g, v)) && u != v
    requires Unreserved(kwargs) && KwargsSI(reduce, kwargs) == Ok(kw)
    ensures Convert(reduce, board, from, to, arg, kwargs, mag) == Switched(board, f, g, u, v, arg, kw)
  {
  }

  /** Different signatures and plain factors `f` and `g`: after the
      solid-angle steps have turned the raw value into `w`, the function
      under the key of the route is applied to `f` times `w` and its result
      divided by `g`; a missing key raises `KeyError`. */
  lemma ConvertSwitches(reduce: Reducer, board: map<string, Changer>, from: string, to: string, arg: real, kwargs: seq<Keyword>, mag: MagMaths, f: Factor, u: string, g: Factor, v: string, kw: Kwargs, w: real)
    requires reduce(from) == Ok((f, u)) && f.Linear?
    requires to != "SI" && reduce(to) == Ok((g, v)) && g.Linear? && u != v
    requires Unreserved(kwargs) && KwargsSI(reduce, kwargs) == Ok(kw)
    requires Prepared(board, RouteOf(u, v), arg, kw) == Ok(w)
    ensures RouteOf(u, v).key !in board ==>
      Convert(reduce, board, from, to, arg, kwargs, mag) == Err(UnsupportedConversion(RouteOf(u, v).key))
    ensures RouteOf(u, v).key in board && board[RouteOf(u, v).key](f.r * w, kw).Err? ==>
      Convert(reduce, board, from, to, arg, kwargs, mag) == board[RouteOf(u, v).key](f.r * w, kw)
    ensures RouteOf(u, v).key in board && board[RouteOf(u, v).key](f.r * w, kw).Ok? ==>
      Convert(reduce, board, from, to, arg, kwargs, mag) == Quotient(board[RouteOf(u, v).key](f.r * w, kw).value, g.r)
  {
    ConvertDifferent(reduce, board, from, to, arg, kwargs, mag, f, u, g, v, kw);
    SwitchedLinear(board, f, g, u, v, arg, kw, w);
  }

  /** A converter cannot take part in a change of base: `fac_from * arg`
      raises `TypeError` once the key is found. */
  lemma ConvertSwitchConverter(reduce: Reducer, board: map<string, Changer>, from: string, to: string, arg: real, kwargs: seq<Keyword>, mag: MagMaths, c: Factor, u: string, g: Factor, v: string)
    requires reduce(from) == Ok((c, u)) && c.NonLinear?
    requires to != "SI" && reduce(to) == Ok((g, v)) && u != v
    requires Unreserved(kwargs) && AllConvertible(reduce, kwargs)
    requires !RouteOf(u, v).perSr && !RouteOf(u, v).timesSr && RouteOf(u, v).key in board
    ensures Convert(reduce, board, from, to, arg, kwargs, mag) == Err(OperandType)
  {
    KwargsOk(reduce, kwargs);
  }

  lemma SwitchedApplied(board: map<string, Changer>, f: Factor, g: Factor, u: string, v: string, arg: real, kw: Kwargs, w: real, y: real)
    requires f.Linear? && g.Linear?
    requires Prepared(board, RouteOf(u, v), arg, kw) == Ok(w)
    requires RouteOf(u, v).key in board && board[RouteOf(u, v).key](f.r * w, kw) == Ok(y)
    ensures Switched(board, f, g, u, v, arg, kw) == Quotient(y, g.r)
  {
    TimesLinear(f, w);
    if g.r != 0.0 {
      DivideLinear(y, g);
    }
  }

  /** The change of base there and back, for plain non-zero factors, when
      the function of the way back undoes the function of the way there. */
  lemma SwitchedRoundTrip(board: map<string, Changer>, f: Factor, g: Factor, u: string, v: string, x: real, kw: Kwargs, p: real, y: real)
    requires f.Linear? && f.r != 0.0 && g.Linear? && g.r != 0.0 && p == f.r * x
    requires !RouteOf(u, v).perSr && !RouteOf(u, v).timesSr
    requires RouteOf(u, v).key in board && RouteOf(v, u).key in board
    requires board[RouteOf(u, v).key](p, kw) == Ok(y)
    requires board[RouteOf(v, u).key](y, kw) == Ok(p)
    ensures Switched(board, f, g, u, v, x, kw).Ok?
    ensures Switched(board, g, f, v, u, Switched(board, f, g, u, v, x, kw).value, kw) == Ok(x)
  {
    PreparedPlain(board, RouteOf(u, v), x, kw);
    ChangerAt(board[RouteOf(u, v).key], f.r * x, p, kw);
    SwitchedApplied(board, f, g, u, v, x, kw, x, y);
    QuotientTimes(y, g.r);
    var there := Quotient(y, g.r).value;
    RouteBack(u, v);
    ChangerAt(board[RouteOf(v, u).key], g.r * there, y, kw);
    ScaleBack(f.r, x, p);
    SwitchedUndone(board, g, f, v, u, there, kw, p, x);
  }

  /** The way back lands on `x` when its function gives `y` and `y`
      divided by `f` is `x`. */
  lemma SwitchedUndone(board: map<string, Changer>, g: Factor, f: Factor, v: string, u: string, there: real, kw: Kwargs, y: real, x: real)
    requires f.Linear? && g.Linear?
    requires !RouteOf(v, u).perSr && !RouteOf(v, u).timesSr && RouteOf(v, u).key in board
    requires board[RouteOf(v, u).key](g.r * there, kw) == Ok(y)
    requires Quotient(y, f.r) == Ok(x)
    ensures Switched(board, g, f, v, u, there, kw) == Ok(x)
  {
    PreparedPlain(board, RouteOf(v, u), there, kw);
    SwitchedApplied(board, g, f, v, u, there, kw, there, y);
  }

  lemma QuotientTimes(y: real, b: real)
    requires b != 0.0
    ensures Quotient(y, b).Ok? && b * Quotient(y, b).value == y
  {
  }

  lemma ScaleBack(a: real, x: real, p: real)
    requires a != 0.0 && p == a * x
    ensures Quotient(p, a) == Ok(x)
  {
    assert p / a == x;
  }

  /** Converting there and back between units of different signatures
      gives the value back when the function of the way back undoes the
      function of the way there and the factors are not zero. */
  lemma SwitchRoundTrip(reduce: Reducer, board: map<string, Changer>, from: string, to: string, x: real, kwargs: seq<Keyword>, mag: MagMaths, f: Factor, u: string, g: Factor, v: string, kw: Kwargs, p: real, y: real)
    requires from != "SI" && reduce(from) == Ok((f, u)) && f.Linear? && f.r != 0.0 && p == f.r * x
    requires to != "SI" && reduce(to) == Ok((g, v)) && g.Linear? && g.r != 0.0 && u != v
    requires Unreserved(kwargs) && KwargsSI(reduce, kwargs) == Ok(kw)
    requires !RouteOf(u, v).perSr && !RouteOf(u, v).timesSr
    requires RouteOf(u, v).key in board && RouteOf(v, u).key in board
    requires board[RouteOf(u, v).key](p, kw) == Ok(y)
    requires board[RouteOf(v, u).key](y, kw) == Ok(p)
    ensures Convert(reduce, board, from, to, x, kwargs, mag).Ok?
    ensures Convert(reduce, board, to, from, Convert(reduce, board, from, to, x, kwargs, mag).value, kwargs, mag) == Ok(x)
  {
    ConvertDifferent(reduce, board, from, to, x, kwargs, mag, f, u, g, v, kw);
    SwitchedRoundTrip(board, f, g, u, v, x, kw, p, y);
    var there := Convert(reduce, board, from, to, x, kwargs, mag).value;
    ConvertDifferent(reduce, board, to, from, there, kwargs, mag, g, v, f, u, kw);
  }

  // ---------------------------------------------------------------------
  // The module's own tables

  /** `breakdown` of the module's registry, as a reducer. */
  lemma ReduceIs(k: Physics, unit: string)
    ensures Reduce(Builtin, k)(unit) == Reduction.Breakdown(Builtin, unit, k)
  {
  }

  /** `convert('m F', 'SI', x)`, whatever the change-of-base functions: the
      converter, last in the unit, reads the value on the Fahrenheit scale;
      the metre contributes a factor 1. */
  lemma ConverterToSIExample(k: Physics, board: map<string, Changer>, x: real, mag: MagMaths)
    ensures Convert(Reduce(Builtin, k), board, "m F", "SI", x, [], mag).Ok?
    ensures Convert(Reduce(Builtin, k), board, "m F", "SI", x, [], mag).value == (x + 459.67) * 5.0 / 9.0
  {
    MetreFahrenheitReduced(k);
    FahrenheitReading(x, mag);
    ReadingToSI(Reduce(Builtin, k), board, "m F", x, mag, Fresh(Fahrenheit), "K1 m1", (x + 459.67) * 5.0 / 9.0);
  }

  lemma MetreFahrenheitReduced(k: Physics)
    ensures Reduce(Builtin, k)("m F") == Ok((Fresh(Fahrenheit), "K1 m1"))
  {
    Reduction.ConverterLastExample(k);
    ReduceIs(k, "m F");
  }

  lemma ReadingToSI(reduce: Reducer, board: map<string, Changer>, from: string, x: real, mag: MagMaths, c: Factor, sig: string, v: real)
    requires reduce(from) == Ok((c, sig)) && c.NonLinear? && Forward(c, x, mag) == v
    ensures Convert(reduce, board, from, "SI", x, [], mag) == Ok(v)
  {
    ConvertToSI(reduce, board, from, x, [], mag, c, sig);
  }

  /** `convert('F m', to, x)` raises `TypeError` whatever the target and
      whatever keywords the call can bind: the
      converter is multiplied by a number inside `breakdown`. */
  lemma ConverterFirstExample(k: Physics, board: map<string, Changer>, to: string, x: real, kwargs: seq<Keyword>, mag: MagMaths)
    requires Unreserved(kwargs)
    ensures Convert(Reduce(Builtin, k), board, "F m", to, x, kwargs, mag) == Err(OperandType)
  {
    Reduction.ConverterFirstExample(k);
    ReduceIs(k, "F m");
    ConvertFailsFirst(Reduce(Builtin, k), board, "F m", to, x, kwargs, mag);
  }

  /** `convert(1, 'km', 'cm')` is `100000`, whatever the change-of-base
      functions and the constants: a kilometre is `1000/0.01` centimetres. */
  lemma KilometreToCentimetreExample(k: Physics, board: map<string, Changer>, x: real, mag: MagMaths)
    ensures Convert(Reduce(Builtin, k), board, "km", "cm", x, [], mag) == Ok(100000.0 * x)
  {
    KilometreReduce(k);
    CentimetreReduce(k);
    KilometreToCentimetre(Reduce(Builtin, k), board, x, mag);
  }

  /** The same for any reducer that reads the two units as `breakdown`
      does. */
  lemma KilometreToCentimetre(reduce: Reducer, board: map<string, Changer>, x: real, mag: MagMaths)
    requires reduce("km") == Ok((Linear(1000.0), "m1")) && reduce("cm") == Ok((Linear(0.01), "m1"))
    ensures Convert(reduce, board, "km", "cm", x, [], mag) == Ok(100000.0 * x)
  {
    ConvertRatio(reduce, board, "km", "cm", x, mag, 1000.0, 0.01, "m1", 100000.0);
  }

  lemma KilometreReduce(k: Physics)
    ensures Reduce(Builtin, k)("km") == Ok((Linear(1000.0), "m1"))
  {
    ReductionExamples.KilometreReduced(k);
    ReduceIs(k, "km");
  }

  lemma CentimetreReduce(k: Physics)
    ensures Reduce(Builtin, k)("cm") == Ok((Linear(0.01), "m1"))
  {
    ReductionExamples.CentimetreReduced(k);
    ReduceIs(k, "cm");
  }

  /** Equal signatures, plain factors `a` and `b` and no keywords: the value
      is multiplied by the ratio `a/b`. */
  lemma ConvertRatio(reduce: Reducer, board: map<string, Changer>, from: string, to: string, x: real, mag: MagMaths, a: real, b: real, sig: string, ratio: real)
    requires reduce(from) == Ok((Linear(a), sig))
    requires to != "SI" && reduce(to) == Ok((Linear(b), sig))
    requires b != 0.0 && ratio * b == a
    ensures Convert(reduce, board, from, to, x, [], mag) == Ok(ratio * x)
  {
    ConvertScales(reduce, board, from, to, x, [], mag, a, b, sig);
    var r := Convert(reduce, board, from, to, x, [], mag);
    assert r.Ok? && r.value * b == ratio * b * x;
    assert r.value == ratio * x;
  }

  lemma AngstromWords()
    ensures Words("m1") == ["m1"] && Words("m1 s-1") == ["m1", "s-1"]
  {
    WordsOfJoin(["m1"]);
    WordsOfJoin(["m1", "s-1"]);
    assert Join(["m1", "s-1"], " ") == "m1 s-1";
  }

  lemma AngstromTokens()
    ensures OnlyTokens("m1", "m1 s-1") == [] && OnlyTokens("m1 s-1", "m1") == ["s-1"]
  {
    AngstromWords();
    assert "s-1"[0] != "m1"[0];
    assert ["m1", "s-1"][..1] == ["m1"];
  }

  /** `convert('A', 'km/s', ...)` compares `m1` with `m1 s-1`: the source
      has no token of its own and the target has `s-1`, so the key is
      `'_to_s-1'`. */
  lemma AngstromToSpeedKey()
    ensures Only("m1", "m1 s-1") == "" && Only("m1 s-1", "m1") == "s-1"
  {
    AngstromTokens();
  }

  // ---------------------------------------------------------------------
  // The module's own `_switch`

  /** Each key of `_switch` calls its function. */
  lemma BoardCalls(sw: map<string, Switch>, k: Physics, key: string, x: real, kw: Kwargs)
    requires key in sw && "arg" !in kw
    ensures key in Board(sw, k) && Board(sw, k)[key](x, kw) == Apply(sw[key], x, kw, k)
  {
  }

  /** A keyword named `arg` fails every function of `_switch`, whatever
      the value, before its body runs. */
  lemma BoardClash(sw: map<string, Switch>, k: Physics, key: string, x: real, kw: Kwargs)
    requires key in sw && "arg" in kw
    ensures key in Board(sw, k) && Board(sw, k)[key](x, kw) == Err(KeywordClash("arg"))
  {
  }

  /** Different signatures, plain factors, and a keyword named `arg`:
      `convert` raises `TypeError` at the first function of `_switch` it
      calls, be it `per_sr`, `times_sr` or the one under the route's key; a
      conversion between equal signatures never calls one and is not
      affected. */
  lemma SwitchClash(reduce: Reducer, sw: map<string, Switch>, k: Physics, from: string, to: string, x: real, kwargs: seq<Keyword>, mag: MagMaths, f: Factor, u: string, g: Factor, v: string, kw: Kwargs)
    requires reduce(from) == Ok((f, u)) && f.Linear?
    requires to != "SI" && reduce(to) == Ok((g, v)) && u != v
    requires Unreserved(kwargs) && KwargsSI(reduce, kwargs) == Ok(kw)
    requires exists i :: 0 <= i < |kwargs| && kwargs[i].key == "arg"
    requires "_to_sr-1" in sw && "sr-1_to_" in sw && RouteOf(u, v).key in sw
    ensures Convert(reduce, Board(sw, k), from, to, x, kwargs, mag) == Err(KeywordClash("arg"))
  {
    KwargsKeys(reduce, kwargs);
    assert "arg" in kw;
    ConvertDifferent(reduce, Board(sw, k), from, to, x, kwargs, mag, f, u, g, v, kw);
    var route := RouteOf(u, v);
    if route.perSr {
      BoardClash(sw, k, "_to_sr-1", x, kw);
    } else if route.timesSr {
      BoardClash(sw, k, "sr-1_to_", x, kw);
    } else {
      TimesLinear(f, x);
      BoardClash(sw, k, route.key, f.r * x, kw);
    }
  }

  /** With the module's functions, the way back undoes the way there when
      its key names the partner of the function there and the keywords let
      that function be undone (see `Switches.RoundTrip`). */
  lemma BoardRoundTrip(reduce: Reducer, sw: map<string, Switch>, k: Physics, from: string, to: string, x: real, kwargs: seq<Keyword>, mag: MagMaths, f: Factor, u: string, g: Factor, v: string, kw: Kwargs)
    requires from != "SI" && reduce(from) == Ok((f, u)) && f.Linear? && f.r != 0.0
    requires to != "SI" && reduce(to) == Ok((g, v)) && g.Linear? && g.r != 0.0 && u != v
    requires Unreserved(kwargs) && KwargsSI(reduce, kwargs) == Ok(kw)
    requires !RouteOf(u, v).perSr && !RouteOf(u, v).timesSr
    requires RouteOf(u, v).key in sw && RouteOf(v, u).key in sw
    requires sw[RouteOf(v, u).key] == Back(sw[RouteOf(u, v).key])
    requires "arg" !in kw && Invertible(sw[RouteOf(u, v).key], f.r * x, kw)
    ensures Convert(reduce, Board(sw, k), from, to, x, kwargs, mag).Ok?
    ensures Convert(reduce, Board(sw, k), to, from, Convert(reduce, Board(sw, k), from, to, x, kwargs, mag).value, kwargs, mag) == Ok(x)
  {
    var s := sw[RouteOf(u, v).key];
    var p := f.r * x;
    RoundTrip(s, p, kw, k);
    var y := Apply(s, p, kw, k).value;
    BoardCalls(sw, k, RouteOf(u, v).key, p, kw);
    BoardCalls(sw, k, RouteOf(v, u).key, y, kw);
    SwitchRoundTrip(reduce, Board(sw, k), from, to, x, kwargs, mag, f, u, g, v, kw, p, y);
  }

  // ---------------------------------------------------------------------
  // The pairs of `_switch`

  /** The only underscores of `key` are those of the `_to_` at `n`. */
  predicate SeparatorAt(key: string, n: nat) {
    && n + 4 <= |key| && key[n..n + 4] == "_to_"
    && forall i :: 0 <= i < |key| && key[i] == '_' ==> i == n || i == n + 3
  }

  /** A key with a single `_to_` names its two sides. */
  lemma SwitchKeySplit(a: string, b: string, key: string, n: nat)
    requires SwitchKey(a, b) == key && SeparatorAt(key, n)
    ensures a == key[..n] && b == key[n + 4..]
  {
    assert key[|a|] == '_' && key[|a| + 3] == '_';
    assert |a| == n;
    assert key[..n] == a;
    assert key[n + 4..] == b;
  }

  lemma PairedAt(a: string, b: string, key: string, n: nat, back: string)
    requires SwitchKey(a, b) == key && SeparatorAt(key, n)
    requires back == key[n + 4..] + "_to_" + key[..n]
    requires key in Switchboard && back in Switchboard && Switchboard[back] == Back(Switchboard[key])
    ensures SwitchKey(b, a) in Switchboard && Switchboard[SwitchKey(b, a)] == Back(Switchboard[SwitchKey(a, b)])
  {
    SwitchKeySplit(a, b, key, n);
  }

  /** Every entry `a_to_b` of `_switch` has its partner `b_to_a`, and the
      partner is the function that undoes it. */
  lemma SwitchboardPaired(a: string, b: string)
    requires SwitchKey(a, b) in Switchboard
    ensures SwitchKey(b, a) in Switchboard && Switchboard[SwitchKey(b, a)] == Back(Switchboard[SwitchKey(a, b)])
  {
    if SwitchKey(a, b) == "_to_s-1" || SwitchKey(a, b) == "s-1_to_" { VelocityPaired(a, b); }
    else if SwitchKey(a, b) == "m1_to_cy1s-1" || SwitchKey(a, b) == "cy1s-1_to_m1" { FrequencyPaired(a, b); }
    else if SwitchKey(a, b) == "m1_to_" || SwitchKey(a, b) == "_to_m1" { SpatialFreqPaired(a, b); }
    else if SwitchKey(a, b) == "cy-1s-2_to_m-1s-3" || SwitchKey(a, b) == "m-1s-3_to_cy-1s-2" { FlambdaPaired(a, b); }
    else if SwitchKey(a, b) == "cy-1s-2_to_s-3" || SwitchKey(a, b) == "s-3_to_cy-1s-2" { NuFnuPaired(a, b); }
    else { SolidAnglePaired(a, b); }
  }

  lemma VelocityPaired(a: string, b: string)
    requires SwitchKey(a, b) == "_to_s-1" || SwitchKey(a, b) == "s-1_to_"
    ensures SwitchKey(b, a) in Switchboard && Switchboard[SwitchKey(b, a)] == Back(Switchboard[SwitchKey(a, b)])
  {
    if SwitchKey(a, b) == "_to_s-1" { VelocityThere(a, b); }
    else { VelocityBack(a, b); }
  }

  lemma VelocityThere(a: string, b: string)
    requires SwitchKey(a, b) == "_to_s-1"
    ensures SwitchKey(b, a) in Switchboard && Switchboard[SwitchKey(b, a)] == Back(Switchboard[SwitchKey(a, b)])
  {
    PairedAt(a, b, "_to_s-1", 0, "s-1_to_");
  }

  lemma VelocityBack(a: string, b: string)
    requires SwitchKey(a, b) == "s-1_to_"
    ensures SwitchKey(b, a) in Switchboard && Switchboard[SwitchKey(b, a)] == Back(Switchboard[SwitchKey(a, b)])
  {
    PairedAt(a, b, "s-1_to_", 3, "_to_s-1");
  }

  lemma FrequencyPaired(a: string, b: string)
    requires SwitchKey(a, b) == "m1_to_cy1s-1" || SwitchKey(a, b) == "cy1s-1_to_m1"
    ensures SwitchKey(b, a) in Switchboard && Switchboard[SwitchKey(b, a)] == Back(Switchboard[SwitchKey(a, b)])
  {
    if SwitchKey(a, b) == "m1_to_cy1s-1" { FrequencyThere(a, b); }
    else { FrequencyBack(a, b); }
  }

  lemma FrequencyThere(a: string, b: string)
    requires SwitchKey(a, b) == "m1_to_cy1s-1"
    ensures SwitchKey(b, a) in Switchboard && Switchboard[SwitchKey(b, a)] == Back(Switchboard[SwitchKey(a, b)])
  {
    PairedAt(a, b, "m1_to_cy1s-1", 2, "cy1s-1_to_m1");
  }

  lemma FrequencyBack(a: string, b: string)
    requires SwitchKey(a, b) == "cy1s-1_to_m1"
    ensures SwitchKey(b, a) in Switchboard && Switchboard[SwitchKey(b, a)] == Back(Switchboard[SwitchKey(a, b)])
  {
    PairedAt(a, b, "cy1s-1_to_m1", 6, "m1_to_cy1s-1");
  }

  lemma SpatialFreqPaired(a: string, b: string)
    requires SwitchKey(a, b) == "m1_to_" || SwitchKey(a, b) == "_to_m1"
    ensures SwitchKey(b, a) in Switchboard && Switchboard[SwitchKey(b, a)] == Back(Switchboard[SwitchKey(a, b)])
  {
    if SwitchKey(a, b) == "m1_to_" { SpatialFreqThere(a, b); }
    else { SpatialFreqBack(a, b); }
  }

  lemma SpatialFreqThere(a: string, b: string)
    requires SwitchKey(a, b) == "m1_to_"
    ensures SwitchKey(b, a) in Switchboard && Switchboard[SwitchKey(b, a)] == Back(Switchboard[SwitchKey(a, b)])
  {
    PairedAt(a, b, "m1_to_", 2, "_to_m1");
  }

  lemma SpatialFreqBack(a: string, b: string)
    requires SwitchKey(a, b) == "_to_m1"
    ensures SwitchKey(b, a) in Switchboard && Switchboard[SwitchKey(b, a)] == Back(Switchboard[SwitchKey(a, b)])
  {
    PairedAt(a, b, "_to_m1", 0, "m1_to_");
  }

  lemma FlambdaPaired(a: string, b: string)
    requires SwitchKey(a, b) == "cy-1s-2_to_m-1s-3" || SwitchKey(a, b) == "m-1s-3_to_cy-1s-2"
    ensures SwitchKey(b, a) in Switchboard && Switchboard[SwitchKey(b, a)] == Back(Switchboard[SwitchKey(a, b)])
  {
    if SwitchKey(a, b) == "cy-1s-2_to_m-1s-3" { FlambdaThere(a, b); }
    else { FlambdaBack(a, b); }
  }

  lemma FlambdaThere(a: string, b: string)
    requires SwitchKey(a, b) == "cy-1s-2_to_m-1s-3"
    ensures SwitchKey(b, a) in Switchboard && Switchboard[SwitchKey(b, a)] == Back(Switchboard[SwitchKey(a, b)])
  {
    PairedAt(a, b, "cy-1s-2_to_m-1s-3", 7, "m-1s-3_to_cy-1s-2");
  }

  lemma FlambdaBack(a: string, b: string)
    requires SwitchKey(a, b) == "m-1s-3_to_cy-1s-2"
    ensures SwitchKey(b, a) in Switchboard && Switchboard[SwitchKey(b, a)] == Back(Switchboard[SwitchKey(a, b)])
  {
    PairedAt(a, b, "m-1s-3_to_cy-1s-2", 6, "cy-1s-2_to_m-1s-3");
  }

  lemma NuFnuPaired(a: string, b: string)
    requires SwitchKey(a, b) == "cy-1s-2_to_s-3" || SwitchKey(a, b) == "s-3_to_cy-1s-2"
    ensures SwitchKey(b, a) in Switchboard && Switchboard[SwitchKey(b, a)] == Back(Switchboard[SwitchKey(a, b)])
  {
    if SwitchKey(a, b) == "cy-1s-2_to_s-3" { NuFnuThere(a, b); }
    else { NuFnuBack(a, b); }
  }

  lemma NuFnuThere(a: string, b: string)
    requires SwitchKey(a, b) == "cy-1s-2_to_s-3"
    ensures SwitchKey(b, a) in Switchboard && Switchboard[SwitchKey(b, a)] == Back(Switchboard[SwitchKey(a, b)])
  {
    PairedAt(a, b, "cy-1s-2_to_s-3", 7, "s-3_to_cy-1s-2");
  }

  lemma NuFnuBack(a: string, b: string)
    requires SwitchKey(a, b) == "s-3_to_cy-1s-2"
    ensures SwitchKey(b, a) in Switchboard && Switchboard[SwitchKey(b, a)] == Back(Switchboard[SwitchKey(a, b)])
  {
    PairedAt(a, b, "s-3_to_cy-1s-2", 3, "cy-1s-2_to_s-3");
  }

  lemma SolidAnglePaired(a: string, b: string)
    requires SwitchKey(a, b) == "_to_sr-1" || SwitchKey(a, b) == "sr-1_to_"
    ensures SwitchKey(b, a) in Switchboard && Switchboard[SwitchKey(b, a)] == Back(Switchboard[SwitchKey(a, b)])
  {
    if SwitchKey(a, b) == "_to_sr-1" { SolidAngleThere(a, b); }
    else { SolidAngleBack(a, b); }
  }

  lemma SolidAngleThere(a: string, b: string)
    requires SwitchKey(a, b) == "_to_sr-1"
    ensures SwitchKey(b, a) in Switchboard && Switchboard[SwitchKey(b, a)] == Back(Switchboard[SwitchKey(a, b)])
  {
    PairedAt(a, b, "_to_sr-1", 0, "sr-1_to_");
  }

  lemma SolidAngleBack(a: string, b: string)
    requires SwitchKey(a, b) == "sr-1_to_"
    ensures SwitchKey(b, a) in Switchboard && Switchboard[SwitchKey(b, a)] == Back(Switchboard[SwitchKey(a, b)])
  {
    PairedAt(a, b, "sr-1_to_", 4, "_to_sr-1");
  }

  /** With the module's own `_switch`, a conversion between different
      signatures without solid-angle steps is undone by the conversion back,
      whenever the function there can be undone. */
  lemma BuiltinBoardRoundTrip(reduce: Reducer, k: Physics, from: string, to: string, x: real, kwargs: seq<Keyword>, mag: MagMaths, f: Factor, u: string, g: Factor, v: string, kw: Kwargs)
    requires from != "SI" && reduce(from) == Ok((f, u)) && f.Linear? && f.r != 0.0
    requires to != "SI" && reduce(to) == Ok((g, v)) && g.Linear? && g.r != 0.0 && u != v
    requires Unreserved(kwargs) && KwargsSI(reduce, kwargs) == Ok(kw)
    requires !RouteOf(u, v).perSr && !RouteOf(u, v).timesSr
    requires RouteOf(u, v).key in Switchboard
    requires "arg" !in kw && Invertible(Switchboard[RouteOf(u, v).key], f.r * x, kw)
    ensures Convert(reduce, Board(Switchboard, k), from, to, x, kwargs, mag).Ok?
    ensures Convert(reduce, Board(Switchboard, k), to, from, Convert(reduce, Board(Switchboard, k), from, to, x, kwargs, mag).value, kwargs, mag) == Ok(x)
  {
    RouteBack(u, v);
    SwitchboardPaired(Peeled(Only(u, v)), Peeled(Only(v, u)));
    BoardRoundTrip(reduce, Switchboard, k, from, to, x, kwargs, mag, f, u, g, v, kw);
  }
}
