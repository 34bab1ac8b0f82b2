/** Results of the converter's operations: a value, or the exception the
    Python code raises instead. */
module Outcomes {

  datatype Option<+T> = None | Some(value: T)

  datatype Error =
    /** `ValueError('Unknown unit ...')`: no registry entry for the base name. */
    | UnknownUnit(name: string)
    /** `ValueError` from a change-of-base function whose reference quantity
        (`wave`, `freq`, `diam`, `radius`) was not given. */
    | MissingReference(message: string)
    /** `KeyError`: no change-of-base function under this key. */
    | UnsupportedConversion(key: string)
    /** `IndexError`: `x[-1]` on an empty atom, e.g. the piece after a
        trailing `/`. */
    | EmptyPiece
    /** `ZeroDivisionError`: a division by zero, or zero to a negative power. */
    | DivisionByZero
    /** `TypeError`: a non-linear converter on the left of `*` or on the
        right of `/`, which its class does not support. */
    | OperandType
    /** `TypeError`: a keyword argument named like a parameter the call
        already fills by position ("got multiple values for keyword
        argument"). */
    | KeywordClash(name: string)

  datatype Result<+T> = Ok(value: T) | Err(error: Error) {
    predicate IsFailure() {
      Err?
    }

    function PropagateFailure<U>(): Result<U>
      requires Err?
    {
      Err(error)
    }

    function Extract(): T
      requires Ok?
    {
      value
    }
  }

  /** `f` applied to each element in turn, as a Python loop does it: the
      first failure is the outcome. */
  function MapResult<T, U>(f: T --> Result<U>, xs: seq<T>): Result<seq<U>>
    requires forall i :: 0 <= i < |xs| ==> f.requires(xs[i])
  {
    if xs == [] then Ok([])
    else
      var y :- f(xs[0]);
      var rest :- MapResult(f, xs[1..]);
      Ok([y] + rest)
  }

  /** `MapResult` succeeds exactly when every element does, and then maps
      each element on its own; otherwise it fails with the failure of the
      first element that fails. */
  lemma {:induction false} MapResultPointwise<T, U>(f: T --> Result<U>, xs: seq<T>)
    requires forall i :: 0 <= i < |xs| ==> f.requires(xs[i])
    ensures MapResult(f, xs).Ok? <==> forall i :: 0 <= i < |xs| ==> f(xs[i]).Ok?
    ensures MapResult(f, xs).Ok? ==>
      && |MapResult(f, xs).value| == |xs|
      && forall i :: 0 <= i < |xs| ==> f(xs[i]) == Ok(MapResult(f, xs).value[i])
    ensures MapResult(f, xs).Err? ==>
      exists i :: 0 <= i < |xs| && (forall j :: 0 <= j < i ==> f(xs[j]).Ok?) && f(xs[i]) == Err(MapResult(f, xs).error)
  {
    if xs != [] {
      MapResultPointwise(f, xs[1..]);
      if f(xs[0]).Ok? {
        if MapResult(f, xs[1..]).Ok? {
          var r := MapResult(f, xs).value;
          forall i | 0 < i < |xs| ensures f(xs[i]) == Ok(r[i]) {
            assert xs[i] == xs[1..][i - 1];
          }
        } else {
          var i :| 0 <= i < |xs[1..]| && (forall j :: 0 <= j < i ==> f(xs[1..][j]).Ok?)
            && f(xs[1..][i]) == Err(MapResult(f, xs[1..]).error);
          forall j | 0 <= j < i + 1 ensures f(xs[j]).Ok? {
            if j > 0 {
              assert xs[j] == xs[1..][j - 1];
            }
          }
          assert xs[i + 1] == xs[1..][i];
        }
      } else {
        assert f(xs[0]) == Err(MapResult(f, xs).error);
      }
    }
  }

  /** Mapping one more element: what a loop over the elements does in its
      next iteration. */
  lemma {:induction false} MapResultSnoc<T, U>(f: T --> Result<U>, xs: seq<T>, x: T)
    requires forall i :: 0 <= i < |xs| ==> f.requires(xs[i])
    requires f.requires(x)
    ensures forall i :: 0 <= i < |xs + [x]| ==> f.requires((xs + [x])[i])
    ensures MapResult(f, xs + [x]) ==
      if MapResult(f, xs).Err? then MapResult(f, xs)
      else if f(x).Err? then Err(f(x).error)
      else Ok(MapResult(f, xs).value + [f(x).value])
  {
    if xs != [] {
      assert (xs + [x])[0] == xs[0];
      assert (xs + [x])[1..] == xs[1..] + [x];
      MapResultSnoc(f, xs[1..], x);
      if f(xs[0]).Ok? && MapResult(f, xs[1..]).Ok? && f(x).Ok? {
        var y, rest, z := f(xs[0]).value, MapResult(f, xs[1..]).value, f(x).value;
        assert [y] + (rest + [z]) == ([y] + rest) + [z];
      }
    } else {
      assert xs + [x] == [x];
      assert [x][1..] == [];
      assert MapResult(f, []) == Ok([]);
      assert [x][0] == x;
      if f(x).Ok? {
        assert MapResult(f, [x]) == Ok([f(x).value] + []);
        assert [f(x).value] + [] == MapResult(f, xs).value + [f(x).value];
      } else {
        assert MapResult(f, [x]) == Err(f(x).error);
      }
    }
  }

  /** Once a prefix has failed, the rest is never looked at. */
  lemma {:induction false} MapResultStops<T, U>(f: T --> Result<U>, xs: seq<T>, ys: seq<T>)
    requires forall i :: 0 <= i < |xs| ==> f.requires(xs[i])
    requires forall i :: 0 <= i < |ys| ==> f.requires(ys[i])
    requires MapResult(f, xs).Err?
    ensures forall i :: 0 <= i < |xs + ys| ==> f.requires((xs + ys)[i])
    ensures MapResult(f, xs + ys) == MapResult(f, xs)
  {
    assert xs != [];
    assert (xs + ys)[0] == xs[0];
    if f(xs[0]).Ok? {
      assert (xs + ys)[1..] == xs[1..] + ys;
      MapResultStops(f, xs[1..], ys);
    }
  }

  /** One more iteration of a loop over `xs`: the prefix mapped so far grows
      by one element. */
  lemma MapResultStep<T, U>(f: T --> Result<U>, xs: seq<T>, j: nat, done: seq<U>, y: U)
    requires forall i :: 0 <= i < |xs| ==> f.requires(xs[i])
    requires j < |xs|
    requires MapResult(f, xs[..j]) == Ok(done)
    requires f(xs[j]) == Ok(y)
    ensures MapResult(f, xs[..j + 1]) == Ok(done + [y])
  {
    MapResultSnoc(f, xs[..j], xs[j]);
    assert xs[..j] + [xs[j]] == xs[..j + 1];
  }

  /** A loop over `xs` that meets its first failure at `j` fails with it. */
  lemma MapResultFail<T, U>(f: T --> Result<U>, xs: seq<T>, j: nat, done: seq<U>)
    requires forall i :: 0 <= i < |xs| ==> f.requires(xs[i])
    requires j < |xs|
    requires MapResult(f, xs[..j]) == Ok(done)
    requires f(xs[j]).Err?
    ensures MapResult(f, xs) == Err(f(xs[j]).error)
  {
    MapResultSnoc(f, xs[..j], xs[j]);
    assert xs[..j] + [xs[j]] == xs[..j + 1];
    MapResultStops(f, xs[..j + 1], xs[j + 1..]);
    assert xs[..j + 1] + xs[j + 1..] == xs;
  }

  /** A loop over all of `xs`. */
  lemma MapResultWhole<T, U>(f: T --> Result<U>, xs: seq<T>, done: seq<U>)
    requires forall i :: 0 <= i < |xs| ==> f.requires(xs[i])
    requires MapResult(f, xs[..|xs|]) == Ok(done)
    ensures MapResult(f, xs) == Ok(done)
  {
    assert xs[..|xs|] == xs;
  }

  /** Every element mapped on its own to the matching value. */
  lemma MapResultAllOk<T, U>(f: T --> Result<U>, xs: seq<T>, ys: seq<U>)
    requires forall i :: 0 <= i < |xs| ==> f.requires(xs[i])
    requires |ys| == |xs|
    requires forall i :: 0 <= i < |xs| ==> f(xs[i]) == Ok(ys[i])
    ensures MapResult(f, xs) == Ok(ys)
  {
    MapResultPointwise(f, xs);
    assert MapResult(f, xs).value == ys;
  }

  /** Every element mapped on its own to the matching value of `ys`,
      read from offset `d`. */
  lemma MapResultAllOkFrom<T, U>(f: T --> Result<U>, xs: seq<T>, ys: seq<U>, d: nat)
    requires forall i :: 0 <= i < |xs| ==> f.requires(xs[i])
    requires |ys| == d + |xs|
    requires forall i :: 0 <= i < |xs| ==> f(xs[i]) == Ok(ys[d + i])
    ensures MapResult(f, xs) == Ok(ys[d..])
  {
    MapResultAllOk(f, xs, ys[d..]);
  }

  /** A loop that overwrites `ys[d + j]` with the image of `xs[j]` keeps
      every slot it has already written. */
  lemma OverwriteStep<T, U>(f: T --> Result<U>, xs: seq<T>, ys: seq<U>, d: nat, j: nat, y: U)
    requires forall i :: 0 <= i < |xs| ==> f.requires(xs[i])
    requires |ys| == d + |xs| && j < |xs|
    requires forall i :: 0 <= i < j ==> f(xs[i]) == Ok(ys[d + i])
    requires f(xs[j]) == Ok(y)
    ensures forall i :: 0 <= i < j + 1 ==> f(xs[i]) == Ok(ys[d + j := y][d + i])
  {
  }

  /** The first element that fails decides the outcome. */
  lemma MapResultFirstErr<T, U>(f: T --> Result<U>, xs: seq<T>, j: nat)
    requires forall i :: 0 <= i < |xs| ==> f.requires(xs[i])
    requires j < |xs|
    requires forall i :: 0 <= i < j ==> f(xs[i]).Ok?
    requires f(xs[j]).Err?
    ensures MapResult(f, xs) == Err(f(xs[j]).error)
  {
    MapResultPointwise(f, xs);
    var i :| 0 <= i < |xs| && (forall k :: 0 <= k < i ==> f(xs[k]).Ok?) && f(xs[i]) == Err(MapResult(f, xs).error);
    assert i == j;
  }
}
