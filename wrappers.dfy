/** Option and Result, the two failure-carrying wrappers the model uses. */
module Wrappers {

  datatype Option<+T> = None | Some(value: T)

  /** A computation that either produces a value or fails with an error,
      standing for a Python call that returns or raises. */
  datatype Result<+T, +E> = Ok(value: T) | Err(error: E)

  /** Two steps that each produce a list, run one after the other: the
      first error wins, otherwise the lists are concatenated. */
  function Chain<T, E>(a: Result<seq<T>, E>, b: Result<seq<T>, E>): Result<seq<T>, E> {
    match a
    case Err(e) => Err(e)
    case Ok(x) =>
      match b
      case Err(e) => Err(e)
      case Ok(y) => Ok(x + y)
  }

  lemma ChainOk<T, E>(a: Result<seq<T>, E>)
    ensures Chain(a, Ok([])) == a
  {
    if a.Ok? {
      assert a.value + [] == a.value;
    }
  }

  lemma ChainAssoc<T, E>(a: Result<seq<T>, E>, b: Result<seq<T>, E>, c: Result<seq<T>, E>)
    ensures Chain(Chain(a, b), c) == Chain(a, Chain(b, c))
  {
    if a.Ok? && b.Ok? && c.Ok? {
      assert (a.value + b.value) + c.value == a.value + (b.value + c.value);
    }
  }

  lemma ChainOkIff<T, E>(a: Result<seq<T>, E>, b: Result<seq<T>, E>)
    ensures Chain(a, b).Ok? <==> a.Ok? && b.Ok?
    ensures Chain(a, b).Ok? ==> Chain(a, b).value == a.value + b.value
  {
  }

  /** A run of steps that each produce a list: all the lists, concatenated
      in order, or the error of the first step that fails. */
  function Concat<T, E>(rs: seq<Result<seq<T>, E>>): Result<seq<T>, E>
    decreases |rs|
  {
    if rs == [] then Ok([]) else Chain(Concat(rs[..|rs| - 1]), rs[|rs| - 1])
  }

  lemma {:induction false} ConcatOk<T, E>(rs: seq<Result<seq<T>, E>>)
    ensures Concat(rs).Ok? <==> forall k :: 0 <= k < |rs| ==> rs[k].Ok?
    decreases |rs|
  {
    if rs != [] {
      var init := rs[..|rs| - 1];
      ConcatOk(init);
      assert forall k :: 0 <= k < |init| ==> init[k] == rs[k];
    }
  }

  /** The run fails with the error of its first failing step. */
  lemma {:induction false} ConcatErr<T, E>(rs: seq<Result<seq<T>, E>>) returns (i: nat)
    requires Concat(rs).Err?
    ensures i < |rs| && rs[i] == Err(Concat(rs).error)
    ensures forall j :: 0 <= j < i ==> rs[j].Ok?
    decreases |rs|
  {
    var init := rs[..|rs| - 1];
    if Concat(init).Err? {
      i := ConcatErr(init);
    } else {
      ConcatOk(init);
      i := |rs| - 1;
    }
  }

  /** Once a prefix of the run has failed, the rest of it does not matter. */
  lemma {:induction false} ConcatPrefixErr<T, E>(rs: seq<Result<seq<T>, E>>, n: nat)
    requires n <= |rs| && Concat(rs[..n]).Err?
    ensures Concat(rs) == Concat(rs[..n])
    decreases |rs|
  {
    if n < |rs| {
      var init := rs[..|rs| - 1];
      assert init[..n] == rs[..n];
      ConcatPrefixErr(init, n);
    } else {
      assert rs[..n] == rs;
    }
  }

  /** One more successful step appends its list. */
  lemma ConcatStep<T, E>(rs: seq<Result<seq<T>, E>>, n: nat, acc: seq<T>)
    requires n < |rs| && Concat(rs[..n]) == Ok(acc) && rs[n].Ok?
    ensures Concat(rs[..n + 1]) == Ok(acc + rs[n].value)
  {
    assert rs[..n + 1][..n] == rs[..n];
  }

  /** A failing step after successful ones fails the whole run. */
  lemma ConcatStepErr<T, E>(rs: seq<Result<seq<T>, E>>, n: nat)
    requires n < |rs| && Concat(rs[..n]).Ok? && rs[n].Err?
    ensures Concat(rs) == Err(rs[n].error)
  {
    assert rs[..n + 1][..n] == rs[..n];
    ConcatPrefixErr(rs, n + 1);
  }
}
