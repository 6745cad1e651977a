/** Optional values and results, used for Python's `None` and for the
    exceptions the toolkit raises. */
module Wrappers {

  datatype Option<+T> = None | Some(value: T) {
    function GetOr(default: T): T {
      match this
      case Some(v) => v
      case None => default
    }
  }

  datatype Result<+R, +E> = Ok(value: R) | Err(error: E)

  /** What a command writes before it stops: every output line it printed,
      and the error it raised at the end, if any. */
  datatype Emitted<+T, +E> = Emitted(lines: seq<T>, failure: Option<E>)

  /** The results of a sequence of steps taken in order, stopping at the
      first failure: every value when all succeed, else the first error. */
  function Collect<T, E>(rs: seq<Result<T, E>>): Result<seq<T>, E>
  {
    if rs == [] then Ok([])
    else
      match Collect(rs[..|rs| - 1])
      case Err(e) => Err(e)
      case Ok(xs) =>
        match rs[|rs| - 1]
        case Ok(x) => Ok(xs + [x])
        case Err(e) => Err(e)
  }

  /** Collecting succeeds exactly when every step does, and then yields
      every value in order. */
  lemma {:induction false} CollectOk<T, E>(rs: seq<Result<T, E>>)
    ensures Collect(rs).Ok? <==> forall i :: 0 <= i < |rs| ==> rs[i].Ok?
    ensures Collect(rs).Ok? ==>
      |Collect(rs).value| == |rs| && forall i :: 0 <= i < |rs| ==> Collect(rs).value[i] == rs[i].value
  {
    if rs != [] {
      var init := rs[..|rs| - 1];
      CollectOk(init);
      assert forall i :: 0 <= i < |init| ==> init[i] == rs[i];
    }
  }

  /** A failed collection reports the error of the first failing step. */
  lemma {:induction false} CollectFirstError<T, E>(rs: seq<Result<T, E>>) returns (k: nat)
    requires Collect(rs).Err?
    ensures k < |rs| && rs[k].Err? && Collect(rs).error == rs[k].error
    ensures forall i :: 0 <= i < k ==> rs[i].Ok?
  {
    var init := rs[..|rs| - 1];
    if Collect(init).Err? {
      k := CollectFirstError(init);
      assert rs[k] == init[k];
      assert forall i :: 0 <= i < k ==> rs[i] == init[i];
    } else {
      k := |rs| - 1;
      CollectOk(init);
      assert forall i :: 0 <= i < k ==> rs[i] == init[i];
    }
  }

  /** Once a prefix has failed, later steps do not change the outcome. */
  lemma {:induction false} CollectErrorSticks<T, E>(rs: seq<Result<T, E>>, n: nat)
    requires n <= |rs| && Collect(rs[..n]).Err?
    ensures Collect(rs) == Collect(rs[..n])
    decreases |rs| - n
  {
    if n < |rs| {
      assert rs[..n + 1][..n] == rs[..n];
      CollectErrorSticks(rs, n + 1);
    } else {
      assert rs[..n] == rs;
    }
  }

  /** One more step of a collection that has succeeded so far. */
  lemma CollectStep<T, E>(rs: seq<Result<T, E>>, i: nat, xs: seq<T>)
    requires i < |rs| && Collect(rs[..i]) == Ok(xs)
    ensures rs[i].Ok? ==> Collect(rs[..i + 1]) == Ok(xs + [rs[i].value])
    ensures rs[i].Err? ==> Collect(rs) == Err(rs[i].error)
  {
    assert rs[..i + 1][..i] == rs[..i];
    if rs[i].Err? {
      CollectErrorSticks(rs, i + 1);
    }
  }
}
