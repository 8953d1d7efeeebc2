/** Option and Result, usable with the `:-` operator. */
module Wrappers {

  datatype Option<+T> = None | Some(value: T) {
    predicate IsFailure() { None? }

    function PropagateFailure<U>(): Option<U>
      requires None?
    {
      None
    }

    function Extract(): T
      requires Some?
    {
      value
    }
  }

  datatype Result<+R, +E> = Ok(value: R) | Err(error: E) {
    predicate IsFailure() { Err? }

    function PropagateFailure<U>(): Result<U, E>
      requires Err?
    {
      Err(error)
    }

    function Extract(): R
      requires Ok?
    {
      value
    }
  }

  /**
   * Runs a sequence of steps that may fail, in order: the first failure, or
   * all the values.
   */
  function Collect<T, E>(rs: seq<Result<T, E>>): (r: Result<seq<T>, E>)
    ensures r.Ok? <==> forall j :: 0 <= j < |rs| ==> rs[j].Ok?
    ensures r.Ok? ==> |r.value| == |rs| && forall j :: 0 <= j < |rs| ==> rs[j] == Ok(r.value[j])
    ensures r.Err? ==> exists j :: 0 <= j < |rs| && rs[j] == Err(r.error) && forall k :: 0 <= k < j ==> rs[k].Ok?
  {
    if rs == [] then Ok([])
    else
      var x :- rs[0];
      var rest :- Collect(rs[1..]);
      assert forall j :: 1 <= j < |rs| ==> rs[j] == rs[1..][j - 1];
      Ok([x] + rest)
  }

  /** When every step succeeds, `Collect` gives exactly their values. */
  lemma CollectAllOk<T, E>(rs: seq<Result<T, E>>, vs: seq<T>)
    requires |vs| == |rs| && forall j :: 0 <= j < |rs| ==> rs[j] == Ok(vs[j])
    ensures Collect(rs) == Ok(vs)
  {
    assert Collect(rs).value == vs;
  }

  /** `Collect` fails with the error of the first step that fails. */
  lemma CollectFirstErr<T, E>(rs: seq<Result<T, E>>, i: nat)
    requires i < |rs| && rs[i].Err? && forall j :: 0 <= j < i ==> rs[j].Ok?
    ensures Collect(rs) == Err(rs[i].error)
  {
    var m :| 0 <= m < |rs| && rs[m] == Err(Collect(rs).error) && forall k :: 0 <= k < m ==> rs[k].Ok?;
    assert !(m < i) && !(i < m);
  }

  /** The first `|vs|` steps succeeded with the values `vs`. */
  ghost predicate OkPrefix<T, E>(rs: seq<Result<T, E>>, vs: seq<T>)
  {
    |vs| <= |rs| && forall j :: 0 <= j < |vs| ==> rs[j] == Ok(vs[j])
  }

  /** One more successful step extends the prefix. */
  lemma OkPrefixSnoc<T, E>(rs: seq<Result<T, E>>, vs: seq<T>, v: T)
    requires OkPrefix(rs, vs) && |vs| < |rs| && rs[|vs|] == Ok(v)
    ensures OkPrefix(rs, vs + [v])
  {
  }
}
