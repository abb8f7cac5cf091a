/** The two result shapes the model uses for the sources' nullable returns
    and thrown exceptions. */
module Wrappers {

  datatype Option<T> = None | Some(value: T)

  datatype Result<T, E> = Ok(value: T) | Err(error: E)
  {
    predicate IsFailure() { Err? }
  }

  /** The values of the first `count` results, in order, or the error of
      the first failing one: a loop that throws on its first bad element. */
  function Collect<T, E>(rs: seq<Result<T, E>>, count: nat): (r: Result<seq<T>, E>)
    requires count <= |rs|
    ensures r.Ok? ==> |r.value| == count
  {
    if count == 0 then Ok([])
    else
      var front := Collect(rs, count - 1);
      if front.Err? then front
      else if rs[count - 1].Err? then Err(rs[count - 1].error)
      else Ok(front.value + [rs[count - 1].value])
  }

  /** A successful collection holds each result's own value at its own
      index. */
  lemma {:induction false} CollectAt<T, E>(rs: seq<Result<T, E>>, count: nat, i: nat)
    requires count <= |rs| && Collect(rs, count).Ok? && i < count
    ensures rs[i] == Ok(Collect(rs, count).value[i])
    decreases count
  {
    if i < count - 1 {
      CollectAt(rs, count - 1, i);
    }
  }

  /** Once a result fails, collecting more fails with the same error. */
  lemma {:induction false} CollectErrorSticks<T, E>(rs: seq<Result<T, E>>, i: nat, count: nat)
    requires i <= count <= |rs| && Collect(rs, i).Err?
    ensures Collect(rs, count) == Collect(rs, i)
    decreases count - i
  {
    if i < count {
      CollectErrorSticks(rs, i, count - 1);
    }
  }

  /** The first failing result decides the collection's error. */
  lemma CollectStopsAt<T, E>(rs: seq<Result<T, E>>, i: nat, count: nat)
    requires i < count <= |rs| && Collect(rs, i).Ok? && rs[i].Err?
    ensures Collect(rs, count) == Err(rs[i].error)
  {
    assert Collect(rs, i + 1) == Err(rs[i].error);
    CollectErrorSticks(rs, i + 1, count);
  }

  /** Only the counted results matter. */
  lemma {:induction false} CollectPrefix<T, E>(rs: seq<Result<T, E>>, more: seq<Result<T, E>>, count: nat)
    requires count <= |rs|
    ensures Collect(rs + more, count) == Collect(rs, count)
    decreases count
  {
    if count > 0 {
      CollectPrefix(rs, more, count - 1);
      assert (rs + more)[count - 1] == rs[count - 1];
    }
  }

  /** All results succeed exactly when the collection does, and then it
      holds their values. */
  lemma {:induction false} CollectAllOk<T, E>(rs: seq<Result<T, E>>, values: seq<T>)
    requires |rs| == |values|
    requires forall i :: 0 <= i < |rs| ==> rs[i] == Ok(values[i])
    ensures Collect(rs, |rs|) == Ok(values)
    decreases |rs|
  {
    if |rs| > 0 {
      var n := |rs| - 1;
      CollectAllOk(rs[..n], values[..n]);
      CollectPrefix(rs[..n], rs[n..], n);
      assert rs[..n] + rs[n..] == rs;
      assert values[..n] + [values[n]] == values;
    }
  }
}
