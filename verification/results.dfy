/** Failure-compatible wrappers shared by every validator of the model, and
    the "first failing element" search that `Array.prototype.forEach` with a
    throwing callback amounts to. */
module Results {

  datatype Option<+T> = None | Some(value: T)

  /** The outcome of a validator: the normalised value, or the error the
      source throws. */
  datatype Result<+T, +E> = Ok(value: T) | Err(error: E) {

    predicate IsFailure() {
      Err?
    }

    function PropagateFailure<U>(): Result<U, E>
      requires Err?
    {
      Err(error)
    }

    function Extract(): T
      requires Ok?
    {
      value
    }
  }

  /** Runs `check` over `xs` from the left and stops at the first element it
      rejects, as a loop that throws from inside does. */
  function FirstError<T, E>(xs: seq<T>, check: T -> Option<E>): (r: Option<E>)
    ensures r.None? <==> forall i | 0 <= i < |xs| :: check(xs[i]).None?
    ensures r.Some? ==>
      exists i | 0 <= i < |xs| ::
        && check(xs[i]) == r
        && forall j | 0 <= j < i :: check(xs[j]).None?
  {
    if |xs| == 0 then
      None
    else if check(xs[0]).Some? then
      check(xs[0])
    else
      var rest := FirstError(xs[1..], check);
      assert forall i | 0 < i < |xs| :: xs[i] == xs[1..][i - 1];
      rest
  }

  /** Applies `f` to every element of `xs` from the left and stops at the
      first failure, as `xs.map(f)` with a throwing `f` does. */
  function MapAll<T, U, E>(xs: seq<T>, f: T -> Result<U, E>): (r: Result<seq<U>, E>)
    ensures r.Ok? <==> forall i | 0 <= i < |xs| :: f(xs[i]).Ok?
    ensures r.Ok? ==>
      && |r.value| == |xs|
      && forall i | 0 <= i < |xs| :: f(xs[i]).Ok? && r.value[i] == f(xs[i]).value
    ensures r.Err? ==>
      exists i | 0 <= i < |xs| ::
        && f(xs[i]) == Err(r.error)
        && forall j | 0 <= j < i :: f(xs[j]).Ok?
  {
    if |xs| == 0 then
      Ok([])
    else
      var y :- f(xs[0]);
      var rest :- MapAll(xs[1..], f);
      assert forall i | 0 < i < |xs| :: xs[i] == xs[1..][i - 1];
      Ok([y] + rest)
  }
}
