/** Option and Result, and the all-or-nothing collection of a sequence of results
    (Rust's `iter.map(f).collect::<Result<Vec<_>, _>>()`). */
module Wrappers {

  datatype Option<+T> = None | Some(value: T)

  /** A failure-compatible result, so that `:-` propagates the first error as Rust's `?` does. */
  datatype Result<+T, +E> = Ok(value: T) | Err(error: E) {

    predicate IsFailure() {
      Err?
    }

    function PropagateFailure<U>(): Result<U, E>
      requires Err?
    {
      Err(error)
    }

    function Extract(): T
      requires Ok?
    {
      value
    }
  }

  /** Applies `f` to every element in order and collects the values; the first error stops the
      traversal and is the one returned, so no partial sequence is ever produced. */
  function MapAll<A, B, E>(xs: seq<A>, f: A -> Result<B, E>): (r: Result<seq<B>, E>)
    ensures r.Ok? <==> forall i :: 0 <= i < |xs| ==> f(xs[i]).Ok?
    ensures r.Ok? ==> |r.value| == |xs| && forall i :: 0 <= i < |xs| ==> f(xs[i]) == Ok(r.value[i])
    ensures r.Err? ==>
              exists i :: 0 <= i < |xs| && f(xs[i]) == Err(r.error) && forall j :: 0 <= j < i ==> f(xs[j]).Ok?
  {
    if xs == [] then Ok([])
    else
      match f(xs[0])
      case Err(e) => Err(e)
      case Ok(v) =>
        match MapAll(xs[1..], f)
        case Err(e) => assert forall j :: 0 <= j < |xs| - 1 ==> xs[1..][j] == xs[j + 1]; Err(e)
        case Ok(vs) => Ok([v] + vs)
  }

  /** The first error among steps taken in order, each given as its error or `None`: what a
      chain of `?` returns. `None` exactly when no step fails. */
  function FirstError<E>(outcomes: seq<Option<E>>): (r: Option<E>)
    ensures r.None? <==> forall i :: 0 <= i < |outcomes| ==> outcomes[i].None?
    ensures forall k :: 0 <= k < |outcomes| && outcomes[k].Some? && (forall j :: 0 <= j < k ==> outcomes[j].None?) ==>
              r == outcomes[k]
    ensures r.Some? ==>
              exists k :: 0 <= k < |outcomes| && outcomes[k] == r && forall j :: 0 <= j < k ==> outcomes[j].None?
  {
    if outcomes == [] then None
    else if outcomes[0].Some? then outcomes[0]
    else
      assert forall i :: 0 <= i < |outcomes| - 1 ==> outcomes[1..][i] == outcomes[i + 1];
      FirstError(outcomes[1..])
  }

  /** One step of MapAll, for proofs over sequences given element by element. */
  lemma {:induction false} MapAllCons<A, B, E>(x: A, xs: seq<A>, f: A -> Result<B, E>)
    ensures MapAll([x] + xs, f) ==
            match f(x)
            case Err(e) => Err(e)
            case Ok(v) => (match MapAll(xs, f) case Err(e) => Err(e) case Ok(vs) => Ok([v] + vs))
  {
    assert ([x] + xs)[1..] == xs;
  }

  lemma {:induction false} MapAllOne<A, B, E>(x: A, f: A -> Result<B, E>)
    ensures MapAll([x], f) == match f(x) case Err(e) => Err(e) case Ok(v) => Ok([v])
  {
    assert [x][1..] == [];
    assert MapAll([], f) == Ok([]);
    match f(x)
    case Err(e) =>
    case Ok(v) => assert [v] + [] == [v];
  }

  /** When every element maps to its counterpart, the whole sequence maps to the counterparts. */
  lemma {:induction false} MapAllPointwise<A, B, E>(xs: seq<A>, f: A -> Result<B, E>, ys: seq<B>)
    requires |xs| == |ys| && forall i :: 0 <= i < |xs| ==> f(xs[i]) == Ok(ys[i])
    ensures MapAll(xs, f) == Ok(ys)
  {
    var r := MapAll(xs, f);
    assert r.Ok?;
    assert forall i :: 0 <= i < |xs| ==> r.value[i] == ys[i];
    assert r.value == ys;
  }
}
