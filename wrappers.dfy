/** Small failure-carrying datatypes shared by the model. */
module Wrappers {

  /** A value that may be missing (Rust's `Option`). */
  datatype Option<T> = None | Some(value: T)

  /** Rust's `Result<T, ()>`: the source's error values carry no payload. */
  datatype Result<T> = Ok(value: T) | Err

  /** What a Rust call does when it can panic: it returns a value, or it panics. */
  datatype Outcome<T> = Returns(value: T) | Panics

  /**
   * `iter().map(f).collect()` with an `f` that can panic: every element is mapped in
   * order, and the first panic makes the whole collection panic.
   */
  function MapAll<A, B>(xs: seq<A>, f: A -> Outcome<B>): (r: Outcome<seq<B>>)
    ensures r.Returns? <==> forall i :: 0 <= i < |xs| ==> f(xs[i]).Returns?
    ensures r.Returns? ==> |r.value| == |xs| && forall i :: 0 <= i < |xs| ==> f(xs[i]) == Returns(r.value[i])
  {
    if xs == [] then Returns([])
    else
      assert forall i :: 0 <= i < |xs| - 1 ==> xs[1..][i] == xs[i + 1];
      match f(xs[0])
      case Panics => Panics
      case Returns(y) =>
        match MapAll(xs[1..], f)
        case Panics => Panics
        case Returns(ys) => Returns([y] + ys)
  }
}
