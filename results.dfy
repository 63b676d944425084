/** Rust's `Option` and `Result`, and the "first element that fails a check" search that
    the validators run over their lists (`for (idx, x) in xs.iter().enumerate()` with an
    early `return Err(..)`). */
module Results {

  datatype Option<+T> = None | Some(value: T)

  datatype Result<+T, +E> = Ok(value: T) | Err(error: E)

  /** The first index at or after `from` whose element `check` rejects, with the error
      `check` gave for it; `None` when every element from `from` on passes. */
  function FirstErr<T, E(==)>(xs: seq<T>, check: T -> Result<(), E>, from: nat): (r: Option<(nat, E)>)
    decreases |xs| - from
    ensures r.None? <==> forall j :: from <= j < |xs| ==> check(xs[j]).Ok?
    ensures r.Some? ==>
              from <= r.value.0 < |xs| &&
              check(xs[r.value.0]) == Err(r.value.1) &&
              forall j :: from <= j < r.value.0 ==> check(xs[j]).Ok?
  {
    if from >= |xs| then None
    else match check(xs[from])
      case Err(e) => Some((from, e))
      case Ok(_) => FirstErr(xs, check, from + 1)
  }
}
