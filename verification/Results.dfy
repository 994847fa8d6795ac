/** Optional values, and results that stand for a value or a thrown exception. */
module Results {
  datatype Option<+T> = None | Some(value: T)

  /** The exception classes that the modelled code throws. */
  datatype Exception = InvalidArgument | Logic | Resource | NotFound | File

  datatype Result<+T> = Ok(value: T) | Throws(error: Exception) {
    predicate IsFailure() {
      Throws?
    }
    function PropagateFailure<U>(): Result<U>
      requires Throws?
    {
      Throws(error)
    }
    function Extract(): T
      requires Ok?
    {
      value
    }
  }

  /** `done` followed by the result for what is left. */
  ghost function Prepend<T>(done: seq<T>, r: Result<seq<T>>): (all: Result<seq<T>>)
    ensures done == [] ==> all == r
    ensures r == Ok([]) ==> all == Ok(done)
  {
    if r.Ok? then
      assert [] + r.value == r.value && done + [] == done;
      Ok(done + r.value)
    else r
  }

  lemma PrependOne<T>(done: seq<T>, x: T, r: Result<seq<T>>)
    ensures Prepend(done, Prepend([x], r)) == Prepend(done + [x], r)
  {
    if r.Ok? {
      assert done + ([x] + r.value) == (done + [x]) + r.value;
    }
  }
}
