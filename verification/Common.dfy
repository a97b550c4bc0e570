/** Small datatypes shared by every component. */
module Common {

  datatype Option<+T> = None | Some(value: T)

  datatype Result<+T, +E> = Ok(value: T) | Err(error: E)

  /** The exception classes the services raise; Database stands for an error of the query itself,
      Unexpected for a programming error that escapes. */
  datatype ServiceError = NotFound | Validation | Database | Unexpected

  function Abs(x: real): real {
    if x < 0.0 then -x else x
  }

  ghost predicate Distinct<T>(s: seq<T>) {
    forall i, j | 0 <= i < j < |s| :: s[i] != s[j]
  }

  lemma Associates<T>(a: seq<T>, b: seq<T>, c: seq<T>)
    ensures a + (b + c) == (a + b) + c
  {
  }
}
