/** Shapes shared by every component of the controller model. */
module Common {

  /** A Go pointer to a value: nil or the value pointed at. */
  datatype Option<+T> = None | Some(value: T)

  /** The value of a function that may return an error instead. */
  datatype Result<+T, +E> = Ok(value: T) | Err(error: E)

  lemma SubsetSize<T>(small: set<T>, large: set<T>)
    requires small <= large
    ensures |small| <= |large|
  {
    assert small + (large - small) == large;
  }
}
