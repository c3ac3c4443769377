/** The exceptions the classification core can raise, and the result types that carry them. */
module Outcomes {

  /** The two exceptions the core raises on inputs it cannot score. */
  datatype Fault =
    | ZeroDivision   // `len(images) / total_images` when no cluster holds any point
    | MaxOfEmpty     // `max(probabilities)` when the cluster list itself is empty

  /** A value, or the exception raised instead of it. */
  datatype Result<T> = Ok(value: T) | Err(fault: Fault)

  datatype Option<T> = None | Some(value: T)
}
