/** The exceptions the monomer-group and chain-building code can raise, as values.
    Each constructor corresponds to one Python exception class raised by the source,
    carrying the data its message names. */
module Errors {

  datatype Error =
    | IndexError(resname: string)                         // empty fragment list for a residue
    | TypeError(typeName: string)                         // value is neither a pattern nor a list
    | ValueError(resname: string, index: nat, pattern: string)  // invalid fragment pattern
    | KeyError(key: string)                               // missing residue in a lookup
    | StopIteration                                       // an exhausted fragment iterator
    | NotImplementedError                                 // merge with a non-group operand
    | MorphologyError                                     // linear building of a branchable group
    // Python's `[].pop()` raises IndexError ("pop from empty list"); it is kept apart from
    // the construction-time IndexError above because it carries no residue name. It is
    // unreachable in the builders, whose drawn fragments are all terminal.
    | PopFromEmpty                                        // an end group with no port to bond through

  /** Either a value or the exception that ended the operation; usable with `:-`. */
  datatype Result<+T> = Success(value: T) | Failure(error: Error) {

    predicate IsFailure() {
      Failure?
    }

    function PropagateFailure<U>(): Result<U>
      requires Failure?
    {
      Failure(error)
    }

    function Extract(): T
      requires Success?
    {
      value
    }
  }

  datatype Option<+T> = None | Some(value: T)
}
