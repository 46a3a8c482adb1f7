/** Failure-carrying results for the converter's error paths (Python exceptions). */
module Errors {

  /** The exception classes the modelled code paths can raise. */
  datatype Error =
    | DivisionByZero             // ZeroDivisionError from an integer or real division
    | MathDomain                 // ValueError from math.log2 of a non-positive number
    | Index                      // IndexError from indexing past the end of a list
    | UnknownAxis                // KeyError from the axis-name to axis-type table
    | NotThreeD                  // "Input array is not 3d"
    | NoInput                    // nothing to stack / no input file
    | EmptyFile(file: nat)       // "<file> is empty"
    | KeyNotFound(file: nat)     // "Key <key> not found in file <file>"
    | ShapeMismatch              // ValueError from zarr: a stored block and its region differ in shape
    | MissingLevel               // the group has no level "0"
    | Attribute                  // AttributeError from reading an attribute a list lacks

  datatype Result<+T> = Ok(value: T) | Err(error: Error) {
    predicate IsFailure() { Err? }
    function PropagateFailure<U>(): Result<U>
      requires Err?
    {
      Err(error)
    }
    function Extract(): T
      requires Ok?
    {
      value
    }
  }

  datatype Option<+T> = None | Some(value: T)
}
