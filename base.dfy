/** Outcomes shared by every part of the converter: an optional value, and a
    value-or-Python-exception result. */
module Base {

  datatype Option<+T> = None | Some(value: T)

  /** The exceptions the converter can raise, one constructor per kind. */
  datatype Error =
    | OpenError(path: string)                  // tables.open_file could not open the file
    | NoSuchNode(where: string, name: string)  // tables.NoSuchNodeError that nothing catches
    | KeyError(key: string)                    // Python KeyError with its argument
    | IndexError                               // first row of an empty table
    | FieldError(field: string)                // a structured array has no such field
    | QueryError(condition: string)            // pytables rejects a where-condition on no column
    | TypeError                                // subscripting None
    | UnpackError(parts: nat)                  // ValueError from unpacking into three names

  datatype Result<+T> = Ok(value: T) | Err(error: Error)
}
