/** Option and Result, and the exceptions the construction codec can raise. */
module Wrappers {

  datatype Option<+T> = None | Some(value: T)

  /** One constructor per exception the codec raises, named after its cause. */
  datatype Error =
    | ShapeMismatch(sx: int, sy: int, sz: int)  // ValueError: a section's grid is not section_shape
    | EmptyArray                                // ValueError: max() of a zero-size array
    | NoSections                                // ValueError: max() of an empty key sequence
    | MathDomain                                // ValueError: log2 of a non-positive size
    | NotInList                                 // ValueError: list.index of a missing block
    | U32Overflow                               // struct.error: offset does not fit "<I"
    | InvalidMagic                              // AssertionError: header is not "constrct"
    | MissingKey(key: string)                   // AssertionError naming the missing key
    | IndexOutOfRange                           // IndexError: palette reference out of range
    | MagicNotFound                             // ValueError: no gzip magic after an offset
    | ZeroDivision                              // ZeroDivisionError in from_flattened_index
    | ReshapeFailed                             // ValueError: array size is not the shape's
    | BroadcastFailed                           // ValueError: grids cannot be broadcast
    | NbtDecodeFailed                           // the NBT library rejected a blob

  datatype Result<+T> = Ok(value: T) | Err(error: Error)
}
