/** Error kinds raised by the dump tool, and the Result/Option wrappers used
    to model its exceptions and its "nothing arrived yet" poll results. */
module Results {

  /** The exceptions the dump tool can raise, one constructor per cause. */
  datatype Error =
    | UnknownBank        // KeyError from the BANKS lookup
    | FirstOutOfRange    // ValueError: first program number outside 0..127
    | LastOutOfRange     // ValueError: last program number below first or above 127
    | ChunkLength        // ValueError: a trailing packed chunk shorter than 8 bytes
    | NameNotAscii       // UnicodeDecodeError: a name byte of 128 or more
    | HeaderIndex        // IndexError: header byte 8 or 9 missing, or bank byte >= 8

  datatype Result<T> = Ok(value: T) | Err(error: Error)

  datatype Option<T> = None | Some(value: T)
}
