/** Absent values, results and the exceptions the transport core can raise. */
module Errors {

  /** `T | null` (or `undefined`) in the original code. */
  datatype Option<+T> = None | Some(value: T)

  /** The exceptions thrown along the modelled paths. */
  datatype Error =
    | Exhausted                 // Error("Unable to write any more data.") of the write cursor
    | ValueOutOfRange           // Node ERR_OUT_OF_RANGE on the value of writeUIntBE/LE
    | OffsetOutOfRange          // Node bounds error on the offset of writeUIntBE/LE or readUInt16BE
    | SourceStartOutOfRange     // Node ERR_OUT_OF_RANGE on the sourceStart of Buffer.copy
    | InvalidSize               // Buffer.alloc of a negative size
    | ByteLengthOutOfRange      // Node ERR_OUT_OF_RANGE on a byteLength outside 1..6 of readUIntBE/LE
    | NotEnoughBytes            // RangeError("Not enough bytes to read.") of the read cursor
    | UnknownDcaVersion(version: Option<nat>)  // Error(`Unknown DCA version: ${version}`); None is NaN

  /** A value, or the exception that was thrown instead. */
  datatype Result<+T> = Ok(value: T) | Err(error: Error)

  /** A statement that returns nothing, or throws. */
  type Outcome = Result<()>
}
