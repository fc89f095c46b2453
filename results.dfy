/** The failure kinds the storage core reports, and the Option and Result
    wrappers that replace `undefined` and thrown errors. */
module Results {

  datatype Option<+T> = None | Some(value: T)

  datatype Error =
    | OutOfOrder        // "added out of order"
    | OversizeField     // "key length exceeds limit" / "value length exceeds limit"
    | CorruptBlock      // a record header runs past the end of a block (RangeError)
    | CorruptTable      // file too small, short read, or a negative byte range
    | OffsetOutOfRange  // a number does not fit the field `writeUIntBE` writes it to
    | NoHandle          // "Invalid state - write with no handle"
    | EmptyTable        // "Invalid sstable - no records stored"
    | InvalidBlock      // "Error: invalid block" (cursor asserted a loaded block)

  datatype Result<+T> = Ok(value: T) | Err(error: Error)
}
