/** Outcomes of the decoding code: a value, or the error the Go code returns. */
module Results {
  datatype Option<+T> = None | Some(value: T)

  datatype Result<+T> = Ok(value: T) | Err(error: Error)

  datatype Error =
    | IntOverflow
    | UnexpectedEOF
    | InvalidLength
    | EndGroupForNonGroup
    | UnexpectedEndOfGroup
    | IllegalTag(fieldNum: int)
    | IllegalWireType(wireType: int)
    | WrongWireType(field: int, got: int)
    | UnexpectedFormat(typ: int)
}
