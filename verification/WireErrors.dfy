// The errors of the decoder.
module WireErrors {
  datatype Error =
    | IntOverflow
    | UnexpectedEOF
    | InvalidLength
    | EndGroupForNonGroup
    | IllegalTag(num: int, wire: int)
    | WrongWireType(wireType: int, num: int)
    | UnexpectedEndOfGroup
    | IllegalWireType(wireType: int)
}
