/** Machine integers, wrappers and the FastCGI constants the client uses
    (values from section 8 of the FastCGI Specification 1.0). */
module Fcgi {

  newtype uint8 = x: int | 0 <= x < 0x100
  newtype uint16 = x: int | 0 <= x < 0x1_0000

  datatype Option<+T> = None | Some(value: T)

  datatype Result<+T, +E> = Success(value: T) | Failure(error: E)

  /** An error reported by the transport or by a writer; its text is irrelevant here. */
  datatype IoError = IoError(code: nat)

  // Record types (FastCGI Specification 1.0, section 8).
  const TypeEndRequest: uint8 := 3
  const TypeParams: uint8 := 4
  const TypeStdin: uint8 := 5
  const TypeStdout: uint8 := 6
  const TypeStderr: uint8 := 7

  /** The Responder role of a BeginRequest body (section 6.2). */
  const RoleResponder: uint16 := 1

  /** A record read from the connection, reduced to what the read loop looks at. */
  datatype Record = Record(rtype: uint8, content: seq<uint8>)

  /** One outbound write operation of the connection, as the client issues it. */
  datatype Frame =
    | BeginRequest(id: uint16, role: uint16, flags: uint8)
    | Pairs(rtype: uint8, id: uint16, pairs: map<string, string>)
    | Stream(rtype: uint8, id: uint16, content: seq<uint8>)
}
