/** Shared vocabulary: fixed-width integers, results and the client's error type. */
module Common {
  type byte = x: int | 0 <= x < 0x100
  type u16 = x: int | 0 <= x < 0x1_0000
  type u32 = x: int | 0 <= x < 0x1_0000_0000
  type u64 = x: int | 0 <= x < 0x1_0000_0000_0000_0000

  const U16_MAX: int := 0xFFFF
  const U32_MAX: int := 0xFFFF_FFFF
  const U64_MAX: int := 0xFFFF_FFFF_FFFF_FFFF
  const I64_MAX: int := 0x7FFF_FFFF_FFFF_FFFF

  type Bytes = seq<byte>

  datatype Option<+T> = None | Some(value: T)

  /** Why a `Protocol` error was raised; the source distinguishes these by message text. */
  datatype Fault =
    | InsufficientCredits
    | CreditOverflow
    | NoCredits
    | IdsExhausted
    | ChargeTooLarge
    | ZeroChunk
    | Encrypted
    | BadOptions
    | BadHeader
    | BadSignature
    | NotOutstanding
    | DuplicateFinal
    | TooMuchData
    | MissingResponse
    | ZeroCount
    | OffsetOverflow
    | BadSize
    | Identity
    | Rejected
    | RoundLimit
    | SessionIdChanged
    | SessionIdMissing
    | AuthIncomplete
    | NotNegotiated

  datatype ClientError =
    | Io
    | Timeout
    | Wire
    | Auth
    | Cancelled
    | Capability
    | ServerStatus(status: u32)
    | Protocol(fault: Fault)

  datatype Result<+T> = Ok(value: T) | Err(error: ClientError)

  function Min(a: int, b: int): int { if a <= b then a else b }

  function Max(a: int, b: int): int { if a >= b then a else b }
}
