/** The parts of SMB2 responses the client's state machines look at. */
module Messages {
  import opened Common

  const STATUS_SUCCESS: u32 := 0x0000_0000
  const STATUS_PENDING: u32 := 0x0000_0103
  const STATUS_END_OF_FILE: u32 := 0xC000_0011
  const STATUS_CANCELLED: u32 := 0xC000_0120

  datatype Command = SessionSetup | Read | Write | SetInfo | Flush | Close | OtherCommand

  /** Responses carry a status; the request form of the same field carries a channel sequence. */
  datatype StatusField = Status(code: u32) | ChannelSequence

  datatype HeaderId = Sync(treeId: u32) | Async(asyncId: u64)

  /** `signed` is the SIGNED flag; `macValid` is what verifying the signature would say. */
  datatype Header = Header(
    command: Command,
    messageId: u64,
    sessionId: u64,
    status: StatusField,
    id: HeaderId,
    credits: u16,
    signed: bool,
    macValid: bool)

  datatype Body = ReadData(data: Bytes) | WriteCount(count: u32) | Empty | Undecodable

  /** One framed message delivered by the transport. */
  datatype Incoming = Malformed | Message(header: Header, body: Body)

  predicate HasStatus(m: Incoming, code: u32) {
    m.Message? && m.header.status == Status(code)
  }
}
