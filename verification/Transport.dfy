/** Message reassembly over a TCP byte stream: a receive may be abandoned at any wait and resumed
    later without losing or repeating a byte. */
module Transport {
  import opened Common
  import opened Frame

  /** What one wait for socket data comes to; `Dropped` is the caller abandoning the receive. */
  datatype SocketRead = Chunk(bytes: Bytes) | Eof | TimedOut | Failed | Dropped

  datatype Received = Message(payload: Bytes) | Abandoned | Error(error: ClientError)

  class TcpTransport {
    const maxMessageSize: nat
    var readBuffer: Bytes
    /** What the socket will yield, in order: any peer and any split is some value of this. */
    var socket: seq<SocketRead>
    /** All bytes read from the socket and all messages handed out so far. */
    ghost var bytes: Bytes
    ghost var delivered: seq<Bytes>

    /** Re-framed deliveries and the buffer together are exactly the bytes received. */
    ghost predicate Valid()
      reads this
    {
      && 0 < maxMessageSize <= MAX_PAYLOAD
      && (forall p :: p in delivered ==> |p| <= maxMessageSize)
      && bytes == Frames(delivered) + readBuffer
    }

    constructor (maxMessageSize: nat, socket: seq<SocketRead>)
      requires 0 < maxMessageSize <= MAX_PAYLOAD
      ensures Valid() && delivered == [] && bytes == [] && this.socket == socket && this.maxMessageSize == maxMessageSize
    {
      this.maxMessageSize, this.socket := maxMessageSize, socket;
      readBuffer, bytes, delivered := [], [], [];
    }

    /** Splits the first frame off the buffer if it is complete. */
    method TryTakeMessage() returns (r: Result<Option<Bytes>>)
      requires Valid()
      modifies this`readBuffer, this`delivered
      ensures Valid()
      ensures r.Ok? && r.value.Some? ==> delivered == old(delivered) + [r.value.value] && |readBuffer| < |old(readBuffer)|
      ensures r.Err? || r.value.None? ==> unchanged(this)
      ensures r.Ok? && r.value.None? <==> old(Incomplete(readBuffer))
      ensures r.Err? <==> old(Malformed(readBuffer))
      ensures r.Err? ==> r.error == if DecodeLength(readBuffer[..HEADER_SIZE]).Err? then Wire else Protocol(TooMuchData)
    {
      hide Frames, DecodeLength, Header;
      BadHeaderIsWire(readBuffer);
      if |readBuffer| < HEADER_SIZE {
        return Ok(None);
      }
      var length := DecodeLength(readBuffer[..HEADER_SIZE]);
      if length.Err? {
        return Err(length.error);
      }
      if length.value > maxMessageSize {
        return Err(Protocol(TooMuchData));
      }
      var frameLength := HEADER_SIZE + length.value;
      if |readBuffer| < frameLength {
        return Ok(None);
      }
      var frame, remainder := readBuffer[..frameLength], readBuffer[frameLength..];
      var payload := frame[HEADER_SIZE..];
      HeaderUnique(readBuffer[..HEADER_SIZE]);
      assert readBuffer == Framed(payload) + remainder by {
        assert readBuffer[..HEADER_SIZE] == Header(|payload|);
        assert readBuffer == (readBuffer[..HEADER_SIZE] + payload) + remainder;
      }
      assert (Frames(delivered) + Framed(payload)) + remainder == Frames(delivered) + readBuffer;
      FramesSnoc(delivered, payload);
      readBuffer := remainder;
      delivered := delivered + [payload];
      return Ok(Some(payload));
    }

    lemma BadHeaderIsWire(buffer: Bytes)
      ensures |buffer| >= HEADER_SIZE && DecodeLength(buffer[..HEADER_SIZE]).Err? ==> DecodeLength(buffer[..HEADER_SIZE]).error == Wire
    {}

    /** More bytes are needed before anything can be said or delivered. */
    predicate Incomplete(buffer: Bytes) {
      |buffer| < HEADER_SIZE ||
      (var length := DecodeLength(buffer[..HEADER_SIZE]);
       length.Ok? && length.value <= maxMessageSize && |buffer| < HEADER_SIZE + length.value)
    }

    /** A bad or oversized header. */
    predicate Malformed(buffer: Bytes) {
      |buffer| >= HEADER_SIZE &&
      (var length := DecodeLength(buffer[..HEADER_SIZE]); length.Err? || length.value > maxMessageSize)
    }

    /** A wait that came to at least one byte. */
    predicate Bringing(e: SocketRead) { e.Chunk? && e.bytes != [] }

    /** How a receive ends, by the last wait it took part in, if any: data lets it go on until a message is
        complete or the buffer is malformed; anything else ends it at once. */
    ghost predicate EndsBy(r: Received, last: Option<SocketRead>) {
      if last.None? || Bringing(last.value) then !r.Abandoned? && r != Error(Timeout)
      else
        match last.value
        case TimedOut => r == Error(Timeout)
        case Dropped => r == Abandoned
        case _ => r == Error(Io)
    }

    /** Waits for one message. Nothing is lost when the wait is abandoned or fails: what has been
        read and what is still to come always make up the same stream. */
    method ReceiveMessage() returns (r: Received, ghost waits: nat)
      requires Valid()
      modifies this
      ensures Valid() && |socket| <= |old(socket)| && old(bytes) <= bytes
      ensures bytes + Yield(socket) == old(bytes) + Yield(old(socket))
      ensures delivered == old(delivered) + if r.Message? then [r.payload] else []
      ensures !r.Message? ==> Incomplete(readBuffer) || Malformed(readBuffer)
      ensures |socket| == |old(socket)| ==>
                if r.Message? then |readBuffer| < |old(readBuffer)| else Malformed(readBuffer) || old(socket) == []
      ensures r.Error? && r.error != Io && r.error != Timeout ==> Malformed(readBuffer)
      ensures waits <= |old(socket)| && socket == old(socket)[waits..] && forall i :: 0 <= i < waits - 1 ==> Bringing(old(socket)[i])
      ensures EndsBy(r, if waits == 0 then None else Some(old(socket)[waits - 1]))
      ensures r == Error(Io) ==> socket == [] || (waits > 0 && !Bringing(old(socket)[waits - 1]))
    {
      hide Frames, Yield, DecodeLength, Malformed, Incomplete;
      waits := 0;
      while true
        invariant Valid() && |socket| <= |old(socket)| && delivered == old(delivered) && old(bytes) <= bytes
        invariant bytes + Yield(socket) == old(bytes) + Yield(old(socket))
        invariant |socket| == |old(socket)| ==> readBuffer == old(readBuffer) && socket == old(socket)
        invariant waits <= |old(socket)| && socket == old(socket)[waits..]
        invariant forall i :: 0 <= i < waits ==> Bringing(old(socket)[i])
        decreases |socket|
      {
        var taken := TryTakeMessage();
        if taken.Err? {
          return Error(taken.error), waits;
        }
        if taken.value.Some? {
          return Message(taken.value.value), waits;
        }
        if socket == [] {
          return Error(Io), waits;
        }
        waits := waits + 1;
        var ended := Wait();
        if ended.Some? {
          return ended.value, waits;
        }
      }
    }

    /** One wait for socket data. */
    method Wait() returns (ended: Option<Received>)
      requires Valid() && socket != []
      modifies this
      ensures Valid() && socket == old(socket)[1..] && delivered == old(delivered) && old(bytes) <= bytes
      ensures bytes + Yield(socket) == old(bytes) + Yield(old(socket))
      ensures ended.None? <==> Bringing(old(socket)[0])
      ensures ended.Some? ==> EndsBy(ended.value, Some(old(socket)[0])) && readBuffer == old(readBuffer) && !ended.value.Message?
    {
      hide Frames, Yield;
      var read := socket[0];
      YieldHead(bytes, socket);
      socket := socket[1..];
      match read {
        case Chunk(b) =>
          if b == [] {
            return Some(Error(Io));
          }
          Grow(Frames(delivered), readBuffer, b);
          readBuffer := readBuffer + b;
          bytes := bytes + b;
          return None;
        case Eof => return Some(Error(Io));
        case Failed => return Some(Error(Io));
        case TimedOut => return Some(Error(Timeout));
        case Dropped => return Some(Abandoned);
      }
    }

    /** Receives again and again, ignoring abandoned and failed waits, until the socket has nothing
        more. If the stream carried whole, acceptable frames, their payloads have all been delivered
        in order and nothing is left over. */
    method Pump(ghost payloads: seq<Bytes>) returns (messages: seq<Bytes>)
      requires Valid() && delivered == [] && bytes == []
      requires forall p :: p in payloads ==> |p| <= maxMessageSize
      requires Yield(socket) == Frames(payloads)
      modifies this
      ensures Valid() && socket == [] && messages == delivered == payloads && readBuffer == []
    {
      hide Frames, Yield, DecodeLength, Malformed, Incomplete, EndsBy, Bringing;
      messages := [];
      var more := true;
      while more
        invariant Valid() && bytes + Yield(socket) == Frames(payloads) && messages == delivered
        invariant !more ==> socket == [] && Incomplete(readBuffer)
        decreases |socket|, more, |readBuffer|
      {
        var r, waits := ReceiveMessage();
        InOrder(payloads);
        if r.Message? {
          messages := messages + [r.payload];
        } else if socket == [] {
          more := false;
        }
      }
      YieldNone();
      StreamDone(payloads);
    }

    /** On a well-formed stream what was delivered is a prefix of the payloads, and the buffer never
        becomes malformed. */
    lemma InOrder(payloads: seq<Bytes>)
      requires Valid() && bytes + Yield(socket) == Frames(payloads)
      requires forall p :: p in payloads ==> |p| <= maxMessageSize
      ensures delivered <= payloads && !Malformed(readBuffer)
    {
      hide Frames, Framed, DecodeLength, Yield;
      var rest := readBuffer + Yield(socket);
      assert Frames(delivered) + rest == Frames(payloads);
      OneWayToSplit(delivered, rest, payloads);
      if |readBuffer| >= HEADER_SIZE {
        FramesHead(payloads[|delivered|..]);
        var next := payloads[|delivered|];
        FrontFrame(next, Frames(payloads[|delivered|..][1..]));
        assert rest[..HEADER_SIZE] == readBuffer[..HEADER_SIZE];
      }
    }

    /** When the whole stream has arrived and no frame is pending, everything has been delivered. */
    lemma StreamDone(payloads: seq<Bytes>)
      requires Valid() && bytes == Frames(payloads) && Incomplete(readBuffer)
      requires forall p :: p in payloads ==> |p| <= maxMessageSize
      ensures delivered == payloads && readBuffer == []
    {
      hide Frames, Framed, DecodeLength;
      OneWayToSplit(delivered, readBuffer, payloads);
      var rest := payloads[|delivered|..];
      FramesHead(rest);
      if rest != [] {
        FrontFrame(rest[0], Frames(rest[1..]));
        FramedLength(rest[0]);
      }
    }
  }

  lemma FramedLength(p: Bytes)
    ensures |Framed(p)| == HEADER_SIZE + |p|
  {}

  lemma FramesHead(payloads: seq<Bytes>)
    ensures payloads == [] ==> Frames(payloads) == []
    ensures payloads != [] ==> Frames(payloads) == Framed(payloads[0]) + Frames(payloads[1..])
  {}

  /** The bytes a run of socket waits yields. */
  function Yield(waits: seq<SocketRead>): Bytes {
    if waits == [] then [] else (if waits[0].Chunk? then waits[0].bytes else []) + Yield(waits[1..])
  }

  lemma YieldNone()
    ensures Yield([]) == []
  {}

  lemma YieldHead(before: Bytes, waits: seq<SocketRead>)
    requires waits != []
    ensures before + Yield(waits) == (before + (if waits[0].Chunk? then waits[0].bytes else [])) + Yield(waits[1..])
    ensures before + [] == before
  {
    hide Yield;
    var head := if waits[0].Chunk? then waits[0].bytes else [];
    assert Yield(waits) == head + Yield(waits[1..]) by { YieldUnfold(waits); }
  }

  lemma YieldUnfold(waits: seq<SocketRead>)
    requires waits != []
    ensures Yield(waits) == (if waits[0].Chunk? then waits[0].bytes else []) + Yield(waits[1..])
  {}

  lemma Grow(done: Bytes, buffer: Bytes, more: Bytes)
    ensures (done + buffer) + more == done + (buffer + more)
  {}
}
