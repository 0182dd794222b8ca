/** Direct-TCP framing: a zero byte, a 24-bit big-endian length, the payload (MS-SMB2 section 2.1). */
module Frame {
  import opened Common

  const HEADER_SIZE: nat := 4
  const MAX_PAYLOAD: nat := 0x00FF_FFFF

  /** The four header bytes; only the low 24 bits of the length fit. */
  function Header(length: nat): (h: Bytes)
    ensures |h| == HEADER_SIZE
  {
    [0, length / 0x1_0000 % 0x100, length / 0x100 % 0x100, length % 0x100]
  }

  function Framed(payload: Bytes): Bytes { Header(|payload|) + payload }

  function Encode(payload: Bytes): Result<Bytes> {
    if |payload| > MAX_PAYLOAD then Err(Wire) else Ok(Framed(payload))
  }

  function DecodeLength(header: Bytes): Result<nat> {
    if |header| < HEADER_SIZE then Err(Wire)
    else if header[0] != 0 then Err(Wire)
    else Ok((header[1] as int) * 0x1_0000 + (header[2] as int) * 0x100 + header[3])
  }

  function DecodeFrame(frame: Bytes): Result<Bytes> {
    if |frame| < HEADER_SIZE then Err(Wire)
    else
      var declared := DecodeLength(frame[..HEADER_SIZE]);
      if declared.Err? then Err(declared.error)
      else if |frame| - HEADER_SIZE != declared.value then Err(Wire)
      else Ok(frame[HEADER_SIZE..])
  }

  /** A length that fits survives its header. */
  lemma HeaderRoundTrip(length: nat)
    requires length <= MAX_PAYLOAD
    ensures DecodeLength(Header(length)) == Ok(length)
  {}

  /** A header is the only one with its length. */
  lemma HeaderUnique(header: Bytes)
    requires |header| == HEADER_SIZE && DecodeLength(header).Ok?
    ensures DecodeLength(header).value <= MAX_PAYLOAD && Header(DecodeLength(header).value) == header
  {
    var length := DecodeLength(header).value;
    assert length / 0x1_0000 == header[1] && length / 0x100 == (header[1] as int) * 0x100 + header[2];
  }

  /** A frame at the front of a stream, taken apart. */
  lemma FrontFrame(payload: Bytes, rest: Bytes)
    requires |payload| <= MAX_PAYLOAD
    ensures var s := Framed(payload) + rest;
            && DecodeLength(s[..HEADER_SIZE]) == Ok(|payload|)
            && s[HEADER_SIZE..HEADER_SIZE + |payload|] == payload
            && s[HEADER_SIZE + |payload|..] == rest
  {
    hide Header, DecodeLength;
    var s := Framed(payload) + rest;
    assert s[..HEADER_SIZE] == Header(|payload|);
    HeaderRoundTrip(|payload|);
  }

  /** Encoding and decoding are inverse in both directions. */
  lemma FrameRoundTrip(payload: Bytes, frame: Bytes)
    ensures Encode(payload) == Ok(frame) <==> DecodeFrame(frame) == Ok(payload)
  {
    hide Header, DecodeLength;
    if Encode(payload) == Ok(frame) {
      FrontFrame(payload, []);
      assert frame == Framed(payload) + [];
      assert frame[HEADER_SIZE..] == frame[HEADER_SIZE..HEADER_SIZE + |payload|];
    }
    if DecodeFrame(frame) == Ok(payload) {
      HeaderUnique(frame[..HEADER_SIZE]);
      assert frame == frame[..HEADER_SIZE] + frame[HEADER_SIZE..];
    }
  }

  /** The byte stream that carries these payloads, one frame after the other. */
  function Frames(payloads: seq<Bytes>): Bytes {
    if payloads == [] then [] else Framed(payloads[0]) + Frames(payloads[1..])
  }

  lemma {:induction false} FramesSnoc(payloads: seq<Bytes>, p: Bytes)
    ensures Frames(payloads + [p]) == Frames(payloads) + Framed(p)
  {
    hide Framed;
    if payloads == [] {
      assert [] + [p] == [p] && [p][1..] == [];
      assert Frames([p]) == Framed(p) + [];
    } else {
      assert (payloads + [p])[1..] == payloads[1..] + [p];
      FramesSnoc(payloads[1..], p);
    }
  }

  /** A stream's first frame and the rest of it are determined. */
  lemma FirstFrameUnique(p: Bytes, rest: Bytes, p': Bytes, rest': Bytes)
    requires |p| <= MAX_PAYLOAD && |p'| <= MAX_PAYLOAD
    requires Framed(p) + rest == Framed(p') + rest'
    ensures p == p' && rest == rest'
  {
    hide Framed, DecodeLength;
    FrontFrame(p, rest);
    FrontFrame(p', rest');
  }

  /** Frames are self-delimiting: a stream that starts with these frames and continues splits into
      payloads in only one way, and what follows is the stream of the remaining payloads. */
  lemma {:induction false} OneWayToSplit(done: seq<Bytes>, rest: Bytes, payloads: seq<Bytes>)
    requires forall p :: p in done ==> |p| <= MAX_PAYLOAD
    requires forall p :: p in payloads ==> |p| <= MAX_PAYLOAD
    requires Frames(done) + rest == Frames(payloads)
    ensures done <= payloads && rest == Frames(payloads[|done|..])
  {
    hide Frames;
    if done == [] {
      NoFrames(rest);
      assert payloads[0..] == payloads;
    } else {
      FirstOfStream(done, rest, payloads);
      OneWayToSplit(done[1..], rest, payloads[1..]);
      PrefixCons(done, payloads);
    }
  }

  lemma NoFrames(rest: Bytes)
    ensures Frames([]) + rest == rest
  {}

  lemma PrefixCons(a: seq<Bytes>, b: seq<Bytes>)
    requires a != [] && b != [] && a[0] == b[0] && a[1..] <= b[1..]
    ensures a <= b && b[1..][|a[1..]|..] == b[|a|..]
  {
    assert a == [a[0]] + a[1..] && b == [b[0]] + b[1..];
  }

  lemma FirstOfStream(done: seq<Bytes>, rest: Bytes, payloads: seq<Bytes>)
    requires done != [] && |done[0]| <= MAX_PAYLOAD && forall p :: p in payloads ==> |p| <= MAX_PAYLOAD
    requires Frames(done) + rest == Frames(payloads)
    ensures payloads != [] && done[0] == payloads[0] && Frames(done[1..]) + rest == Frames(payloads[1..])
  {
    hide Framed;
    var d, after := done[0], Frames(done[1..]) + rest;
    assert Frames(payloads) == Framed(d) + after;
    FramedNonempty(d, after);
    FirstFrameUnique(d, after, payloads[0], Frames(payloads[1..]));
  }

  lemma FramedNonempty(p: Bytes, rest: Bytes)
    ensures Framed(p) + rest != []
  {}
}
