/** One random-access handle as its callers see it: positional reads, writes, resizes and flushes
    over a cached length, refusing everything after a failure or a close. */
module RandomAccess {
  import opened Common
  import opened Messages
  import opened Session
  import opened FileModel
  import opened ReadTrace
  import opened ReadAt
  import opened WriteAt

  const MAX_JNI_WRITE_BYTES: nat := 1024 * 1024

  datatype BridgeError = TooLarge | InvalidConfig | UnknownHandle | Unusable | ShortWrite | Client(error: ClientError)

  datatype Op =
    | ReadOp(offset: u64, length: nat)
    | WriteOp(offset: u64, data: Bytes)
    | ResizeOp(newLength: u64)
    | FlushOp

  datatype Outcome = Data(bytes: Bytes) | Count(count: nat) | Done | Failed(error: BridgeError)

  /** Arguments that are refused before the handle is looked up. */
  function Refusal(op: Op): Option<BridgeError> {
    match op
    case ReadOp(_, length) => if length > MAX_JNI_WRITE_BYTES then Some(TooLarge) else None
    case WriteOp(offset, data) =>
      if |data| > MAX_JNI_WRITE_BYTES then Some(TooLarge)
      else if offset + |data| > I64_MAX then Some(InvalidConfig) else None
    case ResizeOp(length) => if length > I64_MAX then Some(InvalidConfig) else None
    case FlushOp => None
  }

  /** What `op` makes of an abstract file. */
  function Effect(file: Bytes, op: Op): Bytes {
    match op
    case WriteOp(offset, data) => Overlay(file, offset, data)
    case ResizeOp(length) => Resize(file, length)
    case _ => file
  }

  /** What `op` reports about an abstract file. */
  function Answer(file: Bytes, op: Op): Outcome {
    match op
    case ReadOp(offset, length) => Data(Slice(file, offset, length))
    case WriteOp(_, data) => Count(|data|)
    case ResizeOp(_) => Done
    case FlushOp => Done
  }

  /** What a failed `op` can have left of a file: a write may have stopped part way, a resize may or
      may not have happened, nothing else changes anything. */
  ghost predicate Partial(file: Bytes, op: Op, store: Store) {
    match op
    case WriteOp(offset, data) => Torn(file, offset, data, store)
    case ResizeOp(length) => store.content in {file, Resize(file, length)}
    case _ => store.content == file
  }

  /** What one operation that reaches the server may leave behind and report. */
  ghost predicate Performed(file: Bytes, op: Op, o: Outcome, store: Store) {
    if o.Failed? then o.error.Client? && Partial(file, op, store)
    else store == Store(Effect(file, op), None) && o == Answer(file, op)
  }

  /** The server answers every READ with the bytes its file has when the answer is sent, as many
      as were asked for or exist. */
  ghost predicate Faithful(initial: Bytes, t: Trace) {
    forall id, offset, length, j ::
      0 <= j < |t| && ReadSent(id, offset, length) in t && t[j].Got? && Answers(t[j].message, id)
      && Payload(t[j].message).Some? ==>
        Payload(t[j].message).value == Slice(After(Store(initial, None), t[..j]).content, offset, length)
  }

  /** During a read the file stands still, so a faithful server's answers are complete. */
  lemma {:induction false} FaithfulRead(initial: Bytes, before: Trace, t: Trace)
    requires Faithful(initial, before + t) && ReadsOnly(t)
    requires After(Store(initial, None), before).request.None?
    ensures Complete(After(Store(initial, None), before).content, t)
  {
    hide After, Slice, Payload, HasStatus;
    var store := After(Store(initial, None), before);
    forall id, offset, length, m |
      ReadSent(id, offset, length) in t && Got(m) in t && Answers(m, id) && Payload(m).Some?
      ensures Payload(m).value == Slice(store.content, offset, length)
    {
      var i :| 0 <= i < |t| && t[i] == Got(m);
      var u := before + t;
      assert ReadSent(id, offset, length) in u && u[|before| + i] == Got(m);
      assert u[..|before| + i] == before + t[..i];
      AfterConcat(Store(initial, None), before, t[..i]);
      AfterReads(store, t[..i]);
    }
  }

  lemma {:induction false} FaithfulPrefix(initial: Bytes, t: Trace, u: Trace)
    requires Faithful(initial, u) && t <= u
    ensures Faithful(initial, t)
  {
    hide After, Slice, Payload, HasStatus;
    forall id, offset, length, j |
      0 <= j < |t| && ReadSent(id, offset, length) in t && t[j].Got? && Answers(t[j].message, id)
      && Payload(t[j].message).Some?
      ensures Payload(t[j].message).value == Slice(After(Store(initial, None), t[..j]).content, offset, length)
    {
      assert ReadSent(id, offset, length) in u && u[j] == t[j] && u[..j] == t[..j];
    }
  }

  /** Clamping to a cached length that equals the real one loses nothing. */
  lemma TargetIsExact(h: FileHandle, file: Bytes, offset: u64, length: nat)
    requires h.length == |file|
    ensures Slice(file, offset, Target(h, offset, length)) == Slice(file, offset, length)
  {}

  /** Why a READ may fail: a status the server answered with, or any cause of a READ error. */
  ghost predicate ReadFails(s: SessionConnection, h: FileHandle, t: Trace, e: ClientError, lo: nat)
    reads s`inbox, s`sendsLeft, s.credits, s.messageIds
  {
    if e.ServerStatus? then FirstDenial(t, {}) == Some(e.status) else Excused(s, h, t, e, lo)
  }

  /** Why a SET_INFO or a FLUSH may fail. */
  ghost predicate MutationFails(s: SessionConnection, h: FileHandle, t: Trace, e: ClientError)
    reads s`inbox, s`sendsLeft, s.credits, s.messageIds
  {
    (e == Protocol(BadSize) && s.maxTransactSize < END_OF_FILE_INFORMATION_SIZE) || RequestFails(s, h, t, e)
  }

  ghost predicate OperationFails(s: SessionConnection, h: FileHandle, op: Op, t: Trace, e: ClientError, lo: nat)
    reads s`inbox, s`sendsLeft, s.credits, s.messageIds
  {
    match op
    case ReadOp(_, _) => ReadFails(s, h, t, e, lo)
    case WriteOp(offset, data) => WriteFails(s, h, offset + |data|, t, e)
    case ResizeOp(_) => MutationFails(s, h, t, e)
    case FlushOp => MutationFails(s, h, t, e)
  }

  class RandomEntry {
    const session: SessionConnection
    var file: FileHandle
    var poisoned: bool
    var closing: bool
    /** The server's file when this handle was opened. */
    ghost const initial: Bytes

    /** The server's file and pending mutation, as this session's history determines them. */
    ghost function Server(): Store
      reads this, session
    {
      After(Store(initial, None), session.trace)
    }

    /** While no operation has failed, nothing is in doubt and the cached length is the server's. */
    ghost predicate Valid()
      reads this, session, session.credits, session.messageIds
    {
      && session.Valid()
      && (!poisoned ==> Server().request.None? && file.length == |Server().content|)
    }

    constructor (session: SessionConnection, file: FileHandle, ghost initial: Bytes)
      requires session.Valid() && session.trace == [] && file.length == |initial|
      ensures Valid() && !poisoned && !closing && this.session == session && this.file == file
      ensures this.initial == initial && Server() == Store(initial, None)
    {
      this.session := session;
      this.file := file;
      this.initial := initial;
      poisoned, closing := false, false;
    }

    method ReadRandomAt(offset: u64, length: nat) returns (o: Outcome)
      requires Valid()
      modifies this`poisoned, session`inbox, session`trace, session`sendsLeft, session`leaked,
               session.credits, session.messageIds
      ensures Valid() && old(session.trace) <= session.trace
      ensures closing || old(poisoned) || length > MAX_JNI_WRITE_BYTES ==> o.Failed? && session.trace == old(session.trace)
      ensures o.Failed? ==> poisoned == (old(poisoned) || o.error.Client?)
      ensures o.Failed? && !o.error.Client? ==> session.trace == old(session.trace)
      ensures o.Failed? && o.error.Client? ==> !old(poisoned) && Server().content == old(Server()).content
      ensures o == Failed(TooLarge) <==> length > MAX_JNI_WRITE_BYTES
      ensures o == Failed(Unusable) <==> length <= MAX_JNI_WRITE_BYTES && (closing || old(poisoned))
      ensures o.Failed? && !o.error.Client? ==> o.error == TooLarge || o.error == Unusable
      ensures o.Failed? && o.error.Client? ==>
                ReadFails(session, file, session.trace[|old(session.trace)|..], o.error.error, old(session.messageIds.next))
      ensures !o.Failed? ==> !poisoned && Server() == old(Server())
      ensures !o.Failed? ==> AllGenuine(session, session.trace[|old(session.trace)|..])
      ensures !o.Failed? && Faithful(initial, session.trace) ==> o == Answer(old(Server()).content, ReadOp(offset, length))
    {
      hide After, Honest, Complete, Slice, Closed, AllGenuine, Settles, FirstDenial, Refused, SessionConnection.Exhausted;
      NothingReceived(session);
      assert session.trace[|session.trace|..] == [];
      if length > MAX_JNI_WRITE_BYTES {
        return Failed(TooLarge);
      }
      if closing || poisoned {
        return Failed(Unusable);
      }
      ghost var content := Server().content;
      if length == 0 {
        EmptySlice(content, offset);
        return Data([]);
      }
      var read := ReadAtWithOptions(session, file, offset, length, content);
      ghost var t := session.trace[|old(session.trace)|..];
      assert session.trace == old(session.trace) + t;
      AfterConcat(Store(initial, None), old(session.trace), t);
      AfterReads(old(Server()), t);
      if read.Err? {
        poisoned := true;
        return Failed(Client(read.error));
      }
      if Faithful(initial, session.trace) {
        FaithfulRead(initial, old(session.trace), t);
        CompleteIsHonest(content, t);
        TargetIsExact(file, content, offset, length);
      }
      return Data(read.value);
    }

    method WriteRandomAt(offset: u64, data: Bytes) returns (o: Outcome)
      requires Valid()
      modifies this`poisoned, this`file, session`inbox, session`trace, session`sendsLeft, session`leaked,
               session.credits, session.messageIds
      ensures Valid() && old(session.trace) <= session.trace
      ensures closing || old(poisoned) || |data| > MAX_JNI_WRITE_BYTES || offset + |data| > I64_MAX
              ==> o.Failed? && session.trace == old(session.trace)
      ensures o.Failed? ==> poisoned == (old(poisoned) || o.error.Client?) && file == old(file)
      ensures o.Failed? && !o.error.Client? ==> session.trace == old(session.trace)
      ensures o.Failed? && o.error.Client? ==> !old(poisoned) && Torn(old(Server()).content, offset, data, Server())
      ensures o == Failed(TooLarge) <==> |data| > MAX_JNI_WRITE_BYTES
      ensures o == Failed(InvalidConfig) <==> |data| <= MAX_JNI_WRITE_BYTES && offset + |data| > I64_MAX
      ensures o == Failed(Unusable) <==>
                |data| <= MAX_JNI_WRITE_BYTES && offset + |data| <= I64_MAX && (closing || old(poisoned))
      ensures o.Failed? && !o.error.Client? ==> o.error == TooLarge || o.error == InvalidConfig || o.error == Unusable
      ensures !o.Failed? ==> !poisoned && Server() == Store(Overlay(old(Server()).content, offset, data), None)
      ensures !o.Failed? ==> o == Count(|data|)
      ensures !o.Failed? ==> AllGenuine(session, session.trace[|old(session.trace)|..])
      ensures o.Failed? && o.error.Client? ==>
                WriteFails(session, file, offset + |data|, session.trace[|old(session.trace)|..], o.error.error)
    {
      hide After, Overlay, Min, Torn, AllGenuine, Settles, WriteFails;
      NothingReceived(session);
      assert session.trace[|session.trace|..] == [];
      if |data| > MAX_JNI_WRITE_BYTES {
        return Failed(TooLarge);
      }
      if offset + |data| > U64_MAX || offset + |data| > I64_MAX {
        return Failed(InvalidConfig);
      }
      if closing || poisoned {
        return Failed(Unusable);
      }
      ghost var content := Server().content;
      NothingWritten(content, offset, data);
      if data == [] {
        return Count(0);
      }
      var count := WriteAtWithOptions(session, file, offset, data, content);
      ghost var t := session.trace[|old(session.trace)|..];
      assert session.trace == old(session.trace) + t;
      AfterConcat(Store(initial, None), old(session.trace), t);
      if count.Err? {
        poisoned := true;
        return Failed(Client(count.error));
      }
      // The short-count branch of the source cannot be taken: success means every byte was written.
      assert count.value == |data|;
      OverlayLength(content, offset, data);
      file := file.(length := Max(file.length, offset + |data|));
      return Count(count.value);
    }

    method SetRandomLength(length: u64) returns (o: Outcome)
      requires Valid()
      modifies this`poisoned, this`file, session`inbox, session`trace, session`sendsLeft, session`leaked,
               session.credits, session.messageIds
      ensures Valid() && old(session.trace) <= session.trace
      ensures closing || old(poisoned) || length > I64_MAX ==> o.Failed? && session.trace == old(session.trace)
      ensures o.Failed? ==> poisoned == (old(poisoned) || o.error.Client?) && file == old(file)
      ensures o.Failed? && !o.error.Client? ==> session.trace == old(session.trace)
      ensures o.Failed? && o.error.Client? ==>
                !old(poisoned) && Server().content in {old(Server()).content, Resize(old(Server()).content, length)}
      ensures o == Failed(InvalidConfig) <==> length > I64_MAX
      ensures o == Failed(Unusable) <==> length <= I64_MAX && (closing || old(poisoned))
      ensures o.Failed? && !o.error.Client? ==> o.error == InvalidConfig || o.error == Unusable
      ensures !o.Failed? ==> !poisoned && Server() == Store(Resize(old(Server()).content, length), None) && o == Done
      ensures !o.Failed? ==>
                Confirms(session, SetEndOfFileSent(old(session.messageIds.next), length), session.trace[|old(session.trace)|..])
      ensures o.Failed? && o.error.Client? ==> MutationFails(session, file, session.trace[|old(session.trace)|..], o.error.error)
    {
      hide After, Confirms, Denied, Settles, SessionConnection.Exhausted;
      if length > I64_MAX {
        return Failed(InvalidConfig);
      }
      if closing || poisoned {
        return Failed(Unusable);
      }
      var resized := SetEndOfFile(session, file, length, Server().content);
      ghost var t := session.trace[|old(session.trace)|..];
      assert session.trace == old(session.trace) + t;
      AfterConcat(Store(initial, None), old(session.trace), t);
      if resized.Err? {
        poisoned := true;
        return Failed(Client(resized.error));
      }
      file := file.(length := length);
      return Done;
    }

    method FlushRandom() returns (o: Outcome)
      requires Valid()
      modifies this`poisoned, session`inbox, session`trace, session`sendsLeft, session`leaked,
               session.credits, session.messageIds
      ensures Valid() && old(session.trace) <= session.trace
      ensures closing || old(poisoned) ==> o.Failed? && session.trace == old(session.trace)
      ensures o.Failed? ==> poisoned == (old(poisoned) || o.error.Client?)
      ensures o.Failed? && !o.error.Client? ==> session.trace == old(session.trace)
      ensures o.Failed? && o.error.Client? ==> !old(poisoned) && Server().content == old(Server()).content
      ensures o == Failed(Unusable) <==> closing || old(poisoned)
      ensures o.Failed? && !o.error.Client? ==> o.error == Unusable
      ensures !o.Failed? ==> !poisoned && Server() == old(Server()) && o == Done
      ensures !o.Failed? ==> Confirms(session, OtherSent(old(session.messageIds.next), Flush), session.trace[|old(session.trace)|..])
      ensures o.Failed? && o.error.Client? ==> MutationFails(session, file, session.trace[|old(session.trace)|..], o.error.error)
    {
      hide After, Confirms, Denied, Settles, SessionConnection.Exhausted;
      if closing || poisoned {
        return Failed(Unusable);
      }
      var flushed := FlushFile(session, file, Server().content);
      ghost var t := session.trace[|old(session.trace)|..];
      assert session.trace == old(session.trace) + t;
      AfterConcat(Store(initial, None), old(session.trace), t);
      if flushed.Err? {
        poisoned := true;
        return Failed(Client(flushed.error));
      }
      return Done;
    }

    /** CLOSE was sent, and one authentic, readable success answer to it came back. */
    ghost predicate Closes(t: Trace, id: u64)
      reads this`file
    {
      && |t| == 2 && t[0] == OtherSent(id, Close) && t[1].Got?
      && AnswersClose(t[1].message, id) && HasStatus(t[1].message, STATUS_SUCCESS)
      && session.Genuine(t[1].message) && !t[1].message.body.Undecodable?
    }

    /** A response to this CLOSE on this tree, which is never asynchronous. */
    ghost predicate AnswersClose(m: Incoming, id: u64)
      reads this`file
    {
      && m.Message? && m.header.command == Close && m.header.messageId == id
      && m.header.sessionId == session.sessionId && m.header.id == Sync(file.treeId)
    }

    /** What is wrong with the answer to a CLOSE. */
    ghost predicate BadClose(m: Incoming, id: u64, e: ClientError)
      reads this`file, session.credits
    {
      match e
      case Wire => m.Malformed? || m.body.Undecodable?
      case ServerStatus(code) => HasStatus(m, code) && code != STATUS_SUCCESS
      case Protocol(fault) =>
        m.Message? &&
        (match fault
         case BadHeader => !AnswersClose(m, id) || m.header.status.ChannelSequence?
         case CreditOverflow => session.credits.available + m.header.credits > U32_MAX
         case BadSignature => !session.Genuine(m)
         case _ => false)
      case _ => false
    }

    /** Why a CLOSE may fail: nothing was sent, no answer came, or a bad one. */
    ghost predicate CloseFails(t: Trace, id: u64, e: ClientError)
      reads this`file, session`inbox, session`sendsLeft, session.credits, session.messageIds
    {
      || Blocked(session, e) || (e == Protocol(InsufficientCredits) && session.credits.available == 0)
      || (|t| == 2 && t[1].Got? && BadClose(t[1].message, id, e))
    }

    /** Claims the handle for good, then sends one CLOSE and reads its answer. */
    method CloseRandom() returns (r: Result<()>)
      requires session.Valid()
      modifies this`closing, session`inbox, session`trace, session`sendsLeft, session`leaked,
               session.credits, session.messageIds
      ensures session.encrypted ==> session.trace == old(session.trace) && r == Err(Protocol(Encrypted))
      ensures session.Valid() && closing && old(session.trace) <= session.trace
      ensures session.trace == old(session.trace) || session.trace[|old(session.trace)|] == OtherSent(old(session.messageIds.next), Close)
      ensures forall i :: |old(session.trace)| < i < |session.trace| ==> session.trace[i].Got?
      ensures r.Ok? ==> Closes(session.trace[|old(session.trace)|..], old(session.messageIds.next))
                        && session.messageIds.next == old(session.messageIds.next) + 1
                        && session.credits.available == old(session.credits.available) - 1
                                                        + session.trace[|session.trace| - 1].message.header.credits
      ensures r.Err? ==> CloseFails(session.trace[|old(session.trace)|..], old(session.messageIds.next), r.error)
    {
      hide Valid, Server, SessionConnection.Valid, AnswersClose, BadClose, SessionConnection.Genuine;
      closing := true;
      if session.encrypted {
        return Err(Protocol(Encrypted));
      }
      var sent := SendRequest(session, Close, if session.multiCredit then 1 else 0, 0, 0, []);
      if sent.Err? {
        return Err(sent.error);
      }
      var got := session.Receive();
      if got.Err? {
        return Err(got.error);
      }
      assert session.trace[|old(session.trace)|..] == [sent.value, Got(got.value)];
      r := JudgeClose(got.value, sent.value.id);
    }

    /** The checks of the answer to a CLOSE, in their order. */
    method JudgeClose(m: Incoming, id: u64) returns (r: Result<()>)
      requires session.Valid()
      modifies session.credits
      ensures session.Valid()
      ensures r.Ok? ==>
                AnswersClose(m, id) && HasStatus(m, STATUS_SUCCESS) && session.Genuine(m) && !m.body.Undecodable?
                && session.credits.available == old(session.credits.available) + m.header.credits
      ensures r.Err? ==> BadClose(m, id, r.error)
    {
      if m.Malformed? {
        return Err(Wire);
      }
      var h := m.header;
      if h.command != Close || h.messageId != id || h.sessionId != session.sessionId || h.id != Sync(file.treeId) {
        return Err(Protocol(BadHeader));
      }
      r := session.credits.Grant(h.credits);
      if r.Err? {
        return;
      }
      if h.status.ChannelSequence? {
        return Err(Protocol(BadHeader));
      }
      if h.status.code != STATUS_SUCCESS {
        return Err(ServerStatus(h.status.code));
      }
      if (if h.signed then !session.hasSigningKey || !h.macValid else session.signingRequired) {
        return Err(Protocol(BadSignature));
      }
      r := if m.body.Undecodable? then Err(Wire) else Ok(());
    }

    /** Any operation: a success has exactly its abstract effect and answer; a failure reported by
        the client poisons the handle, a refusal changes nothing. */
    method Perform(op: Op) returns (o: Outcome)
      requires Valid()
      modifies this`poisoned, this`file, session`inbox, session`trace, session`sendsLeft, session`leaked,
               session.credits, session.messageIds
      ensures Valid() && old(session.trace) <= session.trace
      ensures old(poisoned) || closing ==> o.Failed? && session.trace == old(session.trace)
      ensures o.Failed? ==> poisoned == (old(poisoned) || o.error.Client?)
      ensures o.Failed? && !o.error.Client? ==> session.trace == old(session.trace)
      ensures Refusal(op).Some? ==> o == Failed(Refusal(op).value)
      ensures o.Failed? && !o.error.Client? && Refusal(op).None? ==> o == Failed(Unusable) && (closing || old(poisoned))
      ensures !o.Failed? ==> !poisoned && Server() == Store(Effect(old(Server()).content, op), None)
      ensures !o.Failed? && Faithful(initial, session.trace) ==> o == Answer(old(Server()).content, op)
      ensures o.Failed? && !o.error.Client? ==> Server() == old(Server())
      ensures o.Failed? && o.error.Client? ==> !old(poisoned) && Partial(old(Server()).content, op, Server())
      ensures !o.Failed? && op.FlushOp? ==>
                Confirms(session, OtherSent(old(session.messageIds.next), Flush), session.trace[|old(session.trace)|..])
      ensures !o.Failed? && op.ResizeOp? ==>
                Confirms(session, SetEndOfFileSent(old(session.messageIds.next), op.newLength), session.trace[|old(session.trace)|..])
      ensures o.Failed? && o.error.Client? ==>
                OperationFails(session, old(file), op, session.trace[|old(session.trace)|..], o.error.error, old(session.messageIds.next))
      ensures (o.Failed? ==> o.error.Client?) && Faithful(initial, session.trace) ==> Performed(old(Server()).content, op, o, Server())
    {
      hide After, Overlay, Slice, Resize, Faithful, Torn, Confirms, ReadFails, WriteFails, MutationFails;
      match op {
        case ReadOp(offset, length) => o := ReadRandomAt(offset, length);
        case WriteOp(offset, data) => o := WriteRandomAt(offset, data);
        case ResizeOp(length) => o := SetRandomLength(length);
        case FlushOp => o := FlushRandom();
      }
    }

    /** The whole life of a handle used alone: however chunks, credits and short counts fall, every
        successful operation answers as the abstract file would, which the successful operations
        alone have built up; after a client failure nothing succeeds any more, and that one
        operation may have been carried out in part. */
    method PerformAll(ops: seq<Op>) returns (outcomes: seq<Outcome>)
      requires Valid() && !poisoned
      modifies this`poisoned, this`file, session`inbox, session`trace, session`sendsLeft, session`leaked,
               session.credits, session.messageIds
      ensures |outcomes| == |ops| && Valid()
      ensures Faithful(initial, session.trace) ==> Consistent(old(Server()).content, ops, outcomes)
      ensures !poisoned ==> !Broken(outcomes) && Server() == Store(Built(old(Server()).content, ops, outcomes), None)
      ensures poisoned ==> exists i :: 0 <= i < |ops| && BrokenAt(old(Server()).content, ops, outcomes, i, Server())
    {
      hide After, Effect, Answer, Faithful, Partial, OperationFails, Confirms, Performed, SessionConnection.Valid;
      outcomes := [];
      assert ops[..0] == [];
      ghost var content, broken := Server().content, 0;
      for i := 0 to |ops|
        invariant |outcomes| == i && Valid()
        invariant Faithful(initial, session.trace) ==> Consistent(content, ops[..i], outcomes)
        invariant !poisoned ==> !Broken(outcomes) && Server() == Store(Built(content, ops[..i], outcomes), None)
        invariant poisoned ==> broken < i && BrokenAt(content, ops[..i], outcomes, broken, Server())
      {
        ghost var was, before, fine := session.trace, outcomes, !poisoned;
        var o := Perform(ops[i]);
        outcomes := outcomes + [o];
        assert ops[..i + 1][..i] == ops[..i] && outcomes[..i] == before && ops[..i + 1][i] == ops[i];
        if Faithful(initial, session.trace) {
          FaithfulPrefix(initial, was, session.trace);
        }
        if poisoned {
          if fine {
            broken := i;
          } else {
            assert ops[..i + 1][..broken] == ops[..i][..broken] && outcomes[..broken] == before[..broken];
          }
        }
      }
      assert ops[..|ops|] == ops;
    }
  }

  /** Operation `i` was the first to end in a client error: what came before built the file, `i` may
      have been carried out in part, and nothing after it succeeded or reached the server. */
  ghost predicate BrokenAt(file: Bytes, ops: seq<Op>, outcomes: seq<Outcome>, i: nat, store: Store)
    requires i < |ops| == |outcomes|
  {
    && !Broken(outcomes[..i]) && outcomes[i].Failed? && outcomes[i].error.Client?
    && Partial(Built(file, ops[..i], outcomes[..i]), ops[i], store)
    && forall j :: i < j < |ops| ==> outcomes[j].Failed?
  }

  /** Some operation ended in a client error. */
  predicate Broken(outcomes: seq<Outcome>) {
    exists o :: o in outcomes && o.Failed? && o.error.Client?
  }

  lemma EmptySlice(file: Bytes, offset: nat)
    ensures Slice(file, offset, 0) == []
  {}

  lemma OverlayLength(file: Bytes, offset: nat, data: Bytes)
    requires data != []
    ensures |Overlay(file, offset, data)| == Max(|file|, offset + |data|)
  {}

  /** The abstract file after the operations that succeeded. */
  function Built(file: Bytes, ops: seq<Op>, outcomes: seq<Outcome>): Bytes
    requires |ops| == |outcomes|
  {
    if ops == [] then file
    else
      var n := |ops| - 1;
      var f := Built(file, ops[..n], outcomes[..n]);
      if outcomes[n].Failed? then f else Effect(f, ops[n])
  }

  /** Each operation failed, or answered as the abstract file did at that point. */
  ghost predicate Consistent(file: Bytes, ops: seq<Op>, outcomes: seq<Outcome>)
    requires |ops| == |outcomes|
  {
    ops != [] ==>
      var n := |ops| - 1;
      && Consistent(file, ops[..n], outcomes[..n])
      && (outcomes[n].Failed? || outcomes[n] == Answer(Built(file, ops[..n], outcomes[..n]), ops[n]))
  }
}
