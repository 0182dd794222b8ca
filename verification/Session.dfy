/** An authenticated session over one connection: credits, MessageIds, the message transport
    and a ghost record of everything sent and received. */
module Session {
  import opened Common
  import opened Messages
  import opened Credits
  import opened AsyncResponse

  /** One entry of the session's history. */
  datatype Event =
    | ReadSent(id: u64, offset: nat, length: nat)
    | WriteSent(id: u64, offset: nat, data: Bytes)
    | SetEndOfFileSent(id: u64, length: nat)
    | CancelSent(id: u64, asyncId: Option<u64>)
    | OtherSent(id: u64, command: Command)
    | Got(message: Incoming)
    /** The running operation saw that its generation is no longer current. */
    | Noticed

  type Trace = seq<Event>

  datatype FileHandle = FileHandle(treeId: u32, length: u64, lastWriteTime: u64)

  /** The AsyncId the last asynchronous response to `id` carried. */
  function Learned(t: Trace, id: u64): Option<u64> {
    if t == [] then None
    else
      var last := t[|t| - 1];
      if last.Got? && last.message.Message? && last.message.header.messageId == id && last.message.header.id.Async?
      then Some(last.message.header.id.asyncId)
      else Learned(t[..|t| - 1], id)
  }

  lemma LearnedSnoc(t: Trace, e: Event, id: u64)
    ensures Learned(t + [e], id) ==
            if e.Got? && e.message.Message? && e.message.header.messageId == id && e.message.header.id.Async?
            then Some(e.message.header.id.asyncId) else Learned(t, id)
  {
    assert (t + [e])[..|t|] == t;
  }

  /** The credits that the messages received have brought. */
  function Granted(t: Trace): nat {
    if t == [] then 0
    else
      var last := t[|t| - 1];
      Granted(t[..|t| - 1]) + if last.Got? && last.message.Message? then last.message.header.credits else 0
  }

  lemma GrantedSnoc(t: Trace, e: Event)
    ensures Granted(t + [e]) == Granted(t) + if e.Got? && e.message.Message? then e.message.header.credits else 0
  {
    assert (t + [e])[..|t|] == t;
  }

  lemma {:induction false} GrantedConcat(t: Trace, u: Trace)
    ensures Granted(t + u) == Granted(t) + Granted(u)
  {
    if u == [] {
      assert t + u == t;
    } else {
      var v, e := u[..|u| - 1], u[|u| - 1];
      GrantedConcat(t, v);
      GrantedSnoc(t + v, e);
      assert t + u == (t + v) + [e];
    }
  }

  class SessionConnection {
    const sessionId: u64
    const encrypted: bool
    const signingRequired: bool
    const hasSigningKey: bool
    const multiCredit: bool
    const maxReadSize: u32
    const maxWriteSize: u32
    const maxTransactSize: u32
    const credits: CreditManager
    const messageIds: MessageIdAllocator
    /** What the peer will deliver, in order; any server behaviour is some value of this field. */
    var inbox: seq<Incoming>
    /** How many more sends succeed before the link breaks. */
    var sendsLeft: nat
    ghost var trace: Trace
    /** First MessageId left over after NEGOTIATE. */
    ghost const firstId: nat
    /** Credits reserved for requests that then found no MessageId. */
    ghost var leaked: nat

    ghost predicate Valid()
      reads this`leaked, credits, messageIds
    {
      && credits.Valid() && messageIds.Valid()
      && firstId <= messageIds.next
      // Every reserved credit was spent on a sequence number, until the number space runs out.
      && credits.reserved == messageIds.next - firstId + leaked
      && (leaked > 0 ==> messageIds.next + U16_MAX > U64_MAX)
    }

    /** Credit conservation: what is available and what was consumed add up to what was granted. */
    lemma Conservation()
      requires Valid()
      requires messageIds.next + U16_MAX <= U64_MAX
      ensures credits.available + (messageIds.next - firstId) == credits.initial + credits.granted
    {}

    /** The state NEGOTIATE leaves: one MessageId used, the server's first grant available. */
    constructor (sessionId: u64, encrypted: bool, signingRequired: bool, hasSigningKey: bool,
                 multiCredit: bool, maxReadSize: u32, maxWriteSize: u32, maxTransactSize: u32,
                 initialCredits: u16, inbox: seq<Incoming>, sends: nat)
      requires initialCredits != 0
      ensures Valid() && fresh(credits) && fresh(messageIds)
      ensures trace == [] && this.inbox == inbox && sendsLeft == sends
      ensures this.sessionId == sessionId && this.encrypted == encrypted && this.signingRequired == signingRequired
      ensures this.hasSigningKey == hasSigningKey && this.multiCredit == multiCredit
      ensures this.maxReadSize == maxReadSize && this.maxWriteSize == maxWriteSize && this.maxTransactSize == maxTransactSize
      ensures credits.available == initialCredits && credits.granted == 0
      ensures messageIds.next == 1 && firstId == 1 && leaked == 0
    {
      this.sessionId := sessionId;
      this.encrypted := encrypted;
      this.signingRequired := signingRequired;
      this.hasSigningKey := hasSigningKey;
      this.multiCredit := multiCredit;
      this.maxReadSize := maxReadSize;
      this.maxWriteSize := maxWriteSize;
      this.maxTransactSize := maxTransactSize;
      this.inbox := inbox;
      sendsLeft := sends;
      trace := [];
      firstId := 1;
      leaked := 0;
      credits := new CreditManager(initialCredits);
      messageIds := new MessageIdAllocator();
      new;
      var negotiate := messageIds.Allocate(0);
    }

    /** The state an authenticated connection is handed over in, with whatever credits are left. */
    constructor Over(credits: CreditManager, messageIds: MessageIdAllocator, ghost firstId: nat, ghost leaked: nat,
                     sessionId: u64, encrypted: bool, signingRequired: bool, hasSigningKey: bool,
                     multiCredit: bool, maxReadSize: u32, maxWriteSize: u32, maxTransactSize: u32,
                     inbox: seq<Incoming>, sends: nat)
      requires credits.Valid() && messageIds.Valid() && firstId <= messageIds.next
      requires credits.reserved == messageIds.next - firstId + leaked
      requires leaked > 0 ==> messageIds.next + U16_MAX > U64_MAX
      ensures Valid() && trace == [] && this.credits == credits && this.messageIds == messageIds && this.firstId == firstId
      ensures this.sessionId == sessionId && this.signingRequired == signingRequired && this.hasSigningKey == hasSigningKey
      ensures this.encrypted == encrypted && this.multiCredit == multiCredit && this.maxReadSize == maxReadSize
      ensures this.maxWriteSize == maxWriteSize && this.maxTransactSize == maxTransactSize
      ensures this.inbox == inbox && sendsLeft == sends && this.leaked == leaked
    {
      this.credits, this.messageIds, this.firstId, this.leaked := credits, messageIds, firstId, leaked;
      this.sessionId := sessionId;
      this.encrypted := encrypted;
      this.signingRequired := signingRequired;
      this.hasSigningKey := hasSigningKey;
      this.multiCredit := multiCredit;
      this.maxReadSize := maxReadSize;
      this.maxWriteSize := maxWriteSize;
      this.maxTransactSize := maxTransactSize;
      this.inbox := inbox;
      sendsLeft := sends;
      trace := [];
    }

    /** A message that this session takes for authentic: its signature verifies, or it has none and
        needs none. */
    predicate Genuine(m: Incoming) {
      m.Message? && if m.header.signed then hasSigningKey && m.header.macValid else !signingRequired || HasStatus(m, STATUS_PENDING)
    }

    /** Why `m`, received after `t`, is no answer to the request behind `want`. */
    ghost predicate Unanswering(want: Expected, t: Trace, m: Incoming, e: ClientError)
      reads credits
    {
      match e
      case Wire => m.Malformed?
      case Protocol(fault) =>
        m.Message? &&
        (match fault
         case BadHeader => Validate(Learned(t, want.messageId), want, m.header).Err?
         case CreditOverflow => credits.available + m.header.credits > U32_MAX
         case BadSignature => !Genuine(m)
         case _ => false)
      case _ => false
    }

    /** The state in which a READ may fail with `e` before or after exchanging anything. */
    ghost predicate Exhausted(e: ClientError)
      reads this`inbox, this`sendsLeft, credits, messageIds
    {
      match e
      case Io => inbox == [] || sendsLeft == 0
      case Protocol(fault) =>
        (match fault
         case NoCredits => credits.available == 0 || maxReadSize == 0
         case ZeroChunk => maxReadSize == 0
         case ChargeTooLarge => multiCredit && maxReadSize > U16_MAX * CREDIT_UNIT
         case IdsExhausted => messageIds.next + U16_MAX > U64_MAX
         case BadSignature => signingRequired && !hasSigningKey
         case Encrypted => encrypted
         case _ => false)
      case _ => false
    }

    /** Reserves credits and then a MessageId span for one request. */
    method Reserve(charge: u16) returns (r: Result<u64>)
      requires Valid()
      modifies this`leaked, credits, messageIds
      ensures Valid()
      ensures r.Ok? ==> r.value == old(messageIds.next) && messageIds.next == old(messageIds.next) + Width(charge)
                        && credits.available == old(credits.available) - Width(charge)
      ensures r.Err? ==> r.error == Protocol(InsufficientCredits) || r.error == Protocol(IdsExhausted)
      ensures r == Err(Protocol(InsufficientCredits)) <==> Width(charge) > old(credits.available)
      ensures r == Err(Protocol(InsufficientCredits)) ==> credits.available == old(credits.available)
      ensures r == Err(Protocol(IdsExhausted)) ==> messageIds.next + Width(charge) > U64_MAX
      ensures r.Err? ==> messageIds.next == old(messageIds.next)
      ensures credits.granted == old(credits.granted)
    {
      var reserved := credits.Reserve(charge);
      if reserved.Err? {
        return Err(reserved.error);
      }
      r := messageIds.Allocate(charge);
      if r.Err? {
        leaked := leaked + Width(charge);
      }
    }

    method Send(e: Event) returns (r: Result<()>)
      requires !e.Got? && !e.Noticed?
      modifies this`sendsLeft, this`trace
      ensures r.Ok? ==> trace == old(trace) + [e] && sendsLeft == old(sendsLeft) - 1
      ensures r.Err? ==> r.error == Io && trace == old(trace) && sendsLeft == 0
    {
      if sendsLeft == 0 {
        return Err(Io);
      }
      sendsLeft := sendsLeft - 1;
      trace := trace + [e];
      return Ok(());
    }

    method Receive() returns (r: Result<Incoming>)
      modifies this`inbox, this`trace
      ensures r.Ok? ==> |inbox| < |old(inbox)| && trace == old(trace) + [Got(r.value)]
      ensures r.Err? ==> r.error == Io && inbox == old(inbox) == [] && trace == old(trace)
    {
      if inbox == [] {
        return Err(Io);
      }
      r := Ok(inbox[0]);
      trace := trace + [Got(inbox[0])];
      inbox := inbox[1..];
    }

    /** Applies a response's credit grant and checks its signature. */
    method Settle(h: Header, phase: Phase) returns (r: Result<()>)
      requires Valid()
      modifies credits
      ensures Valid()
      ensures r.Err? ==> r.error == Protocol(CreditOverflow) || r.error == Protocol(BadSignature)
      ensures r == Err(Protocol(CreditOverflow)) <==> old(credits.available) + h.credits > U32_MAX
      ensures r == Err(Protocol(CreditOverflow)) ==> credits.available == old(credits.available)
      ensures r.Ok? || r == Err(Protocol(BadSignature)) ==>
                (r.Ok? <==> if h.signed then hasSigningKey && h.macValid else !RequiresSignature(phase, signingRequired))
      ensures r.Ok? ==> credits.available == old(credits.available) + h.credits
                        && credits.granted == old(credits.granted) + h.credits
    {
      r := credits.Grant(h.credits);
      if r.Err? {
        return;
      }
      if h.signed {
        if !hasSigningKey || !h.macValid {
          return Err(Protocol(BadSignature));
        }
      } else if RequiresSignature(phase, signingRequired) {
        return Err(Protocol(BadSignature));
      }
    }

    /** A signed session without a key cannot send. */
    function SignRequest(): (r: Result<()>)
      ensures r.Ok? <==> !signingRequired || hasSigningKey
    {
      if signingRequired && !hasSigningKey then Err(Protocol(BadSignature)) else Ok(())
    }

    /** Takes the next message as an answer to the request behind `want`. */
    method TakeAnswer(state: AsyncResponseState, want: Expected, ghost origin: Trace) returns (r: Result<(Incoming, Phase)>)
      requires Valid() && origin <= trace && state.asyncId == Learned(trace[|origin|..], want.messageId)
      modifies state, this`inbox, this`trace, credits
      ensures Valid() && |inbox| <= |old(inbox)|
      ensures r.Ok? ==>
                var (m, phase) := r.value;
                && |inbox| < |old(inbox)| && trace == old(trace) + [Got(m)]
                && m.Message? && m.header.messageId == want.messageId && m.header.status.Status?
                && (phase == InterimPending <==> HasStatus(m, STATUS_PENDING)) && Genuine(m)
                && state.asyncId == Learned(trace[|origin|..], want.messageId)
                && credits.available == old(credits.available) + m.header.credits
      ensures r.Err? ==> r.error in {Io, Wire, Protocol(BadHeader), Protocol(CreditOverflow), Protocol(BadSignature)}
      ensures r.Err? ==>
                if r.error == Io then inbox == [] && trace == old(trace)
                else |trace| == |old(trace)| + 1 && old(trace) <= trace && trace[|old(trace)|].Got?
                     && Unanswering(want, old(trace)[|origin|..], trace[|old(trace)|].message, r.error)
    {
      hide Validate, SessionConnection.Valid, Learned;
      ghost var before, learned := trace[|origin|..], state.asyncId;
      var got := Receive();
      if got.Err? {
        return Err(got.error);
      }
      if got.value.Malformed? {
        return Err(Wire);
      }
      var header := got.value.header;
      var phase := state.Accept(want, header);
      if phase.Err? {
        return Err(phase.error);
      }
      ValidateFacts(learned, want, header);
      var settled := Settle(header, phase.value);
      if settled.Err? {
        return Err(settled.error);
      }
      assert trace[|origin|..] == before + [Got(got.value)];
      LearnedSnoc(before, Got(got.value), want.messageId);
      return Ok((got.value, phase.value));
    }

    /** Waits for the final response to the one request outstanding: interim responses are
        absorbed, everything else must match `want`. */
    method AwaitFinal(want: Expected) returns (r: Result<Incoming>)
      requires Valid()
      modifies this`inbox, this`trace, credits
      ensures Valid()
      ensures |inbox| <= |old(inbox)| && (r.Ok? ==> |inbox| < |old(inbox)|)
      ensures old(trace) <= trace
      ensures forall e :: e in trace[|old(trace)|..] ==> e.Got?
      ensures r.Ok? ==>
                && r.value.Message? && r.value.header.messageId == want.messageId
                && r.value.header.status.Status? && r.value.header.status.code != STATUS_PENDING
                && |trace| > |old(trace)| && trace[|trace| - 1] == Got(r.value) && Genuine(r.value)
                && credits.available == old(credits.available) + Granted(trace[|old(trace)|..])
      ensures forall i :: |old(trace)| <= i < |trace| - 1 ==>
                trace[i].Got? && trace[i].message.Message? && trace[i].message.header.messageId == want.messageId
                && HasStatus(trace[i].message, STATUS_PENDING) && Genuine(trace[i].message)
      ensures r.Err? ==> r.error in {Io, Wire, Protocol(BadHeader), Protocol(CreditOverflow), Protocol(BadSignature)}
      ensures r.Err? && r.error == Io ==> inbox == []
      ensures r.Err? && r.error != Io ==>
                && |trace| > |old(trace)| && trace[|trace| - 1].Got?
                && Unanswering(want, trace[|old(trace)|..|trace| - 1], trace[|trace| - 1].message, r.error)
    {
      hide SessionConnection.Valid, Learned, Granted, SessionConnection.Unanswering, Genuine;
      var state := new AsyncResponseState();
      NothingLearned(want.messageId);
      assert trace[|trace|..] == [];
      while true
        invariant Valid() && |inbox| <= |old(inbox)| && old(trace) <= trace
        invariant forall i :: |old(trace)| <= i < |trace| ==>
            trace[i].Got? && trace[i].message.Message? && trace[i].message.header.messageId == want.messageId
            && HasStatus(trace[i].message, STATUS_PENDING) && Genuine(trace[i].message)
        invariant state.asyncId == Learned(trace[|old(trace)|..], want.messageId)
        invariant credits.available == old(credits.available) + Granted(trace[|old(trace)|..])
        decreases |inbox|
      {
        ghost var before := trace;
        var taken := TakeAnswer(state, want, old(trace));
        assert |trace| > |before| ==> trace[|old(trace)|..|trace| - 1] == before[|old(trace)|..];
        if taken.Err? {
          return Err(taken.error);
        }
        assert trace[|old(trace)|..] == before[|old(trace)|..] + [Got(taken.value.0)];
        GrantedSnoc(before[|old(trace)|..], Got(taken.value.0));
        if taken.value.1 == Final {
          return Ok(taken.value.0);
        }
      }
    }

    lemma NothingLearned(id: u64)
      ensures Learned([], id) == None && Granted([]) == 0
    {}
  }
}
