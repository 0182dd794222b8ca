/** NEGOTIATE and SESSION_SETUP: from a bare connection to an authenticated session, with the
    preauthentication integrity hash of SMB 3.1.1 (MS-SMB2 sections 3.2.5.2 and 3.2.5.3). */
module Handshake {
  import opened Common
  import opened Messages
  import opened Credits
  import opened Session
  import FileModel

  const STATUS_MORE_PROCESSING_REQUIRED: u32 := 0xC000_0016

  datatype Dialect = Smb202 | Smb210 | Smb300 | Smb302 | Smb311

  /** Library functions of which only functionality is used. */
  datatype Crypto = Crypto(
    sha512: Bytes -> Bytes,
    deriveSigningKey: (Bytes, Option<Bytes>) -> Bytes,
    verifySignature: (Bytes, Bytes) -> bool)

  /** The preauthentication state after these messages. */
  function Fold(sha512: Bytes -> Bytes, messages: seq<Bytes>): Bytes {
    if messages == [] then FileModel.Zeros(64)
    else sha512(Fold(sha512, messages[..|messages| - 1]) + messages[|messages| - 1])
  }

  lemma FoldSnoc(sha512: Bytes -> Bytes, messages: seq<Bytes>, m: Bytes)
    ensures Fold(sha512, messages + [m]) == sha512(Fold(sha512, messages) + m)
  {
    assert (messages + [m])[..|messages|] == messages;
  }

  datatype NegotiateConfig = NegotiateConfig(dialects: seq<Dialect>, requireSigning: bool, request: u64 -> Bytes)

  /** The NEGOTIATE response; `contextsOk` is what validating its 3.1.1 contexts would say. */
  datatype NegotiateReply = NegotiateReply(
    bytes: Bytes,
    header: Header,
    dialect: Dialect,
    largeMtu: bool,
    contextsOk: bool,
    signingAlgorithmOk: bool,
    requireSigning: bool,
    maxTransact: u32,
    maxRead: u32,
    maxWrite: u32)

  datatype Negotiated = Negotiated(
    dialect: Dialect,
    multiCredit: bool,
    requireSigning: bool,
    maxTransact: u32,
    maxRead: u32,
    maxWrite: u32)

  /** A NEGOTIATE response the client can go on with: it answers this request successfully, names a
      dialect that was offered, and leaves no size and no window empty. */
  ghost predicate Acceptable(config: NegotiateConfig, m: NegotiateReply, id: u64) {
    && m.header.messageId == id && m.header.status == Status(STATUS_SUCCESS)
    && m.dialect in config.dialects && (m.dialect == Smb311 ==> m.contextsOk) && m.signingAlgorithmOk
    && 0 !in {m.maxTransact, m.maxRead, m.maxWrite, m.header.credits as int}
  }

  /** What the connection works with afterwards is what the server offered, field by field. */
  ghost predicate Takes(n: Negotiated, config: NegotiateConfig, m: NegotiateReply) {
    && n.dialect == m.dialect
    && n.maxRead == m.maxRead && n.maxWrite == m.maxWrite && n.maxTransact == m.maxTransact
    && (n.multiCredit <==> m.dialect != Smb202 && m.largeMtu)
    && (n.requireSigning <==> config.requireSigning || m.requireSigning)
  }

  /** Why a NEGOTIATE response is not accepted. */
  ghost predicate Declines(config: NegotiateConfig, m: NegotiateReply, id: u64, e: ClientError) {
    match e
    case ServerStatus(code) => m.header.messageId == id && m.header.status == Status(code) && code != STATUS_SUCCESS
    case Protocol(fault) =>
      (match fault
       case BadHeader => m.header.messageId != id || m.header.status.ChannelSequence?
       case Rejected => m.dialect !in config.dialects || (m.dialect == Smb311 && !m.contextsOk) || !m.signingAlgorithmOk
       case BadSize => 0 in {m.maxTransact, m.maxRead, m.maxWrite}
       case NoCredits => m.header.credits == 0
       case _ => false)
    case _ => false
  }

  /** The client's checks of the NEGOTIATE response, in order. */
  function CheckNegotiate(config: NegotiateConfig, m: NegotiateReply, id: u64): (r: Result<Negotiated>)
    ensures r.Ok? <==> Acceptable(config, m, id)
    ensures r.Ok? ==> Takes(r.value, config, m)
    ensures r.Err? ==> Declines(config, m, id, r.error)
  {
    if m.header.messageId != id || m.header.status.ChannelSequence? then Err(Protocol(BadHeader))
    else if m.header.status.code != STATUS_SUCCESS then Err(ServerStatus(m.header.status.code))
    else if m.dialect !in config.dialects then Err(Protocol(Rejected))
    else if m.dialect == Smb311 && !m.contextsOk then Err(Protocol(Rejected))
    else if !m.signingAlgorithmOk then Err(Protocol(Rejected))
    else if m.maxTransact == 0 || m.maxRead == 0 || m.maxWrite == 0 then Err(Protocol(BadSize))
    else if m.header.credits == 0 then Err(Protocol(NoCredits))
    else Ok(Negotiated(m.dialect, m.dialect != Smb202 && m.largeMtu, m.requireSigning || config.requireSigning,
                       m.maxTransact, m.maxRead, m.maxWrite))
  }

  lemma NegotiateFold(sha512: Bytes -> Bytes, request: Bytes, response: Bytes)
    ensures Fold(sha512, [request, response]) == sha512(sha512(FileModel.Zeros(64) + request) + response)
  {
    assert [] + [request] == [request] && [request] + [response] == [request, response];
    FoldSnoc(sha512, [], request);
    FoldSnoc(sha512, [request], response);
  }

  datatype SetupReply = SetupReply(
    bytes: Bytes,
    header: Header,
    blob: Bytes,
    guest: bool,
    isNull: bool,
    encrypted: bool)

  datatype AuthStep = AuthStep(token: Bytes, complete: bool)

  /** The authentication provider: its steps are a function of the blobs it has been shown. */
  datatype Provider = Provider(
    anonymous: bool,
    step: seq<Bytes> -> Result<AuthStep>,
    sessionKey: seq<Bytes> -> Option<Bytes>)

  /** Encodes one SESSION_SETUP request: MessageId, SessionId, CreditCharge, CreditRequest, token. */
  type SetupEncoder = (u64, u64, u16, u16, Bytes) -> Bytes

  /** One SESSION_SETUP request and the response it got. */
  datatype Round = Round(id: u64, charge: u16, creditRequest: u16, request: Bytes, reply: SetupReply)

  /** The wire transcript after these rounds, on top of what came before. */
  function Transcript(base: seq<Bytes>, rounds: seq<Round>): seq<Bytes> {
    if rounds == [] then base
    else
      var n := |rounds| - 1;
      Transcript(base, rounds[..n]) + [rounds[n].request] + [rounds[n].reply.bytes]
  }

  lemma TranscriptSnoc(base: seq<Bytes>, rounds: seq<Round>, round: Round)
    ensures Transcript(base, rounds + [round]) == Transcript(base, rounds) + [round.request] + [round.reply.bytes]
  {
    assert (rounds + [round])[..|rounds|] == rounds;
  }

  /** The blobs the provider has been shown. */
  function Blobs(rounds: seq<Round>): seq<Bytes> {
    seq(|rounds|, i requires 0 <= i < |rounds| => rounds[i].reply.blob)
  }

  /** Round `i` carried the provider's token for the blobs before it and the SessionId assigned by
      then, and its response bore the one SessionId of this authentication. */
  ghost predicate RoundOk(provider: Provider, encode: SetupEncoder, rounds: seq<Round>, i: nat, sessionId: u64)
    requires i < |rounds|
  {
    var round, step := rounds[i], provider.step(Blobs(rounds[..i]));
    && round.reply.header.sessionId == sessionId
    && step.Ok?
    && round.request == encode(round.id, if i == 0 then 0 else sessionId, round.charge, round.creditRequest, step.value.token)
  }

  ghost predicate InProgress(provider: Provider, encode: SetupEncoder, rounds: seq<Round>, sessionId: u64) {
    && (rounds == [] <==> sessionId == 0)
    && (forall i :: 0 <= i < |rounds| ==> RoundOk(provider, encode, rounds, i, sessionId))
    && (forall i :: 0 <= i < |rounds| ==> HasCode(rounds[i], STATUS_MORE_PROCESSING_REQUIRED))
  }

  predicate HasCode(round: Round, code: u32) { round.reply.header.status == Status(code) }

  /** Only the last response reported success; every round used the one nonzero SessionId. */
  ghost predicate Established(provider: Provider, encode: SetupEncoder, rounds: seq<Round>, sessionId: u64) {
    && rounds != [] && sessionId != 0
    && (forall i :: 0 <= i < |rounds| ==> RoundOk(provider, encode, rounds, i, sessionId))
    && (forall i :: 0 <= i < |rounds| - 1 ==> HasCode(rounds[i], STATUS_MORE_PROCESSING_REQUIRED))
    && HasCode(rounds[|rounds| - 1], STATUS_SUCCESS)
  }

  lemma {:induction false} RoundsSnoc(provider: Provider, encode: SetupEncoder, rounds: seq<Round>, sessionId: u64, round: Round, final: u64)
    requires InProgress(provider, encode, rounds, sessionId) && final != 0
    requires rounds != [] ==> final == sessionId
    requires round.reply.header.sessionId == final && provider.step(Blobs(rounds)).Ok?
    requires round.request == encode(round.id, sessionId, round.charge, round.creditRequest, provider.step(Blobs(rounds)).value.token)
    ensures HasCode(round, STATUS_MORE_PROCESSING_REQUIRED) ==> InProgress(provider, encode, rounds + [round], final)
    ensures HasCode(round, STATUS_SUCCESS) ==> Established(provider, encode, rounds + [round], final)
    ensures Blobs(rounds + [round]) == Blobs(rounds) + [round.reply.blob]
  {
    var all := rounds + [round];
    forall i | 0 <= i < |all| ensures RoundOk(provider, encode, all, i, final) {
      if i < |rounds| {
        assert RoundOk(provider, encode, rounds, i, sessionId);
        assert all[..i] == rounds[..i];
      } else {
        assert all[..i] == rounds;
      }
    }
  }

  datatype Delivered<T> = Broken | Undecodable | Decoded(value: T)

  class Connection {
    const crypto: Crypto
    const messageIds: MessageIdAllocator
    var credits: CreditManager?
    var negotiated: Option<Negotiated>
    var preauth: Option<Bytes>
    /** Every message of the handshake in progress, requests and responses in wire order. */
    ghost var transcript: seq<Bytes>
    ghost var firstId: nat
    ghost var leaked: nat

    ghost predicate Valid()
      reads this`negotiated, this`credits, this`firstId, this`leaked, messageIds, credits
    {
      && messageIds.Valid()
      && (negotiated.Some? ==>
            && credits != null && credits.Valid() && firstId <= messageIds.next
            && credits.reserved == messageIds.next - firstId + leaked
            && (leaked > 0 ==> messageIds.next + U16_MAX > U64_MAX))
    }

    /** Just negotiated: the hash covers exactly the NEGOTIATE request and response. */
    ghost predicate Fresh()
      reads this
    {
      && negotiated.Some? && |transcript| == 2
      && preauth == if negotiated.value.dialect == Smb311 then Some(Fold(crypto.sha512, transcript)) else None
    }

    constructor (crypto: Crypto)
      ensures Valid() && negotiated.None? && preauth.None? && fresh(messageIds) && this.crypto == crypto
    {
      this.crypto := crypto;
      credits, negotiated, preauth := null, None, None;
      transcript, firstId, leaked := [], 0, 0;
      messageIds := new MessageIdAllocator();
    }

    method Negotiate(config: NegotiateConfig, reply: Delivered<NegotiateReply>) returns (r: Result<Negotiated>)
      requires Valid()
      modifies this, messageIds
      ensures Valid()
      ensures old(negotiated).Some? ==> r.Err? && unchanged(this) && unchanged(messageIds)
      ensures r.Ok? <==> old(negotiated).None? && old(messageIds.next) < U64_MAX
                         && reply.Decoded? && Acceptable(config, reply.value, old(messageIds.next))
      ensures r.Ok? ==>
                && negotiated == Some(r.value) && Takes(r.value, config, reply.value)
                && messageIds.next == old(messageIds.next) + 1
                && transcript == [config.request(old(messageIds.next)), reply.value.bytes] && Fresh()
                && fresh(credits) && credits.available == reply.value.header.credits > 0 && credits.reserved == 0
                && firstId == messageIds.next && leaked == 0
      ensures r.Err? ==> negotiated == old(negotiated) && preauth == old(preauth)
      ensures r.Err? ==>
                if old(negotiated).Some? then r.error == Protocol(NotNegotiated)
                else if old(messageIds.next) == U64_MAX then r.error == Protocol(IdsExhausted)
                else
                  match reply
                  case Broken => r.error == Io
                  case Undecodable => r.error == Wire
                  case Decoded(m) => Declines(config, m, old(messageIds.next), r.error)
    {
      hide Fold, CheckNegotiate, Takes, Acceptable, Declines, Tiles;
      if negotiated.Some? {
        return Err(Protocol(NotNegotiated));
      }
      var id := messageIds.Allocate(0);
      if id.Err? {
        return Err(id.error);
      }
      var request := config.request(id.value);
      // The client hashes its request before it knows whether 3.1.1 will be chosen.
      var hash := if Smb311 in config.dialects then Some(crypto.sha512(FileModel.Zeros(64) + request)) else None;
      if reply.Broken? {
        return Err(Io);
      }
      if reply.Undecodable? {
        return Err(Wire);
      }
      var m := reply.value;
      var accepted := CheckNegotiate(config, m, id.value);
      if accepted.Err? {
        return Err(accepted.error);
      }
      NegotiateFold(crypto.sha512, request, m.bytes);
      AcceptedFacts(accepted.value, config, m, id.value);
      preauth := if m.dialect == Smb311 then Some(crypto.sha512(hash.value + m.bytes)) else None;
      transcript := [request, m.bytes];
      credits := new CreditManager(m.header.credits);
      firstId, leaked := messageIds.next, 0;
      negotiated := Some(accepted.value);
      return accepted;
    }

    lemma AcceptedFacts(n: Negotiated, config: NegotiateConfig, m: NegotiateReply, id: u64)
      requires Takes(n, config, m) && Acceptable(config, m, id)
      ensures n.dialect == m.dialect && m.dialect in config.dialects && m.header.credits > 0
    {}

    method UpdatePreauth(message: Bytes)
      modifies this`preauth, this`transcript
      ensures transcript == old(transcript) + [message]
      ensures preauth == if old(preauth).Some? then Some(crypto.sha512(old(preauth).value + message)) else None
      ensures old(Covered(transcript)) ==> Covered(transcript)
    {
      FoldSnoc(crypto.sha512, transcript, message);
      transcript := transcript + [message];
      if preauth.Some? {
        preauth := Some(crypto.sha512(preauth.value + message));
      }
    }

    /** The hash, where there is one, folds exactly these messages. */
    ghost predicate Covered(messages: seq<Bytes>)
      reads this
    {
      preauth.Some? ==> preauth.value == Fold(crypto.sha512, messages)
    }

    lemma FreshCovered()
      requires Fresh()
      ensures Covered(transcript)
    {}

    /** Reserves credits and a MessageId for one SESSION_SETUP request. */
    method Prepare(creditRequest: u16) returns (r: Result<(u64, u16, u16)>)
      requires Valid() && negotiated.Some?
      modifies this`leaked, messageIds, credits
      ensures Valid()
      ensures r.Ok? ==>
                && r.value.0 == old(messageIds.next) && messageIds.next == old(messageIds.next) + 1
                && r.value.1 == (if negotiated.value.multiCredit then 1 else 0) && r.value.2 >= Max(creditRequest, 1)
                && credits.available == old(credits.available) - 1
      ensures r.Err? ==>
                || (r.error == Protocol(InsufficientCredits) && credits.available == 0)
                || (r.error == Protocol(IdsExhausted) && messageIds.next == U64_MAX)
    {
      var charge: u16 := if negotiated.value.multiCredit then 1 else 0;
      var reserved := credits.Reserve(charge);
      if reserved.Err? {
        return Err(reserved.error);
      }
      var id := messageIds.Allocate(charge);
      if id.Err? {
        leaked := leaked + Width(charge);
        return Err(id.error);
      }
      return Ok((id.value, charge, credits.RequestHint(creditRequest)));
    }

    /** Why a SESSION_SETUP response is not accepted. */
    ghost predicate Unfit(reply: Delivered<SetupReply>, id: u64, sessionId: u64, e: ClientError)
      requires credits != null
      reads this`credits, credits
    {
      match reply
      case Broken => e == Io
      case Undecodable => e == Wire
      case Decoded(m) =>
        match e
        case ServerStatus(code) =>
          m.header.status == Status(code) && code !in {STATUS_SUCCESS, STATUS_MORE_PROCESSING_REQUIRED}
        case Protocol(CreditOverflow) => credits.available + m.header.credits > U32_MAX
        case Protocol(BadHeader) =>
          m.header.command != SessionSetup || m.header.messageId != id || m.header.status.ChannelSequence?
        case Protocol(SessionIdChanged) => sessionId != 0 && m.header.sessionId != sessionId
        case _ => false
    }

    /** Checks one response against its request and the SessionId so far. */
    method Receive(reply: Delivered<SetupReply>, id: u64, sessionId: u64) returns (r: Result<SetupReply>)
      requires Valid() && negotiated.Some?
      modifies credits
      ensures Valid()
      ensures r.Ok? ==>
                && reply == Decoded(r.value) && r.value.header.status.Status?
                && (r.value.header.status.code == STATUS_SUCCESS || r.value.header.status.code == STATUS_MORE_PROCESSING_REQUIRED)
                && (sessionId != 0 ==> r.value.header.sessionId == sessionId)
                && credits.available == old(credits.available) + r.value.header.credits
      ensures r.Err? ==> Unfit(reply, id, sessionId, r.error)
    {
      if reply.Broken? {
        return Err(Io);
      }
      if reply.Undecodable? {
        return Err(Wire);
      }
      var h := reply.value.header;
      var granted := credits.Grant(h.credits);
      if granted.Err? {
        return Err(granted.error);
      }
      if h.command != SessionSetup || h.messageId != id || h.status.ChannelSequence? {
        return Err(Protocol(BadHeader));
      }
      if h.status.code != STATUS_SUCCESS && h.status.code != STATUS_MORE_PROCESSING_REQUIRED {
        return Err(ServerStatus(h.status.code));
      }
      if sessionId != 0 && h.sessionId != sessionId {
        return Err(Protocol(SessionIdChanged));
      }
      return Ok(reply.value);
    }

    /** The request took one MessageId and one credit, and asked for at least what the caller wants. */
    ghost predicate Priced(round: Round, id: nat, creditRequest: u16)
      requires negotiated.Some?
      reads this`negotiated
    {
      round.id == id && round.charge == (if negotiated.value.multiCredit then 1 else 0) && round.creditRequest >= Max(creditRequest, 1)
    }

    /** Why a round did not take place: nothing left to send it with, or its response is unfit. */
    ghost predicate Refusing(reply: Delivered<SetupReply>, sessionId: u64, e: ClientError)
      requires credits != null
      reads this`credits, credits, messageIds
    {
      || (e == Protocol(InsufficientCredits) && credits.available == 0)
      || (e == Protocol(IdsExhausted) && messageIds.next == U64_MAX)
      || (messageIds.next > 0 && Unfit(reply, messageIds.next - 1, sessionId, e))
    }

    /** Sends one request for the provider's step and checks the response; only the request enters
        the hash here. */
    method Exchange(step: AuthStep, sessionId: u64, creditRequest: u16, encode: SetupEncoder, reply: Delivered<SetupReply>)
      returns (r: Result<Round>)
      requires Valid() && negotiated.Some? && Covered(transcript)
      modifies this`preauth, this`transcript, this`leaked, messageIds, credits
      ensures Valid() && (preauth.Some? <==> old(preauth).Some?)
      ensures r.Ok? ==>
                && Covered(transcript) && transcript == old(transcript) + [r.value.request]
                && r.value.request == encode(r.value.id, sessionId, r.value.charge, r.value.creditRequest, step.token)
                && (HasCode(r.value, STATUS_SUCCESS) || HasCode(r.value, STATUS_MORE_PROCESSING_REQUIRED))
                && (sessionId != 0 ==> r.value.reply.header.sessionId == sessionId)
                && reply == Decoded(r.value.reply) && Priced(r.value, old(messageIds.next), creditRequest)
                && messageIds.next == old(messageIds.next) + 1
      ensures r.Err? ==> Refusing(reply, sessionId, r.error)
    {
      hide Fold;
      var prepared := Prepare(creditRequest);
      if prepared.Err? {
        return Err(prepared.error);
      }
      var (id, charge, hint) := prepared.value;
      var request := encode(id, sessionId, charge, hint, step.token);
      UpdatePreauth(request);
      var received := Receive(reply, id, sessionId);
      if received.Err? {
        return Err(received.error);
      }
      return Ok(Round(id, charge, hint, request, received.value));
    }

    /** Shown every blob, the provider is done; if the final response carried one, it has no token left
        to send. */
    ghost predicate Finished(provider: Provider, blobs: seq<Bytes>, m: SetupReply) {
      var last := provider.step(Shown(blobs, m));
      last.Ok? && last.value.complete && (m.blob != [] ==> last.value.token == [])
    }

    /** The blobs the provider has been shown once the final response has been handled. */
    function Shown(blobs: seq<Bytes>, m: SetupReply): seq<Bytes> {
      blobs + (if m.blob == [] then [] else [m.blob])
    }

    /** The end of the exchange: the provider must be done, and a normal 3.1.1 session's final
        response must verify under the key derived from the hash that leaves this response out. */
    method Conclude(provider: Provider, step: AuthStep, blobs: seq<Bytes>, sessionId: u64, m: SetupReply,
                    inbox: seq<Incoming>, sends: nat)
      returns (r: Result<SessionConnection>)
      requires Valid() && negotiated.Some? && provider.step(blobs) == Ok(step)
      ensures r.Ok? <==> sessionId != 0 && Finished(provider, blobs, m) && Verified(provider, Shown(blobs, m), m)
      ensures r.Err? ==> Inconclusive(provider, blobs, sessionId, m, r.error)
      ensures r.Ok? ==> Inherits(r.value, provider, m) && r.value.inbox == inbox && r.value.trace == []
      ensures r.Ok? ==>
                && r.value.Valid() && r.value.sessionId == sessionId
                && r.value.credits == credits && r.value.messageIds == messageIds && r.value.firstId == firstId
    {
      assert blobs + [] == blobs;
      var shown, complete := blobs, step.complete;
      if m.blob != [] {
        shown := blobs + [m.blob];
        var last := provider.step(shown);
        if last.Err? {
          return Err(last.error);
        }
        if last.value.token != [] {
          return Err(Protocol(AuthIncomplete));
        }
        complete := last.value.complete;
      }
      if !complete {
        return Err(Protocol(AuthIncomplete));
      }
      if sessionId == 0 {
        return Err(Protocol(SessionIdMissing));
      }
      var unauthenticated := m.guest || provider.anonymous || m.isNull;
      var key := if unauthenticated then None else provider.sessionKey(shown);
      if !unauthenticated && key.None? {
        return Err(Protocol(AuthIncomplete));
      }
      var signingRequired := negotiated.value.requireSigning && !unauthenticated && !m.encrypted;
      var signing := if key.Some? then Some(crypto.deriveSigningKey(key.value, preauth)) else None;
      if m.header.signed {
        if signing.None? || !crypto.verifySignature(signing.value, m.bytes) {
          return Err(Protocol(BadSignature));
        }
      } else if (negotiated.value.dialect == Smb311 && !unauthenticated) || signingRequired {
        return Err(Protocol(BadSignature));
      }
      assert blobs + [] == blobs;
      var n := negotiated.value;
      var s := new SessionConnection.Over(credits, messageIds, firstId, leaked, sessionId, m.encrypted, signingRequired,
                                          signing.Some?, n.multiCredit, n.maxRead, n.maxWrite, n.maxTransact, inbox, sends);
      return Ok(s);
    }

    /** Neither guest nor anonymous: the session has a key. */
    predicate Normal(provider: Provider, m: SetupReply) { !m.guest && !m.isNull && !provider.anonymous }

    /** The session works with the limits negotiated, is encrypted if the server says so, has a signing
        key exactly if it is normal, and demands signatures if signing is required and nothing stands in
        for it. */
    ghost predicate Inherits(s: SessionConnection, provider: Provider, m: SetupReply)
      requires negotiated.Some?
      reads this`negotiated
    {
      var n := negotiated.value;
      && s.maxReadSize == n.maxRead && s.maxWriteSize == n.maxWrite && s.maxTransactSize == n.maxTransact
      && s.multiCredit == n.multiCredit && s.encrypted == m.encrypted
      && (s.hasSigningKey <==> Normal(provider, m))
      && (s.signingRequired <==> n.requireSigning && Normal(provider, m) && !m.encrypted)
    }

    /** Why a successful response does not make a session. */
    ghost predicate Inconclusive(provider: Provider, blobs: seq<Bytes>, sessionId: u64, m: SetupReply, e: ClientError)
      requires negotiated.Some?
      reads this
    {
      || provider.step(Shown(blobs, m)) == Err(e)
      || (match e
          case Protocol(AuthIncomplete) =>
            !Finished(provider, blobs, m) || (Normal(provider, m) && provider.sessionKey(Shown(blobs, m)).None?)
          case Protocol(SessionIdMissing) => sessionId == 0
          case Protocol(BadSignature) => !Verified(provider, Shown(blobs, m), m)
          case _ => false)
    }

    /** The final response is authentic wherever the protocol asks for it. */
    ghost predicate Verified(provider: Provider, blobs: seq<Bytes>, m: SetupReply)
      requires negotiated.Some?
      reads this
    {
      var normal := Normal(provider, m);
      && (normal ==> provider.sessionKey(blobs).Some?)
      && (normal && (negotiated.value.dialect == Smb311 || (negotiated.value.requireSigning && !m.encrypted)) ==> m.header.signed)
      && (m.header.signed ==>
            normal && crypto.verifySignature(crypto.deriveSigningKey(provider.sessionKey(blobs).value, preauth), m.bytes))
    }

    /** The SessionId these rounds have established; zero before the first. */
    function IdOf(rounds: seq<Round>): u64 { if rounds == [] then 0 else rounds[0].reply.header.sessionId }

    /** Why the exchange ends after these rounds, given the response that comes next. */
    ghost predicate Stuck(provider: Provider, rounds: seq<Round>, reply: Delivered<SetupReply>, e: ClientError)
      requires negotiated.Some? && credits != null
      reads this, credits, messageIds
    {
      var blobs, earlier := Blobs(rounds), IdOf(rounds);
      || provider.step(blobs) == Err(e)
      || Refusing(reply, earlier, e)
      || (reply.Decoded? &&
          var m := reply.value;
          var sessionId := if m.header.sessionId != 0 then m.header.sessionId else earlier;
          if m.header.status == Status(STATUS_MORE_PROCESSING_REQUIRED)
          then (e == Protocol(SessionIdMissing) && sessionId == 0) || provider.step(blobs + [m.blob]) == Err(e)
          else Inconclusive(provider, blobs, sessionId, m, e))
    }

    lemma HasWindow()
      requires Valid() && negotiated.Some?
      ensures credits != null
    {}

    lemma IdOfRounds(provider: Provider, encode: SetupEncoder, rounds: seq<Round>, sessionId: u64)
      requires InProgress(provider, encode, rounds, sessionId)
      ensures IdOf(rounds) == sessionId
    {
      if rounds != [] {
        assert RoundOk(provider, encode, rounds, 0, sessionId);
      }
    }

    /** Rounds of SESSION_SETUP until the server reports success and the provider is done. */
    method SetUp(provider: Provider, maxRounds: nat, creditRequest: u16, encode: SetupEncoder,
                 replies: seq<Delivered<SetupReply>>, inbox: seq<Incoming>, sends: nat)
      returns (r: Result<SessionConnection>, ghost rounds: seq<Round>)
      requires Valid() && (negotiated.Some? ==> Fresh()) && |replies| >= maxRounds
      modifies this`preauth, this`transcript, this`leaked, messageIds, credits
      ensures |rounds| <= maxRounds
      ensures r.Ok? ==> negotiated.Some? && Established(provider, encode, rounds, r.value.sessionId)
      ensures r.Ok? ==>
                var n := |rounds| - 1;
                && (preauth.Some? <==> negotiated.value.dialect == Smb311)
                && Covered(Transcript(old(transcript), rounds[..n]) + [rounds[n].request])
                && Finished(provider, Blobs(rounds[..n]), rounds[n].reply)
                && Verified(provider, Shown(Blobs(rounds[..n]), rounds[n].reply), rounds[n].reply)
      ensures r.Ok? ==>
                && r.value.Valid() && r.value.credits == credits && r.value.messageIds == messageIds && r.value.firstId == firstId
                && Inherits(r.value, provider, rounds[|rounds| - 1].reply) && r.value.inbox == inbox && r.value.trace == []
      ensures forall i :: 0 <= i < |rounds| ==>
                negotiated.Some? && replies[i] == Decoded(rounds[i].reply) && Priced(rounds[i], old(messageIds.next) + i, creditRequest)
      ensures r.Err? ==>
                if negotiated.None? then r.error == Protocol(NotNegotiated) && rounds == []
                else if |rounds| == maxRounds then r.error == Protocol(RoundLimit)
                else credits != null && Stuck(provider, rounds, replies[|rounds|], r.error)
    {
      hide Established, InProgress, SessionConnection.Valid, Fold, Verified, Finished, Shown, Transcript, Blobs, Valid, Covered,
           Inherits, Inconclusive, Refusing, Priced, IdOf, Unfit, RoundOk, Normal, Tiles;
      rounds := [];
      if negotiated.None? {
        return Err(Protocol(NotNegotiated)), rounds;
      }
      if maxRounds == 0 {
        return Err(Protocol(RoundLimit)), rounds;
      }
      var blobs: seq<Bytes> := [];
      NoRounds(provider, encode, transcript);
      HasWindow();
      var first := provider.step(blobs);
      if first.Err? {
        return Err(first.error), rounds;
      }
      var step := first.value;
      var sessionId: u64 := 0;
      FreshCovered();
      for i := 0 to maxRounds
        invariant Valid() && negotiated.Some? && |rounds| == i
        invariant Covered(transcript) && (preauth.Some? <==> negotiated.value.dialect == Smb311)
        invariant transcript == Transcript(old(transcript), rounds)
        invariant blobs == Blobs(rounds) && provider.step(blobs) == Ok(step)
        invariant InProgress(provider, encode, rounds, sessionId)
        invariant messageIds.next == old(messageIds.next) + i
        invariant forall j :: 0 <= j < i ==>
          replies[j] == Decoded(rounds[j].reply) && Priced(rounds[j], old(messageIds.next) + j, creditRequest)
      {
        IdOfRounds(provider, encode, rounds, sessionId);
        var exchanged := Exchange(step, sessionId, creditRequest, encode, replies[i]);
        if exchanged.Err? {
          return Err(exchanged.error), rounds;
        }
        var round := exchanged.value;
        var m := round.reply;
        ghost var earlier := sessionId;
        Assigned(provider, encode, rounds, earlier, m);
        if m.header.sessionId != 0 {
          sessionId := m.header.sessionId;
        }
        if m.header.status.code != STATUS_MORE_PROCESSING_REQUIRED {
          r := Conclude(provider, step, blobs, sessionId, m, inbox, sends);
          if r.Ok? {
            RoundsSnoc(provider, encode, rounds, earlier, round, sessionId);
            assert (rounds + [round])[..i] == rounds;
            rounds := rounds + [round];
          }
          return r, rounds;
        }
        UpdatePreauth(m.bytes);
        if sessionId == 0 {
          return Err(Protocol(SessionIdMissing)), rounds;
        }
        blobs := blobs + [m.blob];
        var next := provider.step(blobs);
        if next.Err? {
          return Err(next.error), rounds;
        }
        step := next.value;
        TranscriptSnoc(old(transcript), rounds, round);
        RoundsSnoc(provider, encode, rounds, earlier, round, sessionId);
        rounds := rounds + [round];
      }
      return Err(Protocol(RoundLimit)), rounds;
    }
  }

  lemma NoRounds(provider: Provider, encode: SetupEncoder, base: seq<Bytes>)
    ensures InProgress(provider, encode, [], 0) && Blobs([]) == [] && Transcript(base, []) == base
  {}

  /** Once a SessionId is assigned it is the one every round has used. */
  lemma Assigned(provider: Provider, encode: SetupEncoder, rounds: seq<Round>, sessionId: u64, m: SetupReply)
    requires InProgress(provider, encode, rounds, sessionId)
    ensures rounds != [] <==> sessionId != 0
  {}
}
