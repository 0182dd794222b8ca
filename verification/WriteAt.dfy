/** Positional WRITE and SET_INFO(EndOfFile), and what the server's file looks like afterwards. */
module WriteAt {
  import opened Common
  import opened Messages
  import opened Credits
  import opened AsyncResponse
  import opened Session
  import opened FileModel
  import opened ReadTrace
  import opened ReadAt

  const END_OF_FILE_INFORMATION_SIZE: nat := 8

  /** The server's file, and the mutation it was asked for but has not yet answered. */
  datatype Store = Store(content: Bytes, request: Option<Event>)

  /** A server that reports success has applied what it reports: the first `count` bytes of a
      WRITE, or the new end of file. */
  function Apply(store: Store, e: Event): Store {
    match e
    case WriteSent(_, _, _) => store.(request := Some(e))
    case SetEndOfFileSent(_, _) => store.(request := Some(e))
    case Got(m) =>
      if !HasStatus(m, STATUS_SUCCESS) || store.request.None? then store
      else
        (match store.request.value
         case WriteSent(id, offset, data) =>
           if m.header.messageId == id && m.body.WriteCount?
           then Store(Overlay(store.content, offset, data[..Min(m.body.count, |data|)]), None)
           else store
         case SetEndOfFileSent(id, length) =>
           if m.header.messageId == id && m.body.Empty? then Store(Resize(store.content, length), None) else store
         case _ => store)
    case _ => store
  }

  function After(store: Store, t: Trace): Store {
    if t == [] then store else Apply(After(store, t[..|t| - 1]), t[|t| - 1])
  }

  lemma {:induction false} AfterConcat(store: Store, t: Trace, u: Trace)
    ensures After(store, t + u) == After(After(store, t), u)
  {
    if u == [] {
      assert t + u == t;
    } else {
      AfterConcat(store, t, u[..|u| - 1]);
      assert (t + u)[..|t + u| - 1] == t + u[..|u| - 1];
    }
  }

  /** Interim responses apply nothing. */
  lemma {:induction false} AfterInterim(store: Store, t: Trace)
    requires forall i :: 0 <= i < |t| ==> t[i].Got? && HasStatus(t[i].message, STATUS_PENDING)
    ensures After(store, t) == store
  {
    if t != [] {
      AfterInterim(store, t[..|t| - 1]);
      assert HasStatus(t[|t| - 1].message, STATUS_PENDING);
    }
  }

  /** One request and its exchange, seen from the store. */
  lemma {:induction false} AfterExchange(store: Store, request: Event, interim: Trace, last: Incoming)
    requires !request.Got?
    requires forall i :: 0 <= i < |interim| ==> interim[i].Got? && HasStatus(interim[i].message, STATUS_PENDING)
    ensures After(store, [request] + interim + [Got(last)]) == Apply(Apply(store, request), Got(last))
  {
    var head := [request] + interim;
    assert (head + [Got(last)])[..|head|] == head;
    AfterConcat(store, [request], interim);
    assert After(store, [request]) == Apply(store, request) by {
      assert [request][..0] == [];
    }
    AfterInterim(Apply(store, request), interim);
  }

  /** What an exchange can have done to the store, however it ended: nothing, left its request in
      doubt, or had it answered. */
  ghost predicate Touched(store: Store, request: Event, store': Store) {
    || store' == store
    || store' == Apply(store, request)
    || exists m :: store' == Apply(Apply(store, request), Got(m))
  }

  lemma AfterAttempt(store: Store, request: Event, answers: Trace)
    requires !request.Got? && forall e :: e in answers ==> e.Got?
    requires forall i :: 0 <= i < |answers| - 1 ==> HasStatus(answers[i].message, STATUS_PENDING)
    ensures Touched(store, request, After(store, [request] + answers))
  {
    hide Apply;
    if answers == [] {
      assert [request] + answers == [request] && [request][..0] == [];
    } else {
      var n := |answers| - 1;
      assert [request] + answers == [request] + answers[..n] + [Got(answers[n].message)];
      AfterExchange(store, request, answers[..n], answers[n].message);
    }
  }

  function Request(command: Command, id: u64, offset: nat, length: nat, data: Bytes): (e: Event)
    ensures !e.Got? && !e.Noticed? && e.id == id
  {
    match command
    case Write => WriteSent(id, offset, data)
    case SetInfo => SetEndOfFileSent(id, length)
    case _ => OtherSent(id, command)
  }

  function CommandOf(request: Event): Command {
    match request
    case WriteSent(_, _, _) => Write
    case SetEndOfFileSent(_, _) => SetInfo
    case OtherSent(_, command) => command
    case _ => OtherCommand
  }

  predicate IsRequest(e: Event) { e.WriteSent? || e.SetEndOfFileSent? || e.OtherSent? }

  /** One finished exchange: the request, interim responses to it and its one final response, all
      authentic. */
  ghost predicate Exchanged(s: SessionConnection, request: Event, t: Trace) {
    && IsRequest(request) && |t| >= 2 && t[0] == request && t[|t| - 1].Got?
    && AllInterim(t[1..|t| - 1], request.id)
    && Answers(t[|t| - 1].message, request.id) && t[|t| - 1].message.header.status.Status?
    && !HasStatus(t[|t| - 1].message, STATUS_PENDING)
    && AllGenuine(s, t)
  }

  /** Such an exchange, ended by plain success. */
  ghost predicate Confirms(s: SessionConnection, request: Event, t: Trace) {
    Exchanged(s, request, t) && HasStatus(t[|t| - 1].message, STATUS_SUCCESS) && t[|t| - 1].message.body.Empty?
  }

  /** What is wrong with a final answer to `request`. */
  ghost predicate BadAnswer(request: Event, m: Incoming, e: ClientError) {
    match e
    case ServerStatus(code) => HasStatus(m, code) && code !in {STATUS_SUCCESS, STATUS_PENDING}
    case Wire => HasStatus(m, STATUS_SUCCESS) && if request.WriteSent? then !m.body.WriteCount? else !m.body.Empty?
    case Protocol(fault) =>
      HasStatus(m, STATUS_SUCCESS) && request.WriteSent? && m.body.WriteCount? &&
      (match fault
       case TooMuchData => m.body.count > |request.data|
       case ZeroCount => m.body.count == 0
       case _ => false)
    case _ => false
  }

  /** The exchange that began at `t[k]` ended in a last message that is no answer, or a bad one. */
  ghost predicate DeniedAt(s: SessionConnection, h: FileHandle, t: Trace, e: ClientError, k: nat)
    requires k < |t| - 1
    reads s.credits
  {
    var request, interim, last := t[k], t[k + 1..|t| - 1], t[|t| - 1];
    && IsRequest(request) && last.Got? && AllInterim(interim, request.id)
    && (s.Unanswering(Expected(CommandOf(request), h.treeId, s.sessionId, request.id), interim, last.message, e)
        || (Answers(last.message, request.id) && BadAnswer(request, last.message, e)))
  }

  ghost predicate Denied(s: SessionConnection, h: FileHandle, t: Trace, e: ClientError)
    reads s.credits
  {
    exists k :: 0 <= k < |t| - 1 && DeniedAt(s, h, t, e, k)
  }

  lemma DeniedLater(s: SessionConnection, h: FileHandle, t: Trace, u: Trace, e: ClientError)
    requires Denied(s, h, u, e)
    ensures Denied(s, h, t + u, e)
  {
    hide SessionConnection.Unanswering, BadAnswer, AllInterim;
    var k :| 0 <= k < |u| - 1 && DeniedAt(s, h, u, e, k);
    var v := t + u;
    assert v[|t| + k] == u[k] && v[|t| + k + 1..|v| - 1] == u[k + 1..|u| - 1] && v[|v| - 1] == u[|u| - 1];
    assert DeniedAt(s, h, v, e, |t| + k);
  }

  /** The link, the number space, the signing key or the session's form stands in the way. */
  ghost predicate Blocked(s: SessionConnection, e: ClientError)
    reads s`inbox, s`sendsLeft, s.credits, s.messageIds
  {
    e in {Io, Protocol(IdsExhausted), Protocol(BadSignature), Protocol(Encrypted)} && s.Exhausted(e)
  }

  /** Sends one request outside the READ path and returns its final response. */
  method Exchange(s: SessionConnection, h: FileHandle, command: Command, charge: u16, offset: nat, length: nat,
                  data: Bytes, ghost store: Store)
    returns (r: Result<Incoming>, ghost request: Event)
    requires s.Valid() && command in {Write, SetInfo, Flush}
    requires Width(charge) == Cost(s.multiCredit, Request(command, 0, offset, length, data)) && (charge > 0 <==> s.multiCredit)
    modifies s`inbox, s`trace, s`sendsLeft, s`leaked, s.credits, s.messageIds
    ensures s.Valid() && old(s.trace) <= s.trace
    ensures |s.inbox| <= |old(s.inbox)| && (r.Ok? ==> |s.inbox| < |old(s.inbox)|)
    ensures r.Err? ==> r.error !in {Cancelled, Protocol(NoCredits)} && !r.error.ServerStatus?
    ensures r == Err(Protocol(InsufficientCredits)) ==>
              Width(charge) > old(s.credits.available) == s.credits.available && s.trace == old(s.trace)
    ensures r.Err? && r.error != Protocol(InsufficientCredits) ==>
              || (r.error == Protocol(OffsetOverflow) && offset > U64_MAX)
              || Blocked(s, r.error) || Denied(s, h, s.trace[|old(s.trace)|..], r.error)
    ensures r.Ok? ==> Paid(s, s.trace[|old(s.trace)|..], old(s.messageIds.next), old(s.credits.available))
    ensures r.Ok? ==>
              var t := s.trace[|old(s.trace)|..];
              Exchanged(s, request, t) && t[|t| - 1] == Got(r.value) && offset <= U64_MAX
    ensures Touched(store, Request(command, old(s.messageIds.next), offset, length, data), After(store, s.trace[|old(s.trace)|..]))
    ensures r.Ok? ==>
              && request == Request(command, old(s.messageIds.next), offset, length, data)
              && r.value.Message? && r.value.header.status.Status? && r.value.header.messageId == request.id
              && Got(r.value) in s.trace[|old(s.trace)|..]
              && After(store, s.trace[|old(s.trace)|..]) == Apply(Apply(store, request), Got(r.value))
  {
    hide Apply, After, Touched, SessionConnection.Valid, SessionConnection.Unanswering, SessionConnection.Genuine, BadAnswer,
         Settles, Cost, Granted, Learned, Denied, AllInterim, AllGenuine, Request;
    request := Noticed;
    NothingSent(store, Request(command, s.messageIds.next, offset, length, data));
    assert s.trace[|s.trace|..] == [];
    var sent := SendRequest(s, command, charge, offset, length, data);
    if sent.Err? {
      return Err(sent.error), request;
    }
    request := sent.value;
    SameCost(s.multiCredit, command, request.id, offset, length, data);
    ghost var before := s.trace;
    r := s.AwaitFinal(Expected(command, h.treeId, s.sessionId, sent.value.id));
    ghost var answers := s.trace[|before|..];
    assert s.trace[|old(s.trace)|..] == [request] + answers;
    assert answers != [] ==> s.trace[|before|..|s.trace| - 1] == answers[..|answers| - 1];
    AnswersInterim(answers, request.id);
    AfterAttempt(store, request, answers);
    if r.Err? {
      if r.error != Io {
        ExchangeDenied(s, h, request, answers, r.error);
      }
      return;
    }
    ExchangePaid(s.multiCredit, request, answers, old(s.credits.available), s.credits.available);
    ExchangeDone(s, request, answers);
    assert [request] + answers[..|answers| - 1] + [Got(r.value)] == [request] + answers;
    InterimPends(answers[..|answers| - 1], request.id);
    AfterExchange(store, request, answers[..|answers| - 1], r.value);
  }

  /** Reserves what one request costs, and sends it. */
  method SendRequest(s: SessionConnection, command: Command, charge: u16, offset: nat, length: nat, data: Bytes)
    returns (r: Result<Event>)
    requires s.Valid() && command in {Write, SetInfo, Flush, Close} && (charge > 0 <==> s.multiCredit)
    modifies s`trace, s`sendsLeft, s`leaked, s.credits, s.messageIds
    ensures s.Valid() && s.trace == old(s.trace) + if r.Ok? then [r.value] else []
    ensures r.Ok? ==>
              && r.value == Request(command, old(s.messageIds.next), offset, length, data)
              && IsRequest(r.value) && r.value.id == old(s.messageIds.next) && CommandOf(r.value) == command
              && s.messageIds.next == old(s.messageIds.next) + Width(charge)
              && s.credits.available == old(s.credits.available) - Width(charge) && s.SignRequest().Ok? && offset <= U64_MAX
    ensures r.Err? ==>
              || (r.error == Protocol(InsufficientCredits) && Width(charge) > old(s.credits.available) == s.credits.available)
              || (r.error == Protocol(OffsetOverflow) && offset > U64_MAX)
              || Blocked(s, r.error)
  {
    var reserved := s.Reserve(charge);
    if reserved.Err? {
      return Err(reserved.error);
    }
    if offset > U64_MAX {
      return Err(Protocol(OffsetOverflow));
    }
    var signed := s.SignRequest();
    if signed.Err? {
      return Err(signed.error);
    }
    var e := Request(command, reserved.value, offset, length, data);
    var sent := s.Send(e);
    if sent.Err? {
      return Err(sent.error);
    }
    return Ok(e);
  }

  lemma AnswersInterim(answers: Trace, id: u64)
    requires forall i :: 0 <= i < |answers| - 1 ==>
               answers[i].Got? && Answers(answers[i].message, id) && HasStatus(answers[i].message, STATUS_PENDING)
    ensures answers != [] ==> AllInterim(answers[..|answers| - 1], id)
  {}

  lemma InterimPends(interim: Trace, id: u64)
    requires AllInterim(interim, id)
    ensures forall i :: 0 <= i < |interim| ==> interim[i].Got? && HasStatus(interim[i].message, STATUS_PENDING)
  {}

  lemma ExchangeDone(s: SessionConnection, request: Event, answers: Trace)
    requires IsRequest(request) && answers != [] && AllInterim(answers[..|answers| - 1], request.id)
    requires forall i :: 0 <= i < |answers| ==> answers[i].Got? && s.Genuine(answers[i].message)
    requires var m := answers[|answers| - 1].message; Answers(m, request.id) && m.header.status.Status? && !HasStatus(m, STATUS_PENDING)
    ensures Exchanged(s, request, [request] + answers)
  {
    hide SessionConnection.Genuine, AllInterim;
    var t := [request] + answers;
    assert t[1..|t| - 1] == answers[..|answers| - 1] && t[|t| - 1] == answers[|answers| - 1];
  }

  lemma SameCost(multiCredit: bool, command: Command, id: u64, offset: nat, length: nat, data: Bytes)
    ensures Cost(multiCredit, Request(command, id, offset, length, data)) == Cost(multiCredit, Request(command, 0, offset, length, data))
  {
    hide Price;
  }

  lemma ExchangeDenied(s: SessionConnection, h: FileHandle, request: Event, answers: Trace, e: ClientError)
    requires IsRequest(request) && answers != [] && answers[|answers| - 1].Got?
    requires AllInterim(answers[..|answers| - 1], request.id)
    requires s.Unanswering(Expected(CommandOf(request), h.treeId, s.sessionId, request.id), answers[..|answers| - 1],
                           answers[|answers| - 1].message, e)
    ensures Denied(s, h, [request] + answers, e)
  {
    hide SessionConnection.Unanswering, AllInterim;
    var t := [request] + answers;
    assert t[1..|t| - 1] == answers[..|answers| - 1] && t[|t| - 1] == answers[|answers| - 1];
    assert DeniedAt(s, h, t, e, 0);
  }

  lemma ExchangePaid(multiCredit: bool, request: Event, answers: Trace, credits: int, left: int)
    requires IsRequest(request) && forall e :: e in answers ==> e.Got?
    requires left == credits - Cost(multiCredit, request) + Granted(answers)
    ensures Settles(multiCredit, [request] + answers, request.id, credits, request.id + Cost(multiCredit, request), left)
  {
    hide Numbered, Cost, Granted;
    assert [] + [request] == [request];
    NothingNumbered(multiCredit, request.id);
    NumberedSnoc(multiCredit, [], request, request.id, request.id);
    GotsCostNothing(multiCredit, answers);
    NumberedFree(multiCredit, [request], answers, request.id, request.id + Cost(multiCredit, request));
    GrantedSnoc([], request);
    GrantedConcat([request], answers);
  }

  lemma GotsCostNothing(multiCredit: bool, answers: Trace)
    requires forall e :: e in answers ==> e.Got?
    ensures forall e :: e in answers ==> Cost(multiCredit, e) == 0
  {}

  lemma NothingSent(store: Store, request: Event)
    ensures After(store, []) == store && Touched(store, request, store)
  {}

  /** A write that may have stopped half way: exactly the first `k` bytes are in the file, and at most
      the bytes that follow them are in doubt. */
  ghost predicate TornAt(content: Bytes, offset: nat, data: Bytes, store: Store, k: nat)
    requires k <= |data|
  {
    && store.content == Overlay(content, offset, data[..k])
    && (store.request.Some? ==>
          var e := store.request.value;
          e.WriteSent? && e.offset == offset + k && e.data <= data[k..])
  }

  ghost predicate Torn(content: Bytes, offset: nat, data: Bytes, store: Store) {
    exists k: nat :: k <= |data| && TornAt(content, offset, data, store, k)
  }

  /** Whatever the server makes of the bytes in doubt, the file holds a prefix of the data. */
  lemma TornIsPrefix(content: Bytes, offset: nat, data: Bytes, store: Store, k: nat, n: nat)
    requires k <= |data| && TornAt(content, offset, data, store, k)
    requires store.request.Some? && n <= |store.request.value.data|
    ensures k + n <= |data|
    ensures Overlay(store.content, store.request.value.offset, store.request.value.data[..n]) == Overlay(content, offset, data[..k + n])
  {
    hide Overlay;
    OverlaySplit(content, offset, data[..k + n], k);
    assert data[..k + n][..k] == data[..k];
    assert data[..k + n][k..] == store.request.value.data[..n];
  }

  /** One chunk, however its exchange ended, leaves the write torn at worst. */
  lemma {:induction false} ChunkTorn(content: Bytes, offset: nat, data: Bytes, written: nat, chunk: nat, request: Event, store: Store)
    requires written + chunk <= |data|
    requires request.WriteSent? && request.offset == offset + written && request.data == data[written..written + chunk]
    requires Touched(Store(Overlay(content, offset, data[..written]), None), request, store)
    ensures Torn(content, offset, data, store)
  {
    hide Overlay;
    var before := Store(Overlay(content, offset, data[..written]), None);
    assert request.data <= data[written..];
    if store == before || store == Apply(before, request) {
      assert TornAt(content, offset, data, store, written);
    } else {
      var m :| store == Apply(Apply(before, request), Got(m));
      var n := Min(m.body.count, chunk);
      OverlaySplit(content, offset, data[..written + n], written);
      assert data[..written + n][..written] == data[..written];
      assert data[..written + n][written..] == request.data[..n];
      assert TornAt(content, offset, data, store, written + n);
    }
  }

  /** What a final WRITE response confirms. */
  function Confirmed(m: Incoming, chunk: nat): (r: Result<nat>)
    requires m.Message? && m.header.status.Status?
    ensures r.Ok? <==> HasStatus(m, STATUS_SUCCESS) && m.body.WriteCount? && 0 < m.body.count <= chunk
    ensures r.Ok? ==> r.value == m.body.count
    ensures r.Err? ==> r.error !in {Cancelled, Protocol(InsufficientCredits), Protocol(NoCredits)}
    ensures r.Err? ==> forall request: Event :: request.WriteSent? && |request.data| == chunk && !HasStatus(m, STATUS_PENDING)
                         ==> BadAnswer(request, m, r.error)
  {
    if m.header.status.code != STATUS_SUCCESS then Err(ServerStatus(m.header.status.code))
    else if !m.body.WriteCount? then Err(Wire)
    else if m.body.count > chunk then Err(Protocol(TooMuchData))
    else if m.body.count == 0 then Err(Protocol(ZeroCount))
    else Ok(m.body.count)
  }

  /** An exchange ended by a bad answer. */
  lemma BadlyAnswered(s: SessionConnection, h: FileHandle, request: Event, t: Trace, e: ClientError)
    requires Exchanged(s, request, t) && BadAnswer(request, t[|t| - 1].message, e)
    ensures Denied(s, h, t, e)
  {
    hide AllGenuine, AllInterim, BadAnswer, SessionConnection.Unanswering;
    assert DeniedAt(s, h, t, e, 0);
  }

  /** Why a WRITE of bytes up to `end` may fail: a limit or the link stands in the way, or the server denied
      or misanswered its last request. */
  ghost predicate WriteFails(s: SessionConnection, h: FileHandle, end: nat, t: Trace, e: ClientError)
    reads s`inbox, s`sendsLeft, s.credits, s.messageIds
  {
    || Blocked(s, e) || Denied(s, h, t, e)
    || (match e
        case Protocol(fault) =>
          (match fault
           case NoCredits => s.credits.available == 0
           case BadSize => s.maxWriteSize == 0
           case ChargeTooLarge => s.multiCredit && s.maxWriteSize > U16_MAX * CREDIT_UNIT
           case OffsetOverflow => end > U64_MAX
           case _ => false)
        case _ => false)
  }

  /** One turn of the loop: the next chunk within limits and credits, confirmed by the server. */
  method WriteNext(s: SessionConnection, h: FileHandle, offset: nat, data: Bytes, written: nat, ghost content: Bytes)
    returns (r: Result<nat>)
    requires s.Valid() && written < |data|
    modifies s`inbox, s`trace, s`sendsLeft, s`leaked, s.credits, s.messageIds
    ensures s.Valid() && old(s.trace) <= s.trace
    ensures |s.inbox| <= |old(s.inbox)| && (r.Ok? ==> |s.inbox| < |old(s.inbox)|)
    ensures r != Err(Protocol(InsufficientCredits)) && r != Err(Cancelled)
    ensures r.Err? ==> WriteFails(s, h, offset + |data|, s.trace[|old(s.trace)|..], r.error)
    ensures r.Ok? ==> AllGenuine(s, s.trace[|old(s.trace)|..])
    ensures r.Ok? ==> Paid(s, s.trace[|old(s.trace)|..], old(s.messageIds.next), old(s.credits.available))
    ensures Torn(content, offset, data, After(Store(Overlay(content, offset, data[..written]), None), s.trace[|old(s.trace)|..]))
    ensures r.Ok? ==>
              && 0 < r.value && written + r.value <= |data| && offset + written <= U64_MAX
              && After(Store(Overlay(content, offset, data[..written]), None), s.trace[|old(s.trace)|..])
                 == Store(Overlay(content, offset, data[..written + r.value]), None)
  {
    hide Overlay, Apply, After, Touched, Torn, Settles, Denied, AllGenuine, AllInterim, SessionConnection.Valid;
    ghost var store := Store(Overlay(content, offset, data[..written]), None);
    StillTorn(content, offset, data, written);
    assert s.trace[|s.trace|..] == [];
    if s.maxWriteSize == 0 {
      return Err(Protocol(BadSize));
    }
    if s.credits.available == 0 {
      return Err(Protocol(NoCredits));
    }
    var plan := PlanChunk(s.multiCredit, s.credits.available, s.maxWriteSize, |data| - written);
    if plan.Err? {
      return Err(plan.error);
    }
    var chunk, charge := plan.value.0, plan.value.1;
    PlanBound(s.multiCredit, s.credits.available, s.maxWriteSize, |data| - written);
    var response, request := Exchange(s, h, Write, charge, offset + written, 0, data[written..written + chunk],
                                      store);
    ChunkTorn(content, offset, data, written, chunk,
              WriteSent(old(s.messageIds.next), offset + written, data[written..written + chunk]),
              After(store, s.trace[|old(s.trace)|..]));
    if response.Err? {
      return Err(response.error);
    }
    r := Confirmed(response.value, chunk);
    if r.Err? {
      BadlyAnswered(s, h, request, s.trace[|old(s.trace)|..], r.error);
    } else {
      Applied(content, offset, data, written, chunk, request, response.value);
    }
  }

  /** Writes all of `data` in as many chunks as limits, credits and short counts dictate. Success
      means everything was written, exactly as one overlay of the whole; however it fails, a prefix
      was written and nothing else changed. */
  method WriteAtWithOptions(s: SessionConnection, h: FileHandle, offset: u64, data: Bytes, ghost content: Bytes)
    returns (r: Result<nat>)
    requires s.Valid()
    modifies s`inbox, s`trace, s`sendsLeft, s`leaked, s.credits, s.messageIds
    ensures data == [] ==> s.trace == old(s.trace) && r == Ok(0)
    ensures data != [] && s.encrypted ==> s.trace == old(s.trace) && r == Err(Protocol(Encrypted))
    ensures s.Valid() && old(s.trace) <= s.trace
    ensures r != Err(Protocol(InsufficientCredits)) && r != Err(Cancelled)
    ensures r.Err? ==> WriteFails(s, h, offset + |data|, s.trace[|old(s.trace)|..], r.error)
    ensures r.Ok? ==> AllGenuine(s, s.trace[|old(s.trace)|..])
    ensures r.Ok? ==> Paid(s, s.trace[|old(s.trace)|..], old(s.messageIds.next), old(s.credits.available))
    ensures Torn(content, offset, data, After(Store(content, None), s.trace[|old(s.trace)|..]))
    ensures r.Ok? ==>
              && r.value == |data|
              && After(Store(content, None), s.trace[|old(s.trace)|..]) == Store(Overlay(content, offset, data), None)
  {
    hide Overlay, Apply, After, Torn, SessionConnection.Valid, Settles, Denied, AllGenuine, SessionConnection.Exhausted;
    CipherBlocks(s);
    NothingReceived(s);
    NothingPaid(s);
    NothingWritten(content, offset, data);
    StillTorn(content, offset, data, 0);
    assert s.trace[|old(s.trace)|..] == [];
    if data == [] {
      return Ok(0);
    }
    if s.encrypted {
      return Err(Protocol(Encrypted));
    }
    var written: nat := 0;
    while written < |data|
      invariant s.Valid() && old(s.trace) <= s.trace && written <= |data|
      invariant After(Store(content, None), s.trace[|old(s.trace)|..])
                == Store(Overlay(content, offset, data[..written]), None)
      invariant AllGenuine(s, s.trace[|old(s.trace)|..])
      invariant Paid(s, s.trace[|old(s.trace)|..], old(s.messageIds.next), old(s.credits.available))
      decreases |s.inbox|
    {
      ghost var before, mid, window := s.trace, s.messageIds.next, s.credits.available;
      var confirmed := WriteNext(s, h, offset, data, written, content);
      ghost var t, u := before[|old(s.trace)|..], s.trace[|before|..];
      assert s.trace[|old(s.trace)|..] == t + u;
      AfterConcat(Store(content, None), t, u);
      if confirmed.Err? {
        if Denied(s, h, u, confirmed.error) {
          DeniedLater(s, h, t, u, confirmed.error);
        }
        return Err(confirmed.error);
      }
      GenuineConcat(s, t, u);
      SettlesConcat(s.multiCredit, t, u, old(s.messageIds.next), old(s.credits.available), mid, window,
                    s.messageIds.next, s.credits.available);
      written := written + confirmed.value;
    }
    assert data[..written] == data;
    StillTorn(content, offset, data, written);
    return Ok(written);
  }

  lemma CipherBlocks(s: SessionConnection)
    ensures s.encrypted ==> Blocked(s, Protocol(Encrypted))
  {}

  lemma StillTorn(content: Bytes, offset: nat, data: Bytes, written: nat)
    requires written <= |data|
    ensures var store := Store(Overlay(content, offset, data[..written]), None);
            After(store, []) == store && Torn(content, offset, data, store)
  {
    hide Overlay;
    assert TornAt(content, offset, data, Store(Overlay(content, offset, data[..written]), None), written);
  }

  lemma NothingWritten(content: Bytes, offset: nat, data: Bytes)
    ensures Overlay(content, offset, data[..0]) == content && (data == [] ==> Overlay(content, offset, data) == content)
    ensures After(Store(content, None), []) == Store(content, None)
  {}

  lemma PlanBound(multiCredit: bool, available: u32, limit: nat, wanted: nat)
    requires PlanChunk(multiCredit, available, limit, wanted).Ok?
    ensures PlanChunk(multiCredit, available, limit, wanted).value.0 <= wanted
  {}

  /** A confirmed chunk extends the written prefix by its count. */
  lemma {:induction false} Applied(content: Bytes, offset: nat, data: Bytes, written: nat, chunk: nat, request: Event, m: Incoming)
    requires written + chunk <= |data|
    requires request.WriteSent? && request.offset == offset + written && request.data == data[written..written + chunk]
    requires HasStatus(m, STATUS_SUCCESS) && m.header.messageId == request.id
    requires m.body.WriteCount? && 0 < m.body.count <= chunk
    ensures Apply(Apply(Store(Overlay(content, offset, data[..written]), None), request), Got(m))
            == Store(Overlay(content, offset, data[..written + m.body.count]), None)
  {
    hide Overlay;
    var n := written + m.body.count;
    OverlaySplit(content, offset, data[..n], written);
    assert data[..n][..written] == data[..written];
    assert data[..n][written..] == request.data[..m.body.count];
  }

  /** Sends one SET_INFO for the new end of file; never replayed. */
  method SetEndOfFile(s: SessionConnection, h: FileHandle, length: nat, ghost content: Bytes)
    returns (r: Result<()>)
    requires s.Valid()
    modifies s`inbox, s`trace, s`sendsLeft, s`leaked, s.credits, s.messageIds
    ensures length > I64_MAX ==> s.trace == old(s.trace) && r == Err(Wire)
    ensures length <= I64_MAX && s.encrypted ==> s.trace == old(s.trace) && r == Err(Protocol(Encrypted))
    ensures length <= I64_MAX && !s.encrypted && s.maxTransactSize < END_OF_FILE_INFORMATION_SIZE ==>
              s.trace == old(s.trace) && r == Err(Protocol(BadSize))
    ensures s.Valid() && old(s.trace) <= s.trace
    ensures After(Store(content, None), s.trace[|old(s.trace)|..]).content in {content, Resize(content, length)}
    ensures r.Err? ==>
              || (r.error == Wire && length > I64_MAX) || (r.error == Protocol(BadSize) && s.maxTransactSize < END_OF_FILE_INFORMATION_SIZE)
              || RequestFails(s, h, s.trace[|old(s.trace)|..], r.error)
    ensures r.Ok? ==>
              && Confirms(s, SetEndOfFileSent(old(s.messageIds.next), length), s.trace[|old(s.trace)|..])
              && Paid(s, s.trace[|old(s.trace)|..], old(s.messageIds.next), old(s.credits.available))
    ensures r.Ok? ==>
              && length <= I64_MAX
              && After(Store(content, None), s.trace[|old(s.trace)|..]) == Store(Resize(content, length), None)
  {
    hide Settles, Denied, AllGenuine, AllInterim, SessionConnection.Exhausted, SessionConnection.Valid;
    CipherBlocks(s);
    assert s.trace[|s.trace|..] == [];
    if length > I64_MAX {
      return Err(Wire);
    }
    if s.encrypted {
      return Err(Protocol(Encrypted));
    }
    if s.maxTransactSize < END_OF_FILE_INFORMATION_SIZE {
      return Err(Protocol(BadSize));
    }
    var charge := if s.multiCredit then 1 else 0;
    var response, request := Exchange(s, h, SetInfo, charge, 0, length, [], Store(content, None));
    if response.Err? {
      return Err(response.error);
    }
    r := Acknowledged(response.value);
    if r.Err? {
      BadlyAnswered(s, h, request, s.trace[|old(s.trace)|..], r.error);
    }
  }

  /** Why a request without payload may fail. */
  ghost predicate RequestFails(s: SessionConnection, h: FileHandle, t: Trace, e: ClientError)
    reads s`inbox, s`sendsLeft, s.credits, s.messageIds
  {
    Blocked(s, e) || Denied(s, h, t, e) || (e == Protocol(InsufficientCredits) && s.credits.available == 0)
  }

  /** What a success answer to FLUSH or SET_INFO must look like. */
  function Acknowledged(m: Incoming): (r: Result<()>)
    requires m.Message? && m.header.status.Status?
    ensures r.Ok? <==> HasStatus(m, STATUS_SUCCESS) && m.body.Empty?
    ensures r.Err? ==> forall request: Event :: !request.WriteSent? && !HasStatus(m, STATUS_PENDING) ==> BadAnswer(request, m, r.error)
  {
    if m.header.status.code != STATUS_SUCCESS then Err(ServerStatus(m.header.status.code))
    else if !m.body.Empty? then Err(Wire)
    else Ok(())
  }

  /** Sends one FLUSH and waits for the server to confirm it; the file's bytes are not affected. */
  method FlushFile(s: SessionConnection, h: FileHandle, ghost content: Bytes) returns (r: Result<()>)
    requires s.Valid()
    modifies s`inbox, s`trace, s`sendsLeft, s`leaked, s.credits, s.messageIds
    ensures s.encrypted ==> s.trace == old(s.trace) && r == Err(Protocol(Encrypted))
    ensures s.Valid() && old(s.trace) <= s.trace
    ensures After(Store(content, None), s.trace[|old(s.trace)|..]).content == content
    ensures r.Ok? ==> After(Store(content, None), s.trace[|old(s.trace)|..]) == Store(content, None)
    ensures r.Ok? ==>
              && Confirms(s, OtherSent(old(s.messageIds.next), Flush), s.trace[|old(s.trace)|..])
              && Paid(s, s.trace[|old(s.trace)|..], old(s.messageIds.next), old(s.credits.available))
    ensures r.Err? ==> RequestFails(s, h, s.trace[|old(s.trace)|..], r.error)
  {
    hide Settles, Denied, AllGenuine, AllInterim, SessionConnection.Exhausted, SessionConnection.Valid;
    CipherBlocks(s);
    assert s.trace[|s.trace|..] == [];
    if s.encrypted {
      return Err(Protocol(Encrypted));
    }
    var charge := if s.multiCredit then 1 else 0;
    var response, request := Exchange(s, h, Flush, charge, 0, 0, [], Store(content, None));
    if response.Err? {
      return Err(response.error);
    }
    r := Acknowledged(response.value);
    if r.Err? {
      BadlyAnswered(s, h, request, s.trace[|old(s.trace)|..], r.error);
    }
  }

  /** Reading leaves the store alone. */
  lemma {:induction false} AfterReads(store: Store, t: Trace)
    requires store.request.None? && ReadsOnly(t)
    ensures After(store, t) == store
  {
    if t != [] {
      AfterReads(store, t[..|t| - 1]);
    }
  }
}
