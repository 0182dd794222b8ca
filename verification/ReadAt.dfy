/** Sequential positional READ: one request outstanding at a time. */
module ReadAt {
  import opened Common
  import opened Messages
  import opened Credits
  import opened AsyncResponse
  import opened Session
  import opened FileModel
  import opened ReadTrace
  import opened ReadAssembly

  /** Bytes asked of the server: the request clamped to the handle's cached length. */
  function Target(h: FileHandle, offset: u64, length: nat): nat {
    if offset >= h.length then 0 else Min(length, h.length - offset)
  }

  /** Errors after which the source guarantees a drained transport. */
  predicate Settled(r: Result<Bytes>) {
    r.Ok? || r.error.ServerStatus? || r.error.Cancelled? || r.error == Protocol(NoCredits)
  }

  /** The history of a READ operation: READs and whatever arrived, nothing that mutates. */
  ghost predicate ReadsOnly(t: Trace) {
    forall e :: e in t ==> e.ReadSent? || e.Got?
  }

  /** Data for one chunk, judged by the history of its exchange. */
  ghost predicate Answered(file: Bytes, offset: nat, chunk: nat, d: Bytes, t: Trace) {
    && |d| <= chunk
    && (Honest(file, t) ==> d == Slice(file, offset, |d|))
    && (Complete(file, t) ==> d == Slice(file, offset, chunk))
  }

  /** Reserves what one READ costs, and sends it. */
  method SendRead(s: SessionConnection, offset: nat, length: nat, charge: u16) returns (r: Result<u64>)
    requires s.Valid() && Width(charge) == Price(s.multiCredit, length) <= s.credits.available && (charge > 0 <==> s.multiCredit)
    modifies s`trace, s`sendsLeft, s`leaked, s.credits, s.messageIds
    ensures s.Valid() && old(s.trace) <= s.trace && old(s.messageIds.next) <= s.messageIds.next
    ensures r.Err? ==> r.error in {Io, Protocol(IdsExhausted), Protocol(BadSignature)} && s.Exhausted(r.error)
    ensures r.Ok? ==> r.value == old(s.messageIds.next) < s.messageIds.next
                      && s.trace == old(s.trace) + [ReadSent(r.value, offset, length)]
                      && s.messageIds.next == old(s.messageIds.next) + Price(s.multiCredit, length)
                      && s.credits.available == old(s.credits.available) - Price(s.multiCredit, length)
    ensures r.Err? ==> s.trace == old(s.trace)
    ensures r.Ok? ==> s.SignRequest().Ok?
  {
    hide Price;
    r := s.Reserve(charge);
    if r.Err? {
      return;
    }
    var signed := s.SignRequest();
    if signed.Err? {
      return Err(signed.error);
    }
    var sent := s.Send(ReadSent(r.value, offset, length));
    if sent.Err? {
      return Err(sent.error);
    }
  }

  /** Sends one READ for `chunk` bytes and waits for its final response; end of file counts as
      no data. */
  method ReadChunk(s: SessionConnection, h: FileHandle, offset: nat, chunk: nat, charge: u16, ghost file: Bytes)
    returns (r: Result<Bytes>)
    requires s.Valid() && 0 < chunk && Width(charge) == Price(s.multiCredit, chunk) <= s.credits.available && (charge > 0 <==> s.multiCredit)
    modifies s`inbox, s`trace, s`sendsLeft, s`leaked, s.credits, s.messageIds
    ensures s.Valid() && old(s.trace) <= s.trace && ReadsOnly(s.trace[|old(s.trace)|..])
    ensures old(s.messageIds.next) <= s.messageIds.next
    ensures |s.inbox| <= |old(s.inbox)| && (r.Ok? ==> |s.inbox| < |old(s.inbox)|)
    ensures r.Err? ==> r.error !in {Protocol(InsufficientCredits), Protocol(NoCredits), Cancelled}
    ensures r.Err? && r.error.ServerStatus? ==> FirstDenial(s.trace[|old(s.trace)|..], {}) == Some(r.error.status)
    ensures r.Ok? ==> FirstDenial(s.trace[|old(s.trace)|..], {}) == None
    ensures Settled(r) ==> Paid(s, s.trace[|old(s.trace)|..], old(s.messageIds.next), old(s.credits.available))
    ensures r.Err? && !r.error.ServerStatus? ==> Excused(s, h, s.trace[|old(s.trace)|..], r.error, old(s.messageIds.next))
    ensures r.Ok? ==> AllGenuine(s, s.trace[|old(s.trace)|..])
    ensures Settled(r) ==> Closed(s.trace[|old(s.trace)|..], old(s.messageIds.next), s.messageIds.next)
    ensures r.Ok? ==> Answered(file, offset, chunk, r.value, s.trace[|old(s.trace)|..])
  {
    hide Closed, Honest, Complete, Answered, Validate, SessionConnection.Valid, Refused, Learned, SessionConnection.Genuine,
         SessionConnection.Unanswering, FirstDenial, Granted, Settles, Price, Decode, Payload;
    var sent := SendRead(s, offset, chunk, charge);
    if sent.Err? {
      return Err(sent.error);
    }
    var id := sent.value;
    ghost var before := s.trace;
    var got := s.AwaitFinal(Expected(Read, h.treeId, s.sessionId, id));
    if got == Err(Io) {
      return Err(Io);
    }
    ghost var t := s.trace[|old(s.trace)|..];
    ghost var interim := s.trace[|before|..|s.trace| - 1];
    ghost var last := s.trace[|s.trace| - 1].message;
    assert t == ([ReadSent(id, offset, chunk)] + interim) + [Got(last)];
    if got.Err? {
      ExchangeRefused(s, h, id, offset, chunk, interim, last, got.error);
      return Err(got.error);
    }
    forall i | 0 <= i < |interim| ensures interim[i].Got? && Answers(interim[i].message, id) && s.Genuine(interim[i].message) {
      assert interim[i] == s.trace[|before| + i];
    }
    ExchangeClosed(t, id, offset, chunk, interim, last, s.messageIds.next);
    ExchangeGenuine(s, id, offset, chunk, interim, last);
    ExchangeDenial(id, offset, chunk, interim, last);
    assert s.trace[|before|..] == interim + [Got(last)];
    ExchangeSettles(s.multiCredit, id, offset, chunk, interim, last, old(s.credits.available), s.credits.available);
    r := Decode(got.value, chunk);
    if r.Ok? {
      ExchangeAnswers(file, t, id, offset, chunk, last, r.value);
    } else if !r.error.ServerStatus? {
      DecodeRefused(s, h, id, offset, chunk, interim, last, r.error);
    }
  }

  /** Interim responses to one request. */
  predicate AllInterim(interim: Trace, id: u64) {
    forall i :: 0 <= i < |interim| ==>
      interim[i].Got? && Answers(interim[i].message, id) && HasStatus(interim[i].message, STATUS_PENDING)
  }

  /** A message that does not answer the one READ outstanding is taken by no READ. */
  lemma ExchangeRefused(s: SessionConnection, h: FileHandle, id: u64, offset: nat, chunk: nat, interim: Trace, m: Incoming, e: ClientError)
    requires AllInterim(interim, id) && id < s.messageIds.next
    requires s.Unanswering(Expected(Read, h.treeId, s.sessionId, id), interim, m, e)
    ensures Refused(s, h, ([ReadSent(id, offset, chunk)] + interim) + [Got(m)], e, id)
  {
    hide Finals, Learned, Validate;
    var t := [ReadSent(id, offset, chunk)] + interim;
    assert (t + [Got(m)])[..|t|] == t;
    assert forall x :: x in t ==> x == ReadSent(id, offset, chunk) || x in interim;
    LearnedLater([ReadSent(id, offset, chunk)], interim, id);
  }

  /** A final response that cannot be decoded, or holds too much. */
  lemma DecodeRefused(s: SessionConnection, h: FileHandle, id: u64, offset: nat, chunk: nat, interim: Trace, m: Incoming, e: ClientError)
    requires AllInterim(interim, id) && id < s.messageIds.next
    requires Answers(m, id) && m.header.status.Status? && Decode(m, chunk) == Err(e) && !e.ServerStatus?
    ensures Refused(s, h, ([ReadSent(id, offset, chunk)] + interim) + [Got(m)], e, id)
  {
    hide Finals, Learned;
    var t := [ReadSent(id, offset, chunk)] + interim;
    assert (t + [Got(m)])[..|t|] == t;
    assert forall x :: x in t ==> x == ReadSent(id, offset, chunk) || x in interim;
    assert t[0] == ReadSent(id, offset, chunk);
  }

  lemma ExchangeGenuine(s: SessionConnection, id: u64, offset: nat, chunk: nat, interim: Trace, last: Incoming)
    requires forall i :: 0 <= i < |interim| ==> interim[i].Got? && s.Genuine(interim[i].message)
    requires s.Genuine(last)
    ensures AllGenuine(s, ([ReadSent(id, offset, chunk)] + interim) + [Got(last)])
  {
    hide SessionConnection.Genuine;
  }

  /** One READ and its answers cost what the READ costs, and bring what the answers grant. */
  lemma ExchangeSettles(multiCredit: bool, id: u64, offset: nat, chunk: nat, interim: Trace, last: Incoming, credits: int, left: int)
    requires AllInterim(interim, id)
    requires left == credits - Price(multiCredit, chunk) + Granted(interim + [Got(last)])
    ensures Settles(multiCredit, ([ReadSent(id, offset, chunk)] + interim) + [Got(last)], id, credits,
                    id + Price(multiCredit, chunk), left)
  {
    hide Numbered, Price, Granted;
    assert ([ReadSent(id, offset, chunk)] + interim) + [Got(last)] == [ReadSent(id, offset, chunk)] + (interim + [Got(last)]);
    ExchangeGranted(id, offset, chunk, interim + [Got(last)]);
    var e := ReadSent(id, offset, chunk);
    assert [] + [e] == [e];
    NothingNumbered(multiCredit, id);
    NumberedSnoc(multiCredit, [], e, id, id);
    NumberedFree(multiCredit, [e], interim, id, id + Price(multiCredit, chunk));
    NumberedSnoc(multiCredit, [e] + interim, Got(last), id, id + Price(multiCredit, chunk));
  }

  lemma ExchangeGranted(id: u64, offset: nat, chunk: nat, answers: Trace)
    ensures Granted([ReadSent(id, offset, chunk)] + answers) == Granted(answers)
  {
    var e := ReadSent(id, offset, chunk);
    assert [] + [e] == [e];
    GrantedSnoc([], e);
    GrantedConcat([e], answers);
  }

  /** The one final answer decides whether there was a denial. */
  lemma ExchangeDenial(id: u64, offset: nat, chunk: nat, interim: Trace, last: Incoming)
    requires AllInterim(interim, id)
    requires Answers(last, id) && last.header.status.Status? && last.header.status.code != STATUS_PENDING
    ensures FirstDenial(([ReadSent(id, offset, chunk)] + interim) + [Got(last)], {}) ==
            if last.header.status.code in {STATUS_SUCCESS, STATUS_END_OF_FILE} then None else Some(last.header.status.code)
  {
    var e := ReadSent(id, offset, chunk);
    assert [] + [e] == [e] && e in [e] + interim;
    DenialSnoc([], e, {});
    DenialQuiet([e], interim, {});
    DenialSnoc([e] + interim, Got(last), {});
  }

  lemma ExchangeAnswers(file: Bytes, t: Trace, id: u64, offset: nat, chunk: nat, m: Incoming, d: Bytes)
    requires ReadSent(id, offset, chunk) in t && Got(m) in t && Answers(m, id)
    requires Payload(m) == Some(d) && |d| <= chunk
    ensures Answered(file, offset, chunk, d, t)
  {}

  /** The outcome of one final READ response. */
  function Decode(m: Incoming, chunk: nat): (r: Result<Bytes>)
    requires m.Message? && m.header.status.Status?
    ensures r.Ok? ==> |r.value| <= chunk && Payload(m) == Some(r.value) && m.header.status.code in {STATUS_SUCCESS, STATUS_END_OF_FILE}
    ensures r.Err? ==> r.error !in {Protocol(InsufficientCredits), Protocol(NoCredits), Cancelled}
    ensures r.Err? && r.error.ServerStatus? ==> HasStatus(m, r.error.status) && r.error.status !in {STATUS_SUCCESS, STATUS_END_OF_FILE}
  {
    if m.header.status.code == STATUS_END_OF_FILE then Ok([])
    else if m.header.status.code != STATUS_SUCCESS then Err(ServerStatus(m.header.status.code))
    else if !m.body.ReadData? then Err(Wire)
    else if |m.body.data| > chunk then Err(Protocol(TooMuchData))
    else Ok(m.body.data)
  }

  /** A READ, its interim responses and its one final response form a closed exchange. */
  lemma ExchangeClosed(t: Trace, id: u64, offset: nat, length: nat, interim: Trace, last: Incoming, hi: nat)
    requires t == ([ReadSent(id, offset, length)] + interim) + [Got(last)]
    requires id < hi
    requires AllInterim(interim, id)
    requires Answers(last, id) && !HasStatus(last, STATUS_PENDING)
    ensures Closed(t, id, hi)
    ensures ReadSent(id, offset, length) in t && Got(last) in t
  {
    var head := [ReadSent(id, offset, length)] + interim;
    Untouched(head, id);
    Snoc(head, Got(last), id);
  }

  /** One more chunk after a full prefix: still a prefix, and the whole slice once a chunk is
      short although reads fall short only at end of file. */
  lemma ChunkAppended(file: Bytes, offset: nat, target: nat, out: Bytes, d: Bytes, chunk: nat, complete: bool)
    requires |d| <= chunk && |out| + chunk <= target
    requires out == Slice(file, offset, |out|)
    requires d == Slice(file, offset + |out|, |d|)
    requires complete ==> d == Slice(file, offset + |out|, chunk)
    ensures out + d == Slice(file, offset, |out + d|)
    ensures |d| < chunk && complete ==> out + d == Slice(file, offset, target)
  {
    SliceJoin(file, offset, |out|, |d|);
    if |d| < chunk && complete {
      SliceJoinShort(file, offset, |out|, chunk, target);
    }
  }

  /** What the history so far says about the bytes collected so far. */
  ghost predicate Collected(file: Bytes, offset: nat, target: nat, out: Bytes, t: Trace, more: bool) {
    && (Honest(file, t) ==> out == Slice(file, offset, |out|))
    && (!more && Complete(file, t) ==> out == Slice(file, offset, target))
  }

  lemma {:induction false} Collect(file: Bytes, offset: nat, target: nat, out: Bytes, t: Trace, d: Bytes, chunk: nat, u: Trace)
    requires |out| + chunk <= target
    requires Collected(file, offset, target, out, t, true)
    requires Answered(file, offset + |out|, chunk, d, u)
    ensures |d| <= chunk
    ensures Collected(file, offset, target, out + d, t + u, |d| == chunk)
  {
    Shorter(file, t, t + u);
    Shorter(file, u, t + u);
    if Complete(file, t + u) {
      CompleteIsHonest(file, t + u);
    }
    if Honest(file, t + u) {
      ChunkAppended(file, offset, target, out, d, chunk, Complete(file, t + u));
    }
  }

  /** One turn of the loop: cut a chunk to the current limits and read it. */
  method ReadNext(s: SessionConnection, h: FileHandle, offset: nat, wanted: nat, ghost file: Bytes)
    returns (r: Result<Bytes>, chunk: nat)
    requires s.Valid() && 0 < wanted
    modifies s`inbox, s`trace, s`sendsLeft, s`leaked, s.credits, s.messageIds
    ensures s.Valid() && old(s.trace) <= s.trace && chunk <= wanted && ReadsOnly(s.trace[|old(s.trace)|..])
    ensures old(s.messageIds.next) <= s.messageIds.next
    ensures |s.inbox| <= |old(s.inbox)| && (r.Ok? ==> |s.inbox| < |old(s.inbox)|)
    ensures r != Err(Protocol(InsufficientCredits)) && r != Err(Cancelled)
    ensures r == Err(Protocol(NoCredits)) ==> s.credits.available == 0
    ensures r.Err? && r.error.ServerStatus? ==> FirstDenial(s.trace[|old(s.trace)|..], {}) == Some(r.error.status)
    ensures r.Ok? ==> FirstDenial(s.trace[|old(s.trace)|..], {}) == None
    ensures Settled(r) ==> Paid(s, s.trace[|old(s.trace)|..], old(s.messageIds.next), old(s.credits.available))
    ensures r.Err? && !r.error.ServerStatus? ==> Excused(s, h, s.trace[|old(s.trace)|..], r.error, old(s.messageIds.next))
    ensures r.Ok? ==> AllGenuine(s, s.trace[|old(s.trace)|..])
    ensures Settled(r) ==> Closed(s.trace[|old(s.trace)|..], old(s.messageIds.next), s.messageIds.next)
    ensures r.Ok? ==> Answered(file, offset, chunk, r.value, s.trace[|old(s.trace)|..])
  {
    chunk := 0;
    if s.credits.available == 0 {
      return Err(Protocol(NoCredits)), chunk;
    }
    var plan := PlanChunk(s.multiCredit, s.credits.available, s.maxReadSize, wanted);
    if plan.Err? {
      return Err(plan.error), chunk;
    }
    chunk := plan.value.0;
    r := ReadChunk(s, h, offset, chunk, plan.value.1, file);
  }

  /** An Ok result is a contiguous prefix of the requested slice whenever the server returns the
      file's own bytes, and the exact slice when reads fall short only at end of file. A status error
      is the server's own, and the read gives up for lack of credits only when there are none. */
  method ReadAtWithOptions(s: SessionConnection, h: FileHandle, offset: u64, length: nat, ghost file: Bytes)
    returns (r: Result<Bytes>)
    requires s.Valid()
    modifies s`inbox, s`trace, s`sendsLeft, s`leaked, s.credits, s.messageIds
    ensures Target(h, offset, length) == 0 ==> s.trace == old(s.trace) && r == Ok([])
    ensures Target(h, offset, length) > 0 && s.encrypted ==> s.trace == old(s.trace) && r == Err(Protocol(Encrypted))
    ensures s.Valid() && old(s.trace) <= s.trace && ReadsOnly(s.trace[|old(s.trace)|..])
    ensures old(s.messageIds.next) <= s.messageIds.next
    ensures r != Err(Protocol(InsufficientCredits)) && r != Err(Cancelled)
    ensures r == Err(Protocol(NoCredits)) ==> s.credits.available == 0
    ensures r.Err? && r.error.ServerStatus? ==> FirstDenial(s.trace[|old(s.trace)|..], {}) == Some(r.error.status)
    ensures r.Ok? ==> FirstDenial(s.trace[|old(s.trace)|..], {}) == None
    ensures Settled(r) ==> Paid(s, s.trace[|old(s.trace)|..], old(s.messageIds.next), old(s.credits.available))
    ensures r.Err? && !r.error.ServerStatus? ==> Excused(s, h, s.trace[|old(s.trace)|..], r.error, old(s.messageIds.next))
    ensures r.Ok? ==> AllGenuine(s, s.trace[|old(s.trace)|..])
    ensures Settled(r) ==> Closed(s.trace[|old(s.trace)|..], old(s.messageIds.next), s.messageIds.next)
    ensures r.Ok? ==> Refines(file, h, offset, length, r.value, s.trace[|old(s.trace)|..])
  {
    hide Closed, Collected, Answered, Refines, Honest, Complete, FirstDenial, ReadsOnly, SessionConnection.Valid, Refused, AllGenuine,
         Settles;
    ghost var t: Trace := [];
    NothingRead(file, h, offset, length, s.messageIds.next);
    NothingReceived(s);
    NothingPaid(s);
    assert s.trace[|s.trace|..] == t;
    if length == 0 || offset >= h.length {
      return Ok([]);
    }
    if s.encrypted {
      return Err(Protocol(Encrypted));
    }
    var target := Target(h, offset, length);
    var out: Bytes := [];
    var more := true;
    while |out| < target && more
      invariant s.Valid() && s.trace == old(s.trace) + t && |out| <= target && ReadsOnly(t)
      invariant old(s.messageIds.next) <= s.messageIds.next
      invariant Closed(t, old(s.messageIds.next), s.messageIds.next)
      invariant Collected(file, offset, target, out, t, more) && AllGenuine(s, t)
      invariant FirstDenial(t, {}) == None && Paid(s, t, old(s.messageIds.next), old(s.credits.available))
      decreases |s.inbox|, more
    {
      ghost var before, mid := s.trace, s.messageIds.next;
      ghost var window := s.credits.available;
      var data, chunk := ReadNext(s, h, offset + |out|, target - |out|, file);
      ghost var u := s.trace[|before|..];
      assert s.trace == old(s.trace) + (t + u) && s.trace[|old(s.trace)|..] == t + u;
      ReadsConcat(t, u);
      if Settled(data) {
        ClosedConcat(t, u, old(s.messageIds.next), mid, s.messageIds.next);
        ClosedDenial(t, u, old(s.messageIds.next), mid, s.messageIds.next, {});
        SettlesConcat(s.multiCredit, t, u, old(s.messageIds.next), old(s.credits.available), mid, window,
                      s.messageIds.next, s.credits.available);
      }
      if data.Err? {
        if !data.error.ServerStatus? && !s.Exhausted(data.error) {
          RefusedLater(s, h, t, u, data.error, old(s.messageIds.next), mid);
        }
        return Err(data.error);
      }
      GenuineConcat(s, t, u);
      Collect(file, offset, target, out, t, data.value, chunk, u);
      t := t + u;
      out := out + data.value;
      more := |data.value| == chunk;
    }
    CollectedAll(file, h, offset, length, out, t, more);
    return Ok(out);
  }

  lemma NothingRead(file: Bytes, h: FileHandle, offset: u64, length: nat, lo: nat)
    ensures Closed([], lo, lo) && ReadsOnly([]) && Collected(file, offset, Target(h, offset, length), [], [], true)
    ensures Target(h, offset, length) == 0 ==> Refines(file, h, offset, length, [], [])
  {}

  lemma NothingReceived(s: SessionConnection)
    ensures AllGenuine(s, []) && FirstDenial([], {}) == None && TallyOf([]) == Tally(0, 0, 0)
  {}

  lemma NothingPaid(s: SessionConnection)
    ensures Paid(s, [], s.messageIds.next, s.credits.available)
  {
    NothingNumbered(s.multiCredit, s.messageIds.next);
  }

  lemma ClosedDenial(t: Trace, u: Trace, lo: nat, mid: nat, hi: nat, spared: set<u32>)
    requires Closed(t, lo, mid) && Closed(u, mid, hi)
    ensures FirstDenial(t + u, spared) == if FirstDenial(t, spared).Some? then FirstDenial(t, spared) else FirstDenial(u, spared)
  {
    DenialConcat(t, u, lo, mid, hi, spared);
  }

  lemma ReadsConcat(t: Trace, u: Trace)
    requires ReadsOnly(t) && ReadsOnly(u)
    ensures ReadsOnly(t + u)
  {}

  /** What every READ scheduler promises about an Ok result, given its history. */
  ghost predicate Refines(file: Bytes, h: FileHandle, offset: u64, length: nat, out: Bytes, t: Trace) {
    && |out| <= Target(h, offset, length)
    && (Honest(file, t) ==> Reads(file, offset, Target(h, offset, length), out, Complete(file, t)))
  }

  lemma {:induction false} CollectedAll(file: Bytes, h: FileHandle, offset: u64, length: nat, out: Bytes, t: Trace, more: bool)
    requires Collected(file, offset, Target(h, offset, length), out, t, more)
    requires |out| <= Target(h, offset, length) && (more ==> |out| == Target(h, offset, length))
    ensures Refines(file, h, offset, length, out, t)
  {}
}
