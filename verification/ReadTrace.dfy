/** What a READ scheduler's history says: which READs were answered, and whether the answers
    agree with the server's file. */
module ReadTrace {
  import opened Common
  import opened Messages
  import opened Credits
  import opened AsyncResponse
  import opened Session
  import opened FileModel

  /** `e` delivers the final (non-PENDING) response to request `id`. */
  predicate IsFinal(e: Event, id: u64) {
    e.Got? && e.message.Message? && e.message.header.messageId == id && !HasStatus(e.message, STATUS_PENDING)
  }

  /** How many final responses to `id` were consumed. */
  function Finals(t: Trace, id: u64): nat {
    if t == [] then 0
    else Finals(t[..|t| - 1], id) + if IsFinal(t[|t| - 1], id) then 1 else 0
  }

  lemma {:induction false} CancelsIn(t: Trace, id: u64, a: Option<u64>)
    requires a in Cancels(t, id)
    ensures CancelSent(id, a) in t
  {
    var last := t[|t| - 1];
    if !(last.CancelSent? && last.id == id && last.asyncId == a) {
      CancelsIn(t[..|t| - 1], id, a);
    }
  }

  /** The CANCELs sent for `id`, oldest first, each with the AsyncId it carried. */
  function Cancels(t: Trace, id: u64): seq<Option<u64>> {
    if t == [] then []
    else
      var last := t[|t| - 1];
      Cancels(t[..|t| - 1], id) + if last.CancelSent? && last.id == id then [last.asyncId] else []
  }

  lemma Snoc(t: Trace, e: Event, id: u64)
    ensures Finals(t + [e], id) == Finals(t, id) + if IsFinal(e, id) then 1 else 0
    ensures Cancels(t + [e], id) == Cancels(t, id) + if e.CancelSent? && e.id == id then [e.asyncId] else []
  {
    assert (t + [e])[..|t|] == t;
  }

  lemma {:induction false} Concat(t: Trace, u: Trace, id: u64)
    ensures Finals(t + u, id) == Finals(t, id) + Finals(u, id)
    ensures Cancels(t + u, id) == Cancels(t, id) + Cancels(u, id)
  {
    if u == [] {
      assert t + u == t;
    } else {
      var v, e := u[..|u| - 1], u[|u| - 1];
      Concat(t, v, id);
      Snoc(v, e, id);
      Snoc(t + v, e, id);
      assert u == v + [e] && t + u == (t + v) + [e];
    }
  }

  /** No event of `t` concerns `id`. */
  lemma {:induction false} Untouched(t: Trace, id: u64)
    requires forall e :: e in t ==> !IsFinal(e, id) && !(e.CancelSent? && e.id == id)
    ensures Finals(t, id) == 0 && Cancels(t, id) == []
  {
    if t != [] {
      var v, e := t[..|t| - 1], t[|t| - 1];
      Untouched(v, id);
      Snoc(v, e, id);
      assert t == v + [e];
    }
  }

  lemma {:induction false} NoCancels(t: Trace, id: u64)
    requires forall e :: e in t ==> !(e.CancelSent? && e.id == id)
    ensures Cancels(t, id) == []
  {
    if t != [] {
      NoCancels(t[..|t| - 1], id);
    }
  }

  lemma {:induction false} NoFinals(t: Trace, id: u64, i: nat)
    requires Finals(t, id) == 0 && i < |t|
    ensures !IsFinal(t[i], id)
  {
    if i < |t| - 1 {
      NoFinals(t[..|t| - 1], id, i);
    }
  }

  /** Every READ in `t` got exactly one final response in `t`: none is left outstanding. */
  ghost predicate Drained(t: Trace) {
    forall id, offset, length :: ReadSent(id, offset, length) in t ==> Finals(t, id) == 1
  }

  /** The bytes a READ response stands for, when it is a success or end-of-file. */
  function Payload(m: Incoming): Option<Bytes> {
    if HasStatus(m, STATUS_SUCCESS) && m.body.ReadData? then Some(m.body.data)
    else if HasStatus(m, STATUS_END_OF_FILE) then Some([])
    else None
  }

  predicate Answers(m: Incoming, id: u64) {
    m.Message? && m.header.messageId == id
  }

  /** The server returns the file's own bytes, possibly too few of them. */
  ghost predicate Honest(file: Bytes, t: Trace) {
    forall id, offset, length, m ::
      ReadSent(id, offset, length) in t && Got(m) in t && Answers(m, id) && Payload(m).Some? ==>
        Payload(m).value == Slice(file, offset, |Payload(m).value|)
  }

  /** In addition, reads fall short only at the server's end of file. */
  ghost predicate Complete(file: Bytes, t: Trace) {
    forall id, offset, length, m ::
      ReadSent(id, offset, length) in t && Got(m) in t && Answers(m, id) && Payload(m).Some? ==>
        Payload(m).value == Slice(file, offset, length)
  }

  lemma CompleteIsHonest(file: Bytes, t: Trace)
    requires Complete(file, t)
    ensures Honest(file, t)
  {
    forall id, offset, length, m |
      ReadSent(id, offset, length) in t && Got(m) in t && Answers(m, id) && Payload(m).Some?
      ensures Payload(m).value == Slice(file, offset, |Payload(m).value|)
    {
      assert Payload(m).value == Slice(file, offset, length);
    }
  }

  /** Agreement with the file is inherited by shorter histories. */
  lemma Shorter(file: Bytes, t: Trace, u: Trace)
    requires forall e :: e in t ==> e in u
    ensures Honest(file, u) ==> Honest(file, t)
    ensures Complete(file, u) ==> Complete(file, t)
  {}

  /** The server itself answered with `status`. */
  ghost predicate Reported(t: Trace, status: u32) {
    exists m :: Got(m) in t && HasStatus(m, status)
  }

  lemma ReportedWithin(t: Trace, u: Trace, status: u32)
    requires Reported(t, status) && forall e :: e in t ==> e in u
    ensures Reported(u, status)
  {
    var m :| Got(m) in t && HasStatus(m, status);
    assert Got(m) in u;
  }

  /** A finished exchange: drained, and every event belongs to MessageIds in `[lo, hi)`. */
  ghost predicate Closed(t: Trace, lo: nat, hi: nat) {
    && lo <= hi
    && Drained(t)
    && forall e :: e in t ==> Within(e, lo, hi)
  }

  predicate Within(e: Event, lo: nat, hi: nat) {
    match e
    case Got(m) => m.Message? && lo <= m.header.messageId < hi
    case Noticed => true
    case _ => lo <= e.id < hi
  }

  lemma ClosedConcat(t: Trace, u: Trace, lo: nat, mid: nat, hi: nat)
    requires Closed(t, lo, mid) && Closed(u, mid, hi)
    ensures Closed(t + u, lo, hi)
  {
    forall id, offset, length | ReadSent(id, offset, length) in t + u ensures Finals(t + u, id) == 1 {
      Concat(t, u, id);
      if ReadSent(id, offset, length) in t {
        assert Within(ReadSent(id, offset, length), lo, mid);
        Untouched(u, id);
      } else {
        assert Within(ReadSent(id, offset, length), mid, hi);
        Untouched(t, id);
      }
    }
  }

  /** What sending `e` costs, in credits and in MessageIds: a CANCEL reuses the number of its READ. */
  function Cost(multiCredit: bool, e: Event): nat {
    match e
    case ReadSent(_, _, length) => Price(multiCredit, length)
    case WriteSent(_, _, data) => Price(multiCredit, |data|)
    case SetEndOfFileSent(_, _) => 1
    case OtherSent(_, _) => 1
    case _ => 0
  }

  /** The requests of `t` use up the MessageIds `[lo, hi)`, each as many from its own on as it costs. */
  ghost predicate Numbered(multiCredit: bool, t: Trace, lo: int, hi: int) {
    if t == [] then lo == hi
    else
      var e := t[|t| - 1];
      var first := hi - Cost(multiCredit, e);
      Numbered(multiCredit, t[..|t| - 1], lo, first) && (Cost(multiCredit, e) > 0 ==> e.id == first)
  }

  lemma NumberedSnoc(multiCredit: bool, t: Trace, e: Event, lo: int, hi: int)
    requires Numbered(multiCredit, t, lo, hi) && (Cost(multiCredit, e) > 0 ==> e.id == hi)
    ensures Numbered(multiCredit, t + [e], lo, hi + Cost(multiCredit, e))
  {
    assert (t + [e])[..|t|] == t;
  }

  lemma {:induction false} NumberedConcat(multiCredit: bool, t: Trace, u: Trace, lo: int, mid: int, hi: int)
    requires Numbered(multiCredit, t, lo, mid) && Numbered(multiCredit, u, mid, hi)
    ensures Numbered(multiCredit, t + u, lo, hi)
  {
    if u == [] {
      assert t + u == t;
    } else {
      var v, e := u[..|u| - 1], u[|u| - 1];
      NumberedConcat(multiCredit, t, v, lo, mid, hi - Cost(multiCredit, e));
      assert t + u == (t + v) + [e];
      NumberedSnoc(multiCredit, t + v, e, lo, hi - Cost(multiCredit, e));
    }
  }

  lemma {:induction false} NumberedFree(multiCredit: bool, t: Trace, u: Trace, lo: int, hi: int)
    requires Numbered(multiCredit, t, lo, hi) && forall e :: e in u ==> Cost(multiCredit, e) == 0
    ensures Numbered(multiCredit, t + u, lo, hi)
  {
    if u == [] {
      assert t + u == t;
    } else {
      var v, e := u[..|u| - 1], u[|u| - 1];
      NumberedFree(multiCredit, t, v, lo, hi);
      assert t + u == (t + v) + [e];
      NumberedSnoc(multiCredit, t + v, e, lo, hi);
    }
  }

  /** An operation that left the history `t`, having begun at MessageId `lo` with `credits` credits, has
      paid for each of its requests, and has what the responses granted. */
  ghost predicate Paid(s: SessionConnection, t: Trace, lo: nat, credits: nat)
    reads s.credits, s.messageIds
  {
    Settles(s.multiCredit, t, lo, credits, s.messageIds.next, s.credits.available)
  }

  ghost predicate Settles(multiCredit: bool, t: Trace, lo: int, credits: int, hi: int, left: int) {
    Numbered(multiCredit, t, lo, hi) && left + hi == credits + lo + Granted(t)
  }

  /** What was paid before and what was paid since. */
  lemma SettlesConcat(multiCredit: bool, t: Trace, u: Trace, lo: int, credits: int, mid: int, between: int, hi: int, left: int)
    requires Settles(multiCredit, t, lo, credits, mid, between) && Settles(multiCredit, u, mid, between, hi, left)
    ensures Settles(multiCredit, t + u, lo, credits, hi, left)
  {
    hide Numbered, Granted;
    NumberedConcat(multiCredit, t, u, lo, mid, hi);
    GrantedConcat(t, u);
  }

  /** Events that cost nothing and grant nothing. */
  lemma {:induction false} SettlesFree(multiCredit: bool, t: Trace, u: Trace, lo: int, credits: int, hi: int, left: int)
    requires Settles(multiCredit, t, lo, credits, hi, left)
    requires forall e :: e in u ==> Cost(multiCredit, e) == 0 && !e.Got?
    ensures Settles(multiCredit, t + u, lo, credits, hi, left)
  {
    hide Numbered, Granted, Cost;
    NumberedFree(multiCredit, t, u, lo, hi);
    GrantedNothing(t, u);
  }

  lemma {:induction false} GrantedNothing(t: Trace, u: Trace)
    requires forall e :: e in u ==> !e.Got?
    ensures Granted(t + u) == Granted(t)
  {
    if u == [] {
      assert t + u == t;
    } else {
      var v, e := u[..|u| - 1], u[|u| - 1];
      GrantedNothing(t, v);
      GrantedSnoc(t + v, e);
      assert t + u == (t + v) + [e];
    }
  }

  lemma NothingNumbered(multiCredit: bool, lo: int)
    ensures Numbered(multiCredit, [], lo, lo) && Granted([]) == 0
  {}

  /** READs sent, final answers received, and the most READs ever in flight at once. */
  datatype Tally = Tally(sent: nat, answered: nat, peak: int)

  function TallyOf(t: Trace): Tally {
    if t == [] then Tally(0, 0, 0)
    else
      var c, e := TallyOf(t[..|t| - 1]), t[|t| - 1];
      if e.ReadSent? then Tally(c.sent + 1, c.answered, Max(c.peak, c.sent + 1 - c.answered))
      else if e.Got? && e.message.Message? && !HasStatus(e.message, STATUS_PENDING) then c.(answered := c.answered + 1)
      else c
  }

  lemma TallySnoc(t: Trace, e: Event)
    ensures TallyOf(t + [e]) ==
            (var c := TallyOf(t);
             if e.ReadSent? then Tally(c.sent + 1, c.answered, Max(c.peak, c.sent + 1 - c.answered))
             else if e.Got? && e.message.Message? && !HasStatus(e.message, STATUS_PENDING) then c.(answered := c.answered + 1)
             else c)
  {
    assert (t + [e])[..|t|] == t;
  }

  /** What follows a drained history has a peak of its own. */
  lemma {:induction false} TallyConcat(t: Trace, u: Trace)
    requires TallyOf(t).sent == TallyOf(t).answered
    ensures var c, d := TallyOf(t), TallyOf(u);
            TallyOf(t + u) == Tally(c.sent + d.sent, c.answered + d.answered, Max(c.peak, d.peak))
  {
    hide TallyOf;
    if u == [] {
      assert t + u == t;
      NoTally(t);
    } else {
      var v, e := u[..|u| - 1], u[|u| - 1];
      TallyConcat(t, v);
      TallySnoc(v, e);
      TallySnoc(t + v, e);
      assert u == v + [e] && t + u == (t + v) + [e];
    }
  }

  lemma {:induction false} NoTally(t: Trace)
    ensures TallyOf([]) == Tally(0, 0, 0) && TallyOf(t).peak >= 0
  {
    if t != [] {
      NoTally(t[..|t| - 1]);
    }
  }

  /** The status of `e`, if it is a final answer to one of the READs of `t` and neither a success nor the
      end of the file, nor one of the spared ones. */
  ghost function DenialOf(t: Trace, e: Event, spared: set<u32>): Option<u32> {
    if e.Got? && e.message.Message? && e.message.header.status.Status? && IsReadId(t, e.message.header.messageId)
       && e.message.header.status.code !in {STATUS_SUCCESS, STATUS_END_OF_FILE, STATUS_PENDING} + spared
    then Some(e.message.header.status.code) else None
  }

  /** The first such status received. */
  ghost function FirstDenial(t: Trace, spared: set<u32>): Option<u32> {
    if t == [] then None
    else
      var n := |t| - 1;
      var earlier := FirstDenial(t[..n], spared);
      if earlier.Some? then earlier else DenialOf(t[..n], t[n], spared)
  }

  lemma DenialSnoc(t: Trace, e: Event, spared: set<u32>)
    ensures FirstDenial(t + [e], spared) == if FirstDenial(t, spared).Some? then FirstDenial(t, spared) else DenialOf(t, e, spared)
  {
    assert (t + [e])[..|t|] == t;
  }

  lemma {:induction false} DenialQuiet(t: Trace, u: Trace, spared: set<u32>)
    requires forall e :: e in u && e.Got? ==> HasStatus(e.message, STATUS_PENDING)
    ensures FirstDenial(t + u, spared) == FirstDenial(t, spared)
  {
    if u == [] {
      assert t + u == t;
    } else {
      var v, e := u[..|u| - 1], u[|u| - 1];
      DenialQuiet(t, v, spared);
      assert t + u == (t + v) + [e];
      DenialSnoc(t + v, e, spared);
    }
  }

  /** Where it is: the first final answer that is a denial. */
  lemma {:induction false} DenialAt(t: Trace, spared: set<u32>) returns (i: nat)
    ensures FirstDenial(t, spared).Some? ==> i < |t| && DenialOf(t[..i], t[i], spared) == FirstDenial(t, spared)
    ensures i <= |t| && forall j :: 0 <= j < i ==> DenialOf(t[..j], t[j], spared) == None
    ensures FirstDenial(t, spared).None? ==> i == |t|
  {
    hide DenialOf;
    if t == [] {
      return 0;
    }
    var v, e := t[..|t| - 1], t[|t| - 1];
    i := DenialAt(v, spared);
    forall j | 0 <= j < |t| ensures j < |v| ==> v[..j] == t[..j] && v[j] == t[j] {}
    if FirstDenial(t, spared).None? {
      i := |t|;
    }
  }

  /** READs of other MessageIds do not share their denials. */
  lemma {:induction false} DenialConcat(t: Trace, u: Trace, lo: nat, mid: nat, hi: nat, spared: set<u32>)
    requires (forall x :: x in t ==> Within(x, lo, mid)) && (forall x :: x in u ==> Within(x, mid, hi))
    ensures FirstDenial(t + u, spared) == if FirstDenial(t, spared).Some? then FirstDenial(t, spared) else FirstDenial(u, spared)
  {
    if u == [] {
      assert t + u == t;
    } else {
      var v, e := u[..|u| - 1], u[|u| - 1];
      DenialConcat(t, v, lo, mid, hi, spared);
      assert t + u == (t + v) + [e];
      DenialSnoc(t + v, e, spared);
      if e.Got? {
        assert Within(e, mid, hi);
        OwnRead(t, v, lo, mid, hi, e.message.header.messageId);
      }
    }
  }

  lemma OwnRead(t: Trace, u: Trace, lo: nat, mid: nat, hi: nat, id: u64)
    requires id >= mid && forall x :: x in t ==> Within(x, lo, mid)
    ensures IsReadId(t + u, id) <==> IsReadId(u, id)
  {
    assert forall x :: x in t && x.ReadSent? ==> Within(x, lo, mid);
    if IsReadId(u, id) {
      var o, l :| ReadSent(id, o, l) in u;
      assert ReadSent(id, o, l) in t + u;
    }
  }

  /** A READ was sent under `id` and its final response has not come yet. */
  ghost predicate Unfinished(t: Trace, id: u64) { IsReadId(t, id) && Finals(t, id) == 0 }

  ghost predicate IsReadId(t: Trace, id: u64) { exists offset, length :: ReadSent(id, offset, length) in t }

  /** The request was for fewer bytes than `size`. */
  ghost predicate Exceeds(t: Trace, id: u64, size: nat) { exists offset: nat, length: nat :: ReadSent(id, offset, length) in t && length < size }

  /** No READ still waiting in `t` can take this header: each would find another command, MessageId or
      session, another AsyncId than it has learned, another tree, or no usable status. */
  ghost predicate NoTaker(s: SessionConnection, h: FileHandle, t: Trace, header: Header) {
    forall id: u64 :: Unfinished(t, id) ==> Validate(Learned(t, id), Expected(Read, h.treeId, s.sessionId, id), header).Err?
  }

  /** A message that, received after `t`, cannot be taken as an answer to any READ, for the reason `e`. */
  ghost predicate Offends(s: SessionConnection, h: FileHandle, t: Trace, m: Incoming, e: ClientError)
    reads s.credits
  {
    match e
    case Wire => m.Malformed? || (HasStatus(m, STATUS_SUCCESS) && !m.body.ReadData?)
    case Protocol(fault) =>
      m.Message? &&
      (match fault
       case BadHeader => NoTaker(s, h, t, m.header)
       case NotOutstanding => !Unfinished(t, m.header.messageId)
       case DuplicateFinal => IsReadId(t, m.header.messageId) && Finals(t, m.header.messageId) > 0
       case CreditOverflow => s.credits.available + m.header.credits > U32_MAX
       case BadSignature => !s.Genuine(m)
       case TooMuchData => HasStatus(m, STATUS_SUCCESS) && m.body.ReadData? && Exceeds(t, m.header.messageId, |m.body.data|)
       case _ => false)
    case _ => false
  }

  /** The message that ended `t` was no acceptable answer; all before concerned this operation only. */
  ghost predicate Refused(s: SessionConnection, h: FileHandle, t: Trace, e: ClientError, lo: nat)
    reads s.credits, s.messageIds
  {
    && t != [] && t[|t| - 1].Got? && Offends(s, h, t[..|t| - 1], t[|t| - 1].message, e)
    && forall x :: x in t[..|t| - 1] ==> Within(x, lo, s.messageIds.next)
  }

  /** A READ operation that left the history `t` fails with `e` only for a reason: the session or its
      limits ran out, or the last message was no acceptable answer. */
  ghost predicate Excused(s: SessionConnection, h: FileHandle, t: Trace, e: ClientError, lo: nat)
    reads s`inbox, s`sendsLeft, s.credits, s.messageIds
  {
    s.Exhausted(e) || Refused(s, h, t, e, lo)
  }

  /** What was finished earlier neither excuses nor takes a later message. */
  lemma {:induction false} RefusedLater(s: SessionConnection, h: FileHandle, t: Trace, u: Trace, e: ClientError, lo: nat, mid: nat)
    requires Closed(t, lo, mid) && mid <= s.messageIds.next && Refused(s, h, u, e, mid)
    ensures Refused(s, h, t + u, e, lo)
  {
    var u', m := u[..|u| - 1], u[|u| - 1].message;
    assert (t + u)[..|t + u| - 1] == t + u' && (t + u)[|t + u| - 1] == u[|u| - 1];
    forall x | x in t + u' ensures Within(x, lo, s.messageIds.next) {
      if x in t {
        assert Within(x, lo, mid);
      } else {
        assert Within(x, mid, s.messageIds.next);
      }
    }
    OffendsLater(s, h, t, u', m, e, lo, mid);
  }

  lemma {:induction false} OffendsLater(s: SessionConnection, h: FileHandle, t: Trace, u: Trace, m: Incoming, e: ClientError, lo: nat, mid: nat)
    requires Closed(t, lo, mid) && (forall x :: x in u ==> Within(x, mid, s.messageIds.next)) && Offends(s, h, u, m, e)
    ensures Offends(s, h, t + u, m, e)
  {
    hide Finals, Validate, Learned, HasStatus;
    if m.Message? {
      FinishedStays(t, u, lo, mid, s.messageIds.next, m.header.messageId);
      if e == Protocol(BadHeader) {
        forall id: u64 | Unfinished(t + u, id)
          ensures Validate(Learned(t + u, id), Expected(Read, h.treeId, s.sessionId, id), m.header).Err?
        {
          FinishedStays(t, u, lo, mid, s.messageIds.next, id);
        }
      }
    }
  }

  /** A READ of the later part is in the same state as if the earlier part had not happened, and one of
      the earlier part is finished. */
  lemma {:induction false} FinishedStays(t: Trace, u: Trace, lo: nat, mid: nat, hi: nat, id: u64)
    requires Closed(t, lo, mid) && forall x :: x in u ==> Within(x, mid, hi)
    ensures Unfinished(t + u, id) <==> Unfinished(u, id)
    ensures Unfinished(u, id) ==> Learned(t + u, id) == Learned(u, id)
    ensures IsReadId(u, id) ==> IsReadId(t + u, id)
    ensures IsReadId(u, id) && Finals(u, id) > 0 ==> Finals(t + u, id) > 0
    ensures forall n: nat :: Exceeds(u, id, n) ==> Exceeds(t + u, id, n)
  {
    hide Finals, Learned;
    Concat(t, u, id);
    if IsReadId(u, id) {
      var o, l :| ReadSent(id, o, l) in u;
      assert Within(ReadSent(id, o, l), mid, hi) && ReadSent(id, o, l) in t + u;
      LearnedLater(t, u, id);
      Untouched(t, id);
    }
    if IsReadId(t, id) {
      var o, l :| ReadSent(id, o, l) in t;
      assert Finals(t, id) == 1;
      assert Within(ReadSent(id, o, l), lo, mid) && ReadSent(id, o, l) in t + u;
    }
    forall n: nat | Exceeds(u, id, n) ensures Exceeds(t + u, id, n) {
      var o: nat, l: nat :| ReadSent(id, o, l) in u && l < n;
      assert ReadSent(id, o, l) in t + u;
    }
  }

  lemma {:induction false} LearnedLater(t: Trace, u: Trace, id: u64)
    requires forall m :: Got(m) in t ==> m.Message? && m.header.messageId < id
    ensures Learned(t + u, id) == Learned(u, id)
  {
    if u == [] {
      assert t + u == t;
      NothingFor(t, id);
    } else {
      var v, e := u[..|u| - 1], u[|u| - 1];
      LearnedLater(t, v, id);
      LearnedSnoc(v, e, id);
      LearnedSnoc(t + v, e, id);
      assert u == v + [e] && t + u == (t + v) + [e];
    }
  }

  lemma {:induction false} LearnedQuiet(t: Trace, u: Trace, id: u64)
    requires forall e :: e in u ==> !e.Got?
    ensures Learned(t + u, id) == Learned(t, id)
  {
    hide Learned;
    if u == [] {
      assert t + u == t;
    } else {
      var v, e := u[..|u| - 1], u[|u| - 1];
      LearnedQuiet(t, v, id);
      LearnedSnoc(t + v, e, id);
      assert u == v + [e] && t + u == (t + v) + [e];
    }
  }

  lemma {:induction false} NothingFor(t: Trace, id: u64)
    requires forall m :: Got(m) in t ==> m.Message? && m.header.messageId != id
    ensures Learned(t, id) == None
  {
    if t != [] {
      NothingFor(t[..|t| - 1], id);
      assert t[|t| - 1] in t;
    }
  }

  /** An AsyncId that has been learned was announced. */
  ghost predicate Announced(t: Trace, id: u64, asyncId: u64) {
    exists m :: Got(m) in t && Answers(m, id) && m.header.id == Async(asyncId)
  }

  lemma {:induction false} LearnedAnnounced(t: Trace, id: u64)
    ensures Learned(t, id).Some? ==> Announced(t, id, Learned(t, id).value)
  {
    if t != [] {
      var v, e := t[..|t| - 1], t[|t| - 1];
      LearnedAnnounced(v, id);
      assert t == v + [e];
      if Learned(v, id).Some? && Learned(t, id) == Learned(v, id) {
        var m :| Got(m) in v && Answers(m, id) && m.header.id == Async(Learned(v, id).value);
        assert Got(m) in t;
      }
    }
  }

  /** Everything received is authentic as far as the session demands. */
  ghost predicate AllGenuine(s: SessionConnection, t: Trace) {
    forall m :: Got(m) in t ==> s.Genuine(m)
  }

  /** On a session that requires signing, every final response in such a history carries a signature
      that verifies under the session's key. */
  lemma SignedMeansVerified(s: SessionConnection, t: Trace, id: u64, m: Incoming)
    requires AllGenuine(s, t) && s.signingRequired && Got(m) in t && IsFinal(Got(m), id)
    ensures m.header.signed && s.hasSigningKey && m.header.macValid
  {}

  lemma GenuineSnoc(s: SessionConnection, t: Trace, e: Event)
    requires AllGenuine(s, t) && (e.Got? ==> s.Genuine(e.message))
    ensures AllGenuine(s, t + [e])
  {}

  lemma GenuineQuiet(s: SessionConnection, t: Trace, u: Trace)
    requires AllGenuine(s, t) && forall e :: e in u ==> !e.Got?
    ensures AllGenuine(s, t + u)
  {}

  lemma GenuineConcat(s: SessionConnection, t: Trace, u: Trace)
    requires AllGenuine(s, t) && AllGenuine(s, u)
    ensures AllGenuine(s, t + u)
  {}
}
