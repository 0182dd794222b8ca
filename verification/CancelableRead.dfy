/** Pipelined READ in waves that a generation change can cancel. */
module CancelableRead {
  import opened Common
  import opened Messages
  import opened Credits
  import opened AsyncResponse
  import opened Session
  import opened FileModel
  import opened ReadTrace
  import opened ReadAssembly
  import opened ReadAt
  import opened Pipeline
  import opened Cancellation

  datatype WaveRead = WaveRead(messageId: u64, chunkLen: nat, asyncId: Option<u64>, asyncCancelSent: bool)

  function Ids(pending: seq<WaveRead>): (ids: seq<u64>)
    ensures |ids| == |pending| && forall p :: 0 <= p < |pending| ==> ids[p] == pending[p].messageId
  {
    seq(|pending|, p requires 0 <= p < |pending| => pending[p].messageId)
  }

  function Lens(pending: seq<WaveRead>): (lens: seq<nat>)
    ensures |lens| == |pending| && forall p :: 0 <= p < |pending| ==> lens[p] == pending[p].chunkLen
  {
    seq(|pending|, p requires 0 <= p < |pending| => pending[p].chunkLen)
  }

  function LayoutOf(pending: seq<WaveRead>): Layout { Layout(Ids(pending), Lens(pending)) }

  function Blank(n: nat): Slots { seq(n, i => None) }

  /** The CANCELs one READ was sent so far, against the scheduler's own bookkeeping. */
  ghost predicate Ledger(c: seq<Option<u64>>, r: WaveRead) {
    if r.asyncCancelSent then r.asyncId.Some? && (c == [r.asyncId] || c == [None, r.asyncId])
    else c == [] || c == [None]
  }

  /** How many READs of the wave have their final response. */
  function DoneCount(done: Slots): nat {
    if done == [] then 0
    else DoneCount(done[..|done| - 1]) + if done[|done| - 1].Some? then 1 else 0
  }

  lemma {:induction false} DoneFill(done: Slots, p: nat, d: Bytes)
    requires p < |done| && done[p].None?
    ensures DoneCount(done[p := Some(d)]) == DoneCount(done) + 1
  {
    var n := |done| - 1;
    if p == n {
      assert done[p := Some(d)][..n] == done[..n];
    } else {
      assert done[p := Some(d)][..n] == done[..n][p := Some(d)];
      DoneFill(done[..n], p, d);
    }
  }

  lemma {:induction false} DoneAll(done: Slots)
    ensures DoneCount(done) <= |done|
    ensures DoneCount(done) == |done| ==> forall p :: 0 <= p < |done| ==> done[p].Some?
  {
    if done != [] {
      DoneAll(done[..|done| - 1]);
    }
  }

  lemma {:induction false} DoneBlank(n: nat)
    ensures DoneCount(Blank(n)) == 0
  {
    if n > 0 {
      assert Blank(n)[..n - 1] == Blank(n - 1);
      DoneBlank(n - 1);
    }
  }

  /** The history has these READs, these answers, and at no time more READs in flight than the wave has. */
  ghost predicate Counted(pending: nat, done: nat, t: Trace) {
    TallyOf(t).sent == pending && TallyOf(t).answered == done && TallyOf(t).peak <= pending
  }

  /** The part of the wave's invariant that does not mention file contents. */
  ghost predicate Core(pending: seq<WaveRead>, done: Slots, t: Trace, base: nat, lo: nat, hi: nat) {
    && Recorded(t, base, done, LayoutOf(pending), lo, hi)
    && (forall i, j :: 0 <= i < j < |pending| ==> pending[i].messageId < pending[j].messageId)
    && (forall p :: 0 <= p < |pending| ==> pending[p].chunkLen > 0)
    && (forall p :: 0 <= p < |pending| ==> Ledger(Cancels(t, pending[p].messageId), pending[p]))
    && (forall p :: 0 <= p < |pending| ==> Known(t, pending[p]))
    && (forall e :: e in t && e.CancelSent? ==> e.id in Ids(pending))
    && AllTimely(t) && Counted(|pending|, DoneCount(done), t)
  }

  /** The scheduler knows the AsyncId the READ's responses have carried. */
  ghost predicate Known(t: Trace, r: WaveRead) { r.asyncId == Learned(t, r.messageId) }

  /** An event other than a READ or a response leaves the correlation untouched. */
  lemma {:induction false} OtherRecorded(done: Slots, lay: Layout, t: Trace, base: nat, lo: nat, hi: nat, e: Event)
    requires Recorded(t, base, done, lay, lo, hi)
    requires !e.ReadSent? && !e.Got? && Within(e, lo, hi)
    ensures Recorded(t + [e], base, done, lay, lo, hi)
  {
    hide Finals, Cancels, Start, Learned, TallyOf, DoneCount;
    forall p | 0 <= p < |done| ensures Sent(t + [e], base, done, lay, p) {
      Snoc(t, e, lay.ids[p]);
      assert Sent(t, base, done, lay, p);
    }
  }

  lemma KnownGrows(t: Trace, e: Event, r: WaveRead)
    requires Known(t, r)
    requires !e.Got? || (e.message.Message? && e.message.header.messageId != r.messageId)
    ensures Known(t + [e], r)
  {
    LearnedSnoc(t, e, r.messageId);
  }

  /** Sending CANCEL for an unfinished READ: sync while no AsyncId is known, else with it. */
  lemma {:induction false} CancelKeeps(pending: seq<WaveRead>, done: Slots, t: Trace, base: nat, lo: nat, hi: nat, p: nat)
    requires Core(pending, done, t, base, lo, hi) && p < |pending|
    requires done[p].None? && !pending[p].asyncCancelSent
    requires pending[p].asyncId.None? ==> Cancels(t, pending[p].messageId) == []
    ensures var r := pending[p];
            Core(pending[p := r.(asyncCancelSent := r.asyncId.Some?)], done,
                 t + [CancelSent(r.messageId, r.asyncId)], base, lo, hi)
  {
    hide Finals, Cancels, Start, Learned, TallyOf, DoneCount;
    var r := pending[p];
    var e := CancelSent(r.messageId, r.asyncId);
    var pending' := pending[p := r.(asyncCancelSent := r.asyncId.Some?)];
    assert Sent(t, base, done, LayoutOf(pending), p);
    assert Within(ReadSent(r.messageId, base + Start(Lens(pending), p), r.chunkLen), lo, hi);
    assert LayoutOf(pending') == LayoutOf(pending);
    OtherRecorded(done, LayoutOf(pending), t, base, lo, hi, e);
    LearnedAnnounced(t, r.messageId);
    TimelyAppend(t, e);
    TallySnoc(t, e);
    forall q | 0 <= q < |pending'|
      ensures Ledger(Cancels(t + [e], pending'[q].messageId), pending'[q]) && Known(t + [e], pending'[q])
    {
      Snoc(t, e, pending[q].messageId);
      KnownGrows(t, e, pending[q]);
      assert Ledger(Cancels(t, pending[q].messageId), pending[q]);
    }
  }

  /** A response for READ `p`: interim if `d` is None, else final with data `d`. */
  lemma {:induction false} GotKeeps(pending: seq<WaveRead>, done: Slots, t: Trace, base: nat, lo: nat, hi: nat,
                                    p: nat, m: Incoming, asyncId: Option<u64>, d: Option<Bytes>)
    requires Core(pending, done, t, base, lo, hi) && p < |pending| && done[p].None?
    requires Answers(m, pending[p].messageId)
    requires d.Some? <==> !HasStatus(m, STATUS_PENDING)
    requires asyncId == if m.header.id.Async? then Some(m.header.id.asyncId) else pending[p].asyncId
    requires asyncId == pending[p].asyncId || (pending[p].asyncId.None? && asyncId.Some? && m.header.id == Async(asyncId.value))
    ensures Core(pending[p := pending[p].(asyncId := asyncId)], if d.Some? then done[p := d] else done,
                 t + [Got(m)], base, lo, hi)
  {
    hide Finals, Cancels, Start, Learned, TallyOf, DoneCount;
    var e := Got(m);
    var pending' := pending[p := pending[p].(asyncId := asyncId)];
    assert LayoutOf(pending') == LayoutOf(pending);
    assert Ids(pending)[p] == m.header.messageId;
    if d.Some? {
      GotRecorded(done, LayoutOf(pending), t, base, lo, hi, m, p, d.value);
      DoneFill(done, p, d.value);
    } else {
      GotRecorded(done, LayoutOf(pending), t, base, lo, hi, m, |done|, []);
    }
    TimelyAppend(t, e);
    TallySnoc(t, e);
    forall q | 0 <= q < |pending'|
      ensures Ledger(Cancels(t + [e], pending'[q].messageId), pending'[q]) && Known(t + [e], pending'[q])
    {
      Snoc(t, e, pending[q].messageId);
      LearnedSnoc(t, e, pending[q].messageId);
      assert Known(t, pending[q]) && Ledger(Cancels(t, pending[q].messageId), pending[q]);
    }
  }

  lemma {:induction false} NoticeKeeps(pending: seq<WaveRead>, done: Slots, t: Trace, base: nat, lo: nat, hi: nat)
    requires Core(pending, done, t, base, lo, hi)
    ensures Core(pending, done, t + [Noticed], base, lo, hi)
  {
    hide Finals, Cancels, Start, Learned, TallyOf, DoneCount;
    OtherRecorded(done, LayoutOf(pending), t, base, lo, hi, Noticed);
    TimelyAppend(t, Noticed);
    TallySnoc(t, Noticed);
    forall q | 0 <= q < |pending|
      ensures Ledger(Cancels(t + [Noticed], pending[q].messageId), pending[q]) && Known(t + [Noticed], pending[q])
    {
      Snoc(t, Noticed, pending[q].messageId);
      KnownGrows(t, Noticed, pending[q]);
    }
  }

  lemma {:induction false} SendKeepsCore(pending: seq<WaveRead>, t: Trace, base: nat, lo: nat, hi: nat,
                                         id: u64, length: nat, hi': nat)
    requires Core(pending, Blank(|pending|), t, base, lo, hi) && hi <= id < hi' && length > 0
    ensures Core(pending + [WaveRead(id, length, None, false)], Blank(|pending| + 1),
                 t + [ReadSent(id, base + Start(Lens(pending), |pending|), length)], base, lo, hi')
  {
    hide Finals, Cancels, Start, Learned, TallyOf, DoneCount;
    var n := |pending|;
    var e := ReadSent(id, base + Start(Lens(pending), n), length);
    var pending' := pending + [WaveRead(id, length, None, false)];
    assert LayoutOf(pending') == Extend(LayoutOf(pending), id, length);
    assert Blank(n + 1) == Blank(n) + [None];
    SendRecorded(Blank(n), LayoutOf(pending), t, base, lo, hi, id, length, hi');
    forall p | 0 <= p < n ensures pending[p].messageId < id {
      assert Ids(pending)[p] < id;
    }
    TimelyAppend(t, e);
    TallySnoc(t, e);
    DoneBlank(n);
    DoneBlank(n + 1);
    forall q | 0 <= q < |pending'|
      ensures Ledger(Cancels(t + [e], pending'[q].messageId), pending'[q]) && Known(t + [e], pending'[q])
    {
      Snoc(t, e, pending'[q].messageId);
      if q < n {
        KnownGrows(t, e, pending[q]);
        assert Ledger(Cancels(t, pending[q].messageId), pending[q]);
      } else {
        Untouched(t, id);
        assert forall m :: Got(m) in t ==> Within(Got(m), lo, hi);
        NothingFor(t, id);
        LearnedSnoc(t, e, id);
      }
    }
  }

  lemma CoreCounts(pending: seq<WaveRead>, done: Slots, t: Trace, base: nat, lo: nat, hi: nat)
    requires Core(pending, done, t, base, lo, hi)
    ensures Counted(|pending|, DoneCount(done), t)
  {
    hide Recorded, Ledger, Known, AllTimely;
  }

  /** A finished wave: closed, disciplined. */
  lemma {:induction false} CoreDone(pending: seq<WaveRead>, done: Slots, t: Trace, base: nat, lo: nat, hi: nat)
    requires Core(pending, done, t, base, lo, hi)
    requires forall p :: 0 <= p < |done| ==> done[p].Some?
    ensures Closed(t, lo, hi) && Disciplined(t)
  {
    hide Finals, Cancels, Start, Learned, TallyOf, DoneCount;
    var lay := LayoutOf(pending);
    forall id, o, l | ReadSent(id, o, l) in t ensures Finals(t, id) == 1 {
      var p :| 0 <= p < |lay.ids| && lay.ids[p] == id;
      assert Sent(t, base, done, lay, p);
    }
    forall id: u64 ensures CancelShape(Cancels(t, id)) {
      if id in lay.ids {
        var p :| 0 <= p < |lay.ids| && lay.ids[p] == id;
        assert Ledger(Cancels(t, pending[p].messageId), pending[p]);
      } else {
        NoCancels(t, id);
      }
    }
  }

  /** Everything one wave tracks while responses come in. */
  datatype Wave = Wave(
    pending: seq<WaveRead>,
    done: Slots,
    short: Option<nat>,
    status: Option<u32>,
    cancelled: bool,
    received: nat)

  /** Nothing was noticed and nothing cancelled. */
  ghost predicate Quiet(t: Trace) {
    forall e :: e in t ==> !e.Noticed? && !e.CancelSent?
  }

  ghost predicate WaveInv(v: Wave, t: Trace, base: nat, lo: nat, hi: nat, file: Bytes) {
    && |v.done| == |v.pending|
    && Core(v.pending, v.done, t, base, lo, hi)
    && ShortIsShort(Lens(v.pending), v.done, v.short)
    && (!v.cancelled && v.status.None? ==> SizesOk(Lens(v.pending), v.done, v.short))
    && (!v.cancelled && v.status.None? && Honest(file, t) ==>
          SlotsOk(file, base, Lens(v.pending), v.done, v.short, Complete(file, t)))
    && (if v.cancelled then NoticeHandled(t) else Quiet(t))
    && Explained(v.cancelled, v.status, t)
    && v.received == DoneCount(v.done)
  }

  /** The wave's outcome flags say exactly what the history says. */
  ghost predicate Explained(cancelled: bool, status: Option<u32>, t: Trace) {
    (cancelled <==> Cause(t)) && status == FirstDenial(t, {STATUS_CANCELLED})
  }

  lemma ExplainedQuiet(cancelled: bool, status: Option<u32>, t: Trace, u: Trace)
    requires Explained(cancelled, status, t)
    requires forall e :: e in u ==> e.CancelSent? || (e.Got? && HasStatus(e.message, STATUS_PENDING))
    ensures Explained(cancelled, status, t + u)
  {
    hide Cause, FirstDenial;
    CauseQuiet(t, u);
    DenialQuiet(t, u, {STATUS_CANCELLED});
  }

  lemma ExplainedGot(v: Wave, v': Wave, t: Trace, m: Incoming)
    requires Explained(v.cancelled, v.status, t) && m.Message? && m.header.status.Status?
    requires IsReadId(t, m.header.messageId) && !HasStatus(m, STATUS_PENDING)
    requires v'.cancelled == (v.cancelled || HasStatus(m, STATUS_CANCELLED)) && v'.status == StatusAfter(v, m)
    ensures Explained(v'.cancelled, v'.status, t + [Got(m)])
  {
    hide Cause, FirstDenial, IsReadId;
    CauseSnoc(t, Got(m));
    DenialSnoc(t, Got(m), {STATUS_CANCELLED});
  }

  /** The first denial, once `m` has been received. */
  function StatusAfter(v: Wave, m: Incoming): Option<u32>
    requires m.Message? && m.header.status.Status?
  {
    if v.status.Some? || m.header.status.code in {STATUS_SUCCESS, STATUS_END_OF_FILE, STATUS_CANCELLED} then v.status
    else Some(m.header.status.code)
  }

  lemma {:induction false} HandledGrows(t: Trace, e: Event)
    requires NoticeHandled(t) && !e.ReadSent? && !e.Noticed?
    ensures NoticeHandled(t + [e])
  {
    hide Finals;
    var u := t + [e];
    forall k | 0 <= k < |u| && u[k].Noticed?
      ensures forall j :: k <= j < |u| ==> !u[j].ReadSent?
      ensures forall id, o, l :: ReadSent(id, o, l) in u ==> HandledAt(u, k, id)
    {
      assert u[..k] == t[..k] && u[k..] == t[k..] + [e];
      forall id, o, l | ReadSent(id, o, l) in u ensures HandledAt(u, k, id) {
        assert HandledAt(t, k, id);
      }
    }
  }

  /** The CANCELs that noticing a generation change sends: one for each unfinished READ. */
  function CancelFrames(pending: seq<WaveRead>, done: Slots, upto: nat): Trace
    requires |done| == |pending| && upto <= |pending|
  {
    if upto == 0 then []
    else
      CancelFrames(pending, done, upto - 1) +
      if done[upto - 1].None? then [CancelSent(pending[upto - 1].messageId, pending[upto - 1].asyncId)] else []
  }

  lemma {:induction false} FramesCover(pending: seq<WaveRead>, done: Slots, upto: nat, p: nat)
    requires |done| == |pending| && p < upto <= |pending| && done[p].None?
    ensures CancelSent(pending[p].messageId, pending[p].asyncId) in CancelFrames(pending, done, upto)
  {
    if p < upto - 1 {
      FramesCover(pending, done, upto - 1, p);
    }
  }

  lemma {:induction false} FramesOnlyCancel(pending: seq<WaveRead>, done: Slots, upto: nat)
    requires |done| == |pending| && upto <= |pending|
    ensures forall e :: e in CancelFrames(pending, done, upto) ==> e.CancelSent?
  {
    if upto > 0 {
      FramesOnlyCancel(pending, done, upto - 1);
    }
  }

  function MarkCancelled(pending: seq<WaveRead>, done: Slots, upto: nat): seq<WaveRead>
    requires |done| == |pending| && upto <= |pending|
  {
    seq(|pending|, p requires 0 <= p < |pending| =>
      if p < upto && done[p].None? then pending[p].(asyncCancelSent := pending[p].asyncId.Some?) else pending[p])
  }

  method SendCancelForMessageId(s: SessionConnection, id: u64, asyncId: Option<u64>) returns (r: Result<()>)
    modifies s`trace, s`sendsLeft
    ensures r.Ok? ==> s.trace == old(s.trace) + [CancelSent(id, asyncId)] && s.SignRequest().Ok?
    ensures r.Err? ==> s.trace == old(s.trace) && (r.error == Io || r.error == Protocol(BadSignature)) && s.Exhausted(r.error)
  {
    r := s.SignRequest();
    if r.Ok? {
      r := s.Send(CancelSent(id, asyncId));
    }
  }

  lemma Suffix(origin: Trace, t: Trace, e: Event)
    requires origin <= t
    ensures origin <= t + [e] && (t + [e])[|origin|..] == t[|origin|..] + [e]
  {}

  /** Cancels every unfinished READ, by AsyncId where one is known; no credit or MessageId is used. */
  method SendCancelRequests(s: SessionConnection, pending: seq<WaveRead>, done: Slots,
                            ghost origin: Trace, ghost base: nat, ghost lo: nat, ghost hi: nat)
    returns (r: Result<()>, marked: seq<WaveRead>)
    requires origin <= s.trace && |done| == |pending|
    requires Core(pending, done, s.trace[|origin|..], base, lo, hi)
    requires Uncancelled(s.trace[|origin|..], pending, 0)
    modifies s`trace, s`sendsLeft
    ensures origin <= s.trace
    ensures r.Err? ==> (r.error == Io || r.error == Protocol(BadSignature)) && s.Exhausted(r.error)
    ensures r.Ok? ==>
              && s.trace == old(s.trace) + CancelFrames(pending, done, |pending|)
              && marked == MarkCancelled(pending, done, |pending|)
              && Core(marked, done, s.trace[|origin|..], base, lo, hi)
  {
    hide Core, Cancels, Uncancelled;
    marked := pending;
    r := Ok(());
    assert MarkCancelled(pending, done, 0) == pending;
    for p := 0 to |pending|
      invariant origin <= s.trace && r.Ok?
      invariant s.trace == old(s.trace) + CancelFrames(pending, done, p)
      invariant marked == MarkCancelled(pending, done, p)
      invariant Core(marked, done, s.trace[|origin|..], base, lo, hi)
      invariant Uncancelled(s.trace[|origin|..], marked, p)
    {
      ghost var before := s.trace;
      if done[p].None? {
        r := SendCancelForMessageId(s, marked[p].messageId, marked[p].asyncId);
        if r.Err? {
          return;
        }
        Suffix(origin, before, CancelSent(marked[p].messageId, marked[p].asyncId));
        CancelOne(marked, done, before[|origin|..], base, lo, hi, p);
        marked := marked[p := marked[p].(asyncCancelSent := marked[p].asyncId.Some?)];
      } else {
        CancelSkipped(before[|origin|..], marked, p);
      }
      assert marked == MarkCancelled(pending, done, p + 1);
    }
  }

  /** READs from position `p` on were sent no CANCEL yet. */
  ghost predicate Uncancelled(t: Trace, pending: seq<WaveRead>, p: nat) {
    forall q :: p <= q < |pending| ==> Cancels(t, pending[q].messageId) == []
  }

  lemma CancelSkipped(t: Trace, pending: seq<WaveRead>, p: nat)
    requires Uncancelled(t, pending, p)
    ensures Uncancelled(t, pending, p + 1)
  {}

  lemma {:induction false} CancelOne(pending: seq<WaveRead>, done: Slots, t: Trace, base: nat, lo: nat, hi: nat, p: nat)
    requires Core(pending, done, t, base, lo, hi) && p < |pending| == |done| && done[p].None?
    requires Uncancelled(t, pending, p)
    ensures var r := pending[p];
            var t' := t + [CancelSent(r.messageId, r.asyncId)];
            var pending' := pending[p := r.(asyncCancelSent := r.asyncId.Some?)];
            Core(pending', done, t', base, lo, hi) && Uncancelled(t', pending', p + 1)
  {
    hide Recorded, AllTimely, Cancels;
    var r := pending[p];
    assert Ledger(Cancels(t, r.messageId), r);
    CancelKeeps(pending, done, t, base, lo, hi, p);
    forall q | p < q < |pending|
      ensures Cancels(t + [CancelSent(r.messageId, r.asyncId)], pending[q].messageId) == []
    {
      Snoc(t, CancelSent(r.messageId, r.asyncId), pending[q].messageId);
    }
  }

  /** Cancelling all unfinished READs after a notice handles that notice. */
  lemma {:induction false} BulkHandles(t: Trace, notices: Trace, pending: seq<WaveRead>, done: Slots, base: nat, lo: nat, hi: nat)
    requires Core(pending, done, t, base, lo, hi) && |done| == |pending| && Quiet(t)
    requires forall e :: e in notices ==> e.Noticed?
    ensures NoticeHandled(t + notices + CancelFrames(pending, done, |pending|))
  {
    hide Core, CancelFrames, HandledAt;
    var frames := CancelFrames(pending, done, |pending|);
    var u := t + notices + frames;
    FramesOnlyCancel(pending, done, |pending|);
    assert forall i :: |t| + |notices| <= i < |u| ==> u[i] in frames;
    assert forall i :: 0 <= i < |t| ==> u[i] in t;
    assert forall i :: |t| <= i < |t| + |notices| ==> u[i] in notices;
    forall k | 0 <= k < |u| && u[k].Noticed?
      ensures forall j :: k <= j < |u| ==> !u[j].ReadSent?
      ensures forall id, o, l :: ReadSent(id, o, l) in u ==> HandledAt(u, k, id)
    {
      forall id, o, l | ReadSent(id, o, l) in u ensures HandledAt(u, k, id) {
        assert ReadSent(id, o, l) in t;
        BulkHandlesOne(t, notices, pending, done, base, lo, hi, k, id);
      }
    }
  }

  lemma {:induction false} BulkHandlesOne(t: Trace, notices: Trace, pending: seq<WaveRead>, done: Slots, base: nat, lo: nat, hi: nat,
                                          k: nat, id: u64)
    requires Core(pending, done, t, base, lo, hi) && |done| == |pending| && IsReadId(t, id)
    requires |t| <= k <= |t| + |notices| && forall e :: e in notices ==> e.Noticed?
    ensures HandledAt(t + notices + CancelFrames(pending, done, |pending|), k, id)
  {
    hide Finals, Cancels, Start, AllTimely, Ledger, Learned, CancelFrames, Counted;
    var frames := CancelFrames(pending, done, |pending|);
    var u, seen := t + notices + frames, notices[..k - |t|];
    assert u[..k] == t + seen && u[k..] == notices[k - |t|..] + frames;
    var o, l :| ReadSent(id, o, l) in t;
    var p :| 0 <= p < |pending| && Ids(pending)[p] == id;
    assert Sent(t, base, done, LayoutOf(pending), p) && Known(t, pending[p]);
    Concat(t, seen, id);
    assert forall e :: e in seen ==> e in notices;
    LearnedQuiet(t, seen, id);
    if done[p].None? {
      FramesCover(pending, done, |pending|, p);
    }
  }

  lemma {:induction false} QuietUncancelled(t: Trace, notices: Trace, pending: seq<WaveRead>)
    requires Quiet(t) && forall e :: e in notices ==> e.Noticed?
    ensures Uncancelled(t + notices, pending, 0)
  {
    hide Cancels;
    forall q | 0 <= q < |pending| ensures Cancels(t + notices, pending[q].messageId) == [] {
      NoCancels(t + notices, pending[q].messageId);
    }
  }

  /** What the history of an operation keeps, whatever happens: late CANCELs sent, everything authentic,
      every request paid for. */
  ghost predicate Sound(s: SessionConnection, t: Trace, lo: nat, credits: nat)
    reads s.credits, s.messageIds
  {
    AsyncHandled(t) && AllGenuine(s, t) && Paid(s, t, lo, credits)
  }

  lemma SoundGrows(s: SessionConnection, t: Trace, u: Trace, lo: nat, credits: nat)
    requires Sound(s, t, lo, credits) && forall e :: e in u ==> e.CancelSent? || e.Noticed?
    ensures Sound(s, t + u, lo, credits)
  {
    hide Settles, AsyncHandled, AllGenuine;
    AsyncHandledGrows(t, u);
    GenuineQuiet(s, t, u);
    SettlesFree(s.multiCredit, t, u, lo, credits, s.messageIds.next, s.credits.available);
  }

  lemma SoundReads(s: SessionConnection, t: Trace, lo: nat, credits: nat)
    requires Paid(s, t, lo, credits) && forall e :: e in t ==> e.ReadSent?
    ensures Sound(s, t, lo, credits)
  {
    hide Settles;
    assert forall j :: 0 <= j < |t| ==> t[j] in t;
  }

  /** A response whose grant has just been taken, and the CANCEL it may call for. */
  lemma SoundGot(s: SessionConnection, t: Trace, m: Incoming, u: Trace, lo: nat, credits: nat)
    requires AsyncHandled(t) && AllGenuine(s, t) && s.Genuine(m) && Paid(s, t + [Got(m)], lo, credits)
    requires forall e :: e in u ==> e.CancelSent?
    requires GoesAsync(Got(m)) && Cause(t) ==> AsyncCancel(Got(m)) in t + u
    ensures Sound(s, t + [Got(m)] + u, lo, credits)
  {
    hide Settles, AsyncHandled, AllGenuine, Cause, SessionConnection.Genuine;
    GenuineSnoc(s, t, Got(m));
    GenuineQuiet(s, t + [Got(m)], u);
    SettlesFree(s.multiCredit, t + [Got(m)], u, lo, credits, s.messageIds.next, s.credits.available);
    if GoesAsync(Got(m)) {
      AsyncHandledGot(t, Got(m), u);
    } else {
      AsyncHandledGrows(t, [Got(m)] + u);
      assert t + [Got(m)] + u == t + ([Got(m)] + u);
    }
  }

  /** Enters the cancelled state because a generation change was noticed. */
  method EnterCancelled(s: SessionConnection, v: Wave, ghost t: Trace, ghost notices: Trace,
                        ghost origin: Trace, ghost base: nat, ghost lo: nat, ghost credits: nat, ghost file: Bytes)
    returns (r: Result<Wave>)
    requires WaveInv(v, t, base, lo, s.messageIds.next, file) && !v.cancelled
    requires s.trace == origin + (t + notices) && forall e :: e in notices ==> e.Noticed?
    requires Core(v.pending, v.done, t + notices, base, lo, s.messageIds.next) && notices != []
    requires Sound(s, t, lo, credits)
    modifies s`trace, s`sendsLeft
    ensures origin <= s.trace
    ensures r.Err? ==> Abandons(r.error) && s.Exhausted(r.error)
    ensures r.Ok? ==> Sound(s, s.trace[|origin|..], lo, credits)
    ensures r.Ok? ==>
              && WaveInv(r.value, s.trace[|origin|..], base, lo, s.messageIds.next, file)
              && r.value.cancelled && Lens(r.value.pending) == Lens(v.pending) && r.value.received == v.received
  {
    hide Core, Cancels, Uncancelled, WaveInv, Quiet, Honest, Complete, Lens, Ids, CancelFrames, MarkCancelled, Sound;
    ghost var hi := s.messageIds.next;
    WaveFacts(v, t, base, lo, hi, file);
    assert s.trace[|origin|..] == t + notices;
    QuietUncancelled(t, notices, v.pending);
    var sent, marked := SendCancelRequests(s, v.pending, v.done, origin, base, lo, hi);
    if sent.Err? {
      return Err(sent.error);
    }
    assert s.trace[|origin|..] == t + notices + CancelFrames(v.pending, v.done, |v.pending|);
    WaveCancelled(v, t, notices, marked, base, lo, hi, file);
    FramesOnlyCancel(v.pending, v.done, |v.pending|);
    ghost var frames := CancelFrames(v.pending, v.done, |v.pending|);
    assert t + notices + frames == t + (notices + frames);
    SoundGrows(s, t, notices + frames, lo, credits);
    return Ok(v.(pending := marked, cancelled := true));
  }

  lemma {:induction false} WaveFacts(v: Wave, t: Trace, base: nat, lo: nat, hi: nat, file: Bytes)
    requires WaveInv(v, t, base, lo, hi, file) && !v.cancelled
    ensures |v.done| == |v.pending| && Core(v.pending, v.done, t, base, lo, hi) && Quiet(t)
  {
    hide Core, Quiet, SlotsOk, SizesOk, Honest, Complete, Explained, ShortIsShort, DoneCount, Lens;
  }

  /** The wave after its bulk cancellation. */
  lemma {:induction false} WaveCancelled(v: Wave, t: Trace, notices: Trace, marked: seq<WaveRead>, base: nat, lo: nat, hi: nat, file: Bytes)
    requires WaveInv(v, t, base, lo, hi, file) && !v.cancelled && |v.done| == |v.pending|
    requires notices != [] && forall e :: e in notices ==> e.Noticed?
    requires marked == MarkCancelled(v.pending, v.done, |v.pending|)
    requires Core(marked, v.done, t + notices + CancelFrames(v.pending, v.done, |v.pending|), base, lo, hi)
    ensures WaveInv(v.(pending := marked, cancelled := true), t + notices + CancelFrames(v.pending, v.done, |v.pending|), base, lo, hi, file)
    ensures Lens(marked) == Lens(v.pending)
  {
    hide Core, Quiet, NoticeHandled, SlotsOk, SizesOk, Honest, Complete, Explained, ShortIsShort, DoneCount, CancelFrames;
    BulkHandles(t, notices, v.pending, v.done, base, lo, hi);
    FramesOnlyCancel(v.pending, v.done, |v.pending|);
    ExplainedNotice(v.status, t, notices, CancelFrames(v.pending, v.done, |v.pending|));
    assert Lens(marked) == Lens(v.pending);
  }

  lemma ExplainedNotice(status: Option<u32>, t: Trace, notices: Trace, frames: Trace)
    requires Explained(false, status, t) && notices != [] && forall e :: e in notices ==> e.Noticed?
    requires forall e :: e in frames ==> e.CancelSent?
    ensures Explained(true, status, t + notices + frames)
  {
    hide FirstDenial, Revoked;
    assert notices[0] in t + notices + frames && notices[0] in notices;
    DenialQuiet(t, notices, {STATUS_CANCELLED});
    DenialQuiet(t + notices, frames, {STATUS_CANCELLED});
  }

  function Earliest(short: Option<nat>, p: nat): nat {
    if short.Some? then Min(short.value, p) else p
  }

  /** The wave's reading of a final response. */
  function ConcludeWave(v: Wave, p: nat, m: Incoming): (r: Result<(Wave, Bytes)>)
    requires p < |v.pending| == |v.done| && v.pending[p].chunkLen > 0 && m.Message? && m.header.status.Status?
    ensures r.Err? ==> r.error == if m.body.ReadData? then Protocol(TooMuchData) else Wire
    ensures r.Err? ==> HasStatus(m, STATUS_SUCCESS) && (m.body.ReadData? ==> |m.body.data| > v.pending[p].chunkLen)
    ensures r.Ok? ==> WaveConcluded(v, p, m, r.value.0, r.value.1)
  {
    var code, chunk := m.header.status.code, v.pending[p].chunkLen;
    var v' := v.(received := v.received + 1);
    if code == STATUS_SUCCESS then
      if !m.body.ReadData? then Err(Wire)
      else if |m.body.data| > chunk then Err(Protocol(TooMuchData))
      else
        Ok((v'.(done := v.done[p := Some(m.body.data)],
                short := if |m.body.data| < chunk then Some(Earliest(v.short, p)) else v.short), m.body.data))
    else if code == STATUS_CANCELLED then Ok((v'.(done := v.done[p := Some([])], cancelled := true), []))
    else if code == STATUS_END_OF_FILE then
      Ok((v'.(done := v.done[p := Some([])], short := Some(Earliest(v.short, p))), []))
    else Ok((v'.(done := v.done[p := Some([])], status := if v.status.None? then Some(code) else v.status), []))
  }

  ghost predicate WaveConcluded(v: Wave, p: nat, m: Incoming, v': Wave, d: Bytes)
    requires p < |v.pending| == |v.done| && m.Message? && m.header.status.Status?
  {
    && v'.pending == v.pending && v'.received == v.received + 1
    && v'.done == v.done[p := Some(d)]
    && |d| <= v.pending[p].chunkLen
    && (v'.short == v.short || (|d| < v.pending[p].chunkLen && v'.short == Some(Earliest(v.short, p))))
    && v'.cancelled == (v.cancelled || HasStatus(m, STATUS_CANCELLED)) && v'.status == StatusAfter(v, m)
    && (!v'.cancelled && v'.status.None? ==>
          Payload(m) == Some(d) && (|d| < v.pending[p].chunkLen ==> v'.short == Some(Earliest(v.short, p))))
  }

  lemma {:induction false} NoticesGrow(cancelled: bool, cancelled': bool, t: Trace, m: Incoming)
    requires if cancelled then NoticeHandled(t) else Quiet(t)
    requires cancelled ==> cancelled'
    ensures if cancelled' then NoticeHandled(t + [Got(m)]) else Quiet(t + [Got(m)])
  {
    if cancelled {
      HandledGrows(t, Got(m));
    }
  }

  lemma {:induction false} WaveInterim(v: Wave, t: Trace, base: nat, lo: nat, hi: nat, file: Bytes, p: nat, m: Incoming, asyncId: u64)
    requires WaveInv(v, t, base, lo, hi, file) && p < |v.pending| && v.done[p].None?
    requires Answers(m, v.pending[p].messageId) && HasStatus(m, STATUS_PENDING)
    requires m.header.id == Async(asyncId) && (v.pending[p].asyncId.None? || v.pending[p].asyncId == Some(asyncId))
    ensures WaveInv(v.(pending := v.pending[p := v.pending[p].(asyncId := Some(asyncId))]), t + [Got(m)], base, lo, hi, file)
  {
    hide Core, NoticeHandled, Quiet, SlotsOk, SizesOk, Honest, Complete, Explained;
    ExplainedQuiet(v.cancelled, v.status, t, [Got(m)]);
    var pending' := v.pending[p := v.pending[p].(asyncId := Some(asyncId))];
    GotKeeps(v.pending, v.done, t, base, lo, hi, p, m, Some(asyncId), None);
    assert Lens(pending') == Lens(v.pending);
    NoticesGrow(v.cancelled, v.cancelled, t, m);
    if !v.cancelled && v.status.None? {
      FilledGrows(file, t, Got(m), base, Lens(v.pending), v.done, v.short);
    }
  }

  /** The late CANCEL of a READ that went async after the wave was cancelled. */
  lemma {:induction false} WaveLateCancel(v: Wave, t: Trace, base: nat, lo: nat, hi: nat, file: Bytes, p: nat)
    requires WaveInv(v, t, base, lo, hi, file) && p < |v.pending| && v.done[p].None?
    requires v.cancelled && !v.pending[p].asyncCancelSent && v.pending[p].asyncId.Some?
    ensures WaveInv(v.(pending := v.pending[p := v.pending[p].(asyncCancelSent := true)]),
                    t + [CancelSent(v.pending[p].messageId, v.pending[p].asyncId)], base, lo, hi, file)
  {
    hide Core, NoticeHandled, Quiet, SlotsOk, SizesOk, Honest, Complete, Explained;
    var r := v.pending[p];
    ExplainedQuiet(v.cancelled, v.status, t, [CancelSent(r.messageId, r.asyncId)]);
    CancelKeeps(v.pending, v.done, t, base, lo, hi, p);
    assert Lens(v.pending[p := r.(asyncCancelSent := true)]) == Lens(v.pending);
    HandledGrows(t, CancelSent(r.messageId, r.asyncId));
  }

  lemma {:induction false} WaveFinal(v: Wave, t: Trace, base: nat, lo: nat, hi: nat, file: Bytes, p: nat, m: Incoming,
                                     asyncId: Option<u64>, v': Wave, d: Bytes)
    requires WaveInv(v, t, base, lo, hi, file) && p < |v.pending| && v.done[p].None?
    requires Answers(m, v.pending[p].messageId) && m.header.status.Status? && !HasStatus(m, STATUS_PENDING)
    requires asyncId == if m.header.id.Async? then Some(m.header.id.asyncId) else v.pending[p].asyncId
    requires asyncId == v.pending[p].asyncId || (v.pending[p].asyncId.None? && asyncId.Some? && m.header.id == Async(asyncId.value))
    requires WaveConcluded(v, p, m, v', d)
    ensures WaveInv(v'.(pending := v.pending[p := v.pending[p].(asyncId := asyncId)]), t + [Got(m)], base, lo, hi, file)
  {
    hide Core, NoticeHandled, Quiet, SlotsOk, Honest, Complete, Payload, HasStatus, Start, Slice, ShortIsShort, SizesOk, DoneCount, Explained;
    var pending' := v.pending[p := v.pending[p].(asyncId := asyncId)];
    ReadOf(v, t, base, lo, hi, file, p);
    ExplainedGot(v, v', t, m);
    GotKeeps(v.pending, v.done, t, base, lo, hi, p, m, asyncId, Some(d));
    assert Lens(pending') == Lens(v.pending);
    ShortKept(Lens(v.pending), v.done, v.short, p, d, v'.short);
    SizesFilled(Lens(v.pending), v.done, v.short, p, d, v'.short);
    NoticesGrow(v.cancelled, v'.cancelled, t, m);
    DoneFill(v.done, p, d);
    if !v'.cancelled && v'.status.None? {
      FillFromAnswer(file, t, base, Lens(v.pending), v.done, v.short, p, v.pending[p].messageId, m, d, v'.short);
      assert Fill(v.done, p, d) == v'.done;
    }
  }

  lemma SizesFilled(lens: seq<nat>, done: Slots, short: Option<nat>, p: nat, d: Bytes, short': Option<nat>)
    requires |done| == |lens| && p < |lens|
    requires short' == short || short' == Some(Earliest(short, p))
    ensures SizesOk(lens, done, short) && |d| <= lens[p] && (|d| < lens[p] ==> short' == Some(Earliest(short, p)))
            ==> SizesOk(lens, done[p := Some(d)], short')
  {}

  lemma {:induction false} ReadOf(v: Wave, t: Trace, base: nat, lo: nat, hi: nat, file: Bytes, p: nat)
    requires WaveInv(v, t, base, lo, hi, file) && p < |v.pending|
    ensures ReadSent(v.pending[p].messageId, base + Start(Lens(v.pending), p), v.pending[p].chunkLen) in t
    ensures v.pending[p].chunkLen > 0
  {
    hide NoticeHandled, Quiet, SlotsOk, Honest, Complete, Finals, Cancels, Start, AllTimely;
    assert Sent(t, base, v.done, LayoutOf(v.pending), p);
  }

  /** Sends READs for one wave until depth, bytes or credits run out, or staleness is noticed. */
  method SendWave(s: SessionConnection, h: FileHandle, base: nat, remaining: nat, options: PipelinedReadOptions,
                  token: ReadCancellationToken, generation: nat, ghost lo: nat)
    returns (r: Result<()>, pending: seq<WaveRead>, ghost t: Trace, ghost notices: Trace)
    requires s.Valid() && lo == s.messageIds.next && token.generation >= generation
    requires options.chunkSize > 0 && options.maxInFlight > 0 && remaining > 0
    modifies s`trace, s`sendsLeft, s`leaked, s.credits, s.messageIds, token
    ensures s.Valid() && old(s.trace) <= s.trace && token.generation >= old(token.generation)
    ensures lo <= s.messageIds.next
    ensures r.Err? ==> Abandons(r.error) && s.Exhausted(r.error)
    ensures r.Ok? ==>
              && s.trace == old(s.trace) + (t + notices) && (forall e :: e in t ==> e.ReadSent?)
              && Paid(s, t, lo, old(s.credits.available))
              && Core(pending, Blank(|pending|), t, base, lo, s.messageIds.next) && Quiet(t)
              && (forall e :: e in notices ==> e.Noticed?)
              && (notices != [] ==> token.generation > generation)
              && Core(pending, Blank(|pending|), t + notices, base, lo, s.messageIds.next)
              && Start(Lens(pending), |pending|) <= remaining && |pending| <= options.maxInFlight
              && (notices == [] ==>
                    || |pending| == options.maxInFlight || Start(Lens(pending), |pending|) == remaining
                    || s.credits.available == 0 || s.maxReadSize == 0)
  {
    hide Core, Quiet, Start, Settles;
    NothingPaid(s);
    pending, t, notices := [], [], [];
    var scheduled := 0;
    EmptyWave(base, lo);
    while |pending| < options.maxInFlight && scheduled < remaining
      invariant s.Valid() && token.generation >= old(token.generation) && lo <= s.messageIds.next
      invariant s.trace == old(s.trace) + t && notices == [] && forall e :: e in t ==> e.ReadSent?
      invariant Core(pending, Blank(|pending|), t, base, lo, s.messageIds.next) && Quiet(t)
      invariant |pending| <= options.maxInFlight
      invariant scheduled == Start(Lens(pending), |pending|) <= remaining && Paid(s, t, lo, old(s.credits.available))
      decreases remaining - scheduled
    {
      var current := IsCurrent(s, token, generation);
      if !current {
        notices := [Noticed];
        NoticeKeeps(pending, Blank(|pending|), t, base, lo, s.messageIds.next);
        break;
      }
      if s.credits.available == 0 {
        break;
      }
      var plan := PlanChunk(s.multiCredit, s.credits.available, Min(options.chunkSize, s.maxReadSize), remaining - scheduled);
      if plan == Err(Protocol(ZeroChunk)) {
        break;
      }
      if plan.Err? {
        return Err(plan.error), pending, t, notices;
      }
      ghost var hi, window := s.messageIds.next, s.credits.available;
      var sent := SendRead(s, base + scheduled, plan.value.0, plan.value.1);
      if sent.Err? {
        return Err(sent.error), pending, t, notices;
      }
      var id, length := sent.value, plan.value.0;
      SendKeepsCore(pending, t, base, lo, hi, id, length, s.messageIds.next);
      QuietSend(t, id, base + scheduled, length);
      SettlesSend(s.multiCredit, t, id, base + scheduled, length, lo, old(s.credits.available), hi, window);
      StartSnoc(pending, WaveRead(id, length, None, false));
      pending := pending + [WaveRead(id, length, None, false)];
      t := t + [ReadSent(id, base + scheduled, length)];
      scheduled := scheduled + length;
    }
    assert t + [] == t;
    return Ok(()), pending, t, notices;
  }

  lemma EmptyWave(base: nat, lo: nat)
    ensures Core([], Blank(0), [], base, lo, lo) && Quiet([]) && Start(Lens([]), 0) == 0
  {}

  lemma QuietSend(t: Trace, id: u64, offset: nat, length: nat)
    requires Quiet(t)
    ensures Quiet(t + [ReadSent(id, offset, length)])
  {}

  lemma {:induction false} StartSnoc(pending: seq<WaveRead>, r: WaveRead)
    ensures Start(Lens(pending + [r]), |pending| + 1) == Start(Lens(pending), |pending|) + r.chunkLen
  {
    assert Lens(pending + [r]) == Lens(pending) + [r.chunkLen];
    StartAppend(Lens(pending), r.chunkLen, |pending|);
  }

  method Position(pending: seq<WaveRead>, id: u64) returns (p: Option<nat>)
    ensures p.Some? ==> p.value < |pending| && pending[p.value].messageId == id
                        && forall q :: 0 <= q < p.value ==> pending[q].messageId != id
    ensures p.None? ==> forall q :: 0 <= q < |pending| ==> pending[q].messageId != id
  {
    for q := 0 to |pending|
      invariant forall i :: 0 <= i < q ==> pending[i].messageId != id
    {
      if pending[q].messageId == id {
        return Some(q);
      }
    }
    return None;
  }

  /** An interim response: its READ learns the AsyncId, and after a cancellation gets the one CANCEL
      that carries it. */
  method AbsorbInterim(s: SessionConnection, v: Wave, p: nat, asyncId: u64, ghost origin: Trace, ghost t: Trace, ghost m: Incoming,
                       ghost base: nat, ghost lo: nat, ghost credits: nat, ghost file: Bytes)
    returns (r: Result<Wave>)
    requires origin <= s.trace && s.trace[|origin|..] == t + [Got(m)]
    requires WaveInv(v, t, base, lo, s.messageIds.next, file) && p < |v.pending| == |v.done| && v.done[p].None?
    requires Answers(m, v.pending[p].messageId) && HasStatus(m, STATUS_PENDING)
    requires m.header.id == Async(asyncId) && (v.pending[p].asyncId.None? || v.pending[p].asyncId == Some(asyncId))
    requires AsyncHandled(t) && AllGenuine(s, t) && s.Genuine(m) && Paid(s, t + [Got(m)], lo, credits)
    modifies s`trace, s`sendsLeft
    ensures origin <= s.trace
    ensures r.Ok? ==> Sound(s, s.trace[|origin|..], lo, credits)
    ensures r.Err? ==> Abandons(r.error) && s.Exhausted(r.error)
    ensures r.Ok? ==>
              && WaveInv(r.value, s.trace[|origin|..], base, lo, s.messageIds.next, file)
              && Lens(r.value.pending) == Lens(v.pending)
  {
    hide WaveInv, Lens, SessionConnection.Exhausted, SessionConnection.Genuine, AsyncHandled, AllGenuine, Sound, Settles, Cause;
    var request := v.pending[p];
    WaveNoticed(v, t, base, lo, s.messageIds.next, file, p);
    WaveInterim(v, t, base, lo, s.messageIds.next, file, p, m, asyncId);
    var w := v.(pending := v.pending[p := request.(asyncId := Some(asyncId))]);
    SameLens(v.pending, p, w.pending[p]);
    if v.cancelled && !request.asyncCancelSent {
      ghost var before := s.trace;
      var sent := SendCancelForMessageId(s, request.messageId, Some(asyncId));
      if sent.Err? {
        return Err(sent.error);
      }
      Suffix(origin, before, CancelSent(request.messageId, Some(asyncId)));
      WaveLateCancel(w, before[|origin|..], base, lo, s.messageIds.next, file, p);
      SameLens(w.pending, p, w.pending[p].(asyncCancelSent := true));
      w := w.(pending := w.pending[p := w.pending[p].(asyncCancelSent := true)]);
      SoundGot(s, t, m, [CancelSent(request.messageId, Some(asyncId))], lo, credits);
    } else {
      assert t + [Got(m)] + [] == t + [Got(m)] && t + [] == t;
      SoundGot(s, t, m, [], lo, credits);
    }
    return Ok(w);
  }

  /** A wave with a cause is cancelled, and a READ marked as cancelled by AsyncId was. */
  lemma {:induction false} WaveNoticed(v: Wave, t: Trace, base: nat, lo: nat, hi: nat, file: Bytes, p: nat)
    requires WaveInv(v, t, base, lo, hi, file) && p < |v.pending|
    ensures Cause(t) ==> v.cancelled
    ensures v.pending[p].asyncCancelSent ==>
              v.pending[p].asyncId.Some? && CancelSent(v.pending[p].messageId, v.pending[p].asyncId) in t
  {
    hide Recorded, Known, AllTimely, NoticeHandled, SlotsOk, SizesOk, ShortIsShort, Honest, Complete, Cause, FirstDenial, Cancels, DoneCount;
    assert Ledger(Cancels(t, v.pending[p].messageId), v.pending[p]);
    if v.pending[p].asyncCancelSent {
      CancelsIn(t, v.pending[p].messageId, v.pending[p].asyncId);
    }
  }

  lemma {:induction false} WaveEvents(v: Wave, t: Trace, base: nat, lo: nat, hi: nat, file: Bytes, m: Incoming)
    requires WaveInv(v, t, base, lo, hi, file)
    ensures (t + [Got(m)])[..|t|] == t && forall x :: x in t ==> Within(x, lo, hi)
  {
    hide Ledger, Known, AllTimely, NoticeHandled, Quiet, SlotsOk, SizesOk, ShortIsShort, Honest, Complete, Explained, Sent, DoneCount;
  }

  /** The READs still waiting are those of the wave without a result, each with the AsyncId it learned. */
  lemma {:induction false} WaveWaits(v: Wave, t: Trace, base: nat, lo: nat, hi: nat, file: Bytes, id: u64) returns (q: nat)
    requires WaveInv(v, t, base, lo, hi, file) && IsReadId(t, id)
    ensures q < |v.pending| == |v.done| && v.pending[q].messageId == id && v.pending[q].asyncId == Learned(t, id)
    ensures Finals(t, id) == if v.done[q].Some? then 1 else 0
  {
    hide Ledger, AllTimely, NoticeHandled, Quiet, SlotsOk, SizesOk, ShortIsShort, Honest, Complete, Explained, Finals, Learned, Start, DoneCount;
    var o, l :| ReadSent(id, o, l) in t;
    q :| 0 <= q < |v.pending| && Ids(v.pending)[q] == id;
    assert Sent(t, base, v.done, LayoutOf(v.pending), q) && Known(t, v.pending[q]);
  }

  lemma WaveRefusesMessage(s: SessionConnection, h: FileHandle, v: Wave, t: Trace, base: nat, lo: nat, file: Bytes, m: Incoming, e: ClientError)
    requires WaveInv(v, t, base, lo, s.messageIds.next, file)
    requires
      || (e == Wire && (m.Malformed? || (HasStatus(m, STATUS_SUCCESS) && !m.body.ReadData?)))
      || (e == Protocol(CreditOverflow) && m.Message? && s.credits.available + m.header.credits > U32_MAX)
      || (e == Protocol(BadSignature) && m.Message? && !s.Genuine(m))
    ensures Refused(s, h, t + [Got(m)], e, lo)
  {
    hide WaveInv, NoTaker, Unfinished, Exceeds, SessionConnection.Genuine;
    WaveEvents(v, t, base, lo, s.messageIds.next, file, m);
  }

  lemma WaveRefusesUnknown(s: SessionConnection, h: FileHandle, v: Wave, t: Trace, base: nat, lo: nat, file: Bytes, m: Incoming)
    requires WaveInv(v, t, base, lo, s.messageIds.next, file) && m.Message?
    requires forall q :: 0 <= q < |v.pending| ==> v.pending[q].messageId != m.header.messageId
    ensures Refused(s, h, t + [Got(m)], Protocol(NotOutstanding), lo)
  {
    hide WaveInv, IsReadId;
    WaveEvents(v, t, base, lo, s.messageIds.next, file, m);
    if IsReadId(t, m.header.messageId) {
      var q := WaveWaits(v, t, base, lo, s.messageIds.next, file, m.header.messageId);
    }
  }

  lemma WaveRefusesSecond(s: SessionConnection, h: FileHandle, v: Wave, t: Trace, base: nat, lo: nat, file: Bytes, m: Incoming, p: nat)
    requires WaveInv(v, t, base, lo, s.messageIds.next, file) && m.Message?
    requires p < |v.pending| == |v.done| && v.done[p].Some? && v.pending[p].messageId == m.header.messageId
    ensures Refused(s, h, t + [Got(m)], Protocol(DuplicateFinal), lo)
  {
    hide Core, SlotsOk, SizesOk, ShortIsShort, Honest, Complete, Explained, NoticeHandled, Quiet, DoneCount, Finals, NoTaker;
    WaveEvents(v, t, base, lo, s.messageIds.next, file, m);
    ReadOf(v, t, base, lo, s.messageIds.next, file, p);
    WaveFinished(v, t, base, lo, s.messageIds.next, file, p);
  }

  lemma {:induction false} WaveFinished(v: Wave, t: Trace, base: nat, lo: nat, hi: nat, file: Bytes, p: nat)
    requires WaveInv(v, t, base, lo, hi, file) && p < |v.pending| == |v.done| && v.done[p].Some?
    ensures Finals(t, v.pending[p].messageId) == 1
  {
    hide Ledger, Known, AllTimely, NoticeHandled, Quiet, SlotsOk, SizesOk, ShortIsShort, Honest, Complete, Explained, Finals, Start, DoneCount;
    assert Sent(t, base, v.done, LayoutOf(v.pending), p);
  }

  lemma WaveRefusesHeader(s: SessionConnection, h: FileHandle, v: Wave, t: Trace, base: nat, lo: nat, file: Bytes, m: Incoming, p: nat)
    requires WaveInv(v, t, base, lo, s.messageIds.next, file) && m.Message?
    requires p < |v.pending| == |v.done| && v.pending[p].messageId == m.header.messageId
    requires forall q :: 0 <= q < p ==> v.pending[q].messageId != m.header.messageId
    requires Validate(v.pending[p].asyncId, Expected(Read, h.treeId, s.sessionId, m.header.messageId), m.header).Err?
    ensures Refused(s, h, t + [Got(m)], Protocol(BadHeader), lo)
  {
    hide WaveInv, IsReadId, Learned, Finals;
    WaveEvents(v, t, base, lo, s.messageIds.next, file, m);
    forall id: u64 | Unfinished(t, id)
      ensures Validate(Learned(t, id), Expected(Read, h.treeId, s.sessionId, id), m.header).Err?
    {
      var q := WaveWaits(v, t, base, lo, s.messageIds.next, file, id);
      if id == m.header.messageId {
        OnePosition(v, t, base, lo, s.messageIds.next, file, p, q);
      }
    }
  }

  lemma {:induction false} OnePosition(v: Wave, t: Trace, base: nat, lo: nat, hi: nat, file: Bytes, p: nat, q: nat)
    requires WaveInv(v, t, base, lo, hi, file) && p < |v.pending| && q < |v.pending| && v.pending[p].messageId == v.pending[q].messageId
    ensures p == q
  {
    hide Recorded, Ledger, Known, AllTimely, NoticeHandled, Quiet, SlotsOk, SizesOk, ShortIsShort, Honest, Complete, Explained, DoneCount;
  }

  lemma WaveRefusesExcess(s: SessionConnection, h: FileHandle, v: Wave, t: Trace, base: nat, lo: nat, file: Bytes, m: Incoming, p: nat)
    requires WaveInv(v, t, base, lo, s.messageIds.next, file)
    requires HasStatus(m, STATUS_SUCCESS) && m.body.ReadData?
    requires p < |v.pending| && v.pending[p].messageId == m.header.messageId && |m.body.data| > v.pending[p].chunkLen
    ensures Refused(s, h, t + [Got(m)], Protocol(TooMuchData), lo)
  {
    hide WaveInv, NoTaker, Unfinished;
    WaveEvents(v, t, base, lo, s.messageIds.next, file, m);
    ReadOf(v, t, base, lo, s.messageIds.next, file, p);
  }

  /** Takes the next response of the wave; a READ going async after the wave was cancelled gets
      the one CANCEL that carries its AsyncId. */
  method TakeWaveResponse(s: SessionConnection, h: FileHandle, v: Wave, ghost origin: Trace, ghost base: nat,
                          ghost lo: nat, ghost credits: nat, ghost file: Bytes)
    returns (r: Result<Wave>)
    requires s.Valid() && origin <= s.trace
    requires WaveInv(v, s.trace[|origin|..], base, lo, s.messageIds.next, file)
    requires Sound(s, s.trace[|origin|..], lo, credits)
    modifies s`inbox, s`trace, s`sendsLeft, s.credits
    ensures s.Valid() && origin <= s.trace && |s.inbox| <= |old(s.inbox)|
    ensures r.Err? ==> Abandons(r.error) && Excused(s, h, s.trace[|origin|..], r.error, lo)
    ensures r.Ok? ==> Sound(s, s.trace[|origin|..], lo, credits)
    ensures r.Ok? ==>
              && |s.inbox| < |old(s.inbox)|
              && WaveInv(r.value, s.trace[|origin|..], base, lo, s.messageIds.next, file)
              && Lens(r.value.pending) == Lens(v.pending)
  {
    hide WaveInv, WaveConcluded, Honest, Complete, Validate, Lens, ConcludeWave, SessionConnection.Valid, SessionConnection.Genuine,
         Refused, AsyncHandled, AllGenuine, Settles;
    ghost var t := s.trace[|origin|..];
    ghost var hi := s.messageIds.next;
    var got := s.Receive();
    if got.Err? {
      return Err(got.error);
    }
    var m := got.value;
    assert s.trace[|origin|..] == t + [Got(m)];
    if m.Malformed? {
      WaveRefusesMessage(s, h, v, t, base, lo, file, m, Wire);
      return Err(Wire);
    }
    var found := Position(v.pending, m.header.messageId);
    if found.None? {
      WaveRefusesUnknown(s, h, v, t, base, lo, file, m);
      return Err(Protocol(NotOutstanding));
    }
    var p := found.value;
    WaveSizes(v, t, base, lo, hi, file, p);
    if v.done[p].Some? {
      WaveRefusesSecond(s, h, v, t, base, lo, file, m, p);
      return Err(Protocol(DuplicateFinal));
    }
    var request := v.pending[p];
    var phase := Validate(request.asyncId, Expected(Read, h.treeId, s.sessionId, request.messageId), m.header);
    if phase.Err? {
      WaveRefusesHeader(s, h, v, t, base, lo, file, m, p);
      return Err(phase.error);
    }
    ValidateFacts(request.asyncId, Expected(Read, h.treeId, s.sessionId, request.messageId), m.header);
    var settled := s.Settle(m.header, phase.value.0);
    SettledIsGenuine(s, m, phase.value.0);
    if settled.Err? {
      WaveRefusesMessage(s, h, v, t, base, lo, file, m, settled.error);
      return Err(settled.error);
    }
    SettlesGot(s.multiCredit, t, m, lo, credits, hi, old(s.credits.available));
    var asyncId := phase.value.1;
    if phase.value.0 == InterimPending {
      r := AbsorbInterim(s, v, p, asyncId.value, origin, t, m, base, lo, credits, file);
      return;
    }
    var concluded := ConcludeWave(v, p, m);
    if concluded.Err? {
      if m.body.ReadData? {
        WaveRefusesExcess(s, h, v, t, base, lo, file, m, p);
      } else {
        WaveRefusesMessage(s, h, v, t, base, lo, file, m, Wire);
      }
      return Err(concluded.error);
    }
    assert t + [Got(m)] + [] == t + [Got(m)];
    SoundGot(s, t, m, [], lo, credits);
    var (v', d) := concluded.value;
    WaveConcludedFacts(v, p, m, v', d);
    WaveFinal(v, t, base, lo, hi, file, p, m, asyncId, v', d);
    var w := v'.(pending := v.pending[p := request.(asyncId := asyncId)]);
    SameLens(v.pending, p, w.pending[p]);
    return Ok(w);
  }

  /** The signature check of `Settle` is the session's idea of an authentic message. */
  lemma SettledIsGenuine(s: SessionConnection, m: Incoming, phase: Phase)
    requires m.Message? && (phase == InterimPending <==> HasStatus(m, STATUS_PENDING))
    ensures s.Genuine(m) <==>
              if m.header.signed then s.hasSigningKey && m.header.macValid else !RequiresSignature(phase, s.signingRequired)
  {}

  lemma {:induction false} WaveSizes(v: Wave, t: Trace, base: nat, lo: nat, hi: nat, file: Bytes, p: nat)
    requires WaveInv(v, t, base, lo, hi, file) && p < |v.pending|
    ensures |v.done| == |v.pending| && v.pending[p].chunkLen > 0
  {
    hide Recorded, Ledger, Known, AllTimely, NoticeHandled, Quiet, SlotsOk, Honest, Complete;
  }

  lemma SameLens(pending: seq<WaveRead>, p: nat, r: WaveRead)
    requires p < |pending| && r.chunkLen == pending[p].chunkLen
    ensures Lens(pending[p := r]) == Lens(pending)
  {}

  lemma WaveConcludedFacts(v: Wave, p: nat, m: Incoming, v': Wave, d: Bytes)
    requires m.Message? && m.header.status.Status? && p < |v.pending| == |v.done| && WaveConcluded(v, p, m, v', d)
    ensures v'.pending == v.pending
  {}

  /** Drains the wave: returns only once every READ of the wave has its final response. While not
      cancelled, waiting races the next message against a generation change. */
  method DrainWave(s: SessionConnection, h: FileHandle, start: Wave, token: ReadCancellationToken, generation: nat,
                   ghost origin: Trace, ghost base: nat, ghost lo: nat, ghost credits: nat, ghost file: Bytes)
    returns (r: Result<Wave>)
    requires s.Valid() && origin <= s.trace && token.generation >= generation
    requires WaveInv(start, s.trace[|origin|..], base, lo, s.messageIds.next, file) && start.pending != []
    requires start.received == 0 && Sound(s, s.trace[|origin|..], lo, credits)
    modifies s`inbox, s`trace, s`sendsLeft, s.credits, token
    ensures s.Valid() && origin <= s.trace && |s.inbox| <= |old(s.inbox)|
    ensures token.generation >= old(token.generation)
    ensures r.Err? ==> Abandons(r.error) && Excused(s, h, s.trace[|origin|..], r.error, lo)
    ensures r.Ok? ==> Sound(s, s.trace[|origin|..], lo, credits)
    ensures r.Ok? ==>
              && |s.inbox| < |old(s.inbox)|
              && WaveInv(r.value, s.trace[|origin|..], base, lo, s.messageIds.next, file)
              && r.value.received >= |r.value.pending|
              && Lens(r.value.pending) == Lens(start.pending)
  {
    hide WaveInv, Honest, Complete, Sound, Refused;
    var v := start;
    while v.received < |v.pending|
      invariant s.Valid() && origin <= s.trace && |s.inbox| <= |old(s.inbox)|
      invariant token.generation >= old(token.generation)
      invariant WaveInv(v, s.trace[|origin|..], base, lo, s.messageIds.next, file)
      invariant Sound(s, s.trace[|origin|..], lo, credits)
      invariant Lens(v.pending) == Lens(start.pending) && |v.pending| == |start.pending|
      invariant v.received == 0 || |s.inbox| < |old(s.inbox)|
      decreases |s.inbox|, !v.cancelled
    {
      ghost var before := s.trace;
      var interrupted := false;
      if !v.cancelled {
        // The race of the next message against a generation change: whichever is ready may win.
        var pickChange: bool := *;
        var current := true;
        if pickChange {
          current := IsCurrent(s, token, generation);
        }
        interrupted := !current;
      }
      if interrupted {
        WaveNotice(v, before[|origin|..], base, lo, s.messageIds.next, file);
        assert s.trace == origin + (before[|origin|..] + [Noticed]);
        var entered := EnterCancelled(s, v, before[|origin|..], [Noticed], origin, base, lo, credits, file);
        if entered.Err? {
          return Err(entered.error);
        }
        v := entered.value;
      } else {
        assert s.trace == before;
        var taken := TakeWaveResponse(s, h, v, origin, base, lo, credits, file);
        if taken.Err? {
          return Err(taken.error);
        }
        v := taken.value;
      }
    }
    return Ok(v);
  }

  lemma {:induction false} WaveNotice(v: Wave, t: Trace, base: nat, lo: nat, hi: nat, file: Bytes)
    requires WaveInv(v, t, base, lo, hi, file)
    ensures Core(v.pending, v.done, t + [Noticed], base, lo, hi)
  {
    hide Core;
    NoticeKeeps(v.pending, v.done, t, base, lo, hi);
  }

  lemma {:induction false} WaveStarts(pending: seq<WaveRead>, t: Trace, base: nat, lo: nat, hi: nat, file: Bytes)
    requires Core(pending, Blank(|pending|), t, base, lo, hi) && Quiet(t) && forall e :: e in t ==> e.ReadSent?
    ensures WaveInv(Wave(pending, Blank(|pending|), None, None, false, 0), t, base, lo, hi, file)
  {
    hide Core, Quiet, Honest, Complete, Start, Slice, FirstDenial;
    DoneBlank(|pending|);
    assert [] + t == t;
    DenialQuiet([], t, {STATUS_CANCELLED});
    NoDenial({STATUS_CANCELLED});
  }

  lemma NoDenial(spared: set<u32>)
    ensures FirstDenial([], spared) == None
  {}

  /** What a drained wave established, by how it ended. */
  lemma {:induction false} WaveEnds(v: Wave, t: Trace, base: nat, lo: nat, hi: nat, file: Bytes)
    requires WaveInv(v, t, base, lo, hi, file) && v.received >= |v.pending| && AsyncHandled(t)
    ensures TallyOf(t).sent == TallyOf(t).answered && TallyOf(t).peak <= |v.pending|
    ensures CancelContract(t, lo, hi) && Closed(t, lo, hi) && Disciplined(t)
    ensures !v.cancelled ==> Quiet(t)
    ensures (v.cancelled <==> Cause(t)) && v.status == FirstDenial(t, {STATUS_CANCELLED})
    ensures |v.done| == |v.pending| && forall p :: 0 <= p < |v.done| ==> v.done[p].Some?
    ensures TakeCount(v.done, v.short) <= |v.done|
  {
    hide Core, SlotsOk, Honest, Complete, Start, Closed, Disciplined, DoneCount, Cause, FirstDenial, AsyncHandled, TallyOf;
    DoneAll(v.done);
    CoreCounts(v.pending, v.done, t, base, lo, hi);
    CoreDone(v.pending, v.done, t, base, lo, hi);
  }

  /** A notice after everything was drained changes nothing that matters. */
  lemma {:induction false} LateNotice(t: Trace, lo: nat, hi: nat)
    requires Closed(t, lo, hi) && Disciplined(t) && Quiet(t) && AsyncHandled(t)
    ensures CancelContract(t + [Noticed], lo, hi)
  {
    hide Finals, Cancels, Timely, CancelShape, Learned, AsyncHandled;
    AsyncHandledGrows(t, [Noticed]);
    var u := t + [Noticed];
    forall id: u64 ensures Finals(u, id) == Finals(t, id) && Cancels(u, id) == Cancels(t, id) {
      Snoc(t, Noticed, id);
    }
    TimelyAppend(t, Noticed);
    assert u[..|t|] == t;
    forall id, o, l | ReadSent(id, o, l) in u ensures HandledAt(u, |t|, id) {
      assert Finals(t, id) == 1;
    }
  }

  lemma {:induction false} WaveData(v: Wave, t: Trace, base: nat, lo: nat, hi: nat, file: Bytes)
    requires WaveInv(v, t, base, lo, hi, file) && !v.cancelled && v.status.None?
    requires |v.done| == |v.pending| && forall p :: 0 <= p < |v.done| ==> v.done[p].Some?
    requires TakeCount(v.done, v.short) <= |v.done|
    ensures ReadAt.Answered(file, base, Start(Lens(v.pending), |v.pending|), Assembled(v.done, TakeCount(v.done, v.short)), t)
    ensures v.short.None? <==> |Assembled(v.done, TakeCount(v.done, v.short))| == Start(Lens(v.pending), |v.pending|)
  {
    hide Core, SlotsOk, SizesOk, Honest, Complete, Start, Slice, DoneCount, Assembled;
    AssembledSize(Lens(v.pending), v.done, v.short);
    if Complete(file, t) {
      CompleteIsHonest(file, t);
    }
    if Honest(file, t) {
      AssembledSlice(file, base, Lens(v.pending), v.done, v.short, Complete(file, t));
    }
  }

  /** One wave: send, then drain. An Ok result is the wave's data and the bytes it asked for. */
  method RunWave(s: SessionConnection, h: FileHandle, base: nat, remaining: nat, options: PipelinedReadOptions,
                 token: ReadCancellationToken, generation: nat, ghost file: Bytes)
    returns (r: Result<Bytes>, scheduled: nat)
    requires s.Valid() && token.generation >= generation
    requires options.chunkSize > 0 && options.maxInFlight > 0 && remaining > 0
    modifies s`inbox, s`trace, s`sendsLeft, s`leaked, s.credits, s.messageIds, token
    ensures s.Valid() && old(s.trace) <= s.trace && |s.inbox| <= |old(s.inbox)|
    ensures token.generation >= old(token.generation)
    ensures r.Err? ==> r.error == Cancelled || r.error == Protocol(NoCredits) || r.error.ServerStatus? || Abandons(r.error)
    ensures r.Err? && !r.error.ServerStatus? && r.error != Cancelled ==>
              Excused(s, h, s.trace[|old(s.trace)|..], r.error, old(s.messageIds.next))
    ensures old(s.messageIds.next) <= s.messageIds.next
    ensures r.Ok? ==> AllGenuine(s, s.trace[|old(s.trace)|..]) && token.generation == generation
    ensures Settled(r) ==> Paid(s, s.trace[|old(s.trace)|..], old(s.messageIds.next), old(s.credits.available))
    ensures Settled(r) ==> InFlight(s.trace[|old(s.trace)|..], options.maxInFlight)
    ensures r == Err(Cancelled) ==> Cause(s.trace[|old(s.trace)|..])
    ensures r.Err? && r.error.ServerStatus? ==> FirstDenial(s.trace[|old(s.trace)|..], {STATUS_CANCELLED}) == Some(r.error.status)
    ensures r.Ok? || r.error.ServerStatus? ==> !Cause(s.trace[|old(s.trace)|..])
    ensures r.Ok? ==> FirstDenial(s.trace[|old(s.trace)|..], {STATUS_CANCELLED}) == None
    ensures Settled(r) ==> CancelContract(s.trace[|old(s.trace)|..], old(s.messageIds.next), s.messageIds.next)
    ensures r.Ok? ==>
              && |s.inbox| < |old(s.inbox)|
              && Quiet(s.trace[|old(s.trace)|..])
              && scheduled <= remaining
              && ReadAt.Answered(file, base, scheduled, r.value, s.trace[|old(s.trace)|..])
  {
    hide WaveInv, Core, Quiet, Closed, Disciplined, NoticeHandled, AsyncHandled, AllGenuine, Settles, Refused,
         TallyOf, DoneCount, Honest, Complete, Start, Lens, ReadAt.Answered, Cause, FirstDenial, CancelContract, SessionConnection.Valid, Assembled, Blank;
    ghost var origin, lo, credits := s.trace, s.messageIds.next, s.credits.available;
    scheduled := 0;
    var sent, pending, t, notices := SendWave(s, h, base, remaining, options, token, generation, lo);
    if sent.Err? {
      return Err(sent.error), scheduled;
    }
    assert s.trace[|origin|..] == t + notices;
    SoundReads(s, t, lo, credits);
    ghost var before := s.trace;
    var current := IsCurrent(s, token, generation);
    if pending == [] {
      EmptyWave(base, lo);
      if !current {
        assert s.trace[|origin|..] == t + notices + [Noticed];
        NoticeKeeps([], Blank(0), t + notices, base, lo, s.messageIds.next);
        SoundGrows(s, t, notices + [Noticed], lo, credits);
        assert t + notices + [Noticed] == t + (notices + [Noticed]);
        NothingSent(t + notices + [Noticed], base, lo, s.messageIds.next);
        CoreCounts([], Blank(0), t + notices + [Noticed], base, lo, s.messageIds.next);
        DoneBlank(0);
        NoticedCause(t + notices);
        return Err(Cancelled), scheduled;
      }
      assert notices == [] && t + notices == t && s.trace[|origin|..] == t;
      NothingSent(t, base, lo, s.messageIds.next);
      CoreCounts([], Blank(0), t, base, lo, s.messageIds.next);
      DoneBlank(0);
      return Err(Protocol(NoCredits)), scheduled;
    }
    WaveStarts(pending, t, base, lo, s.messageIds.next, file);
    var v := Wave(pending, Blank(|pending|), None, None, false, 0);
    if !current {
      NoticeKeeps(pending, v.done, t + notices, base, lo, s.messageIds.next);
      assert (t + notices) + [Noticed] == t + (notices + [Noticed]);
      assert s.trace == origin + (t + (notices + [Noticed]));
      var entered := EnterCancelled(s, v, t, notices + [Noticed], origin, base, lo, credits, file);
      if entered.Err? {
        return Err(entered.error), scheduled;
      }
      v := entered.value;
    } else {
      assert notices == [] && s.trace[|origin|..] == t;
    }
    r, scheduled := EndWave(s, h, v, remaining, token, generation, origin, base, lo, credits, file);
  }

  /** Everything sent was answered, and at no time were more than `depth` READs in flight. */
  ghost predicate InFlight(t: Trace, depth: nat) { TallyOf(t).sent == TallyOf(t).answered && TallyOf(t).peak <= depth }

  lemma InFlightLate(t: Trace, depth: nat)
    requires InFlight(t, depth)
    ensures InFlight(t + [Noticed], depth)
  {
    TallySnoc(t, Noticed);
  }

  lemma InFlightConcat(t: Trace, u: Trace, depth: nat)
    requires InFlight(t, depth) && InFlight(u, depth)
    ensures InFlight(t + u, depth)
  {
    TallyConcat(t, u);
  }

  /** Drains a wave that was sent, and reads its outcome off it. */
  method EndWave(s: SessionConnection, h: FileHandle, start: Wave, remaining: nat, token: ReadCancellationToken, generation: nat,
                 ghost origin: Trace, ghost base: nat, ghost lo: nat, ghost credits: nat, ghost file: Bytes)
    returns (r: Result<Bytes>, scheduled: nat)
    requires s.Valid() && origin <= s.trace && token.generation >= generation && lo <= s.messageIds.next
    requires WaveInv(start, s.trace[|origin|..], base, lo, s.messageIds.next, file) && start.pending != []
    requires start.received == 0 && Sound(s, s.trace[|origin|..], lo, credits)
    requires Start(Lens(start.pending), |start.pending|) <= remaining
    modifies s`inbox, s`trace, s`sendsLeft, s.credits, token
    ensures s.Valid() && origin <= s.trace && |s.inbox| <= |old(s.inbox)| && token.generation >= old(token.generation)
    ensures r.Err? ==> r.error == Cancelled || r.error.ServerStatus? || (Abandons(r.error) && Excused(s, h, s.trace[|origin|..], r.error, lo))
    ensures r == Err(Cancelled) ==> Cause(s.trace[|origin|..])
    ensures r.Err? && r.error.ServerStatus? ==> FirstDenial(s.trace[|origin|..], {STATUS_CANCELLED}) == Some(r.error.status)
    ensures r.Ok? || r.error.ServerStatus? ==> !Cause(s.trace[|origin|..])
    ensures r.Ok? ==> FirstDenial(s.trace[|origin|..], {STATUS_CANCELLED}) == None
    ensures Settled(r) ==> CancelContract(s.trace[|origin|..], lo, s.messageIds.next) && Sound(s, s.trace[|origin|..], lo, credits)
    ensures Settled(r) ==> InFlight(s.trace[|origin|..], |start.pending|)
    ensures r.Ok? ==>
              && token.generation == generation
              && |s.inbox| < |old(s.inbox)|
              && Quiet(s.trace[|origin|..])
              && scheduled <= remaining
              && ReadAt.Answered(file, base, scheduled, r.value, s.trace[|origin|..])
  {
    hide WaveInv, Core, Quiet, Closed, Disciplined, NoticeHandled, AsyncHandled, AllGenuine, Settles, Refused, Honest, Complete, Start,
         TallyOf, ReadAt.Answered, Cause, FirstDenial, CancelContract, SessionConnection.Valid, Assembled, Lens;
    scheduled := 0;
    var v := start;
    var drained := DrainWave(s, h, v, token, generation, origin, base, lo, credits, file);
    if drained.Err? {
      return Err(drained.error), scheduled;
    }
    v := drained.value;
    ghost var u := s.trace[|origin|..];
    WaveEnds(v, u, base, lo, s.messageIds.next, file);
    if v.cancelled {
      return Err(Cancelled), scheduled;
    }
    var current := IsCurrent(s, token, generation);
    if !current {
      assert s.trace[|origin|..] == u + [Noticed];
      LateNotice(u, lo, s.messageIds.next);
      SoundGrows(s, u, [Noticed], lo, credits);
      InFlightLate(u, |start.pending|);
      NoticedCause(u);
      return Err(Cancelled), scheduled;
    }
    assert s.trace[|origin|..] == u;
    if v.status.Some? {
      return Err(ServerStatus(v.status.value)), scheduled;
    }
    WaveData(v, u, base, lo, s.messageIds.next, file);
    var data := Concatenate(v.done, TakeCount(v.done, v.short));
    scheduled := Total(v.pending);
    return Ok(data), scheduled;
  }

  lemma OnlyReads(s: SessionConnection, t: Trace)
    requires forall e :: e in t ==> e.ReadSent?
    ensures AsyncHandled(t) && AllGenuine(s, t)
  {
    assert forall j :: 0 <= j < |t| ==> t[j] in t;
  }

  lemma NoticedCause(t: Trace)
    ensures Cause(t + [Noticed])
  {
    assert Noticed in t + [Noticed];
  }

  /** What every settled cancellable read leaves in the history. */
  ghost predicate CancelContract(t: Trace, lo: nat, hi: nat) {
    Closed(t, lo, hi) && Disciplined(t) && NoticeHandled(t) && AsyncHandled(t)
  }

  /** A wave that found nothing to send leaves nothing to cancel or drain. */
  lemma {:induction false} NothingSent(t: Trace, base: nat, lo: nat, hi: nat)
    requires Core([], Blank(0), t, base, lo, hi) && AsyncHandled(t)
    ensures CancelContract(t, lo, hi)
  {
    hide Finals, Cancels, Start, AllTimely, Disciplined, Ledger, HandledAt, AsyncHandled, Counted;
    CoreDone([], Blank(0), t, base, lo, hi);
    assert Ids([]) == [];
  }

  method Total(pending: seq<WaveRead>) returns (sum: nat)
    ensures sum == Start(Lens(pending), |pending|)
  {
    sum := 0;
    for p := 0 to |pending|
      invariant sum == Start(Lens(pending), p)
    {
      sum := sum + pending[p].chunkLen;
    }
  }

  lemma {:induction false} ContractConcat(t: Trace, u: Trace, lo: nat, mid: nat, hi: nat)
    requires CancelContract(t, lo, mid) && Quiet(t) && !Cause(t) && CancelContract(u, mid, hi)
    ensures CancelContract(t + u, lo, hi)
    ensures Quiet(u) ==> Quiet(t + u)
    ensures Cause(t + u) <==> Cause(u)
    ensures FirstDenial(t, {STATUS_CANCELLED}) == None ==>
              FirstDenial(t + u, {STATUS_CANCELLED}) == FirstDenial(u, {STATUS_CANCELLED})
  {
    hide Disciplined, NoticeHandled, Closed, AsyncHandled, Cause, FirstDenial;
    ClosedConcat(t, u, lo, mid, hi);
    DisciplinedConcat(t, u, lo, mid, hi);
    CloseOwn(t, lo, mid);
    CloseOwn(u, mid, hi);
    CauseConcat(t, u, lo, mid, hi);
    DenialConcat(t, u, lo, mid, hi, {STATUS_CANCELLED});
    NoticeConcat(t, u, lo, mid, hi);
    assert Noticed !in t;
    AsyncHandledConcat(t, u, lo, mid, hi);
  }

  lemma CloseOwn(t: Trace, lo: nat, hi: nat)
    requires Closed(t, lo, hi)
    ensures forall e :: e in t ==> Within(e, lo, hi)
  {}

  lemma {:induction false} ContractLate(t: Trace, lo: nat, hi: nat)
    requires CancelContract(t, lo, hi) && Quiet(t)
    ensures CancelContract(t + [Noticed], lo, hi)
  {
    hide Disciplined, NoticeHandled, Closed, Quiet, AsyncHandled;
    LateNotice(t, lo, hi);
  }

  lemma EmptyContract(lo: nat)
    ensures CancelContract([], lo, lo) && Quiet([]) && !Cause([]) && FirstDenial([], {STATUS_CANCELLED}) == None
  {}

  /** Reads in waves until done, short or stale. An Ok result meets the same contract as the
      sequential and sliding-window reads; Ok, server-status and cancelled outcomes leave nothing
      outstanding and only disciplined CANCELs behind. */
  method ReadAtPipelinedCancelable(s: SessionConnection, h: FileHandle, offset: u64, length: nat,
                                   options: PipelinedReadOptions, token: ReadCancellationToken, generation: nat,
                                   ghost file: Bytes)
    returns (r: Result<Bytes>)
    requires s.Valid()
    modifies s`inbox, s`trace, s`sendsLeft, s`leaked, s.credits, s.messageIds, token
    ensures Target(h, offset, length) == 0 ==> s.trace == old(s.trace) && r == Ok([])
    ensures Target(h, offset, length) > 0 && (s.encrypted || options.chunkSize == 0 || options.maxInFlight == 0) ==>
              s.trace == old(s.trace) && r.Err? && r.error in {Protocol(Encrypted), Protocol(BadOptions)}
    ensures Target(h, offset, length) > 0 && generation < old(token.generation) ==>
              r.Err? && old(s.trace) <= s.trace && forall e :: e in s.trace[|old(s.trace)|..] ==> e.Noticed?
    ensures s.Valid() && old(s.trace) <= s.trace && token.generation >= old(token.generation)
    ensures r.Err? ==> r.error == Cancelled || r.error == Protocol(NoCredits) || r.error.ServerStatus? || Abandons(r.error)
    ensures r.Err? && !r.error.ServerStatus? && r.error != Cancelled ==>
              Excused(s, h, s.trace[|old(s.trace)|..], r.error, old(s.messageIds.next))
              || (r.error == Protocol(BadOptions) && (options.chunkSize == 0 || options.maxInFlight == 0))
    ensures r == Err(Cancelled) ==> Cause(s.trace[|old(s.trace)|..])
    ensures r.Err? && r.error.ServerStatus? ==> FirstDenial(s.trace[|old(s.trace)|..], {STATUS_CANCELLED}) == Some(r.error.status)
    ensures r.Ok? || r.error.ServerStatus? ==> !Cause(s.trace[|old(s.trace)|..])
    ensures r.Ok? ==> FirstDenial(s.trace[|old(s.trace)|..], {STATUS_CANCELLED}) == None
    ensures Settled(r) ==> CancelContract(s.trace[|old(s.trace)|..], old(s.messageIds.next), s.messageIds.next)
                           && Paid(s, s.trace[|old(s.trace)|..], old(s.messageIds.next), old(s.credits.available))
                           && InFlight(s.trace[|old(s.trace)|..], options.maxInFlight)
    ensures r.Ok? ==> Refines(file, h, offset, length, r.value, s.trace[|old(s.trace)|..])
    ensures r.Ok? ==> AllGenuine(s, s.trace[|old(s.trace)|..])
    ensures r.Ok? && length > 0 && offset < h.length ==> token.generation == generation
  {
    hide CancelContract, Quiet, Collected, Refines, ReadAt.Answered, Honest, Complete, Cause, FirstDenial, SessionConnection.Exhausted,
         Refused, AllGenuine, Settles, InFlight, SessionConnection.Valid;
    NothingInFlight();
    ghost var origin, lo, credits := s.trace, s.messageIds.next, s.credits.available;
    NothingPaid(s);
    ghost var t: Trace := [];
    EmptyContract(lo);
    OnlyReads(s, t);
    CipherMissing(s);
    assert s.trace[|origin|..] == t;
    if length == 0 || offset >= h.length {
      NothingRead(file, h, offset, length, lo);
      return Ok([]);
    }
    if options.chunkSize == 0 || options.maxInFlight == 0 {
      return Err(Protocol(BadOptions));
    }
    if s.encrypted {
      return Err(Protocol(Encrypted));
    }
    var current := IsCurrent(s, token, generation);
    if !current {
      ContractLate(t, lo, lo);
      NoticedCause(t);
      SettlesFree(s.multiCredit, t, [Noticed], lo, credits, lo, credits);
      InFlightLate(t, options.maxInFlight);
      assert s.trace[|origin|..] == t + [Noticed];
      return Err(Cancelled);
    }
    var target := Target(h, offset, length);
    var out: Bytes := [];
    var more := true;
    NothingRead(file, h, offset, length, lo);
    while |out| < target && more
      invariant s.Valid() && s.trace == origin + t && |out| <= target
      invariant token.generation >= old(token.generation) && token.generation >= generation
      invariant CancelContract(t, lo, s.messageIds.next) && Quiet(t) && AllGenuine(s, t)
      invariant Paid(s, t, lo, credits) && InFlight(t, options.maxInFlight)
      invariant !Cause(t) && FirstDenial(t, {STATUS_CANCELLED}) == None
      invariant token.generation == generation || (out == [] && more)
      invariant Collected(file, offset, target, out, t, more)
      decreases |s.inbox|, more
    {
      ghost var mid := s.messageIds.next;
      current := IsCurrent(s, token, generation);
      if !current {
        ContractLate(t, lo, mid);
        NoticedCause(t);
        SettlesFree(s.multiCredit, t, [Noticed], lo, credits, mid, s.credits.available);
        InFlightLate(t, options.maxInFlight);
        assert s.trace[|origin|..] == t + [Noticed];
        return Err(Cancelled);
      }
      ghost var before, window := s.trace, s.credits.available;
      var data, scheduled := RunWave(s, h, offset + |out|, target - |out|, options, token, generation, file);
      ghost var u := s.trace[|before|..];
      assert s.trace == origin + (t + u) && s.trace[|origin|..] == t + u;
      if Settled(data) {
        ContractConcat(t, u, lo, mid, s.messageIds.next);
        InFlightConcat(t, u, options.maxInFlight);
        SettlesConcat(s.multiCredit, t, u, lo, credits, mid, window, s.messageIds.next, s.credits.available);
      }
      if data.Err? {
        WaveExcuse(s, h, t, u, data.error, lo, mid);
        return Err(data.error);
      }
      Collect(file, offset, target, out, t, data.value, scheduled, u);
      GenuineConcat(s, t, u);
      t := t + u;
      out := out + data.value;
      more := |data.value| == scheduled;
    }
    CollectedAll(file, h, offset, length, out, t, more);
    return Ok(out);
  }

  lemma NothingInFlight()
    ensures forall depth: nat :: InFlight([], depth)
  {}

  lemma CipherMissing(s: SessionConnection)
    ensures s.encrypted ==> s.Exhausted(Protocol(Encrypted))
  {}

  /** Finished waves do not change why a later one failed. */
  lemma WaveExcuse(s: SessionConnection, h: FileHandle, t: Trace, u: Trace, e: ClientError, lo: nat, mid: nat)
    requires CancelContract(t, lo, mid) && mid <= s.messageIds.next
    ensures Excused(s, h, u, e, mid) ==> Excused(s, h, t + u, e, lo)
  {
    hide Refused, Closed, Disciplined, NoticeHandled, AsyncHandled, SessionConnection.Exhausted;
    if Refused(s, h, u, e, mid) {
      RefusedLater(s, h, t, u, e, lo, mid);
    }
  }

  /** Why a read by one of the schedulers may fail: a status the server answered with, a cause of
      cancellation where the read can be cancelled, or any cause of a READ error. */
  ghost predicate ReadFails(s: SessionConnection, h: FileHandle, t: Trace, e: ClientError, lo: nat, cancelable: bool)
    reads s`inbox, s`sendsLeft, s.credits, s.messageIds
  {
    match e
    case ServerStatus(status) => FirstDenial(t, if cancelable then {STATUS_CANCELLED} else {}) == Some(status)
    case Cancelled => cancelable && Cause(t)
    case _ => Excused(s, h, t, e, lo)
  }

  /** When reads fall short only at the server's end of file, any two schedulers that succeed on the
      same request agree, whatever their histories were: both return
      `file[offset .. min(offset + target, eof)]`. */
  lemma SchedulersAgree(file: Bytes, h: FileHandle, offset: u64, length: nat, out: Bytes, t: Trace, out': Bytes, t': Trace)
    requires Refines(file, h, offset, length, out, t) && Complete(file, t)
    requires Refines(file, h, offset, length, out', t') && Complete(file, t')
    ensures out == out' == Slice(file, offset, Target(h, offset, length))
  {
    CompleteIsHonest(file, t);
    CompleteIsHonest(file, t');
  }
}
