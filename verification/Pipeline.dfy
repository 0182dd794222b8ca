/** The credit-driven sliding window: several READs outstanding, answers in any order. */
module Pipeline {
  import opened Common
  import opened Messages
  import opened Credits
  import opened AsyncResponse
  import opened Session
  import opened FileModel
  import opened ReadTrace
  import opened ReadAssembly
  import opened ReadAt

  datatype PipelinedReadOptions = PipelinedReadOptions(chunkSize: nat, maxInFlight: nat)

  datatype PendingRead = PendingRead(position: nat, chunkLen: nat, asyncId: Option<u64>)

  type Table = map<u64, PendingRead>

  /** READs in flight, correlated by MessageId. */
  class OutstandingReads {
    var byMessageId: Table

    constructor ()
      ensures byMessageId == map[]
    {
      byMessageId := map[];
    }

    method Insert(id: u64, request: PendingRead) returns (r: Result<()>)
      modifies this
      ensures r.Ok? <==> id !in old(byMessageId)
      ensures r.Err? ==> r.error == Protocol(DuplicateFinal)
      ensures byMessageId == if r.Ok? then old(byMessageId)[id := request] else old(byMessageId)
    {
      if id in byMessageId {
        return Err(Protocol(DuplicateFinal));
      }
      byMessageId := byMessageId[id := request];
      return Ok(());
    }

    method Finish(id: u64) returns (r: Result<PendingRead>)
      modifies this
      ensures r.Ok? <==> id in old(byMessageId)
      ensures r.Err? ==> r.error == Protocol(DuplicateFinal)
      ensures r.Ok? ==> r.value == old(byMessageId)[id]
      ensures byMessageId == old(byMessageId) - {id}
    {
      if id !in byMessageId {
        return Err(Protocol(DuplicateFinal));
      }
      r := Ok(byMessageId[id]);
      byMessageId := byMessageId - {id};
    }
  }

  datatype Stats = Stats(requestsSent: nat, responsesCompleted: nat, peakInFlight: nat, creditStalls: nat)

  /** What the scheduler accumulates besides the table of outstanding READs. */
  datatype Progress = Progress(
    completed: Slots,
    scheduled: nat,
    short: Option<nat>,
    failure: Option<u32>,
    stats: Stats)

  /** The READs sent so far, in file order: their MessageIds and lengths. */
  datatype Layout = Layout(ids: seq<u64>, lens: seq<nat>)

  ghost predicate Consistent(table: Table, w: Progress, lay: Layout) {
    && |w.completed| == |lay.ids| == |lay.lens|
    && Correlated(table, w.completed, lay)
    && w.scheduled == Start(lay.lens, |lay.lens|)
    && ShortIsShort(lay.lens, w.completed, w.short)
    && w.stats.requestsSent == |lay.ids|
    && w.stats.responsesCompleted + |table| == |lay.ids|
  }

  /** MessageIds increase in file order, and the READs in the table are those without a result. */
  ghost predicate Correlated(table: Table, done: Slots, lay: Layout)
    requires |done| == |lay.ids| == |lay.lens|
  {
    && (forall i, j :: 0 <= i < j < |lay.ids| ==> lay.ids[i] < lay.ids[j])
    && (forall id :: id in table ==> Placed(table[id], id, done, lay))
    && (forall p :: 0 <= p < |done| && done[p].None? ==> lay.ids[p] in table)
  }

  ghost predicate Placed(r: PendingRead, id: u64, done: Slots, lay: Layout)
    requires |done| == |lay.ids| == |lay.lens|
  {
    && r.position < |lay.ids|
    && lay.ids[r.position] == id
    && lay.lens[r.position] == r.chunkLen > 0
    && done[r.position].None?
  }

  /** The history `t` of this call is exactly the READs of the layout and their answers. */
  ghost predicate Recorded(t: Trace, base: nat, done: Slots, lay: Layout, lo: nat, hi: nat) {
    && |done| == |lay.ids| == |lay.lens|
    && lo <= hi
    && (forall p :: 0 <= p < |done| ==> Sent(t, base, done, lay, p))
    && (forall id, o, l :: ReadSent(id, o, l) in t ==> id in lay.ids)
    && (forall e :: e in t ==> Within(e, lo, hi))
  }

  ghost predicate Sent(t: Trace, base: nat, done: Slots, lay: Layout, p: nat)
    requires p < |done| == |lay.ids| == |lay.lens|
  {
    && ReadSent(lay.ids[p], base + Start(lay.lens, p), lay.lens[p]) in t
    && Finals(t, lay.ids[p]) == if done[p].Some? then 1 else 0
  }

  ghost predicate Filled(file: Bytes, t: Trace, base: nat, w: Progress, lay: Layout)
    requires |w.completed| == |lay.lens|
  {
    w.failure.None? ==>
      && SizesOk(lay.lens, w.completed, w.short)
      && (Honest(file, t) ==> SlotsOk(file, base, lay.lens, w.completed, w.short, Complete(file, t)))
  }

  /** Each outstanding READ knows the AsyncId its responses have carried. */
  ghost predicate Tracks(table: Table, t: Trace) {
    forall id :: id in table ==> table[id].asyncId == Learned(t, id)
  }

  /** What the scheduler reports of the history: the first denial received, and its counts. */
  ghost predicate Tells(w: Progress, t: Trace) {
    && w.failure == FirstDenial(t, {})
    && Tally(w.stats.requestsSent, w.stats.responsesCompleted, w.stats.peakInFlight) == TallyOf(t)
  }

  /** The scheduler's invariant. */
  ghost predicate Inv(table: Table, w: Progress, lay: Layout, t: Trace, base: nat, lo: nat, hi: nat, file: Bytes) {
    Consistent(table, w, lay) && Recorded(t, base, w.completed, lay, lo, hi) && Filled(file, t, base, w, lay)
    && Tracks(table, t) && Tells(w, t)
  }

  function AfterSend(w: Progress, length: nat, inFlight: nat): Progress {
    w.(completed := w.completed + [None],
       scheduled := w.scheduled + length,
       stats := w.stats.(requestsSent := w.stats.requestsSent + 1,
                         peakInFlight := Max(w.stats.peakInFlight, inFlight)))
  }

  function Extend(lay: Layout, id: u64, length: nat): Layout {
    Layout(lay.ids + [id], lay.lens + [length])
  }

  lemma {:induction false} SendConsistent(table: Table, w: Progress, lay: Layout, id: u64, length: nat)
    requires Consistent(table, w, lay) && length > 0
    requires forall p :: 0 <= p < |lay.ids| ==> lay.ids[p] < id
    ensures id !in table
    ensures var table' := table[id := PendingRead(|w.completed|, length, None)];
            Consistent(table', AfterSend(w, length, |table'|), Extend(lay, id, length))
  {
    hide Correlated;
    SendCorrelated(table, w.completed, lay, id, length);
    var table' := table[id := PendingRead(|w.completed|, length, None)];
    assert |table'| == |table| + 1;
    StartAppend(lay.lens, length, |lay.lens|);
  }

  lemma {:induction false} SendCorrelated(table: Table, done: Slots, lay: Layout, id: u64, length: nat)
    requires |done| == |lay.ids| == |lay.lens| && Correlated(table, done, lay) && length > 0
    requires forall p :: 0 <= p < |lay.ids| ==> lay.ids[p] < id
    ensures id !in table
    ensures Correlated(table[id := PendingRead(|done|, length, None)], done + [None], Extend(lay, id, length))
  {
    forall x | x in table ensures x < id {
      assert Placed(table[x], x, done, lay);
    }
    var table', lay' := table[id := PendingRead(|done|, length, None)], Extend(lay, id, length);
    forall x | x in table' ensures Placed(table'[x], x, done + [None], lay') {
      if x != id { assert Placed(table[x], x, done, lay); }
    }
  }

  lemma {:induction false} SendRecorded(done: Slots, lay: Layout, t: Trace, base: nat, lo: nat, hi: nat,
                                        id: u64, length: nat, hi': nat)
    requires Recorded(t, base, done, lay, lo, hi)
    requires hi <= id < hi'
    ensures forall p :: 0 <= p < |lay.ids| ==> lay.ids[p] < id
    ensures Recorded(t + [ReadSent(id, base + Start(lay.lens, |lay.lens|), length)], base, done + [None],
                     Extend(lay, id, length), lo, hi')
  {
    hide Finals, Cancels, Start;
    var n := |lay.ids|;
    var e := ReadSent(id, base + Start(lay.lens, n), length);
    var lay' := Extend(lay, id, length);
    forall p | 0 <= p < n ensures lay.ids[p] < id {
      assert Sent(t, base, done, lay, p);
      assert Within(ReadSent(lay.ids[p], base + Start(lay.lens, p), lay.lens[p]), lo, hi);
    }
    Untouched(t, id);
    forall p | 0 <= p <= n ensures Sent(t + [e], base, done + [None], lay', p) {
      Snoc(t, e, lay'.ids[p]);
      StartAppend(lay.lens, length, p);
      if p < n { assert Sent(t, base, done, lay, p); }
    }
    forall x, o, l | ReadSent(x, o, l) in t + [e] ensures x in lay'.ids {
      if ReadSent(x, o, l) in t { assert x in lay.ids; }
    }
  }

  /** Slots stay right when the history grows without filling one. */
  lemma {:induction false} FilledGrows(file: Bytes, t: Trace, e: Event, base: nat, lens: seq<nat>, done: Slots, short: Option<nat>)
    requires |done| == |lens|
    requires Honest(file, t) ==> SlotsOk(file, base, lens, done, short, Complete(file, t))
    ensures Honest(file, t + [e]) ==> SlotsOk(file, base, lens, done, short, Complete(file, t + [e]))
  {
    Shorter(file, t, t + [e]);
    if Honest(file, t + [e]) {
      forall p | 0 <= p < |lens| && done[p].Some?
        ensures SlotOk(file, base, lens, done[p].value, short, p, Complete(file, t + [e]))
      {
        assert SlotOk(file, base, lens, done[p].value, short, p, Complete(file, t));
      }
    }
  }

  lemma {:induction false} SlotsExtend(file: Bytes, base: nat, lens: seq<nat>, done: Slots, short: Option<nat>, complete: bool, length: nat)
    requires |done| == |lens| && SlotsOk(file, base, lens, done, short, complete)
    ensures SlotsOk(file, base, lens + [length], done + [None], short, complete)
  {
    forall p | 0 <= p < |lens| && done[p].Some?
      ensures SlotOk(file, base, lens + [length], done[p].value, short, p, complete)
    {
      assert SlotOk(file, base, lens, done[p].value, short, p, complete);
      StartAppend(lens, length, p);
    }
  }

  lemma TracksSend(table: Table, t: Trace, base: nat, done: Slots, lay: Layout, lo: nat, hi: nat, id: u64, e: Event, r: PendingRead)
    requires Tracks(table, t) && Recorded(t, base, done, lay, lo, hi) && hi <= id && e.ReadSent? && r.asyncId.None?
    ensures Tracks(table[id := r], t + [e])
  {
    hide Learned, Sent;
    forall m | Got(m) in t ensures m.Message? && m.header.messageId != id {
      assert Within(Got(m), lo, hi);
    }
    NothingFor(t, id);
    forall x | x in table[id := r] ensures table[id := r][x].asyncId == Learned(t + [e], x) {
      LearnedSnoc(t, e, x);
    }
  }

  lemma TracksGot(table: Table, t: Trace, m: Incoming, asyncId: Option<u64>)
    requires Tracks(table, t) && m.Message? && m.header.messageId in table
    requires m.header.id.Async? && asyncId == Some(m.header.id.asyncId)
    ensures Tracks(table[m.header.messageId := table[m.header.messageId].(asyncId := asyncId)], t + [Got(m)])
  {
    hide Learned;
    forall x | x in table
      ensures Learned(t + [Got(m)], x) == if x == m.header.messageId then Some(m.header.id.asyncId) else Learned(t, x)
    {
      LearnedSnoc(t, Got(m), x);
    }
  }

  lemma TracksFinal(table: Table, t: Trace, m: Incoming)
    requires Tracks(table, t) && m.Message?
    ensures Tracks(table - {m.header.messageId}, t + [Got(m)])
  {
    hide Learned;
    forall x | x in table && x != m.header.messageId ensures Learned(t + [Got(m)], x) == Learned(t, x) {
      LearnedSnoc(t, Got(m), x);
    }
  }

  lemma {:induction false} ConsistentFacts(table: Table, w: Progress, lay: Layout)
    requires Consistent(table, w, lay)
    ensures w.scheduled == Start(lay.lens, |lay.lens|) && |w.completed| == |lay.lens| == |lay.ids|
    ensures w.stats.requestsSent - w.stats.responsesCompleted == |table|
  {
    hide Start, Correlated, ShortIsShort;
  }

  lemma {:induction false} SendKeeps(table: Table, w: Progress, lay: Layout, t: Trace, base: nat, lo: nat, hi: nat,
                                     file: Bytes, id: u64, length: nat, hi': nat)
    requires Inv(table, w, lay, t, base, lo, hi, file)
    requires hi <= id < hi' && length > 0
    ensures id !in table
    ensures var table' := table[id := PendingRead(|w.completed|, length, None)];
            Inv(table', AfterSend(w, length, |table'|), Extend(lay, id, length),
                t + [ReadSent(id, base + w.scheduled, length)], base, lo, hi', file)
  {
    hide Consistent, Recorded, SlotsOk, Honest, Complete, Start, ShortIsShort, Tells, Tracks;
    ConsistentFacts(table, w, lay);
    var e := ReadSent(id, base + w.scheduled, length);
    assert |table[id := PendingRead(|w.completed|, length, None)]| <= |table| + 1;
    TracksSend(table, t, base, w.completed, lay, lo, hi, id, e, PendingRead(|w.completed|, length, None));
    SendRecorded(w.completed, lay, t, base, lo, hi, id, length, hi');
    SendConsistent(table, w, lay, id, length);
    TellsSend(w, t, id, base + w.scheduled, length, |table| + 1);
    if w.failure.None? {
      FilledGrows(file, t, e, base, lay.lens, w.completed, w.short);
      if Honest(file, t + [e]) {
        SlotsExtend(file, base, lay.lens, w.completed, w.short, Complete(file, t + [e]), length);
      }
    }
  }

  /** An interim response only teaches the request its AsyncId. */
  lemma {:induction false} InterimKeeps(table: Table, w: Progress, lay: Layout, t: Trace, base: nat, lo: nat, hi: nat,
                                        file: Bytes, m: Incoming, asyncId: Option<u64>)
    requires Inv(table, w, lay, t, base, lo, hi, file)
    requires m.Message? && HasStatus(m, STATUS_PENDING) && m.header.messageId in table
    requires m.header.id.Async? && asyncId == Some(m.header.id.asyncId)
    ensures var id := m.header.messageId;
            Inv(table[id := table[id].(asyncId := asyncId)], w, lay, t + [Got(m)], base, lo, hi, file)
  {
    hide Consistent, Recorded, Start, SlotsOk, SizesOk, Finals, Honest, Complete, Tells, Learned, Tracks, HasStatus;
    var id := m.header.messageId;
    Outstanding(table, w, lay, t, base, lo, hi, id);
    TracksGot(table, t, m, asyncId);
    GotRecorded(w.completed, lay, t, base, lo, hi, m, |lay.ids|, []);
    InterimConsistent(table, w, lay, id, asyncId);
    TellsInterim(w, t, m);
    if w.failure.None? {
      FilledGrows(file, t, Got(m), base, lay.lens, w.completed, w.short);
    }
  }

  lemma {:induction false} InterimConsistent(table: Table, w: Progress, lay: Layout, id: u64, asyncId: Option<u64>)
    requires Consistent(table, w, lay) && id in table
    ensures Consistent(table[id := table[id].(asyncId := asyncId)], w, lay)
  {
    hide Start, ShortIsShort, Correlated;
    InterimCorrelated(table, w.completed, lay, id, asyncId);
    var table' := table[id := table[id].(asyncId := asyncId)];
    assert table'.Keys == table.Keys;
    assert |table'.Keys| == |table.Keys|;
  }

  lemma {:induction false} InterimCorrelated(table: Table, done: Slots, lay: Layout, id: u64, asyncId: Option<u64>)
    requires |done| == |lay.ids| == |lay.lens| && Correlated(table, done, lay) && id in table
    ensures Correlated(table[id := table[id].(asyncId := asyncId)], done, lay)
  {
    var table' := table[id := table[id].(asyncId := asyncId)];
    assert Placed(table[id], id, done, lay);
    forall x | x in table' ensures Placed(table'[x], x, done, lay) {
      assert Placed(table[x], x, done, lay);
    }
  }

  /** Slot `p` filled, or nothing filled when `p` is past the end. */
  function Fill(done: Slots, p: nat, d: Bytes): Slots {
    if p < |done| then done[p := Some(d)] else done
  }

  lemma {:induction false} GotRecorded(done: Slots, lay: Layout, t: Trace, base: nat, lo: nat, hi: nat,
                                       m: Incoming, p: nat, d: Bytes)
    requires Recorded(t, base, done, lay, lo, hi)
    requires m.Message? && m.header.messageId in lay.ids
    requires forall i, j :: 0 <= i < j < |lay.ids| ==> lay.ids[i] < lay.ids[j]
    requires if p < |done| then lay.ids[p] == m.header.messageId && done[p].None? && !HasStatus(m, STATUS_PENDING)
             else HasStatus(m, STATUS_PENDING)
    ensures Recorded(t + [Got(m)], base, Fill(done, p, d), lay, lo, hi)
  {
    hide Finals, Cancels, Start;
    var id := m.header.messageId;
    var i :| 0 <= i < |lay.ids| && lay.ids[i] == id;
    assert Sent(t, base, done, lay, i);
    assert Within(ReadSent(id, base + Start(lay.lens, i), lay.lens[i]), lo, hi);
    forall q | 0 <= q < |done| ensures Sent(t + [Got(m)], base, Fill(done, p, d), lay, q) {
      Snoc(t, Got(m), lay.ids[q]);
      assert Sent(t, base, done, lay, q);
    }
  }

  /** What concluding a READ does to the progress, whichever way it ended: its slot holds `d`; a
      short position is recorded as the earliest so far; and while no READ has failed, `d` is what
      the response stands for. */
  ghost predicate Concluded(w: Progress, position: nat, chunkLen: nat, m: Incoming, w': Progress, d: Bytes)
    requires m.Message? && m.header.status.Status?
  {
    var earliest := if w.short.Some? then Min(w.short.value, position) else position;
    && |d| <= chunkLen
    && w'.completed == Fill(w.completed, position, d)
    && w'.scheduled == w.scheduled
    && w'.stats == w.stats.(responsesCompleted := w.stats.responsesCompleted + 1)
    && (w'.short == w.short || (|d| < chunkLen && w'.short == Some(earliest)))
    && w'.failure == (if w.failure.Some? || HasStatus(m, STATUS_SUCCESS) || HasStatus(m, STATUS_END_OF_FILE)
                      then w.failure else Some(m.header.status.code))
    && (w'.failure.None? ==>
          w.failure.None? && Payload(m) == Some(d) && (|d| < chunkLen ==> w'.short == Some(earliest)))
  }

  /** The scheduler's reading of a final response, in the order the source tests it. */
  function Conclude(w: Progress, position: nat, chunkLen: nat, m: Incoming): (r: Result<(Progress, Bytes)>)
    requires m.Message? && m.header.status.Status? && position < |w.completed| && chunkLen > 0
    ensures r.Err? ==> r.error == if m.body.ReadData? then Protocol(TooMuchData) else Wire
    ensures r.Err? ==> HasStatus(m, STATUS_SUCCESS) && (m.body.ReadData? ==> |m.body.data| > chunkLen)
    ensures r.Ok? ==> Concluded(w, position, chunkLen, m, r.value.0, r.value.1)
  {
    var code := m.header.status.code;
    var earliest := if w.short.Some? then Min(w.short.value, position) else position;
    var w' := w.(stats := w.stats.(responsesCompleted := w.stats.responsesCompleted + 1));
    if code == STATUS_SUCCESS then
      if w.failure.Some? then Ok((w'.(completed := Fill(w.completed, position, [])), []))
      else if !m.body.ReadData? then Err(Wire)
      else if |m.body.data| > chunkLen then Err(Protocol(TooMuchData))
      else
        Ok((w'.(completed := Fill(w.completed, position, m.body.data),
                short := if |m.body.data| < chunkLen then Some(earliest) else w.short), m.body.data))
    else if code == STATUS_END_OF_FILE then
      Ok((w'.(completed := Fill(w.completed, position, []),
              short := if w.failure.None? then Some(earliest) else w.short), []))
    else
      Ok((w'.(completed := Fill(w.completed, position, []),
              failure := if w.failure.None? then Some(code) else w.failure), []))
  }

  lemma {:induction false} ConcludeConsistent(table: Table, w: Progress, lay: Layout, id: u64, m: Incoming, w': Progress, d: Bytes)
    requires Consistent(table, w, lay) && id in table && m.Message? && m.header.status.Status?
    requires Concluded(w, table[id].position, table[id].chunkLen, m, w', d)
    ensures Consistent(table - {id}, w', lay)
  {
    hide Start, Payload, HasStatus, Slice, ShortIsShort, Fill, Correlated;
    var p := table[id].position;
    ConcludeCorrelated(table, w.completed, lay, id, d);
    FillFacts(w.completed, p, d);
    ShortKept(lay.lens, w.completed, w.short, p, d, w'.short);
    assert (table - {id}).Keys == table.Keys - {id};
  }

  lemma {:induction false} ConcludeCorrelated(table: Table, done: Slots, lay: Layout, id: u64, d: Bytes)
    requires |done| == |lay.ids| == |lay.lens| && Correlated(table, done, lay) && id in table
    ensures Placed(table[id], id, done, lay)
    ensures Correlated(table - {id}, done[table[id].position := Some(d)], lay)
  {
    var p := table[id].position;
    assert Placed(table[id], id, done, lay);
    forall x | x in table - {id} ensures Placed(table[x], x, done[p := Some(d)], lay) {
      assert Placed(table[x], x, done, lay);
    }
  }

  lemma FillFacts(done: Slots, p: nat, d: Bytes)
    requires p < |done|
    ensures Fill(done, p, d) == done[p := Some(d)]
  {}

  /** The earliest short chunk stays one when another slot is filled. */
  lemma ShortKept(lens: seq<nat>, done: Slots, short: Option<nat>, p: nat, d: Bytes, short': Option<nat>)
    requires |done| == |lens| && p < |lens| && done[p].None? && ShortIsShort(lens, done, short)
    requires short' == short || (|d| < lens[p] && short' == Some(if short.Some? then Min(short.value, p) else p))
    ensures ShortIsShort(lens, done[p := Some(d)], short')
  {}

  /** The newly filled slot agrees with the file, and the others still do. */
  lemma {:induction false} FillFromAnswer(file: Bytes, t: Trace, base: nat, lens: seq<nat>, done: Slots, short: Option<nat>,
                                          p: nat, id: u64, m: Incoming, d: Bytes, short': Option<nat>)
    requires p < |lens| == |done|
    requires Honest(file, t) ==> SlotsOk(file, base, lens, done, short, Complete(file, t))
    requires ReadSent(id, base + Start(lens, p), lens[p]) in t && Answers(m, id) && Payload(m) == Some(d)
    requires |d| <= lens[p]
    requires short' == short || short' == Some(if short.Some? then Min(short.value, p) else p)
    requires |d| < lens[p] ==> short'.Some? && short'.value <= p
    ensures Honest(file, t + [Got(m)]) ==>
              SlotsOk(file, base, lens, Fill(done, p, d), short', Complete(file, t + [Got(m)]))
  {
    hide Start, Slice, SlotsOk, Payload, HasStatus, Fill;
    var u := t + [Got(m)];
    var off := base + Start(lens, p);
    FilledGrows(file, t, Got(m), base, lens, done, short);
    assert ReadSent(id, off, lens[p]) in u && Got(m) in u;
    if Honest(file, u) {
      assert d == Slice(file, off, |d|);
      assert Complete(file, u) ==> d == Slice(file, off, lens[p]);
      FillSlots(file, base, lens, done, short, p, d, short', Complete(file, u));
    }
  }

  lemma {:induction false} FillSlots(file: Bytes, base: nat, lens: seq<nat>, done: Slots, short: Option<nat>,
                                     p: nat, d: Bytes, short': Option<nat>, complete: bool)
    requires |done| == |lens| && p < |lens| && SlotsOk(file, base, lens, done, short, complete)
    requires |d| <= lens[p] && d == Slice(file, base + Start(lens, p), |d|)
    requires complete ==> d == Slice(file, base + Start(lens, p), lens[p])
    requires short' == short || short' == Some(if short.Some? then Min(short.value, p) else p)
    requires |d| < lens[p] ==> short'.Some? && short'.value <= p
    ensures SlotsOk(file, base, lens, Fill(done, p, d), short', complete)
  {
    hide Start, Slice;
    var done' := Fill(done, p, d);
    forall q | 0 <= q < |lens| && done'[q].Some?
      ensures SlotOk(file, base, lens, done'[q].value, short', q, complete)
    {
      if q != p {
        assert SlotOk(file, base, lens, done[q].value, short, q, complete);
      }
    }
  }

  /** What the invariant says about one outstanding READ. */
  lemma {:induction false} Outstanding(table: Table, w: Progress, lay: Layout, t: Trace, base: nat, lo: nat, hi: nat, id: u64)
    requires Consistent(table, w, lay) && Recorded(t, base, w.completed, lay, lo, hi) && id in table
    ensures |w.completed| == |lay.ids| == |lay.lens|
    ensures Placed(table[id], id, w.completed, lay) && id in lay.ids
    ensures table[id].position < |w.completed|
    ensures ReadSent(id, base + Start(lay.lens, table[id].position), table[id].chunkLen) in t
    ensures forall i, j :: 0 <= i < j < |lay.ids| ==> lay.ids[i] < lay.ids[j]
  {
    hide Start, Finals;
    assert Placed(table[id], id, w.completed, lay);
    assert Sent(t, base, w.completed, lay, table[id].position);
  }

  lemma {:induction false} ConcludeKeeps(table: Table, w: Progress, lay: Layout, t: Trace, base: nat, lo: nat, hi: nat,
                                         file: Bytes, m: Incoming, w': Progress, d: Bytes)
    requires Inv(table, w, lay, t, base, lo, hi, file)
    requires m.Message? && m.header.status.Status? && !HasStatus(m, STATUS_PENDING) && m.header.messageId in table
    requires Concluded(w, table[m.header.messageId].position, table[m.header.messageId].chunkLen, m, w', d)
    ensures Inv(table - {m.header.messageId}, w', lay, t + [Got(m)], base, lo, hi, file)
  {
    hide Consistent, Recorded, Start, SlotsOk, Honest, Complete, Payload, HasStatus, Tells, Tracks;
    var id := m.header.messageId;
    TracksFinal(table, t, m);
    var p := table[id].position;
    Outstanding(table, w, lay, t, base, lo, hi, id);
    ConcludeConsistent(table, w, lay, id, m, w', d);
    GotRecorded(w.completed, lay, t, base, lo, hi, m, p, d);
    assert IsReadId(t, id);
    TellsFinal(w, t, m, p, table[id].chunkLen, w', d);
    if w'.failure.None? {
      FillFromAnswer(file, t, base, lay.lens, w.completed, w.short, p, id, m, d, w'.short);
    }
  }

  lemma TellsSend(w: Progress, t: Trace, id: u64, offset: nat, length: nat, inFlight: nat)
    requires Tells(w, t) && inFlight == w.stats.requestsSent - w.stats.responsesCompleted + 1
    ensures Tells(AfterSend(w, length, inFlight), t + [ReadSent(id, offset, length)])
  {
    var e := ReadSent(id, offset, length);
    FirstSnoc(t, e);
  }

  lemma TellsInterim(w: Progress, t: Trace, m: Incoming)
    requires Tells(w, t) && HasStatus(m, STATUS_PENDING)
    ensures Tells(w, t + [Got(m)])
  {
    FirstSnoc(t, Got(m));
  }

  lemma TellsFinal(w: Progress, t: Trace, m: Incoming, position: nat, chunkLen: nat, w': Progress, d: Bytes)
    requires Tells(w, t) && m.Message? && m.header.status.Status? && !HasStatus(m, STATUS_PENDING)
    requires IsReadId(t, m.header.messageId) && Concluded(w, position, chunkLen, m, w', d)
    ensures Tells(w', t + [Got(m)])
  {
    FirstSnoc(t, Got(m));
  }

  lemma FirstSnoc(t: Trace, e: Event)
    ensures FirstDenial(t + [e], {}) == if FirstDenial(t, {}).Some? then FirstDenial(t, {}) else DenialOf(t, e, {})
    ensures (t + [e])[..|t|] == t
  {
    DenialSnoc(t, e, {});
  }

  /** A READ that is still waiting is in the table. */
  lemma {:induction false} WaitingIsListed(table: Table, w: Progress, lay: Layout, t: Trace, base: nat, lo: nat, hi: nat, file: Bytes, id: u64)
    requires Inv(table, w, lay, t, base, lo, hi, file) && Unfinished(t, id)
    ensures id in table
  {
    hide Start, Finals, Filled, Tracks;
    var o, l :| ReadSent(id, o, l) in t;
    var p :| 0 <= p < |lay.ids| && lay.ids[p] == id;
    assert Sent(t, base, w.completed, lay, p);
  }

  lemma OwnEvents(table: Table, w: Progress, lay: Layout, t: Trace, base: nat, lo: nat, hi: nat, file: Bytes, m: Incoming)
    requires Inv(table, w, lay, t, base, lo, hi, file)
    ensures (t + [Got(m)])[..|t|] == t && forall x :: x in t ==> Within(x, lo, hi)
  {
    hide Consistent, Filled, Tracks, Sent;
  }

  /** A message whose MessageId is not in the table answers no waiting READ. */
  lemma RefuseUnknown(s: SessionConnection, h: FileHandle, table: Table, w: Progress, lay: Layout, t: Trace, base: nat, lo: nat,
                      file: Bytes, m: Incoming)
    requires Inv(table, w, lay, t, base, lo, s.messageIds.next, file) && m.Message? && m.header.messageId !in table
    ensures Refused(s, h, t + [Got(m)], Protocol(NotOutstanding), lo)
  {
    hide Inv, Unfinished;
    OwnEvents(table, w, lay, t, base, lo, s.messageIds.next, file, m);
    if Unfinished(t, m.header.messageId) {
      WaitingIsListed(table, w, lay, t, base, lo, s.messageIds.next, file, m.header.messageId);
    }
  }

  /** A header the READ of its own MessageId rejects is rejected by all. */
  lemma RefuseHeader(s: SessionConnection, h: FileHandle, table: Table, w: Progress, lay: Layout, t: Trace, base: nat, lo: nat,
                     file: Bytes, m: Incoming)
    requires Inv(table, w, lay, t, base, lo, s.messageIds.next, file) && m.Message? && m.header.messageId in table
    requires Validate(table[m.header.messageId].asyncId, Expected(Read, h.treeId, s.sessionId, m.header.messageId), m.header).Err?
    ensures Refused(s, h, t + [Got(m)], Protocol(BadHeader), lo)
  {
    OwnEvents(table, w, lay, t, base, lo, s.messageIds.next, file, m);
    hide Consistent, Recorded, Filled, Unfinished, Learned;
    forall id: u64 | Unfinished(t, id)
      ensures Validate(Learned(t, id), Expected(Read, h.treeId, s.sessionId, id), m.header).Err?
    {
      WaitingIsListed(table, w, lay, t, base, lo, s.messageIds.next, file, id);
    }
  }

  /** Other faults are visible in the message itself, or in its READ's length. */
  lemma RefuseMessage(s: SessionConnection, h: FileHandle, table: Table, w: Progress, lay: Layout, t: Trace, base: nat, lo: nat,
                      file: Bytes, m: Incoming, e: ClientError)
    requires Inv(table, w, lay, t, base, lo, s.messageIds.next, file)
    requires
      || (e == Wire && (m.Malformed? || (HasStatus(m, STATUS_SUCCESS) && !m.body.ReadData?)))
      || (e == Protocol(CreditOverflow) && m.Message? && s.credits.available + m.header.credits > U32_MAX)
      || (e == Protocol(BadSignature) && m.Message? && !s.Genuine(m))
    ensures Refused(s, h, t + [Got(m)], e, lo)
  {
    hide Inv, NoTaker, Unfinished, Exceeds, HasStatus, SessionConnection.Genuine;
    OwnEvents(table, w, lay, t, base, lo, s.messageIds.next, file, m);
  }

  lemma RefuseExcess(s: SessionConnection, h: FileHandle, table: Table, w: Progress, lay: Layout, t: Trace, base: nat, lo: nat,
                     file: Bytes, m: Incoming)
    requires Inv(table, w, lay, t, base, lo, s.messageIds.next, file)
    requires HasStatus(m, STATUS_SUCCESS) && m.body.ReadData? && m.header.messageId in table
    requires |m.body.data| > table[m.header.messageId].chunkLen
    ensures Refused(s, h, t + [Got(m)], Protocol(TooMuchData), lo)
  {
    hide Consistent, Recorded, Filled, Tracks, Start, NoTaker, Unfinished;
    OwnEvents(table, w, lay, t, base, lo, s.messageIds.next, file, m);
    Outstanding(table, w, lay, t, base, lo, s.messageIds.next, m.header.messageId);
  }

  /** Errors a scheduler can leave with READs still outstanding. */
  predicate Abandons(e: ClientError) {
    !e.ServerStatus?
    && e !in {Cancelled, Protocol(InsufficientCredits), Protocol(NoCredits), Protocol(MissingResponse), Protocol(ZeroChunk)}
  }

  /** Sends the READ for the next unscheduled chunk. */
  method SendNext(s: SessionConnection, h: FileHandle, offset: u64, chunk: nat, charge: u16, table: OutstandingReads,
                  w: Progress, ghost lay: Layout, ghost origin: Trace, ghost lo: nat, ghost credits: nat, ghost file: Bytes)
    returns (r: Result<Progress>, ghost lay': Layout)
    requires s.Valid() && 0 < chunk && Width(charge) == Price(s.multiCredit, chunk) <= s.credits.available && origin <= s.trace
    requires charge > 0 <==> s.multiCredit
    requires Inv(table.byMessageId, w, lay, s.trace[|origin|..], offset, lo, s.messageIds.next, file)
    requires AllGenuine(s, s.trace[|origin|..]) && Paid(s, s.trace[|origin|..], lo, credits)
    modifies s`trace, s`sendsLeft, s`leaked, s.credits, s.messageIds, table
    ensures s.Valid() && origin <= s.trace
    ensures r.Err? ==> Abandons(r.error) && Excused(s, h, s.trace[|origin|..], r.error, lo)
    ensures r.Ok? ==> AllGenuine(s, s.trace[|origin|..]) && Paid(s, s.trace[|origin|..], lo, credits)
    ensures r.Ok? ==>
              && Inv(table.byMessageId, r.value, lay', s.trace[|origin|..], offset, lo, s.messageIds.next, file)
              && |table.byMessageId| == |old(table.byMessageId)| + 1
              && r.value == AfterSend(w, chunk, |table.byMessageId|)
  {
    hide Inv, Closed, Honest, Complete, SessionConnection.Valid, Refused, AllGenuine, Settles;
    lay' := lay;
    ghost var t := s.trace[|origin|..];
    ghost var hi, window := s.messageIds.next, s.credits.available;
    var sent := SendRead(s, offset + w.scheduled, chunk, charge);
    if sent.Err? {
      return Err(sent.error), lay';
    }
    var id := sent.value;
    assert s.trace[|origin|..] == t + [ReadSent(id, offset + w.scheduled, chunk)];
    GenuineSnoc(s, t, ReadSent(id, offset + w.scheduled, chunk));
    SettlesSend(s.multiCredit, t, id, offset + w.scheduled, chunk, lo, credits, hi, window);
    SendKeeps(table.byMessageId, w, lay, t, offset, lo, hi, file, id, chunk, s.messageIds.next);
    var inserted := table.Insert(id, PendingRead(|w.completed|, chunk, None));
    lay' := Extend(lay, id, chunk);
    return Ok(AfterSend(w, chunk, |table.byMessageId|)), lay';
  }

  lemma SettlesSend(multiCredit: bool, t: Trace, id: u64, offset: nat, length: nat, lo: int, credits: int, hi: int, left: int)
    requires Settles(multiCredit, t, lo, credits, hi, left) && id == hi
    ensures Settles(multiCredit, t + [ReadSent(id, offset, length)], lo, credits, hi + Price(multiCredit, length),
                    left - Price(multiCredit, length))
  {
    hide Price, Numbered, Granted;
    NumberedSnoc(multiCredit, t, ReadSent(id, offset, length), lo, hi);
    GrantedSnoc(t, ReadSent(id, offset, length));
  }

  lemma SettlesGot(multiCredit: bool, t: Trace, m: Incoming, lo: int, credits: int, hi: int, left: int)
    requires Settles(multiCredit, t, lo, credits, hi, left) && m.Message?
    ensures Settles(multiCredit, t + [Got(m)], lo, credits, hi, left + m.header.credits)
  {
    hide Numbered, Granted;
    NumberedSnoc(multiCredit, t, Got(m), lo, hi);
    GrantedSnoc(t, Got(m));
  }

  /** Fills the window: sends READs while credits, depth and bytes remain and nothing ended the run.
      It stops early only for lack of credits. */
  method FillWindow(s: SessionConnection, h: FileHandle, offset: u64, target: nat, options: PipelinedReadOptions,
                    table: OutstandingReads, start: Progress, ghost lay: Layout, ghost origin: Trace, ghost lo: nat,
                    ghost credits: nat, ghost file: Bytes)
    returns (r: Result<bool>, w: Progress, ghost lay': Layout)
    requires s.Valid() && origin <= s.trace && start.scheduled <= target && options.chunkSize > 0
    requires |table.byMessageId| <= options.maxInFlight && start.stats.peakInFlight <= options.maxInFlight
    requires Inv(table.byMessageId, start, lay, s.trace[|origin|..], offset, lo, s.messageIds.next, file)
    requires AllGenuine(s, s.trace[|origin|..]) && Paid(s, s.trace[|origin|..], lo, credits)
    modifies s`trace, s`sendsLeft, s`leaked, s.credits, s.messageIds, table
    ensures s.Valid() && origin <= s.trace
    ensures r.Err? ==> Abandons(r.error) && Excused(s, h, s.trace[|origin|..], r.error, lo)
    ensures r.Ok? ==> AllGenuine(s, s.trace[|origin|..]) && Paid(s, s.trace[|origin|..], lo, credits)
    ensures r.Ok? ==>
              && Inv(table.byMessageId, w, lay', s.trace[|origin|..], offset, lo, s.messageIds.next, file)
              && w.scheduled <= target && w.failure == start.failure && w.short == start.short
              && w.stats.creditStalls == start.stats.creditStalls
              && |table.byMessageId| <= options.maxInFlight && w.stats.peakInFlight <= options.maxInFlight
              && (r.value ==> s.credits.available == 0 || s.maxReadSize == 0)
              && (!r.value ==> w.failure.Some? || w.short.Some? || |table.byMessageId| == options.maxInFlight || w.scheduled == target)
  {
    hide Inv, Closed, Honest, Complete, SessionConnection.Valid, Refused, AllGenuine, Settles;
    w, lay' := start, lay;
    while w.failure.None? && w.short.None? && |table.byMessageId| < options.maxInFlight && w.scheduled < target
      invariant s.Valid() && origin <= s.trace && w.scheduled <= target
      invariant w.failure == start.failure && w.short == start.short && w.stats.creditStalls == start.stats.creditStalls
      invariant |table.byMessageId| <= options.maxInFlight && w.stats.peakInFlight <= options.maxInFlight
      invariant Inv(table.byMessageId, w, lay', s.trace[|origin|..], offset, lo, s.messageIds.next, file)
      invariant AllGenuine(s, s.trace[|origin|..]) && Paid(s, s.trace[|origin|..], lo, credits)
      decreases target - w.scheduled
    {
      if s.credits.available == 0 {
        return Ok(true), w, lay';
      }
      var plan := PlanChunk(s.multiCredit, s.credits.available, Min(options.chunkSize, s.maxReadSize), target - w.scheduled);
      if plan == Err(Protocol(ZeroChunk)) {
        return Ok(true), w, lay';
      }
      if plan.Err? {
        return Err(plan.error), w, lay';
      }
      var sent, extended := SendNext(s, h, offset, plan.value.0, plan.value.1, table, w, lay', origin, lo, credits, file);
      if sent.Err? {
        return Err(sent.error), w, lay';
      }
      w, lay' := sent.value, extended;
    }
    return Ok(false), w, lay';
  }

  /** Consumes whichever response arrives next and files it under its MessageId. */
  method TakeResponse(s: SessionConnection, h: FileHandle, offset: u64, table: OutstandingReads, w: Progress,
                      ghost lay: Layout, ghost origin: Trace, ghost lo: nat, ghost credits: nat, ghost file: Bytes)
    returns (r: Result<Progress>)
    requires s.Valid() && origin <= s.trace
    requires Inv(table.byMessageId, w, lay, s.trace[|origin|..], offset, lo, s.messageIds.next, file)
    requires AllGenuine(s, s.trace[|origin|..]) && Paid(s, s.trace[|origin|..], lo, credits)
    modifies s`inbox, s`trace, s.credits, table
    ensures s.Valid() && origin <= s.trace && |s.inbox| <= |old(s.inbox)|
    ensures r.Err? ==> Abandons(r.error) && Excused(s, h, s.trace[|origin|..], r.error, lo)
    ensures r.Ok? ==> AllGenuine(s, s.trace[|origin|..]) && Paid(s, s.trace[|origin|..], lo, credits)
    ensures r.Ok? ==>
              && |s.inbox| < |old(s.inbox)|
              && Inv(table.byMessageId, r.value, lay, s.trace[|origin|..], offset, lo, s.messageIds.next, file)
              && |table.byMessageId| <= |old(table.byMessageId)|
              && r.value.scheduled == w.scheduled && r.value.stats.peakInFlight == w.stats.peakInFlight
              && r.value.stats.creditStalls == w.stats.creditStalls
  {
    hide Inv, Closed, Honest, Complete, SessionConnection.Valid, Refused, AllGenuine, Settles, Validate;
    ghost var t := s.trace[|origin|..];
    ghost var before := table.byMessageId;
    var got := s.Receive();
    if got.Err? {
      return Err(got.error);
    }
    var m := got.value;
    assert s.trace[|origin|..] == t + [Got(m)];
    if m.Malformed? {
      RefuseMessage(s, h, before, w, lay, t, offset, lo, file, m, Wire);
      return Err(Wire);
    }
    var id := m.header.messageId;
    if id !in table.byMessageId {
      RefuseUnknown(s, h, before, w, lay, t, offset, lo, file, m);
      return Err(Protocol(NotOutstanding));
    }
    var pending := table.byMessageId[id];
    var phase := Validate(pending.asyncId, Expected(Read, h.treeId, s.sessionId, id), m.header);
    if phase.Err? {
      RefuseHeader(s, h, before, w, lay, t, offset, lo, file, m);
      return Err(phase.error);
    }
    ValidateFacts(pending.asyncId, Expected(Read, h.treeId, s.sessionId, id), m.header);
    var settled := s.Settle(m.header, phase.value.0);
    if settled.Err? {
      RefuseMessage(s, h, before, w, lay, t, offset, lo, file, m, settled.error);
      return Err(settled.error);
    }
    GenuineSnoc(s, t, Got(m));
    SettlesGot(s.multiCredit, t, m, lo, credits, s.messageIds.next, old(s.credits.available));
    if phase.value.0 == InterimPending {
      InterimKeeps(before, w, lay, t, offset, lo, s.messageIds.next, file, m, phase.value.1);
      table.byMessageId := table.byMessageId[id := pending.(asyncId := phase.value.1)];
      assert table.byMessageId.Keys == before.Keys;
      return Ok(w);
    }
    r := TakeFinal(s, h, offset, table, w, m, t, lay, lo, file);
  }

  /** Files a final response under the position of its READ. */
  method TakeFinal(s: SessionConnection, h: FileHandle, offset: u64, table: OutstandingReads, w: Progress, m: Incoming,
                   ghost t: Trace, ghost lay: Layout, ghost lo: nat, ghost file: Bytes)
    returns (r: Result<Progress>)
    requires Inv(table.byMessageId, w, lay, t, offset, lo, s.messageIds.next, file)
    requires m.Message? && m.header.status.Status? && !HasStatus(m, STATUS_PENDING) && m.header.messageId in table.byMessageId
    modifies table
    ensures r.Err? ==> Abandons(r.error) && Excused(s, h, t + [Got(m)], r.error, lo)
    ensures r.Ok? ==>
              && Inv(table.byMessageId, r.value, lay, t + [Got(m)], offset, lo, s.messageIds.next, file)
              && |table.byMessageId| <= |old(table.byMessageId)|
              && r.value.scheduled == w.scheduled && r.value.stats.peakInFlight == w.stats.peakInFlight
              && r.value.stats.creditStalls == w.stats.creditStalls
  {
    hide Inv, Refused, Payload, Fill, Concluded, Conclude;
    ghost var before := table.byMessageId;
    var id := m.header.messageId;
    PlacedOf(before, w, lay, t, offset, lo, s.messageIds.next, file, id);
    var pending := table.byMessageId[id];
    var finished := table.Finish(id);
    var concluded := Conclude(w, pending.position, pending.chunkLen, m);
    if concluded.Err? {
      if m.body.ReadData? {
        RefuseExcess(s, h, before, w, lay, t, offset, lo, file, m);
      } else {
        RefuseMessage(s, h, before, w, lay, t, offset, lo, file, m, Wire);
      }
      return Err(concluded.error);
    }
    var (w', d) := concluded.value;
    ConcludeKeeps(before, w, lay, t, offset, lo, s.messageIds.next, file, m, w', d);
    ConcludedTotals(w, pending.position, pending.chunkLen, m, w', d);
    assert table.byMessageId.Keys == before.Keys - {id};
    return Ok(w');
  }

  lemma ConcludedTotals(w: Progress, position: nat, chunkLen: nat, m: Incoming, w': Progress, d: Bytes)
    requires m.Message? && m.header.status.Status? && Concluded(w, position, chunkLen, m, w', d)
    ensures w'.scheduled == w.scheduled
    ensures w'.stats == w.stats.(responsesCompleted := w.stats.responsesCompleted + 1)
  {}

  lemma {:induction false} PlacedOf(table: Table, w: Progress, lay: Layout, t: Trace, base: nat, lo: nat, hi: nat, file: Bytes, id: u64)
    requires Inv(table, w, lay, t, base, lo, hi, file) && id in table
    ensures table[id].position < |w.completed| && table[id].chunkLen > 0 && w.completed[table[id].position].None?
  {
    hide Start, Recorded, Filled;
    assert Placed(table[id], id, w.completed, lay);
  }

  lemma {:induction false} InitialInv(t: Trace, base: nat, lo: nat, file: Bytes)
    requires t == []
    ensures Inv(map[], Progress([], 0, None, None, Stats(0, 0, 0, 0)), Layout([], []), t, base, lo, lo, file)
  {}

  /** Once nothing is outstanding the history is closed and every slot is filled. */
  lemma {:induction false} Quiescent(w: Progress, lay: Layout, t: Trace, base: nat, lo: nat, hi: nat, file: Bytes)
    requires Inv(map[], w, lay, t, base, lo, hi, file)
    ensures Closed(t, lo, hi)
    ensures forall p :: 0 <= p < |w.completed| ==> w.completed[p].Some?
    ensures TakeCount(w.completed, w.short) <= |w.completed|
    ensures w.stats.requestsSent == w.stats.responsesCompleted == |w.completed|
  {
    hide Start, Finals, Filled;
    forall id, o, l | ReadSent(id, o, l) in t ensures Finals(t, id) == 1 {
      var p :| 0 <= p < |lay.ids| && lay.ids[p] == id;
      assert Sent(t, base, w.completed, lay, p);
    }
  }

  /** The lengths alone, without trusting the server. */
  lemma {:induction false} AssemblesSize(w: Progress, lay: Layout, t: Trace, target: nat, lo: nat, hi: nat, base: nat, file: Bytes)
    requires Inv(map[], w, lay, t, base, lo, hi, file) && w.failure.None?
    requires w.scheduled <= target && forall p :: 0 <= p < |w.completed| ==> w.completed[p].Some?
    requires TakeCount(w.completed, w.short) <= |w.completed|
    ensures |Assembled(w.completed, TakeCount(w.completed, w.short))| <= target
  {
    assert |w.completed| == |lay.lens| && w.scheduled == Start(lay.lens, |lay.lens|);
    assert ShortIsShort(lay.lens, w.completed, w.short) && Filled(file, t, base, w, lay);
    hide Start, Finals, Consistent, Recorded, SlotsOk, SizesOk, Slice;
    AssembledSize(lay.lens, w.completed, w.short);
  }

  /** The collected chunks are what the READ contract asks for. */
  lemma {:induction false} Assembles(w: Progress, lay: Layout, t: Trace, h: FileHandle, offset: u64, length: nat,
                                     lo: nat, hi: nat, file: Bytes)
    requires Inv(map[], w, lay, t, offset, lo, hi, file) && w.failure.None?
    requires w.scheduled <= Target(h, offset, length)
    requires w.short.Some? || w.scheduled == Target(h, offset, length)
    requires forall p :: 0 <= p < |w.completed| ==> w.completed[p].Some?
    requires TakeCount(w.completed, w.short) <= |w.completed|
    ensures Refines(file, h, offset, length, Assembled(w.completed, TakeCount(w.completed, w.short)), t)
  {
    assert |w.completed| == |lay.lens| && w.scheduled == Start(lay.lens, |lay.lens|);
    assert ShortIsShort(lay.lens, w.completed, w.short) && Filled(file, t, offset, w, lay);
    AssemblesSize(w, lay, t, Target(h, offset, length), lo, hi, offset, file);
    hide Start, Finals, Consistent, Recorded, SlotsOk, SizesOk, Slice;
    if Honest(file, t) {
      var complete := Complete(file, t);
      AssembledSlice(file, offset, lay.lens, w.completed, w.short, complete);
      var out := Assembled(w.completed, TakeCount(w.completed, w.short));
      if w.short.Some? && complete {
        SliceShort(file, offset, w.scheduled, Target(h, offset, length));
      }
    }
  }

  method Concatenate(done: Slots, count: nat) returns (out: Bytes)
    requires count <= |done| && forall p :: 0 <= p < count ==> done[p].Some?
    ensures out == Assembled(done, count)
  {
    out := [];
    for p := 0 to count
      invariant out == Assembled(done, p)
    {
      out := out + done[p].value;
    }
  }

  /** Reads a window with several READs outstanding. An Ok result meets the same contract as the
      sequential read; an Ok or server-status outcome leaves nothing outstanding. */
  method ReadAtPipelinedWithStats(s: SessionConnection, h: FileHandle, offset: u64, length: nat,
                                  options: PipelinedReadOptions, ghost file: Bytes)
    returns (r: Result<(Bytes, Stats)>)
    requires s.Valid()
    modifies s`inbox, s`trace, s`sendsLeft, s`leaked, s.credits, s.messageIds
    ensures s.Valid() && old(s.trace) <= s.trace
    ensures r != Err(Cancelled) && r != Err(Protocol(InsufficientCredits)) && r != Err(Protocol(MissingResponse))
    ensures r != Err(Protocol(ZeroChunk))
    ensures Target(h, offset, length) == 0 ==> s.trace == old(s.trace) && r.Ok? && r.value.0 == []
    ensures Target(h, offset, length) > 0 && (s.encrypted || options.chunkSize == 0 || options.maxInFlight == 0) ==>
              s.trace == old(s.trace) && r.Err? && r.error in {Protocol(Encrypted), Protocol(BadOptions)}
    ensures r.Err? && !r.error.ServerStatus? ==>
              Excused(s, h, s.trace[|old(s.trace)|..], r.error, old(s.messageIds.next))
              || (r.error == Protocol(BadOptions) && (options.chunkSize == 0 || options.maxInFlight == 0))
    ensures r.Err? && r.error.ServerStatus? ==> FirstDenial(s.trace[|old(s.trace)|..], {}) == Some(r.error.status)
    ensures r.Ok? ==> FirstDenial(s.trace[|old(s.trace)|..], {}) == None
    ensures r.Ok? || r.error.ServerStatus? || r.error == Protocol(NoCredits) ==>
              Paid(s, s.trace[|old(s.trace)|..], old(s.messageIds.next), old(s.credits.available))
    ensures r.Ok? || r.error.ServerStatus? || r.error == Protocol(NoCredits) ==>
              Closed(s.trace[|old(s.trace)|..], old(s.messageIds.next), s.messageIds.next)
    ensures r.Ok? ==> Refines(file, h, offset, length, r.value.0, s.trace[|old(s.trace)|..])
    ensures r.Ok? ==> AllGenuine(s, s.trace[|old(s.trace)|..])
    ensures r.Ok? ==>
              && Tally(r.value.1.requestsSent, r.value.1.responsesCompleted, r.value.1.peakInFlight) == TallyOf(s.trace[|old(s.trace)|..])
              && r.value.1.requestsSent == r.value.1.responsesCompleted && r.value.1.peakInFlight <= options.maxInFlight
              && r.value.1.creditStalls <= |old(s.inbox)| - |s.inbox|
  {
    hide Closed, SessionConnection.Valid, Refused, AllGenuine, Settles, Refines, FirstDenial, TallyOf;
    if length == 0 || offset >= h.length {
      NothingRead(file, h, offset, length, old(s.messageIds.next));
      NothingReceived(s);
      NothingPaid(s);
      assert s.trace[|old(s.trace)|..] == [];
      return Ok(([], Stats(0, 0, 0, 0)));
    }
    if options.chunkSize == 0 || options.maxInFlight == 0 {
      return Err(Protocol(BadOptions));
    }
    if s.encrypted {
      return Err(Protocol(Encrypted));
    }
    r := ReadWindow(s, h, offset, length, options, file);
  }

  /** The loop of the sliding window: fill it, then take whichever response comes next. */
  method ReadWindow(s: SessionConnection, h: FileHandle, offset: u64, length: nat, options: PipelinedReadOptions, ghost file: Bytes)
    returns (r: Result<(Bytes, Stats)>)
    requires s.Valid() && Target(h, offset, length) > 0 && options.chunkSize > 0 && options.maxInFlight > 0
    modifies s`inbox, s`trace, s`sendsLeft, s`leaked, s.credits, s.messageIds
    ensures s.Valid() && old(s.trace) <= s.trace
    ensures r.Err? ==> r.error.ServerStatus? || r.error == Protocol(NoCredits) || Abandons(r.error)
    ensures r.Err? && !r.error.ServerStatus? ==> Excused(s, h, s.trace[|old(s.trace)|..], r.error, old(s.messageIds.next))
    ensures r.Err? && r.error.ServerStatus? ==> FirstDenial(s.trace[|old(s.trace)|..], {}) == Some(r.error.status)
    ensures r.Ok? || r.error.ServerStatus? || r.error == Protocol(NoCredits) ==>
              && Closed(s.trace[|old(s.trace)|..], old(s.messageIds.next), s.messageIds.next)
              && Paid(s, s.trace[|old(s.trace)|..], old(s.messageIds.next), old(s.credits.available))
    ensures r.Ok? ==>
              var t := s.trace[|old(s.trace)|..];
              && FirstDenial(t, {}) == None && AllGenuine(s, t) && Refines(file, h, offset, length, r.value.0, t)
              && Tally(r.value.1.requestsSent, r.value.1.responsesCompleted, r.value.1.peakInFlight) == TallyOf(t)
              && r.value.1.requestsSent == r.value.1.responsesCompleted && r.value.1.peakInFlight <= options.maxInFlight
              && r.value.1.creditStalls <= |old(s.inbox)| - |s.inbox|
  {
    hide Inv, Closed, Honest, Complete, SessionConnection.Valid, Refused, AllGenuine, Settles, Refines, FirstDenial, TallyOf,
         AfterSend, TakeCount, Assembled;
    var w := Progress([], 0, None, None, Stats(0, 0, 0, 0));
    var target := Target(h, offset, length);
    ghost var origin, lo, lay, credits := s.trace, s.messageIds.next, Layout([], []), s.credits.available;
    var table := new OutstandingReads();
    InitialInv(s.trace[|origin|..], offset, lo, file);
    NothingReceived(s);
    NothingPaid(s);
    assert s.trace[|origin|..] == [];
    while true
      invariant s.Valid() && origin <= s.trace && w.scheduled <= target && fresh(table)
      invariant |table.byMessageId| <= options.maxInFlight && w.stats.peakInFlight <= options.maxInFlight
      invariant Inv(table.byMessageId, w, lay, s.trace[|origin|..], offset, lo, s.messageIds.next, file)
      invariant AllGenuine(s, s.trace[|origin|..]) && Paid(s, s.trace[|origin|..], lo, credits)
      invariant w.stats.creditStalls + |s.inbox| <= |old(s.inbox)|
      decreases |s.inbox|
    {
      var stalled: Result<bool>;
      stalled, w, lay := FillWindow(s, h, offset, target, options, table, w, lay, origin, lo, credits, file);
      if stalled.Err? {
        return Err(stalled.error);
      }
      if stalled.value && table.byMessageId != map[] {
        StallKeeps(table.byMessageId, w, lay, s.trace[|origin|..], offset, lo, s.messageIds.next, file);
        w := Stalled(w);
      }
      if table.byMessageId == map[] {
        Quiescent(w, lay, s.trace[|origin|..], offset, lo, s.messageIds.next, file);
        InvTells(table.byMessageId, w, lay, s.trace[|origin|..], offset, lo, s.messageIds.next, file);
        if w.failure.Some? {
          return Err(ServerStatus(w.failure.value));
        }
        if w.short.None? && w.scheduled < target {
          return Err(Protocol(NoCredits));
        }
        break;
      }
      var taken := TakeResponse(s, h, offset, table, w, lay, origin, lo, credits, file);
      if taken.Err? {
        return Err(taken.error);
      }
      w := taken.value;
    }
    Assembles(w, lay, s.trace[|origin|..], h, offset, length, lo, s.messageIds.next, file);
    var out := Concatenate(w.completed, TakeCount(w.completed, w.short));
    return Ok((out, w.stats));
  }

  lemma InvTells(table: Table, w: Progress, lay: Layout, t: Trace, base: nat, lo: nat, hi: nat, file: Bytes)
    requires Inv(table, w, lay, t, base, lo, hi, file)
    ensures Tells(w, t)
  {
    hide Consistent, Recorded, Filled, Tracks;
  }

  function Stalled(w: Progress): Progress {
    w.(stats := w.stats.(creditStalls := w.stats.creditStalls + 1))
  }

  lemma {:induction false} StallKeeps(table: Table, w: Progress, lay: Layout, t: Trace, base: nat, lo: nat, hi: nat, file: Bytes)
    requires Inv(table, w, lay, t, base, lo, hi, file)
    ensures Inv(table, Stalled(w), lay, t, base, lo, hi, file)
  {
    hide Start, SlotsOk, Recorded, Correlated;
  }
}
