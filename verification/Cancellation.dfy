/** The shared generation token, and the discipline CANCEL requests follow
    (MS-SMB2 sections 2.2.30 and 3.2.4.24). */
module Cancellation {
  import opened Common
  import opened Messages
  import opened Session
  import opened ReadTrace

  /** A monotone generation shared with other threads, which may advance it at any time. */
  class ReadCancellationToken {
    var generation: nat

    constructor ()
      ensures generation == 0
    {
      generation := 0;
    }

    method Advance() returns (next: nat)
      modifies this
      ensures generation == next && next > old(generation)
    {
      var others: nat :| others >= 0;
      generation := generation + others + 1;
      return generation;
    }

    /** Loads the generation after whatever other threads did in the meantime. */
    method Load() returns (current: nat)
      modifies this
      ensures current == generation && generation >= old(generation)
    {
      var others: nat :| others >= 0;
      generation := generation + others;
      return generation;
    }
  }

  /** Is `generation` still current? Without a token nothing is ever cancelled. */
  method NotCancelled(token: ReadCancellationToken?, generation: nat) returns (current: bool)
    modifies token
    ensures token != null ==> token.generation >= old(token.generation)
    ensures current <==> (token == null || token.generation == generation)
  {
    current := true;
    if token != null {
      var now := token.Load();
      current := now == generation;
    }
  }

  /** Is `generation` still current? A negative answer goes into the session's history. */
  method IsCurrent(s: SessionConnection, token: ReadCancellationToken, generation: nat) returns (current: bool)
    modifies token, s`trace
    ensures token.generation >= old(token.generation)
    ensures current <==> token.generation == generation
    ensures s.trace == old(s.trace) + if current then [] else [Noticed]
  {
    var now := token.Load();
    current := now == generation;
    if !current {
      s.trace := s.trace + [Noticed];
    }
  }

  /** Why a read may end as cancelled: its generation was seen to be gone, or the server said so. */
  ghost predicate Cause(t: Trace) { Noticed in t || Revoked(t) }

  /** The server answered one of the READs by saying that it was cancelled. */
  ghost predicate Revoked(t: Trace) {
    exists m :: Got(m) in t && Revokes(t, m)
  }

  ghost predicate Revokes(t: Trace, m: Incoming) { HasStatus(m, STATUS_CANCELLED) && IsReadId(t, m.header.messageId) }

  lemma CauseWithin(t: Trace, u: Trace)
    requires Cause(t) && forall e :: e in t ==> e in u
    ensures Cause(u)
  {
    if Noticed !in t {
      var m :| Got(m) in t && Revokes(t, m);
      var o, l :| ReadSent(m.header.messageId, o, l) in t;
      assert Got(m) in u && ReadSent(m.header.messageId, o, l) in u;
      assert Revokes(u, m);
    }
  }

  /** Only a notice or an answer of that status makes a cause. */
  lemma CauseSnoc(t: Trace, e: Event)
    requires e.Noticed? || !e.ReadSent?
    ensures Cause(t + [e]) <==>
              Cause(t) || e.Noticed? || (e.Got? && HasStatus(e.message, STATUS_CANCELLED) && IsReadId(t, e.message.header.messageId))
  {
    var u := t + [e];
    assert forall x :: x in u <==> x in t || x == e;
    assert forall id :: IsReadId(u, id) <==> IsReadId(t, id);
    if Revoked(t) {
      CauseWithin(t, u);
    }
    if e.Got? && HasStatus(e.message, STATUS_CANCELLED) && IsReadId(t, e.message.header.messageId) {
      assert Revokes(u, e.message);
    }
    if m :| Got(m) in u && Revokes(u, m) {
      assert Revokes(t, m);
    }
  }

  lemma {:induction false} CauseQuiet(t: Trace, u: Trace)
    requires forall e :: e in u ==> e.CancelSent? || (e.Got? && HasStatus(e.message, STATUS_PENDING))
    ensures Cause(t + u) <==> Cause(t)
  {
    if u == [] {
      assert t + u == t;
    } else {
      var v, e := u[..|u| - 1], u[|u| - 1];
      assert e in u && forall x :: x in v ==> x in u;
      CauseQuiet(t, v);
      CauseSnoc(t + v, e);
      assert t + u == (t + v) + [e];
    }
  }

  /** READs of other MessageIds have causes of their own. */
  lemma CauseConcat(t: Trace, u: Trace, lo: nat, mid: nat, hi: nat)
    requires (forall x :: x in t ==> Within(x, lo, mid)) && (forall x :: x in u ==> Within(x, mid, hi))
    ensures Cause(t + u) <==> Cause(t) || Cause(u)
  {
    var v := t + u;
    assert forall x :: x in v <==> x in t || x in u;
    if Cause(t) {
      CauseWithin(t, v);
    }
    if Cause(u) {
      CauseWithin(u, v);
    }
    if m :| Got(m) in v && Revokes(v, m) {
      var o, l :| ReadSent(m.header.messageId, o, l) in v;
      if Got(m) in t {
        assert Within(Got(m), lo, mid);
        assert forall x :: x in u && x.ReadSent? ==> Within(x, mid, hi);
        assert Revokes(t, m);
      } else {
        assert Within(Got(m), mid, hi);
        assert forall x :: x in t && x.ReadSent? ==> Within(x, lo, mid);
        assert Revokes(u, m);
      }
    }
  }

  /** What one READ may have been sent: nothing, a sync CANCEL, a CANCEL with its AsyncId, or the
      first followed by the second. */
  predicate CancelShape(c: seq<Option<u64>>) {
    || c == []
    || c == [None]
    || (|c| == 1 && c[0].Some?)
    || (|c| == 2 && c[0] == None && c[1].Some?)
  }

  ghost predicate Timely(t: Trace, j: nat)
    requires j < |t|
  {
    t[j].CancelSent? ==>
      && Finals(t[..j], t[j].id) == 0
      && (t[j].asyncId.Some? ==> Announced(t[..j], t[j].id, t[j].asyncId.value))
  }

  /** No CANCEL follows its READ's final response, and async CANCELs carry announced AsyncIds. */
  ghost predicate AllTimely(t: Trace) {
    forall j :: 0 <= j < |t| ==> Timely(t, j)
  }

  /** When staleness was noticed at `k`, a READ then unfinished is cancelled afterwards: by the AsyncId
      it had learned, or synchronously if it had none. */
  ghost predicate HandledAt(t: Trace, k: nat, id: u64)
    requires k <= |t|
  {
    Finals(t[..k], id) > 0 || CancelSent(id, Learned(t[..k], id)) in t[k..]
  }

  /** After noticing a generation change no READ is sent, and all unfinished ones are cancelled. */
  ghost predicate NoticeHandled(t: Trace) {
    forall k :: 0 <= k < |t| && t[k].Noticed? ==>
      && (forall j :: k <= j < |t| ==> !t[j].ReadSent?)
      && (forall id, o, l :: ReadSent(id, o, l) in t ==> HandledAt(t, k, id))
  }

  /** An interim response that tells its AsyncId. */
  predicate GoesAsync(e: Event) {
    e.Got? && e.message.Message? && HasStatus(e.message, STATUS_PENDING) && e.message.header.id.Async?
  }

  /** The CANCEL that names the AsyncId such a response carried. */
  function AsyncCancel(e: Event): Event
    requires GoesAsync(e)
  {
    CancelSent(e.message.header.messageId, Some(e.message.header.id.asyncId))
  }

  /** Every READ that goes, or still is, async once there is a cause gets the CANCEL that names its
      AsyncId. */
  ghost predicate AsyncHandled(t: Trace) {
    forall j :: 0 <= j < |t| && GoesAsync(t[j]) && Cause(t[..j]) ==> AsyncCancel(t[j]) in t
  }

  /** Events that are no such response keep the promise. */
  lemma AsyncHandledGrows(t: Trace, u: Trace)
    requires AsyncHandled(t) && forall e :: e in u ==> !GoesAsync(e)
    ensures AsyncHandled(t + u)
  {
    hide Cause;
    var v := t + u;
    assert forall j :: |t| <= j < |v| ==> v[j] in u;
    forall j | 0 <= j < |t| && GoesAsync(v[j]) && Cause(v[..j]) ensures AsyncCancel(v[j]) in v {
      assert v[..j] == t[..j];
    }
  }

  /** A response that goes async is fine once its CANCEL is there, or while there is no cause. */
  lemma AsyncHandledGot(t: Trace, e: Event, u: Trace)
    requires AsyncHandled(t) && GoesAsync(e) && forall x :: x in u ==> !GoesAsync(x)
    requires Cause(t) ==> AsyncCancel(e) in t + u
    ensures AsyncHandled(t + [e] + u)
  {
    hide Cause;
    var v := t + [e] + u;
    assert forall j :: |t| < j < |v| ==> v[j] in u;
    assert v[..|t|] == t;
    forall j | 0 <= j < |t| && GoesAsync(v[j]) && Cause(v[..j]) ensures AsyncCancel(v[j]) in v {
      assert v[..j] == t[..j];
    }
  }

  lemma AsyncHandledConcat(t: Trace, u: Trace, lo: nat, mid: nat, hi: nat)
    requires (forall x :: x in t ==> Within(x, lo, mid)) && (forall x :: x in u ==> Within(x, mid, hi))
    requires AsyncHandled(u) && !Cause(t)
    ensures AsyncHandled(t + u)
  {
    hide Cause;
    var v := t + u;
    forall j | 0 <= j <= |t| ensures !Cause(v[..j]) {
      assert v[..j] == t[..j];
      if Cause(t[..j]) {
        CauseWithin(t[..j], t);
      }
    }
    forall j | |t| <= j < |v| && GoesAsync(v[j]) && Cause(v[..j]) ensures AsyncCancel(v[j]) in v {
      assert v[..j] == t + u[..j - |t|];
      CauseConcat(t, u[..j - |t|], lo, mid, hi);
      assert AsyncCancel(u[j - |t|]) in u;
    }
  }

  ghost predicate Disciplined(t: Trace) {
    AllTimely(t) && forall id: u64 :: CancelShape(Cancels(t, id))
  }

  lemma {:induction false} TimelyAppend(t: Trace, e: Event)
    requires AllTimely(t)
    requires e.CancelSent? ==>
               Finals(t, e.id) == 0 && (e.asyncId.Some? ==> Announced(t, e.id, e.asyncId.value))
    ensures AllTimely(t + [e])
  {
    hide Finals, Announced;
    var u := t + [e];
    forall j | 0 <= j < |u| ensures Timely(u, j) {
      if j < |t| {
        assert u[..j] == t[..j] && Timely(t, j);
      } else {
        assert u[..j] == t;
      }
    }
  }

  /** Requests in different MessageId ranges do not disturb each other's discipline. */
  lemma {:induction false} DisciplinedConcat(t: Trace, u: Trace, lo: nat, mid: nat, hi: nat)
    requires Disciplined(t) && Disciplined(u) && Closed(t, lo, mid) && Closed(u, mid, hi)
    ensures Disciplined(t + u)
  {
    hide Closed, Drained, CancelShape;
    forall id: u64 ensures CancelShape(Cancels(t + u, id)) {
      Concat(t, u, id);
      assert CancelShape(Cancels(t, id)) && CancelShape(Cancels(u, id));
      ForeignRange(t, u, lo, mid, hi, id);
      assert Cancels(t + u, id) == if id < mid then Cancels(t, id) else Cancels(u, id);
    }
    forall j | 0 <= j < |t + u| ensures Timely(t + u, j) {
      if j < |t| {
        assert (t + u)[..j] == t[..j] && Timely(t, j);
      } else {
        TimelyAfter(t, u, lo, mid, hi, j - |t|);
      }
    }
  }

  lemma {:induction false} ForeignRange(t: Trace, u: Trace, lo: nat, mid: nat, hi: nat, id: u64)
    requires Closed(t, lo, mid) && Closed(u, mid, hi)
    ensures id >= mid ==> Finals(t, id) == 0 && Cancels(t, id) == []
    ensures id < mid ==> Finals(u, id) == 0 && Cancels(u, id) == []
  {
    hide Drained, Finals, Cancels;
    if id >= mid {
      Untouched(t, id);
    } else {
      Untouched(u, id);
    }
  }

  lemma {:induction false} TimelyAfter(t: Trace, u: Trace, lo: nat, mid: nat, hi: nat, j: nat)
    requires AllTimely(u) && Closed(t, lo, mid) && Closed(u, mid, hi) && j < |u|
    ensures Timely(t + u, |t| + j)
  {
    hide Drained, Finals, Cancels;
    var e := u[j];
    assert (t + u)[|t| + j] == e && (t + u)[..|t| + j] == t + u[..j];
    if e.CancelSent? {
      assert Timely(u, j) && Within(e, mid, hi);
      ForeignRange(t, u, lo, mid, hi, e.id);
      Concat(t, u[..j], e.id);
      if e.asyncId.Some? {
        var m :| Got(m) in u[..j] && Answers(m, e.id) && m.header.id == Async(e.asyncId.value);
        assert Got(m) in t + u[..j];
      }
    }
  }

  /** READs finished before the current wave need no further handling. */
  lemma {:induction false} NoticeConcat(t: Trace, u: Trace, lo: nat, mid: nat, hi: nat)
    requires Closed(t, lo, mid) && Noticed !in t && NoticeHandled(u) && forall e :: e in u ==> Within(e, mid, hi)
    ensures NoticeHandled(t + u)
  {
    hide Finals, Learned;
    var v := t + u;
    forall k | 0 <= k < |v| && v[k].Noticed?
      ensures forall j :: k <= j < |v| ==> !v[j].ReadSent?
      ensures forall id, o, l :: ReadSent(id, o, l) in v ==> HandledAt(v, k, id)
    {
      assert k >= |t|;
      var k' := k - |t|;
      assert u[k'].Noticed? && v[..k] == t + u[..k'] && v[k..] == u[k'..];
      forall id, o, l | ReadSent(id, o, l) in v ensures HandledAt(v, k, id) {
        Concat(t, u[..k'], id);
        if ReadSent(id, o, l) in t {
          assert Finals(t, id) == 1;
        } else {
          assert HandledAt(u, k', id);
          assert Within(ReadSent(id, o, l), mid, hi);
          assert forall m :: Got(m) in t ==> Within(Got(m), lo, mid);
          LearnedLater(t, u[..k'], id);
        }
      }
    }
  }
}
