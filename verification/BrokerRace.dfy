/** Handles and runner interleaved: every load, advance, send, check and request is its own step, so
    seeks, reads, hints and the runner's work mix in every possible order. */
module BrokerRace {
  import opened Common
  import opened Broker

  type Thread = nat

  /** A handle call between two of its atomic actions. */
  datatype Call =
    | SeekHalf(p: nat, closing: bool)      // prefetch token advanced to p, playback token not yet
    | CloseReady                           // both advanced, Shutdown not sent
    | ReadAdvanced(p: nat)                 // prefetch token advanced to p
    | ReadStamped(p: nat, g: nat)          // playback generation loaded, command not sent
    | HintLoaded(g: nat)
    | HintStamped(g: nat, p: nat)

  /** Where the runner is. */
  datatype Pc =
    | Selecting
    | Grace
    | ReadCheck(c: Command)
    | ReadFetch(c: Command)
    | ReadFinal(c: Command, fetched: bool)
    | AutoCheck(c: Command)
    | AutoCheckPrefetch(c: Command)
    | Replying(c: Command, ok: bool, refill: Option<Hint>)
    | Publishing(h: Hint)
    | HintCheck(h: Hint)
    | HintAdmit(h: Hint)
    | HintPlan(h: Hint)
    | HintReady(h: Hint)
    | HintFetch(h: Hint)
    | Stopped

  /** `readFloor` and `seekFloor` record the newest prefetch generation among completed reads and
      completed seeks. */
  datatype State = State(
    cancel: nat,
    prefetch: nat,
    calls: map<Thread, Call>,
    queue: seq<Command>,
    deferred: Option<Command>,
    hint: Option<Hint>,
    changed: bool,
    active: nat,
    pc: Pc,
    sent: seq<Command>,
    ran: seq<Command>,
    readFloor: nat,
    seekFloor: nat)

  const Start: State := State(0, 0, map[], [], None, None, false, 0, Selecting, [], [], 0, 0)

  datatype Step =
    | SeekBegin(t: Thread, closing: bool)
    | SeekEnd(t: Thread)
    | CloseSend(t: Thread)
    | ReadBegin(t: Thread)
    | ReadStamp(t: Thread)
    | ReadSend(t: Thread, offset: u64, length: nat)
    | HintBegin(t: Thread)
    | HintStamp(t: Thread)
    | HintSend(t: Thread, offset: u64, length: nat)
    | TakeDeferred
    | TakeQueued
    | TakeSignal
    | GraceCommand
    | GraceOver
    | Admit
    | Fetched(ok: bool)
    | FinalCheck
    | AutoPlayback
    | AutoPrefetch(wanted: Option<(u64, nat)>)
    | Reply
    | Publish
    | CheckHint
    | AdmitHint
    | PlanHint(useful: bool)
    | StartIo
    | FinishIo

  function Accept(s: State, c: Command): State {
    s.(ran := s.ran + [c], pc := if c.Shutdown? then Stopped else ReadCheck(c))
  }

  function Forget(s: State, t: Thread): State { s.(calls := s.calls - {t}) }

  function Note(s: State, t: Thread, call: Call): State { s.(calls := s.calls[t := call]) }

  ghost predicate HandleNext(s: State, s': State, step: Step) {
    match step
    case SeekBegin(t, closing) =>
      t !in s.calls && s' == Note(s, t, SeekHalf(s.prefetch + 1, closing)).(prefetch := s.prefetch + 1)
    case SeekEnd(t) =>
      t in s.calls && s.calls[t].SeekHalf? &&
      s' == (if s.calls[t].closing then Note(s, t, CloseReady) else Forget(s, t))
            .(cancel := s.cancel + 1, seekFloor := Max(s.seekFloor, s.calls[t].p))
    case CloseSend(t) =>
      t in s.calls && s.calls[t].CloseReady? &&
      s' == Forget(s, t).(queue := s.queue + [Shutdown], sent := s.sent + [Shutdown])
    case ReadBegin(t) =>
      t !in s.calls && s' == Note(s, t, ReadAdvanced(s.prefetch + 1)).(prefetch := s.prefetch + 1)
    case ReadStamp(t) =>
      t in s.calls && s.calls[t].ReadAdvanced? && s' == Note(s, t, ReadStamped(s.calls[t].p, s.cancel))
    case ReadSend(t, offset, length) =>
      t in s.calls && s.calls[t].ReadStamped? &&
      (var c := ReadCommand(s.calls[t].g, s.calls[t].p, offset, length);
       s' == Forget(s, t).(queue := s.queue + [c], sent := s.sent + [c]))
    case HintBegin(t) =>
      t !in s.calls && s' == Note(s, t, HintLoaded(s.cancel))
    case HintStamp(t) =>
      t in s.calls && s.calls[t].HintLoaded? && s' == Note(s, t, HintStamped(s.calls[t].g, s.prefetch))
    case HintSend(t, offset, length) =>
      t in s.calls && s.calls[t].HintStamped? &&
      s' == Forget(s, t).(hint := Some(Hint(s.calls[t].g, s.calls[t].p, offset, length)), changed := true)
    case _ => false
  }

  /** The top of the runner's loop: biased selection, and the grace period. */
  ghost predicate SelectNext(s: State, s': State, step: Step) {
    match step
    case TakeDeferred =>
      s.pc.Selecting? && s.deferred.Some? && s' == Accept(s.(deferred := None), s.deferred.value)
    case TakeQueued =>
      s.pc.Selecting? && s.deferred.None? && s.queue != [] && s' == Accept(s.(queue := s.queue[1..]), s.queue[0])
    case TakeSignal =>
      s.pc.Selecting? && s.deferred.None? && s.queue == [] && s.changed && s' == s.(pc := Grace, changed := false)
    case GraceCommand =>
      s.pc.Grace? && s.queue != [] && s' == s.(deferred := Some(s.queue[0]), queue := s.queue[1..], pc := Selecting)
    case GraceOver =>
      s.pc.Grace? && s' == s.(changed := false, pc := if s.hint.Some? then HintCheck(s.hint.value) else Selecting)
    case _ => false
  }

  /** The runner at work on one command or one hint. */
  ghost predicate WorkNext(s: State, s': State, step: Step) {
    match step
    case Admit =>
      s.pc.ReadCheck? && s.pc.c.ReadCommand? &&
      s' == if s.cancel == s.pc.c.generation then s.(active := s.pc.c.generation, pc := ReadFetch(s.pc.c))
            else s.(pc := Replying(s.pc.c, false, None))
    case Fetched(ok) =>
      s.pc.ReadFetch? && s' == s.(pc := ReadFinal(s.pc.c, ok))
    case FinalCheck =>
      s.pc.ReadFinal? && s.pc.c.ReadCommand? &&
      s' == s.(pc := if s.pc.fetched && s.cancel == s.pc.c.generation then AutoCheck(s.pc.c) else Replying(s.pc.c, false, None))
    case AutoPlayback =>
      s.pc.AutoCheck? && s.pc.c.ReadCommand? &&
      s' == s.(pc := if s.cancel == s.pc.c.generation then AutoCheckPrefetch(s.pc.c) else Replying(s.pc.c, true, None))
    case AutoPrefetch(wanted) =>
      s.pc.AutoCheckPrefetch? && s.pc.c.ReadCommand? &&
      s' == s.(pc := Replying(s.pc.c, true,
                      if s.prefetch == s.pc.c.prefetchGeneration && wanted.Some?
                      then Some(Hint(s.pc.c.generation, s.pc.c.prefetchGeneration, wanted.value.0, wanted.value.1)) else None))
    case Reply =>
      s.pc.Replying? && s.pc.c.ReadCommand? &&
      s' == s.(readFloor := Max(s.readFloor, s.pc.c.prefetchGeneration),
               pc := if s.pc.refill.Some? then Publishing(s.pc.refill.value) else Selecting)
    case Publish =>
      s.pc.Publishing? && s' == s.(hint := Some(s.pc.h), changed := true, pc := Selecting)
    case CheckHint =>
      s.pc.HintCheck? && s' == s.(pc := if s.prefetch == s.pc.h.prefetchGeneration then HintAdmit(s.pc.h) else Selecting)
    case AdmitHint =>
      s.pc.HintAdmit? &&
      s' == if s.cancel == s.pc.h.playbackGeneration
            then s.(active := s.pc.h.playbackGeneration, pc := HintPlan(s.pc.h)) else s.(pc := Selecting)
    case PlanHint(useful) =>
      s.pc.HintPlan? &&
      s' == s.(pc := if useful && s.prefetch == s.pc.h.prefetchGeneration then HintReady(s.pc.h) else Selecting)
    case StartIo =>
      s.pc.HintReady? && s' == s.(pc := HintFetch(s.pc.h))
    case FinishIo =>
      s.pc.HintFetch? && s' == s.(pc := Selecting)
    case _ => false
  }

  ghost predicate RunnerNext(s: State, s': State, step: Step) { SelectNext(s, s', step) || WorkNext(s, s', step) }

  ghost predicate Next(s: State, s': State, step: Step) { HandleNext(s, s', step) || RunnerNext(s, s', step) }

  ghost predicate Run(run: seq<State>, steps: seq<Step>) {
    && |run| == |steps| + 1
    && run[0] == Start
    && forall i :: 0 <= i < |steps| ==> Next(run[i], run[i + 1], steps[i])
  }

  predicate CommandStamped(c: Command, s: State) {
    c.ReadCommand? ==> c.generation <= s.cancel && c.prefetchGeneration <= s.prefetch
  }

  predicate HintOk(h: Hint, s: State) { h.playbackGeneration <= s.cancel && h.prefetchGeneration <= s.prefetch }

  predicate CallOk(c: Call, s: State) {
    match c
    case SeekHalf(p, _) => p <= s.prefetch
    case CloseReady => true
    case ReadAdvanced(p) => p <= s.prefetch
    case ReadStamped(p, g) => p <= s.prefetch && g <= s.cancel
    case HintLoaded(g) => g <= s.cancel
    case HintStamped(g, p) => g <= s.cancel && p <= s.prefetch
  }

  predicate PcOk(s: State) {
    match s.pc
    case ReadCheck(c) => CommandStamped(c, s)
    case ReadFetch(c) => CommandStamped(c, s)
    case ReadFinal(c, _) => CommandStamped(c, s)
    case AutoCheck(c) => CommandStamped(c, s)
    case AutoCheckPrefetch(c) => CommandStamped(c, s)
    case Replying(c, _, refill) => CommandStamped(c, s) && (refill.Some? ==> HintOk(refill.value, s))
    case Publishing(h) => HintOk(h, s)
    case HintCheck(h) => HintOk(h, s)
    case HintAdmit(h) => HintOk(h, s) && h.prefetchGeneration >= s.readFloor
    case HintPlan(h) => HintOk(h, s) && h.prefetchGeneration >= s.readFloor
    case HintReady(h) => HintOk(h, s) && h.prefetchGeneration >= s.readFloor
    case HintFetch(h) => HintOk(h, s) && h.prefetchGeneration >= s.readFloor
    case _ => true
  }

  /** Counters in their natural order. */
  ghost predicate CountersOk(s: State) {
    s.active <= s.cancel && s.readFloor <= s.prefetch && s.seekFloor <= s.prefetch
  }

  /** Every stamp in flight was once a token's value. */
  ghost predicate CallsOk(s: State) {
    forall t :: t in s.calls ==> CallOk(s.calls[t], s)
  }

  ghost predicate ChannelsOk(s: State) {
    && (forall i :: 0 <= i < |s.queue| ==> CommandStamped(s.queue[i], s))
    && (s.deferred.Some? ==> CommandStamped(s.deferred.value, s))
    && (s.hint.Some? ==> HintOk(s.hint.value, s))
  }

  function Held(s: State): seq<Command> { if s.deferred.Some? then [s.deferred.value] else [] }

  ghost predicate InOrder(s: State) {
    s.sent == s.ran + (Held(s) + s.queue) && (s.pc.Grace? ==> s.deferred.None?)
  }

  ghost predicate Inv(s: State) { CountersOk(s) && CallsOk(s) && ChannelsOk(s) && PcOk(s) && InOrder(s) }

  /** What no step ever takes back. */
  ghost predicate Forward(s: State, s': State) {
    && s.cancel <= s'.cancel && s.prefetch <= s'.prefetch && s.active <= s'.active
    && s.readFloor <= s'.readFloor && s.seekFloor <= s'.seekFloor
    && s.ran <= s'.ran && s.sent <= s'.sent
  }

  lemma {:induction false} HandleCalls(s: State, s': State, step: Step)
    requires CallsOk(s) && HandleNext(s, s', step)
    ensures CallsOk(s') && Forward(s, s') && s'.pc == s.pc && s'.active == s.active
    ensures CountersOk(s) ==> CountersOk(s')
  {
    hide Accept;
    if t :| t in s.calls && t == HandleOf(step) {
      assert CallOk(s.calls[t], s);
    }
  }

  function HandleOf(step: Step): Thread {
    match step
    case SeekBegin(t, _) => t
    case SeekEnd(t) => t
    case CloseSend(t) => t
    case ReadBegin(t) => t
    case ReadStamp(t) => t
    case ReadSend(t, _, _) => t
    case HintBegin(t) => t
    case HintStamp(t) => t
    case HintSend(t, _, _) => t
    case _ => 0
  }

  lemma {:induction false} HandleChannels(s: State, s': State, step: Step)
    requires CallsOk(s) && ChannelsOk(s) && HandleNext(s, s', step)
    ensures ChannelsOk(s')
  {
    hide Accept;
    if t :| t in s.calls && t == HandleOf(step) {
      assert CallOk(s.calls[t], s);
    }
  }

  lemma HandlePc(s: State, s': State)
    requires PcOk(s) && s'.pc == s.pc && s.cancel <= s'.cancel && s.prefetch <= s'.prefetch && s'.readFloor == s.readFloor
    ensures PcOk(s')
  {}

  lemma {:induction false} HandleOrder(s: State, s': State, step: Step)
    requires InOrder(s) && HandleNext(s, s', step)
    ensures InOrder(s') && s'.readFloor == s.readFloor
  {
    if step.CloseSend? || step.ReadSend? {
      var c := s'.sent[|s.sent|];
      assert s.ran + (Held(s) + (s.queue + [c])) == s.ran + (Held(s) + s.queue) + [c];
    }
  }

  lemma {:induction false} RunnerForward(s: State, s': State, step: Step)
    requires Inv(s) && RunnerNext(s, s', step)
    ensures Forward(s, s') && CountersOk(s') && CallsOk(s')
  {
    hide ChannelsOk, InOrder;
    assert s'.calls == s.calls && s'.cancel == s.cancel && s'.prefetch == s.prefetch;
    assert CallsOk(s') by {
      forall t | t in s'.calls ensures CallOk(s'.calls[t], s') {
        assert CallOk(s.calls[t], s);
      }
    }
  }

  lemma {:induction false} RunnerChannels(s: State, s': State, step: Step)
    requires ChannelsOk(s) && PcOk(s) && RunnerNext(s, s', step)
    ensures ChannelsOk(s')
  {}

  lemma {:induction false} SelectPc(s: State, s': State, step: Step)
    requires ChannelsOk(s) && PcOk(s) && SelectNext(s, s', step)
    ensures PcOk(s')
  {}

  lemma {:induction false} WorkPc(s: State, s': State, step: Step)
    requires PcOk(s) && CountersOk(s) && WorkNext(s, s', step)
    ensures PcOk(s')
  {}

  /** Moving the head of what waits to the end of what ran changes nothing overall. */
  lemma TakeOrder(s: State, s': State, c: Command)
    requires InOrder(s) && s'.sent == s.sent && s'.ran == s.ran + [c] && !s'.pc.Grace?
    requires Held(s) + s.queue == [c] + (Held(s') + s'.queue)
    ensures InOrder(s')
  {
    hide Held;
    assert (s.ran + [c]) + (Held(s') + s'.queue) == s.ran + ([c] + (Held(s') + s'.queue));
  }

  lemma {:induction false} TakeDeferredOrder(s: State, s': State)
    requires InOrder(s) && SelectNext(s, s', TakeDeferred)
    ensures InOrder(s')
  {
    hide InOrder;
    assert Held(s) + s.queue == [s.deferred.value] + (Held(s') + s'.queue);
    TakeOrder(s, s', s.deferred.value);
  }

  lemma {:induction false} TakeQueuedOrder(s: State, s': State)
    requires InOrder(s) && SelectNext(s, s', TakeQueued)
    ensures InOrder(s')
  {
    hide InOrder;
    assert Held(s) + s.queue == [s.queue[0]] + (Held(s') + s'.queue);
    TakeOrder(s, s', s.queue[0]);
  }

  lemma {:induction false} SelectOrder(s: State, s': State, step: Step)
    requires InOrder(s) && SelectNext(s, s', step)
    ensures InOrder(s')
  {
    if step.TakeDeferred? {
      TakeDeferredOrder(s, s');
    } else if step.TakeQueued? {
      TakeQueuedOrder(s, s');
    } else {
      assert Held(s') + s'.queue == Held(s) + s.queue;
    }
  }

  lemma {:induction false} WorkOrder(s: State, s': State, step: Step)
    requires InOrder(s) && WorkNext(s, s', step)
    ensures InOrder(s')
  {}

  lemma {:induction false} StepKeeps(s: State, s': State, step: Step)
    requires Inv(s) && Next(s, s', step)
    ensures Inv(s') && Forward(s, s')
  {
    hide CountersOk, CallsOk, ChannelsOk, PcOk, InOrder, HandleNext, SelectNext, WorkNext;
    if HandleNext(s, s', step) {
      HandleCalls(s, s', step);
      HandleChannels(s, s', step);
      HandleOrder(s, s', step);
      HandlePc(s, s');
    } else {
      RunnerForward(s, s', step);
      RunnerChannels(s, s', step);
      if SelectNext(s, s', step) {
        SelectOrder(s, s', step);
        SelectPc(s, s', step);
      } else {
        WorkOrder(s, s', step);
        WorkPc(s, s', step);
      }
    }
  }

  lemma StartOk()
    ensures Inv(Start)
  {}

  lemma {:induction false} Reachable(run: seq<State>, steps: seq<Step>, k: nat)
    requires Run(run, steps) && k < |run|
    ensures Inv(run[k])
  {
    hide Inv, Next;
    if k == 0 {
      StartOk();
    } else {
      Reachable(run, steps, k - 1);
      StepKeeps(run[k - 1], run[k], steps[k - 1]);
    }
  }

  lemma {:induction false} OnlyForward(run: seq<State>, steps: seq<Step>, j: nat, k: nat)
    requires Run(run, steps) && j <= k < |run|
    ensures Forward(run[j], run[k])
    decreases k
  {
    hide Inv, Next;
    if j < k {
      OnlyForward(run, steps, j, k - 1);
      Reachable(run, steps, k - 1);
      StepKeeps(run[k - 1], run[k], steps[k - 1]);
    }
  }

  /** The active generation never decreases and never passes the playback token. */
  lemma ActiveGeneration(run: seq<State>, steps: seq<Step>, j: nat, k: nat)
    requires Run(run, steps) && j <= k < |run|
    ensures run[j].active <= run[k].active <= run[k].cancel
  {
    OnlyForward(run, steps, j, k);
    Reachable(run, steps, k);
  }

  /** Commands run in the order they were sent, deferred or not; none is lost or repeated. */
  lemma CommandsInOrder(run: seq<State>, steps: seq<Step>, k: nat)
    requires Run(run, steps) && k < |run|
    ensures run[k].ran <= run[k].sent
    ensures run[k].sent == run[k].ran + (Held(run[k]) + run[k].queue)
  {
    Reachable(run, steps, k);
  }

  /** Once a read has been answered, no hint stamped before that read was issued starts I/O. */
  lemma NoStaleHintAfterRead(run: seq<State>, steps: seq<Step>, j: nat, k: nat)
    requires Run(run, steps) && j < k < |steps|
    requires steps[j].Reply? && run[j].pc.Replying? && run[j].pc.c.ReadCommand?
    requires steps[k].StartIo?
    ensures run[k].pc.HintReady? && run[k].pc.h.prefetchGeneration >= run[j].pc.c.prefetchGeneration
  {
    assert RunnerNext(run[j], run[j + 1], steps[j]) && RunnerNext(run[k], run[k + 1], steps[k]);
    OnlyForward(run, steps, j + 1, k);
    Reachable(run, steps, k);
  }
}
