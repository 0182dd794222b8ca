/** Whole histories of the broker: where every stamp in flight was taken, when an answered read's
    generation was current, and exactly when a hint is acted on although a seek has overtaken it. */
module BrokerHistory {
  import opened Common
  import opened Broker
  import opened BrokerRace

  /** At step `b` a read with prefetch stamp `p` loads playback generation `g`. */
  ghost predicate ReadStampAt(run: seq<State>, steps: seq<Step>, b: nat, p: nat, g: nat)
    requires b < |steps| && b < |run|
  {
    steps[b].ReadStamp? && steps[b].t in run[b].calls && run[b].calls[steps[b].t] == ReadAdvanced(p) && run[b].cancel == g
  }

  ghost predicate ReadStampKnown(run: seq<State>, steps: seq<Step>, n: nat, p: nat, g: nat)
    requires n <= |steps| && n <= |run|
  {
    exists b: nat :: b < n && ReadStampAt(run, steps, b, p, g)
  }

  /** The stamps (prefetch, playback) that reads have taken so far. */
  ghost function PastOf(run: seq<State>, steps: seq<Step>, n: nat): iset<(nat, nat)>
    requires n <= |steps| && n <= |run|
  {
    iset x: (nat, nat) | ReadStampKnown(run, steps, n, x.0, x.1)
  }

  ghost predicate CommandTaken(c: Command, past: iset<(nat, nat)>) {
    c.ReadCommand? ==> (c.prefetchGeneration, c.generation) in past
  }

  ghost predicate CallTaken(c: Call, past: iset<(nat, nat)>) {
    c.ReadStamped? ==> (c.p, c.g) in past
  }

  ghost predicate PcTaken(pc: Pc, past: iset<(nat, nat)>) {
    match pc
    case ReadCheck(c) => CommandTaken(c, past)
    case ReadFetch(c) => CommandTaken(c, past)
    case ReadFinal(c, _) => CommandTaken(c, past)
    case AutoCheck(c) => CommandTaken(c, past)
    case AutoCheckPrefetch(c) => CommandTaken(c, past)
    case Replying(c, _, _) => CommandTaken(c, past)
    case _ => true
  }

  ghost predicate CallsTaken(s: State, past: iset<(nat, nat)>) {
    forall t :: t in s.calls ==> CallTaken(s.calls[t], past)
  }

  ghost predicate ChannelsTaken(s: State, past: iset<(nat, nat)>) {
    && (forall i :: 0 <= i < |s.queue| ==> CommandTaken(s.queue[i], past))
    && (s.deferred.Some? ==> CommandTaken(s.deferred.value, past))
  }

  /** Every stamp of a read in flight was really taken. */
  ghost predicate AllTaken(s: State, past: iset<(nat, nat)>) { CallsTaken(s, past) && ChannelsTaken(s, past) && PcTaken(s.pc, past) }

  /** `past'` knows what `past` knew and the stamp `step` takes. */
  ghost predicate Grows(s: State, step: Step, past: iset<(nat, nat)>, past': iset<(nat, nat)>) {
    && past <= past'
    && (step.ReadStamp? && step.t in s.calls && s.calls[step.t].ReadAdvanced? ==> (s.calls[step.t].p, s.cancel) in past')
  }

  lemma {:induction false} PastGrows(run: seq<State>, steps: seq<Step>, n: nat)
    requires n < |steps| && n < |run|
    ensures Grows(run[n], steps[n], PastOf(run, steps, n), PastOf(run, steps, n + 1))
  {
    var past, past' := PastOf(run, steps, n), PastOf(run, steps, n + 1);
    var s, step := run[n], steps[n];
    forall x | x in past ensures x in past' {
      assert ReadStampKnown(run, steps, n, x.0, x.1);
    }
    if step.ReadStamp? && step.t in s.calls && s.calls[step.t].ReadAdvanced? {
      assert ReadStampAt(run, steps, n, s.calls[step.t].p, s.cancel);
    }
  }

  lemma {:induction false} HandleCallsTaken(s: State, s': State, step: Step, past: iset<(nat, nat)>, past': iset<(nat, nat)>)
    requires CallsTaken(s, past) && HandleNext(s, s', step) && Grows(s, step, past, past')
    ensures CallsTaken(s', past')
  {
    forall t | t in s'.calls ensures CallTaken(s'.calls[t], past') {
      if t in s.calls {
        assert CallTaken(s.calls[t], past);
      }
    }
  }

  lemma {:induction false} HandleChannelsTaken(s: State, s': State, step: Step, past: iset<(nat, nat)>, past': iset<(nat, nat)>)
    requires CallsTaken(s, past) && ChannelsTaken(s, past) && HandleNext(s, s', step) && Grows(s, step, past, past')
    ensures ChannelsTaken(s', past')
  {
    if t :| t in s.calls && t == HandleOf(step) {
      assert CallTaken(s.calls[t], past);
    }
  }

  lemma PcStaysTaken(s: State, step: Step, past: iset<(nat, nat)>, past': iset<(nat, nat)>)
    requires PcTaken(s.pc, past) && Grows(s, step, past, past')
    ensures PcTaken(s.pc, past')
  {}

  lemma HandleKeepsPc(s: State, s': State, step: Step)
    requires HandleNext(s, s', step)
    ensures s'.pc == s.pc
  {
    hide Accept;
  }

  lemma RunnerKeepsCalls(s: State, s': State, step: Step)
    requires RunnerNext(s, s', step)
    ensures s'.calls == s.calls
  {}

  lemma CallsStayTaken(s: State, s': State, past: iset<(nat, nat)>, past': iset<(nat, nat)>)
    requires CallsTaken(s, past) && s'.calls == s.calls && past <= past'
    ensures CallsTaken(s', past')
  {
    forall t | t in s'.calls ensures CallTaken(s'.calls[t], past') {
      assert CallTaken(s.calls[t], past);
    }
  }

  lemma {:induction false} SelectTaken(s: State, s': State, step: Step, past: iset<(nat, nat)>, past': iset<(nat, nat)>)
    requires ChannelsTaken(s, past) && PcTaken(s.pc, past) && SelectNext(s, s', step) && Grows(s, step, past, past')
    ensures ChannelsTaken(s', past') && PcTaken(s'.pc, past')
  {}

  lemma {:induction false} WorkTaken(s: State, s': State, step: Step, past: iset<(nat, nat)>, past': iset<(nat, nat)>)
    requires ChannelsTaken(s, past) && PcTaken(s.pc, past) && WorkNext(s, s', step) && Grows(s, step, past, past')
    ensures ChannelsTaken(s', past') && PcTaken(s'.pc, past')
  {}

  /** In every run, a read in flight carries the stamp pair that some read took earlier. */
  lemma {:induction false} StampsAreTaken(run: seq<State>, steps: seq<Step>, n: nat)
    requires Run(run, steps) && n <= |steps|
    ensures AllTaken(run[n], PastOf(run, steps, n))
  {
    hide Next, PastOf, Grows, CallsTaken, ChannelsTaken, PcTaken, HandleNext, SelectNext, WorkNext;
    if n == 0 {
      StartTaken(PastOf(run, steps, 0));
    } else {
      var s, s', step, past, past' := run[n - 1], run[n], steps[n - 1], PastOf(run, steps, n - 1), PastOf(run, steps, n);
      StampsAreTaken(run, steps, n - 1);
      PastGrows(run, steps, n - 1);
      StepTaken(s, s', step, past, past');
    }
  }

  lemma StartTaken(past: iset<(nat, nat)>)
    ensures AllTaken(Start, past)
  {}

  lemma {:induction false} StepTaken(s: State, s': State, step: Step, past: iset<(nat, nat)>, past': iset<(nat, nat)>)
    requires AllTaken(s, past) && Next(s, s', step) && Grows(s, step, past, past')
    ensures AllTaken(s', past')
  {
    hide CallsTaken, ChannelsTaken, PcTaken, HandleNext, SelectNext, WorkNext;
    if HandleNext(s, s', step) {
      HandleCallsTaken(s, s', step, past, past');
      HandleChannelsTaken(s, s', step, past, past');
      HandleKeepsPc(s, s', step);
      PcStaysTaken(s, step, past, past');
    } else {
      RunnerKeepsCalls(s, s', step);
      CallsStayTaken(s, s', past, past');
      if SelectNext(s, s', step) {
        SelectTaken(s, s', step, past, past');
      } else {
        WorkTaken(s, s', step, past, past');
      }
    }
  }

  /** A positive reply only ever follows the final check of the same read: at that check its data had
      been fetched and its generation was current. */
  lemma {:induction false} PositiveReply(run: seq<State>, steps: seq<Step>, n: nat) returns (m: nat)
    requires Run(run, steps) && n < |run| && Positive(run[n].pc)
    ensures m < n && steps[m].FinalCheck? && run[m].pc == ReadFinal(run[n].pc.c, true)
    ensures run[n].pc.c.ReadCommand? && run[m].cancel == run[n].pc.c.generation
  {
    hide Next;
    StartIsNot(run, steps, n);
    PositiveStep(run[n - 1], run[n], steps[n - 1]);
    if steps[n - 1].FinalCheck? {
      m := n - 1;
    } else {
      m := PositiveReply(run, steps, n - 1);
    }
  }

  /** Between a passed final check and the positive reply. */
  predicate Positive(pc: Pc) { pc.AutoCheck? || pc.AutoCheckPrefetch? || (pc.Replying? && pc.ok) }

  lemma StartIsNot(run: seq<State>, steps: seq<Step>, n: nat)
    requires Run(run, steps) && n < |run| && !run[n].pc.Selecting?
    ensures n > 0 && Next(run[n - 1], run[n], steps[n - 1])
  {
    hide Next;
  }

  lemma PositiveStep(s: State, s': State, step: Step)
    requires Next(s, s', step) && Positive(s'.pc)
    ensures if step.FinalCheck? then s.pc == ReadFinal(s'.pc.c, true) && s'.pc.c.ReadCommand? && s.cancel == s'.pc.c.generation
            else Positive(s.pc) && s.pc.c == s'.pc.c
  {
    if HandleNext(s, s', step) {
      HandleKeepsPc(s, s', step);
    }
  }

  /** In every interleaving a read is answered with data only if its generation was current at its
      final check, and then no seek or close had completed since the read took that stamp. */
  lemma AnsweredWhileCurrent(run: seq<State>, steps: seq<Step>, k: nat) returns (b: nat, m: nat)
    requires Run(run, steps) && k < |steps|
    requires steps[k].Reply? && run[k].pc.Replying? && run[k].pc.ok
    ensures b < m < k && run[k].pc.c.ReadCommand?
    ensures var c := run[k].pc.c;
            && ReadStampAt(run, steps, b, c.prefetchGeneration, c.generation)
            && steps[m].FinalCheck? && run[m].pc == ReadFinal(c, true)
            && forall j :: b <= j <= m ==> run[j].cancel == c.generation && (j < m ==> !steps[j].SeekEnd?)
  {
    hide Next, ReadStampAt;
    m := PositiveReply(run, steps, k);
    var c := run[k].pc.c;
    StampsAreTaken(run, steps, m);
    assert ReadStampKnown(run, steps, m, c.prefetchGeneration, c.generation);
    b :| b < m && ReadStampAt(run, steps, b, c.prefetchGeneration, c.generation);
    StampValue(run, steps, b, c.prefetchGeneration, c.generation);
    CancelMoves(run, steps, b, m);
    forall j | b <= j <= m ensures run[j].cancel == c.generation {
      OnlyForward(run, steps, b, j);
      OnlyForward(run, steps, j, m);
    }
  }

  lemma StampValue(run: seq<State>, steps: seq<Step>, b: nat, p: nat, g: nat)
    requires b < |steps| && b < |run| && ReadStampAt(run, steps, b, p, g)
    ensures run[b].cancel == g
  {}

  predicate AdvancesPrefetch(step: Step) { step.SeekBegin? || step.ReadBegin? }

  lemma TokenStep(s: State, s': State, step: Step)
    requires Next(s, s', step)
    ensures s'.cancel == s.cancel + if step.SeekEnd? then 1 else 0
    ensures s'.prefetch == s.prefetch + if AdvancesPrefetch(step) then 1 else 0
  {
    if RunnerNext(s, s', step) {
      hide HandleNext;
      assert !step.SeekEnd? && !AdvancesPrefetch(step);
    }
  }

  lemma ReadCallStep(s: State, s': State, step: Step, t: Thread)
    requires Next(s, s', step) && t in s'.calls && s'.calls[t].ReadAdvanced?
    ensures (t in s.calls && s.calls[t] == s'.calls[t]) || (step == ReadBegin(t) && s'.calls[t].p == s.prefetch + 1)
    ensures step != ReadStamp(t)
  {
    if RunnerNext(s, s', step) {
      hide HandleNext;
      RunnerKeepsCalls(s, s', step);
    }
  }

  lemma {:induction false} ReadBegan(run: seq<State>, steps: seq<Step>, n: nat, t: Thread, p: nat) returns (i: nat)
    requires Run(run, steps) && n < |run| && t in run[n].calls && run[n].calls[t] == ReadAdvanced(p)
    ensures i < n && steps[i] == ReadBegin(t) && p == run[i].prefetch + 1
    ensures forall j :: i < j < n ==> steps[j] != ReadStamp(t)
  {
    hide Next;
    assert n > 0;
    assert Next(run[n - 1], run[n], steps[n - 1]);
    ReadCallStep(run[n - 1], run[n], steps[n - 1], t);
    if t in run[n - 1].calls && run[n - 1].calls[t] == run[n].calls[t] {
      i := ReadBegan(run, steps, n - 1, t, p);
    } else {
      i := n - 1;
    }
  }

  /** No two reads take the same prefetch stamp, so the stamp pair of a read tells which step took it. */
  lemma OneReadStamp(run: seq<State>, steps: seq<Step>, b: nat, b': nat, p: nat, g: nat, g': nat)
    requires Run(run, steps) && b < |steps| && b' < |steps|
    requires ReadStampAt(run, steps, b, p, g) && ReadStampAt(run, steps, b', p, g')
    ensures b == b' && g == g'
  {
    hide Next;
    var i := ReadBegan(run, steps, b, steps[b].t, p);
    var i' := ReadBegan(run, steps, b', steps[b'].t, p);
    assert Next(run[i], run[i + 1], steps[i]) && Next(run[i'], run[i' + 1], steps[i']);
    TokenStep(run[i], run[i + 1], steps[i]);
    TokenStep(run[i'], run[i' + 1], steps[i']);
    if i < i' {
      OnlyForward(run, steps, i + 1, i');
    } else if i' < i {
      OnlyForward(run, steps, i' + 1, i);
    }
  }

  /** The playback token moves exactly when a seek or close completes. */
  lemma {:induction false} CancelMoves(run: seq<State>, steps: seq<Step>, a: nat, k: nat)
    requires Run(run, steps) && a <= k < |run|
    ensures run[a].cancel < run[k].cancel <==> exists j :: a <= j < k && steps[j].SeekEnd?
    decreases k
  {
    hide Next;
    if a < k {
      CancelMoves(run, steps, a, k - 1);
      OnlyForward(run, steps, a, k - 1);
      TokenStep(run[k - 1], run[k], steps[k - 1]);
    }
  }

  /** The prefetch token moves exactly when a seek, a close or a read begins. */
  lemma {:induction false} PrefetchMoves(run: seq<State>, steps: seq<Step>, a: nat, k: nat)
    requires Run(run, steps) && a <= k < |run|
    ensures run[a].prefetch < run[k].prefetch <==> exists j :: a <= j < k && AdvancesPrefetch(steps[j])
    decreases k
  {
    hide Next, AdvancesPrefetch;
    if a < k {
      PrefetchMoves(run, steps, a, k - 1);
      OnlyForward(run, steps, a, k - 1);
      TokenStep(run[k - 1], run[k], steps[k - 1]);
    }
  }

  function HintOf(pc: Pc): Option<Hint> {
    match pc
    case HintCheck(h) => Some(h)
    case HintAdmit(h) => Some(h)
    case HintPlan(h) => Some(h)
    case _ => None
  }

  /** What each check of a hint sees, given when its stamps were taken: the first and the last pass
      exactly if no seek, close or read has begun since the prefetch stamp, the second exactly if no
      seek or close has completed since the playback stamp. */
  lemma HintChecksSeeSeeks(run: seq<State>, steps: seq<Step>, b: nat, s: nat, k: nat, h: Hint)
    requires Run(run, steps) && b <= k < |steps| && s <= k && HintOf(run[k].pc) == Some(h)
    requires run[b].cancel == h.playbackGeneration && run[s].prefetch == h.prefetchGeneration
    ensures steps[k].CheckHint? ==>
              (run[k + 1].pc == HintAdmit(h) <==> forall j :: s <= j < k ==> !AdvancesPrefetch(steps[j]))
    ensures steps[k].AdmitHint? ==>
              (run[k + 1].pc == HintPlan(h) <==> forall j :: b <= j < k ==> !steps[j].SeekEnd?)
    ensures steps[k] == PlanHint(true) ==>
              (run[k + 1].pc == HintReady(h) <==> forall j :: s <= j < k ==> !AdvancesPrefetch(steps[j]))
  {
    hide AdvancesPrefetch;
    CancelMoves(run, steps, b, k);
    PrefetchMoves(run, steps, s, k);
    OnlyForward(run, steps, b, k);
    OnlyForward(run, steps, s, k);
    assert Next(run[k], run[k + 1], steps[k]);
  }

  /** At step `j` a seek completes that began after the prefetch token stood at `bound`. */
  ghost predicate NewerSeekEnds(run: seq<State>, steps: seq<Step>, bound: nat, j: nat)
    requires j < |steps| && j < |run|
  {
    steps[j].SeekEnd? && steps[j].t in run[j].calls && run[j].calls[steps[j].t].SeekHalf? && run[j].calls[steps[j].t].p > bound
  }

  lemma {:induction false} FloorRises(run: seq<State>, steps: seq<Step>, bound: nat, a: nat, k: nat)
    requires Run(run, steps) && a <= k < |run| && run[a].seekFloor <= bound
    ensures run[k].seekFloor > bound <==> exists j :: a <= j < k && NewerSeekEnds(run, steps, bound, j)
    decreases k
  {
    if a < k {
      FloorRises(run, steps, bound, a, k - 1);
      OnlyForward(run, steps, k - 1, k);
      FloorStep(run[k - 1], run[k], steps[k - 1]);
      if run[k].seekFloor > bound && run[k - 1].seekFloor <= bound {
        assert NewerSeekEnds(run, steps, bound, k - 1);
      }
    }
  }

  lemma FloorStep(s: State, s': State, step: Step)
    requires Next(s, s', step)
    ensures step.SeekEnd? ==> step.t in s.calls && s.calls[step.t].SeekHalf? && s'.seekFloor == Max(s.seekFloor, s.calls[step.t].p)
    ensures !step.SeekEnd? ==> s'.seekFloor == s.seekFloor
  {
    if !HandleNext(s, s', step) {
      hide HandleNext;
      RunnerFloor(s, s', step);
    }
  }

  lemma RunnerFloor(s: State, s': State, step: Step)
    requires RunnerNext(s, s', step)
    ensures !step.SeekEnd? && s'.seekFloor == s.seekFloor
  {}

  lemma ReadyStep(s: State, s': State, step: Step)
    requires Next(s, s', step)
    ensures s'.pc.HintReady? ==>
              s.pc == s'.pc || (step.PlanHint? && s.pc == HintPlan(s'.pc.h) && s.prefetch == s'.pc.h.prefetchGeneration)
    ensures s'.pc.HintPlan? ==>
              s.pc == s'.pc || (step.AdmitHint? && s.pc == HintAdmit(s'.pc.h) && s.cancel == s'.pc.h.playbackGeneration)
  {
    if HandleNext(s, s', step) {
      HandleKeepsPc(s, s', step);
    }
  }

  /** The last check of the hint the runner is about to act on. */
  lemma {:induction false} PlannedBefore(run: seq<State>, steps: seq<Step>, k: nat) returns (m: nat)
    requires Run(run, steps) && k < |run| && run[k].pc.HintReady?
    ensures m < k && steps[m].PlanHint? && run[m].pc == HintPlan(run[k].pc.h)
    ensures run[m].prefetch == run[k].pc.h.prefetchGeneration
    ensures forall j :: m < j <= k ==> run[j].pc == run[k].pc
  {
    hide Next;
    StartIsNot(run, steps, k);
    ReadyStep(run[k - 1], run[k], steps[k - 1]);
    if run[k - 1].pc == run[k].pc {
      m := PlannedBefore(run, steps, k - 1);
    } else {
      m := k - 1;
    }
  }

  /** The admission of the hint the runner is planning for. */
  lemma {:induction false} AdmittedBefore(run: seq<State>, steps: seq<Step>, m: nat) returns (a: nat)
    requires Run(run, steps) && m < |run| && run[m].pc.HintPlan?
    ensures a < m && steps[a].AdmitHint? && run[a].pc == HintAdmit(run[m].pc.h)
    ensures run[a].cancel == run[m].pc.h.playbackGeneration
    ensures forall j :: a < j <= m ==> run[j].pc == run[m].pc
  {
    hide Next;
    StartIsNot(run, steps, m);
    ReadyStep(run[m - 1], run[m], steps[m - 1]);
    if run[m - 1].pc == run[m].pc {
      a := AdmittedBefore(run, steps, m - 1);
    } else {
      a := m - 1;
    }
  }

  /** One seek or close from its first token to its second. */
  ghost predicate SeekSpans(run: seq<State>, steps: seq<Step>, i: nat, j: nat)
    requires i < j < |steps| && j < |run|
  {
    && steps[i].SeekBegin? && steps[j] == SeekEnd(steps[i].t)
    && forall n :: i < n <= j ==> steps[i].t in run[n].calls && run[n].calls[steps[i].t] == SeekHalf(run[i].prefetch + 1, steps[i].closing)
  }

  lemma SeekHalfStep(s: State, s': State, step: Step, t: Thread)
    requires Next(s, s', step) && t in s'.calls && s'.calls[t].SeekHalf?
    ensures (t in s.calls && s.calls[t] == s'.calls[t]) || (step == SeekBegin(t, s'.calls[t].closing) && s'.calls[t].p == s.prefetch + 1)
  {
    if RunnerNext(s, s', step) {
      hide HandleNext;
      assert s'.calls == s.calls;
    }
  }

  lemma {:induction false} SeekBegan(run: seq<State>, steps: seq<Step>, n: nat, t: Thread) returns (i: nat)
    requires Run(run, steps) && n < |run| && t in run[n].calls && run[n].calls[t].SeekHalf?
    ensures i < n && steps[i] == SeekBegin(t, run[n].calls[t].closing) && run[n].calls[t].p == run[i].prefetch + 1
    ensures forall j :: i < j <= n ==> t in run[j].calls && run[j].calls[t] == run[n].calls[t]
  {
    hide Next;
    assert n > 0;
    assert Next(run[n - 1], run[n], steps[n - 1]);
    SeekHalfStep(run[n - 1], run[n], steps[n - 1], t);
    if t in run[n - 1].calls && run[n - 1].calls[t] == run[n].calls[t] {
      i := SeekBegan(run, steps, n - 1, t);
    } else {
      i := n - 1;
    }
  }

  /** Every completed seek or close has its beginning. */
  lemma SeekHasSpan(run: seq<State>, steps: seq<Step>, j: nat) returns (i: nat)
    requires Run(run, steps) && j < |steps| && steps[j].SeekEnd?
    ensures i < j && SeekSpans(run, steps, i, j)
  {
    assert Next(run[j], run[j + 1], steps[j]);
    assert HandleNext(run[j], run[j + 1], steps[j]);
    i := SeekBegan(run, steps, j, steps[j].t);
  }

  /** A seek or close has completed that the hint about to be acted on does not know of: by its
      playback stamp, or by its prefetch stamp. */
  predicate Stale(s: State, h: Hint) { h.playbackGeneration < s.cancel || h.prefetchGeneration < s.seekFloor }

  /** The runner has a hint and has not admitted it yet. */
  predicate Checking(pc: Pc, h: Hint) { pc == HintCheck(h) || pc == HintAdmit(h) }

  /** The runner has decided on a refill and not published it yet. */
  predicate Refilling(pc: Pc, h: Hint) { pc == Publishing(h) || (pc.Replying? && pc.refill == Some(h)) }

  /** A handle's hint call: it loads the playback generation at `b` and the prefetch generation at `s`,
      and sends the hint at `e`. */
  ghost predicate CallMade(run: seq<State>, steps: seq<Step>, b: nat, s: nat, e: nat, t: Thread, h: Hint)
    requires b < s < e < |steps| < |run|
  {
    && steps[b] == HintBegin(t) && steps[s] == HintStamp(t) && steps[e] == HintSend(t, h.offset, h.length)
    && (forall j :: b < j <= s ==> t in run[j].calls && run[j].calls[t] == HintLoaded(h.playbackGeneration))
    && (forall j :: s < j <= e ==> t in run[j].calls && run[j].calls[t] == HintStamped(h.playbackGeneration, h.prefetchGeneration))
  }

  /** The runner's refill after the read `c`: its two checks at `b` and `s`, its publication at `e`. */
  ghost predicate RefillMade(run: seq<State>, steps: seq<Step>, b: nat, s: nat, e: nat, c: Command, h: Hint)
    requires b < s < e < |steps| < |run|
  {
    && steps[b].AutoPlayback? && steps[s].AutoPrefetch? && steps[e].Publish?
    && c.ReadCommand? && c.generation == h.playbackGeneration && c.prefetchGeneration == h.prefetchGeneration
    && (forall j :: b < j <= s ==> run[j].pc == AutoCheckPrefetch(c))
    && (forall j :: s < j <= e ==> Refilling(run[j].pc, h))
  }

  /** How the hint `h` came to be: the steps `b` and `s` at which it took its playback and its prefetch
      stamp, and the step `e` at which it was handed to the runner. */
  ghost predicate Made(run: seq<State>, steps: seq<Step>, b: nat, s: nat, e: nat, h: Hint)
    requires b < s < e < |steps| < |run|
  {
    && run[b].cancel == h.playbackGeneration && run[s].prefetch == h.prefetchGeneration
    && ((exists t :: CallMade(run, steps, b, s, e, t, h)) || (exists c :: RefillMade(run, steps, b, s, e, c, h)))
  }

  lemma HintStep(s: State, s': State, step: Step)
    requires Next(s, s', step) && s'.hint.Some?
    ensures var h := s'.hint.value;
            || s.hint == s'.hint
            || (step.HintSend? && step == HintSend(step.t, h.offset, h.length) && step.t in s.calls
                && s.calls[step.t] == HintStamped(h.playbackGeneration, h.prefetchGeneration))
            || (step.Publish? && s.pc == Publishing(h))
  {
    if !HandleNext(s, s', step) {
      hide HandleNext;
      RunnerHint(s, s', step);
    }
  }

  lemma RunnerHint(s: State, s': State, step: Step)
    requires RunnerNext(s, s', step)
    ensures !step.HintSend?
    ensures s'.hint == s.hint || (step.Publish? && s.pc.Publishing? && s'.hint == Some(s.pc.h))
  {}

  lemma HintCallStep(s: State, s': State, step: Step, t: Thread)
    requires Next(s, s', step) && t in s'.calls
    ensures s'.calls[t].HintLoaded? ==>
              (t in s.calls && s.calls[t] == s'.calls[t]) || (step == HintBegin(t) && s.cancel == s'.calls[t].g)
    ensures s'.calls[t].HintStamped? ==>
              || (t in s.calls && s.calls[t] == s'.calls[t])
              || (step == HintStamp(t) && t in s.calls && s.calls[t] == HintLoaded(s'.calls[t].g) && s.prefetch == s'.calls[t].p)
  {
    if RunnerNext(s, s', step) {
      hide HandleNext;
      RunnerKeepsCalls(s, s', step);
    }
  }

  lemma RefillStep(s: State, s': State, step: Step, h: Hint)
    requires Next(s, s', step)
    ensures s'.pc.AutoCheckPrefetch? ==>
              s.pc == s'.pc || (step.AutoPlayback? && s'.pc.c.ReadCommand? && s.cancel == s'.pc.c.generation)
    ensures Refilling(s'.pc, h) ==>
              || Refilling(s.pc, h)
              || (step.AutoPrefetch? && s.pc.AutoCheckPrefetch? && s.pc.c.ReadCommand? && s.pc.c.generation == h.playbackGeneration
                  && s.pc.c.prefetchGeneration == h.prefetchGeneration == s.prefetch)
    ensures Checking(s'.pc, h) ==> Checking(s.pc, h) || (step.GraceOver? && s.hint == Some(h))
  {
    if HandleNext(s, s', step) {
      HandleKeepsPc(s, s', step);
    }
  }

  lemma {:induction false} TakenBefore(run: seq<State>, steps: seq<Step>, n: nat, h: Hint) returns (q: nat)
    requires Run(run, steps) && n < |run| && Checking(run[n].pc, h)
    ensures q < n && steps[q].GraceOver? && run[q].hint == Some(h)
    ensures forall j :: q < j <= n ==> Checking(run[j].pc, h)
  {
    hide Next;
    StartIsNot(run, steps, n);
    RefillStep(run[n - 1], run[n], steps[n - 1], h);
    if Checking(run[n - 1].pc, h) {
      q := TakenBefore(run, steps, n - 1, h);
    } else {
      q := n - 1;
    }
  }

  lemma {:induction false} LoadedBefore(run: seq<State>, steps: seq<Step>, n: nat, t: Thread, g: nat) returns (b: nat)
    requires Run(run, steps) && n < |run| && t in run[n].calls && run[n].calls[t] == HintLoaded(g)
    ensures b < n && steps[b] == HintBegin(t) && run[b].cancel == g
    ensures forall j :: b < j <= n ==> t in run[j].calls && run[j].calls[t] == HintLoaded(g)
  {
    hide Next;
    assert n > 0;
    assert Next(run[n - 1], run[n], steps[n - 1]);
    HintCallStep(run[n - 1], run[n], steps[n - 1], t);
    if t in run[n - 1].calls && run[n - 1].calls[t] == run[n].calls[t] {
      b := LoadedBefore(run, steps, n - 1, t, g);
    } else {
      b := n - 1;
    }
  }

  lemma {:induction false} StampedBefore(run: seq<State>, steps: seq<Step>, n: nat, t: Thread, g: nat, p: nat) returns (s: nat)
    requires Run(run, steps) && n < |run| && t in run[n].calls && run[n].calls[t] == HintStamped(g, p)
    ensures s < n && steps[s] == HintStamp(t) && run[s].prefetch == p && t in run[s].calls && run[s].calls[t] == HintLoaded(g)
    ensures forall j :: s < j <= n ==> t in run[j].calls && run[j].calls[t] == HintStamped(g, p)
  {
    hide Next;
    assert n > 0;
    assert Next(run[n - 1], run[n], steps[n - 1]);
    HintCallStep(run[n - 1], run[n], steps[n - 1], t);
    if t in run[n - 1].calls && run[n - 1].calls[t] == run[n].calls[t] {
      s := StampedBefore(run, steps, n - 1, t, g, p);
    } else {
      s := n - 1;
    }
  }

  lemma {:induction false} PassedBefore(run: seq<State>, steps: seq<Step>, n: nat, c: Command) returns (b: nat)
    requires Run(run, steps) && n < |run| && run[n].pc == AutoCheckPrefetch(c)
    ensures b < n && steps[b].AutoPlayback? && c.ReadCommand? && run[b].cancel == c.generation
    ensures forall j :: b < j <= n ==> run[j].pc == AutoCheckPrefetch(c)
  {
    hide Next;
    StartIsNot(run, steps, n);
    RefillStep(run[n - 1], run[n], steps[n - 1], Hint(0, 0, 0, 0));
    if run[n - 1].pc == run[n].pc {
      b := PassedBefore(run, steps, n - 1, c);
    } else {
      b := n - 1;
    }
  }

  lemma {:induction false} RefilledBefore(run: seq<State>, steps: seq<Step>, n: nat, h: Hint) returns (s: nat, c: Command)
    requires Run(run, steps) && n < |run| && Refilling(run[n].pc, h)
    ensures s < n && steps[s].AutoPrefetch? && run[s].pc == AutoCheckPrefetch(c) && c.ReadCommand?
    ensures c.generation == h.playbackGeneration && c.prefetchGeneration == h.prefetchGeneration == run[s].prefetch
    ensures forall j :: s < j <= n ==> Refilling(run[j].pc, h)
  {
    hide Next;
    StartIsNot(run, steps, n);
    RefillStep(run[n - 1], run[n], steps[n - 1], h);
    if Refilling(run[n - 1].pc, h) {
      s, c := RefilledBefore(run, steps, n - 1, h);
    } else {
      s, c := n - 1, run[n - 1].pc.c;
    }
  }

  /** Whatever hint waits for the runner was made: by one hint call or by one refill. */
  lemma {:induction false} MadeBefore(run: seq<State>, steps: seq<Step>, n: nat, h: Hint) returns (b: nat, s: nat, e: nat)
    requires Run(run, steps) && n < |run| && run[n].hint == Some(h)
    ensures b < s < e < n && Made(run, steps, b, s, e, h)
    ensures forall j :: e < j <= n ==> run[j].hint == Some(h)
  {
    hide Next, Made;
    assert n > 0;
    assert Next(run[n - 1], run[n], steps[n - 1]);
    HintStep(run[n - 1], run[n], steps[n - 1]);
    if run[n - 1].hint == Some(h) {
      b, s, e := MadeBefore(run, steps, n - 1, h);
    } else {
      e := n - 1;
      b, s := HandedOver(run, steps, e, h);
    }
  }

  lemma HandedOver(run: seq<State>, steps: seq<Step>, e: nat, h: Hint) returns (b: nat, s: nat)
    requires Run(run, steps) && e < |steps|
    requires
      || (steps[e].HintSend? && steps[e] == HintSend(steps[e].t, h.offset, h.length) && steps[e].t in run[e].calls
          && run[e].calls[steps[e].t] == HintStamped(h.playbackGeneration, h.prefetchGeneration))
      || (steps[e].Publish? && run[e].pc == Publishing(h))
    ensures b < s < e && Made(run, steps, b, s, e, h)
  {
    hide Next;
    if steps[e].HintSend? {
      s := StampedBefore(run, steps, e, steps[e].t, h.playbackGeneration, h.prefetchGeneration);
      b := LoadedBefore(run, steps, s, steps[e].t, h.playbackGeneration);
      assert CallMade(run, steps, b, s, e, steps[e].t, h);
    } else {
      var c;
      s, c := RefilledBefore(run, steps, e, h);
      b := PassedBefore(run, steps, s, c);
      assert RefillMade(run, steps, b, s, e, c, h);
    }
  }

  /** When the runner starts I/O for a hint at `k`: the steps at which that hint took its two stamps, was
      handed over, was taken up, was admitted, and passed its last check. */
  ghost predicate HintLife(run: seq<State>, steps: seq<Step>, b: nat, s: nat, e: nat, q: nat, a: nat, m: nat, k: nat, h: Hint)
    requires b < s < e < q < a < m < k < |steps| < |run|
  {
    && Made(run, steps, b, s, e, h)
    && (forall j :: e < j <= q ==> run[j].hint == Some(h))
    && steps[q].GraceOver? && (forall j :: q < j <= a ==> Checking(run[j].pc, h))
    && steps[a].AdmitHint? && run[a].pc == HintAdmit(h) && run[a].cancel == h.playbackGeneration
    && steps[m].PlanHint? && run[m].prefetch == h.prefetchGeneration
    && (forall j :: a < j <= m ==> run[j].pc == HintPlan(h))
    && (forall j :: m < j <= k ==> run[j].pc == HintReady(h))
    && steps[k].StartIo?
  }

  /** Every I/O for a hint ends a life that began with that hint's own two loads. */
  lemma HintLived(run: seq<State>, steps: seq<Step>, k: nat) returns (b: nat, s: nat, e: nat, q: nat, a: nat, m: nat)
    requires Run(run, steps) && k < |steps| && steps[k].StartIo?
    ensures b < s < e < q < a < m < k && run[k].pc.HintReady? && HintLife(run, steps, b, s, e, q, a, m, k, run[k].pc.h)
  {
    hide Made;
    assert Next(run[k], run[k + 1], steps[k]);
    hide Next;
    var h := run[k].pc.h;
    m := PlannedBefore(run, steps, k);
    a := AdmittedBefore(run, steps, m);
    q := TakenBefore(run, steps, a, h);
    b, s, e := MadeBefore(run, steps, q, h);
  }

  /** The two ways a seek can end between admission and request without the last check seeing it: it
      began before the hint took its prefetch stamp, or it began after that check. */
  ghost predicate SlipsThrough(run: seq<State>, steps: seq<Step>, s: nat, a: nat, m: nat, k: nat, i: nat, j: nat)
    requires i < j < |steps| && j < |run|
  {
    (i < s || m < i) && a < j < k && SeekSpans(run, steps, i, j)
  }

  /** Exactly when I/O starts for a stale hint, for every run and every such I/O: a seek or close ended
      after the hint was admitted and before its request; that is, one which had begun before the
      hint's prefetch stamp ended there, or one both began and ended after the hint's last check. */
  lemma StaleStartNeedsRace(run: seq<State>, steps: seq<Step>, k: nat) returns (b: nat, s: nat, e: nat, q: nat, a: nat, m: nat)
    requires Run(run, steps) && k < |steps| && steps[k].StartIo?
    ensures b < s < e < q < a < m < k && run[k].pc.HintReady? && HintLife(run, steps, b, s, e, q, a, m, k, run[k].pc.h)
    ensures Stale(run[k], run[k].pc.h) <==> exists j :: a < j < k && steps[j].SeekEnd?
    ensures Stale(run[k], run[k].pc.h) <==> exists i: nat, j: nat :: i < j < k && SlipsThrough(run, steps, s, a, m, k, i, j)
  {
    hide Next, SeekSpans;
    b, s, e, q, a, m := HintLived(run, steps, k);
    StaleMeansEnded(run, steps, b, s, e, q, a, m, k, run[k].pc.h);
    if j: nat :| a < j < k && steps[j].SeekEnd? {
      var i := SeekHasSpan(run, steps, j);
      SpanEnds(run, steps, i, j);
      NoneBegins(run, steps, b, s, e, q, a, m, k, run[k].pc.h);
      assert SlipsThrough(run, steps, s, a, m, k, i, j);
    }
    if i: nat, j: nat :| i < j < k && SlipsThrough(run, steps, s, a, m, k, i, j) {
      SpanEnds(run, steps, i, j);
      assert steps[j].SeekEnd?;
    }
  }

  lemma SpanEnds(run: seq<State>, steps: seq<Step>, i: nat, j: nat)
    requires i < j < |steps| && j < |run| && SeekSpans(run, steps, i, j)
    ensures steps[i].SeekBegin? && steps[j].SeekEnd?
  {}

  /** No seek begins between the hint's prefetch stamp and its last check. */
  lemma NoneBegins(run: seq<State>, steps: seq<Step>, b: nat, s: nat, e: nat, q: nat, a: nat, m: nat, k: nat, h: Hint)
    requires Run(run, steps) && b < s < e < q < a < m < k < |steps| && HintLife(run, steps, b, s, e, q, a, m, k, h)
    ensures forall i :: s <= i <= m ==> !steps[i].SeekBegin?
  {
    hide Next, CallMade, RefillMade;
    PrefetchMoves(run, steps, s, m);
  }

  lemma StaleMeansEnded(run: seq<State>, steps: seq<Step>, b: nat, s: nat, e: nat, q: nat, a: nat, m: nat, k: nat, h: Hint)
    requires Run(run, steps) && b < s < e < q < a < m < k < |steps| && HintLife(run, steps, b, s, e, q, a, m, k, h)
    ensures Stale(run[k], h) <==> exists j :: a < j < k && steps[j].SeekEnd?
  {
    hide Next, Made;
    CancelMoves(run, steps, a, k);
    OnlyForward(run, steps, a, k);
    Reachable(run, steps, m);
    FloorRises(run, steps, run[m].prefetch, m, k);
    if h.prefetchGeneration < run[k].seekFloor {
      var j :| m <= j < k && NewerSeekEnds(run, steps, run[m].prefetch, j);
      assert a <= j < k && steps[j].SeekEnd?;
    }
  }

  lemma RunSnoc(run: seq<State>, steps: seq<Step>, s: State, step: Step) returns (run': seq<State>, steps': seq<Step>)
    requires Run(run, steps) && Next(run[|run| - 1], s, step)
    ensures run' == run + [s] && steps' == steps + [step] && Run(run', steps')
  {
    hide Next;
    run', steps' := run + [s], steps + [step];
    forall i | 0 <= i < |steps'| ensures Next(run'[i], run'[i + 1], steps'[i]) {
      if i < |steps| {
        assert Next(run[i], run[i + 1], steps[i]);
      }
    }
  }

  /** A published hint with stamps (0, 0). */
  lemma HintPublished(h: Hint) returns (run: seq<State>, steps: seq<Step>)
    requires h == Hint(0, 0, 0, 1)
    ensures Run(run, steps) && |steps| == 3
    ensures run[3] == Start.(hint := Some(h), changed := true)
  {
    run, steps := [Start], [];
    assert Run(run, steps);
    hide Run;
    run, steps := RunSnoc(run, steps, Start.(calls := map[1 := HintLoaded(0)]), HintBegin(1));
    run, steps := RunSnoc(run, steps, Start.(calls := map[1 := HintStamped(0, 0)]), HintStamp(1));
    assert map[1 := HintStamped(0, 0)] - {1} == map[];
    run, steps := RunSnoc(run, steps, Start.(hint := Some(h), changed := true), HintSend(1, 0, 1));
    RunLength(run, steps);
  }

  /** The same hint, taken up by the runner after the grace period. */
  lemma HintTaken(h: Hint) returns (run: seq<State>, steps: seq<Step>)
    requires h == Hint(0, 0, 0, 1)
    ensures Run(run, steps) && |steps| == 5
    ensures run[5] == Start.(hint := Some(h), pc := HintCheck(h))
  {
    hide Run, HandleNext, WorkNext;
    run, steps := HintPublished(h);
    RunLength(run, steps);
    run, steps := RunSnoc(run, steps, Start.(hint := Some(h), pc := Grace), TakeSignal);
    run, steps := RunSnoc(run, steps, Start.(hint := Some(h), pc := HintCheck(h)), GraceOver);
  }

  /** The same hint, past its last check. */
  lemma HintCleared(h: Hint) returns (run: seq<State>, steps: seq<Step>)
    requires h == Hint(0, 0, 0, 1)
    ensures Run(run, steps) && |steps| == 8
    ensures run[8] == Start.(hint := Some(h), pc := HintReady(h))
  {
    hide Run, HandleNext, SelectNext;
    run, steps := HintTaken(h);
    RunLength(run, steps);
    var s := Start.(hint := Some(h));
    run, steps := RunSnoc(run, steps, s.(pc := HintAdmit(h)), CheckHint);
    run, steps := RunSnoc(run, steps, s.(pc := HintPlan(h)), AdmitHint);
    run, steps := RunSnoc(run, steps, s.(pc := HintReady(h)), PlanHint(true));
  }

  /** A seek that begins and ends between the last check and the request. */
  lemma StaleStart() returns (run: seq<State>, steps: seq<Step>)
    ensures Run(run, steps) && |steps| == 11 && steps[10].StartIo?
    ensures run[10].pc.HintReady? && run[10].pc.h.prefetchGeneration < run[10].seekFloor
  {
    hide Run;
    var h := Hint(0, 0, 0, 1);
    run, steps := HintCleared(h);
    RunLength(run, steps);
    var s := run[8].(calls := map[1 := SeekHalf(1, false)], prefetch := 1);
    run, steps := RunSnoc(run, steps, s, SeekBegin(1, false));
    s := s.(calls := map[], cancel := 1, seekFloor := 1);
    assert map[1 := SeekHalf(1, false)] - {1} == map[];
    run, steps := RunSnoc(run, steps, s, SeekEnd(1));
    run, steps := RunSnoc(run, steps, s.(pc := HintFetch(h)), StartIo);
  }

  /** A hint between its two stamps while a seek is between its two tokens: it is admitted under the
      old playback generation with the new prefetch generation. */
  lemma HintCaught(h: Hint) returns (run: seq<State>, steps: seq<Step>)
    requires h == Hint(0, 1, 0, 1)
    ensures Run(run, steps) && |steps| == 4
    ensures run[4] == Start.(prefetch := 1, calls := map[2 := SeekHalf(1, false)], hint := Some(h), changed := true)
  {
    run, steps := [Start], [];
    assert Run(run, steps);
    hide Run;
    var seek := SeekHalf(1, false);
    run, steps := RunSnoc(run, steps, Start.(calls := map[1 := HintLoaded(0)]), HintBegin(1));
    var s := Start.(prefetch := 1, calls := map[1 := HintLoaded(0), 2 := seek]);
    run, steps := RunSnoc(run, steps, s, SeekBegin(2, false));
    s := s.(calls := map[1 := HintStamped(0, 1), 2 := seek]);
    run, steps := RunSnoc(run, steps, s, HintStamp(1));
    assert s.calls - {1} == map[2 := seek];
    run, steps := RunSnoc(run, steps, s.(calls := map[2 := seek], hint := Some(h), changed := true), HintSend(1, 0, 1));
    RunLength(run, steps);
  }

  lemma CaughtAdmitted(h: Hint) returns (run: seq<State>, steps: seq<Step>)
    requires h == Hint(0, 1, 0, 1)
    ensures Run(run, steps) && |steps| == 8 && steps[7].AdmitHint?
    ensures run[8] == Start.(prefetch := 1, calls := map[2 := SeekHalf(1, false)], hint := Some(h), pc := HintPlan(h))
  {
    hide Run, HandleNext;
    run, steps := HintCaught(h);
    RunLength(run, steps);
    var s := run[4].(changed := false);
    run, steps := RunSnoc(run, steps, s.(pc := Grace), TakeSignal);
    run, steps := RunSnoc(run, steps, s.(pc := HintCheck(h)), GraceOver);
    run, steps := RunSnoc(run, steps, s.(pc := HintAdmit(h)), CheckHint);
    run, steps := RunSnoc(run, steps, s.(pc := HintPlan(h)), AdmitHint);
  }

  /** A seek that began before the hint's prefetch stamp and ends after its admission: the last check,
      which looks at the prefetch token only, passes although the seek has completed by then. */
  lemma StaleAdmission() returns (run: seq<State>, steps: seq<Step>)
    ensures Run(run, steps) && |steps| == 11 && steps[10].StartIo?
    ensures steps[7].AdmitHint? && steps[8].SeekEnd? && steps[9].PlanHint?
    ensures run[10].pc.HintReady? && run[10].pc.h.playbackGeneration < run[10].cancel
    ensures run[10].pc.h.prefetchGeneration == run[10].seekFloor
  {
    hide Run;
    var h := Hint(0, 1, 0, 1);
    run, steps := CaughtAdmitted(h);
    RunLength(run, steps);
    var s := run[8].(calls := map[], cancel := 1, seekFloor := 1);
    assert map[2 := SeekHalf(1, false)] - {2} == map[];
    run, steps := RunSnoc(run, steps, s, SeekEnd(2));
    run, steps := RunSnoc(run, steps, s.(pc := HintReady(h)), PlanHint(true));
    run, steps := RunSnoc(run, steps, s.(pc := HintFetch(h)), StartIo);
  }

  lemma RunLength(run: seq<State>, steps: seq<Step>)
    requires Run(run, steps)
    ensures |run| == |steps| + 1
  {}
}
