/** Any number of threads using one random-access handle at once: the lookup, the lock, the check of
    `closing` and `poisoned`, the network request and the close are separate steps that interleave
    freely. */
module RandomRace {
  import opened Common

  type Thread = nat

  /** Where a thread is inside its call; threads outside any call are absent. */
  datatype Phase =
    | Found            // holds the entry, not its lock
    | Locked           // holds the lock, has not looked at the flags yet
    | Cleared          // saw both flags unset
    | Requesting       // its request is on the wire
    | Removed          // took the entry out of the table
    | Marked           // stored `closing`
    | ClosingLocked    // closing, holds the lock

  datatype Io = Issued(thread: Thread) | Finished(thread: Thread, ok: bool) | CloseSent(thread: Thread)

  datatype State = State(
    inTable: bool,
    closing: bool,
    poisoned: bool,
    holder: Option<Thread>,
    phase: map<Thread, Phase>,
    log: seq<Io>)

  const Opened: State := State(true, false, false, None, map[], [])

  datatype Step =
    | Lookup(t: Thread)
    | Acquire(t: Thread)
    | Check(t: Thread)
    | SkipEmpty(t: Thread)
    | Issue(t: Thread)
    | Complete(t: Thread, ok: bool)
    | Remove(t: Thread)
    | Mark(t: Thread)
    | AcquireToClose(t: Thread)
    | SendClose(t: Thread, reached: bool)

  function Release(s: State, t: Thread): State {
    s.(holder := None, phase := s.phase - {t})
  }

  ghost predicate Next(s: State, s': State, step: Step) {
    match step
    case Lookup(t) =>
      t !in s.phase && s' == if s.inTable then s.(phase := s.phase[t := Found]) else s
    case Acquire(t) =>
      At(s, t, Found) && s.holder.None? && s' == s.(holder := Some(t), phase := s.phase[t := Locked])
    case Check(t) =>
      At(s, t, Locked) &&
      s' == if s.closing || s.poisoned then Release(s, t) else s.(phase := s.phase[t := Cleared])
    case SkipEmpty(t) =>
      At(s, t, Cleared) && s' == Release(s, t)
    case Issue(t) =>
      At(s, t, Cleared) && s' == s.(phase := s.phase[t := Requesting], log := s.log + [Issued(t)])
    case Complete(t, ok) =>
      At(s, t, Requesting) &&
      s' == Release(s, t).(poisoned := s.poisoned || !ok, log := s.log + [Finished(t, ok)])
    case Remove(t) =>
      t !in s.phase && s' == if s.inTable then s.(inTable := false, phase := s.phase[t := Removed]) else s
    case Mark(t) =>
      At(s, t, Removed) && s' == s.(closing := true, phase := s.phase[t := Marked])
    case AcquireToClose(t) =>
      At(s, t, Marked) && s.holder.None? && s' == s.(holder := Some(t), phase := s.phase[t := ClosingLocked])
    case SendClose(t, reached) =>
      At(s, t, ClosingLocked) && s' == Release(s, t).(log := if reached then s.log + [CloseSent(t)] else s.log)
  }

  ghost predicate At(s: State, t: Thread, p: Phase) { t in s.phase && s.phase[t] == p }

  predicate HoldsLock(p: Phase) { p.Locked? || p.Cleared? || p.Requesting? || p.ClosingLocked? }

  predicate Closes(p: Phase) { p.Removed? || p.Marked? || p.ClosingLocked? }

  ghost predicate Run(run: seq<State>, steps: seq<Step>) {
    && |run| == |steps| + 1
    && run[0] == Opened
    && forall i :: 0 <= i < |steps| ==> Next(run[i], run[i + 1], steps[i])
  }

  /** CLOSE is last, only CLOSE follows a failed request, and requests never overlap. */
  ghost predicate Clean(log: seq<Io>) {
    && (forall i {:trigger log[i]} :: 0 <= i < |log| && log[i].CloseSent? ==> i == |log| - 1)
    && (forall i, j :: 0 <= i < j < |log| && log[i].Finished? && !log[i].ok ==> log[j].CloseSent?)
    && (forall i {:trigger log[i].Issued?} :: 0 <= i < |log| - 1 && log[i].Issued? ==> log[i + 1] == Finished(log[i].thread, log[i + 1].Finished? && log[i + 1].ok))
  }

  /** At most one thread holds the lock, and the holder is the one the phases say. */
  ghost predicate LockInv(s: State) {
    && (forall t :: t in s.phase && HoldsLock(s.phase[t]) ==> s.holder == Some(t))
    && (s.holder.Some? ==> s.holder.value in s.phase && HoldsLock(s.phase[s.holder.value]))
  }

  /** Taking the entry out of the table elects one closer. */
  ghost predicate CloserInv(s: State) {
    && (forall t, u :: t in s.phase && u in s.phase && Closes(s.phase[t]) && Closes(s.phase[u]) ==> t == u)
    && (forall t :: t in s.phase && Closes(s.phase[t]) ==> !s.inTable)
    && (forall t :: t in s.phase && (s.phase[t].Marked? || s.phase[t].ClosingLocked?) ==> s.closing)
    && (s.closing ==> !s.inTable)
    && (s.log != [] && s.log[|s.log| - 1].CloseSent? ==> Spent(s))
  }

  /** What the log's last entry and the flags say about the thread on the wire. */
  ghost predicate LogInv(s: State) {
    && (forall t :: t in s.phase && (s.phase[t].Cleared? || s.phase[t].Requesting?) ==> !s.poisoned)
    && (forall i {:trigger s.log[i]} :: 0 <= i < |s.log| && s.log[i].Finished? && !s.log[i].ok ==> s.poisoned)
    && (s.log != [] && s.log[|s.log| - 1].Issued? ==> At(s, s.log[|s.log| - 1].thread, Requesting))
    && (forall t :: At(s, t, Requesting) ==> s.log != [] && s.log[|s.log| - 1] == Issued(t))
    && Clean(s.log)
  }

  ghost predicate Inv(s: State) { LockInv(s) && CloserInv(s) && LogInv(s) }

  /** After CLOSE: the flag is up, nobody is closing and nobody has cleared the check. */
  ghost predicate Spent(s: State) {
    s.closing && forall t :: t in s.phase ==> !Closes(s.phase[t]) && !s.phase[t].Cleared? && !s.phase[t].Requesting?
  }

  lemma {:induction false} LockStep(s: State, s': State, step: Step)
    requires LockInv(s) && Next(s, s', step)
    ensures LockInv(s')
  {
    hide Clean;
  }

  lemma {:induction false} CloserStep(s: State, s': State, step: Step)
    requires LockInv(s) && CloserInv(s) && Next(s, s', step)
    ensures CloserInv(s')
  {
    hide Clean;
  }

  lemma {:induction false} AppendClean(log: seq<Io>, e: Io)
    requires Clean(log)
    requires log != [] ==> !log[|log| - 1].CloseSent?
    requires !e.CloseSent? ==> forall i {:trigger log[i]} :: 0 <= i < |log| ==> !(log[i].Finished? && !log[i].ok)
    requires log != [] && log[|log| - 1].Issued? ==> e.Finished? && e.thread == log[|log| - 1].thread
    ensures Clean(log + [e])
  {}

  lemma Alone(s: State, t: Thread)
    requires LockInv(s) && t in s.phase && HoldsLock(s.phase[t])
    ensures s.holder == Some(t) && forall u :: u in s.phase && HoldsLock(s.phase[u]) ==> u == t
  {}

  lemma {:induction false} QuietLogStep(s: State, s': State, step: Step)
    requires LogInv(s) && Next(s, s', step)
    requires !step.Issue? && !step.Complete? && !step.SendClose?
    ensures LogInv(s')
  {
    hide Clean, HoldsLock, Closes;
    forall t | At(s', t, Requesting) ensures At(s, t, Requesting) {}
  }

  lemma {:induction false} WireLogStep(s: State, s': State, step: Step)
    requires Inv(s) && Next(s, s', step)
    requires step.Issue? || step.Complete? || step.SendClose?
    ensures LogInv(s')
  {
    hide Clean, LockInv;
    Alone(s, step.t);
    match step {
      case Issue(t) => AppendClean(s.log, Issued(t));
      case Complete(t, ok) => AppendClean(s.log, Finished(t, ok));
      case SendClose(t, reached) =>
        if reached {
          AppendClean(s.log, CloseSent(t));
        }
    }
  }

  lemma OpenedOk()
    ensures Inv(Opened)
  {}

  lemma {:induction false} Reachable(run: seq<State>, steps: seq<Step>, k: nat)
    requires Run(run, steps) && k < |run|
    ensures Inv(run[k])
  {
    hide Inv, Next;
    if k == 0 {
      OpenedOk();
    } else {
      Reachable(run, steps, k - 1);
      StepKeeps(run[k - 1], run[k], steps[k - 1]);
    }
  }

  lemma {:induction false} StepKeeps(s: State, s': State, step: Step)
    requires Inv(s) && Next(s, s', step)
    ensures Inv(s')
  {
    hide LockInv, CloserInv, LogInv, Next;
    LockStep(s, s', step);
    CloserStep(s, s', step);
    if step.Issue? || step.Complete? || step.SendClose? {
      WireLogStep(s, s', step);
    } else {
      QuietLogStep(s, s', step);
    }
  }

  /** In every interleaving: CLOSE is sent at most once and is the last thing sent; after a failed
      request only CLOSE follows; requests never overlap each other or the CLOSE. */
  lemma {:induction false} NothingAfterClose(run: seq<State>, steps: seq<Step>, k: nat)
    requires Run(run, steps) && k < |run|
    ensures var log := run[k].log;
            && (forall i :: 0 <= i < |log| && log[i].CloseSent? ==> i == |log| - 1)
            && (forall i, j :: 0 <= i < j < |log| && log[i].Finished? && !log[i].ok ==> log[j].CloseSent?)
            && (forall i :: 0 <= i < |log| - 1 && log[i].Issued? ==> log[i + 1].Finished? && log[i + 1].thread == log[i].thread)
  {
    hide Next;
    Reachable(run, steps, k);
  }

  lemma FlagStep(s: State, s': State, step: Step)
    requires Next(s, s', step)
    ensures s'.closing <==> s.closing || step.Mark?
    ensures forall t :: At(s', t, Cleared) ==> At(s, t, Cleared) || (step == Check(t) && !s.closing)
  {}

  /** Only a close sets the flag, and nothing clears it. */
  lemma {:induction false} FlagMeansMarked(run: seq<State>, steps: seq<Step>, c: nat, k: nat)
    requires Run(run, steps) && c <= k < |run|
    ensures run[k].closing <==> run[c].closing || exists m :: c <= m < k && steps[m].Mark?
    decreases k
  {
    hide Next;
    if c < k {
      FlagMeansMarked(run, steps, c, k - 1);
      FlagStep(run[k - 1], run[k], steps[k - 1]);
    }
  }

  /** From its check on, the thread has gone ahead and not issued yet. */
  ghost predicate ClearedFrom(run: seq<State>, t: Thread, c: nat, j: nat)
    requires c <= j < |run|
  {
    forall i :: c < i <= j ==> At(run[i], t, Cleared)
  }

  /** The check a thread about to issue has passed. */
  lemma {:induction false} CheckedBefore(run: seq<State>, steps: seq<Step>, j: nat, t: Thread) returns (c: nat)
    requires Run(run, steps) && j < |run| && At(run[j], t, Cleared)
    ensures c < j && steps[c] == Check(t) && !run[c].closing && ClearedFrom(run, t, c, j)
  {
    hide Next;
    assert j > 0;
    FlagStep(run[j - 1], run[j], steps[j - 1]);
    if At(run[j - 1], t, Cleared) {
      c := CheckedBefore(run, steps, j - 1, t);
    } else {
      c := j - 1;
    }
  }

  /** In every run, a request is issued although `closing` is set exactly when a close stored the flag
      between that thread's own check and its request. */
  lemma IssueNeedsWindow(run: seq<State>, steps: seq<Step>, j: nat) returns (c: nat)
    requires Run(run, steps) && j < |steps| && steps[j].Issue?
    ensures c < j && steps[c] == Check(steps[j].t) && !run[c].closing && ClearedFrom(run, steps[j].t, c, j)
    ensures run[j].closing <==> exists m :: c < m < j && steps[m].Mark?
  {
    assert Next(run[j], run[j + 1], steps[j]);
    hide Next;
    c := CheckedBefore(run, steps, j, steps[j].t);
    FlagMeansMarked(run, steps, c, j);
  }

  /** Whoever issues after the flag was stored has stood cleared ever since. */
  lemma ClearedThroughout(run: seq<State>, steps: seq<Step>, m: nat, j: nat)
    requires Run(run, steps) && m < j < |steps| && steps[m].Mark? && steps[j].Issue?
    ensures forall i :: m <= i <= j ==> At(run[i], steps[j].t, Cleared)
  {
    hide Next;
    var c := IssueNeedsWindow(run, steps, j);
    if m < c {
      FlagMeansMarked(run, steps, m, c);
    }
  }

  /** A thread still waiting for the lock, or before its check, when the flag is stored never issues
      anything afterwards; nor does any thread that is not past its check by then. */
  lemma WaitersNeverIssue(run: seq<State>, steps: seq<Step>, m: nat, j: nat, t: Thread)
    requires Run(run, steps) && m < j < |steps| && steps[m].Mark? && !At(run[m], t, Cleared)
    ensures steps[j] != Issue(t)
  {
    hide Next, At;
    if steps[j] == Issue(t) {
      ClearedThroughout(run, steps, m, j);
    }
  }

  /** While one request is on the wire nobody has passed a check. */
  lemma IssueAlone(s: State, s': State, t: Thread)
    requires LockInv(s) && Next(s, s', Issue(t))
    ensures forall u :: !At(s', u, Cleared)
  {
    Alone(s, t);
  }

  /** After the flag is stored at most one more request is issued. */
  lemma AtMostOneMore(run: seq<State>, steps: seq<Step>, m: nat, i: nat, j: nat)
    requires Run(run, steps) && m < i < j < |steps| && steps[m].Mark? && steps[i].Issue?
    ensures !steps[j].Issue?
  {
    hide Next;
    Reachable(run, steps, i);
    IssueAlone(run[i], run[i + 1], steps[i].t);
    if steps[j].Issue? {
      ClearedThroughout(run, steps, m, j);
    }
  }

  /** The window is real: a thread that cleared its check may still issue a request after another has
      stored `closing`. The lock, not the flag, keeps it before CLOSE. */
  lemma IssueAfterMark() returns (run: seq<State>, steps: seq<Step>)
    ensures Run(run, steps) && |steps| == 6 && steps[5].Issue? && run[5].closing
  {
    var s1 := Opened.(phase := map[1 := Found]);
    var s2 := s1.(holder := Some(1), phase := s1.phase[1 := Locked]);
    var s3 := s2.(phase := s2.phase[1 := Cleared]);
    var s4 := s3.(inTable := false, phase := s3.phase[2 := Removed]);
    var s5 := s4.(closing := true, phase := s4.phase[2 := Marked]);
    var s6 := s5.(phase := s5.phase[1 := Requesting], log := [Issued(1)]);
    run := [Opened, s1, s2, s3, s4, s5, s6];
    steps := [Lookup(1), Acquire(1), Check(1), Remove(2), Mark(2), Issue(1)];
    assert s1.phase == Opened.phase[1 := Found];
  }
}
