/** One random-access handle shared by any number of threads: however the steps of their calls interleave,
    the calls are answered as one abstract file answers when it carries them out one after the other. */
module SharedFile {
  import opened Common
  import opened FileModel
  import opened RandomAccess
  import opened WriteAt
  import Race = RandomRace

  type Thread = Race.Thread

  /** A call in progress: its operation, and the server's file as it was when its request was issued. */
  datatype Job = Job(op: Op, from: Bytes)

  /** A call that has been answered. */
  datatype Call = Call(thread: Thread, op: Op, outcome: Outcome)

  /** The locks and flags, the server's file, the calls in progress and the calls answered so far. */
  datatype State = State(race: Race.State, server: Store, jobs: map<Thread, Job>, calls: seq<Call>)

  datatype Step =
    | Reject(t: Thread, op: Op)
    | Begin(t: Thread, op: Op)
    | Acquire(t: Thread)
    | Check(t: Thread)
    | SkipEmpty(t: Thread)
    | Issue(t: Thread)
    | Serve(t: Thread, store: Store)
    | Complete(t: Thread, outcome: Outcome, store: Store)
    | Closing(step: Race.Step)

  /** The answer to an operation on no bytes, which needs no request. */
  function EmptyAnswer(op: Op): Option<Outcome> {
    match op
    case ReadOp(_, length) => if length == 0 then Some(Data([])) else None
    case WriteOp(_, data) => if data == [] then Some(Count(0)) else None
    case _ => None
  }

  function Opened(initial: Bytes): State { State(Race.Opened, Store(initial, None), map[], []) }

  function Answered(s: State, t: Thread, op: Op, o: Outcome): State {
    s.(jobs := s.jobs - {t}, calls := s.calls + [Call(t, op, o)])
  }

  /** One step: a step of the locks and flags, and what it means for the file and the calls. A request in
      progress may change the server's file at any moment, as far as that operation can. */
  ghost predicate Next(s: State, s': State, step: Step) {
    match step
    case Reject(t, op) =>
      t !in s.race.phase && Refusal(op).Some? && s' == Answered(s, t, op, Failed(Refusal(op).value))
    case Begin(t, op) =>
      Refusal(op).None? && Race.Next(s.race, s'.race, Race.Lookup(t)) &&
      s' == (if s.race.inTable then s.(jobs := s.jobs[t := Job(op, [])])
             else Answered(s, t, op, Failed(UnknownHandle))).(race := s'.race)
    case Acquire(t) =>
      Race.Next(s.race, s'.race, Race.Acquire(t)) && s' == s.(race := s'.race)
    case Check(t) =>
      t in s.jobs && Race.Next(s.race, s'.race, Race.Check(t)) &&
      s' == (if s.race.closing || s.race.poisoned then Answered(s, t, s.jobs[t].op, Failed(Unusable)) else s).(race := s'.race)
    case SkipEmpty(t) =>
      t in s.jobs && EmptyAnswer(s.jobs[t].op).Some? && Race.Next(s.race, s'.race, Race.SkipEmpty(t)) &&
      s' == Answered(s, t, s.jobs[t].op, EmptyAnswer(s.jobs[t].op).value).(race := s'.race)
    case Issue(t) =>
      t in s.jobs && EmptyAnswer(s.jobs[t].op).None? && Race.Next(s.race, s'.race, Race.Issue(t)) &&
      s' == s.(race := s'.race, jobs := s.jobs[t := Job(s.jobs[t].op, s.server.content)])
    case Serve(t, store) =>
      t in s.jobs && Race.At(s.race, t, Race.Requesting) && Partial(s.jobs[t].from, s.jobs[t].op, store) &&
      s' == s.(server := store)
    case Complete(t, o, store) =>
      t in s.jobs && Performed(s.jobs[t].from, s.jobs[t].op, o, store) &&
      Race.Next(s.race, s'.race, Race.Complete(t, !o.Failed?)) &&
      s' == Answered(s, t, s.jobs[t].op, o).(race := s'.race, server := store)
    case Closing(step) =>
      (step.Remove? || step.Mark? || step.AcquireToClose? || step.SendClose?) &&
      Race.Next(s.race, s'.race, step) && s' == s.(race := s'.race)
  }

  ghost predicate Run(initial: Bytes, run: seq<State>, steps: seq<Step>) {
    && |run| == |steps| + 1
    && run[0] == Opened(initial)
    && forall i :: 0 <= i < |steps| ==> Next(run[i], run[i + 1], steps[i])
  }

  function Ops(calls: seq<Call>): (ops: seq<Op>)
    ensures |ops| == |calls|
  {
    seq(|calls|, i requires 0 <= i < |calls| => calls[i].op)
  }

  function Outcomes(calls: seq<Call>): (os: seq<Outcome>)
    ensures |os| == |calls|
  {
    seq(|calls|, i requires 0 <= i < |calls| => calls[i].outcome)
  }

  /** The abstract file that the answered calls have built up, in the order of their answers. */
  function File(initial: Bytes, calls: seq<Call>): Bytes { Built(initial, Ops(calls), Outcomes(calls)) }

  /** Every call failed, or was answered as the abstract file answers at its place in the order. */
  ghost predicate Sequential(initial: Bytes, calls: seq<Call>) { Consistent(initial, Ops(calls), Outcomes(calls)) }

  /** Call `i` ended in a client error: it may have been carried out in part, and no later call succeeded. */
  ghost predicate BrokeAt(initial: Bytes, calls: seq<Call>, store: Store, i: nat)
    requires i < |calls|
  {
    BrokenAt(initial, Ops(calls), Outcomes(calls), i, store)
  }

  lemma SnocCall(initial: Bytes, calls: seq<Call>, c: Call)
    ensures File(initial, calls + [c]) == if c.outcome.Failed? then File(initial, calls) else Effect(File(initial, calls), c.op)
    ensures Sequential(initial, calls + [c]) <==>
              Sequential(initial, calls) && (c.outcome.Failed? || c.outcome == Answer(File(initial, calls), c.op))
    ensures Broken(Outcomes(calls + [c])) <==> Broken(Outcomes(calls)) || (c.outcome.Failed? && c.outcome.error.Client?)
  {
    hide Effect, Answer;
    var all := calls + [c];
    assert Ops(all)[..|calls|] == Ops(calls) && Outcomes(all)[..|calls|] == Outcomes(calls);
    assert Outcomes(all) == Outcomes(calls) + [c.outcome];
  }

  lemma SnocBroke(initial: Bytes, calls: seq<Call>, c: Call, store: Store, i: nat)
    requires i < |calls| && BrokeAt(initial, calls, store, i) && c.outcome.Failed?
    ensures BrokeAt(initial, calls + [c], store, i)
  {
    hide Built, Partial, Broken;
    var all := calls + [c];
    assert Ops(all) == Ops(calls) + [c.op] && Outcomes(all) == Outcomes(calls) + [c.outcome];
    assert Ops(all)[..i] == Ops(calls)[..i] && Outcomes(all)[..i] == Outcomes(calls)[..i];
    forall j | i < j < |all| ensures Outcomes(all)[j].Failed? {
      if j < |calls| {
        assert Outcomes(all)[j] == Outcomes(calls)[j];
      }
    }
  }

  lemma BrokeNow(initial: Bytes, calls: seq<Call>, c: Call, store: Store)
    requires !Broken(Outcomes(calls)) && c.outcome.Failed? && c.outcome.error.Client?
    requires Partial(File(initial, calls), c.op, store)
    ensures BrokeAt(initial, calls + [c], store, |calls|)
  {
    hide Built, Partial, Broken;
    var all := calls + [c];
    assert Ops(all)[..|calls|] == Ops(calls) && Outcomes(all)[..|calls|] == Outcomes(calls);
  }

  /** Exactly the threads inside a call, but not closing, have a job. */
  ghost predicate JobsOk(s: State) {
    && (forall t :: t in s.jobs ==> t in s.race.phase && !Race.Closes(s.race.phase[t]))
    && (forall t :: t in s.race.phase && !Race.Closes(s.race.phase[t]) ==> t in s.jobs)
  }

  ghost predicate OnWire(s: State, t: Thread) { Race.At(s.race, t, Race.Requesting) }

  /** While no call has broken, the server's file is the abstract one, give or take the one request in
      progress, and that request started from the abstract file. */
  ghost predicate ServerOk(initial: Bytes, s: State) {
    if s.race.poisoned then exists i :: 0 <= i < |s.calls| && BrokeAt(initial, s.calls, s.server, i)
    else
      && !Broken(Outcomes(s.calls))
      && (forall t :: OnWire(s, t) ==>
            t in s.jobs && s.jobs[t].from == File(initial, s.calls) && Partial(s.jobs[t].from, s.jobs[t].op, s.server))
      && ((forall t :: !OnWire(s, t)) ==> s.server == Store(File(initial, s.calls), None))
  }

  ghost predicate Inv(initial: Bytes, s: State) {
    Race.Inv(s.race) && JobsOk(s) && Sequential(initial, s.calls) && ServerOk(initial, s)
  }

  /** The step of the locks and flags behind a step, if it has one. */
  function RaceStep(step: Step): Option<Race.Step> {
    match step
    case Reject(_, _) => None
    case Begin(t, _) => Some(Race.Lookup(t))
    case Acquire(t) => Some(Race.Acquire(t))
    case Check(t) => Some(Race.Check(t))
    case SkipEmpty(t) => Some(Race.SkipEmpty(t))
    case Issue(t) => Some(Race.Issue(t))
    case Serve(_, _) => None
    case Complete(t, o, _) => Some(Race.Complete(t, !o.Failed?))
    case Closing(step) => Some(step)
  }

  /** Every step refines a step of the locks and flags, or leaves them alone. */
  lemma Refines(s: State, s': State, step: Step)
    requires Next(s, s', step)
    ensures if RaceStep(step).Some? then Race.Next(s.race, s'.race, RaceStep(step).value) else s'.race == s.race
  {
    hide Partial, Performed, Race.Next, Race.At;
  }

  lemma RaceKept(s: State, s': State, step: Step)
    requires Race.Inv(s.race) && Next(s, s', step)
    ensures Race.Inv(s'.race)
  {
    hide Race.Inv, Race.Next, Next;
    Refines(s, s', step);
    if RaceStep(step).Some? {
      Race.StepKeeps(s.race, s'.race, RaceStep(step).value);
    }
  }

  /** Steps that answer nobody and send nothing. */
  predicate Quiet(s: State, step: Step) {
    match step
    case Begin(_, _) => s.race.inTable
    case Acquire(_) => true
    case Check(_) => !s.race.closing && !s.race.poisoned
    case Closing(_) => true
    case _ => false
  }

  lemma JobsKept(s: State, s': State, step: Step)
    requires JobsOk(s) && Next(s, s', step)
    ensures JobsOk(s')
  {
    hide Partial, Performed;
    if Quiet(s, step) {
      JobsQuiet(s, s', step);
    } else {
      hide Race.HoldsLock;
    }
  }

  lemma JobsQuiet(s: State, s': State, step: Step)
    requires JobsOk(s) && Next(s, s', step) && Quiet(s, step)
    ensures JobsOk(s')
  {
    hide Partial, Performed, Answered;
  }

  lemma QuietStep(s: State, s': State, step: Step)
    requires Next(s, s', step) && Quiet(s, step)
    ensures s'.calls == s.calls && s'.server == s.server && s'.race.poisoned == s.race.poisoned
    ensures forall t :: OnWire(s', t) <==> OnWire(s, t)
    ensures forall t :: OnWire(s, t) && t in s.jobs ==> t in s'.jobs && s'.jobs[t] == s.jobs[t]
  {}

  lemma QuietKept(initial: Bytes, s: State, s': State, step: Step)
    requires Inv(initial, s) && Next(s, s', step) && Quiet(s, step)
    ensures Sequential(initial, s'.calls) && ServerOk(initial, s')
  {
    hide Race.Inv, JobsOk, Sequential, Partial, BrokeAt, OnWire, Next, Quiet, File, Broken;
    QuietStep(s, s', step);
  }

  /** Steps that refuse a call without having sent anything. */
  predicate Refuses(s: State, step: Step) {
    match step
    case Reject(_, _) => true
    case Begin(_, _) => !s.race.inTable
    case Check(_) => s.race.closing || s.race.poisoned
    case _ => false
  }

  lemma RefusingStep(s: State, s': State, step: Step) returns (c: Call)
    requires Next(s, s', step) && Refuses(s, step)
    ensures s'.calls == s.calls + [c] && c.outcome.Failed? && !c.outcome.error.Client?
    ensures s'.server == s.server && s'.race.poisoned == s.race.poisoned
    ensures forall t :: OnWire(s', t) <==> OnWire(s, t)
    ensures forall t :: OnWire(s, t) && t in s.jobs ==> t in s'.jobs && s'.jobs[t] == s.jobs[t]
  {
    c := s'.calls[|s.calls|];
  }

  lemma RefusalKept(initial: Bytes, s: State, s': State, step: Step)
    requires Inv(initial, s) && Next(s, s', step) && Refuses(s, step)
    ensures Sequential(initial, s'.calls) && ServerOk(initial, s')
  {
    hide Race.Inv, JobsOk, Sequential, Partial, BrokeAt, OnWire, Next, Refuses, File, Broken, Effect, Answer;
    var c := RefusingStep(s, s', step);
    SnocCall(initial, s.calls, c);
    if s.race.poisoned {
      var i :| 0 <= i < |s.calls| && BrokeAt(initial, s.calls, s.server, i);
      SnocBroke(initial, s.calls, c, s.server, i);
    }
  }

  /** The thread past its check is alone: nothing is on the wire and nothing has failed. */
  lemma ClearedAlone(s: State, t: Thread)
    requires Race.Inv(s.race) && Race.At(s.race, t, Race.Cleared)
    ensures !s.race.poisoned && forall u :: !OnWire(s, u)
  {
    Race.Alone(s.race, t);
  }

  lemma WireAlone(s: State, t: Thread)
    requires Race.Inv(s.race) && OnWire(s, t)
    ensures !s.race.poisoned && forall u :: OnWire(s, u) ==> u == t
  {
    Race.Alone(s.race, t);
  }

  lemma EmptyIsIdle(file: Bytes, op: Op)
    requires EmptyAnswer(op).Some?
    ensures EmptyAnswer(op).value == Answer(file, op) && Effect(file, op) == file && !EmptyAnswer(op).value.Failed?
  {
    if op.WriteOp? {
      NothingWritten(file, op.offset, op.data);
    }
  }

  lemma SkipStep(s: State, s': State, t: Thread)
    requires Next(s, s', SkipEmpty(t))
    ensures t in s.jobs && Race.At(s.race, t, Race.Cleared) && EmptyAnswer(s.jobs[t].op).Some?
    ensures s'.calls == s.calls + [Call(t, s.jobs[t].op, EmptyAnswer(s.jobs[t].op).value)]
    ensures s'.server == s.server && s'.race.poisoned == s.race.poisoned
    ensures forall u :: OnWire(s', u) ==> OnWire(s, u)
  {}

  lemma SkipKept(initial: Bytes, s: State, s': State, t: Thread)
    requires Inv(initial, s) && Next(s, s', SkipEmpty(t))
    ensures Sequential(initial, s'.calls) && ServerOk(initial, s')
  {
    hide Race.Inv, JobsOk, Sequential, Partial, BrokeAt, OnWire, Next, File, Broken, Effect, Answer, EmptyAnswer;
    SkipStep(s, s', t);
    ClearedAlone(s, t);
    EmptyIsIdle(File(initial, s.calls), s.jobs[t].op);
    SnocCall(initial, s.calls, Call(t, s.jobs[t].op, EmptyAnswer(s.jobs[t].op).value));
  }

  /** Nothing done yet is a part of any operation. */
  lemma NothingDone(file: Bytes, op: Op)
    ensures Partial(file, op, Store(file, None))
  {
    if op.WriteOp? {
      NothingWritten(file, op.offset, op.data);
      assert TornAt(file, op.offset, op.data, Store(file, None), 0);
    }
  }

  lemma IssueStep(s: State, s': State, t: Thread)
    requires Next(s, s', Issue(t))
    ensures t in s.jobs && Race.At(s.race, t, Race.Cleared) && s'.jobs == s.jobs[t := Job(s.jobs[t].op, s.server.content)]
    ensures s'.calls == s.calls && s'.server == s.server && s'.race.poisoned == s.race.poisoned
    ensures OnWire(s', t) && forall u :: OnWire(s', u) ==> u == t || OnWire(s, u)
  {}

  lemma IssueKept(initial: Bytes, s: State, s': State, t: Thread)
    requires Inv(initial, s) && Next(s, s', Issue(t))
    ensures Sequential(initial, s'.calls) && ServerOk(initial, s')
  {
    hide Race.Inv, JobsOk, Sequential, Partial, BrokeAt, OnWire, Next, File, Broken;
    IssueStep(s, s', t);
    ClearedAlone(s, t);
    NothingDone(File(initial, s.calls), s.jobs[t].op);
  }

  lemma ServeKept(initial: Bytes, s: State, s': State, t: Thread, store: Store)
    requires Inv(initial, s) && Next(s, s', Serve(t, store))
    ensures Sequential(initial, s'.calls) && ServerOk(initial, s')
  {
    hide Race.Inv, JobsOk, Sequential, Partial, BrokeAt, File, Broken, Race.At;
    WireAlone(s, t);
    assert forall u :: OnWire(s', u) <==> OnWire(s, u);
    assert OnWire(s', t);
  }

  lemma CompleteStep(s: State, s': State, t: Thread, o: Outcome, store: Store)
    requires Next(s, s', Complete(t, o, store))
    ensures t in s.jobs && OnWire(s, t) && Performed(s.jobs[t].from, s.jobs[t].op, o, store)
    ensures s'.calls == s.calls + [Call(t, s.jobs[t].op, o)] && s'.server == store
    ensures s'.race.poisoned == (s.race.poisoned || o.Failed?)
    ensures !OnWire(s', t) && forall u :: OnWire(s', u) ==> OnWire(s, u)
  {
    hide Performed;
  }

  /** The answer of a request is right because the file it started from is still the abstract one. */
  lemma CompleteKept(initial: Bytes, s: State, s': State, t: Thread, o: Outcome, store: Store)
    requires Inv(initial, s) && Next(s, s', Complete(t, o, store))
    ensures Sequential(initial, s'.calls) && ServerOk(initial, s')
  {
    hide Race.Inv, JobsOk, Sequential, Partial, BrokeAt, OnWire, Next, File, Broken, Effect, Answer;
    CompleteStep(s, s', t, o, store);
    WireAlone(s, t);
    var c := Call(t, s.jobs[t].op, o);
    SnocCall(initial, s.calls, c);
    if o.Failed? {
      BrokeNow(initial, s.calls, c, store);
      assert BrokeAt(initial, s'.calls, s'.server, |s.calls|);
    }
  }

  lemma StepKeeps(initial: Bytes, s: State, s': State, step: Step)
    requires Inv(initial, s) && Next(s, s', step)
    ensures Inv(initial, s')
  {
    hide Race.Inv, JobsOk, Sequential, ServerOk, Next;
    RaceKept(s, s', step);
    JobsKept(s, s', step);
    if Quiet(s, step) {
      QuietKept(initial, s, s', step);
    } else if Refuses(s, step) {
      RefusalKept(initial, s, s', step);
    } else {
      match step {
        case SkipEmpty(t) => SkipKept(initial, s, s', t);
        case Issue(t) => IssueKept(initial, s, s', t);
        case Serve(t, store) => ServeKept(initial, s, s', t, store);
        case Complete(t, o, store) => CompleteKept(initial, s, s', t, o, store);
      }
    }
  }

  lemma OpenedOk(initial: Bytes)
    ensures Inv(initial, Opened(initial))
  {
    Race.OpenedOk();
  }

  lemma {:induction false} Reachable(initial: Bytes, run: seq<State>, steps: seq<Step>, k: nat)
    requires Run(initial, run, steps) && k < |run|
    ensures Inv(initial, run[k])
  {
    hide Inv, Next;
    if k == 0 {
      OpenedOk(initial);
    } else {
      Reachable(initial, run, steps, k - 1);
      StepKeeps(initial, run[k - 1], run[k], steps[k - 1]);
    }
  }

  /** In every interleaving of any number of threads, the calls answered so far are answered as one abstract
      file answers them one after the other, in the order of their answers. While no request has failed, and
      none is in progress, the server's file is that abstract file; once one has failed, it may have been
      carried out in part and nothing after it succeeds. */
  lemma Linearizes(initial: Bytes, run: seq<State>, steps: seq<Step>, k: nat)
    requires Run(initial, run, steps) && k < |run|
    ensures var s := run[k];
            && Sequential(initial, s.calls)
            && (!s.race.poisoned && (forall t :: !OnWire(s, t)) ==> s.server == Store(File(initial, s.calls), None))
            && (s.race.poisoned <==> Broken(Outcomes(s.calls)))
            && (s.race.poisoned ==> exists i :: 0 <= i < |s.calls| && BrokeAt(initial, s.calls, s.server, i))
  {
    hide Next, File, Sequential, OnWire, Partial, BrokeAt;
    Reachable(initial, run, steps, k);
    var s := run[k];
    if s.race.poisoned {
      var i :| 0 <= i < |s.calls| && BrokeAt(initial, s.calls, s.server, i);
      BrokeMeansBroken(initial, s.calls, s.server, i);
    }
  }

  lemma BrokeMeansBroken(initial: Bytes, calls: seq<Call>, store: Store, i: nat)
    requires i < |calls| && BrokeAt(initial, calls, store, i)
    ensures Broken(Outcomes(calls))
  {
    hide Built, Partial;
    assert Outcomes(calls)[i] in Outcomes(calls);
  }

  /** The step that starts a call. */
  predicate Starts(step: Step, t: Thread, op: Op) { step == Begin(t, op) || step == Reject(t, op) }

  lemma CallStep(s: State, s': State, step: Step)
    requires Next(s, s', step)
    ensures s'.calls == s.calls || exists t, op, o ::
              s'.calls == s.calls + [Call(t, op, o)] && (Starts(step, t, op) || (t in s.jobs && s.jobs[t].op == op))
  {
    hide Partial, Performed, Race.Next, Race.At;
    if s'.calls != s.calls {
      var c := s'.calls[|s.calls|];
      assert s'.calls == s.calls + [Call(c.thread, c.op, c.outcome)];
    }
  }

  lemma JobStep(s: State, s': State, step: Step, t: Thread)
    requires Next(s, s', step) && t in s'.jobs
    ensures step == Begin(t, s'.jobs[t].op) || (t in s.jobs && s.jobs[t].op == s'.jobs[t].op)
  {
    hide Partial, Performed, Race.Next, Race.At;
  }

  lemma {:induction false} JobBegan(initial: Bytes, run: seq<State>, steps: seq<Step>, n: nat, t: Thread) returns (a: nat)
    requires Run(initial, run, steps) && n < |run| && t in run[n].jobs
    ensures a < n && steps[a] == Begin(t, run[n].jobs[t].op)
    ensures forall j :: a < j <= n ==> t in run[j].jobs && run[j].jobs[t].op == run[n].jobs[t].op
  {
    hide Next;
    assert n > 0;
    JobStep(run[n - 1], run[n], steps[n - 1], t);
    if t in run[n - 1].jobs && run[n - 1].jobs[t].op == run[n].jobs[t].op {
      a := JobBegan(initial, run, steps, n - 1, t);
    } else {
      a := n - 1;
    }
  }

  /** Every answered call took its place in the order at one step `e` of its own, at or after the step `a`
      that started it; so a call started after another was answered comes after it in the order. */
  lemma {:induction false} TakesEffectOnce(initial: Bytes, run: seq<State>, steps: seq<Step>, k: nat, i: nat) returns (a: nat, e: nat)
    requires Run(initial, run, steps) && k < |run| && i < |run[k].calls|
    ensures a <= e < k && Starts(steps[a], run[k].calls[i].thread, run[k].calls[i].op)
    ensures |run[e].calls| == i && run[e + 1].calls == run[e].calls + [run[k].calls[i]] <= run[k].calls
    ensures forall j :: a < j <= e ==> run[k].calls[i].thread in run[j].jobs
  {
    hide Next;
    assert k > 0;
    var s, s' := run[k - 1], run[k];
    CallStep(s, s', steps[k - 1]);
    if i < |s.calls| {
      a, e := TakesEffectOnce(initial, run, steps, k - 1, i);
    } else {
      e := k - 1;
      var c := s'.calls[i];
      if Starts(steps[e], c.thread, c.op) {
        a := e;
      } else {
        a := JobBegan(initial, run, steps, e, c.thread);
      }
    }
  }

  /** The order of the answers respects real time. */
  lemma {:induction false} RespectsRealTime(initial: Bytes, run: seq<State>, steps: seq<Step>, k: nat, i: nat, j: nat)
      returns (a: nat, e: nat, a': nat, e': nat)
    requires Run(initial, run, steps) && k < |run| && i < |run[k].calls| && j < |run[k].calls|
    ensures a <= e < k && |run[e].calls| == i < |run[e + 1].calls| && Starts(steps[a], run[k].calls[i].thread, run[k].calls[i].op)
    ensures a' <= e' < k && |run[e'].calls| == j < |run[e' + 1].calls| && Starts(steps[a'], run[k].calls[j].thread, run[k].calls[j].op)
    ensures e < a' ==> i < j
  {
    hide Next;
    a, e := TakesEffectOnce(initial, run, steps, k, i);
    a', e' := TakesEffectOnce(initial, run, steps, k, j);
    if e < a' {
      CallsGrow(initial, run, steps, e + 1, e');
    }
  }

  lemma {:induction false} CallsGrow(initial: Bytes, run: seq<State>, steps: seq<Step>, a: nat, k: nat)
    requires Run(initial, run, steps) && a <= k < |run|
    ensures run[a].calls <= run[k].calls
    decreases k
  {
    hide Next;
    if a < k {
      CallsGrow(initial, run, steps, a, k - 1);
      CallStep(run[k - 1], run[k], steps[k - 1]);
    }
  }
}
