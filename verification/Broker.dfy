/** The broker runner: one task that owns the session and the reader, serving foreground reads in
    order and speculative hints latest-wins, under two generation tokens other threads advance. */
module Broker {
  import opened Common
  import opened Session
  import opened FileModel
  import opened ReadTrace
  import opened ReadAt
  import opened Cancellation
  import opened CancelableRead
  import opened Video
  import opened VideoPlayback

  datatype Command =
    | ReadCommand(generation: nat, prefetchGeneration: nat, offset: u64, length: nat)
    | Shutdown

  datatype Hint = Hint(playbackGeneration: nat, prefetchGeneration: nat, offset: u64, length: nat)

  datatype BrokerError = Stale | Closed | Stream(error: ClientError)

  datatype Reply = Answered(data: Bytes) | Refused(error: BrokerError) | ShutDown

  class VideoBrokerRunner {
    const cancellation: ReadCancellationToken
    const prefetchCancellation: ReadCancellationToken
    const session: SessionConnection
    const handle: FileHandle
    const reader: VideoReader
    var sourceOpen: bool
    var activeGeneration: nat
    ghost const file: Bytes

    ghost predicate Valid()
      reads this`activeGeneration, cancellation, reader, session, session.credits, session.messageIds
    {
      && reader.Valid() && session.Valid() && Trusted(reader, file, session.trace)
      && cancellation != prefetchCancellation
      && activeGeneration <= cancellation.generation
    }

    constructor (session: SessionConnection, handle: FileHandle, reader: VideoReader,
                 cancellation: ReadCancellationToken, prefetchCancellation: ReadCancellationToken, ghost file: Bytes)
      requires reader.Valid() && session.Valid() && reader.cache.None? && cancellation != prefetchCancellation
      ensures Valid() && sourceOpen && activeGeneration == 0
    {
      this.session, this.handle, this.reader := session, handle, reader;
      this.cancellation, this.prefetchCancellation, this.file := cancellation, prefetchCancellation, file;
      sourceOpen, activeGeneration := true, 0;
    }

    /** Admits work of the current generation only; the first work of a new one moves the reader. */
    method PrepareGeneration(generation: nat, offset: u64) returns (admitted: bool)
      requires Valid()
      modifies this`activeGeneration, reader, cancellation
      ensures Valid() && cancellation.generation >= old(cancellation.generation)
      ensures admitted <==> generation == cancellation.generation
      ensures admitted ==> activeGeneration == generation >= old(activeGeneration)
      ensures !admitted ==> activeGeneration == old(activeGeneration) && unchanged(reader)
      ensures admitted && old(activeGeneration) != generation ==>
                reader.cache.None? && reader.lastRequestEnd == Some(offset) && reader.generation == old(reader.generation) + 1
      ensures admitted && old(activeGeneration) == generation ==> unchanged(reader)
    {
      var now := cancellation.Load();
      if now != generation {
        return false;
      }
      if generation != activeGeneration {
        var g := reader.Seek(offset);
        activeGeneration := generation;
      }
      return true;
    }

    /** An answer is given only while the request's generation is current, and is the file's own
        data; anything stale also costs the reader its window. */
    method ProcessRead(generation: nat, offset: u64, length: nat) returns (r: Reply)
      requires Valid()
      modifies this`activeGeneration, reader, cancellation, session`inbox, session`trace, session`sendsLeft,
               session`leaked, session.credits, session.messageIds
      ensures Valid() && old(session.trace) <= session.trace && !r.ShutDown?
      ensures cancellation.generation >= old(cancellation.generation) && activeGeneration >= old(activeGeneration)
      ensures generation != old(cancellation.generation) && generation < old(cancellation.generation)
              ==> r == Refused(Stale) && session.trace == old(session.trace) && unchanged(reader)
      ensures r.Answered? ==>
                && generation == cancellation.generation == activeGeneration && sourceOpen
                && Serves(file, handle, offset, length, r.data, session.trace)
      ensures r == Refused(Stale) ==> cancellation.generation != generation || Cause(session.trace[|old(session.trace)|..])
      ensures r == Refused(Closed) ==> !sourceOpen && session.trace == old(session.trace)
      ensures r.Refused? && r.error.Stream? ==>
                && r.error.error != Cancelled
                && ReadFails(session, handle, session.trace[|old(session.trace)|..], r.error.error, old(session.messageIds.next), true)
      ensures var target := Target(handle, offset, length);
              sourceOpen && cancellation.generation == generation == old(activeGeneration) && target > 0 && old(reader.Hits(offset, target)) ==>
                && var w := old(reader.cache.value);
                && r == Answered(w.data[offset - w.start..offset - w.start + target])
                && session.trace == old(session.trace) && reader.cache == old(reader.cache)
      ensures r == Refused(Stale) && session.trace != old(session.trace) ==> reader.cache.None?
      ensures !sourceOpen ==> r == Refused(Stale) || (r == Refused(Closed) && session.trace == old(session.trace))
    {
      hide Serves, SessionConnection.Valid, Excused, FirstDenial, Cause, Sampled;
      var admitted := PrepareGeneration(generation, offset);
      if !admitted {
        return Refused(Stale);
      }
      if !sourceOpen {
        return Refused(Closed);
      }
      var elapsed: nat :| elapsed >= 0;
      var read, fetched := ReadThrough(reader, session, handle, offset, length, cancellation, generation, elapsed, file);
      var now := cancellation.Load();
      if (read.Ok? && now != generation) || read == Err(Cancelled) {
        var g := reader.Invalidate();
        return Refused(Stale);
      }
      return if read.Ok? then Answered(read.value) else Refused(Stream(read.error));
    }

    /** The refill hint to publish after an answered read, if nothing newer happened meanwhile. */
    method AutomaticPrefetch(generation: nat, prefetchGeneration: nat) returns (hint: Option<Hint>)
      requires Valid()
      modifies cancellation, prefetchCancellation
      ensures Valid() && cancellation.generation >= old(cancellation.generation)
      ensures prefetchCancellation.generation >= old(prefetchCancellation.generation)
      ensures hint.Some? ==>
                && hint.value.playbackGeneration == generation == cancellation.generation
                && hint.value.prefetchGeneration == prefetchGeneration == prefetchCancellation.generation
                && Some((hint.value.offset, hint.value.length)) == reader.AutomaticHint(handle.length)
                && Some(hint.value.offset) == reader.lastRequestEnd
      ensures hint.None? ==>
                generation != cancellation.generation || prefetchGeneration != prefetchCancellation.generation
                || reader.AutomaticHint(handle.length).None?
    {
      var now := cancellation.Load();
      if now != generation {
        return None;
      }
      now := prefetchCancellation.Load();
      if now != prefetchGeneration {
        return None;
      }
      var wanted := reader.AutomaticHint(handle.length);
      return if wanted.Some? then Some(Hint(generation, prefetchGeneration, wanted.value.0, wanted.value.1)) else None;
    }

    /** A hint that either token has already left behind causes no I/O and leaves the reader alone. */
    method ProcessPrefetch(hint: Hint) returns (ghost outcome: Option<Result<nat>>, ghost fetched: Option<Bytes>)
      requires Valid()
      modifies this`activeGeneration, reader, cancellation, prefetchCancellation, session`inbox, session`trace,
               session`sendsLeft, session`leaked, session.credits, session.messageIds
      ensures Valid() && old(session.trace) <= session.trace
      ensures cancellation.generation >= old(cancellation.generation) && activeGeneration >= old(activeGeneration)
      ensures prefetchCancellation.generation >= old(prefetchCancellation.generation)
      ensures hint.prefetchGeneration < old(prefetchCancellation.generation)
              || hint.playbackGeneration < old(cancellation.generation)
              ==> session.trace == old(session.trace) && unchanged(reader) && activeGeneration == old(activeGeneration)
      ensures outcome.None? ==>
                && session.trace == old(session.trace)
                && (!sourceOpen || prefetchCancellation.generation != hint.prefetchGeneration || cancellation.generation != hint.playbackGeneration)
      ensures outcome.Some? ==>
                activeGeneration == hint.playbackGeneration == cancellation.generation && sourceOpen
      ensures outcome.Some? && old(activeGeneration) == hint.playbackGeneration ==>
                Prefetched(old(reader.cache), old(reader.PlanPrefetch(handle.length, hint.offset, hint.length).value), hint,
                           outcome.value, fetched, session.trace[|old(session.trace)|..], old(session.messageIds.next))
    {
      hide SessionConnection.Valid, Sampled, ReadFails, Refines, VideoReader.PlanPrefetch, VideoReader.ReadAheadTarget,
           VideoReader.Agrees, Honest, Complete;
      outcome, fetched := None, None;
      assert session.trace[|session.trace|..] == [];
      var now := prefetchCancellation.Load();
      if now != hint.prefetchGeneration {
        return;
      }
      var admitted := PrepareGeneration(hint.playbackGeneration, hint.offset);
      if !admitted || !sourceOpen {
        return;
      }
      var elapsed: nat :| elapsed >= 0;
      var extended;
      extended, fetched := PrefetchThrough(reader, session, handle, hint.offset, hint.length, prefetchCancellation,
                                           hint.prefetchGeneration, elapsed, file);
      outcome := Some(extended);
    }

    /** What a live hint does with the plan made for it: nothing without a plan; else it fetches just what
        was planned and appends all of it to the window, or fails for a reason. */
    ghost predicate Prefetched(was: Option<Window>, plan: Option<Extension>, hint: Hint, r: Result<nat>, fetched: Option<Bytes>,
                               t: Trace, lo: nat)
      reads this, reader, prefetchCancellation, session`inbox, session`sendsLeft, session.credits, session.messageIds
    {
      if plan.None? then t == [] && reader.cache == was && (r == Ok(0) || (r.Err? && StaleBy(r.error, prefetchCancellation, hint.prefetchGeneration)))
      else if r.Ok? then
        && was.Some? && plan.value.dropPrefix <= |was.value.data| && fetched.Some? && r.value == |fetched.value| <= plan.value.fetchLen
        && Refines(file, handle, plan.value.offset, plan.value.fetchLen, fetched.value, t)
        && was.value.start + plan.value.dropPrefix <= U64_MAX
        && reader.cache == Some(Window(was.value.generation, was.value.start + plan.value.dropPrefix,
                                       was.value.data[plan.value.dropPrefix..] + fetched.value))
      else
        && reader.cache == was
        && (StaleBy(r.error, prefetchCancellation, hint.prefetchGeneration) || ReadFails(session, handle, t, r.error, lo, true))
    }

    /** The refill that follows an answered read: just what the reader asks for, unless a token moved. */
    ghost predicate Refills(command: Command, refill: Option<Hint>)
      requires Valid() && command.ReadCommand?
      reads this, cancellation, prefetchCancellation, reader, session, session.credits, session.messageIds
    {
      if refill.Some? then
        && refill.value.playbackGeneration == command.generation && refill.value.prefetchGeneration == command.prefetchGeneration
        && reader.AutomaticHint(handle.length) == Some((refill.value.offset, refill.value.length))
      else
        || command.generation != cancellation.generation || command.prefetchGeneration != prefetchCancellation.generation
        || reader.AutomaticHint(handle.length).None?
    }

    /** One command that is not a shutdown, and the refill it leads to. */
    method RunRead(command: Command) returns (reply: Reply, refill: Option<Hint>, ghost moment: nat)
      requires Valid() && command.ReadCommand?
      modifies this`activeGeneration, reader, cancellation, prefetchCancellation, session`inbox, session`trace,
               session`sendsLeft, session`leaked, session.credits, session.messageIds
      ensures Valid() && old(session.trace) <= session.trace && activeGeneration >= old(activeGeneration)
      ensures old(cancellation.generation) <= moment <= cancellation.generation
      ensures reply.Answered? ==> Serves(file, handle, command.offset, command.length, reply.data, session.trace)
      ensures Justified(command, reply, moment, session.trace, sourceOpen)
      ensures reply.Refused? && reply.error.Stream? ==>
                ReadFails(session, handle, session.trace[|old(session.trace)|..], reply.error.error, old(session.messageIds.next), true)
      ensures if reply.Answered? then Refills(command, refill) else refill.None?
    {
      hide Serves, Valid, Cause, ReadFails, VideoReader.AutomaticHint;
      reply := ProcessRead(command.generation, command.offset, command.length);
      refill, moment := None, cancellation.generation;
      NewCause(old(session.trace), session.trace);
      if reply.Answered? {
        refill := AutomaticPrefetch(command.generation, command.prefetchGeneration);
      }
    }

    /** Carries out one turn's work. */
    method Perform(work: Work, ghost ran: seq<Command>, ghost replies: seq<Reply>, ghost moments: seq<nat>)
      returns (reply: Option<Reply>, refill: Option<Hint>, ghost moment: nat, ghost outcome: Option<Result<nat>>)
      requires Valid() && AllRight(file, handle, ran, replies, moments, session.trace)
      modifies this, reader, cancellation, prefetchCancellation, session`inbox, session`trace, session`sendsLeft,
               session`leaked, session.credits, session.messageIds
      ensures Valid() && activeGeneration >= old(activeGeneration) && cancellation.generation >= old(cancellation.generation)
      ensures old(cancellation.generation) <= moment <= cancellation.generation
      ensures reply.Some? <==> work.Serve?
      ensures sourceOpen <==> old(sourceOpen) && !(work.Serve? && work.command.Shutdown?)
      ensures work.Serve? ==> (reply.value.ShutDown? <==> work.command.Shutdown?)
      ensures old(sourceOpen) && work.Serve? ==> reply.value != Refused(Closed)
      ensures work.Serve? && reply.value.Answered? ==> Refills(work.command, refill)
      ensures refill.Some? ==> work.Serve? && reply.value.Answered?
      ensures work.Speculate? && outcome.None? ==>
                !sourceOpen || prefetchCancellation.generation != work.hint.prefetchGeneration
                || cancellation.generation != work.hint.playbackGeneration
      ensures AllRight(file, handle, ran + Served(work), replies + (if reply.Some? then [reply.value] else []),
                       moments + (if reply.Some? then [moment] else []), session.trace)
    {
      hide Serves, Valid, AllRight, Refills, ReadFails, Prefetched, Cause;
      reply, refill, moment, outcome := None, None, cancellation.generation, None;
      ghost var before := session.trace;
      assert replies + [] == replies && ran + [] == ran && moments + [] == moments;
      match work {
        case Wait =>
        case Speculate(hint) =>
          ghost var fetched;
          outcome, fetched := ProcessPrefetch(hint);
          AllRightGrows(file, handle, ran, replies, moments, before, session.trace);
        case Serve(command) =>
          ghost var open := sourceOpen;
          if command.Shutdown? {
            sourceOpen := false;
            reply := Some(ShutDown);
          } else {
            var r;
            r, refill, moment := RunRead(command);
            reply := Some(r);
          }
          AllRightGrows(file, handle, ran, replies, moments, before, session.trace);
          AllRightSnoc(file, handle, ran, replies, moments, command, reply.value, moment, session.trace, open);
      }
    }

    /** The runner's loop over whatever arrives: commands run in the order they were sent, a command
        met during the grace period is put off but not overtaken, every answer is right and every refusal
        has its reason, and what has not run is no more than the backlog: each turn that finds a command
        waiting runs one, until a shutdown. What each turn does is what the selection says, the refills
        asked for included. */
    method Run(script: seq<Turn>)
      returns (ran: seq<Command>, replies: seq<Reply>, ghost turns: nat, ghost moments: seq<nat>, ghost works: seq<Work>,
               ghost refills: seq<Option<Hint>>)
      requires Valid()
      modifies this, reader, cancellation, prefetchCancellation, session`inbox, session`trace,
               session`sendsLeft, session`leaked, session.credits, session.messageIds
      ensures Valid() && activeGeneration >= old(activeGeneration)
      ensures turns <= |script| && AllRight(file, handle, ran, replies, moments, session.trace)
      ensures Rising(moments, old(cancellation.generation), cancellation.generation)
      ensures old(sourceOpen) ==> Refused(Closed) !in replies
      ensures Scheduled(script, works, refills, turns) && ran == ServedAll(works)
      ensures ran <= Sent(script[..turns]) <= Sent(script) && |ran| + Backlog(script[..turns]) == |Sent(script[..turns])|
      ensures turns == |script| || (ran != [] && ran[|ran| - 1].Shutdown?)
      ensures forall i {:trigger ran[i]} :: 0 <= i < |ran| && ran[i].Shutdown? ==> i == |ran| - 1 && !sourceOpen
    {
      hide Serves, Valid, Select, AllRight, Sent, Refills, ChannelsAt, ServedAll, Backlog, Scheduled, Rising;
      ran, replies, turns, moments, works, refills := [], [], 0, [], [], [];
      var channels := Channels([], None, None, false);
      NothingRan(file, handle, session.trace);
      SentNothing(script);
      FirstChannels(script);
      for i := 0 to |script|
        invariant Valid() && activeGeneration >= old(activeGeneration)
        invariant cancellation.generation >= old(cancellation.generation) && sourceOpen == old(sourceOpen)
        invariant turns == i && ran + Waiting(channels) == Sent(script[..i]) && |Waiting(channels)| == Backlog(script[..i])
        invariant AllRight(file, handle, ran, replies, moments, session.trace)
        invariant Rising(moments, old(cancellation.generation), cancellation.generation)
        invariant old(sourceOpen) ==> Refused(Closed) !in replies
        invariant |refills| == i && channels == ChannelsAt(script, refills, i)
        invariant Scheduled(script, works, refills, i) && ran == ServedAll(works)
        invariant forall j {:trigger ran[j]} :: 0 <= j < |ran| ==> !ran[j].Shutdown?
      {
        var next, work := Select(channels, script[i]).0, Select(channels, script[i]).1;
        OneMoreTurn(script, i, ran, channels);
        turns := i + 1;
        ghost var earlier := cancellation.generation;
        var reply, refill, moment, outcome := Perform(work, ran, replies, moments);
        RisingSnoc(moments, old(cancellation.generation), earlier, moment, cancellation.generation);
        moments := moments + if reply.Some? then [moment] else [];
        ScheduledSnoc(script, works, refills, work, refill, i);
        ServedSnoc(works, work);
        works, refills := works + [work], refills + [refill];
        ran := ran + Served(work);
        replies := replies + if reply.Some? then [reply.value] else [];
        if work.Serve? && work.command.Shutdown? {
          SentPrefix(script, i + 1);
          return;
        }
        channels := if refill.Some? then next.(hint := refill, changed := true) else next;
      }
      SentPrefix(script, |script|);
    }
  }

  function Served(work: Work): seq<Command> { if work.Serve? then [work.command] else [] }

  function ServedAll(works: seq<Work>): seq<Command> {
    if works == [] then [] else ServedAll(works[..|works| - 1]) + Served(works[|works| - 1])
  }

  lemma ServedSnoc(works: seq<Work>, work: Work)
    ensures ServedAll(works + [work]) == ServedAll(works) + Served(work)
  {
    assert (works + [work])[..|works|] == works;
  }

  /** The channels before turn `i`, given the refills asked for in the turns before it. */
  function ChannelsAt(script: seq<Turn>, refills: seq<Option<Hint>>, i: nat): Channels
    requires i <= |script| && i <= |refills|
  {
    if i == 0 then Channels([], None, None, false)
    else
      var next := Select(ChannelsAt(script, refills, i - 1), script[i - 1]).0;
      if refills[i - 1].Some? then next.(hint := refills[i - 1], changed := true) else next
  }

  lemma FirstChannels(script: seq<Turn>)
    ensures var c := Channels([], None, None, false);
            && ChannelsAt(script, [], 0) == c && Waiting(c) == [] && Backlog(script[..0]) == 0 && ServedAll([]) == []
            && Scheduled(script, [], [], 0) && forall g: nat :: Rising([], g, g)
  {}

  lemma {:induction false} EarlierChannels(script: seq<Turn>, refills: seq<Option<Hint>>, refill: Option<Hint>, i: nat)
    requires i <= |script| && i <= |refills|
    ensures ChannelsAt(script, refills + [refill], i) == ChannelsAt(script, refills, i)
  {
    hide Select;
    if i > 0 {
      EarlierChannels(script, refills, refill, i - 1);
    }
  }

  /** These moments lie in order between two values of the token. */
  ghost predicate Rising(moments: seq<nat>, from: nat, to: nat) {
    && from <= to && (forall m :: m in moments ==> from <= m <= to)
    && forall i, j :: 0 <= i < j < |moments| ==> moments[i] <= moments[j]
  }

  lemma RisingSnoc(moments: seq<nat>, from: nat, earlier: nat, moment: nat, to: nat)
    requires Rising(moments, from, earlier) && earlier <= moment <= to
    ensures Rising(moments, from, to) && Rising(moments + [moment], from, to) && moments + [] == moments
  {
    var all := moments + [moment];
    forall i, j | 0 <= i < j < |all| ensures all[i] <= all[j] {
      assert i < |moments| && moments[i] in moments;
    }
  }

  /** Each of the first `n` turns did the work the selection gives it, and only answered reads asked for
      refills. */
  ghost predicate Scheduled(script: seq<Turn>, works: seq<Work>, refills: seq<Option<Hint>>, n: nat) {
    && |works| == |refills| == n <= |script|
    && (forall i :: 0 <= i < n ==> works[i] == Select(ChannelsAt(script, refills, i), script[i]).1)
    && forall i :: 0 <= i < n && refills[i].Some? ==> works[i].Serve? && works[i].command.ReadCommand?
  }

  lemma ScheduledSnoc(script: seq<Turn>, works: seq<Work>, refills: seq<Option<Hint>>, work: Work, refill: Option<Hint>, n: nat)
    requires n < |script| && Scheduled(script, works, refills, n)
    requires work == Select(ChannelsAt(script, refills, n), script[n]).1
    requires refill.Some? ==> work.Serve? && work.command.ReadCommand?
    ensures Scheduled(script, works + [work], refills + [refill], n + 1)
    ensures ChannelsAt(script, refills + [refill], n + 1) ==
            var next := Select(ChannelsAt(script, refills, n), script[n]).0;
            if refill.Some? then next.(hint := refill, changed := true) else next
  {
    hide Select, ChannelsAt;
    SameChannels(script, refills, refill, n);
  }

  lemma SameChannels(script: seq<Turn>, refills: seq<Option<Hint>>, refill: Option<Hint>, n: nat)
    requires n < |script| && n == |refills|
    ensures forall i :: 0 <= i <= n ==> ChannelsAt(script, refills + [refill], i) == ChannelsAt(script, refills, i)
    ensures ChannelsAt(script, refills + [refill], n + 1) ==
            var next := Select(ChannelsAt(script, refills, n), script[n]).0;
            if refill.Some? then next.(hint := refill, changed := true) else next
  {
    hide Select;
    forall i | 0 <= i <= n ensures ChannelsAt(script, refills + [refill], i) == ChannelsAt(script, refills, i) {
      EarlierChannels(script, refills, refill, i);
    }
  }

  /** Why a command got this reply, given the playback token at that moment: a shutdown is acknowledged, a
      read is refused as stale only if its generation was not the token's, or a cancellation is on record. */
  ghost predicate Justified(command: Command, reply: Reply, moment: nat, t: Trace, open: bool) {
    && (reply.ShutDown? <==> command.Shutdown?)
    && (reply == Refused(Stale) ==> command.generation != moment || Cause(t))
    && (reply == Refused(Closed) ==> !open)
    && (reply.Refused? && reply.error.Stream? ==> reply.error.error != Cancelled)
  }

  lemma NewCause(t: Trace, u: Trace)
    requires t <= u
    ensures Cause(u[|t|..]) ==> Cause(u)
  {
    if Cause(u[|t|..]) {
      CauseWithin(u[|t|..], u);
    }
  }

  /** Every answer so far is the file's own data for the request it answers, and every refusal has its
      reason. */
  ghost predicate AllRight(file: Bytes, h: FileHandle, ran: seq<Command>, replies: seq<Reply>, moments: seq<nat>, t: Trace) {
    && |ran| == |replies| == |moments|
    && (forall j {:trigger replies[j]} :: 0 <= j < |ran| && replies[j].Answered? ==>
          ran[j].ReadCommand? && Serves(file, h, ran[j].offset, ran[j].length, replies[j].data, t))
    && forall j {:trigger replies[j]} :: 0 <= j < |ran| ==> Justified(ran[j], replies[j], moments[j], t, false)
  }

  lemma NothingRan(file: Bytes, h: FileHandle, t: Trace)
    ensures AllRight(file, h, [], [], [], t)
  {}

  lemma AllRightGrows(file: Bytes, h: FileHandle, ran: seq<Command>, replies: seq<Reply>, moments: seq<nat>, t: Trace, u: Trace)
    requires AllRight(file, h, ran, replies, moments, t) && t <= u
    ensures AllRight(file, h, ran, replies, moments, u)
  {
    hide Serves, Cause;
    forall j | 0 <= j < |ran| && replies[j].Answered?
      ensures Serves(file, h, ran[j].offset, ran[j].length, replies[j].data, u)
    {
      StillServes(file, h, ran[j].offset, ran[j].length, replies[j].data, t, u);
    }
    if Cause(t) {
      CauseWithin(t, u);
    }
  }

  lemma AllRightSnoc(file: Bytes, h: FileHandle, ran: seq<Command>, replies: seq<Reply>, moments: seq<nat>,
                     command: Command, reply: Reply, moment: nat, t: Trace, open: bool)
    requires AllRight(file, h, ran, replies, moments, t) && Justified(command, reply, moment, t, open)
    requires reply.Answered? ==> command.ReadCommand? && Serves(file, h, command.offset, command.length, reply.data, t)
    ensures AllRight(file, h, ran + [command], replies + [reply], moments + [moment], t)
  {
    hide Serves, Cause;
  }

  /** The two channels as the runner sees them: a FIFO of commands, at most one of them put off, and
      a latest-wins slot for hints. */
  datatype Channels = Channels(queue: seq<Command>, deferred: Option<Command>, hint: Option<Hint>, changed: bool)

  datatype Work = Wait | Serve(command: Command) | Speculate(hint: Hint)

  /** Commands sent but not yet run, in the order they will run. */
  function Waiting(c: Channels): seq<Command> {
    (if c.deferred.Some? then [c.deferred.value] else []) + c.queue
  }

  /** One turn: a deferred command first, then a waiting one, then a new hint, which a command
      arriving during the grace period still beats. Noticing the hint already marks it as seen, so a
      hint beaten this way is not looked at again. */
  function Select(c: Channels, turn: Turn): (Channels, Work) {
    var queue := c.queue + turn.arrivals;
    var hint, changed := if turn.hint.Some? then turn.hint else c.hint, c.changed || turn.hint.Some?;
    var late := queue + turn.graceArrivals;
    if c.deferred.Some? then (Channels(late, None, hint, changed), Serve(c.deferred.value))
    else if queue != [] then (Channels(queue[1..] + turn.graceArrivals, None, hint, changed), Serve(queue[0]))
    else if !changed then (Channels(late, None, hint, changed), Wait)
    else if late != [] then (Channels(late[1..], Some(late[0]), hint, false), Wait)
    else (Channels(late, None, hint, false), if hint.Some? then Speculate(hint.value) else Wait)
  }

  /** No turn lets a command overtake another, or speculates while a command waits; only the newest
      hint is ever acted on. */
  lemma SelectKeepsOrder(c: Channels, turn: Turn)
    ensures var (next, work) := Select(c, turn);
            && Served(work) + Waiting(next) == Waiting(c) + turn.arrivals + turn.graceArrivals
            && (Waiting(c) + turn.arrivals != [] <==> work.Serve?)
            && (work.Speculate? ==>
                  Waiting(next) == [] && Some(work.hint) == next.hint && !next.changed
                  && (turn.hint.Some? ==> work.hint == turn.hint.value))
  {
    var queue := c.queue + turn.arrivals;
    if c.deferred.None? && queue != [] {
      assert [queue[0]] + queue[1..] == queue;
    }
  }

  /** Exactly when a hint is acted on: the newest one, not noticed before, in a turn that finds no command
      waiting and gets none during the grace period. It stays unnoticed only while commands wait. */
  lemma HintsAreNoticedOnce(c: Channels, turn: Turn)
    ensures var (next, work) := Select(c, turn);
            var waiting, unseen := Waiting(c) + turn.arrivals, c.changed || turn.hint.Some?;
            var newest := if turn.hint.Some? then turn.hint else c.hint;
            && next.hint == newest && (next.changed <==> unseen && waiting != [])
            && (forall h :: work == Speculate(h) <==> waiting == [] && turn.graceArrivals == [] && unseen && newest == Some(h))
            && (work.Serve? ==> waiting != [] && work.command == waiting[0])
            && (next.deferred.Some? <==> waiting == [] && unseen && turn.graceArrivals != [])
  {
    assert c.deferred.None? ==> Waiting(c) == c.queue;
  }

  /** What other threads send around one turn of the loop. */
  datatype Turn = Turn(arrivals: seq<Command>, hint: Option<Hint>, graceArrivals: seq<Command>)

  /** Every interactive command ever sent, in order. */
  function Sent(script: seq<Turn>): seq<Command> {
    if script == [] then []
    else
      var last := script[|script| - 1];
      Sent(script[..|script| - 1]) + last.arrivals + last.graceArrivals
  }

  /** Commands left over when every turn with a command at its start runs exactly one, and what arrives
      during the grace period has to wait for the next. */
  function Backlog(script: seq<Turn>): nat {
    if script == [] then 0
    else
      var last := script[|script| - 1];
      Max(Backlog(script[..|script| - 1]) + |last.arrivals| - 1, 0) + |last.graceArrivals|
  }

  function Idle(n: nat): seq<Turn> { seq(n, i => Turn([], None, [])) }

  /** Once nothing new is sent, the backlog shrinks by one a turn until everything has run. */
  lemma {:induction false} BacklogDrains(script: seq<Turn>, n: nat)
    ensures Backlog(script + Idle(n)) == Max(Backlog(script) - n, 0)
  {
    if n == 0 {
      assert script + Idle(0) == script;
    } else {
      BacklogDrains(script, n - 1);
      assert (script + Idle(n))[..|script| + n - 1] == script + Idle(n - 1);
    }
  }

  lemma SentSplit(script: seq<Turn>, i: nat)
    requires i < |script|
    ensures Sent(script[..i + 1]) == Sent(script[..i]) + script[i].arrivals + script[i].graceArrivals
  {
    assert script[..i + 1][..i] == script[..i];
  }

  lemma {:induction false} SentPrefix(script: seq<Turn>, i: nat)
    requires i <= |script|
    ensures Sent(script[..i]) <= Sent(script)
    decreases |script| - i
  {
    if i == |script| {
      assert script[..i] == script;
    } else {
      SentSplit(script, i);
      SentPrefix(script, i + 1);
    }
  }

  lemma SentNothing(script: seq<Turn>)
    ensures Sent(script[..0]) == []
  {}

  /** What ran and what still waits is always everything that was sent, in order. */
  lemma OneMoreTurn(script: seq<Turn>, i: nat, ran: seq<Command>, c: Channels)
    requires i < |script| && ran + Waiting(c) == Sent(script[..i])
    ensures var (next, work) := Select(c, script[i]);
            && (ran + Served(work)) + Waiting(next) == Sent(script[..i + 1])
            && (|Waiting(c)| == Backlog(script[..i]) ==> |Waiting(next)| == Backlog(script[..i + 1]))
  {
    hide Select, Sent, Waiting;
    assert script[..i + 1][..i] == script[..i];
    var (next, work) := Select(c, script[i]);
    SentSplit(script, i);
    SelectKeepsOrder(c, script[i]);
    assert (ran + Served(work)) + Waiting(next) == ran + (Served(work) + Waiting(next));
  }
}
