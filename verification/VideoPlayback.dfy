/** The video reader over a live session: any run of reads, prefetches, seeks and invalidations. */
module VideoPlayback {
  import opened Common
  import opened Session
  import opened FileModel
  import opened ReadTrace
  import opened ReadAssembly
  import opened ReadAt
  import Pipeline
  import opened Cancellation
  import opened CancelableRead
  import opened Video

  /** The window agrees with the file, if everything the server ever returned did. */
  ghost predicate Trusted(v: VideoReader, file: Bytes, t: Trace)
    reads v
  {
    Honest(file, t) ==> v.Agrees(file)
  }

  /** What a read of this range may return, judged by all that was received so far. */
  ghost predicate Serves(file: Bytes, h: FileHandle, offset: u64, length: nat, data: Bytes, t: Trace) {
    && |data| <= Target(h, offset, length)
    && (Honest(file, t) ==> data == Slice(file, offset, |data|))
    && (Complete(file, t) ==> data == Slice(file, offset, Target(h, offset, length)))
  }

  /** A window that agrees with the file answers exactly as a direct, complete read would. */
  lemma HitIsDirect(v: VideoReader, file: Bytes, h: FileHandle, offset: u64, target: nat, data: Bytes, t: Trace)
    requires v.cache.Some? && v.Hits(offset, target) && Trusted(v, file, t)
    requires data == v.cache.value.data[offset - v.cache.value.start..offset - v.cache.value.start + target]
    requires target == Target(h, offset, target)
    ensures Honest(file, t) ==> data == Slice(file, offset, target)
  {
    if Honest(file, t) {
      var w := v.cache.value;
      SubSlice(file, w.start, |w.data|, offset - w.start, target);
    }
  }

  lemma HonestPrefix(file: Bytes, t: Trace, u: Trace)
    requires t <= u
    ensures Honest(file, u) ==> Honest(file, t) && Honest(file, u[|t|..])
    ensures Complete(file, u) ==> Complete(file, t) && Complete(file, u[|t|..]) && Honest(file, u)
  {
    hide Honest, Complete;
    Shorter(file, t, u);
    Shorter(file, u[|t|..], u);
    if Complete(file, u) {
      CompleteIsHonest(file, u);
    }
  }

  /** One positional SMB read through whichever scheduler the caller's token selects. */
  method FetchRange(v: VideoReader, s: SessionConnection, h: FileHandle, offset: u64, length: nat,
                    token: ReadCancellationToken?, generation: nat, ghost file: Bytes)
    returns (r: Result<Bytes>)
    requires s.Valid() && ValidConfig(v.config)
    modifies s`inbox, s`trace, s`sendsLeft, s`leaked, s.credits, s.messageIds, token
    ensures s.Valid() && old(s.trace) <= s.trace
    ensures token != null ==> token.generation >= old(token.generation)
    ensures r.Err? ==> ReadFails(s, h, s.trace[|old(s.trace)|..], r.error, old(s.messageIds.next), token != null)
    ensures r.Ok? ==> Refines(file, h, offset, length, r.value, s.trace[|old(s.trace)|..])
    ensures r.Ok? ==> |r.value| <= Target(h, offset, length)
  {
    hide CancelableRead.CancelContract, Closed, Honest, Complete, Reads, Excused, FirstDenial, Cause, Settles, AllGenuine, TallyOf;
    if token == null {
      var read := Pipeline.ReadAtPipelinedWithStats(s, h, offset, length, v.config.pipeline, file);
      if read.Err? {
        return Err(read.error);
      }
      return Ok(read.value.0);
    }
    r := CancelableRead.ReadAtPipelinedCancelable(s, h, offset, length, v.config.pipeline, token, generation, file);
  }

  /** The read was given up because its generation is no longer current. */
  ghost predicate StaleBy(e: ClientError, token: ReadCancellationToken?, generation: nat)
    reads token
  {
    e == Cancelled && token != null && token.generation != generation
  }

  /** The throughput estimate after a fetch that succeeded, if one did. */
  function Sampled(observed: Option<u64>, fetched: Option<Bytes>, elapsed: nat): Option<u64> {
    if fetched.Some? && |fetched.value| <= U64_MAX then Blend(observed, Throughput(|fetched.value|, Min(elapsed, U64_MAX))) else observed
  }

  /** A foreground read: from the window if it can, else by one fetch that becomes the window. */
  method ReadThrough(v: VideoReader, s: SessionConnection, h: FileHandle, offset: u64, length: nat,
                     token: ReadCancellationToken?, generation: nat, elapsed: nat, ghost file: Bytes)
    returns (r: Result<Bytes>, ghost fetched: Option<Bytes>)
    requires v.Valid() && s.Valid() && Trusted(v, file, s.trace)
    modifies v, s`inbox, s`trace, s`sendsLeft, s`leaked, s.credits, s.messageIds, token
    ensures v.Valid() && s.Valid() && old(s.trace) <= s.trace && Trusted(v, file, s.trace)
    ensures token != null ==> token.generation >= old(token.generation)
    ensures r.Ok? ==> Serves(file, h, offset, length, r.value, s.trace)
    ensures r.Ok? && token != null ==> token.generation == generation
    ensures token != null && generation < old(token.generation) ==> r == Err(Cancelled) && s.trace == old(s.trace) && unchanged(v)
    ensures r.Err? ==>
              || StaleBy(r.error, token, generation)
              || ReadFails(s, h, s.trace[|old(s.trace)|..], r.error, old(s.messageIds.next), token != null)
    ensures var target := Target(h, offset, length);
            && (target == 0 || old(v.Hits(offset, target)) ==> r.Err? ==> StaleBy(r.error, token, generation))
            && (target == 0 ==> s.trace == old(s.trace) && unchanged(v) && (r.Ok? ==> r.value == []))
            && (target > 0 && old(v.Hits(offset, target)) ==>
                  && s.trace == old(s.trace) && v.cache == old(v.cache) && v.throughput == old(v.throughput)
                  && (r.Ok? ==>
                        && var w := old(v.cache.value);
                        r.value == w.data[offset - w.start..offset - w.start + target]))
            && (target > 0 && !old(v.Hits(offset, target)) ==>
                  && (r.Ok? ==> fetched.Some? && r.value == fetched.value[..Min(target, |fetched.value|)])
                  && v.throughput == Sampled(old(v.throughput), fetched, elapsed))
    ensures r.Ok? && 0 < length && offset < h.length ==> v.lastRequestEnd == Some(offset + |r.value|)
  {
    hide Honest, Complete, Slice, Refines, SessionConnection.Valid, Blend, Throughput;
    fetched := None;
    var prepared := v.PrepareRead(h.length, offset, length, token, generation);
    if prepared.Err? {
      return Err(prepared.error), fetched;
    }
    match prepared.value {
      case Nothing =>
        EmptySlice(file, offset);
        return Ok([]), fetched;
      case Cached(data) =>
        HitIsDirect(v, file, h, offset, |data|, data, s.trace);
        HonestPrefix(file, s.trace, s.trace);
        return Ok(data), fetched;
      case Fetch(target, fetchLen, readerGeneration) =>
        r, fetched := FetchThrough(v, s, h, offset, target, fetchLen, readerGeneration, token, generation, elapsed, file);
    }
  }

  /** The fetch of a missed read: one scheduler run whose bytes become the window. */
  method FetchThrough(v: VideoReader, s: SessionConnection, h: FileHandle, offset: u64, target: nat, fetchLen: nat,
                      readerGeneration: nat, token: ReadCancellationToken?, generation: nat, elapsed: nat, ghost file: Bytes)
    returns (r: Result<Bytes>, ghost data: Option<Bytes>)
    requires v.Valid() && s.Valid() && Trusted(v, file, s.trace) && readerGeneration == v.generation
    requires 0 < target <= fetchLen && offset + fetchLen <= h.length
    modifies v, s`inbox, s`trace, s`sendsLeft, s`leaked, s.credits, s.messageIds, token
    ensures v.Valid() && s.Valid() && old(s.trace) <= s.trace && Trusted(v, file, s.trace)
    ensures token != null ==> token.generation >= old(token.generation)
    ensures r.Ok? ==> Serves(file, h, offset, target, r.value, s.trace) && v.lastRequestEnd == Some(offset + |r.value|)
    ensures r.Ok? && token != null ==> token.generation == generation
    ensures r.Err? ==>
              || StaleBy(r.error, token, generation)
              || ReadFails(s, h, s.trace[|old(s.trace)|..], r.error, old(s.messageIds.next), token != null)
    ensures v.generation == old(v.generation) && v.throughput == Sampled(old(v.throughput), data, elapsed)
    ensures r.Err? ==> v.cache == old(v.cache) && v.lastRequestEnd == old(v.lastRequestEnd)
    ensures r.Ok? ==>
              && data.Some? && |data.value| <= fetchLen && r.value == data.value[..Min(target, |data.value|)]
              && v.cache == if |data.value| <= v.config.maxCache then Some(Window(v.generation, offset, data.value)) else None
    ensures data.Some? ==> Refines(file, h, offset, fetchLen, data.value, s.trace[|old(s.trace)|..])
  {
    hide Honest, Complete, Slice, Refines, SessionConnection.Valid, Blend, Throughput, ReadFails;
    data := None;
    ghost var before := s.trace;
    var fetched := FetchRange(v, s, h, offset, fetchLen, token, generation, file);
    HonestPrefix(file, before, s.trace);
    if fetched.Err? {
      return Err(fetched.error), data;
    }
    data := Some(fetched.value);
    v.RecordThroughput(|fetched.value|, elapsed);
    FetchedAgrees(file, h, offset, fetchLen, target, fetched.value, before, s.trace);
    r := v.FinishFetch(offset, target, readerGeneration, fetched.value, token, generation);
  }

  lemma EmptySlice(file: Bytes, offset: nat)
    ensures Slice(file, offset, 0) == []
  {}

  /** What a scheduler's contract means for the window and for the bytes handed out. */
  lemma FetchedAgrees(file: Bytes, h: FileHandle, offset: u64, fetchLen: nat, target: nat, d: Bytes, before: Trace, after: Trace)
    requires before <= after && target <= fetchLen <= h.length - offset && 0 < fetchLen
    requires Refines(file, h, offset, fetchLen, d, after[|before|..]) && |d| <= fetchLen
    ensures Honest(file, after) ==> d == Slice(file, offset, |d|)
    ensures Honest(file, after) ==> d[..Min(target, |d|)] == Slice(file, offset, Min(target, |d|))
    ensures Complete(file, after) ==> d[..Min(target, |d|)] == Slice(file, offset, target)
  {
    hide Honest, Complete;
    HonestPrefix(file, before, after);
    if Honest(file, after) {
      SliceTake(file, offset, |d|, Min(target, |d|));
    }
    if Complete(file, after) {
      SliceTake(file, offset, fetchLen, target);
    }
  }

  /** A speculative fetch: extends the window, never moves the cursor, and never drops a byte from
      `max(start, cursor - target)` on. */
  method PrefetchThrough(v: VideoReader, s: SessionConnection, h: FileHandle, hintOffset: u64, hintLength: nat,
                         token: ReadCancellationToken, generation: nat, elapsed: nat, ghost file: Bytes)
    returns (r: Result<nat>, ghost data: Option<Bytes>)
    requires v.Valid() && s.Valid() && Trusted(v, file, s.trace)
    modifies v, s`inbox, s`trace, s`sendsLeft, s`leaked, s.credits, s.messageIds, token
    ensures v.Valid() && s.Valid() && old(s.trace) <= s.trace && Trusted(v, file, s.trace)
    ensures token.generation >= old(token.generation)
    ensures v.lastRequestEnd == old(v.lastRequestEnd) && v.generation == old(v.generation)
    ensures r.Ok? ==> token.generation == generation
    ensures generation < old(token.generation) ==> r == Err(Cancelled) && s.trace == old(s.trace) && unchanged(v)
    ensures v.cache.Some? <==> old(v.cache).Some?
    ensures v.cache.Some? ==>
              var was, now := old(v.cache.value), v.cache.value;
              && now.start + |now.data| >= was.start + |was.data|
              && now.start <= Max(was.start, old(v.lastRequestEnd.value - v.ReadAheadTarget()))
    ensures var planned := old(v.PlanPrefetch(h.length, hintOffset, hintLength).value);
            if planned.None? then
              s.trace == old(s.trace) && unchanged(v) && data.None? && (r == Ok(0) || (r.Err? && StaleBy(r.error, token, generation)))
            else
              && v.throughput == Sampled(old(v.throughput), data, elapsed)
              && (data.Some? ==> Refines(file, h, planned.value.offset, planned.value.fetchLen, data.value, s.trace[|old(s.trace)|..]))
              && (r.Ok? ==>
                    && data.Some? && r.value == |data.value| <= planned.value.fetchLen
                    && var w := old(v.cache.value);
                    v.cache == Some(Window(w.generation, w.start + planned.value.dropPrefix, w.data[planned.value.dropPrefix..] + data.value)))
              && (r.Err? ==>
                    && v.cache == old(v.cache)
                    && (StaleBy(r.error, token, generation)
                        || ReadFails(s, h, s.trace[|old(s.trace)|..], r.error, old(s.messageIds.next), true)))
  {
    hide Honest, Complete, Slice, Refines, SessionConnection.Valid, Blend, Throughput, ReadFails,
         VideoReader.PlanPrefetch, VideoReader.ReadAheadTarget, PlanExtension;
    data := None;
    var current := NotCancelled(token, generation);
    if !current {
      return Err(Cancelled), data;
    }
    var planned := v.PlanPrefetch(h.length, hintOffset, hintLength);
    if planned.value.None? {
      return Ok(0), data;
    }
    var plan := planned.value.value;
    ghost var before := s.trace;
    var fetched := FetchRange(v, s, h, plan.offset, plan.fetchLen, token, generation, file);
    HonestPrefix(file, before, s.trace);
    if fetched.Err? {
      return Err(fetched.error), data;
    }
    data := Some(fetched.value);
    v.RecordThroughput(|fetched.value|, elapsed);
    FetchedAgrees(file, h, plan.offset, plan.fetchLen, plan.fetchLen, fetched.value, before, s.trace);
    ghost var w := v.cache.value;
    r := v.FinishPrefetch(plan, fetched.value, token, generation);
    assert r.Ok? ==> fetched.value[..r.value] == fetched.value;
    if r.Ok? && Honest(file, s.trace) {
      Extended(file, w, plan.dropPrefix, fetched.value, r.value);
    }
  }

  lemma Extended(file: Bytes, w: Window, drop: nat, d: Bytes, n: nat)
    requires drop <= |w.data| && w.data == Slice(file, w.start, |w.data|)
    requires d == Slice(file, w.start + |w.data|, |d|) && n <= |d|
    ensures w.data[drop..] + d[..n] == Slice(file, w.start + drop, |w.data| - drop + n)
  {
    hide Slice;
    assert w.data[drop..] == Slice(file, w.start + drop, |w.data| - drop) by {
      assert w.data[drop..] == w.data[drop..drop + (|w.data| - drop)];
      SubSlice(file, w.start, |w.data|, drop, |w.data| - drop);
    }
    assert d[..n] == Slice(file, w.start + |w.data|, n) by {
      SliceTake(file, w.start + |w.data|, |d|, n);
    }
    WindowJoin(file, w.start + drop, w.data[drop..], d[..n]);
  }

  /** What a player may ask for. Every read says how it may be cancelled: by a token of its own choice
      and a generation of it, or not at all. A prefetch always has a token. */
  datatype PlayerOp =
    | ReadOp(offset: u64, length: nat, elapsed: nat, readToken: ReadCancellationToken?, generation: nat)
    | PrefetchOp(offset: u64, length: nat, elapsed: nat, hintToken: ReadCancellationToken, generation: nat)
    | SeekOp(offset: u64)
    | InvalidateOp

  datatype PlayerResult = Returned(data: Bytes) | Ended(error: ClientError) | Carried

  function TokenOf(op: PlayerOp): ReadCancellationToken? {
    match op
    case ReadOp(_, _, _, token, _) => token
    case PrefetchOp(_, _, _, token, _) => token
    case _ => null
  }

  /** One operation of the player. */
  method PlayOne(v: VideoReader, s: SessionConnection, h: FileHandle, op: PlayerOp, ghost file: Bytes)
    returns (result: PlayerResult)
    requires v.Valid() && s.Valid() && Trusted(v, file, s.trace)
    modifies v, s`inbox, s`trace, s`sendsLeft, s`leaked, s.credits, s.messageIds, TokenOf(op)
    ensures v.Valid() && s.Valid() && Trusted(v, file, s.trace) && old(s.trace) <= s.trace
    ensures result.Carried? <==> !op.ReadOp?
    ensures result.Returned? ==> Serves(file, h, op.offset, op.length, result.data, s.trace)
    ensures result.Ended? ==>
              || StaleBy(result.error, TokenOf(op), op.generation)
              || ReadFails(s, h, s.trace[|old(s.trace)|..], result.error, old(s.messageIds.next), TokenOf(op) != null)
    ensures op.SeekOp? ==> v.cache == None && v.lastRequestEnd == Some(op.offset) && v.generation == old(v.generation) + 1
    ensures op.InvalidateOp? ==> v.cache == None && v.lastRequestEnd == None && v.generation == old(v.generation) + 1
    ensures op.PrefetchOp? ==> v.lastRequestEnd == old(v.lastRequestEnd) && v.generation == old(v.generation)
  {
    hide Trusted, Serves, SessionConnection.Valid, ReadFails;
    result := Carried;
    match op {
      case ReadOp(offset, length, elapsed, token, generation) =>
        var read, fetched := ReadThrough(v, s, h, offset, length, token, generation, elapsed, file);
        result := if read.Ok? then Returned(read.value) else Ended(read.error);
      case PrefetchOp(offset, length, elapsed, token, generation) =>
        var extended, fetched := PrefetchThrough(v, s, h, offset, length, token, generation, elapsed, file);
      case SeekOp(offset) =>
        var g := v.Seek(offset);
        NoWindow(v, file, s.trace);
      case InvalidateOp =>
        var g := v.Invalidate();
        NoWindow(v, file, s.trace);
    }
  }

  /** Every run of the reader: whatever is read, prefetched, sought or invalidated in whatever order,
      under whatever tokens, moved by whomever, every successful read returns the file's own bytes,
      and exactly the requested slice if the server falls short only at end of file. */
  method Play(v: VideoReader, s: SessionConnection, h: FileHandle, ops: seq<PlayerOp>, ghost file: Bytes)
    returns (results: seq<PlayerResult>)
    requires v.Valid() && s.Valid() && Trusted(v, file, s.trace)
    modifies v, s`inbox, s`trace, s`sendsLeft, s`leaked, s.credits, s.messageIds
    modifies set i | 0 <= i < |ops| :: TokenOf(ops[i])
    ensures |results| == |ops| && v.Valid() && s.Valid() && Trusted(v, file, s.trace)
    ensures forall i :: 0 <= i < |ops| ==> (results[i].Carried? <==> !ops[i].ReadOp?)
    ensures forall i {:trigger results[i]} :: 0 <= i < |ops| && results[i].Returned? ==>
              ops[i].ReadOp? && Serves(file, h, ops[i].offset, ops[i].length, results[i].data, s.trace)
  {
    hide Trusted, Serves, SessionConnection.Valid;
    results := [];
    for i := 0 to |ops|
      invariant |results| == i && v.Valid() && s.Valid() && Trusted(v, file, s.trace)
      invariant forall j :: 0 <= j < i ==> (results[j].Carried? <==> !ops[j].ReadOp?)
      invariant forall j {:trigger results[j]} :: 0 <= j < i && results[j].Returned? ==>
        ops[j].ReadOp? && Serves(file, h, ops[j].offset, ops[j].length, results[j].data, s.trace)
    {
      ghost var before := s.trace;
      var result := PlayOne(v, s, h, ops[i], file);
      forall j | 0 <= j < i && results[j].Returned?
        ensures Serves(file, h, ops[j].offset, ops[j].length, results[j].data, s.trace)
      {
        StillServes(file, h, ops[j].offset, ops[j].length, results[j].data, before, s.trace);
      }
      results := results + [result];
    }
  }

  lemma NoWindow(v: VideoReader, file: Bytes, t: Trace)
    requires v.cache.None?
    ensures Trusted(v, file, t)
  {}

  lemma StillServes(file: Bytes, h: FileHandle, offset: u64, length: nat, data: Bytes, t: Trace, u: Trace)
    requires Serves(file, h, offset, length, data, t) && t <= u
    ensures Serves(file, h, offset, length, data, u)
  {
    HonestPrefix(file, t, u);
  }
}
