/** The video reader: one rolling read-ahead window in front of positional SMB reads. */
module Video {
  import opened Common
  import opened Messages
  import opened Session
  import opened FileModel
  import opened ReadTrace
  import opened ReadAssembly
  import opened ReadAt
  import opened Pipeline
  import opened Cancellation
  import opened CancelableRead

  const U128_MAX: int := 0xFFFF_FFFF_FFFF_FFFF_FFFF_FFFF_FFFF_FFFF
  const MICROS_PER_SECOND: int := 1_000_000

  datatype Config = Config(readAhead: nat, bufferNanos: nat, maxCache: nat, pipeline: PipelinedReadOptions)

  /** Whole microseconds of the buffer duration; none for a shorter one. */
  function BufferMicros(c: Config): (micros: nat)
    ensures micros * 1000 <= c.bufferNanos < (micros + 1) * 1000
  {
    c.bufferNanos / 1000
  }

  /** Sizes are 64-bit. */
  ghost predicate Representable(c: Config) {
    c.readAhead <= U64_MAX && c.maxCache <= U64_MAX && c.pipeline.chunkSize <= U64_MAX && c.pipeline.maxInFlight <= U64_MAX
  }

  /** What a reader can be made with: nothing is zero. */
  ghost predicate ValidConfig(c: Config) {
    Representable(c) && 0 !in {c.readAhead, c.bufferNanos, c.maxCache, c.pipeline.chunkSize, c.pipeline.maxInFlight}
  }

  method NewReader(c: Config) returns (r: Result<VideoReader>)
    requires Representable(c)
    ensures r.Ok? <==> ValidConfig(c)
    ensures r.Ok? ==> r.value.Valid() && r.value.cache == None && r.value.lastRequestEnd == None && r.value.config == c && fresh(r.value)
    ensures r.Err? ==> r.error == Protocol(BadOptions)
  {
    if c.readAhead == 0 || c.bufferNanos == 0 || c.maxCache == 0 || c.pipeline.chunkSize == 0 || c.pipeline.maxInFlight == 0 {
      return Err(Protocol(BadOptions));
    }
    var reader := new VideoReader(c);
    return Ok(reader);
  }

  datatype Window = Window(generation: nat, start: u64, data: Bytes)

  function RequestEnd(offset: u64, length: nat): Result<u64> {
    if offset + length <= U64_MAX then Ok(offset + length) else Err(Protocol(OffsetOverflow))
  }

  /** The part of the window a request asks for, if the window has all of it. */
  function WindowSlice(w: Window, offset: u64, length: nat): Result<Option<Bytes>> {
    var requestedEnd := RequestEnd(offset, length);
    if requestedEnd.Err? then Err(requestedEnd.error)
    else if offset < w.start then Ok(None)
    else
      var end := RequestEnd(w.start, |w.data|);
      if end.Err? then Err(end.error)
      else if requestedEnd.value > end.value then Ok(None)
      else Ok(Some(w.data[offset - w.start..offset - w.start + length]))
  }

  datatype PreparedRead = Nothing | Cached(data: Bytes) | Fetch(target: nat, fetchLen: nat, generation: nat)

  datatype Extension = Extension(
    offset: u64,
    fetchLen: nat,
    generation: nat,
    expectedStart: u64,
    expectedLen: nat,
    dropPrefix: nat)

  /** A window of the file stays one when cut. */
  lemma SubSlice(file: Bytes, start: nat, n: nat, rel: nat, m: nat)
    requires |Slice(file, start, n)| == n && rel + m <= n
    ensures Slice(file, start, n)[rel..rel + m] == Slice(file, start + rel, m)
  {}

  /** The first `m` bytes of what a longer read returns are what a read of `m` returns. */
  lemma SliceTake(file: Bytes, offset: nat, n: nat, m: nat)
    requires m <= n
    ensures Slice(file, offset, n)[..Min(m, |Slice(file, offset, n)|)] == Slice(file, offset, m)
  {}

  /** Two adjacent windows of the file join to one. */
  lemma WindowJoin(file: Bytes, start: nat, a: Bytes, b: Bytes)
    requires a == Slice(file, start, |a|) && b == Slice(file, start + |a|, |b|)
    ensures a + b == Slice(file, start, |a + b|)
  {
    SliceJoin(file, start, |a|, |b|);
  }

  /** Saturating throughput of one successful fetch; none without bytes or time. */
  function Throughput(bytes: u64, micros: u64): Option<u64> {
    if bytes == 0 || micros == 0 then None
    else Some(Min(Min(bytes * MICROS_PER_SECOND, U128_MAX) / micros, U64_MAX))
  }

  /** Observed throughput after one more sample: the midpoint of both, rounded down. */
  function Blend(observed: Option<u64>, sample: Option<u64>): Option<u64> {
    if sample.None? then observed
    else if observed.None? then sample
    else Some((observed.value + sample.value) / 2)
  }

  /** A sample is the whole bytes per second it stands for, and smoothing never leaves the range of
      what was seen, so one outlier moves the estimate at most half way. */
  lemma SmoothingIsBounded(observed: u64, bytes: u64, micros: u64)
    ensures Throughput(bytes, micros).Some? <==> bytes > 0 && micros > 0
    ensures Throughput(bytes, micros).Some? ==>
              var sample, next := Throughput(bytes, micros).value, Blend(Some(observed), Throughput(bytes, micros)).value;
              && sample * micros <= bytes * MICROS_PER_SECOND
              && (sample < U64_MAX ==> bytes * MICROS_PER_SECOND < (sample + 1) * micros)
              && Min(observed, sample) <= next <= Max(observed, sample)
              && 2 * next <= observed + sample < 2 * (next + 1)
  {
    if bytes > 0 && micros > 0 {
      FloorRate(bytes * MICROS_PER_SECOND, micros, U64_MAX);
    }
  }

  /** The first sample is the estimate; nothing is learned from a fetch without bytes or time. */
  lemma FirstSample(bytes: u64, micros: u64)
    requires bytes > 0 && micros > 0
    ensures Blend(None, Throughput(bytes, micros)) == Throughput(bytes, micros) && Throughput(bytes, micros).Some?
    ensures forall observed :: Blend(observed, Throughput(0, micros)) == observed == Blend(observed, Throughput(bytes, 0))
  {}

  lemma FloorRate(total: nat, micros: nat, cap: nat)
    requires micros > 0
    ensures Min(total / micros, cap) * micros <= total
    ensures total / micros < cap ==> total < (total / micros + 1) * micros
  {
    var rate := total / micros;
    assert rate * micros <= total < (rate + 1) * micros;
    Smaller(Min(rate, cap), rate, micros);
  }

  lemma Smaller(a: nat, b: nat, c: nat)
    requires a <= b
    ensures a * c <= b * c
  {}

  /** The extension arithmetic on its own, with the overflow and underflow checks of the source. */
  function PlanExtension(w: Window, lastRequestEnd: Option<u64>, target: nat, maxCache: nat, fileLen: u64,
                         hintOffset: u64): Result<Option<Extension>>
  {
    match RequestEnd(w.start, |w.data|)
    case Err(e) => Err(e)
    case Ok(end) =>
      if hintOffset < w.start || hintOffset > end || end >= fileLen then Ok(None)
      else
        var cursor := if lastRequestEnd.Some? then lastRequestEnd.value else w.start;
        var retainBack := Min(target, maxCache);
        var keepFrom := Max(Max(cursor - retainBack, 0), w.start);
        var dropPrefix := keepFrom - w.start;
        if |w.data| < dropPrefix || maxCache < |w.data| - dropPrefix then Err(Protocol(OffsetOverflow))
        else
          var capacity := maxCache - (|w.data| - dropPrefix);
          var fetchLen := Min(Min(target, capacity), fileLen - end);
          if fetchLen == 0 then Ok(None)
          else Ok(Some(Extension(end, fetchLen, w.generation, w.start, |w.data|, dropPrefix)))
  }

  /** The low-water test on its own, with the defensive bounds of the source. */
  function PlanRefill(w: Window, cursor: u64, target: nat): Option<(u64, nat)> {
    var end := w.start + |w.data|;
    if cursor < w.start || cursor > end then None
    else if end - cursor > Max(target / 2, 1) then None
    else Some((cursor, target))
  }

  class VideoReader {
    const config: Config
    var generation: nat
    var lastRequestEnd: Option<u64>
    var cache: Option<Window>
    var throughput: Option<u64>

    /** The window is bounded, current, and holds the playback cursor. */
    ghost predicate Valid()
      reads this
    {
      && ValidConfig(config)
      && (cache.Some? ==>
            && cache.value.generation == generation
            && |cache.value.data| <= config.maxCache
            && lastRequestEnd.Some?
            && cache.value.start <= lastRequestEnd.value <= cache.value.start + |cache.value.data| <= U64_MAX)
    }

    /** The window holds the file's own bytes. */
    ghost predicate Agrees(file: Bytes)
      reads this
    {
      cache.Some? ==> cache.value.data == Slice(file, cache.value.start, |cache.value.data|)
    }

    constructor (config: Config)
      requires ValidConfig(config)
      ensures Valid() && cache == None && lastRequestEnd == None && generation == 0 && this.config == config
    {
      this.config := config;
      generation, lastRequestEnd, cache, throughput := 0, None, None, None;
    }

    /** Bytes of read-ahead wanted: a bootstrap value, then the observed throughput times the buffer
        duration, between one request and the cache budget. */
    function ReadAheadTarget(): (target: nat)
      requires ValidConfig(config)
      reads this
      ensures 1 <= target <= config.maxCache
      ensures throughput.None? ==> target == config.readAhead || config.readAhead > target == config.maxCache
    {
      if throughput.None? then Min(config.readAhead, config.maxCache)
      else
        var wanted := Min(throughput.value * BufferMicros(config), U128_MAX) / MICROS_PER_SECOND;
        var minimum := Max(Min(config.pipeline.chunkSize, config.maxCache), 1);
        Max(minimum, Min(Min(wanted, U64_MAX), config.maxCache))
    }

    /** Once throughput is known, the target is the bytes it delivers in the buffer duration, rounded
        down, except where one request or the cache budget bounds it. */
    lemma TargetIsBufferTime()
      requires ValidConfig(config) && throughput.Some?
      ensures var target, bytes := ReadAheadTarget(), throughput.value * BufferMicros(config);
              var minimum := Max(Min(config.pipeline.chunkSize, config.maxCache), 1);
              && minimum <= target <= config.maxCache
              && (target * MICROS_PER_SECOND <= bytes || target == minimum)
              && (bytes < (target + 1) * MICROS_PER_SECOND || target == config.maxCache)
    {
      var bytes := throughput.value * BufferMicros(config);
      var wanted := Min(bytes, U128_MAX) / MICROS_PER_SECOND;
      assert wanted * MICROS_PER_SECOND <= Min(bytes, U128_MAX) < (wanted + 1) * MICROS_PER_SECOND;
    }

    method RecordThroughput(bytes: u64, micros: nat)
      modifies this`throughput
      ensures throughput == Blend(old(throughput), Throughput(bytes, Min(micros, U64_MAX)))
    {
      var sample := Throughput(bytes, Min(micros, U64_MAX));
      if sample.Some? {
        throughput := Some(if throughput.None? then sample.value else (throughput.value + sample.value) / 2);
      }
    }

    method Seek(offset: u64) returns (g: nat)
      requires Valid()
      modifies this
      ensures Valid() && cache == None && lastRequestEnd == Some(offset)
      ensures generation == g == old(generation) + 1 && throughput == old(throughput)
    {
      generation := generation + 1;
      cache, lastRequestEnd := None, Some(offset);
      return generation;
    }

    method Invalidate() returns (g: nat)
      requires Valid()
      modifies this
      ensures Valid() && cache == None && lastRequestEnd == None
      ensures generation == g == old(generation) + 1 && throughput == old(throughput)
    {
      generation := generation + 1;
      cache, lastRequestEnd := None, None;
      return generation;
    }

    /** A miss is a jump unless it continues the last request or touches the window. */
    function IsSeekMiss(offset: u64): Result<bool>
      reads this
    {
      if lastRequestEnd.None? || offset == lastRequestEnd.value then Ok(false)
      else if cache.Some? && cache.value.generation == generation then
        var end := RequestEnd(cache.value.start, |cache.value.data|);
        if end.Err? then Err(end.error) else Ok(!(cache.value.start <= offset <= end.value))
      else Ok(true)
    }

    /** A request that neither continues the last one nor starts in or right behind the window. */
    predicate Jumps(offset: u64)
      reads this
    {
      && lastRequestEnd.Some? && offset != lastRequestEnd.value
      && (cache.Some? ==> !(cache.value.start <= offset <= cache.value.start + |cache.value.data|))
    }

    /** How much to fetch on a miss: at most one pipeline wave of read-ahead beyond the request. */
    function FetchLength(fileLen: u64, offset: u64, target: nat): (n: nat)
      requires ValidConfig(config) && offset < fileLen && target <= fileLen - offset
      reads this
      ensures target <= n <= fileLen - offset
      ensures n <= Max(target, config.maxCache)
      ensures n == target || n <= config.pipeline.chunkSize * config.pipeline.maxInFlight
      ensures target <= config.maxCache ==>
                n >= Min(Min(config.pipeline.chunkSize * config.pipeline.maxInFlight, ReadAheadTarget()), fileLen - offset)
    {
      var wave := Min(config.pipeline.chunkSize * config.pipeline.maxInFlight, U64_MAX);
      if target > config.maxCache then target
      else Min(Min(Max(target, Min(wave, ReadAheadTarget())), config.maxCache), fileLen - offset)
    }

    /** Does the window hold all of a request? */
    predicate Hits(offset: u64, target: nat)
      reads this
    {
      cache.Some? && cache.value.start <= offset && offset + target <= cache.value.start + |cache.value.data|
    }

    /** Serves the request from the window or plans a fetch; the arithmetic cannot overflow, so the
        only error is cancellation. */
    method PrepareRead(fileLen: u64, offset: u64, length: nat, token: ReadCancellationToken?, tokenGeneration: nat)
      returns (r: Result<PreparedRead>)
      requires Valid()
      modifies this, token
      ensures Valid() && throughput == old(throughput)
      ensures token != null ==> token.generation >= old(token.generation)
      ensures r.Err? ==> r.error == Cancelled && token != null && token.generation != tokenGeneration
      ensures r.Ok? && token != null ==> token.generation == tokenGeneration
      ensures r.Err? || r.value.Nothing? ==> unchanged(this)
      ensures r.Ok? ==> (r.value.Nothing? <==> length == 0 || offset >= fileLen)
      ensures r.Ok? && !r.value.Nothing? ==>
                var target := Min(length, fileLen - offset);
                && (r.value.Cached? <==> old(Hits(offset, target)))
                && (r.value.Cached? ==>
                      && cache == old(cache) && generation == old(generation)
                      && r.value.data == cache.value.data[offset - cache.value.start..offset - cache.value.start + target]
                      && lastRequestEnd == Some(offset + target))
                && (r.value.Fetch? ==>
                      && r.value.target == target && r.value.generation == generation
                      && target <= r.value.fetchLen <= fileLen - offset
                      && r.value.fetchLen <= Max(target, config.maxCache)
                      && r.value.fetchLen == old(FetchLength(fileLen, offset, target))
                      && (if !old(Jumps(offset)) then unchanged(this)
                          else cache == None && lastRequestEnd == old(lastRequestEnd) && generation == old(generation) + 1))
    {
      var current := NotCancelled(token, tokenGeneration);
      if !current {
        return Err(Cancelled);
      }
      if length == 0 || offset >= fileLen {
        return Ok(Nothing);
      }
      hide ReadAheadTarget, FetchLength;
      var target := Min(length, fileLen - offset);
      var fetchLen := FetchLength(fileLen, offset, target);
      if cache.Some? && cache.value.generation == generation {
        match WindowSlice(cache.value, offset, target) {
          case Err(e) =>
            return Err(e);
          case Ok(Some(data)) =>
            current := NotCancelled(token, tokenGeneration);
            if !current {
              return Err(Cancelled);
            }
            lastRequestEnd := Some(offset + |data|);
            return Ok(Cached(data));
          case Ok(None) =>
        }
      }
      match IsSeekMiss(offset) {
        case Err(e) =>
          return Err(e);
        case Ok(jump) =>
          if jump {
            generation := generation + 1;
            cache := None;
          }
      }
      return Ok(Fetch(target, fetchLen, generation));
    }

    /** Adopts fetched bytes as the window and moves the cursor behind what was asked for. */
    method FinishFetch(offset: u64, target: nat, readerGeneration: nat, fetched: Bytes,
                       token: ReadCancellationToken?, tokenGeneration: nat)
      returns (r: Result<Bytes>)
      requires Valid() && offset + |fetched| <= U64_MAX
      modifies this, token
      ensures Valid() && throughput == old(throughput) && generation == old(generation)
      ensures token != null ==> token.generation >= old(token.generation)
      ensures r.Err? ==> r.error == Cancelled && token != null && token.generation != tokenGeneration && unchanged(this)
      ensures r.Ok? && token != null ==> token.generation == tokenGeneration
      ensures readerGeneration != generation ==> unchanged(this) && (r.Ok? ==> r.value == [])
      ensures r.Ok? && readerGeneration == generation ==>
                && r.value == fetched[..Min(target, |fetched|)]
                && lastRequestEnd == Some(offset + |r.value|)
                && cache == if |fetched| <= config.maxCache then Some(Window(generation, offset, fetched)) else None
    {
      var current := NotCancelled(token, tokenGeneration);
      if !current {
        return Err(Cancelled);
      }
      if readerGeneration != generation {
        return Ok([]);
      }
      var returned := Min(target, |fetched|);
      lastRequestEnd := Some(offset + returned);
      cache := if |fetched| <= config.maxCache then Some(Window(readerGeneration, offset, fetched)) else None;
      return Ok(fetched[..returned]);
    }

    /** Plans to extend the window at its end, giving up only bytes safely behind the cursor. The
        subtractions cannot underflow. */
    function PlanPrefetch(fileLen: u64, hintOffset: u64, hintLength: nat): (r: Result<Option<Extension>>)
      requires Valid()
      reads this
      ensures r.Ok?
      ensures r.value.Some? ==>
                && Keeps(r.value.value) && 0 < r.value.value.fetchLen
                && var plan := r.value.value;
                plan.fetchLen == Min(Min(ReadAheadTarget(), config.maxCache - (|cache.value.data| - plan.dropPrefix)), fileLen - plan.offset)
      ensures r.value.None? && hintLength > 0 && hintOffset < fileLen && cache.Some? ==>
                var w := cache.value;
                || hintOffset < w.start || hintOffset > w.start + |w.data| || w.start + |w.data| >= fileLen
                || w.start + |w.data| - Max(w.start, lastRequestEnd.value - ReadAheadTarget()) == config.maxCache
    {
      if hintLength == 0 || hintOffset >= fileLen || cache.None? || cache.value.generation != generation then Ok(None)
      else PlanExtension(cache.value, lastRequestEnd, ReadAheadTarget(), config.maxCache, fileLen, hintOffset)
    }

    /** `plan` extends the present window within the budget and drops nothing the player may still
        want: every byte from `max(start, cursor - target)` on stays. */
    ghost predicate Keeps(plan: Extension)
      requires ValidConfig(config)
      reads this
    {
      && cache.Some? && lastRequestEnd.Some?
      && plan.generation == generation == cache.value.generation
      && plan.expectedStart == cache.value.start && plan.expectedLen == |cache.value.data|
      && plan.offset == cache.value.start + |cache.value.data|
      && plan.dropPrefix <= |cache.value.data|
      && cache.value.start + plan.dropPrefix == Max(cache.value.start, lastRequestEnd.value - ReadAheadTarget())
      && |cache.value.data| - plan.dropPrefix + plan.fetchLen <= config.maxCache
    }

    /** Appends speculative bytes, unless the window the plan was made for is gone. */
    method FinishPrefetch(plan: Extension, fetched: Bytes, token: ReadCancellationToken?, tokenGeneration: nat)
      returns (r: Result<nat>)
      requires Valid() && plan.offset + |fetched| <= U64_MAX
      requires StillFits(plan) ==> cache.value.start + plan.dropPrefix <= lastRequestEnd.value
      modifies this, token
      ensures Valid() && generation == old(generation) && lastRequestEnd == old(lastRequestEnd) && throughput == old(throughput)
      ensures token != null ==> token.generation >= old(token.generation)
      ensures r.Err? ==> r.error == Cancelled && token != null && token.generation != tokenGeneration
      ensures r.Ok? && token != null ==> token.generation == tokenGeneration
      ensures r.Err? || !old(StillFits(plan)) ==> unchanged(this)
      ensures r.Ok? && !old(StillFits(plan)) ==> r.value == 0
      ensures r.Ok? && old(StillFits(plan)) ==>
                var w := old(cache.value);
                && r.value == Min(|fetched|, config.maxCache - (|w.data| - plan.dropPrefix))
                && cache == Some(Window(w.generation, w.start + plan.dropPrefix, w.data[plan.dropPrefix..] + fetched[..r.value]))
    {
      var current := NotCancelled(token, tokenGeneration);
      if !current {
        return Err(Cancelled);
      }
      if plan.generation != generation || cache.None? {
        return Ok(0);
      }
      var w := cache.value;
      if w.generation != plan.generation || w.start != plan.expectedStart || |w.data| != plan.expectedLen
         || w.start + |w.data| != plan.offset || plan.dropPrefix > |w.data| {
        return Ok(0);
      }
      var kept := w.data[plan.dropPrefix..];
      var append := Min(|fetched|, config.maxCache - |kept|);
      cache := Some(Window(w.generation, w.start + plan.dropPrefix, kept + fetched[..append]));
      return Ok(append);
    }

    ghost predicate StillFits(plan: Extension)
      reads this
    {
      && cache.Some?
      && plan.generation == generation == cache.value.generation
      && plan.expectedStart == cache.value.start && plan.expectedLen == |cache.value.data|
      && plan.offset == cache.value.start + |cache.value.data|
      && plan.dropPrefix <= |cache.value.data|
    }

    /** The low-water refill the broker asks for after a foreground read: only when no more than half
        the target is buffered ahead of the cursor, and only where a plan can use it. */
    function AutomaticHint(fileLen: u64): (hint: Option<(u64, nat)>)
      requires Valid()
      reads this
      ensures hint.Some? ==>
                && cache.Some? && hint.value == (lastRequestEnd.value, ReadAheadTarget()) && hint.value.0 < fileLen
                && cache.value.start + |cache.value.data| - lastRequestEnd.value <= Max(ReadAheadTarget() / 2, 1)
      ensures hint.None? ==>
                cache.None? || lastRequestEnd.value >= fileLen
                || cache.value.start + |cache.value.data| - lastRequestEnd.value > Max(ReadAheadTarget() / 2, 1)
    {
      if lastRequestEnd.None? || lastRequestEnd.value >= fileLen || cache.None? || cache.value.generation != generation
      then None
      else PlanRefill(cache.value, lastRequestEnd.value, ReadAheadTarget())
    }

    /** The bound under which a refill hint always leads to a fetch. */
    lemma HintMakesProgress(fileLen: u64)
      requires Valid() && AutomaticHint(fileLen).Some?
      requires ReadAheadTarget() + Max(ReadAheadTarget() / 2, 1) < config.maxCache
      requires cache.value.start + |cache.value.data| < fileLen
      ensures var hint := AutomaticHint(fileLen).value;
              PlanPrefetch(fileLen, hint.0, hint.1).value.Some?
    {}
  }
}
