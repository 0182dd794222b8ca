/** A read-only file that survives its connection: one recovery episode per read, one replay. */
module RecoveringRead {
  import opened Common
  import opened Messages
  import opened Session
  import opened FileModel
  import opened ReadTrace
  import opened ReadAt
  import Pipeline
  import opened Cancellation
  import CancelableRead
  import opened Reconnect

  /** Which of the three reads the caller asked for. */
  datatype Scheduler = Sequential | Window(options: Pipeline.PipelinedReadOptions)

  datatype Outcome = Data(bytes: Bytes) | Failed(error: ReconnectError)

  /** Why one READ operation may fail, by what it was asked for. */
  ghost predicate IssueFails(s: SessionConnection, h: FileHandle, t: Trace, e: ClientError, lo: nat, scheduler: Scheduler,
                        token: ReadCancellationToken?)
    reads s`inbox, s`sendsLeft, s.credits, s.messageIds
  {
    || CancelableRead.ReadFails(s, h, t, e, lo, scheduler.Window? && token != null)
    || (e == Protocol(BadOptions) && scheduler.Window? && 0 in {scheduler.options.chunkSize, scheduler.options.maxInFlight})
  }

  class RecoveringReadOnlyFile {
    const recipe: Recipe
    const maxConnectAttempts: nat
    var session: SessionConnection
    var file: FileHandle
    /** READ operations issued and connections attempted over the life of this object. */
    ghost var issued: nat
    ghost var connects: nat

    /** The identity under which the file in use was adopted. */
    ghost var identity: FileIdentity

    /** The file in use was adopted by the recipe, so it is compatible with the first identity. */
    ghost predicate Valid()
      reads this, recipe, session, session.credits, session.messageIds
    {
      && recipe.Valid() && session.Valid()
      && identity in recipe.adopted && identity.length == file.length && identity.lastWriteTime == file.lastWriteTime
    }

    /** Whatever was reopened, the file in use has the length of the first one, and its write time and
        fingerprint wherever both are known. */
    lemma InUseIsCompatible()
      requires Valid()
      ensures recipe.identity.Some? && recipe.identity.value.length == file.length
      ensures recipe.identity.value.lastWriteTime == 0 || file.lastWriteTime in {0, recipe.identity.value.lastWriteTime}
      ensures recipe.identity.value.fingerprint == identity.fingerprint
    {}

    /** The file in use and any file the recipe has handed out before agree on every sampled byte, if the
        server answered completely while they were sampled and the digest does not collide on them. */
    lemma InUseAgrees(content: Bytes, t: Trace, b: FileIdentity, h: FileHandle, content': Bytes, t': Trace)
      requires Valid() && Identifies(identity, file, recipe.digest, content, t) && Complete(content, t)
      requires b in recipe.adopted && Identifies(b, h, recipe.digest, content', t') && Complete(content', t')
      requires recipe.digest(Transcript(content, file.length)) == recipe.digest(Transcript(content', h.length)) ==>
                 Transcript(content, file.length) == Transcript(content', h.length)
      ensures file.length == h.length <= Min(|content|, |content'|)
      ensures forall at: nat :: Sampled(file.length, at) ==> at < file.length && content[at] == content'[at]
      ensures file.length <= 3 * IDENTITY_SAMPLE_BYTES ==> content[..file.length] == content'[..file.length]
    {
      HandedOutAgree(recipe, identity, file, content, t, b, h, content', t');
    }

    constructor (recipe: Recipe, maxConnectAttempts: nat, session: SessionConnection, file: FileHandle, ghost identity: FileIdentity)
      requires recipe.Valid() && session.Valid()
      requires identity in recipe.adopted && identity.length == file.length && identity.lastWriteTime == file.lastWriteTime
      ensures Valid() && this.recipe == recipe && this.session == session && this.file == file
      ensures this.maxConnectAttempts == maxConnectAttempts && issued == 0 && connects == 0
    {
      this.recipe, this.maxConnectAttempts, this.session, this.file := recipe, maxConnectAttempts, session, file;
      this.identity := identity;
      issued, connects := 0, 0;
    }

    /** One READ on the current session. */
    method Issue(offset: u64, length: nat, scheduler: Scheduler, token: ReadCancellationToken?, generation: nat,
                 ghost content: Bytes)
      returns (r: Result<Bytes>)
      requires Valid()
      modifies this`issued, session`inbox, session`trace, session`sendsLeft, session`leaked,
               session.credits, session.messageIds, token
      ensures Valid() && issued == old(issued) + 1 && old(session.trace) <= session.trace
      ensures r.Ok? ==> Refines(content, file, offset, length, r.value, session.trace[|old(session.trace)|..])
      ensures token == null ==> r != Err(Cancelled)
      ensures r.Err? ==>
                IssueFails(session, file, session.trace[|old(session.trace)|..], r.error, old(session.messageIds.next), scheduler, token)
      ensures r.Ok? ==> AllGenuine(session, session.trace[|old(session.trace)|..])
    {
      hide Refines, Closed, CancelableRead.CancelContract, Recipe.Valid, AllGenuine, Excused, FirstDenial, Cause, Settles;
      issued := issued + 1;
      match scheduler {
        case Sequential =>
          r := ReadAtWithOptions(session, file, offset, length, content);
        case Window(options) =>
          if token != null {
            r := CancelableRead.ReadAtPipelinedCancelable(session, file, offset, length, options, token, generation, content);
          } else {
            var got := Pipeline.ReadAtPipelinedWithStats(session, file, offset, length, options, content);
            r := if got.Ok? then Ok(got.value.0) else Err(got.error);
          }
      }
    }

    predicate ShouldRecover(e: ClientError) { maxConnectAttempts > 0 && IsRetryable(e) }

    /** The errors of the attempts made: all but the last were worth another attempt, and the last ended
        the episode for good or was the last one allowed. */
    ghost predicate RanOut(errors: seq<ReconnectError>, error: ReconnectError) {
      && errors != [] && errors[|errors| - 1] == error && |errors| <= maxConnectAttempts
      && (!IsRetryableReconnect(error) || |errors| == maxConnectAttempts)
    }

    /** One connection attempt; a file it gives has been adopted. */
    method TryConnect(a: Attempt, ghost content: Bytes)
      returns (error: Option<ReconnectError>, s: SessionConnection?, h: FileHandle, ghost id: FileIdentity)
      requires Valid() && a.credits != 0
      modifies this`connects, recipe
      ensures Valid() && connects == old(connects) + 1 && recipe.identity == old(recipe.identity)
      ensures error.None? ==>
                && s != null && fresh(s) && fresh(s.credits) && fresh(s.messageIds) && s.Valid()
                && id in recipe.adopted && id.length == h.length && id.lastWriteTime == h.lastWriteTime
                && Identifies(id, h, recipe.digest, content, s.trace)
      ensures error.Some? ==> AttemptFails(a, error.value) || (AnyOpened(a) && recipe.TurnedDown(s, h, content, error.value))
    {
      hide SessionConnection.Valid, Complete, Transcript, Lacking, PathsAllowed;
      connects := connects + 1;
      InUseIsCompatible();
      error, s, h := recipe.Connect(a, content);
      id := if error.None? then recipe.adopted[|recipe.adopted| - 1] else identity;
    }

    /** Connects until one attempt succeeds, fails for good, is cancelled, or the attempts run out.
        A success replaces session and file by an adopted file; a failure leaves both alone. */
    method Restore(script: seq<Attempt>, token: ReadCancellationToken?, generation: nat, ghost content: Bytes)
      returns (r: Option<ReconnectError>, ghost errors: seq<ReconnectError>, ghost starts: seq<nat>)
      requires Valid() && maxConnectAttempts > 0
      requires |script| == maxConnectAttempts && forall a :: a in script ==> a.credits != 0
      modifies this`session, this`file, this`connects, this`identity, recipe, token
      ensures Valid() && issued == old(issued) && recipe.identity == old(recipe.identity)
      ensures forall i :: 0 <= i < |errors| - 1 ==> IsRetryableReconnect(errors[i])
      ensures |errors| <= maxConnectAttempts && forall i :: 0 <= i < |errors| ==> AttemptFails(script[i], errors[i]) || AnyOpened(script[i])
      ensures token != null ==> |starts| == connects - old(connects) && forall g :: g in starts ==> g == generation
      ensures r.None? ==>
                && |errors| < maxConnectAttempts && connects == old(connects) + |errors| + 1
                && (forall e :: e in errors ==> IsRetryableReconnect(e))
                && fresh(session) && fresh(session.credits) && fresh(session.messageIds)
                && Identifies(identity, file, recipe.digest, content, session.trace)
      ensures r.Some? ==>
                && session == old(session) && file == old(file) && identity == old(identity) && unchanged(session)
                && ((RanOut(errors, r.value) && connects == old(connects) + |errors|)
                    || (r == Some(Interrupted) && token != null && token.generation != generation
                        && (forall e :: e in errors ==> IsRetryableReconnect(e))
                        && connects <= old(connects) + |errors| + 1 <= old(connects) + maxConnectAttempts))
    {
      hide SessionConnection.Valid, Recipe.Valid, Identifies, Compatible;
      r, errors, starts := None, [], [];
      var i := 0;
      while i < maxConnectAttempts
        invariant i <= maxConnectAttempts && connects == old(connects) + i && |errors| == i
        invariant Valid() && session == old(session) && file == old(file) && identity == old(identity) && unchanged(session)
        invariant recipe.identity == old(recipe.identity)
        invariant forall e :: e in errors ==> IsRetryableReconnect(e)
        invariant forall j :: 0 <= j < |errors| ==> AttemptFails(script[j], errors[j]) || AnyOpened(script[j])
        invariant i > 0 ==> r == Some(errors[i - 1])
        invariant token != null ==> |starts| == i && forall g :: g in starts ==> g == generation
      {
        // Before the attempt, and while backing off, a generation change ends the episode.
        var current := NotCancelled(token, generation);
        if !current {
          return Some(Interrupted), errors, starts;
        }
        starts := starts + if token != null then [token.generation] else [];
        var error, s, h, id := TryConnect(script[i], content);
        if token != null {
          // The attempt races the token: if the generation moved on meanwhile, either may win.
          var dropped: bool := *;
          current := NotCancelled(token, generation);
          if !current && dropped {
            return Some(Interrupted), errors, starts;
          }
        }
        if error.None? {
          session, file, identity := s, h, id;
          return None, errors, starts;
        }
        errors := errors + [error.value];
        if !IsRetryableReconnect(error.value) {
          return error, errors, starts;
        }
        r := error;
        i := i + 1;
      }
    }

    /** A positional read. The READ is issued at most twice, the second time only on a restored
        connection; cancellation is never turned into a retry. */
    method Read(offset: u64, length: nat, scheduler: Scheduler, token: ReadCancellationToken?, generation: nat,
                script: seq<Attempt>, ghost content: Bytes)
      returns (o: Outcome, ghost answered: Trace, ghost firstError: Option<ClientError>, ghost errors: seq<ReconnectError>)
      requires Valid() && |script| == maxConnectAttempts && forall a :: a in script ==> a.credits != 0
      modifies this, recipe, session`inbox, session`trace, session`sendsLeft, session`leaked,
               session.credits, session.messageIds, token
      ensures Valid() && file.length == old(file.length) && recipe.identity == old(recipe.identity)
      ensures issued <= old(issued) + 2 && connects <= old(connects) + maxConnectAttempts
      ensures issued == old(issued) + 2 ==> old(connects) < connects && fresh(session)
      ensures connects > old(connects) || issued > old(issued) + 1 ==>
                old(issued) < issued && firstError.Some? && IsRetryable(firstError.value)
      ensures issued > old(issued) && firstError.None? ==> o.Data? && session == old(session)
      ensures issued == old(issued) + 1 && firstError.Some? && !(maxConnectAttempts > 0 && IsRetryable(firstError.value)) ==>
                o == Failed(MapClientError(firstError.value))
      ensures token != null && old(token.generation) > generation ==> issued == old(issued) && unchanged(this)
      ensures issued == old(issued) ==> o == Failed(Interrupted) && token != null && token.generation != generation
      ensures issued == old(issued) + 1 && firstError.Some? ==>
                && session == old(session) && file == old(file) && old(session.trace) <= session.trace && answered == session.trace[|old(session.trace)|..]
                && IssueFails(session, file, answered, firstError.value, old(session.messageIds.next), scheduler, token)
      ensures issued == old(issued) + 1 && firstError.Some? && maxConnectAttempts > 0 && IsRetryable(firstError.value) ==>
                o.Failed? && (RanOut(errors, o.error)
                              || (o.error == Interrupted && token != null && token.generation != generation))
      ensures issued == old(issued) + 2 && o.Failed? ==>
                exists e, lo :: o == Failed(MapClientError(e)) && IssueFails(session, file, answered, e, lo, scheduler, token)
      ensures forall i :: 0 <= i < |errors| - 1 ==> IsRetryableReconnect(errors[i])
      ensures maxConnectAttempts == 0 ==> connects == old(connects) && session == old(session)
      ensures o.Data? ==> issued > old(issued)
      ensures o.Data? ==> Refines(content, file, offset, length, o.bytes, answered)
      ensures o.Data? && session == old(session) ==> old(session.trace) <= session.trace && answered == session.trace[|old(session.trace)|..]
    {
      hide Refines, SessionConnection.Valid, IssueFails, AllGenuine;
      answered, firstError, errors := [], None, [];
      if token != null {
        var current := NotCancelled(token, generation);
        if !current {
          return Failed(Interrupted), answered, firstError, errors;
        }
      }
      ghost var before := session.trace;
      var first := Issue(offset, length, scheduler, token, generation, content);
      answered := session.trace[|before|..];
      firstError := if first.Err? then Some(first.error) else None;
      if first.Ok? {
        return Data(first.value), answered, firstError, errors;
      }
      if !ShouldRecover(first.error) {
        return Failed(MapClientError(first.error)), answered, firstError, errors;
      }
      var failed;
      ghost var starts;
      failed, errors, starts := Restore(script, token, generation, content);
      if failed.Some? {
        return Failed(failed.value), answered, firstError, errors;
      }
      before := session.trace;
      ghost var lo := session.messageIds.next;
      var second := Issue(offset, length, scheduler, token, generation, content);
      answered := session.trace[|before|..];
      assert second.Err? ==> IssueFails(session, file, answered, second.error, lo, scheduler, token);
      return if second.Ok? then Data(second.value) else Failed(MapClientError(second.error)), answered, firstError, errors;
    }
  }
}
