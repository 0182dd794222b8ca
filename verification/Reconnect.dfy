/** Restoring a read-only file after its connection broke: durable reopen before path reopen, and an
    identity guard that every reopened file must pass. */
module Reconnect {
  import opened ByteOrder
  import opened Common
  import opened Messages
  import opened Session
  import opened FileModel
  import opened ReadTrace
  import opened ReadAt

  const STATUS_OBJECT_NAME_NOT_FOUND: u32 := 0xC000_0034
  const STATUS_NETWORK_NAME_DELETED: u32 := 0xC000_00C9
  const STATUS_USER_SESSION_DELETED: u32 := 0xC000_0203
  const STATUS_NETWORK_SESSION_EXPIRED: u32 := 0xC000_035C

  const IDENTITY_SAMPLE_BYTES: nat := 16 * 1024

  datatype ReconnectError = Client(error: ClientError) | Interrupted | RandomSource

  /** Only lost connections and lost sessions are worth a new connection. */
  predicate IsRetryable(e: ClientError) {
    match e
    case Io => true
    case Timeout => true
    case ServerStatus(status) =>
      status == STATUS_NETWORK_NAME_DELETED || status == STATUS_USER_SESSION_DELETED
      || status == STATUS_NETWORK_SESSION_EXPIRED
    case _ => false
  }

  /** A cancellation, a malformed or unauthentic message, a missing capability and every other status are
      never worth one. */
  lemma OnlyLostConnections(e: ClientError)
    ensures IsRetryable(e) <==>
              e in {Io, Timeout} || (e.ServerStatus? && e.status in {0xC000_00C9, 0xC000_0203, 0xC000_035C})
    ensures IsRetryable(e) ==> MapClientError(e) == Client(e)
    ensures IsRetryableReconnect(MapClientError(e)) <==> IsRetryable(e)
  {}

  predicate IsRetryableReconnect(e: ReconnectError) { e.Client? && IsRetryable(e.error) }

  function MapClientError(e: ClientError): ReconnectError {
    if e == Cancelled then Interrupted else Client(e)
  }

  datatype FileIdentity = FileIdentity(length: u64, lastWriteTime: u64, fingerprint: Bytes)

  predicate Compatible(original: FileIdentity, reopened: FileIdentity) {
    && original.length == reopened.length
    && (original.lastWriteTime == 0 || reopened.lastWriteTime == 0 || original.lastWriteTime == reopened.lastWriteTime)
    && original.fingerprint == reopened.fingerprint
  }

  function Dedup(s: seq<u64>): seq<u64> {
    if |s| < 2 then s
    else if s[0] == s[1] then Dedup(s[1..])
    else [s[0]] + Dedup(s[1..])
  }

  lemma {:induction false} DedupKeeps(s: seq<u64>, x: u64)
    requires x in s
    ensures x in Dedup(s)
  {
    if |s| >= 2 && (x != s[0] || s[0] == s[1]) {
      DedupKeeps(s[1..], x);
    }
  }

  /** Where identity samples start: beginning, middle and end, in order and without repeats. */
  function SampleOffsets(length: u64): (offsets: seq<u64>) {
    if length == 0 then []
    else
      var sample := Min(length, IDENTITY_SAMPLE_BYTES);
      var lastStart := length - sample;
      var middle := Min(Max(length / 2 - sample / 2, 0), lastStart);
      Dedup([0, middle, lastStart])
  }

  function SampleLength(length: u64, offset: u64): nat { Min(Max(length - offset, 0), IDENTITY_SAMPLE_BYTES) }

  /** The samples begin at the start, end at the end, never leave the file and never repeat. */
  lemma SamplesSpanTheFile(length: u64)
    ensures length == 0 <==> SampleOffsets(length) == []
    ensures var offsets := SampleOffsets(length);
            && (forall i, j :: 0 <= i < j < |offsets| ==> offsets[i] < offsets[j])
            && (forall i :: 0 <= i < |offsets| ==> 0 < SampleLength(length, offsets[i]) <= length - offsets[i])
            && (length > 0 ==>
                  offsets[0] == 0 && offsets[|offsets| - 1] + SampleLength(length, offsets[|offsets| - 1]) == length)
  {
    if length > 0 {
      var sample := Min(length, IDENTITY_SAMPLE_BYTES);
      var lastStart := length - sample;
      var middle := Min(Max(length / 2 - sample / 2, 0), lastStart);
      assert Dedup([middle, lastStart]) == if middle == lastStart then [lastStart] else [middle, lastStart];
      assert [0, middle, lastStart][1..] == [middle, lastStart] && [middle, lastStart][1..] == [lastStart];
    }
  }

  /** At most three samples, and the middle of the file is in one of them. */
  lemma MiddleIsSampled(length: u64)
    requires length > 0
    ensures |SampleOffsets(length)| <= 3 && Sampled(length, length / 2)
    ensures length > 3 * IDENTITY_SAMPLE_BYTES ==>
              SampleOffsets(length) == [0, length / 2 - IDENTITY_SAMPLE_BYTES / 2, length - IDENTITY_SAMPLE_BYTES]
  {
    var sample := Min(length, IDENTITY_SAMPLE_BYTES);
    var lastStart := length - sample;
    var middle := Min(Max(length / 2 - sample / 2, 0), lastStart);
    DedupKeeps([0, middle, lastStart], middle);
    var offsets := SampleOffsets(length);
    var i :| 0 <= i < |offsets| && offsets[i] == middle;
    assert offsets[i] <= length / 2 < offsets[i] + SampleLength(length, offsets[i]);
    assert Dedup([middle, lastStart]) == if middle == lastStart then [lastStart] else [middle, lastStart];
    assert [0, middle, lastStart][1..] == [middle, lastStart] && [middle, lastStart][1..] == [lastStart];
  }

  /** Byte `at` of the file lies in one of the samples. */
  ghost predicate Sampled(length: u64, at: nat) {
    exists i :: 0 <= i < |SampleOffsets(length)| &&
      SampleOffsets(length)[i] <= at < SampleOffsets(length)[i] + SampleLength(length, SampleOffsets(length)[i])
  }

  /** Files up to three sample sizes are sampled completely, so any change to them is seen. */
  lemma SmallFilesFullySampled(length: u64, at: nat)
    requires at < length <= 3 * IDENTITY_SAMPLE_BYTES
    ensures Sampled(length, at)
  {
    var sample := Min(length, IDENTITY_SAMPLE_BYTES);
    var lastStart := length - sample;
    var middle := Min(Max(length / 2 - sample / 2, 0), lastStart);
    var offsets := SampleOffsets(length);
    var start := if at < sample then 0 else if at >= lastStart then lastStart else middle;
    DedupKeeps([0, middle, lastStart], start);
    assert start <= at < start + SampleLength(length, start);
    var i :| 0 <= i < |offsets| && offsets[i] == start;
    assert offsets[i] <= at < offsets[i] + SampleLength(length, offsets[i]);
  }

  /** What the network does during one connection attempt. */
  datatype Attempt = Attempt(
    handshake: Option<ReconnectError>,   // why transport, negotiation, authentication or tree connect failed
    createGuid: bool,                    // a random CREATE guid could be drawn
    durableReopen: Result<FileHandle>,
    durableOpen: Result<FileHandle>,
    pathOpen: Result<FileHandle>,
    inbox: seq<Incoming>,                // what the new session will receive
    sends: nat,
    sessionId: u64,
    encrypted: bool,
    signing: bool,
    multiCredit: bool,
    maxReadSize: u32,
    credits: u16)

  datatype Opening = ByDurableReopen | ByDurableOpen | ByPath

  /** One open request sent, and the error it ended in, if any. */
  datatype Tried = Tried(opening: Opening, failure: Option<ClientError>)

  function FailureOf(answer: Result<FileHandle>): Option<ClientError> {
    if answer.Ok? then None else Some(answer.error)
  }

  /** The server answered a durable open by saying that it has none to offer. */
  predicate Lacks(t: Tried) { t.opening != ByPath && t.failure == Some(Capability) }

  ghost predicate Lacking(openings: seq<Tried>) {
    exists i :: 0 <= i < |openings| && Lacks(openings[i])
  }

  /** A path open was sent only with durable mode off, or after the server had refused the capability. */
  ghost predicate PathsAllowed(openings: seq<Tried>, durableEnabled: bool) {
    forall i :: 0 <= i < |openings| && openings[i].opening == ByPath ==> !durableEnabled || Lacking(openings[..i])
  }

  lemma TriedOne(openings: seq<Tried>, durableEnabled: bool, t: Tried)
    requires PathsAllowed(openings, durableEnabled)
    requires t.opening == ByPath ==> !durableEnabled || Lacking(openings)
    ensures PathsAllowed(openings + [t], durableEnabled)
    ensures Lacking(openings + [t]) <==> Lacking(openings) || Lacks(t)
  {
    var all := openings + [t];
    assert all[..|openings|] == openings && all[|openings|] == t;
    forall i | 0 <= i < |openings| ensures all[..i] == openings[..i] && all[i] == openings[i] {}
    if Lacking(openings) {
      var i :| 0 <= i < |openings| && Lacks(openings[i]);
      assert Lacks(all[i]);
    }
  }

  /** The durable open requests of one attempt: a remembered open first; a new one only when nothing is
      remembered, or the server no longer knows what was. */
  function DurablePlan(a: Attempt, remembered: bool, unavailable: bool): seq<Tried> {
    (if remembered then [Tried(ByDurableReopen, FailureOf(a.durableReopen))] else [])
    + (if (if remembered then a.durableReopen == Err(ServerStatus(STATUS_OBJECT_NAME_NOT_FOUND)) else !unavailable) && a.createGuid
       then [Tried(ByDurableOpen, FailureOf(a.durableOpen))] else [])
  }

  /** `id` is what capturing the identity of `h` gives, by the bytes the session received. */
  ghost predicate Identifies(id: FileIdentity, h: FileHandle, digest: Bytes -> Bytes, file: Bytes, t: Trace) {
    && id.length == h.length && id.lastWriteTime == h.lastWriteTime
    && (Complete(file, t) ==> h.length <= |file| && id.fingerprint == digest(Transcript(file, h.length)))
  }

  /** Why no identity could be captured: a sample came back short, although the server answers all it has,
      or a READ failed. */
  ghost predicate Unsampled(s: SessionConnection, h: FileHandle, file: Bytes, t: Trace, e: ClientError, lo: nat)
    reads s`inbox, s`sendsLeft, s.credits, s.messageIds
  {
    if e == Protocol(Identity) then Complete(file, t) ==> |file| < h.length
    else if e.ServerStatus? then FirstDenial(t, {}) == Some(e.status)
    else Excused(s, h, t, e, lo)
  }

  /** What makes a file another one than the first: its length, a write time where both are known, or the
      digest of its samples. */
  ghost predicate Changed(first: FileIdentity, h: FileHandle, digest: Bytes -> Bytes, file: Bytes) {
    || first.length != h.length
    || (0 !in {first.lastWriteTime as int, h.lastWriteTime as int} && first.lastWriteTime != h.lastWriteTime)
    || first.fingerprint != digest(Transcript(file, h.length))
  }

  /** The test of identities is the test of these three. */
  lemma ChangedIsIncompatible(first: FileIdentity, id: FileIdentity, h: FileHandle, digest: Bytes -> Bytes, file: Bytes, t: Trace)
    requires Identifies(id, h, digest, file, t) && Complete(file, t)
    ensures Compatible(first, id) <==> !Changed(first, h, digest, file)
  {
    hide Complete, Transcript;
  }

  /** The attempt itself ended in `e`: its handshake, the random source, or one of its opens. */
  predicate AttemptFails(a: Attempt, e: ReconnectError) {
    || a.handshake == Some(e)
    || (e == RandomSource && !a.createGuid)
    || (e.Client? && Err(e.error) in {a.durableReopen, a.durableOpen, a.pathOpen})
  }

  /** What became of a remembered durable open is known: it was taken over, or the server has none. */
  predicate Forgets(a: Attempt) {
    a.durableReopen.Ok? || a.durableReopen.error in {ServerStatus(STATUS_OBJECT_NAME_NOT_FOUND), Capability}
  }

  predicate AnyOpened(a: Attempt) { a.durableReopen.Ok? || a.durableOpen.Ok? || a.pathOpen.Ok? }

  class Recipe {
    const durableEnabled: bool
    /** SHA-256, of which nothing but being a function is used. */
    const digest: Bytes -> Bytes
    /** Set once, by the first file opened. */
    var identity: Option<FileIdentity>
    var durable: Option<FileHandle>
    var durableUnavailable: bool
    /** Every open request sent, oldest first. */
    ghost var openings: seq<Tried>
    /** The identities of all files ever handed out. */
    ghost var adopted: seq<FileIdentity>

    /** Durable mode counts as unavailable exactly once the server has refused the capability, a path
        open happened only then or with durable mode off, and every file handed out is compatible
        with the first identity. */
    ghost predicate Valid()
      reads this
    {
      && (durableUnavailable <==> Lacking(openings)) && (durableUnavailable ==> durable.None?)
      && PathsAllowed(openings, durableEnabled)
      && (forall a :: a in adopted ==> identity.Some? && Compatible(identity.value, a))
    }

    constructor (durableEnabled: bool, digest: Bytes -> Bytes)
      ensures Valid() && identity == None && durable == None && !durableUnavailable && openings == [] && adopted == []
      ensures this.durableEnabled == durableEnabled && this.digest == digest
    {
      this.durableEnabled, this.digest := durableEnabled, digest;
      identity, durable, durableUnavailable, openings, adopted := None, None, false, [], [];
    }

    /** Reads every sample through the session; all must come back whole. */
    method Capture(s: SessionConnection, h: FileHandle, ghost file: Bytes) returns (r: Result<FileIdentity>)
      requires s.Valid()
      modifies s`inbox, s`trace, s`sendsLeft, s`leaked, s.credits, s.messageIds
      ensures s.Valid() && old(s.trace) <= s.trace
      ensures r.Ok? ==> Identifies(r.value, h, digest, file, s.trace)
      ensures r.Err? ==> Unsampled(s, h, file, s.trace[|old(s.trace)|..], r.error, old(s.messageIds.next))
    {
      hide Complete, Honest, Slice, SessionConnection.Valid, Closed, Refines, Excused, Settles, FirstDenial, AllGenuine, SampleOffsets;
      var offsets := SampleOffsets(h.length);
      SamplesSpanTheFile(h.length);
      NothingRead(file, h, 0, 0, s.messageIds.next);
      NothingReceived(s);
      ghost var t: Trace := [];
      var transcript := Le(h.length, 8);
      assert offsets[..0] == [];
      for i := 0 to |offsets|
        invariant s.Valid() && s.trace == old(s.trace) + t && old(s.messageIds.next) <= s.messageIds.next
        invariant Closed(t, old(s.messageIds.next), s.messageIds.next) && FirstDenial(t, {}) == None
        invariant Complete(file, s.trace) && i > 0 ==> offsets[i - 1] + SampleLength(h.length, offsets[i - 1]) <= |file|
        invariant Complete(file, s.trace) ==> transcript == Samples(file, h.length, offsets[..i])
      {
        ghost var before, mid := s.trace, s.messageIds.next;
        var wanted := SampleLength(h.length, offsets[i]);
        var sample := ReadAtWithOptions(s, h, offsets[i], wanted, file);
        ghost var u := s.trace[|before|..];
        assert s.trace == old(s.trace) + (t + u) && s.trace[|old(s.trace)|..] == t + u;
        SampleFails(s, h, t, u, sample, old(s.messageIds.next), mid);
        if sample.Err? {
          if !sample.error.ServerStatus? {
            NoReadSaysIdentity(s, h, t + u, sample.error, old(s.messageIds.next));
          }
          return Err(sample.error);
        }
        t := t + u;
        if |sample.value| != wanted {
          SampleShort(file, h, offsets[i], wanted, sample.value, t, u);
          return Err(Protocol(Identity));
        }
        SampleIsFile(file, h, offsets[i], wanted, sample.value, before, s.trace);
        transcript := transcript + Le(offsets[i], 8) + Le(wanted, 8) + sample.value;
        assert offsets[..i + 1][..i] == offsets[..i] && offsets[..i + 1][i] == offsets[i];
      }
      assert offsets[..|offsets|] == offsets;
      return Ok(FileIdentity(h.length, h.lastWriteTime, digest(transcript)));
    }

    /** Why a file is not adopted: its identity could not be captured, or it is not the first file. */
    ghost predicate Rejects(s: SessionConnection, h: FileHandle, file: Bytes, t: Trace, all: Trace, e: ClientError, lo: nat)
      reads this`identity, s`inbox, s`sendsLeft, s.credits, s.messageIds
    {
      || Unsampled(s, h, file, t, e, lo)
      || (e == Protocol(Identity) && identity.Some? && (Complete(file, all) ==> Changed(identity.value, h, digest, file)))
    }

    /** First wins: the first identity is kept for good and every later one must be compatible with
        it, even when another task stores its own in between. */
    method RememberOrValidate(s: SessionConnection, h: FileHandle, ghost file: Bytes) returns (r: Result<()>)
      requires s.Valid() && Valid()
      modifies this`identity, this`adopted, s`inbox, s`trace, s`sendsLeft, s`leaked, s.credits, s.messageIds
      ensures s.Valid() && Valid() && old(s.trace) <= s.trace
      ensures old(identity).Some? ==> identity == old(identity)
      ensures r.Ok? ==> HandedOut(old(adopted), h, file, s.trace)
      ensures r.Err? ==> adopted == old(adopted) && Rejects(s, h, file, s.trace[|old(s.trace)|..], s.trace, r.error, old(s.messageIds.next))
      ensures Complete(file, s.trace) && r.Ok? ==> identity.Some? && !Changed(identity.value, h, digest, file)
    {
      hide Complete, SessionConnection.Valid, Lacking, PathsAllowed, Transcript, Unsampled, Compatible, Changed;
      var reopened := Capture(s, h, file);
      if reopened.Err? {
        return Err(reopened.error);
      }
      if identity.None? {
        var raced: Option<FileIdentity> := *;
        identity := if raced.Some? then raced else Some(reopened.value);
      }
      if Complete(file, s.trace) {
        ChangedIsIncompatible(identity.value, reopened.value, h, digest, file, s.trace);
      }
      if !Compatible(identity.value, reopened.value) {
        return Err(Protocol(Identity));
      }
      adopted := adopted + [reopened.value];
      return Ok(());
    }

    /** One more file was handed out: `h`, under the identity just captured from it, which is
        compatible with the first. */
    ghost predicate HandedOut(before: seq<FileIdentity>, h: FileHandle, file: Bytes, t: Trace)
      reads this`identity, this`adopted
    {
      && |adopted| == |before| + 1 && before <= adopted
      && Identifies(adopted[|before|], h, digest, file, t)
      && identity.Some? && Compatible(identity.value, adopted[|before|])
    }

    /** Adopts an opened file if its identity fits. */
    method Adopt(a: Attempt, f: FileHandle, ghost file: Bytes) returns (r: Result<()>, s: SessionConnection)
      requires a.credits != 0 && Valid()
      modifies this`identity, this`adopted
      ensures Valid() && fresh(s) && fresh(s.credits) && fresh(s.messageIds) && s.Valid()
      ensures old(identity).Some? ==> identity == old(identity)
      ensures Begins(s, a)
      ensures r.Ok? ==> HandedOut(old(adopted), f, file, s.trace)
      ensures r.Err? ==> adopted == old(adopted) && Rejects(s, f, file, s.trace, s.trace, r.error, 1)
    {
      hide Recipe.Valid, HandedOut, Rejects;
      s := new SessionConnection(a.sessionId, a.encrypted, a.signing, true, a.multiCredit, a.maxReadSize, a.maxReadSize,
                                 a.maxReadSize, a.credits, a.inbox, a.sends);
      assert s.trace[|s.trace|..] == [];
      r := RememberOrValidate(s, f, file);
      assert s.trace[0..] == s.trace;
    }

    /** The session has the limits and the identity the attempt negotiated. */
    ghost predicate Begins(s: SessionConnection, a: Attempt) {
      && s.sessionId == a.sessionId && s.encrypted == a.encrypted && s.multiCredit == a.multiCredit
      && s.maxReadSize == a.maxReadSize && s.signingRequired == a.signing && s.hasSigningKey
    }

    /** The session and file an attempt hands out, if it succeeded. */
    twostate predicate Restores(ok: bool, a: Attempt, new s: SessionConnection?, h: FileHandle, file: Bytes)
      reads this`identity, this`adopted, s
    {
      if ok then s != null && Begins(s, a) && HandedOut(old(adopted), h, file, s.trace) else adopted == old(adopted)
    }

    /** The last open of an attempt succeeded, but its file was not adopted. */
    ghost predicate TurnedDown(s: SessionConnection?, h: FileHandle, file: Bytes, e: ReconnectError)
      reads this`identity, s, if s != null then {s.credits, s.messageIds} else {}
    {
      s != null && e.Client? && Rejects(s, h, file, s.trace, s.trace, e.error, 1)
    }

    /** The durable half of a connection attempt: a remembered open first, then a new one. The path
        may be tried only when the server turned out not to offer durable opens; any other failure
        ends the attempt. */
    method ConnectDurable(a: Attempt, ghost file: Bytes)
      returns (r: DurableOutcome, s: SessionConnection?, h: FileHandle)
      requires Valid() && a.credits != 0 && durableEnabled
      modifies this
      ensures Valid() && (old(identity).Some? ==> identity == old(identity))
      ensures openings == old(openings) + DurablePlan(a, old(durable).Some?, old(durableUnavailable))
      ensures r.TryPath? <==> durableUnavailable
      ensures r.Fails? && openings != old(openings) && openings[|openings| - 1].failure.Some? ==>
                r.error == Client(openings[|openings| - 1].failure.value) || (r.error == RandomSource && !a.createGuid)
      ensures r.Fails? && r.error != RandomSource && (openings == old(openings) || openings[|openings| - 1].failure.None?) ==>
                openings != old(openings) && TurnedDown(s, h, file, r.error)
      ensures r.Fails? && r.error == RandomSource ==> !a.createGuid
      ensures durable == if r.Restored? then Some(h) else if Forgets(a) then None else old(durable)
      ensures Restores(r.Restored?, a, s, h, file)
      ensures r.Restored? ==> s != null && fresh(s) && fresh(s.credits) && fresh(s.messageIds) && s.Valid()
    {
      hide Complete, Compatible, SessionConnection.Valid, Transcript, Lacking, PathsAllowed, HandedOut, Rejects, Begins;
      s, h := null, FileHandle(0, 0, 0);
      if durable.Some? {
        var t := Tried(ByDurableReopen, FailureOf(a.durableReopen));
        TriedOne(openings, durableEnabled, t);
        openings := openings + [t];
        match a.durableReopen {
          case Ok(f) =>
            var adopted;
            adopted, s := Adopt(a, f, file);
            durable := if adopted.Ok? then Some(f) else None;
            return Settle(adopted), s, f;
          case Err(e) =>
            if e == ServerStatus(STATUS_OBJECT_NAME_NOT_FOUND) {
              durable := None;
            } else if e == Capability {
              durable := None;
              durableUnavailable := true;
            } else {
              return Fails(Client(e)), s, h;
            }
        }
      }
      if durableUnavailable {
        return TryPath, s, h;
      }
      label Reopened:
      r, s, h := OpenDurable(a, file);
      assert old@Reopened(adopted) == old(adopted);
    }

    /** A new durable open. */
    method OpenDurable(a: Attempt, ghost file: Bytes)
      returns (r: DurableOutcome, s: SessionConnection?, h: FileHandle)
      requires Valid() && a.credits != 0 && durableEnabled && durable.None? && !durableUnavailable
      modifies this
      ensures Valid() && (old(identity).Some? ==> identity == old(identity))
      ensures openings == old(openings) + DurablePlan(a, false, false)
      ensures durableUnavailable <==> a.createGuid && a.durableOpen == Err(Capability)
      ensures r.TryPath? <==> durableUnavailable
      ensures !a.createGuid ==> r == Fails(RandomSource)
      ensures a.createGuid && a.durableOpen.Err? && !r.TryPath? ==> r == Fails(Client(a.durableOpen.error))
      ensures r.Fails? && a.createGuid && a.durableOpen.Ok? ==> TurnedDown(s, h, file, r.error)
      ensures durable == if r.Restored? then Some(h) else None
      ensures r.Restored? ==> a.durableOpen == Ok(h)
      ensures Restores(r.Restored?, a, s, h, file)
      ensures r.Restored? ==> s != null && fresh(s) && fresh(s.credits) && fresh(s.messageIds) && s.Valid()
    {
      hide Complete, Compatible, SessionConnection.Valid, Transcript, Lacking, PathsAllowed, HandedOut, Rejects, Begins;
      s, h := null, FileHandle(0, 0, 0);
      if !a.createGuid {
        return Fails(RandomSource), s, h;
      }
      var t := Tried(ByDurableOpen, FailureOf(a.durableOpen));
      TriedOne(openings, durableEnabled, t);
      openings := openings + [t];
      match a.durableOpen {
        case Ok(f) =>
          var adopted;
          adopted, s := Adopt(a, f, file);
          if adopted.Ok? {
            durable := Some(f);
          }
          return Settle(adopted), s, f;
        case Err(e) =>
          if e == Capability {
            durableUnavailable := true;
            return TryPath, s, h;
          }
          return Fails(Client(e)), s, h;
      }
    }

    /** One connection attempt from transport to adopted file. Exactly the open requests of the durable
        plan are sent, then one by path if durable mode is off or the capability was refused. A file
        handed out is adopted under its own identity, compatible with the first. */
    method Connect(a: Attempt, ghost file: Bytes) returns (r: Option<ReconnectError>, s: SessionConnection?, h: FileHandle)
      requires Valid() && a.credits != 0
      modifies this
      ensures Valid() && (old(identity).Some? ==> identity == old(identity))
      ensures a.handshake.Some? ==> r == a.handshake && unchanged(this)
      ensures a.handshake.None? ==>
                openings == old(openings)
                            + (if durableEnabled then DurablePlan(a, old(durable).Some?, old(durableUnavailable)) else [])
                            + (if !durableEnabled || durableUnavailable then [Tried(ByPath, FailureOf(a.pathOpen))] else [])
      ensures r.Some? && openings != old(openings) && openings[|openings| - 1].failure.Some? ==>
                r.value == Client(openings[|openings| - 1].failure.value) || (r.value == RandomSource && !a.createGuid)
      ensures r.Some? && a.handshake.None? && r.value != RandomSource && (openings == old(openings) || openings[|openings| - 1].failure.None?) ==>
                openings != old(openings) && TurnedDown(s, h, file, r.value)
      ensures r == Some(RandomSource) && a.handshake.None? ==> !a.createGuid
      ensures r.Some? ==> AttemptFails(a, r.value) || (AnyOpened(a) && TurnedDown(s, h, file, r.value))
      ensures Restores(r.None?, a, s, h, file)
      ensures r.None? ==> s != null && fresh(s) && fresh(s.credits) && fresh(s.messageIds) && s.Valid()
    {
      hide Complete, Compatible, SessionConnection.Valid, Transcript, Lacking, PathsAllowed, HandedOut, Rejects, Begins;
      s, h := null, FileHandle(0, 0, 0);
      if a.handshake.Some? {
        return a.handshake, s, h;
      }
      var outcome := TryPath;
      if durableEnabled {
        outcome, s, h := ConnectDurable(a, file);
      }
      if outcome.TryPath? {
        var t := Tried(ByPath, FailureOf(a.pathOpen));
        TriedOne(openings, durableEnabled, t);
        openings := openings + [t];
        match a.pathOpen {
          case Ok(f) =>
            var adopted;
            adopted, s := Adopt(a, f, file);
            h, outcome := f, Settle(adopted);
          case Err(e) =>
            outcome := Fails(Client(e));
        }
      }
      r := if outcome.Restored? then None else Some(outcome.error);
    }
  }

  datatype DurableOutcome = TryPath | Restored | Fails(error: ReconnectError)

  function Settle(adopted: Result<()>): (o: DurableOutcome)
    ensures !o.TryPath? && (o.Restored? <==> adopted.Ok?)
  {
    if adopted.Ok? then Restored else Fails(Client(adopted.error))
  }

  /** What goes into the fingerprint of an unchanged file, after a fixed domain tag. */
  function Samples(file: Bytes, length: u64, offsets: seq<u64>): Bytes {
    if offsets == [] then Le(length, 8)
    else
      var n := |offsets| - 1;
      Samples(file, length, offsets[..n]) + Le(offsets[n], 8) + Le(SampleLength(length, offsets[n]), 8)
      + Slice(file, offsets[n], SampleLength(length, offsets[n]))
  }

  function Transcript(file: Bytes, length: u64): Bytes { Samples(file, length, SampleOffsets(length)) }

  lemma LastSample(file: Bytes, length: u64, offsets: seq<u64>)
    requires offsets != []
    ensures var n := |offsets| - 1;
            Samples(file, length, offsets) ==
            (Samples(file, length, offsets[..n]) + Le(offsets[n], 8) + Le(SampleLength(length, offsets[n]), 8))
            + Slice(file, offsets[n], SampleLength(length, offsets[n]))
  {}

  lemma SameTails(a: Bytes, b: Bytes, c: Bytes, d: Bytes)
    requires a + b == c + d && |b| == |d|
    ensures a == c && b == d
  {
    assert |a| == |c|;
    assert a == (a + b)[..|a|] && c == (c + d)[..|c|];
    assert b == (a + b)[|a|..] && d == (c + d)[|c|..];
  }

  /** Equal transcripts hold equal samples. */
  lemma {:induction false} SamplesEqual(file: Bytes, file': Bytes, length: u64, offsets: seq<u64>, i: nat)
    requires i < |offsets| && forall j :: 0 <= j < |offsets| ==> offsets[j] + SampleLength(length, offsets[j]) <= Min(|file|, |file'|)
    requires Samples(file, length, offsets) == Samples(file', length, offsets)
    ensures Slice(file, offsets[i], SampleLength(length, offsets[i])) == Slice(file', offsets[i], SampleLength(length, offsets[i]))
  {
    hide Samples, Le;
    var n := |offsets| - 1;
    var before, before' := Samples(file, length, offsets[..n]), Samples(file', length, offsets[..n]);
    var place, size := Le(offsets[n], 8), SampleLength(length, offsets[n]);
    LastSample(file, length, offsets);
    LastSample(file', length, offsets);
    SameTails(before + place + Le(size, 8), Slice(file, offsets[n], size), before' + place + Le(size, 8), Slice(file', offsets[n], size));
    SameTails(before + place, Le(size, 8), before' + place, Le(size, 8));
    SameTails(before, place, before', place);
    if i < n {
      SamplesEqual(file, file', length, offsets[..n], i);
    }
  }

  /** Equal transcripts mean equal bytes wherever the file is sampled. */
  lemma SampledBytesAgree(file: Bytes, file': Bytes, length: u64, at: nat)
    requires length <= Min(|file|, |file'|) && Transcript(file, length) == Transcript(file', length) && Sampled(length, at)
    ensures at < length && file[at] == file'[at]
  {
    hide Samples, SampleOffsets;
    SamplesSpanTheFile(length);
    var offsets := SampleOffsets(length);
    var i :| 0 <= i < |offsets| && offsets[i] <= at < offsets[i] + SampleLength(length, offsets[i]);
    SamplesEqual(file, file', length, offsets, i);
    var size := SampleLength(length, offsets[i]);
    assert Slice(file, offsets[i], size)[at - offsets[i]] == file[at];
    assert Slice(file', offsets[i], size)[at - offsets[i]] == file'[at];
  }

  /** The guard against changed files, in full: whatever two files one recipe has handed out, if the server
      answered completely while they were sampled and the digest does not collide on them, they have the
      same length and the same bytes wherever they are sampled, all bytes if the file is small, and neither
      has another write time than the first, where both are known. */
  lemma HandedOutAgree(recipe: Recipe, a: FileIdentity, h: FileHandle, file: Bytes, t: Trace,
                       b: FileIdentity, h': FileHandle, file': Bytes, t': Trace)
    requires recipe.Valid() && a in recipe.adopted && b in recipe.adopted
    requires Identifies(a, h, recipe.digest, file, t) && Complete(file, t)
    requires Identifies(b, h', recipe.digest, file', t') && Complete(file', t')
    requires recipe.digest(Transcript(file, h.length)) == recipe.digest(Transcript(file', h'.length)) ==>
               Transcript(file, h.length) == Transcript(file', h'.length)
    ensures h.length == h'.length <= Min(|file|, |file'|)
    ensures forall at: nat :: Sampled(h.length, at) ==> at < h.length && file[at] == file'[at]
    ensures h.length <= 3 * IDENTITY_SAMPLE_BYTES ==> file[..h.length] == file'[..h.length]
    ensures recipe.identity.Some?
    ensures var known := recipe.identity.value.lastWriteTime;
            known != 0 ==> h.lastWriteTime in {0, known} && h'.lastWriteTime in {0, known}
  {
    hide Complete, Transcript, Sampled;
    assert Compatible(recipe.identity.value, a) && Compatible(recipe.identity.value, b);
    forall at: nat | Sampled(h.length, at) ensures at < h.length && file[at] == file'[at] {
      SampledBytesAgree(file, file', h.length, at);
    }
    if h.length <= 3 * IDENTITY_SAMPLE_BYTES {
      forall at | 0 <= at < h.length ensures file[at] == file'[at] {
        SmallFilesFullySampled(h.length, at);
      }
    }
  }

  /** A short sample of a complete history means a file shorter than the handle says. */
  lemma SampleShort(file: Bytes, h: FileHandle, offset: u64, wanted: nat, d: Bytes, t: Trace, u: Trace)
    requires offset < h.length && 0 < wanted <= h.length - offset && |d| != wanted
    requires Refines(file, h, offset, wanted, d, u) && forall e :: e in u ==> e in t
    ensures Complete(file, t) ==> |file| < h.length
  {
    hide Complete, Honest, Slice;
    Shorter(file, u, t);
    if Complete(file, t) {
      CompleteIsHonest(file, u);
    }
  }

  /** The failure of a later sample is the failure of the whole capture. */
  lemma SampleFails(s: SessionConnection, h: FileHandle, t: Trace, u: Trace, r: Result<Bytes>, lo: nat, mid: nat)
    requires Closed(t, lo, mid) && FirstDenial(t, {}) == None && lo <= mid <= s.messageIds.next
    requires Settled(r) ==> Closed(u, mid, s.messageIds.next)
    requires r.Err? && r.error.ServerStatus? ==> FirstDenial(u, {}) == Some(r.error.status)
    requires r.Ok? ==> FirstDenial(u, {}) == None
    requires r.Err? && !r.error.ServerStatus? ==> Excused(s, h, u, r.error, mid)
    ensures r.Ok? ==> Closed(t + u, lo, s.messageIds.next) && FirstDenial(t + u, {}) == None
    ensures r.Err? && r.error.ServerStatus? ==> FirstDenial(t + u, {}) == Some(r.error.status)
    ensures r.Err? && !r.error.ServerStatus? ==> Excused(s, h, t + u, r.error, lo)
  {
    hide Closed, FirstDenial, Refused, SessionConnection.Exhausted;
    if r.Err? && !r.error.ServerStatus? && !s.Exhausted(r.error) {
      RefusedLater(s, h, t, u, r.error, lo, mid);
    }
    if Settled(r) {
      ClosedConcat(t, u, lo, mid, s.messageIds.next);
      ClosedDenial(t, u, lo, mid, s.messageIds.next, {});
    }
  }

  lemma NoReadSaysIdentity(s: SessionConnection, h: FileHandle, t: Trace, e: ClientError, lo: nat)
    requires Excused(s, h, t, e, lo)
    ensures e != Protocol(Identity)
  {}

  lemma SampleIsFile(file: Bytes, h: FileHandle, offset: u64, wanted: nat, d: Bytes, before: Trace, after: Trace)
    requires before <= after && offset < h.length && 0 < wanted <= h.length - offset
    requires Refines(file, h, offset, wanted, d, after[|before|..])
    ensures Complete(file, after) ==> Complete(file, before) && d == Slice(file, offset, wanted)
    ensures Complete(file, after) && |d| == wanted ==> offset + wanted <= |file|
  {
    hide Complete, Honest, Slice;
    Shorter(file, before, after);
    Shorter(file, after[|before|..], after);
    if Complete(file, after) {
      CompleteIsHonest(file, after[|before|..]);
    }
  }
}
