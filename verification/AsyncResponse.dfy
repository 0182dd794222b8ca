/** Correlating responses with one request while the server may answer asynchronously
    (MS-SMB2 section 3.2.5.1.5). */
module AsyncResponse {
  import opened Common
  import opened Messages

  datatype Phase = InterimPending | Final

  predicate RequiresSignature(phase: Phase, signingRequired: bool) {
    signingRequired && phase == Final
  }

  /** What a response to one request must echo. */
  datatype Expected = Expected(command: Command, treeId: u32, sessionId: u64, messageId: u64)

  /** One header against the request and the AsyncId learned so far. */
  function Validate(asyncId: Option<u64>, want: Expected, h: Header): (r: Result<(Phase, Option<u64>)>)
    ensures r.Err? ==> r.error == Protocol(BadHeader)
  {
    if h.command != want.command || h.messageId != want.messageId || h.sessionId != want.sessionId
       || h.status.ChannelSequence?
    then Err(Protocol(BadHeader))
    else
      match h.id
      case Sync(tree) =>
        if asyncId.Some? || h.status.code == STATUS_PENDING || tree != want.treeId
        then Err(Protocol(BadHeader))
        else Ok((Final, asyncId))
      case Async(id) =>
        if id == 0 || (asyncId.Some? && asyncId.value != id) then Err(Protocol(BadHeader))
        else Ok((if h.status.code == STATUS_PENDING then InterimPending else Final, Some(id)))
  }

  /** What acceptance tells the caller, whichever branch accepted. */
  lemma ValidateFacts(asyncId: Option<u64>, want: Expected, h: Header)
    requires Validate(asyncId, want, h).Ok?
    ensures var (phase, learned) := Validate(asyncId, want, h).value;
            && h.messageId == want.messageId && h.status.Status?
            && (phase == InterimPending <==> h.status.code == STATUS_PENDING)
            && (phase == InterimPending ==> learned.Some? && h.id == Async(learned.value))
            && (learned == asyncId || (asyncId.None? && learned.Some? && h.id == Async(learned.value)))
            && learned == if h.id.Async? then Some(h.id.asyncId) else asyncId
  {}

  /** Per-request state, updated in place as responses arrive. */
  class AsyncResponseState {
    var asyncId: Option<u64>

    constructor ()
      ensures asyncId == None
    {
      asyncId := None;
    }

    /** A rejected header leaves the learned AsyncId alone. */
    method Accept(want: Expected, h: Header) returns (r: Result<Phase>)
      modifies this
      ensures r.Ok? <==> Validate(old(asyncId), want, h).Ok?
      ensures r.Ok? ==> Validate(old(asyncId), want, h).value == (r.value, asyncId)
      ensures r.Err? ==> unchanged(this) && r.error == Protocol(BadHeader)
    {
      if h.command != want.command || h.messageId != want.messageId || h.sessionId != want.sessionId {
        return Err(Protocol(BadHeader));
      }
      match h.status {
        case ChannelSequence => return Err(Protocol(BadHeader));
        case Status(code) =>
          match h.id {
            case Sync(tree) =>
              if asyncId.Some? || code == STATUS_PENDING || tree != want.treeId {
                return Err(Protocol(BadHeader));
              }
              return Ok(Final);
            case Async(id) =>
              if id == 0 {
                return Err(Protocol(BadHeader));
              }
              if asyncId.Some? {
                if asyncId.value != id {
                  return Err(Protocol(BadHeader));
                }
              } else {
                asyncId := Some(id);
              }
              return Ok(if code == STATUS_PENDING then InterimPending else Final);
          }
      }
    }
  }

  /** The headers are accepted one by one and exactly the last is final. */
  ghost predicate AcceptedExchange(asyncId: Option<u64>, want: Expected, hs: seq<Header>)
    decreases hs
  {
    && hs != []
    && var r := Validate(asyncId, want, hs[0]);
    && r.Ok?
    && if |hs| == 1 then r.value.0 == Final
       else r.value.0 == InterimPending && AcceptedExchange(r.value.1, want, hs[1..])
  }

  predicate Echoes(want: Expected, h: Header) {
    && h.command == want.command && h.messageId == want.messageId && h.sessionId == want.sessionId
    && h.status.Status?
  }

  /** Zero or more async PENDINGs under one nonzero AsyncId, then one non-PENDING header that is
      async with that id, or sync on the right tree if nothing async came before. */
  ghost predicate ExchangeShape(want: Expected, hs: seq<Header>) {
    && hs != []
    && (forall i :: 0 <= i < |hs| ==> Echoes(want, hs[i]))
    && (forall i :: 0 <= i < |hs| - 1 ==> hs[i].status.code == STATUS_PENDING)
    && var last := hs[|hs| - 1];
    && last.status.code != STATUS_PENDING
    && if last.id.Sync? then |hs| == 1 && last.id.treeId == want.treeId
       else last.id.asyncId != 0 && forall i :: 0 <= i < |hs| ==> hs[i].id == last.id
  }

  lemma {:induction false} AcceptedAfterPending(a: u64, want: Expected, hs: seq<Header>)
    requires a != 0
    ensures AcceptedExchange(Some(a), want, hs) <==>
            ExchangeShape(want, hs) && forall i :: 0 <= i < |hs| ==> hs[i].id == Async(a)
  {
    if |hs| > 1 {
      AcceptedAfterPending(a, want, hs[1..]);
      assert hs[1..][|hs| - 2] == hs[|hs| - 1];
      if AcceptedExchange(Some(a), want, hs) {
        forall i | 0 <= i < |hs| ensures Echoes(want, hs[i]) && hs[i].id == Async(a) {
          if i > 0 { assert hs[i] == hs[1..][i - 1]; }
        }
        forall i | 0 <= i < |hs| - 1 ensures hs[i].status.code == STATUS_PENDING {
          if i > 0 { assert hs[i] == hs[1..][i - 1]; }
        }
      }
    }
  }

  /** The header sequences one request accepts are exactly those of the stated shape. */
  lemma AcceptedExchangeShape(want: Expected, hs: seq<Header>)
    ensures AcceptedExchange(None, want, hs) <==> ExchangeShape(want, hs)
  {
    if |hs| > 1 {
      assert hs[1..][|hs| - 2] == hs[|hs| - 1];
      if hs[0].id.Async? && hs[0].id.asyncId != 0 {
        AcceptedAfterPending(hs[0].id.asyncId, want, hs[1..]);
        if AcceptedExchange(None, want, hs) {
          forall i | 0 <= i < |hs| ensures Echoes(want, hs[i]) && hs[i].id == hs[0].id {
            if i > 0 { assert hs[i] == hs[1..][i - 1]; }
          }
          forall i | 0 <= i < |hs| - 1 ensures hs[i].status.code == STATUS_PENDING {
            if i > 0 { assert hs[i] == hs[1..][i - 1]; }
          }
        }
      }
    }
  }
}
