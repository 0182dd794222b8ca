/** Credit arithmetic, the connection-wide credit window and the MessageId allocator
    (MS-SMB2 sections 3.2.4.1.2, 3.2.4.1.5 and 3.2.4.1.6). */
module Credits {
  import opened Common

  const CREDIT_UNIT: nat := 65536
  const DEFAULT_TARGET_CREDITS: u32 := 128

  /** Sequence numbers a request with this CreditCharge consumes. */
  function Width(charge: u16): nat { if charge == 0 then 1 else charge }

  /** Largest payload the currently available credits can cover. */
  function CreditLimitedPayload(multiCredit: bool, available: u32): nat {
    if multiCredit then available * CREDIT_UNIT
    else if available > 0 then CREDIT_UNIT
    else 0
  }

  function CreditCharge(multiCredit: bool, length: nat): Result<u16> {
    if !multiCredit then Ok(0)
    else if length == 0 then Err(Protocol(ZeroChunk))
    else
      var units := (length - 1) / CREDIT_UNIT + 1;
      if units <= U16_MAX then Ok(units) else Err(Protocol(ChargeTooLarge))
  }

  /** The least number of 64 KiB units that hold `length` bytes. */
  function Units(length: nat): nat { (length + CREDIT_UNIT - 1) / CREDIT_UNIT }

  /** What a request with this payload costs, in credits and in MessageIds. */
  function Price(multiCredit: bool, length: nat): nat { if multiCredit then Units(length) else 1 }

  /** Any chunk cut to the credit limit is affordable as soon as it has a charge at all,
      and the charge is the least number of 64 KiB units covering the chunk. */
  lemma ChargeIsCovered(multiCredit: bool, available: u32, length: nat)
    requires 0 < length <= CreditLimitedPayload(multiCredit, available)
    requires CreditCharge(multiCredit, length).Ok?
    ensures Width(CreditCharge(multiCredit, length).value) <= available
    ensures multiCredit ==>
              var charge := CreditCharge(multiCredit, length).value;
              (charge - 1) * CREDIT_UNIT < length <= charge * CREDIT_UNIT
  {
    if multiCredit {
      var q := (length - 1) / CREDIT_UNIT;
      assert q * CREDIT_UNIT <= length - 1 < (q + 1) * CREDIT_UNIT;
      assert q < available;
    }
  }

  /** The credit limit is the largest payload whose price the window covers; without multi-credit no request
      exceeds one unit. */
  lemma LimitIsLargestPaid(multiCredit: bool, available: u32, length: nat)
    requires length > 0
    ensures length <= CreditLimitedPayload(multiCredit, available) <==>
              Price(multiCredit, length) <= available && (multiCredit || length <= CREDIT_UNIT)
  {}

  /** The chunk formula leaves the charge undefined exactly for payloads above 65535 units. */
  lemma ChargeUndefined(multiCredit: bool, length: nat)
    requires length > 0
    ensures CreditCharge(multiCredit, length).Err? <==> multiCredit && length > U16_MAX * CREDIT_UNIT
  {
    var q := (length - 1) / CREDIT_UNIT;
    assert q * CREDIT_UNIT <= length - 1 < (q + 1) * CREDIT_UNIT;
  }

  /** The size and charge of the next chunk of a READ or WRITE: what is still wanted, cut to the
      negotiated size, the caller's chunk size and the credit window. */
  function PlanChunk(multiCredit: bool, available: u32, limit: nat, wanted: nat): (r: Result<(nat, u16)>)
    ensures r.Ok? ==> 0 < r.value.0 <= Min(limit, wanted) && Width(r.value.1) <= available
    ensures r.Ok? ==> r.value.0 == Min(Min(wanted, limit), CreditLimitedPayload(multiCredit, available))
    ensures r.Ok? ==> Width(r.value.1) == Price(multiCredit, r.value.0) && (r.value.1 > 0 <==> multiCredit)
    ensures r.Err? ==> r.error == Protocol(ZeroChunk) || r.error == Protocol(ChargeTooLarge)
    ensures r == Err(Protocol(ZeroChunk)) <==> wanted == 0 || limit == 0 || available == 0
  {
    var chunk := Min(Min(wanted, limit), CreditLimitedPayload(multiCredit, available));
    if chunk == 0 then Err(Protocol(ZeroChunk))
    else
      var charge := CreditCharge(multiCredit, chunk);
      if charge.Err? then Err(charge.error)
      else
        ChargeIsCovered(multiCredit, available, chunk);
        Ok((chunk, charge.value))
  }

  /** Credits currently usable on one transport connection. The ghost totals record what
      was ever granted and reserved. */
  class CreditManager {
    var available: u32
    const target: u32 := DEFAULT_TARGET_CREDITS
    ghost const initial: nat
    ghost var granted: nat
    ghost var reserved: nat

    ghost predicate Valid()
      reads this
    {
      available + reserved == initial + granted
    }

    constructor (initial: u16)
      requires initial != 0
      ensures Valid() && available == initial && this.initial == initial && granted == 0 && reserved == 0
    {
      available := initial;
      this.initial := initial;
      granted, reserved := 0, 0;
    }

    method Reserve(charge: u16) returns (r: Result<()>)
      requires Valid()
      modifies this
      ensures Valid() && granted == old(granted)
      ensures r.Ok? <==> Width(charge) <= old(available)
      ensures r.Ok? ==> available == old(available) - Width(charge) && reserved == old(reserved) + Width(charge)
      ensures r.Err? ==> r.error == Protocol(InsufficientCredits) && unchanged(this)
    {
      if Width(charge) > available {
        return Err(Protocol(InsufficientCredits));
      }
      available := available - Width(charge);
      reserved := reserved + Width(charge);
      return Ok(());
    }

    method Grant(credits: u16) returns (r: Result<()>)
      requires Valid()
      modifies this
      ensures Valid() && reserved == old(reserved)
      ensures r.Ok? <==> old(available) + credits <= U32_MAX
      ensures r.Ok? ==> available == old(available) + credits && granted == old(granted) + credits
      ensures r.Err? ==> r.error == Protocol(CreditOverflow) && unchanged(this)
    {
      if available + credits > U32_MAX {
        return Err(Protocol(CreditOverflow));
      }
      available := available + credits;
      granted := granted + credits;
      return Ok(());
    }

    /** CreditRequest never drops below the caller's minimum or 1, and reaching the target
        window is always asked for. */
    function RequestHint(minimum: u16): (hint: u16)
      reads this
      ensures hint >= 1 && hint >= minimum && available + hint >= target
      ensures hint > Max(minimum, 1) ==> available + hint == target
    {
      var desired := if target > available then target - available else 0;
      Max(Max(minimum, Min(desired, U16_MAX)), 1)
    }
  }

  /** A contiguous run of sequence numbers owned by one request. */
  datatype Span = Span(first: nat, width: nat)

  /** `spans` cut `[from, to)` into consecutive pieces, in allocation order. */
  ghost predicate Tiles(spans: seq<Span>, from: nat, to: nat) {
    if spans == [] then from == to
    else
      var last := spans[|spans| - 1];
      last.width > 0 && last.first + last.width == to && Tiles(spans[..|spans| - 1], from, last.first)
  }

  lemma {:induction false} TilesAppend(spans: seq<Span>, from: nat, to: nat, width: nat)
    requires Tiles(spans, from, to) && width > 0
    ensures Tiles(spans + [Span(to, width)], from, to + width)
  {
    assert (spans + [Span(to, width)])[..|spans|] == spans;
  }

  lemma {:induction false} TilesBound(spans: seq<Span>, from: nat, to: nat, i: nat)
    requires Tiles(spans, from, to) && i < |spans|
    ensures from <= spans[i].first && spans[i].width > 0 && spans[i].first + spans[i].width <= to
  {
    var last := spans[|spans| - 1];
    TilesOrdered(spans[..|spans| - 1], from, last.first);
    if i < |spans| - 1 {
      TilesBound(spans[..|spans| - 1], from, last.first, i);
    }
  }

  lemma {:induction false} TilesOrdered(spans: seq<Span>, from: nat, to: nat)
    requires Tiles(spans, from, to)
    ensures from <= to
  {
    if spans != [] {
      TilesOrdered(spans[..|spans| - 1], from, spans[|spans| - 1].first);
    }
  }

  /** Earlier spans lie wholly below later ones, so no MessageId is ever handed out twice. */
  lemma {:induction false} SpansDisjoint(spans: seq<Span>, from: nat, to: nat, i: nat, j: nat)
    requires Tiles(spans, from, to) && i < j < |spans|
    ensures spans[i].first + spans[i].width <= spans[j].first
  {
    var rest := spans[..|spans| - 1];
    if j == |spans| - 1 {
      TilesBound(rest, from, spans[j].first, i);
    } else {
      SpansDisjoint(rest, from, spans[|spans| - 1].first, i, j);
    }
  }

  class MessageIdAllocator {
    var next: u64
    /** Every span handed out so far, oldest first. */
    ghost var spans: seq<Span>

    ghost predicate Valid()
      reads this
    {
      Tiles(spans, 0, next)
    }

    constructor ()
      ensures Valid() && next == 0 && spans == []
    {
      next, spans := 0, [];
    }

    /** The compare-exchange loop, whose weak exchange may fail spuriously any finite
        number of times. */
    method Allocate(charge: u16) returns (r: Result<u64>)
      requires Valid()
      modifies this
      ensures Valid()
      ensures r.Ok? <==> old(next) + Width(charge) <= U64_MAX
      ensures r.Ok? ==> r.value == old(next) && next == old(next) + Width(charge)
                        && spans == old(spans) + [Span(old(next), Width(charge))]
      ensures r.Err? ==> r.error == Protocol(IdsExhausted) && unchanged(this)
    {
      var width := Width(charge);
      var current := next;
      var spurious: nat :| spurious >= 0;
      while true
        invariant current == next && unchanged(this)
        decreases spurious
      {
        if current + width > U64_MAX {
          return Err(Protocol(IdsExhausted));
        }
        if spurious == 0 {
          TilesAppend(spans, 0, next, width);
          next := current + width;
          spans := spans + [Span(current, width)];
          return Ok(current);
        }
        current := next;
        spurious := spurious - 1;
      }
    }
  }

  /** The same allocator shared by threads: a loop iteration is a load (or a failed
      exchange, which reloads) followed by an exchange. */
  datatype Attempt = Attempt(width: nat, current: nat)

  datatype AllocatorState = AllocatorState(next: nat, attempts: map<nat, Attempt>, spans: seq<Span>)

  datatype AllocatorStep =
    | Load(thread: nat, charge: u16)
    | ExchangeOk(thread: nat)
    | ExchangeFailed(thread: nat)
    | Overflow(thread: nat)

  ghost predicate AllocatorNext(s: AllocatorState, s': AllocatorState, step: AllocatorStep) {
    match step
    case Load(t, charge) =>
      t !in s.attempts && s' == s.(attempts := s.attempts[t := Attempt(Width(charge), s.next)])
    case ExchangeOk(t) =>
      && t in s.attempts
      && var a := s.attempts[t];
      && a.current == s.next
      && a.current + a.width <= U64_MAX
      && s' == AllocatorState(a.current + a.width, s.attempts - {t}, s.spans + [Span(a.current, a.width)])
    case ExchangeFailed(t) =>
      t in s.attempts && s' == s.(attempts := s.attempts[t := s.attempts[t].(current := s.next)])
    case Overflow(t) =>
      && t in s.attempts
      && s.attempts[t].current + s.attempts[t].width > U64_MAX
      && s' == s.(attempts := s.attempts - {t})
  }

  ghost predicate AllocatorInv(s: AllocatorState) {
    && Tiles(s.spans, 0, s.next)
    && s.next <= U64_MAX
    && forall t :: t in s.attempts ==> s.attempts[t].width > 0 && s.attempts[t].current <= s.next
  }

  ghost predicate AllocatorRun(run: seq<AllocatorState>, steps: seq<AllocatorStep>) {
    && |run| == |steps| + 1
    && run[0] == AllocatorState(0, map[], [])
    && forall i :: 0 <= i < |steps| ==> AllocatorNext(run[i], run[i + 1], steps[i])
  }

  lemma AllocatorStepKeeps(s: AllocatorState, s': AllocatorState, step: AllocatorStep)
    requires AllocatorInv(s) && AllocatorNext(s, s', step)
    ensures AllocatorInv(s') && s.next <= s'.next
  {
    if step.ExchangeOk? {
      var a := s.attempts[step.thread];
      TilesAppend(s.spans, 0, s.next, a.width);
    }
  }

  lemma {:induction false} AllocatorReachable(run: seq<AllocatorState>, steps: seq<AllocatorStep>, k: nat)
    requires AllocatorRun(run, steps) && k < |run|
    ensures AllocatorInv(run[k])
  {
    if k > 0 {
      AllocatorReachable(run, steps, k - 1);
      AllocatorStepKeeps(run[k - 1], run[k], steps[k - 1]);
    }
  }

  /** For every interleaving of any number of threads, the spans handed out tile `[0, next)`
      in order and are pairwise disjoint. */
  lemma ConcurrentSpansDisjoint(run: seq<AllocatorState>, steps: seq<AllocatorStep>, k: nat)
    requires AllocatorRun(run, steps) && k < |run|
    ensures Tiles(run[k].spans, 0, run[k].next)
    ensures forall i, j :: 0 <= i < j < |run[k].spans| ==>
                             run[k].spans[i].first + run[k].spans[i].width <= run[k].spans[j].first
  {
    AllocatorReachable(run, steps, k);
    var spans := run[k].spans;
    forall i, j | 0 <= i < j < |spans| ensures spans[i].first + spans[i].width <= spans[j].first {
      SpansDisjoint(spans, 0, run[k].next, i, j);
    }
  }
}
