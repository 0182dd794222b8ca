/** The chain of CREATE contexts in SMB2 CREATE messages (MS-SMB2 section 2.2.13.2). */
module CreateContexts {
  import opened ByteOrder
  import opened Common
  import opened FileModel

  const FIXED_SIZE: nat := 16
  const ALIGNMENT: nat := 8

  datatype CreateContext = CreateContext(name: Bytes, data: Bytes)

  predicate Valid(c: CreateContext) { 4 <= |c.name| <= U16_MAX && |c.data| <= U32_MAX }

  function AlignUp(n: nat): (a: nat)
    ensures n <= a < n + ALIGNMENT && a % ALIGNMENT == 0
  {
    (n + ALIGNMENT - 1) / ALIGNMENT * ALIGNMENT
  }

  function DataOffset(c: CreateContext): nat {
    if c.data == [] then 0 else AlignUp(FIXED_SIZE + |c.name|)
  }

  function PayloadEnd(c: CreateContext): nat {
    if c.data == [] then FIXED_SIZE + |c.name| else DataOffset(c) + |c.data|
  }

  function EncodedLength(c: CreateContext, last: bool): (n: nat)
    ensures n >= FIXED_SIZE + |c.name| && n >= PayloadEnd(c)
  {
    if last then PayloadEnd(c) else AlignUp(PayloadEnd(c))
  }

  /** Exactly when a context can be encoded in its place. */
  predicate Encodable(c: CreateContext, last: bool) {
    Valid(c) && DataOffset(c) <= U16_MAX && (last || EncodedLength(c, last) <= U32_MAX)
  }

  function FixedPart(c: CreateContext, last: bool): (b: Bytes)
    requires Encodable(c, last)
    ensures |b| == FIXED_SIZE
  {
    Le(if last then 0 else EncodedLength(c, last), 4) + Le(FIXED_SIZE, 2) + Le(|c.name|, 2) + Le(0, 2)
    + Le(DataOffset(c), 2) + Le(|c.data|, 4)
  }

  /** One context: fixed part, name, alignment, data, padding to the next context. */
  function One(c: CreateContext, last: bool): (b: Bytes)
    requires Encodable(c, last)
    ensures |b| == EncodedLength(c, last)
  {
    FixedPart(c, last) + c.name
    + (if c.data == [] then [] else Zeros(DataOffset(c) - FIXED_SIZE - |c.name|) + c.data)
    + Zeros(EncodedLength(c, last) - PayloadEnd(c))
  }

  function Encoded(cs: seq<CreateContext>): Result<Bytes> {
    if cs == [] then Ok([])
    else if !Encodable(cs[0], |cs| == 1) then Err(Wire)
    else
      var rest := Encoded(cs[1..]);
      if rest.Err? then rest else Ok(One(cs[0], |cs| == 1) + rest.value)
  }

  /** Overwrites part of a buffer in place. */
  function Put(b: Bytes, at: nat, part: Bytes): (r: Bytes)
    requires at + |part| <= |b|
    ensures |r| == |b|
  {
    b[..at] + part + b[at + |part|..]
  }

  /** The fixed part as it is patched into a freshly zeroed slot, field by field. */
  function PatchedHeader(c: CreateContext, last: bool): (b: Bytes)
    requires Encodable(c, last)
    ensures |b| == EncodedLength(c, last)
  {
    var b0 := Zeros(EncodedLength(c, last));
    var b1 := Put(b0, 0, Le(if last then 0 else EncodedLength(c, last), 4));
    var b2 := Put(b1, 4, Le(FIXED_SIZE, 2));
    var b3 := Put(b2, 6, Le(|c.name|, 2));
    var b4 := Put(b3, 8, Le(0, 2));
    var b5 := Put(b4, 10, Le(DataOffset(c), 2));
    Put(b5, 12, Le(|c.data|, 4))
  }

  /** All the patches a slot receives, in the order the source makes them. */
  function Patched(c: CreateContext, last: bool): (b: Bytes)
    requires Encodable(c, last)
    ensures |b| == EncodedLength(c, last)
  {
    var named := Put(PatchedHeader(c, last), FIXED_SIZE, c.name);
    if c.data == [] then named else Put(named, DataOffset(c), c.data)
  }

  /** Patching a buffer whose first bytes are settled settles more of them. */
  lemma PutNext(b: Bytes, at: nat, part: Bytes, done: Bytes, n: nat)
    requires at + |part| <= |b| == n && |done| <= at && b == done + Zeros(n - |done|)
    ensures Put(b, at, part) == (done + Zeros(at - |done|) + part) + Zeros(n - at - |part|)
  {}

  lemma ZerosNone(b: Bytes)
    ensures b + Zeros(0) == b
  {}

  lemma HeaderIsFixedPart(c: CreateContext, last: bool)
    requires Encodable(c, last)
    ensures PatchedHeader(c, last) == FixedPart(c, last) + Zeros(EncodedLength(c, last) - FIXED_SIZE)
  {
    hide Le, Zeros, Put, PayloadEnd;
    var n := EncodedLength(c, last);
    var w0 := Le(if last then 0 else n, 4);
    var d1 := w0 + Le(FIXED_SIZE, 2);
    var d2 := d1 + Le(|c.name|, 2);
    var d3 := d2 + Le(0, 2);
    var d4 := d3 + Le(DataOffset(c), 2);
    var b0 := Zeros(n);
    assert b0 == [] + Zeros(n);
    ZerosNone([]);
    PutNext(b0, 0, w0, [], n);
    assert [] + w0 == w0;
    var b1 := Put(b0, 0, w0);
    ZerosNone(w0);
    PutNext(b1, 4, Le(FIXED_SIZE, 2), w0, n);
    var b2 := Put(b1, 4, Le(FIXED_SIZE, 2));
    ZerosNone(d1);
    PutNext(b2, 6, Le(|c.name|, 2), d1, n);
    var b3 := Put(b2, 6, Le(|c.name|, 2));
    ZerosNone(d2);
    PutNext(b3, 8, Le(0, 2), d2, n);
    var b4 := Put(b3, 8, Le(0, 2));
    ZerosNone(d3);
    PutNext(b4, 10, Le(DataOffset(c), 2), d3, n);
    ZerosNone(d4);
    PutNext(Put(b4, 10, Le(DataOffset(c), 2)), 12, Le(|c.data|, 4), d4, n);
  }

  /** Patching gives exactly the layout of the format. */
  lemma PatchedIsOne(c: CreateContext, last: bool)
    requires Encodable(c, last)
    ensures Patched(c, last) == One(c, last)
  {
    hide FixedPart, PatchedHeader, Zeros, Put;
    var n, d5 := EncodedLength(c, last), FixedPart(c, last);
    HeaderIsFixedPart(c, last);
    ZerosNone(d5);
    PutNext(PatchedHeader(c, last), FIXED_SIZE, c.name, d5, n);
    var d6 := d5 + c.name;
    if c.data != [] {
      PutNext(Put(PatchedHeader(c, last), FIXED_SIZE, c.name), DataOffset(c), c.data, d6, n);
      assert (d6 + Zeros(DataOffset(c) - |d6|) + c.data) + Zeros(n - PayloadEnd(c))
             == d6 + (Zeros(DataOffset(c) - |d6|) + c.data) + Zeros(n - PayloadEnd(c));
    } else {
      assert d6 + [] == d6;
    }
  }

  lemma {:induction false} EncodedSnoc(cs: seq<CreateContext>, i: nat)
    requires i < |cs|
    ensures Encoded(cs[i..]) == (
              if !Encodable(cs[i], i + 1 == |cs|) then Err(Wire)
              else if Encoded(cs[i + 1..]).Err? then Encoded(cs[i + 1..])
              else Ok(One(cs[i], i + 1 == |cs|) + Encoded(cs[i + 1..]).value))
  {
    hide Encodable, One;
    assert cs[i..][1..] == cs[i + 1..] && cs[i..][0] == cs[i];
  }

  /** Encoding succeeds exactly when every context can be encoded in its place. */
  lemma {:induction false} EncodesExactly(cs: seq<CreateContext>)
    ensures Encoded(cs).Ok? <==> forall i :: 0 <= i < |cs| ==> Encodable(cs[i], i + 1 == |cs|)
  {
    hide Encodable, One;
    if cs != [] {
      var rest := cs[1..];
      EncodesExactly(rest);
      assert forall i :: 0 <= i < |rest| ==> rest[i] == cs[i + 1];
      if forall i :: 0 <= i < |rest| ==> Encodable(rest[i], i + 1 == |rest|) {
        forall i | 1 <= i < |cs| ensures Encodable(cs[i], i + 1 == |cs|) {
          assert Encodable(rest[i - 1], i == |rest|);
        }
      } else {
        var i :| 0 <= i < |rest| && !Encodable(rest[i], i + 1 == |rest|);
        assert !Encodable(cs[i + 1], i + 2 == |cs|);
      }
    }
  }

  /** `encode_create_contexts`: each turn grows the buffer by one zeroed slot and patches it. */
  method EncodeCreateContexts(cs: seq<CreateContext>) returns (r: Result<Bytes>)
    ensures r == Encoded(cs)
  {
    hide Encoded, One, Patched, Encodable;
    var out: Bytes := [];
    assert cs[0..] == cs;
    NoneEncoded(cs);
    for i := 0 to |cs|
      invariant Encoded(cs) == (if Encoded(cs[i..]).Err? then Encoded(cs[i..]) else Ok(out + Encoded(cs[i..]).value))
    {
      EncodedSnoc(cs, i);
      var last := i + 1 == |cs|;
      var slot := EncodeSlot(cs[i], last);
      if slot.Err? {
        return Err(slot.error);
      }
      Regroup(out, slot.value, Encoded(cs[i + 1..]));
      out := out + slot.value;
    }
    assert cs[|cs|..] == [] && out + [] == out;
    return Ok(out);
  }

  lemma NoneEncoded(cs: seq<CreateContext>)
    ensures Encoded([]) == Ok([])
    ensures Encoded(cs).Ok? ==> [] + Encoded(cs).value == Encoded(cs).value
    ensures Encoded(cs).Err? ==> Encoded(cs) == Err(Encoded(cs).error)
  {}

  lemma Regroup(a: Bytes, b: Bytes, rest: Result<Bytes>)
    ensures rest.Ok? ==> a + (b + rest.value) == (a + b) + rest.value
  {}

  /** One slot, with the source's checks in the source's order. */
  method EncodeSlot(c: CreateContext, last: bool) returns (r: Result<Bytes>)
    ensures r == if Encodable(c, last) then Ok(One(c, last)) else Err(Wire)
  {
    hide One, Put, Le;
    if |c.name| < 4 || |c.name| > U16_MAX || |c.data| > U32_MAX {
      return Err(Wire);
    }
    var dataOffset := if c.data == [] then 0 else AlignUp(FIXED_SIZE + |c.name|);
    var payloadEnd := if c.data == [] then FIXED_SIZE + |c.name| else dataOffset + |c.data|;
    var encodedLength := if last then payloadEnd else AlignUp(payloadEnd);
    var slot := Zeros(encodedLength);
    if !last && encodedLength > U32_MAX {
      return Err(Wire);
    }
    slot := Put(slot, 0, Le(if last then 0 else encodedLength, 4));
    slot := Put(slot, 4, Le(FIXED_SIZE, 2));
    slot := Put(slot, 6, Le(|c.name|, 2));
    slot := Put(slot, 8, Le(0, 2));
    if dataOffset > U16_MAX {
      return Err(Wire);
    }
    slot := Put(slot, 10, Le(dataOffset, 2));
    slot := Put(slot, 12, Le(|c.data|, 4));
    slot := Put(slot, FIXED_SIZE, c.name);
    if c.data != [] {
      slot := Put(slot, dataOffset, c.data);
    }
    PatchedIsOne(c, last);
    return Ok(slot);
  }

  /** Where the parts of one encoded context lie, relative to its start. */
  datatype Layout = Layout(next: nat, extent: nat, nameAt: nat, nameLength: nat, dataAt: nat, dataLength: nat)

  /** The decoder's checks of one context at the front of `remaining`. Accepted name and data
      ranges are disjoint and inside the context's own extent. */
  function ParseLayout(remaining: Bytes): (r: Result<Layout>)
    ensures r.Ok? ==>
              var l := r.value;
              && FIXED_SIZE <= l.extent <= |remaining| && (l.next == 0 || l.next == l.extent)
              && FIXED_SIZE <= l.nameAt && l.nameAt + l.nameLength <= l.extent && l.nameLength >= 4
              && (l.dataLength > 0 ==> FIXED_SIZE <= l.dataAt && l.dataAt + l.dataLength <= l.extent)
              && (l.dataLength > 0 ==> l.nameAt + l.nameLength <= l.dataAt || l.dataAt + l.dataLength <= l.nameAt)
  {
    if |remaining| < FIXED_SIZE then Err(Wire)
    else
      var next := Get(remaining, 0, 4);
      if next != 0 && (next < FIXED_SIZE || next % ALIGNMENT != 0 || next > |remaining|) then Err(Wire)
      else
        var extent := if next == 0 then |remaining| else next;
        var nameAt, nameLength := Get(remaining, 4, 2), Get(remaining, 6, 2);
        var dataAt, dataLength := Get(remaining, 10, 2), Get(remaining, 12, 4);
        if Get(remaining, 8, 2) != 0 || nameLength < 4 || nameAt < FIXED_SIZE || nameAt % ALIGNMENT != 0
           || nameAt + nameLength > extent then Err(Wire)
        else if dataLength == 0 then
          if dataAt % ALIGNMENT != 0 then Err(Wire) else Ok(Layout(next, extent, nameAt, nameLength, 0, 0))
        else if dataAt < FIXED_SIZE || dataAt % ALIGNMENT != 0 || dataAt + dataLength > extent
                || (nameAt < dataAt + dataLength && dataAt < nameAt + nameLength) then Err(Wire)
        else Ok(Layout(next, extent, nameAt, nameLength, dataAt, dataLength))
  }

  /** The fixed fields of a context, as the format stores them. */
  predicate HasFields(b: Bytes, next: u32, nameAt: u16, nameLength: u16, reserved: u16, dataAt: u16, dataLength: u32) {
    && |b| >= FIXED_SIZE
    && b[0..4] == Le(next, 4) && b[4..6] == Le(nameAt, 2) && b[6..8] == Le(nameLength, 2)
    && b[8..10] == Le(reserved, 2) && b[10..12] == Le(dataAt, 2) && b[12..16] == Le(dataLength, 4)
  }

  /** A context of `size` bytes and more may be laid out so: everything aligned, name and data behind the
      fixed fields, inside the context and apart from each other. */
  predicate WellLaid(size: nat, next: u32, nameAt: u16, nameLength: u16, dataAt: u16, dataLength: u32) {
    var extent := if next == 0 then size else next;
    && FIXED_SIZE <= extent <= size && next % ALIGNMENT == 0
    && FIXED_SIZE <= nameAt && nameAt % ALIGNMENT == 0 && 4 <= nameLength && nameAt + nameLength <= extent
    && dataAt % ALIGNMENT == 0
    && (dataLength > 0 ==>
          && FIXED_SIZE <= dataAt && dataAt + dataLength <= extent
          && (nameAt + nameLength <= dataAt || dataAt + dataLength <= nameAt))
  }

  /** The decoder accepts exactly the contexts that are laid out so with their reserved field zero. */
  lemma AcceptsExactlyWellLaid(b: Bytes, next: u32, nameAt: u16, nameLength: u16, reserved: u16, dataAt: u16, dataLength: u32)
    requires HasFields(b, next, nameAt, nameLength, reserved, dataAt, dataLength)
    ensures ParseLayout(b).Ok? <==> reserved == 0 && WellLaid(|b|, next, nameAt, nameLength, dataAt, dataLength)
    ensures ParseLayout(b).Ok? ==>
              ParseLayout(b).value == Layout(next, if next == 0 then |b| else next, nameAt, nameLength,
                                             if dataLength == 0 then 0 else dataAt, dataLength)
  {
    hide Le, LeValue, Power;
    Widths();
    LeValueOfLe(next, 4);
    LeValueOfLe(nameAt, 2);
    LeValueOfLe(nameLength, 2);
    LeValueOfLe(reserved, 2);
    LeValueOfLe(dataAt, 2);
    LeValueOfLe(dataLength, 4);
  }

  /** Every long enough input has such fields. */
  lemma FieldsExist(b: Bytes) returns (next: u32, nameAt: u16, nameLength: u16, reserved: u16, dataAt: u16, dataLength: u32)
    requires |b| >= FIXED_SIZE
    ensures HasFields(b, next, nameAt, nameLength, reserved, dataAt, dataLength)
  {
    hide Le, LeValue, Power;
    Widths();
    LeOfLeValue(b[0..4]);
    LeOfLeValue(b[4..6]);
    LeOfLeValue(b[6..8]);
    LeOfLeValue(b[8..10]);
    LeOfLeValue(b[10..12]);
    LeOfLeValue(b[12..16]);
    next, nameAt, nameLength := LeValue(b[0..4]), LeValue(b[4..6]), LeValue(b[6..8]);
    reserved, dataAt, dataLength := LeValue(b[8..10]), LeValue(b[10..12]), LeValue(b[12..16]);
  }

  function Cut(b: Bytes, at: nat, length: nat): Bytes
    requires length > 0 ==> at + length <= |b|
  {
    if length == 0 then [] else b[at..at + length]
  }

  function ContextAt(remaining: Bytes, l: Layout): CreateContext
    requires l.nameAt + l.nameLength <= |remaining| && (l.dataLength > 0 ==> l.dataAt + l.dataLength <= |remaining|)
  {
    CreateContext(remaining[l.nameAt..l.nameAt + l.nameLength], Cut(remaining, l.dataAt, l.dataLength))
  }

  /** The chain from here to its end. */
  function Chain(remaining: Bytes): Result<seq<CreateContext>> {
    match ParseLayout(remaining)
    case Err(e) => Err(e)
    case Ok(l) =>
      var c := ContextAt(remaining, l);
      if l.next == 0 then Ok([c])
      else if l.next >= |remaining| then Err(Wire)
      else
        After([c], Chain(remaining[l.next..]))
  }

  function Decoded(input: Bytes): Result<seq<CreateContext>> {
    if input == [] then Ok([]) else Chain(input)
  }

  /** What the whole decoding gives once `done` has been decoded and `rest` remains. */
  function After(done: seq<CreateContext>, rest: Result<seq<CreateContext>>): Result<seq<CreateContext>> {
    if rest.Err? then rest else Ok(done + rest.value)
  }

  lemma NoneDone(rest: Result<seq<CreateContext>>)
    ensures After([], rest) == rest
  {
    assert rest.Ok? ==> [] + rest.value == rest.value;
  }

  lemma OneMoreDone(done: seq<CreateContext>, c: CreateContext, rest: Result<seq<CreateContext>>)
    ensures After(done, After([c], rest)) == After(done + [c], rest)
  {
    assert rest.Ok? ==> done + ([c] + rest.value) == (done + [c]) + rest.value;
  }

  /** `decode_create_contexts`: a loop over `cursor`, which always advances. */
  method DecodeCreateContexts(input: Bytes) returns (r: Result<seq<CreateContext>>)
    ensures r == Decoded(input)
  {
    hide ParseLayout, After, ContextAt;
    if input == [] {
      return Ok([]);
    }
    var contexts: seq<CreateContext> := [];
    var cursor: nat := 0;
    assert input[0..] == input;
    NoneDone(Chain(input));
    while true
      invariant cursor < |input|
      invariant Decoded(input) == After(contexts, Chain(input[cursor..]))
      decreases |input| - cursor
    {
      var remaining := input[cursor..];
      var layout := ParseLayout(remaining);
      ChainFails(contexts, remaining);
      match layout {
        case Err(e) => return Err(e);
        case Ok(l) =>
          var c := ContextAt(remaining, l);
          ChainEnds(contexts, remaining);
          contexts := contexts + [c];
          if l.next == 0 {
            return Ok(contexts);
          }
          if cursor + l.next >= |input| {
            return Err(Wire);
          }
          OneMoreDone(contexts[..|contexts| - 1], c, Chain(remaining[l.next..]));
          assert remaining[l.next..] == input[cursor + l.next..];
          assert contexts[..|contexts| - 1] + [c] == contexts;
          cursor := cursor + l.next;
      }
    }
  }

  lemma ChainFails(done: seq<CreateContext>, remaining: Bytes)
    ensures ParseLayout(remaining).Err? ==> After(done, Chain(remaining)) == Err(ParseLayout(remaining).error)
  {
    hide ParseLayout, ContextAt;
  }

  lemma ChainEnds(done: seq<CreateContext>, remaining: Bytes)
    requires ParseLayout(remaining).Ok?
    ensures var l := ParseLayout(remaining).value;
            var c := ContextAt(remaining, l);
            After(done, Chain(remaining)) == (
              if l.next == 0 then Ok(done + [c])
              else if l.next >= |remaining| then Err(Wire)
              else After(done, After([c], Chain(remaining[l.next..]))))
  {
    hide ParseLayout, ContextAt;
  }

  /** Decoding the front of an encoded list finds the first context where it was put. */
  lemma LayoutOfOne(c: CreateContext, last: bool, rest: Bytes)
    requires Encodable(c, last) && (last ==> rest == [])
    ensures var b := One(c, last) + rest;
            ParseLayout(b) == Ok(Layout(if last then 0 else EncodedLength(c, last), EncodedLength(c, last),
                                        FIXED_SIZE, |c.name|, DataOffset(c), |c.data|))
  {
    hide Le, Get, Zeros;
    var b := One(c, last) + rest;
    FixedFields(c, last, b);
  }

  lemma SixFields(b: Bytes, p: Bytes, q: Bytes, r: Bytes, s: Bytes, t: Bytes, u: Bytes)
    requires |p| == 4 && |q| == 2 && |r| == 2 && |s| == 2 && |t| == 2 && |u| == 4
    requires |b| >= 16 && b[..16] == p + q + r + s + t + u
    ensures b[0..4] == p && b[4..6] == q && b[6..8] == r && b[8..10] == s && b[10..12] == t && b[12..16] == u
  {
    var f := p + q + r + s + t + u;
    assert b == f + b[16..];
    assert b[0..4] == p;
    assert b[4..6] == q;
    assert b[6..8] == r;
    assert b[8..10] == s;
    assert b[10..12] == t;
    assert b[12..16] == u;
  }

  lemma FixedFields(c: CreateContext, last: bool, b: Bytes)
    requires Encodable(c, last) && |b| >= FIXED_SIZE && b[..FIXED_SIZE] == FixedPart(c, last)
    ensures Get(b, 0, 4) == (if last then 0 else EncodedLength(c, last)) && Get(b, 4, 2) == FIXED_SIZE
    ensures Get(b, 6, 2) == |c.name| && Get(b, 8, 2) == 0 && Get(b, 10, 2) == DataOffset(c) && Get(b, 12, 4) == |c.data|
  {
    hide Le;
    SixFields(b, Le(if last then 0 else EncodedLength(c, last), 4), Le(FIXED_SIZE, 2), Le(|c.name|, 2), Le(0, 2),
              Le(DataOffset(c), 2), Le(|c.data|, 4));
    Widths();
    LeValueOfLe(if last then 0 else EncodedLength(c, last), 4);
    LeValueOfLe(FIXED_SIZE, 2);
    LeValueOfLe(|c.name|, 2);
    LeValueOfLe(0, 2);
    LeValueOfLe(DataOffset(c), 2);
    LeValueOfLe(|c.data|, 4);
  }

  lemma ContextOfOne(c: CreateContext, last: bool, rest: Bytes)
    requires Encodable(c, last)
    ensures var b := One(c, last) + rest;
            b[FIXED_SIZE..FIXED_SIZE + |c.name|] == c.name && (c.data != [] ==> b[DataOffset(c)..DataOffset(c) + |c.data|] == c.data)
    ensures (One(c, last) + rest)[EncodedLength(c, last)..] == rest
  {
    hide FixedPart, Zeros;
  }

  /** Decoding an encoded context with its successors yields it and decodes them. */
  lemma ChainOfOne(c: CreateContext, last: bool, rest: Bytes)
    requires Encodable(c, last) && (last <==> rest == [])
    ensures Chain(One(c, last) + rest) == if last then Ok([c]) else After([c], Chain(rest))
  {
    hide One, Encodable, ParseLayout, DataOffset, EncodedLength;
    var b := One(c, last) + rest;
    LayoutOfOne(c, last, rest);
    ContextOfOne(c, last, rest);
    EncodedSize(c, last);
    var l := ParseLayout(b).value;
    assert b[l.nameAt..l.nameAt + l.nameLength] == c.name;
    assert Cut(b, l.dataAt, l.dataLength) == c.data by {
      if l.dataLength > 0 {
        assert b[l.dataAt..l.dataAt + l.dataLength] == c.data;
      }
    }
    assert ContextAt(b, l) == CreateContext(c.name, c.data) == c;
  }

  /** Whenever encoding succeeds, decoding returns the identical list. */
  lemma {:induction false} RoundTrip(cs: seq<CreateContext>)
    requires Encoded(cs).Ok?
    ensures Decoded(Encoded(cs).value) == Ok(cs)
    ensures cs != [] ==> Encoded(cs).value != []
  {
    hide One, Encodable, Chain;
    if cs != [] {
      var c, last, rest := cs[0], |cs| == 1, Encoded(cs[1..]).value;
      RoundTrip(cs[1..]);
      EncodedSize(c, last);
      ChainOfOne(c, last, rest);
      assert Encoded(cs).value == One(c, last) + rest;
      if last {
        assert cs == [c];
      } else {
        assert Chain(rest) == Ok(cs[1..]);
        assert cs == [c] + cs[1..];
      }
    }
  }

  lemma EncodedSize(c: CreateContext, last: bool)
    requires Encodable(c, last)
    ensures |One(c, last)| == EncodedLength(c, last) >= FIXED_SIZE
    ensures c.data == [] <==> |c.data| == 0
  {}

  /** Where each decoded context starts, and its layout. */
  function Placed(input: Bytes, base: nat): seq<(nat, Layout)>
    requires base <= |input|
    decreases |input| - base
  {
    match ParseLayout(input[base..])
    case Err(_) => []
    case Ok(l) => [(base, l)] + if l.next == 0 then [] else Placed(input, base + l.next)
  }

  predicate OwnStretch(input: Bytes, at: (nat, Layout), c: CreateContext) {
    && at.0 + at.1.extent <= |input|
    && at.1.nameAt + at.1.nameLength <= at.1.extent
    && (at.1.dataLength > 0 ==> at.1.dataAt + at.1.dataLength <= at.1.extent)
    && (at.1.dataLength > 0 ==> at.1.nameAt + at.1.nameLength <= at.1.dataAt || at.1.dataAt + at.1.dataLength <= at.1.nameAt)
    && c == ContextAt(input[at.0..], at.1)
  }

  predicate Ordered(at: seq<(nat, Layout)>, from: nat) {
    && (forall i :: 0 <= i < |at| ==> from <= at[i].0)
    && (forall i, j :: 0 <= i < j < |at| ==> at[i].0 + at[i].1.extent <= at[j].0)
  }

  /** For arbitrary bytes the decoder accepts: every context comes from its own stretch of the
      input, name and data disjoint inside it, later stretches strictly after earlier ones. */
  lemma {:induction false} ContextsDoNotOverlap(input: Bytes, base: nat)
    requires base <= |input| && Chain(input[base..]).Ok?
    ensures var cs, at := Chain(input[base..]).value, Placed(input, base);
            && |cs| == |at| && Ordered(at, base)
            && forall i :: 0 <= i < |at| ==> OwnStretch(input, at[i], cs[i])
    decreases |input| - base
  {
    hide ParseLayout, ContextAt, OwnStretch, Ordered;
    var l := ParseLayout(input[base..]).value;
    FirstStretch(input, base);
    if l.next == 0 {
      LastInOrder(base, l);
      assert [(base, l)] + [] == [(base, l)];
    } else {
      assert input[base..][l.next..] == input[base + l.next..];
      ContextsDoNotOverlap(input, base + l.next);
      var cs, at := Chain(input[base + l.next..]).value, Placed(input, base + l.next);
      FirstInOrder(base, l, at);
      assert Chain(input[base..]).value == [ContextAt(input[base..], l)] + cs;
      assert Placed(input, base) == [(base, l)] + at;
    }
  }

  lemma LastInOrder(base: nat, l: Layout)
    ensures Ordered([(base, l)], base)
  {}

  lemma FirstInOrder(base: nat, l: Layout, at: seq<(nat, Layout)>)
    requires Ordered(at, base + l.extent)
    ensures Ordered([(base, l)] + at, base)
  {
    var all := [(base, l)] + at;
    forall i, j | 0 <= i < j < |all| ensures all[i].0 + all[i].1.extent <= all[j].0 {
      assert all[j] == at[j - 1];
      if i > 0 {
        assert all[i] == at[i - 1];
      }
    }
  }

  lemma FirstStretch(input: Bytes, base: nat)
    requires base <= |input| && ParseLayout(input[base..]).Ok?
    ensures var l := ParseLayout(input[base..]).value;
            && (l.next == 0 || l.next == l.extent) && base + l.extent <= |input|
            && OwnStretch(input, (base, l), ContextAt(input[base..], l))
  {}
}
