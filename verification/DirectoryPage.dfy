/** Pages of FileIdFullDirectoryInformation entries (MS-FSCC section 2.4). */
module DirectoryPages {
  import opened ByteOrder
  import opened Common

  const FIXED_SIZE: nat := 80
  const ALIGNMENT: nat := 8

  datatype QueryError = InvalidData | InvalidUtf16
  datatype Outcome<+T> = Success(value: T) | Failure(error: QueryError)

  /** A Unicode scalar value: a code point that is not a surrogate. */
  type Scalar = x: int | 0 <= x < 0xD800 || 0xE000 <= x < 0x11_0000
  type Name = seq<Scalar>

  datatype Entry = Entry(
    fileIndex: u32, name: Name, creationTime: u64, lastWriteTime: u64, endOfFile: u64, allocationSize: u64, attributes: u32)

  predicate High(unit: u16) { 0xD800 <= unit < 0xDC00 }

  predicate Low(unit: u16) { 0xDC00 <= unit < 0xE000 }

  /** One scalar as one code unit, or as a surrogate pair. */
  function ScalarUnits(c: Scalar): seq<u16> {
    if c < 0x1_0000 then [c]
    else
      var high: u16 := 0xD800 + ((c as int) - 0x1_0000) / 0x400;
      var low: u16 := 0xDC00 + ((c as int) - 0x1_0000) % 0x400;
      [high, low]
  }

  function ToUtf16(name: Name): seq<u16> {
    if name == [] then [] else ScalarUnits(name[0]) + ToUtf16(name[1..])
  }

  /** `String::from_utf16`: fails on any unpaired surrogate. */
  function FromUtf16(units: seq<u16>): Outcome<Name> {
    if units == [] then Success([])
    else if !High(units[0]) && !Low(units[0]) then
      var rest := FromUtf16(units[1..]);
      var c: Scalar := units[0];
      if rest.Failure? then rest else Success([c] + rest.value)
    else if High(units[0]) && |units| > 1 && Low(units[1]) then
      var rest := FromUtf16(units[2..]);
      var c: Scalar := 0x1_0000 + ((units[0] as int) - 0xD800) * 0x400 + ((units[1] as int) - 0xDC00);
      if rest.Failure? then rest else Success([c] + rest.value)
    else Failure(InvalidUtf16)
  }

  lemma {:induction false} Utf16RoundTrip(name: Name)
    ensures FromUtf16(ToUtf16(name)) == Success(name)
  {
    if name != [] {
      Utf16RoundTrip(name[1..]);
      var rest := ToUtf16(name[1..]);
      assert name == [name[0]] + name[1..];
      if name[0] < 0x1_0000 {
        assert ToUtf16(name)[1..] == rest;
      } else {
        assert ToUtf16(name)[2..] == rest;
      }
    }
  }

  lemma ScalarOfUnits(units: seq<u16>)
    requires FromUtf16(units).Success? && units != []
    ensures units == ScalarUnits(FromUtf16(units).value[0]) + units[|ScalarUnits(FromUtf16(units).value[0])|..]
  {}

  /** Distinct code units that decode give distinct names. */
  lemma {:induction false} Utf16Unique(units: seq<u16>)
    requires FromUtf16(units).Success?
    ensures ToUtf16(FromUtf16(units).value) == units
  {
    if units != [] {
      ScalarOfUnits(units);
      var n := if High(units[0]) then 2 else 1;
      Utf16Unique(units[n..]);
      assert FromUtf16(units).value[1..] == FromUtf16(units[n..]).value;
    }
  }

  /** The code units of a name's bytes. */
  function Units(b: Bytes): seq<u16> {
    if |b| < 2 then [] else [(b[0] as int) + (b[1] as int) * 0x100] + Units(b[2..])
  }

  function UnitBytes(units: seq<u16>): (b: Bytes)
    ensures |b| == 2 * |units|
  {
    if units == [] then [] else [units[0] % 0x100, units[0] / 0x100] + UnitBytes(units[1..])
  }

  lemma {:induction false} UnitsOfBytes(units: seq<u16>)
    ensures Units(UnitBytes(units)) == units
  {
    if units != [] {
      UnitsOfBytes(units[1..]);
      assert UnitBytes(units)[2..] == UnitBytes(units[1..]);
      assert units == [units[0]] + units[1..];
    }
  }

  function NameBytes(name: Name): Bytes { UnitBytes(ToUtf16(name)) }

  function NameOf(b: Bytes): Outcome<Name> { FromUtf16(Units(b)) }

  lemma NameRoundTrip(name: Name)
    ensures NameOf(NameBytes(name)) == Success(name) && |NameBytes(name)| % 2 == 0
  {
    UnitsOfBytes(ToUtf16(name));
    Utf16RoundTrip(name);
  }

  lemma NextUnit(b: Bytes, at: nat)
    requires at + 2 <= |b|
    ensures Units(b[at..]) == [(b[at] as int) + (b[at + 1] as int) * 0x100] + Units(b[at + 2..])
  {
    assert b[at..][2..] == b[at + 2..];
  }

  lemma NoUnits(b: Bytes)
    requires |b| < 2
    ensures Units(b) == []
  {}

  /** The loop over `chunks_exact(2)`. */
  method ReadUnits(b: Bytes) returns (units: seq<u16>)
    ensures units == Units(b)
  {
    hide Units;
    units := [];
    var at := 0;
    assert b[0..] == b && [] + Units(b) == Units(b);
    while at + 2 <= |b|
      invariant 0 <= at <= |b| && units + Units(b[at..]) == Units(b)
    {
      NextUnit(b, at);
      var unit: u16 := (b[at] as int) + (b[at + 1] as int) * 0x100;
      assert units + ([unit] + Units(b[at + 2..])) == (units + [unit]) + Units(b[at + 2..]);
      units := units + [unit];
      at := at + 2;
    }
    NoUnits(b[at..]);
  }

  datatype Parsed = Parsed(entry: Entry, next: nat, nameEnd: nat)

  /** The decoder's checks of the entry at the front of `remaining`, in order. */
  function ParseEntry(remaining: Bytes): (r: Outcome<Parsed>)
    ensures r.Success? ==> FIXED_SIZE <= r.value.nameEnd <= |remaining| && r.value.next <= U32_MAX
  {
    if |remaining| < FIXED_SIZE then Failure(InvalidData)
    else
      WidthsOf(remaining);
      var next := Get(remaining, 0, 4);
      var endOfFile, allocation := Get(remaining, 40, 8), Get(remaining, 48, 8);
      if endOfFile > I64_MAX || allocation > I64_MAX then Failure(InvalidData)
      else
        var nameLength := Get(remaining, 60, 4);
        if nameLength % 2 != 0 || FIXED_SIZE + nameLength > |remaining| then Failure(InvalidData)
        else
          var name := NameOf(remaining[FIXED_SIZE..FIXED_SIZE + nameLength]);
          if name.Failure? then Failure(name.error)
          else Success(Parsed(Entry(Get(remaining, 4, 4), name.value, Get(remaining, 8, 8), Get(remaining, 24, 8),
                                    endOfFile, allocation, Get(remaining, 56, 4)), next, FIXED_SIZE + nameLength))
  }

  /** One turn of the decoder: the same checks, the name read by its loop. */
  method ReadEntry(remaining: Bytes) returns (r: Outcome<Parsed>)
    ensures r == ParseEntry(remaining)
  {
    hide Get, FromUtf16, Units;
    if |remaining| < FIXED_SIZE {
      return Failure(InvalidData);
    }
    WidthsOf(remaining);
    var next := Get(remaining, 0, 4);
    var fileIndex := Get(remaining, 4, 4);
    var creation := Get(remaining, 8, 8);
    var lastWrite := Get(remaining, 24, 8);
    var endOfFile := Get(remaining, 40, 8);
    var allocation := Get(remaining, 48, 8);
    if endOfFile > I64_MAX || allocation > I64_MAX {
      return Failure(InvalidData);
    }
    var attributes := Get(remaining, 56, 4);
    var nameLength := Get(remaining, 60, 4);
    if nameLength % 2 != 0 {
      return Failure(InvalidData);
    }
    var nameEnd := FIXED_SIZE + nameLength;
    if nameEnd > |remaining| {
      return Failure(InvalidData);
    }
    var units := ReadUnits(remaining[FIXED_SIZE..nameEnd]);
    var name := FromUtf16(units);
    if name.Failure? {
      return Failure(name.error);
    }
    return Success(Parsed(Entry(fileIndex, name.value, creation, lastWrite, endOfFile, allocation, attributes), next, nameEnd));
  }

  lemma WidthsOf(b: Bytes)
    requires |b| >= FIXED_SIZE
    ensures Get(b, 0, 4) <= U32_MAX && Get(b, 4, 4) <= U32_MAX && Get(b, 8, 8) <= U64_MAX && Get(b, 24, 8) <= U64_MAX
    ensures Get(b, 40, 8) <= U64_MAX && Get(b, 48, 8) <= U64_MAX && Get(b, 56, 4) <= U32_MAX && Get(b, 60, 4) <= U32_MAX
  {
    hide LeValue, Le;
    Widths();
    LeOfLeValue(b[0..4]);
    LeOfLeValue(b[4..8]);
    LeOfLeValue(b[8..16]);
    LeOfLeValue(b[24..32]);
    LeOfLeValue(b[40..48]);
    LeOfLeValue(b[48..56]);
    LeOfLeValue(b[56..60]);
    LeOfLeValue(b[60..64]);
  }

  /** Whether the offset of the next entry can be followed. */
  predicate Follows(p: Parsed, length: nat) {
    p.nameEnd <= p.next <= length && p.next % ALIGNMENT == 0
  }

  function After(done: seq<Entry>, rest: Outcome<seq<Entry>>): Outcome<seq<Entry>> {
    if rest.Failure? then rest else Success(done + rest.value)
  }

  /** The entries from here to the end of the page. */
  function Entries(remaining: Bytes): Outcome<seq<Entry>> {
    if remaining == [] then Success([])
    else
      match ParseEntry(remaining)
      case Failure(e) => Failure(e)
      case Success(p) =>
        if p.next == 0 then Success([p.entry])
        else if !Follows(p, |remaining|) then Failure(InvalidData)
        else After([p.entry], Entries(remaining[p.next..]))
  }

  lemma NoneDone(rest: Outcome<seq<Entry>>)
    ensures After([], rest) == rest
  {
    assert rest.Success? ==> [] + rest.value == rest.value;
  }

  lemma OneMoreDone(done: seq<Entry>, e: Entry, rest: Outcome<seq<Entry>>)
    ensures After(done, After([e], rest)) == After(done + [e], rest)
  {
    assert rest.Success? ==> done + ([e] + rest.value) == (done + [e]) + rest.value;
  }

  /** `decode_file_id_full_directory_metadata`: a loop over `offset`, which always advances. */
  method DecodePage(buffer: Bytes) returns (r: Outcome<seq<Entry>>)
    ensures r == Entries(buffer)
  {
    hide ParseEntry, After;
    var entries: seq<Entry> := [];
    var offset: nat := 0;
    assert buffer[0..] == buffer;
    NoneDone(Entries(buffer));
    while offset < |buffer|
      invariant offset <= |buffer|
      invariant Entries(buffer) == After(entries, Entries(buffer[offset..]))
    {
      var remaining := buffer[offset..];
      StepFails(entries, remaining);
      var parsed := ReadEntry(remaining);
      match parsed {
        case Failure(e) => return Failure(e);
        case Success(p) =>
          StepGoes(entries, remaining);
          if p.next == 0 {
            return Success(entries + [p.entry]);
          }
          if p.next < p.nameEnd || p.next > |remaining| || p.next % ALIGNMENT != 0 {
            return Failure(InvalidData);
          }
          OneMoreDone(entries, p.entry, Entries(remaining[p.next..]));
          assert remaining[p.next..] == buffer[offset + p.next..];
          entries := entries + [p.entry];
          offset := offset + p.next;
      }
    }
    AllDone(entries);
    return Success(entries);
  }

  lemma AllDone(done: seq<Entry>)
    ensures After(done, Entries([])) == Success(done)
  {
    assert done + [] == done;
  }

  lemma StepFails(done: seq<Entry>, remaining: Bytes)
    requires remaining != []
    ensures ParseEntry(remaining).Failure? ==> After(done, Entries(remaining)) == Failure(ParseEntry(remaining).error)
  {
    hide ParseEntry;
  }

  lemma StepGoes(done: seq<Entry>, remaining: Bytes)
    requires remaining != [] && ParseEntry(remaining).Success?
    ensures var p := ParseEntry(remaining).value;
            After(done, Entries(remaining)) == (
              if p.next == 0 then Success(done + [p.entry])
              else if !Follows(p, |remaining|) then Failure(InvalidData)
              else After(done, After([p.entry], Entries(remaining[p.next..]))))
  {
    hide ParseEntry;
  }

  /** An entry as a server lays it out, including the fields the client ignores. */
  datatype Record = Record(
    entry: Entry, lastAccess: u64, changeTime: u64, eaSize: u32, reserved: u32, fileId: u64, padding: Bytes)

  function RecordLength(r: Record): nat { FIXED_SIZE + |NameBytes(r.entry.name)| + |r.padding| }

  /** The widths and the alignment the format demands of an entry in its place. */
  predicate Placeable(r: Record, last: bool) {
    && |NameBytes(r.entry.name)| <= U32_MAX && r.entry.endOfFile <= I64_MAX && r.entry.allocationSize <= I64_MAX
    && (last || (RecordLength(r) % ALIGNMENT == 0 && RecordLength(r) <= U32_MAX))
  }

  function FixedPart(r: Record, last: bool): (b: Bytes)
    ensures |b| == FIXED_SIZE
  {
    Le(if last then 0 else RecordLength(r), 4) + Le(r.entry.fileIndex, 4) + Le(r.entry.creationTime, 8)
    + Le(r.lastAccess, 8) + Le(r.entry.lastWriteTime, 8) + Le(r.changeTime, 8)
    + Le(r.entry.endOfFile, 8) + Le(r.entry.allocationSize, 8) + Le(r.entry.attributes, 4)
    + Le(|NameBytes(r.entry.name)|, 4) + Le(r.eaSize, 4) + Le(r.reserved, 4) + Le(r.fileId, 8)
  }

  function One(r: Record, last: bool): Bytes {
    FixedPart(r, last) + NameBytes(r.entry.name) + r.padding
  }

  /** A page of entries, one after the other. The last NextEntryOffset is zero if the page `stops`; otherwise
      it points to the page's end, which the decoder takes as well. */
  function Page(rs: seq<Record>, stops: bool): Bytes {
    if rs == [] then [] else One(rs[0], stops && |rs| == 1) + Page(rs[1..], stops)
  }

  ghost predicate AllPlaceable(rs: seq<Record>, stops: bool) {
    forall i :: 0 <= i < |rs| ==> Placeable(rs[i], stops && i + 1 == |rs|)
  }

  function Seen(rs: seq<Record>): seq<Entry> { seq(|rs|, i requires 0 <= i < |rs| => rs[i].entry) }

  /** The two halves of the fixed part, each at its offsets. */
  lemma FrontFields(b: Bytes, n: Bytes, i: Bytes, c: Bytes, a: Bytes, w: Bytes, h: Bytes, rest: Bytes)
    requires |n| == 4 && |i| == 4 && |c| == 8 && |a| == 8 && |w| == 8 && |h| == 8
    requires b == n + i + c + a + w + h + rest
    ensures b[0..4] == n && b[4..8] == i && b[8..16] == c && b[24..32] == w && b[40..] == rest
  {
    assert b[0..4] == n;
    assert b[4..8] == i;
    assert b[8..16] == c;
    assert b[24..32] == w;
    assert b[40..] == rest;
  }

  lemma BackFields(b: Bytes, e: Bytes, l: Bytes, t: Bytes, n: Bytes, rest: Bytes)
    requires |e| == 8 && |l| == 8 && |t| == 4 && |n| == 4
    requires |b| >= 40 && b[40..] == e + l + t + n + rest
    ensures |b| >= 64 && b[40..48] == e && b[48..56] == l && b[56..60] == t && b[60..64] == n
  {
    assert b == b[..40] + (e + l + t + n + rest);
    assert b[40..48] == e;
    assert b[48..56] == l;
    assert b[56..60] == t;
    assert b[60..64] == n;
  }

  lemma FixedFields(r: Record, last: bool, rest: Bytes)
    ensures var b := FixedPart(r, last) + rest;
            && b[0..4] == Le(if last then 0 else RecordLength(r), 4) && b[4..8] == Le(r.entry.fileIndex, 4)
            && b[8..16] == Le(r.entry.creationTime, 8) && b[24..32] == Le(r.entry.lastWriteTime, 8)
            && b[40..48] == Le(r.entry.endOfFile, 8) && b[48..56] == Le(r.entry.allocationSize, 8)
            && b[56..60] == Le(r.entry.attributes, 4) && b[60..64] == Le(|NameBytes(r.entry.name)|, 4)
  {
    hide Le, NameBytes, RecordLength;
    var b := FixedPart(r, last) + rest;
    var tail := Le(r.eaSize, 4) + Le(r.reserved, 4) + Le(r.fileId, 8) + rest;
    var back := Le(r.entry.endOfFile, 8) + Le(r.entry.allocationSize, 8) + Le(r.entry.attributes, 4)
                + Le(|NameBytes(r.entry.name)|, 4) + tail;
    FrontFields(b, Le(if last then 0 else RecordLength(r), 4), Le(r.entry.fileIndex, 4), Le(r.entry.creationTime, 8),
                Le(r.lastAccess, 8), Le(r.entry.lastWriteTime, 8), Le(r.changeTime, 8), back);
    BackFields(b, Le(r.entry.endOfFile, 8), Le(r.entry.allocationSize, 8), Le(r.entry.attributes, 4),
               Le(|NameBytes(r.entry.name)|, 4), tail);
  }

  /** Parsing the front of a page finds the entry that was put there. */
  lemma ParseOfOne(r: Record, last: bool, rest: Bytes)
    requires Placeable(r, last)
    ensures ParseEntry(One(r, last) + rest)
            == Success(Parsed(r.entry, if last then 0 else RecordLength(r), FIXED_SIZE + |NameBytes(r.entry.name)|))
  {
    hide Le, LeValue, FixedPart, NameBytes, NameOf, Power;
    var b := One(r, last) + rest;
    assert b == FixedPart(r, last) + (NameBytes(r.entry.name) + r.padding + rest);
    FixedFields(r, last, NameBytes(r.entry.name) + r.padding + rest);
    Widths();
    LeValueOfLe(if last then 0 else RecordLength(r), 4);
    LeValueOfLe(r.entry.fileIndex, 4);
    LeValueOfLe(r.entry.creationTime, 8);
    LeValueOfLe(r.entry.lastWriteTime, 8);
    LeValueOfLe(r.entry.endOfFile, 8);
    LeValueOfLe(r.entry.allocationSize, 8);
    LeValueOfLe(r.entry.attributes, 4);
    LeValueOfLe(|NameBytes(r.entry.name)|, 4);
    NameRoundTrip(r.entry.name);
    assert b[FIXED_SIZE..FIXED_SIZE + |NameBytes(r.entry.name)|] == NameBytes(r.entry.name);
  }

  /** Decoding inverts the reference layout: whatever the padding and the ignored fields hold, a
      page yields exactly the entries it was built from. */
  lemma {:induction false} DecodeInvertsPage(rs: seq<Record>, stops: bool)
    requires AllPlaceable(rs, stops)
    ensures Entries(Page(rs, stops)) == Success(Seen(rs))
  {
    hide One, Placeable, ParseEntry, NameBytes;
    if rs != [] {
      var r, last, rest := rs[0], stops && |rs| == 1, Page(rs[1..], stops);
      assert forall i :: 0 <= i < |rs[1..]| ==> rs[1..][i] == rs[i + 1];
      DecodeInvertsPage(rs[1..], stops);
      ParseOfOne(r, last, rest);
      OneLength(r, last);
      assert Seen(rs) == [r.entry] + Seen(rs[1..]);
      assert (One(r, last) + rest)[RecordLength(r)..] == rest;
      assert Page(rs, stops) == One(r, last) + rest;
      var p := ParseEntry(Page(rs, stops)).value;
      if last {
        assert Seen(rs) == [r.entry];
      } else {
        assert Follows(p, |Page(rs, stops)|) && p.next != 0;
        assert Entries(Page(rs, stops)) == After([r.entry], Entries(rest));
      }
    }
  }

  lemma OneLength(r: Record, last: bool)
    requires Placeable(r, last)
    ensures |One(r, last)| == RecordLength(r) >= FIXED_SIZE + |NameBytes(r.entry.name)|
    ensures !last ==> RecordLength(r) % ALIGNMENT == 0
  {}

  lemma {:induction false} BytesOfUnits(b: Bytes)
    requires |b| % 2 == 0
    ensures UnitBytes(Units(b)) == b
  {
    if b != [] {
      BytesOfUnits(b[2..]);
      var unit := (b[0] as int) + (b[1] as int) * 0x100;
      assert unit % 0x100 == b[0] as int && unit / 0x100 == b[1] as int;
      assert Units(b)[1..] == Units(b[2..]);
      assert b == [b[0], b[1]] + b[2..];
    }
  }

  lemma NameUnique(b: Bytes)
    requires |b| % 2 == 0 && NameOf(b).Success?
    ensures NameBytes(NameOf(b).value) == b
  {
    BytesOfUnits(b);
    Utf16Unique(Units(b));
  }

  lemma FieldUnique(b: Bytes, at: nat, k: nat)
    requires at + k <= |b|
    ensures Get(b, at, k) < Power(k) && Le(Get(b, at, k), k) == b[at..at + k]
  {
    LeOfLeValue(b[at..at + k]);
  }

  /** The fixed part, field by field. */
  lemma FixedSplit(b: Bytes)
    requires |b| >= FIXED_SIZE
    ensures b[..FIXED_SIZE] == b[0..4] + b[4..8] + b[8..16] + b[16..24] + b[24..32] + b[32..40]
                               + b[40..48] + b[48..56] + b[56..60] + b[60..64] + b[64..68] + b[68..72] + b[72..80]
  {
    assert b[..40] == b[0..4] + b[4..8] + b[8..16] + b[16..24] + b[24..32] + b[32..40];
    assert b[40..80] == b[40..48] + b[48..56] + b[56..60] + b[60..64] + b[64..68] + b[68..72] + b[72..80];
    assert b[..FIXED_SIZE] == b[..40] + b[40..80];
  }

  /** The fields the decoder does not read. */
  lemma IgnoredWidths(b: Bytes)
    requires |b| >= FIXED_SIZE
    ensures Get(b, 16, 8) <= U64_MAX && Get(b, 32, 8) <= U64_MAX && Get(b, 64, 4) <= U32_MAX
    ensures Get(b, 68, 4) <= U32_MAX && Get(b, 72, 8) <= U64_MAX
  {
    hide LeValue, Le, Get;
    Widths();
    FieldUnique(b, 16, 8);
    FieldUnique(b, 32, 8);
    FieldUnique(b, 64, 4);
    FieldUnique(b, 68, 4);
    FieldUnique(b, 72, 8);
  }

  /** The record that `b[..size]` lays out. */
  function RecordOf(b: Bytes, size: nat): Record
    requires ParseEntry(b).Success? && ParseEntry(b).value.nameEnd <= size <= |b|
  {
    IgnoredWidths(b);
    var p := ParseEntry(b).value;
    Record(p.entry, Get(b, 16, 8), Get(b, 32, 8), Get(b, 64, 4), Get(b, 68, 4), Get(b, 72, 8), b[p.nameEnd..size])
  }

  /** How much of `b` its first entry takes. */
  function Extent(p: Parsed, length: nat): nat { if p.next == 0 then length else p.next }

  lemma ParsedName(b: Bytes)
    requires ParseEntry(b).Success?
    ensures var p := ParseEntry(b).value;
            && p.nameEnd <= |b| && NameBytes(p.entry.name) == b[FIXED_SIZE..p.nameEnd] && Get(b, 60, 4) == p.nameEnd - FIXED_SIZE
  {
    hide Get, NameOf, NameBytes;
    NameUnique(b[FIXED_SIZE..ParseEntry(b).value.nameEnd]);
  }

  lemma ParsedFields(b: Bytes)
    requires ParseEntry(b).Success?
    ensures var p := ParseEntry(b).value;
            && Get(b, 0, 4) == p.next
            && p.entry == Entry(Get(b, 4, 4), p.entry.name, Get(b, 8, 8), Get(b, 24, 8), Get(b, 40, 8), Get(b, 48, 8), Get(b, 56, 4))
            && p.entry.endOfFile <= I64_MAX && p.entry.allocationSize <= I64_MAX
  {
    hide Get, NameOf;
    WidthsOf(b);
  }

  /** The bytes of an accepted entry are the layout of one record. */
  lemma OneOfParsed(b: Bytes)
    requires ParseEntry(b).Success? && (ParseEntry(b).value.next == 0 || Follows(ParseEntry(b).value, |b|))
    ensures var p := ParseEntry(b).value;
            var size := Extent(p, |b|);
            && p.nameEnd <= size <= |b| && RecordOf(b, size).entry == p.entry
            && Placeable(RecordOf(b, size), p.next == 0) && One(RecordOf(b, size), p.next == 0) == b[..size]
  {
    hide Get, ParseEntry, NameOf, NameBytes, Le;
    var p := ParseEntry(b).value;
    var size := Extent(p, |b|);
    ParsedBounds(b);
    ParsedName(b);
    ParsedFields(b);
    WidthsOf(b);
    var r := RecordOf(b, size);
    FixedOfParsed(b, r, p.next == 0);
    assert b[..size] == b[..FIXED_SIZE] + b[FIXED_SIZE..p.nameEnd] + b[p.nameEnd..size];
  }

  lemma FixedOfParsed(b: Bytes, r: Record, last: bool)
    requires |b| >= FIXED_SIZE && Get(b, 0, 4) == (if last then 0 else RecordLength(r))
    requires Get(b, 4, 4) == r.entry.fileIndex && Get(b, 8, 8) == r.entry.creationTime && Get(b, 16, 8) == r.lastAccess
    requires Get(b, 24, 8) == r.entry.lastWriteTime && Get(b, 32, 8) == r.changeTime && Get(b, 40, 8) == r.entry.endOfFile
    requires Get(b, 48, 8) == r.entry.allocationSize && Get(b, 56, 4) == r.entry.attributes
    requires Get(b, 60, 4) == |NameBytes(r.entry.name)| && Get(b, 64, 4) == r.eaSize && Get(b, 68, 4) == r.reserved
    requires Get(b, 72, 8) == r.fileId
    ensures FixedPart(r, last) == b[..FIXED_SIZE]
  {
    hide Get, NameBytes, Le, RecordLength;
    FixedSplit(b);
    FieldUnique(b, 0, 4);
    FieldUnique(b, 4, 4);
    FieldUnique(b, 8, 8);
    FieldUnique(b, 16, 8);
    FieldUnique(b, 24, 8);
    FieldUnique(b, 32, 8);
    FieldUnique(b, 40, 8);
    FieldUnique(b, 48, 8);
    FieldUnique(b, 56, 4);
    FieldUnique(b, 60, 4);
    FieldUnique(b, 64, 4);
    FieldUnique(b, 68, 4);
    FieldUnique(b, 72, 8);
  }

  /** Every accepted page is the layout of the records it yields. */
  lemma {:induction false} AcceptedIsPage(buffer: Bytes) returns (rs: seq<Record>, stops: bool)
    requires Entries(buffer).Success?
    ensures AllPlaceable(rs, stops) && buffer == Page(rs, stops) && Seen(rs) == Entries(buffer).value
  {
    hide ParseEntry, Placeable, One, RecordOf;
    if buffer == [] {
      return [], true;
    }
    var p := ParseEntry(buffer).value;
    OneOfParsed(buffer);
    var size := Extent(p, |buffer|);
    var r, rest := RecordOf(buffer, size), buffer[size..];
    assert buffer == buffer[..size] + rest;
    if p.next == 0 {
      rs, stops := [r], true;
      assert Page(rs[1..], true) == [];
    } else {
      var others, ends := AcceptedIsPage(rest);
      rs, stops := [r] + others, others != [] && ends;
      assert others == [] ==> Page(others, stops) == Page(others, ends);
      assert rs[1..] == others && Seen(rs) == [r.entry] + Seen(others);
    }
  }

  /** The decoder accepts exactly the pages of the reference layout, and yields their entries. */
  lemma AcceptsExactlyPages(buffer: Bytes, es: seq<Entry>)
    ensures Entries(buffer) == Success(es) <==>
            exists rs, stops :: AllPlaceable(rs, stops) && buffer == Page(rs, stops) && Seen(rs) == es
  {
    hide Entries, Page, AllPlaceable, Seen;
    if Entries(buffer) == Success(es) {
      var rs, stops := AcceptedIsPage(buffer);
    }
    forall rs, stops | AllPlaceable(rs, stops) && buffer == Page(rs, stops) && Seen(rs) == es
      ensures Entries(buffer) == Success(es)
    {
      DecodeInvertsPage(rs, stops);
    }
  }

  /** Where each decoded entry starts. */
  function Offsets(buffer: Bytes, base: nat): seq<nat>
    requires base <= |buffer|
    decreases |buffer| - base
  {
    if base == |buffer| then []
    else
      match ParseEntry(buffer[base..])
      case Failure(_) => []
      case Success(p) =>
        [base] + if p.next == 0 || !Follows(p, |buffer| - base) then [] else Offsets(buffer, base + p.next)
  }

  predicate Increasing(at: seq<nat>, from: nat, to: nat) {
    && (forall i :: 0 <= i < |at| ==> from <= at[i] && at[i] + FIXED_SIZE <= to)
    && (forall i, j :: 0 <= i < j < |at| ==> at[i] + FIXED_SIZE <= at[j])
  }

  predicate EntryAt(buffer: Bytes, at: nat, e: Entry) {
    at < |buffer| && ParseEntry(buffer[at..]).Success? && ParseEntry(buffer[at..]).value.entry == e
  }

  /** Whatever bytes are accepted, the entries come from strictly increasing offsets at least one
      fixed part apart, each parsed from its own offset. */
  lemma {:induction false} OffsetsIncrease(buffer: Bytes, base: nat)
    requires base <= |buffer| && Entries(buffer[base..]).Success?
    ensures var es, at := Entries(buffer[base..]).value, Offsets(buffer, base);
            && |es| == |at| && Increasing(at, base, |buffer|)
            && forall i :: 0 <= i < |at| ==> EntryAt(buffer, at[i], es[i])
    decreases |buffer| - base
  {
    hide ParseEntry, Increasing;
    if base == |buffer| {
      NoneIncrease(base);
    } else {
      var p := ParseEntry(buffer[base..]).value;
      ParsedBounds(buffer[base..]);
      if p.next == 0 {
        OneIncreases(base, |buffer|);
        assert [base] + [] == [base];
      } else {
        assert buffer[base..][p.next..] == buffer[base + p.next..];
        OffsetsIncrease(buffer, base + p.next);
        var es, at := Entries(buffer[base + p.next..]).value, Offsets(buffer, base + p.next);
        MoreIncrease(base, base + p.next, |buffer|, at);
        assert Entries(buffer[base..]).value == [p.entry] + es;
        assert Offsets(buffer, base) == [base] + at;
      }
    }
  }

  lemma ParsedBounds(b: Bytes)
    requires ParseEntry(b).Success?
    ensures FIXED_SIZE <= ParseEntry(b).value.nameEnd <= |b|
  {}

  lemma NoneIncrease(n: nat)
    ensures Increasing([], n, n)
  {}

  lemma OneIncreases(base: nat, end: nat)
    requires base + FIXED_SIZE <= end
    ensures Increasing([base], base, end)
  {}

  lemma MoreIncrease(base: nat, next: nat, end: nat, at: seq<nat>)
    requires base + FIXED_SIZE <= next <= end && Increasing(at, next, end)
    ensures Increasing([base] + at, base, end)
  {
    var all := [base] + at;
    forall i, j | 0 <= i < j < |all| ensures all[i] + FIXED_SIZE <= all[j] {
      assert all[j] == at[j - 1];
      if i > 0 {
        assert all[i] == at[i - 1];
      }
    }
  }
}
