/** DER tag-length-value encoding (X.690 section 10.1) and the SPNEGO wrappers around NTLM tokens
    (RFC 4178 section 4.2). */
module Spnego {
  import opened ByteOrder
  import opened Common

  const NTLMSSP_SIGNATURE: Bytes := [0x4E, 0x54, 0x4C, 0x4D, 0x53, 0x53, 0x50, 0]
  const SPNEGO_OID: Bytes := [0x2b, 0x06, 0x01, 0x05, 0x05, 0x02]
  const NTLMSSP_OID: Bytes := [0x2b, 0x06, 0x01, 0x04, 0x01, 0x82, 0x37, 0x02, 0x02, 0x0a]
  const MAX_DER_DEPTH: nat := 12

  /** The shortest big-endian representation; empty for zero. */
  function BytesOf(n: nat): Bytes {
    if n == 0 then [] else BytesOf(n / 0x100) + [n % 0x100]
  }

  function ValueOf(b: Bytes): nat {
    if b == [] then 0 else ValueOf(b[..|b| - 1]) * 0x100 + b[|b| - 1]
  }

  lemma {:induction false} ValueOfBytesOf(n: nat)
    ensures ValueOf(BytesOf(n)) == n && (n > 0 ==> BytesOf(n) != [] && BytesOf(n)[0] != 0)
  {
    if n > 0 {
      ValueOfBytesOf(n / 0x100);
      assert BytesOf(n)[..|BytesOf(n)| - 1] == BytesOf(n / 0x100);
    }
  }

  lemma {:induction false} BytesOfValue(b: Bytes)
    requires b == [] || b[0] != 0
    ensures BytesOf(ValueOf(b)) == b && (b != [] ==> ValueOf(b) > 0)
  {
    if b != [] {
      BytesOfValue(b[..|b| - 1]);
      assert b == b[..|b| - 1] + [b[|b| - 1]];
    }
  }

  /** `n` takes at most `k` bytes exactly when it is below 256 to the `k`. */
  lemma {:induction false} ByteCount(n: nat, k: nat)
    ensures |BytesOf(n)| <= k <==> n < Power(k)
    decreases k
  {
    if n > 0 && k > 0 {
      ByteCount(n / 0x100, k - 1);
      assert n / 0x100 < Power(k - 1) <==> n < Power(k - 1) * 0x100;
    }
  }

  lemma U64TakesEightBytes(n: u64)
    ensures |BytesOf(n)| <= 8
  {
    ByteCount(n, 8);
    assert Power(8) == U64_MAX + 1 by {
      assert Power(4) == 0x1_0000_0000;
    }
  }

  /** DER length octets: short form below 128, else the count of minimal big-endian octets. */
  function LengthOctets(n: nat): Bytes
    requires n <= U64_MAX
  {
    if n < 128 then [n]
    else
      U64TakesEightBytes(n);
      [0x80 + |BytesOf(n)|] + BytesOf(n)
  }

  predicate Sized(content: Bytes) { |content| <= U64_MAX }

  /** `der_tlv`: tag, length octets, content. */
  function Tlv(tag: byte, content: Bytes): Bytes
    requires Sized(content)
  {
    [tag] + LengthOctets(|content|) + content
  }

  /** Fixed-width big-endian, as machine words are stored. */
  function BigEndian(n: nat, width: nat): (b: Bytes)
    ensures |b| == width
  {
    if width == 0 then [] else BigEndian(n / 0x100, width - 1) + [n % 0x100]
  }

  /** Dropping leading zeros from the machine word leaves the shortest form. */
  lemma {:induction false} LeadingZeros(n: nat, width: nat)
    requires |BytesOf(n)| <= width
    ensures BigEndian(n, width) == seq(width - |BytesOf(n)|, i => 0) + BytesOf(n)
  {
    if width > 0 {
      if n == 0 {
        LeadingZeros(0, width - 1);
      } else {
        LeadingZeros(n / 0x100, width - 1);
      }
    }
  }

  /** A nonzero machine word is its leading zeros followed by its shortest form. */
  lemma WordForm(n: nat) returns (zeros: nat)
    requires 0 < n <= U64_MAX
    ensures zeros < 8 && BigEndian(n, 8)[zeros] != 0 && BigEndian(n, 8)[zeros..] == BytesOf(n)
    ensures forall i :: 0 <= i < zeros ==> BigEndian(n, 8)[i] == 0
  {
    hide BigEndian, BytesOf;
    U64TakesEightBytes(n);
    LeadingZeros(n, 8);
    ValueOfBytesOf(n);
    zeros := 8 - |BytesOf(n)|;
    assert BigEndian(n, 8)[zeros..] == BytesOf(n);
  }

  /** Appends the length octets to `out`, finding the first nonzero byte of the machine word. */
  method EncodeDerLength(length: u64, out: Bytes) returns (r: Bytes)
    ensures r == out + LengthOctets(length)
  {
    hide BigEndian, BytesOf;
    if length < 128 {
      return out + [length];
    }
    var word := BigEndian(length, 8);
    ghost var zeros := WordForm(length);
    var first := 0;
    while first < 7 && word[first] == 0
      invariant first <= zeros
    {
      first := first + 1;
    }
    return out + [0x80 + |word[first..]|] + word[first..];
  }

  method DerTlv(tag: byte, content: Bytes) returns (out: Bytes)
    requires Sized(content)
    ensures out == Tlv(tag, content)
  {
    out := [tag];
    out := EncodeDerLength(|content|, out);
    out := out + content;
  }

  datatype Parsed = Parsed(tag: byte, content: Bytes, consumed: nat)

  datatype Length = Length(value: nat, octets: nat)

  /** The length field after the tag: short form, or a minimal long form of at most eight octets. */
  function ParseLength(input: Bytes): Result<Length>
    requires |input| >= 2
  {
    var first := input[1];
    if first < 0x80 then Ok(Length(first, 1))
    else
      var count := first - 0x80;
      if count == 0 || count > 8 || |input| < 2 + count then Err(Auth)
      else if input[2] == 0 then Err(Auth)
      else
        var value := ValueOf(input[2..2 + count]);
        if value > U64_MAX || value < 128 then Err(Auth) else Ok(Length(value, 1 + count))
  }

  /** One TLV at the front of `input`. */
  function Parse(input: Bytes): (r: Result<Parsed>)
    ensures r.Ok? ==> 2 <= r.value.consumed <= |input| && |r.value.content| <= r.value.consumed - 2
  {
    if |input| < 2 then Err(Auth)
    else
      var length := ParseLength(input);
      if length.Err? then Err(length.error)
      else
        var header := 1 + length.value.octets;
        var end := header + length.value.value;
        if end > U64_MAX || end > |input| then Err(Auth)
        else Ok(Parsed(input[0], input[header..end], end))
  }

  /** `parse_tlv`, accumulating the long-form length octet by octet with overflow checks. */
  method ParseTlv(input: Bytes) returns (r: Result<Parsed>)
    ensures r == Parse(input)
  {
    if |input| < 2 {
      return Err(Auth);
    }
    var length, octets := input[1] as int, 1;
    if input[1] >= 0x80 {
      var count := input[1] - 0x80;
      if count == 0 || count > 8 || |input| < 2 + count {
        return Err(Auth);
      }
      if input[2] == 0 {
        return Err(Auth);
      }
      var value: nat := 0;
      for i := 0 to count
        invariant value == ValueOf(input[2..2 + i])
      {
        NextOctet(input, i);
        if value * 0x100 + input[2 + i] > U64_MAX {
          OnlyGrows(input, i + 1, count);
          return Err(Auth);
        }
        value := value * 0x100 + input[2 + i];
      }
      if value < 128 {
        return Err(Auth);
      }
      length, octets := value, 1 + count;
    }
    var header := 1 + octets;
    var end := header + length;
    if end > U64_MAX || end > |input| {
      return Err(Auth);
    }
    return Ok(Parsed(input[0], input[header..end], end));
  }

  lemma NextOctet(input: Bytes, i: nat)
    requires 2 + i < |input|
    ensures ValueOf(input[2..2 + i + 1]) == ValueOf(input[2..2 + i]) * 0x100 + input[2 + i]
  {
    assert input[2..2 + i + 1][..i] == input[2..2 + i];
  }

  lemma {:induction false} OnlyGrows(input: Bytes, i: nat, j: nat)
    requires i <= j && 2 + j <= |input|
    ensures ValueOf(input[2..2 + i]) <= ValueOf(input[2..2 + j])
    decreases j
  {
    if i < j {
      OnlyGrows(input, i, j - 1);
      NextOctet(input, j - 1);
    }
  }

  lemma LengthOctetsSize(n: nat)
    requires n <= U64_MAX
    ensures 1 <= |LengthOctets(n)| <= 9
  {
    U64TakesEightBytes(n);
  }

  lemma ParseLengthInverts(tag: byte, n: nat, rest: Bytes)
    requires n <= U64_MAX
    ensures |[tag] + LengthOctets(n) + rest| >= 2
    ensures ParseLength([tag] + LengthOctets(n) + rest) == Ok(Length(n, |LengthOctets(n)|))
  {
    hide ValueOf, BytesOf;
    var input := [tag] + LengthOctets(n) + rest;
    assert input[1] == LengthOctets(n)[0];
    if n >= 128 {
      U64TakesEightBytes(n);
      ValueOfBytesOf(n);
      assert input[2..2 + |BytesOf(n)|] == BytesOf(n);
    }
  }

  /** Parsing an encoded TLV, whatever follows it, returns its tag and content and consumes exactly
      its encoding. */
  lemma ParseInvertsTlv(tag: byte, content: Bytes, rest: Bytes)
    requires |content| <= U64_MAX && |Tlv(tag, content)| <= U64_MAX
    ensures Parse(Tlv(tag, content) + rest) == Ok(Parsed(tag, content, |Tlv(tag, content)|))
  {
    hide ValueOf, BytesOf, LengthOctets, ParseLength;
    var n, octets := |content|, LengthOctets(|content|);
    var input := Tlv(tag, content) + rest;
    LengthOctetsSize(n);
    assert input == [tag] + octets + (content + rest);
    ParseLengthInverts(tag, n, content + rest);
    assert input[1 + |octets|..1 + |octets| + n] == content;
  }

  lemma LengthIsUnique(input: Bytes)
    requires |input| >= 2 && ParseLength(input).Ok?
    ensures var length := ParseLength(input).value;
            length.value <= U64_MAX && 1 + length.octets <= |input| && input[1..1 + length.octets] == LengthOctets(length.value)
  {
    hide ValueOf, BytesOf;
    var length := ParseLength(input).value;
    if input[1] >= 0x80 {
      var octets := input[2..2 + length.octets - 1];
      BytesOfValue(octets);
      assert input[1..1 + length.octets] == [input[1]] + octets;
    }
  }

  /** Any accepted prefix is the one encoding of what was parsed. */
  lemma ParsedIsUniqueEncoding(input: Bytes)
    requires Parse(input).Ok?
    ensures var p := Parse(input).value;
            Sized(p.content) && input[..p.consumed] == Tlv(p.tag, p.content)
  {
    hide LengthOctets, ParseLength;
    var p, length := Parse(input).value, ParseLength(input).value;
    LengthIsUnique(input);
    assert |p.content| == length.value;
    assert input[..p.consumed] == [input[0]] + input[1..1 + length.octets] + p.content;
  }

  predicate StartsWith(s: Bytes, prefix: Bytes) { |prefix| <= |s| && s[..|prefix|] == prefix }

  predicate Constructed(tag: byte) { tag / 0x20 % 2 == 1 }

  /** The first content, in preorder, that looks like an NTLM message. */
  function Find(input: Bytes, depth: nat): Result<Option<Bytes>>
    decreases |input|, 1
  {
    if depth > MAX_DER_DEPTH then Err(Auth) else Scan(input, depth)
  }

  function Scan(input: Bytes, depth: nat): Result<Option<Bytes>>
    decreases |input|, 0
  {
    if input == [] then Ok(None)
    else
      match Parse(input)
      case Err(e) => Err(e)
      case Ok(p) =>
        if StartsWith(p.content, NTLMSSP_SIGNATURE) then Ok(Some(p.content))
        else
          var nested := if Constructed(p.tag) then Find(p.content, depth + 1) else Ok(None);
          if nested.Err? || nested.value.Some? then nested else Scan(input[p.consumed..], depth)
  }

  /** `find_ntlm_in_der`: a loop over siblings, recursing into constructed ones. */
  method FindNtlmInDer(input: Bytes, depth: nat) returns (r: Result<Option<Bytes>>)
    ensures r == Find(input, depth)
    decreases |input|
  {
    hide Parse, StartsWith, Constructed, Scan;
    if depth > MAX_DER_DEPTH {
      return Err(Auth);
    }
    var offset: nat := 0;
    assert input[0..] == input;
    while offset < |input|
      invariant offset <= |input| && Find(input, depth) == Scan(input[offset..], depth)
    {
      ScanStep(input[offset..], depth);
      var parsed := ParseTlv(input[offset..]);
      if parsed.Err? {
        return Err(parsed.error);
      }
      var p := parsed.value;
      if StartsWith(p.content, NTLMSSP_SIGNATURE) {
        return Ok(Some(p.content));
      }
      if Constructed(p.tag) {
        var nested := FindNtlmInDer(p.content, depth + 1);
        if nested.Err? || nested.value.Some? {
          return nested;
        }
      }
      assert input[offset..][p.consumed..] == input[offset + p.consumed..];
      offset := offset + p.consumed;
    }
    assert input[offset..] == [];
    ScanStep([], depth);
    return Ok(None);
  }

  /** One element of a scan. */
  lemma ScanStep(input: Bytes, depth: nat)
    ensures input == [] ==> Scan(input, depth) == Ok(None)
    ensures input != [] && Parse(input).Err? ==> Scan(input, depth) == Err(Parse(input).error)
    ensures input != [] && Parse(input).Ok? ==>
              var p := Parse(input).value;
              var nested := if Constructed(p.tag) then Find(p.content, depth + 1) else Ok(None);
              Scan(input, depth) == if StartsWith(p.content, NTLMSSP_SIGNATURE) then Ok(Some(p.content))
                                    else if nested.Err? || nested.value.Some? then nested
                                    else Scan(input[p.consumed..], depth)
  {
    hide Parse, StartsWith, Constructed, Find;
  }

  function Extract(token: Bytes): Result<Bytes> {
    if StartsWith(token, NTLMSSP_SIGNATURE) then Ok(token)
    else
      var found := Find(token, 0);
      if found.Err? then Err(found.error)
      else if found.value.Some? then Ok(found.value.value)
      else Err(Auth)
  }

  method ExtractNtlmToken(token: Bytes) returns (r: Result<Bytes>)
    ensures r == Extract(token)
  {
    if StartsWith(token, NTLMSSP_SIGNATURE) {
      return Ok(token);
    }
    var found := FindNtlmInDer(token, 0);
    if found.Err? {
      return Err(found.error);
    }
    return if found.value.Some? then Ok(found.value.value) else Err(Auth);
  }

  /** Tokens whose wrappers fit in memory; 200 bytes cover every header of both wrappers. */
  predicate Wrappable(token: Bytes) { |token| + 200 <= U64_MAX }

  lemma TlvSize(tag: byte, content: Bytes)
    requires Sized(content)
    ensures 2 + |content| <= |Tlv(tag, content)| <= 10 + |content| && Tlv(tag, content)[0] == tag
  {
    U64TakesEightBytes(|content|);
  }

  function ResponseToken(token: Bytes): (wrapped: Bytes)
    requires Wrappable(token)
    ensures |wrapped| <= 20 + |token|
  {
    TlvSize(0x04, token);
    TlvSize(0xa2, Tlv(0x04, token));
    Tlv(0xa2, Tlv(0x04, token))
  }

  function MechTypes(): (b: Bytes)
    ensures |b| <= 42
  {
    TlvSize(0x06, NTLMSSP_OID);
    TlvSize(0x30, Tlv(0x06, NTLMSSP_OID));
    TlvSize(0xa0, Tlv(0x30, Tlv(0x06, NTLMSSP_OID)));
    Tlv(0xa0, Tlv(0x30, Tlv(0x06, NTLMSSP_OID)))
  }

  /** `encode_neg_token_init_ntlm`. */
  function NegTokenInit(token: Bytes): Bytes
    requires Wrappable(token)
  {
    var body := MechTypes() + ResponseToken(token);
    TlvSize(0x30, body);
    TlvSize(0xa0, Tlv(0x30, body));
    TlvSize(0x06, SPNEGO_OID);
    Tlv(0x60, Tlv(0x06, SPNEGO_OID) + Tlv(0xa0, Tlv(0x30, body)))
  }

  /** `encode_neg_token_resp_ntlm`. */
  function NegTokenResp(token: Bytes): Bytes
    requires Wrappable(token)
  {
    TlvSize(0x30, ResponseToken(token));
    Tlv(0xa1, Tlv(0x30, ResponseToken(token)))
  }

  /** Scanning past or into one encoded element. */
  lemma ScanTlv(tag: byte, content: Bytes, rest: Bytes, depth: nat)
    requires Sized(content) && |Tlv(tag, content)| <= U64_MAX
    requires content != [] && content[0] != NTLMSSP_SIGNATURE[0]
    ensures var nested := if Constructed(tag) then Find(content, depth + 1) else Ok(None);
            Scan(Tlv(tag, content) + rest, depth) == if nested.Err? || nested.value.Some? then nested else Scan(rest, depth)
  {
    TlvSize(tag, content);
    ParseInvertsTlv(tag, content, rest);
    var input := Tlv(tag, content) + rest;
    assert input[|Tlv(tag, content)|..] == rest;
  }

  /** Into the only element of a constructed one. */
  lemma FindSingle(tag: byte, content: Bytes, depth: nat)
    requires Sized(content) && |Tlv(tag, content)| <= U64_MAX && depth < MAX_DER_DEPTH && Constructed(tag)
    requires content != [] && content[0] != NTLMSSP_SIGNATURE[0]
    ensures Find(Tlv(tag, content), depth) == Find(content, depth + 1)
  {
    ScanTlv(tag, content, [], depth);
    assert Tlv(tag, content) + [] == Tlv(tag, content);
  }

  /** What the octet string at the heart of both wrappers yields. */
  lemma FindResponse(token: Bytes, depth: nat)
    requires Wrappable(token) && depth < MAX_DER_DEPTH
    ensures Find(ResponseToken(token), depth) == Ok(if StartsWith(token, NTLMSSP_SIGNATURE) then Some(token) else None)
  {
    hide Tlv;
    TlvSize(0x04, token);
    TlvSize(0xa2, Tlv(0x04, token));
    FindSingle(0xa2, Tlv(0x04, token), depth);
    ParseInvertsTlv(0x04, token, []);
    assert Tlv(0x04, token) + [] == Tlv(0x04, token);
    assert Tlv(0x04, token)[|Tlv(0x04, token)|..] == [];
    assert Scan([], depth + 1) == Ok(None);
  }

  /** Either response wrapper gives back every NTLM message it carries, and nothing else. */
  lemma RespRoundTrip(token: Bytes)
    requires Wrappable(token)
    ensures Extract(NegTokenResp(token)) == if StartsWith(token, NTLMSSP_SIGNATURE) then Ok(token) else Err(Auth)
  {
    hide Tlv, Find, ResponseToken;
    var inner := ResponseToken(token);
    ResponseHead(token);
    TlvSize(0x30, inner);
    TlvSize(0xa1, Tlv(0x30, inner));
    FindSingle(0xa1, Tlv(0x30, inner), 0);
    FindSingle(0x30, inner, 1);
    FindResponse(token, 2);
  }

  lemma ResponseHead(token: Bytes)
    requires Wrappable(token)
    ensures ResponseToken(token) != [] && ResponseToken(token)[0] == 0xa2
  {
    TlvSize(0x04, token);
    TlvSize(0xa2, Tlv(0x04, token));
  }

  /** The mechanism list holds no NTLM message. */
  lemma FindMechTypes(rest: Bytes, depth: nat)
    requires depth + 2 <= MAX_DER_DEPTH
    ensures Scan(MechTypes() + rest, depth) == Scan(rest, depth) && MechTypes() != [] && MechTypes()[0] == 0xa0
  {
    hide Tlv, Scan;
    var oid := Tlv(0x06, NTLMSSP_OID);
    TlvSize(0x06, NTLMSSP_OID);
    TlvSize(0x30, oid);
    TlvSize(0xa0, Tlv(0x30, oid));
    ScanTlv(0xa0, Tlv(0x30, oid), rest, depth);
    FindSingle(0x30, oid, depth + 1);
    ScanTlv(0x06, NTLMSSP_OID, [], depth + 2);
    assert oid + [] == oid;
    ScanStep([], depth + 2);
  }

  lemma InitRoundTrip(token: Bytes)
    requires Wrappable(token)
    ensures Extract(NegTokenInit(token)) == if StartsWith(token, NTLMSSP_SIGNATURE) then Ok(token) else Err(Auth)
  {
    hide Tlv, ResponseToken, MechTypes, Scan;
    var response := ResponseToken(token);
    var body, oid := MechTypes() + response, Tlv(0x06, SPNEGO_OID);
    TlvSize(0x30, body);
    TlvSize(0xa0, Tlv(0x30, body));
    TlvSize(0x06, SPNEGO_OID);
    var wrapped := Tlv(0xa0, Tlv(0x30, body));
    TlvSize(0x60, oid + wrapped);
    FindSingle(0x60, oid + wrapped, 0);
    ScanTlv(0x06, SPNEGO_OID, wrapped, 1);
    FindSingle(0xa0, Tlv(0x30, body), 1);
    FindMechTypes(response, 3);
    FindSingle(0x30, body, 2);
    FindResponse(token, 3);
  }
}
