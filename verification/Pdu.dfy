/** The PDUs of the rpki-rtr protocol on the wire (lib/rpki-rtr/pdu.c, section 5 of
    RFC 6810). */
module Pdu {
  import opened NetworkBytes

  const VERSION: byte := 0
  const SERIAL_NOTIFY: byte := 0
  const SERIAL_QUERY: byte := 1
  const RESET_QUERY: byte := 2
  const CACHE_RESPONSE: byte := 3
  const IPV4_PREFIX: byte := 4
  const IPV6_PREFIX: byte := 6
  const END_OF_DATA: byte := 7
  const CACHE_RESET: byte := 8
  const ERROR_REPORT: byte := 10

  const HEADER_LENGTH := 8
  const ERROR_HEADERS_LENGTH := 8

  // ----- integers -----

  lemma ShiftIn(u: nat, b: byte, place: nat)
    ensures u * (0x100 * place) + b * place == (0x100 * u + b) * place
  {
  }

  /** extract_uint: or-ing every byte in at its place. */
  method ExtractUint(buffer: seq<byte>) returns (r: nat)
    ensures r == UInt(buffer)
  {
    r := 0;
    var i := 0;
    while i < |buffer|
      invariant 0 <= i <= |buffer| && r == UInt(buffer[..i]) * Limit(|buffer| - i)
    {
      assert buffer[..i + 1][..i] == buffer[..i];
      ShiftIn(UInt(buffer[..i]), buffer[i], Limit(|buffer| - 1 - i));
      r := r + buffer[i] * Limit(|buffer| - 1 - i);
      i := i + 1;
    }
    assert buffer[..|buffer|] == buffer;
  }

  // ----- PDUs -----

  /** What follows the header; an address keeps its bytes in network order. */
  datatype Body =
    | NoBody
    | Serial(serial: nat)
    | Prefix(flags: byte, length: byte, maxLength: byte, reserved: byte, address: seq<byte>, asn: nat)
    | Error(encapsulated: seq<byte>, text: seq<byte>)

  /** `field` is the session id, the reserved field or the error code, depending on the
      type; the source keeps them in one union. */
  datatype PDU = PDU(version: byte, pduType: byte, field: nat, length: nat, body: Body)

  datatype Parsed =
    | Good(pdu: PDU)
    | Warning(pdu: PDU)
    | Truncated
    | CorruptData
    | UnsupportedVersion
    | UnsupportedType
    | InvalidValue

  predicate HasSerial(pduType: byte) {
    pduType == SERIAL_NOTIFY || pduType == SERIAL_QUERY || pduType == END_OF_DATA
  }

  predicate HasPrefix(pduType: byte) {
    pduType == IPV4_PREFIX || pduType == IPV6_PREFIX
  }

  predicate IsBare(pduType: byte) {
    pduType == RESET_QUERY || pduType == CACHE_RESPONSE || pduType == CACHE_RESET
  }

  predicate KnownType(pduType: byte) {
    HasSerial(pduType) || HasPrefix(pduType) || IsBare(pduType) || pduType == ERROR_REPORT
  }

  /** The types whose third field is reserved and should be zero. */
  predicate HasReserved(pduType: byte) {
    pduType == RESET_QUERY || HasPrefix(pduType) || pduType == CACHE_RESET
  }

  function Width(pduType: byte): nat {
    if pduType == IPV4_PREFIX then 4 else 16
  }

  /** The header's third field deserves a warning. */
  predicate FieldWarns(pduType: byte, field: nat) {
    (HasReserved(pduType) && field != 0) || (pduType == ERROR_REPORT && field > 7)
  }

  predicate PrefixWarns(b: Body)
    requires b.Prefix?
  {
    b.flags >= 2 || b.length > b.maxLength || b.reserved != 0
  }

  predicate Warns(p: PDU) {
    FieldWarns(p.pduType, p.field) || (p.body.Prefix? && PrefixWarns(p.body))
  }

  // ----- parse_pdu -----

  function Verdict(p: PDU): Parsed {
    if Warns(p) then Warning(p) else Good(p)
  }

  function ParsePrefix(b: seq<byte>, header: PDU): Parsed
    requires |b| >= 8
  {
    var width := Width(header.pduType);
    if header.length != 16 + width then CorruptData
    else if |b| < 9 then Truncated
    else if |b| < 10 then Truncated
    else if b[9] > 8 * width then InvalidValue
    else if |b| < 11 then Truncated
    else if b[10] > 8 * width then InvalidValue
    else if |b| < 12 then Truncated
    else if |b| < 12 + width then Truncated
    else if |b| < 16 + width then Truncated
    else Verdict(header.(body := Prefix(b[8], b[9], b[10], b[11], b[12..12 + width], UInt(b[12 + width..16 + width]))))
  }

  function ParseError(b: seq<byte>, header: PDU): Parsed
    requires |b| >= 8
  {
    if header.length < 16 then CorruptData
    else if |b| < 12 then Truncated
    else
      var encapsulated := UInt(b[8..12]);
      if header.length < 16 + encapsulated then CorruptData
      else if |b| < 12 + encapsulated then Truncated
      else if |b| < 16 + encapsulated then Truncated
      else
        var text := UInt(b[12 + encapsulated..16 + encapsulated]);
        if header.length != 16 + encapsulated + text then CorruptData
        else if |b| < 16 + encapsulated + text then Truncated
        else
          Verdict(header.(body := Error(b[12..12 + encapsulated], b[16 + encapsulated..16 + encapsulated + text])))
  }

  function ParseBody(b: seq<byte>, header: PDU): Parsed
    requires |b| >= 8
  {
    if HasSerial(header.pduType) then
      if header.length != 12 then CorruptData
      else if |b| < 12 then Truncated
      else Verdict(header.(body := Serial(UInt(b[8..12]))))
    else if IsBare(header.pduType) then
      if header.length != 8 then CorruptData else Verdict(header)
    else if HasPrefix(header.pduType) then ParsePrefix(b, header)
    else ParseError(b, header)
  }

  function Header(b: seq<byte>): PDU
    requires |b| >= 8
  {
    PDU(b[0], b[1], UInt(b[2..4]), UInt(b[4..8]), NoBody)
  }

  /** parse_pdu on the bytes received so far. */
  function Parse(b: seq<byte>): Parsed {
    if |b| < 1 then Truncated
    else if b[0] != VERSION then UnsupportedVersion
    else if |b| < 2 then Truncated
    else if !KnownType(b[1]) then UnsupportedType
    else if |b| < 4 then Truncated
    else if |b| < 8 then Truncated
    else ParseBody(b, Header(b))
  }

  // ----- the format -----

  function BodyBytes(body: Body): seq<byte> {
    match body
    case NoBody => []
    case Serial(serial) => Bytes(serial, 4)
    case Prefix(flags, length, maxLength, reserved, address, asn) =>
      [flags, length, maxLength, reserved] + address + Bytes(asn, 4)
    case Error(encapsulated, text) =>
      Bytes(|encapsulated|, 4) + encapsulated + Bytes(|text|, 4) + text
  }

  function Encode(p: PDU): seq<byte> {
    [p.version, p.pduType] + Bytes(p.field, 2) + Bytes(p.length, 4) + BodyBytes(p.body)
  }

  predicate WellFormedBody(pduType: byte, body: Body) {
    match body
    case NoBody => IsBare(pduType)
    case Serial(serial) => HasSerial(pduType) && serial < Limit(4)
    case Prefix(_, length, maxLength, _, address, asn) =>
      && HasPrefix(pduType) && |address| == Width(pduType) && asn < Limit(4)
      && length <= 8 * Width(pduType) && maxLength <= 8 * Width(pduType)
    case Error(encapsulated, text) => pduType == ERROR_REPORT && |encapsulated| < Limit(4) && |text| < Limit(4)
  }

  predicate WellFormed(p: PDU) {
    && p.version == VERSION && p.field < Limit(2) && p.length < Limit(4)
    && p.length == |Encode(p)| && WellFormedBody(p.pduType, p.body)
  }

  // ----- framing -----

  lemma SliceOfLonger(b: seq<byte>, more: seq<byte>, i: nat, j: nat)
    requires i <= j <= |b|
    ensures (b + more)[i..j] == b[i..j]
  {
  }

  lemma ParseErrorExtends(b: seq<byte>, more: seq<byte>, h: PDU)
    requires |b| >= 8 && ParseError(b, h) != Truncated
    ensures ParseError(b + more, h) == ParseError(b, h)
  {
    if |b| >= 12 {
      SliceOfLonger(b, more, 8, 12);
      var e := UInt(b[8..12]);
      if |b| >= 16 + e {
        SliceOfLonger(b, more, 12, 12 + e);
        SliceOfLonger(b, more, 12 + e, 16 + e);
        var t := UInt(b[12 + e..16 + e]);
        if |b| >= 16 + e + t {
          SliceOfLonger(b, more, 16 + e, 16 + e + t);
        }
      }
    }
  }

  lemma ParsePrefixExtends(b: seq<byte>, more: seq<byte>, h: PDU)
    requires |b| >= 8 && ParsePrefix(b, h) != Truncated
    ensures ParsePrefix(b + more, h) == ParsePrefix(b, h)
  {
    var w := Width(h.pduType);
    if |b| >= 16 + w {
      SliceOfLonger(b, more, 12, 12 + w);
      SliceOfLonger(b, more, 12 + w, 16 + w);
    }
  }

  /** A verdict other than truncated is the verdict on every longer input. */
  lemma ParseExtends(b: seq<byte>, more: seq<byte>)
    requires Parse(b) != Truncated
    ensures Parse(b + more) == Parse(b)
  {
    if |b| >= 8 {
      SliceOfLonger(b, more, 2, 4);
      SliceOfLonger(b, more, 4, 8);
      var h := Header(b);
      if KnownType(b[1]) && b[0] == VERSION {
        if h.pduType == ERROR_REPORT {
          ParseErrorExtends(b, more, h);
        } else if HasPrefix(h.pduType) {
          ParsePrefixExtends(b, more, h);
        } else if |b| >= 12 {
          SliceOfLonger(b, more, 8, 12);
        }
      }
    }
  }

  /** Once the header is there, truncated means shorter than the length it gives. */
  lemma TruncatedIsShort(b: seq<byte>)
    requires Parse(b) == Truncated && |b| >= 8
    ensures |b| < UInt(b[4..8])
  {
  }

  // ----- the codec is its own inverse, both ways -----

  lemma HeaderOfEncode(p: PDU, rest: seq<byte>)
    requires WellFormed(p)
    ensures var b := Encode(p) + rest;
            |b| >= 8 && Header(b) == p.(body := NoBody) && b[8..] == BodyBytes(p.body) + rest
  {
    var b := Encode(p) + rest;
    assert b[2..4] == Bytes(p.field, 2) && b[4..8] == Bytes(p.length, 4);
    UIntOfBytes(p.field, 2);
    UIntOfBytes(p.length, 4);
  }

  lemma DropSlice(b: seq<byte>, i: nat, x: nat, y: nat)
    requires i <= |b| && x <= y <= |b| - i
    ensures b[i + x..i + y] == b[i..][x..y]
  {
  }

  lemma Pieces(a: seq<byte>, b: seq<byte>, c: seq<byte>, d: seq<byte>, rest: seq<byte>)
    ensures var s, i, j := a + b + c + d + rest, |a| + |b|, |a| + |b| + |c|;
            && s[..|a|] == a && s[|a|..i] == b && s[i..j] == c && s[j..j + |d|] == d
  {
  }

  lemma ParsePrefixOfEncode(p: PDU, b: seq<byte>, rest: seq<byte>)
    requires WellFormed(p) && p.body.Prefix? && |b| >= 8 && b[8..] == BodyBytes(p.body) + rest
    ensures ParsePrefix(b, p.(body := NoBody)) == Verdict(p)
  {
    var w, d := Width(p.pduType), b[8..];
    var fixed := [p.body.flags, p.body.length, p.body.maxLength, p.body.reserved];
    Pieces(fixed, p.body.address, Bytes(p.body.asn, 4), [], rest);
    assert d == fixed + p.body.address + Bytes(p.body.asn, 4) + [] + rest;
    DropSlice(b, 8, 4, 4 + w);
    DropSlice(b, 8, 4 + w, 8 + w);
    UIntOfBytes(p.body.asn, 4);
    assert b[8] == d[0] && b[9] == d[1] && b[10] == d[2] && b[11] == d[3];
  }

  lemma ParseErrorOfEncode(p: PDU, b: seq<byte>, rest: seq<byte>)
    requires WellFormed(p) && p.body.Error? && |b| >= 8 && b[8..] == BodyBytes(p.body) + rest
    ensures ParseError(b, p.(body := NoBody)) == Verdict(p)
  {
    var e, t, d := |p.body.encapsulated|, |p.body.text|, b[8..];
    Pieces(Bytes(e, 4), p.body.encapsulated, Bytes(t, 4), p.body.text, rest);
    DropSlice(b, 8, 0, 4);
    UIntOfBytes(e, 4);
    DropSlice(b, 8, 4, 4 + e);
    DropSlice(b, 8, 4 + e, 8 + e);
    UIntOfBytes(t, 4);
    DropSlice(b, 8, 8 + e, 8 + e + t);
  }

  /** Parsing what was dumped, whatever follows, gives the PDU back. */
  lemma ParseOfEncode(p: PDU, rest: seq<byte>)
    requires WellFormed(p)
    ensures Parse(Encode(p) + rest) == Verdict(p)
  {
    var b := Encode(p) + rest;
    HeaderOfEncode(p, rest);
    match p.body
    case NoBody =>
    case Serial(serial) =>
      assert b[8..12] == b[8..][..4] == Bytes(serial, 4);
      UIntOfBytes(serial, 4);
    case Prefix(_, _, _, _, _, _) => ParsePrefixOfEncode(p, b, rest);
    case Error(_, _) => ParseErrorOfEncode(p, b, rest);
  }

  lemma EncodeHeader(b: seq<byte>, body: Body, k: nat)
    requires 8 <= k <= |b| && BodyBytes(body) == b[8..k]
    ensures Encode(Header(b).(body := body)) == b[..k]
    ensures Header(b).field < Limit(2) && Header(b).length < Limit(4)
  {
    BytesOfUInt(b[2..4]);
    BytesOfUInt(b[4..8]);
  }

  ghost predicate IsPdu(r: Parsed) {
    r.Good? || r.Warning?
  }

  lemma PrefixBytes(b: seq<byte>, w: nat)
    requires 16 + w <= |b|
    ensures BodyBytes(Prefix(b[8], b[9], b[10], b[11], b[12..12 + w], UInt(b[12 + w..16 + w]))) == b[8..16 + w]
    ensures UInt(b[12 + w..16 + w]) < Limit(4)
  {
    BytesOfUInt(b[12 + w..16 + w]);
    assert b[8..16 + w] == [b[8], b[9], b[10], b[11]] + b[12..12 + w] + b[12 + w..16 + w];
  }

  lemma EncodeOfParsePrefix(b: seq<byte>)
    requires |b| >= 8 && Parse(b) == ParsePrefix(b, Header(b)) && IsPdu(Parse(b)) && HasPrefix(b[1]) && b[0] == VERSION
    ensures WellFormed(Parse(b).pdu) && Parse(b).pdu.length <= |b| && Encode(Parse(b).pdu) == b[..Parse(b).pdu.length]
  {
    var p, w := Parse(b).pdu, Width(b[1]);
    PrefixBytes(b, w);
    EncodeHeader(b, p.body, 16 + w);
  }

  lemma ErrorPieces(size: seq<byte>, encapsulated: seq<byte>, textSize: seq<byte>, text: seq<byte>)
    requires |size| == |textSize| == 4 && UInt(size) == |encapsulated| && UInt(textSize) == |text|
    ensures BodyBytes(Error(encapsulated, text)) == size + encapsulated + textSize + text
    ensures |encapsulated| < Limit(4) && |text| < Limit(4)
  {
    BytesOfUInt(size);
    BytesOfUInt(textSize);
  }

  lemma FourSlices(b: seq<byte>, i: nat, j: nat, k: nat, l: nat, m: nat)
    requires i <= j <= k <= l <= m <= |b|
    ensures b[i..m] == b[i..j] + b[j..k] + b[k..l] + b[l..m]
  {
    assert b[i..k] == b[i..j] + b[j..k];
    assert b[i..l] == b[i..k] + b[k..l];
    assert b[i..m] == b[i..l] + b[l..m];
  }

  lemma ErrorBytes(b: seq<byte>, e: nat, t: nat)
    requires 16 + e + t <= |b| && UInt(b[8..12]) == e && UInt(b[12 + e..16 + e]) == t
    ensures BodyBytes(Error(b[12..12 + e], b[16 + e..16 + e + t])) == b[8..16 + e + t]
    ensures e < Limit(4) && t < Limit(4)
  {
    ErrorPieces(b[8..12], b[12..12 + e], b[12 + e..16 + e], b[16 + e..16 + e + t]);
    FourSlices(b, 8, 12, 12 + e, 16 + e, 16 + e + t);
  }

  lemma EncodeOfParseError(b: seq<byte>)
    requires |b| >= 8 && b[0] == VERSION && b[1] == ERROR_REPORT
    requires Parse(b) == ParseError(b, Header(b)) && IsPdu(Parse(b))
    ensures WellFormed(Parse(b).pdu) && Parse(b).pdu.length <= |b| && Encode(Parse(b).pdu) == b[..Parse(b).pdu.length]
  {
    var e := UInt(b[8..12]);
    var t := UInt(b[12 + e..16 + e]);
    var body := Error(b[12..12 + e], b[16 + e..16 + e + t]);
    assert Parse(b).pdu == Header(b).(body := body);
    ErrorBytes(b, e, t);
    EncodeHeader(b, body, 16 + e + t);
  }

  /** Dumping what was parsed gives back exactly the bytes that were used. */
  lemma EncodeOfParse(b: seq<byte>)
    requires IsPdu(Parse(b))
    ensures var p := Parse(b).pdu;
            WellFormed(p) && p.length <= |b| && Encode(p) == b[..p.length] && Parse(b) == Verdict(p)
  {
    var p := Parse(b).pdu;
    if HasPrefix(b[1]) {
      EncodeOfParsePrefix(b);
    } else if b[1] == ERROR_REPORT {
      EncodeOfParseError(b);
    } else if HasSerial(b[1]) {
      BytesOfUInt(b[8..12]);
      EncodeHeader(b, p.body, 12);
    } else {
      EncodeHeader(b, NoBody, 8);
    }
  }
}
