/** Address blocks of certificates: make_IPAddrOrRange (lib/rpki-object/certificate.c)
    writes them, cvt_asn (lib/rpki/conversion.c) reads them.  Addresses are byte
    strings of any one length. */
module AddressRange {
  import opened Options
  import opened AddressBits

  /** The value of a BIT STRING: the count of unused bits, and the bytes. */
  datatype BitString = BitString(unused: nat, bytes: seq<bv8>)

  datatype AddrOrRange =
    | Prefix(prefix: BitString)
    | Range(min: BitString, max: BitString)

  predicate WellFormed(s: BitString) {
    s.unused < 8 && (s.unused > 0 ==> s.bytes != [])
  }

  function Used(s: BitString): nat
    requires WellFormed(s)
  {
    8 * |s.bytes| - s.unused
  }

  // ----- the decoder's result -----

  /** The lowest address of n bytes that starts with the bit string. */
  function Lowest(s: BitString, n: nat): (r: seq<bv8>)
    requires |s.bytes| <= n
    ensures |r| == n
  {
    s.bytes + seq(n - |s.bytes|, _ => 0)
  }

  /** The highest address of n bytes that starts with the bit string. */
  function Highest(s: BitString, n: nat): (r: seq<bv8>)
    requires WellFormed(s) && |s.bytes| <= n
    ensures |r| == n
  {
    var last := |s.bytes| - 1;
    (if s.unused == 0 then s.bytes else s.bytes[last := s.bytes[last] | ((1 as bv8 << s.unused) - 1)])
    + seq(n - |s.bytes|, _ => 0xff)
  }

  predicate Decodable(a: AddrOrRange, n: nat) {
    match a
    case Prefix(p) => WellFormed(p) && |p.bytes| <= n
    case Range(min, max) => WellFormed(min) && WellFormed(max) && |min.bytes| <= n && |max.bytes| <= n
  }

  function LowOf(a: AddrOrRange, n: nat): seq<bv8>
    requires Decodable(a, n)
  {
    Lowest(if a.Prefix? then a.prefix else a.min, n)
  }

  function HighOf(a: AddrOrRange, n: nat): seq<bv8>
    requires Decodable(a, n)
  {
    Highest(if a.Prefix? then a.prefix else a.max, n)
  }

  /** memset followed by memcpy: the bytes, then fill. */
  method FillAndCopy(a: array<bv8>, fill: bv8, bytes: seq<bv8>)
    requires |bytes| <= a.Length
    modifies a
    ensures a[..] == bytes + seq(a.Length - |bytes|, _ => fill)
  {
    for i := 0 to a.Length
      invariant forall k :: 0 <= k < i ==> a[k] == fill
    {
      a[i] := fill;
    }
    for i := 0 to |bytes|
      invariant forall k :: 0 <= k < a.Length ==> a[k] == if k < i then bytes[k] else fill
    {
      a[i] := bytes[i];
    }
  }

  /** cvt_asn. */
  method CvtAsn(a: AddrOrRange, lolim: array<bv8>, hilim: array<bv8>)
    requires lolim != hilim && Decodable(a, lolim.Length) && Decodable(a, hilim.Length)
    modifies lolim, hilim
    ensures lolim[..] == LowOf(a, lolim.Length) && hilim[..] == HighOf(a, hilim.Length)
  {
    var lo := if a.Prefix? then a.prefix else a.min;
    var hi := if a.Prefix? then a.prefix else a.max;
    FillAndCopy(lolim, 0, lo.bytes);
    FillAndCopy(hilim, 0xff, hi.bytes);
    if hi.unused != 0 {
      var last := |hi.bytes| - 1;
      assert hilim[last] == hilim[..][last];
      hilim[last] := hilim[last] | ((1 as bv8 << hi.unused) - 1);
    }
  }

  // ----- the decoder in terms of bits -----

  /** What the unused bits must be. */
  predicate PaddedWithZeroes(s: BitString)
    requires WellFormed(s)
  {
    forall j :: Used(s) <= j < 8 * |s.bytes| ==> !BitAt(s.bytes, j)
  }

  lemma LowestBit(s: BitString, n: nat, j: nat)
    requires WellFormed(s) && PaddedWithZeroes(s) && |s.bytes| <= n && j < 8 * n
    ensures BitAt(Lowest(s, n), j) == (j < Used(s) && BitAt(s.bytes, j))
  {
    Uniform(j % 8);
    if j / 8 < |s.bytes| {
      assert BitAt(Lowest(s, n), j) == BitAt(s.bytes, j);
    }
  }

  lemma HighestBit(s: BitString, n: nat, j: nat)
    requires WellFormed(s) && |s.bytes| <= n && j < 8 * n
    ensures BitAt(Highest(s, n), j) == (j >= Used(s) || BitAt(s.bytes, j))
  {
    Uniform(j % 8);
    if j / 8 < |s.bytes| {
      SetLowBits(s.bytes[j / 8], s.unused, j % 8);
    }
  }

  // ----- trimming -----

  /** `s` is `src` without the longest run of `trim` bits at its end. */
  ghost predicate Trims(src: seq<bv8>, s: BitString, trim: bool) {
    && WellFormed(s) && |s.bytes| <= |src| && PaddedWithZeroes(s)
    && (forall j :: 0 <= j < Used(s) ==> BitAt(s.bytes, j) == BitAt(src, j))
    && (forall j :: Used(s) <= j < 8 * |src| ==> BitAt(src, j) == trim)
    && (Used(s) > 0 ==> BitAt(s.bytes, Used(s) - 1) != trim)
  }

  function TrimByte(trim: bool): bv8 {
    if trim then 0xff else 0
  }

  predicate EndsWith(b: bv8, u: nat, bit: bool)
    requires u <= 8
  {
    forall k :: 8 - u <= k < 8 ==> Bit(b, k) == bit
  }

  lemma EndsWithStep(b: bv8, u: nat, trim: bool)
    requires b != TrimByte(trim) && u <= 8 && EndsWith(b, u, trim)
    ensures u < 8
    ensures b & (1 as bv8 << u) == TrimByte(trim) & (1 as bv8 << u) <==> Bit(b, 7 - u) == trim
    ensures Bit(b, 7 - u) == trim ==> EndsWith(b, u + 1, trim)
  {
    if u == 8 {
      forall k | 0 <= k < 8
        ensures Bit(b, k) == Bit(TrimByte(trim), k)
      {
        Uniform(k);
      }
      SameByte(b, TrimByte(trim));
    } else {
      Uniform(7 - u);
    }
  }

  /** write_rtrim_bitstring's loop over the bits of the last byte that is kept. */
  method CountUnused(b: bv8, trim: bool) returns (unused: nat)
    requires b != TrimByte(trim)
    ensures unused < 8 && EndsWith(b, unused, trim) && Bit(b, 7 - unused) != trim
  {
    unused := 0;
    while unused < 8 && b & (1 as bv8 << unused) == TrimByte(trim) & (1 as bv8 << unused)
      invariant unused <= 8 && EndsWith(b, unused, trim)
    {
      EndsWithStep(b, unused, trim);
      unused := unused + 1;
    }
    EndsWithStep(b, unused, trim);
  }

  /** write_rtrim_bitstring's counting loops. */
  method CountTrimmed(src: seq<bv8>, trim: bool) returns (prefixBytes: nat, unused: nat)
    ensures prefixBytes <= |src| && unused < 8
    ensures forall i :: prefixBytes <= i < |src| ==> src[i] == TrimByte(trim)
    ensures prefixBytes == 0 ==> unused == 0
    ensures prefixBytes > 0 ==>
              && EndsWith(src[prefixBytes - 1], unused, trim)
              && Bit(src[prefixBytes - 1], 7 - unused) != trim
  {
    prefixBytes := |src|;
    while prefixBytes > 0 && src[prefixBytes - 1] == TrimByte(trim)
      invariant prefixBytes <= |src|
      invariant forall i :: prefixBytes <= i < |src| ==> src[i] == TrimByte(trim)
    {
      prefixBytes := prefixBytes - 1;
    }
    unused := 0;
    if prefixBytes > 0 {
      unused := CountUnused(src[prefixBytes - 1], trim);
    }
  }

  predicate AllFrom(s: seq<bv8>, from: nat, bit: bool) {
    forall j :: from <= j < 8 * |s| ==> BitAt(s, j) == bit
  }

  function ClearLast(bytes: seq<bv8>, unused: nat): seq<bv8>
    requires unused < 8
  {
    if bytes == [] then [] else bytes[|bytes| - 1 := bytes[|bytes| - 1] & (0xff as bv8 << unused)]
  }

  lemma ClearLastBit(bytes: seq<bv8>, unused: nat, j: nat)
    requires unused < 8 && j < 8 * |bytes|
    ensures BitAt(ClearLast(bytes, unused), j) == (j < 8 * |bytes| - unused && BitAt(bytes, j))
  {
  }

  lemma TrimmedTail(src: seq<bv8>, trim: bool, prefixBytes: nat, unused: nat)
    requires prefixBytes <= |src| && unused < 8 && (prefixBytes == 0 ==> unused == 0)
    requires forall i :: prefixBytes <= i < |src| ==> src[i] == TrimByte(trim)
    requires prefixBytes > 0 ==>
               && EndsWith(src[prefixBytes - 1], unused, trim)
               && Bit(src[prefixBytes - 1], 7 - unused) != trim
    ensures AllFrom(src, 8 * prefixBytes - unused, trim)
    ensures prefixBytes > 0 ==> BitAt(src, 8 * prefixBytes - unused - 1) != trim
  {
    forall j | 8 * prefixBytes - unused <= j < 8 * |src|
      ensures BitAt(src, j) == trim
    {
      Uniform(j % 8);
    }
  }

  lemma MaskedTrims(src: seq<bv8>, trim: bool, prefixBytes: nat, unused: nat)
    requires prefixBytes <= |src| && unused < 8 && (prefixBytes == 0 ==> unused == 0)
    requires AllFrom(src, 8 * prefixBytes - unused, trim)
    requires prefixBytes > 0 ==> BitAt(src, 8 * prefixBytes - unused - 1) != trim
    ensures Trims(src, BitString(unused, ClearLast(src[..prefixBytes], unused)), trim)
  {
    var bytes := src[..prefixBytes];
    forall j | 0 <= j < 8 * prefixBytes
      ensures BitAt(ClearLast(bytes, unused), j) == (j < 8 * prefixBytes - unused && BitAt(src, j))
    {
      ClearLastBit(bytes, unused, j);
      assert BitAt(bytes, j) == BitAt(src, j);
    }
  }

  /** write_rtrim_bitstring. */
  method WriteRtrimBitstring(src: seq<bv8>, trim: bool) returns (s: BitString)
    ensures Trims(src, s, trim)
  {
    var prefixBytes, unused := CountTrimmed(src, trim);
    TrimmedTail(src, trim, prefixBytes, unused);
    MaskedTrims(src, trim, prefixBytes, unused);
    s := BitString(unused, ClearLast(src[..prefixBytes], unused));
  }

  lemma TrimmedLowDecodes(low: seq<bv8>, s: BitString)
    requires Trims(low, s, false)
    ensures Lowest(s, |low|) == low
  {
    forall j | 0 <= j < 8 * |low|
      ensures BitAt(Lowest(s, |low|), j) == BitAt(low, j)
    {
      LowestBit(s, |low|, j);
    }
    SameBits(Lowest(s, |low|), low);
  }

  lemma TrimmedHighDecodes(high: seq<bv8>, s: BitString)
    requires Trims(high, s, true)
    ensures Highest(s, |high|) == high
  {
    forall j | 0 <= j < 8 * |high|
      ensures BitAt(Highest(s, |high|), j) == BitAt(high, j)
    {
      HighestBit(s, |high|, j);
    }
    SameBits(Highest(s, |high|), high);
  }

  // ----- prefix or range -----

  predicate Shares(a: seq<bv8>, b: seq<bv8>, k: nat)
    requires |a| == |b| && k <= 8 * |a|
  {
    forall j :: 0 <= j < k ==> BitAt(a, j) == BitAt(b, j)
  }

  /** The range holds exactly the addresses that share low's first k bits. */
  ghost predicate IsBlock(low: seq<bv8>, high: seq<bv8>, k: nat)
    requires |low| == |high| && k <= 8 * |low|
  {
    forall a: seq<bv8> :: |a| == |low| ==> (AtMost(low, a) && AtMost(a, high) <==> Shares(a, low, k))
  }

  /** From bit k on, low is all zeroes and high all ones. */
  predicate FullTail(low: seq<bv8>, high: seq<bv8>, k: nat)
    requires |low| == |high|
  {
    forall j :: k <= j < 8 * |low| ==> !BitAt(low, j) && BitAt(high, j)
  }

  /** k is the length of the common prefix. */
  predicate Common(low: seq<bv8>, high: seq<bv8>, k: nat)
    requires |low| == |high|
  {
    k <= 8 * |low| && Shares(low, high, k) && (k < 8 * |low| ==> BitAt(low, k) != BitAt(high, k))
  }

  function CutByte(b: bv8, k: int, fill: bool): bv8 {
    if 8 <= k then b
    else if k <= 0 then TrimByte(fill)
    else if fill then b | ((1 as bv8 << (8 - k)) - 1)
    else b & (0xff as bv8 << (8 - k))
  }

  /** s with every bit from k on replaced by `fill`. */
  function Cut(s: seq<bv8>, k: nat, fill: bool): (r: seq<bv8>)
    ensures |r| == |s|
  {
    seq(|s|, i requires 0 <= i < |s| => CutByte(s[i], k - 8 * i, fill))
  }

  lemma CutByteBit(b: bv8, k: int, fill: bool, i: nat)
    requires i < 8
    ensures Bit(CutByte(b, k, fill), i) == if i < k then Bit(b, i) else fill
  {
    Uniform(i);
    if fill && 0 < k < 8 {
      SetLowBits(b, 8 - k, i);
    }
  }

  lemma CutBit(s: seq<bv8>, k: nat, fill: bool, j: nat)
    requires j < 8 * |s|
    ensures BitAt(Cut(s, k, fill), j) == if j < k then BitAt(s, j) else fill
  {
    CutByteBit(s[j / 8], k - 8 * (j / 8), fill, j % 8);
  }

  lemma FullTailIsBlock(low: seq<bv8>, high: seq<bv8>, k: nat)
    requires |low| == |high| && Common(low, high, k) && FullTail(low, high, k)
    ensures IsBlock(low, high, k)
  {
    forall a: seq<bv8> | |a| == |low|
      ensures AtMost(low, a) && AtMost(a, high) <==> Shares(a, low, k)
    {
      if Shares(a, low, k) {
        BitsAtMost(low, a);
        BitsAtMost(a, high);
      } else {
        var j := FirstDifference(low, a);
        assert j < k;
        FirstDifferenceDecides(low, a, j);
        FirstDifferenceDecides(a, high, j);
      }
    }
  }

  lemma BlockHasFullTail(low: seq<bv8>, high: seq<bv8>, k: nat)
    requires |low| == |high| && AtMost(low, high) && k <= 8 * |low| && IsBlock(low, high, k)
    ensures Shares(high, low, k) && FullTail(low, high, k)
  {
    AtMostSelf(low);
    AtMostSelf(high);
    assert Shares(high, low, k);
    var bottom, top := Cut(low, k, false), Cut(low, k, true);
    forall j | 0 <= j < 8 * |low|
      ensures BitAt(bottom, j) == (j < k && BitAt(low, j))
      ensures BitAt(top, j) == (j >= k || BitAt(low, j))
    {
      CutBit(low, k, false, j);
      CutBit(low, k, true, j);
    }
    assert Shares(bottom, low, k) && Shares(top, low, k);
    BitsAtMost(bottom, low);
    Antisymmetric(bottom, low);
    BitsAtMost(high, top);
    Antisymmetric(high, top);
  }

  /** Sections 2.2.3.7 and 2.2.3.8 of RFC 3779: some prefix stands for the range if and
      only if the bits after the common prefix are all zeroes and all ones. */
  lemma BlockExactly(low: seq<bv8>, high: seq<bv8>, k: nat)
    requires |low| == |high| && AtMost(low, high) && Common(low, high, k)
    ensures (exists m :: 0 <= m <= 8 * |low| && IsBlock(low, high, m)) <==> FullTail(low, high, k)
  {
    if FullTail(low, high, k) {
      FullTailIsBlock(low, high, k);
    }
    if m :| 0 <= m <= 8 * |low| && IsBlock(low, high, m) {
      BlockHasFullTail(low, high, m);
      assert m <= k;
    }
  }

  // ----- the encoder -----

  predicate SameTop(b: bv8, c: bv8, bits: nat)
    requires bits <= 8
  {
    forall i :: 0 <= i < bits ==> Bit(b, i) == Bit(c, i)
  }

  lemma SameTopStep(b: bv8, c: bv8, bits: nat)
    requires b != c && bits < 8 && SameTop(b, c, bits)
    ensures b & (0x80 as bv8 >> bits) == c & (0x80 as bv8 >> bits) <==> Bit(b, bits) == Bit(c, bits)
    ensures Bit(b, bits) == Bit(c, bits) ==> bits < 7 && SameTop(b, c, bits + 1)
  {
    if bits == 7 && Bit(b, 7) == Bit(c, 7) {
      SameByte(b, c);
    }
  }

  /** make_IPAddrOrRange's loop for the common bits of two different bytes. */
  method CommonBits(b: bv8, c: bv8) returns (bits: nat)
    requires b != c
    ensures bits < 8 && SameTop(b, c, bits) && Bit(b, bits) != Bit(c, bits)
  {
    bits := 0;
    SameTopStep(b, c, 0);
    while b & (0x80 as bv8 >> bits) == c & (0x80 as bv8 >> bits)
      invariant bits < 8 && SameTop(b, c, bits)
      invariant b & (0x80 as bv8 >> bits) == c & (0x80 as bv8 >> bits) <==> Bit(b, bits) == Bit(c, bits)
      decreases 8 - bits
    {
      SameTopStep(b, c, bits);
      bits := bits + 1;
      SameTopStep(b, c, bits);
    }
  }

  lemma CommonByBytes(low: seq<bv8>, high: seq<bv8>, bytes: nat, bits: nat)
    requires |low| == |high| && bytes <= |low| && bits < 8 && low[..bytes] == high[..bytes]
    requires bytes == |low| ==> bits == 0
    requires bytes < |low| ==>
               SameTop(low[bytes], high[bytes], bits) && Bit(low[bytes], bits) != Bit(high[bytes], bits)
    ensures Common(low, high, 8 * bytes + bits)
  {
    forall j | 0 <= j < 8 * bytes + bits
      ensures BitAt(low, j) == BitAt(high, j)
    {
      if j < 8 * bytes {
        assert low[j / 8] == low[..bytes][j / 8] && high[j / 8] == high[..bytes][j / 8];
      }
    }
  }

  /** make_IPAddrOrRange's loops for the common prefix. */
  method CommonPrefix(low: seq<bv8>, high: seq<bv8>) returns (bytes: nat, bits: nat)
    requires |low| == |high|
    ensures bytes <= |low| && bits < 8 && (bytes == |low| ==> bits == 0)
    ensures Common(low, high, 8 * bytes + bits)
  {
    bytes := 0;
    while bytes < |low| && low[bytes] == high[bytes]
      invariant bytes <= |low| && low[..bytes] == high[..bytes]
    {
      bytes := bytes + 1;
    }
    bits := 0;
    if bytes < |low| {
      bits := CommonBits(low[bytes], high[bytes]);
    }
    CommonByBytes(low, high, bytes, bits);
  }

  /** A byte string is a run of one byte if and only if all its bits are that bit. */
  lemma RunOfBytes(s: seq<bv8>, from: nat, bit: bool)
    requires from <= |s|
    ensures s[from..] == seq(|s| - from, _ => TrimByte(bit)) <==> AllFrom(s, 8 * from, bit)
  {
    if s[from..] == seq(|s| - from, _ => TrimByte(bit)) {
      forall j | 8 * from <= j < 8 * |s|
        ensures BitAt(s, j) == bit
      {
        assert s[j / 8] == s[from..][j / 8 - from];
        Uniform(j % 8);
      }
    }
    if AllFrom(s, 8 * from, bit) {
      forall i | from <= i < |s|
        ensures s[i] == TrimByte(bit)
      {
        forall k | 0 <= k < 8
          ensures Bit(s[i], k) == Bit(TrimByte(bit), k)
        {
          assert BitAt(s, 8 * i + k) == bit;
          Uniform(k);
        }
        SameByte(s[i], TrimByte(bit));
      }
    }
  }

  /** The bits of one byte from bit k on, then those of the following bytes. */
  lemma TailOfBits(s: seq<bv8>, bytes: nat, bits: nat, bit: bool)
    requires bytes < |s| && 0 < bits < 8
    ensures AllFrom(s, 8 * bytes + bits, bit) <==>
            EndsWith(s[bytes], 8 - bits, bit) && AllFrom(s, 8 * (bytes + 1), bit)
  {
    if AllFrom(s, 8 * bytes + bits, bit) {
      forall i | bits <= i < 8
        ensures Bit(s[bytes], i) == bit
      {
        assert BitAt(s, 8 * bytes + i) == bit;
      }
    }
  }

  predicate LowBitsAre(b: bv8, bits: nat, bit: bool)
    requires bits < 8
  {
    if bit then b & (0xff as bv8 >> bits) == 0xff >> bits else b & (0xff as bv8 >> bits) == 0
  }

  lemma LowBitsTest(b: bv8, bits: nat, bit: bool)
    requires bits < 8
    ensures LowBitsAre(b, bits, bit) <==> EndsWith(b, 8 - bits, bit)
  {
    if bit {
      LowBitsSet(b, bits);
    } else {
      LowBitsClear(b, bits);
    }
  }

  lemma TailTest(s: seq<bv8>, bytes: nat, bits: nat, bit: bool)
    requires bytes < |s| && bits < 8
    ensures var offset := if bits > 0 then bytes + 1 else bytes;
            AllFrom(s, 8 * bytes + bits, bit) <==>
            (bits > 0 ==> LowBitsAre(s[bytes], bits, bit)) && s[offset..] == seq(|s| - offset, _ => TrimByte(bit))
  {
    if bits > 0 {
      LowBitsTest(s[bytes], bits, bit);
      TailOfBits(s, bytes, bits, bit);
      RunOfBytes(s, bytes + 1, bit);
    } else {
      RunOfBytes(s, bytes, bit);
    }
  }

  /** make_IPAddrOrRange's choice between prefix and range. */
  method IsPrefix(low: seq<bv8>, high: seq<bv8>, bytes: nat, bits: nat) returns (r: bool)
    requires |low| == |high| && bytes <= |low| && bits < 8 && (bytes == |low| ==> bits == 0)
    ensures r == FullTail(low, high, 8 * bytes + bits)
  {
    var n := |low|;
    var offset := if bits > 0 then bytes + 1 else bytes;
    if bytes == n {
      return true;
    }
    TailTest(low, bytes, bits, false);
    TailTest(high, bytes, bits, true);
    if bits > 0 && !LowBitsAre(low[bytes], bits, false) {
      r := false;
    } else if bits > 0 && !LowBitsAre(high[bytes], bits, true) {
      r := false;
    } else if offset == n {
      r := true;
    } else if low[offset..] != seq(n - offset, _ => TrimByte(false)) {
      r := false;
    } else if high[offset..] != seq(n - offset, _ => TrimByte(true)) {
      r := false;
    } else {
      r := true;
    }
  }

  lemma PrefixDecodes(low: seq<bv8>, high: seq<bv8>, p: BitString)
    requires |low| == |high| && WellFormed(p) && |p.bytes| <= |low| && p.bytes == low[..|p.bytes|]
    requires Common(low, high, Used(p)) && FullTail(low, high, Used(p))
    ensures PaddedWithZeroes(p) && Lowest(p, |low|) == low && Highest(p, |low|) == high
  {
    assert forall j :: 0 <= j < 8 * |p.bytes| ==> BitAt(p.bytes, j) == BitAt(low, j);
    forall j | 0 <= j < 8 * |low|
      ensures BitAt(Lowest(p, |low|), j) == BitAt(low, j) && BitAt(Highest(p, |low|), j) == BitAt(high, j)
    {
      LowestBit(p, |low|, j);
      HighestBit(p, |low|, j);
    }
    SameBits(Lowest(p, |low|), low);
    SameBits(Highest(p, |low|), high);
  }

  /** What section 2.2.3 of RFC 3779 asks of an encoded range: a prefix if some prefix
      stands for it, and otherwise two bit strings trimmed as far as possible. */
  ghost predicate Canonical(a: AddrOrRange, low: seq<bv8>, high: seq<bv8>)
    requires |low| == |high| && Decodable(a, |low|)
  {
    match a
    case Prefix(p) => PaddedWithZeroes(p) && IsBlock(low, high, Used(p))
    case Range(min, max) =>
      && Trims(low, min, false) && Trims(high, max, true)
      && forall k :: 0 <= k <= 8 * |low| ==> !IsBlock(low, high, k)
  }

  /** `a` is the encoding of the range. */
  ghost predicate Encodes(a: AddrOrRange, low: seq<bv8>, high: seq<bv8>)
    requires |low| == |high|
  {
    && Decodable(a, |low|)
    && LowOf(a, |low|) == low && HighOf(a, |low|) == high
    && Canonical(a, low, high)
  }

  lemma PrefixEncodes(low: seq<bv8>, high: seq<bv8>, p: BitString)
    requires |low| == |high| && WellFormed(p) && |p.bytes| <= |low| && p.bytes == low[..|p.bytes|]
    requires Common(low, high, Used(p)) && FullTail(low, high, Used(p))
    ensures Encodes(Prefix(p), low, high)
  {
    PrefixDecodes(low, high, p);
    FullTailIsBlock(low, high, Used(p));
  }

  lemma RangeEncodes(low: seq<bv8>, high: seq<bv8>, k: nat, min: BitString, max: BitString)
    requires |low| == |high| && AtMost(low, high) && Common(low, high, k) && !FullTail(low, high, k)
    requires Trims(low, min, false) && Trims(high, max, true)
    ensures Encodes(Range(min, max), low, high)
  {
    TrimmedLowDecodes(low, min);
    TrimmedHighDecodes(high, max);
    BlockExactly(low, high, k);
  }

  /** make_IPAddrOrRange's BIT STRING for a prefix. */
  method MakePrefix(low: seq<bv8>, bytes: nat, bits: nat) returns (p: BitString)
    requires bytes <= |low| && bits < 8 && (bytes == |low| ==> bits == 0)
    ensures WellFormed(p) && |p.bytes| <= |low| && p.bytes == low[..|p.bytes|] && Used(p) == 8 * bytes + bits
  {
    var offset := if bits > 0 then bytes + 1 else bytes;
    p := BitString((8 - bits) % 8, low[..offset]);
  }

  /** make_IPAddrOrRange's two BIT STRINGs for a range. */
  method MakeRange(low: seq<bv8>, high: seq<bv8>, ghost k: nat) returns (a: AddrOrRange)
    requires |low| == |high| && AtMost(low, high) && Common(low, high, k) && !FullTail(low, high, k)
    ensures Encodes(a, low, high)
  {
    var min := WriteRtrimBitstring(low, false);
    var max := WriteRtrimBitstring(high, true);
    RangeEncodes(low, high, k, min, max);
    a := Range(min, max);
  }

  /** make_IPAddrOrRange. */
  method MakeIPAddrOrRange(low: seq<bv8>, high: seq<bv8>) returns (r: Option<AddrOrRange>)
    requires |low| == |high|
    ensures r.Some? <==> AtMost(low, high)
    ensures r.Some? ==> Encodes(r.value, low, high)
  {
    if !AtMost(low, high) {
      return None;
    }
    var bytes, bits := CommonPrefix(low, high);
    var isPrefix := IsPrefix(low, high, bytes, bits);
    var a;
    if isPrefix {
      var p := MakePrefix(low, bytes, bits);
      PrefixEncodes(low, high, p);
      a := Prefix(p);
    } else {
      a := MakeRange(low, high, 8 * bytes + bits);
    }
    r := Some(a);
  }

  lemma LongerLimits(a: AddrOrRange, n: nat, m: nat)
    requires Decodable(a, n) && n <= m
    ensures Decodable(a, m)
    ensures LowOf(a, m) == LowOf(a, n) + seq(m - n, _ => 0)
    ensures HighOf(a, m) == HighOf(a, n) + seq(m - n, _ => 0xff)
  {
  }

  /** cvt_asn after make_IPAddrOrRange, in limits at least as long as the addresses. */
  method RoundTrip(low: seq<bv8>, high: seq<bv8>, lolim: array<bv8>, hilim: array<bv8>)
    requires |low| == |high| && AtMost(low, high)
    requires lolim != hilim && lolim.Length >= |low| && hilim.Length >= |low|
    modifies lolim, hilim
    ensures lolim[..] == low + seq(lolim.Length - |low|, _ => 0)
    ensures hilim[..] == high + seq(hilim.Length - |low|, _ => 0xff)
  {
    var a := MakeIPAddrOrRange(low, high);
    LongerLimits(a.value, |low|, lolim.Length);
    LongerLimits(a.value, |low|, hilim.Length);
    CvtAsn(a.value, lolim, hilim);
  }
}
