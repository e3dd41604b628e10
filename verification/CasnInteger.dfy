/** The contents of an INTEGER (lib/casn/casn_num.c, section 8.3 of X.690). */
module CasnInteger {
  import opened Options
  import opened NetworkBytes

  // ----- two's complement -----

  /** Half of what `size` bytes can count. */
  function Half(size: nat): int
    requires size > 0
  {
    0x80 * Limit(size - 1)
  }

  predicate Fits(val: int, size: nat) {
    size > 0 && -Half(size) <= val < Half(size)
  }

  /** The value of the contents of an INTEGER. */
  function Twos(b: seq<byte>): int
    requires b != []
  {
    UInt(b) - if b[0] >= 0x80 then Limit(|b|) else 0
  }

  /** The check used when decoding: the first nine bits are all equal. */
  predicate Redundant(b: seq<byte>) {
    |b| > 1 && ((b[0] == 0 && b[1] < 0x80) || (b[0] == 0xff && b[1] >= 0x80))
  }

  lemma {:induction false} LimitGrows(m: nat, n: nat)
    requires m <= n
    ensures 1 <= Limit(m) <= Limit(n)
  {
    if n == 0 {
    } else if m < n {
      LimitGrows(m, n - 1);
    } else {
      LimitGrows(m - 1, n - 1);
    }
  }

  lemma {:induction false} UIntCons(b: seq<byte>)
    requires b != []
    ensures UInt(b) == b[0] * Limit(|b| - 1) + UInt(b[1..])
  {
    if |b| == 1 {
      assert b[..0] == [] && b[1..] == [];
    } else {
      UIntCons(b[..|b| - 1]);
      assert b[..|b| - 1][1..] == b[1..][..|b| - 2];
    }
  }

  lemma Bounded(a: int, b: int, l: nat)
    requires a <= b
    ensures a * l <= b * l
  {
  }

  /** What size bytes can hold, and the sign is the first bit. */
  lemma TwosFits(b: seq<byte>)
    requires b != []
    ensures Fits(Twos(b), |b|) && (b[0] >= 0x80 <==> Twos(b) < 0)
  {
    UIntCons(b);
    BytesOfUInt(b[1..]);
    var l := Limit(|b| - 1);
    if b[0] >= 0x80 {
      Bounded(0x80, b[0], l);
      Bounded(b[0], 0xff, l);
    } else {
      Bounded(b[0], 0x7f, l);
    }
  }

  /** Not redundant means that no byte less would do. */
  lemma MinimalExactly(b: seq<byte>)
    requires |b| > 1
    ensures Redundant(b) <==> Fits(Twos(b), |b| - 1)
  {
    var c := b[1..];
    UIntCons(b);
    UIntCons(c);
    BytesOfUInt(c[1..]);
    var l := Limit(|b| - 2);
    TopBits(b[0], c[0], l, UInt(c[1..]));
  }

  /** The same on the first two bytes and the rest. */
  lemma TopBits(a: byte, c: byte, l: nat, r: nat)
    requires r < l
    ensures var v := a * (0x100 * l) + (c * l + r) - if a >= 0x80 then 0x100 * (0x100 * l) else 0;
            -(0x80 * l) <= v < 0x80 * l <==> (a == 0 && c < 0x80) || (a == 0xff && c >= 0x80)
  {
    var top := 0x100 * a + c - if a >= 0x80 then 0x10000 else 0;
    var v := a * (0x100 * l) + (c * l + r) - if a >= 0x80 then 0x100 * (0x100 * l) else 0;
    assert v == top * l + r;
    if top >= 0x80 {
      Bounded(0x80, top, l);
    } else if top < -0x80 {
      Bounded(top, -0x81, l);
    } else {
      Bounded(-0x80, top, l);
      Bounded(top, 0x7f, l);
    }
  }

  // ----- the size -----

  lemma FitsMore(val: int, m: nat, n: nat)
    requires Fits(val, m) && m <= n
    ensures Fits(val, n)
  {
    LimitGrows(m - 1, n - 1);
  }

  /** val is tmp and siz - 1 more bytes. */
  ghost predicate Shifted(val: int, tmp: int, siz: nat) {
    siz > 0 && tmp * Limit(siz - 1) <= val < (tmp + 1) * Limit(siz - 1)
  }

  lemma ShiftStep(val: int, tmp: int, siz: nat)
    requires Shifted(val, tmp, siz)
    ensures Shifted(val, tmp / 0x100, siz + 1)
  {
    var l, q := Limit(siz - 1), tmp / 0x100;
    LimitGrows(0, siz - 1);
    Bounded(0x100 * q, tmp, l);
    Bounded(tmp + 1, 0x100 * (q + 1), l);
    assert 0x100 * q * l == q * (0x100 * l) && 0x100 * (q + 1) * l == (q + 1) * (0x100 * l);
  }

  lemma ShiftFits(val: int, tmp: int, siz: nat)
    requires Shifted(val, tmp, siz)
    ensures Fits(val, siz) <==> -0x80 <= tmp <= 0x7f
  {
    var l := Limit(siz - 1);
    LimitGrows(0, siz - 1);
    if tmp > 0x7f {
      Bounded(0x80, tmp, l);
    } else if tmp < -0x80 {
      Bounded(tmp + 1, -0x80, l);
    } else {
      Bounded(-0x80, tmp, l);
      Bounded(tmp + 1, 0x80, l);
    }
  }

  /** _write_casn_num's size: the least that fits. */
  method Size(val: int) returns (siz: nat)
    ensures Fits(val, siz) && (siz > 1 ==> !Fits(val, siz - 1))
  {
    var tmp := val;
    siz := 1;
    if tmp > 0 {
      while tmp > 0x7f
        invariant tmp >= 0 && Shifted(val, tmp, siz) && (siz > 1 ==> !Fits(val, siz - 1))
        decreases tmp
      {
        ShiftFits(val, tmp, siz);
        ShiftStep(val, tmp, siz);
        siz, tmp := siz + 1, tmp / 0x100;
      }
    } else {
      while tmp < -0x80
        invariant tmp <= 0 && Shifted(val, tmp, siz) && (siz > 1 ==> !Fits(val, siz - 1))
        decreases -tmp
      {
        ShiftFits(val, tmp, siz);
        ShiftStep(val, tmp, siz);
        siz, tmp := siz + 1, tmp / 0x100;
      }
    }
    ShiftFits(val, tmp, siz);
  }

  lemma SizeIsLeast(val: int, siz: nat, n: nat)
    requires Fits(val, siz) && (siz > 1 ==> !Fits(val, siz - 1)) && n > 0
    ensures Fits(val, n) <==> siz <= n
  {
    if siz <= n {
      FitsMore(val, siz, n);
    } else if Fits(val, n) {
      FitsMore(val, n, siz - 1);
    }
  }

  // ----- writing -----

  /** The bytes of a long, and of an intmax_t. */
  const LONG := 8

  /** The bytes written so far and what is left of the value. */
  ghost predicate Written(val: int, left: int, low: seq<byte>) {
    val == left * Limit(|low|) + UInt(low)
  }

  lemma WriteStep(val: int, left: int, low: seq<byte>)
    requires Written(val, left, low)
    ensures Written(val, left / 0x100, [left % 0x100] + low)
  {
    var b: seq<byte> := [left % 0x100] + low;
    UIntCons(b);
    assert b[1..] == low;
    var q, r, l := left / 0x100, left % 0x100, Limit(|low|);
    assert (0x100 * q + r) * l == q * (0x100 * l) + r * l;
  }

  /** Only 0 or -1 is left when as many bytes are written as the value needs. */
  lemma WriteEnds(val: int, left: int, low: seq<byte>)
    requires Written(val, left, low) && low != [] && Fits(val, |low|)
    ensures left == 0 || left == -1
  {
    BytesOfUInt(low);
    var l := Limit(|low|);
    if left >= 1 {
      Bounded(1, left, l);
    } else if left <= -2 {
      Bounded(left, -2, l);
    }
  }

  lemma WrittenIs(val: int, left: int, low: seq<byte>)
    requires Written(val, left, low) && (left == 0 || left == -1)
    ensures val == UInt(low) - if left == -1 then Limit(|low|) else 0
    ensures 0 <= UInt(low) < Limit(|low|)
  {
    BytesOfUInt(low);
  }

  /** At most one byte is missing in front. */
  lemma FewMissing(val: int, negative: bool, low: seq<byte>, size: nat)
    requires val == UInt(low) - (if negative then Limit(|low|) else 0) && |low| <= size
    requires size > 1 ==> !Fits(val, size - 1)
    requires size > 0
    ensures size - |low| <= 1
  {
    BytesOfUInt(low);
    if size >= |low| + 2 {
      LimitGrows(|low|, size - 2);
    }
  }

  lemma AllWritten(val: int, negative: bool, b: seq<byte>)
    requires b != [] && val == UInt(b) - (if negative then Limit(|b|) else 0) && Fits(val, |b|)
    ensures Twos(b) == val && (negative ==> b[0] != 0)
  {
    UIntCons(b);
    BytesOfUInt(b[1..]);
    var l := Limit(|b| - 1);
    if b[0] >= 0x80 {
      Bounded(0x80, b[0], l);
    } else {
      Bounded(b[0], 0x7f, l);
    }
  }

  lemma OneMissing(val: int, negative: bool, low: seq<byte>)
    requires val == UInt(low) - (if negative then Limit(|low|) else 0)
    ensures Twos([if negative then 0xff else 0] + low) == val
  {
    var b: seq<byte> := [if negative then 0xff else 0] + low;
    UIntCons(b);
    assert b[1..] == low;
  }

  /** The bytes in front: a zero, or 0xff, if one is missing. */
  lemma FrontBytes(val: int, left: int, low: seq<byte>, size: nat)
    requires Written(val, left, low) && (left == 0 || left == -1) && |low| <= size
    requires Fits(val, size) && (size > 1 ==> !Fits(val, size - 1))
    ensures size - |low| <= 1
    ensures size == |low| ==> Twos(low) == val && (left == -1 ==> low[0] != 0)
    ensures size == |low| + 1 ==> Twos([if left == 0 then 0 else 0xff] + low) == val
  {
    WrittenIs(val, left, low);
    FewMissing(val, left == -1, low, size);
    if size == |low| {
      AllWritten(val, left == -1, low);
    } else {
      OneMissing(val, left == -1, low);
    }
  }

  /** _write_casn_num's bytes, from the last to the first. */
  method PutBytes(val: int, siz: nat) returns (bytes: seq<byte>)
    requires Fits(val, siz) && (siz > 1 ==> !Fits(val, siz - 1))
    ensures |bytes| == siz && Twos(bytes) == val
  {
    var start := new byte[siz](_ => 0);
    var c, left := siz, val;
    ghost var low: seq<byte> := [];
    while left != 0 && left != -1
      invariant 0 <= c <= siz && |low| == siz - c && Written(val, left, low)
      invariant start[c..] == low && forall i :: 0 <= i < c ==> start[i] == 0
      decreases if left >= 0 then left else -left
    {
      if c == 0 {
        WriteEnds(val, left, low);
      }
      WriteStep(val, left, low);
      c := c - 1;
      start[c] := left % 0x100;
      low := [left % 0x100] + low;
      left := left / 0x100;
    }
    FrontBytes(val, left, low, siz);
    if left < 0 && start[0] == 0 {
      start[0] := 0xff;
    }
    bytes := start[..];
    assert c == 0 ==> bytes == low;
    assert c == 1 ==> bytes == [if left == 0 then 0 else 0xff] + low;
  }

  /** _write_casn_num: the shortest two's complement form. */
  method WriteCasnNum(val: int) returns (bytes: seq<byte>)
    ensures bytes != [] && Twos(bytes) == val && !Redundant(bytes)
    ensures forall b: seq<byte> :: b != [] && Twos(b) == val ==> |bytes| <= |b|
    ensures Fits(val, LONG) <==> |bytes| <= LONG
  {
    var siz := Size(val);
    bytes := PutBytes(val, siz);
    if siz > 1 {
      MinimalExactly(bytes);
    }
    forall b: seq<byte> | b != [] && Twos(b) == val
      ensures |bytes| <= |b|
    {
      TwosFits(b);
      SizeIsLeast(val, siz, |b|);
    }
    SizeIsLeast(val, siz, LONG);
  }

  // ----- reading -----

  /** A sum of eight bytes in an intmax_t. */
  function Wrap(val: int): int {
    if val >= Half(LONG) then val - Limit(LONG) else val
  }

  lemma WrapsLast(b: seq<byte>)
    requires 0 < |b| <= LONG
    ensures Wrap(Twos(b)) == Twos(b) && Wrap(UInt(b)) == if |b| == LONG then Twos(b) else UInt(b)
  {
    TwosFits(b);
    BytesOfUInt(b);
    LimitGrows(|b| - 1, LONG - 1);
    if |b| < LONG {
      LimitGrows(|b|, LONG - 1);
    }
  }

  /** read_casn_num_max on filled contents.  Those of an INTEGER have a sign; those of an
      ENUMERATED or a BOOLEAN have one only by the width of the result. */
  method ReadCasnNumMax(bytes: seq<byte>, isInteger: bool) returns (r: Option<int>)
    ensures r == if !(0 < |bytes| <= LONG) then None
                 else if isInteger || |bytes| == LONG then Some(Twos(bytes))
                 else Some(UInt(bytes))
  {
    if |bytes| > LONG || |bytes| <= 0 {
      return None;
    }
    var val: int := if bytes[0] >= 0x80 && isInteger then -1 else 0;
    ghost var sign := val;
    var c := 0;
    while c < |bytes|
      invariant 0 <= c <= |bytes| && val == sign * Limit(c) + UInt(bytes[..c])
    {
      assert bytes[..c + 1] == bytes[..c] + [bytes[c]];
      val := val * 0x100 + bytes[c];
      c := c + 1;
    }
    assert bytes[..|bytes|] == bytes;
    WrapsLast(bytes);
    return Some(Wrap(val));
  }

  /** read_casn_num_max after _write_casn_num. */
  method RoundTrip(val: int) returns (r: Option<int>)
    ensures r == if Fits(val, LONG) then Some(val) else None
  {
    var bytes := WriteCasnNum(val);
    r := ReadCasnNumMax(bytes, true);
  }
}
