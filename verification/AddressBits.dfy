/** Byte strings seen as bit strings, most significant bit first. */
module AddressBits {

  predicate Bit(b: bv8, i: nat)
    requires i < 8
  {
    b & (0x80 as bv8 >> i) != 0
  }

  predicate BitAt(s: seq<bv8>, j: nat)
    requires j < 8 * |s|
  {
    Bit(s[j / 8], j % 8)
  }

  /** memcmp(a, b, n) <= 0 for two strings of n bytes. */
  predicate AtMost(a: seq<bv8>, b: seq<bv8>)
    requires |a| == |b|
  {
    a == [] || a[0] < b[0] || (a[0] == b[0] && AtMost(a[1..], b[1..]))
  }

  // ----- one byte -----

  lemma BitTable(b: bv8)
    ensures Bit(b, 0) == (b & 0x80 != 0) && Bit(b, 1) == (b & 0x40 != 0)
    ensures Bit(b, 2) == (b & 0x20 != 0) && Bit(b, 3) == (b & 0x10 != 0)
    ensures Bit(b, 4) == (b & 0x08 != 0) && Bit(b, 5) == (b & 0x04 != 0)
    ensures Bit(b, 6) == (b & 0x02 != 0) && Bit(b, 7) == (b & 0x01 != 0)
  {
  }

  lemma SameByte(b: bv8, c: bv8)
    requires forall i :: 0 <= i < 8 ==> Bit(b, i) == Bit(c, i)
    ensures b == c
  {
    BitTable(b);
    BitTable(c);
  }

  lemma LowBitsClear(b: bv8, k: nat)
    requires k <= 8
    ensures b & (0xff as bv8 >> k) == 0 <==> forall i :: k <= i < 8 ==> !Bit(b, i)
  {
    BitTable(b);
  }

  lemma LowBitsSet(b: bv8, k: nat)
    requires k <= 8
    ensures b & (0xff as bv8 >> k) == 0xff >> k <==> forall i :: k <= i < 8 ==> Bit(b, i)
  {
    BitTable(b);
  }

  lemma FirstBitDecides(b: bv8, c: bv8, k: nat)
    requires k < 8 && Bit(b, k) != Bit(c, k)
    requires forall i :: 0 <= i < k ==> Bit(b, i) == Bit(c, i)
    ensures b < c <==> Bit(c, k)
    ensures b != c
  {
    BitTable(b);
    BitTable(c);
  }

  lemma SetLowBits(b: bv8, u: nat, i: nat)
    requires u < 8 && i < 8
    ensures Bit(b | ((1 as bv8 << u) - 1), i) == (i >= 8 - u || Bit(b, i))
  {
  }

  lemma Uniform(i: nat)
    requires i < 8
    ensures !Bit(0, i) && Bit(0xff, i)
  {
  }

  // ----- many bytes -----

  lemma SameBits(a: seq<bv8>, b: seq<bv8>)
    requires |a| == |b| && forall j :: 0 <= j < 8 * |a| ==> BitAt(a, j) == BitAt(b, j)
    ensures a == b
  {
    forall i | 0 <= i < |a|
      ensures a[i] == b[i]
    {
      forall k | 0 <= k < 8
        ensures Bit(a[i], k) == Bit(b[i], k)
      {
        assert BitAt(a, 8 * i + k) == BitAt(b, 8 * i + k);
      }
      SameByte(a[i], b[i]);
    }
  }

  lemma {:induction false} AtMostSelf(a: seq<bv8>)
    ensures AtMost(a, a)
  {
    if a == [] {
    } else {
      AtMostSelf(a[1..]);
    }
  }

  lemma {:induction false} Antisymmetric(a: seq<bv8>, b: seq<bv8>)
    requires |a| == |b| && AtMost(a, b) && AtMost(b, a)
    ensures a == b
  {
    if a == [] {
    } else {
      Antisymmetric(a[1..], b[1..]);
      assert a == [a[0]] + a[1..] && b == [b[0]] + b[1..];
    }
  }

  lemma {:induction false} FirstByteDecides(a: seq<bv8>, b: seq<bv8>, i: nat)
    requires |a| == |b| && i < |a| && a[..i] == b[..i] && a[i] != b[i]
    ensures AtMost(a, b) <==> a[i] < b[i]
  {
    if i == 0 {
    } else {
      assert a[0] == a[..i][0] && b[0] == b[..i][0];
      assert a[1..][..i - 1] == a[..i][1..] && b[1..][..i - 1] == b[..i][1..];
      FirstByteDecides(a[1..], b[1..], i - 1);
    }
  }

  /** The order of two strings is decided at the first bit in which they differ. */
  lemma FirstDifferenceDecides(a: seq<bv8>, b: seq<bv8>, j: nat)
    requires |a| == |b| && j < 8 * |a| && BitAt(a, j) != BitAt(b, j)
    requires forall i :: 0 <= i < j ==> BitAt(a, i) == BitAt(b, i)
    ensures AtMost(a, b) <==> BitAt(b, j)
  {
    var c := j / 8;
    forall i | 0 <= i < c
      ensures a[i] == b[i]
    {
      forall k | 0 <= k < 8
        ensures Bit(a[i], k) == Bit(b[i], k)
      {
        assert BitAt(a, 8 * i + k) == BitAt(b, 8 * i + k);
      }
      SameByte(a[i], b[i]);
    }
    forall k | 0 <= k < j % 8
      ensures Bit(a[c], k) == Bit(b[c], k)
    {
      assert BitAt(a, 8 * c + k) == BitAt(b, 8 * c + k);
    }
    FirstBitDecides(a[c], b[c], j % 8);
    FirstByteDecides(a, b, c);
  }

  lemma FirstDifference(a: seq<bv8>, b: seq<bv8>) returns (j: nat)
    requires |a| == |b| && a != b
    ensures j < 8 * |a| && BitAt(a, j) != BitAt(b, j)
    ensures forall i :: 0 <= i < j ==> BitAt(a, i) == BitAt(b, i)
  {
    j := 0;
    while j < 8 * |a| && BitAt(a, j) == BitAt(b, j)
      invariant j <= 8 * |a|
      invariant forall i :: 0 <= i < j ==> BitAt(a, i) == BitAt(b, i)
    {
      j := j + 1;
    }
    if j == 8 * |a| {
      SameBits(a, b);
    }
  }

  lemma BitsAtMost(a: seq<bv8>, b: seq<bv8>)
    requires |a| == |b| && forall j :: 0 <= j < 8 * |a| ==> BitAt(a, j) ==> BitAt(b, j)
    ensures AtMost(a, b)
  {
    if a == b {
      AtMostSelf(a);
    } else {
      var j := FirstDifference(a, b);
      FirstDifferenceDecides(a, b, j);
    }
  }
}
