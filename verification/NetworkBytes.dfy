/** Integers in network byte order. */
module NetworkBytes {

  type byte = n: nat | n < 0x100

  function UInt(b: seq<byte>): nat {
    if b == [] then 0 else 0x100 * UInt(b[..|b| - 1]) + b[|b| - 1]
  }

  function Bytes(n: nat, size: nat): (b: seq<byte>)
    ensures |b| == size
  {
    if size == 0 then [] else Bytes(n / 0x100, size - 1) + [n % 0x100]
  }

  function Limit(size: nat): nat {
    if size == 0 then 1 else 0x100 * Limit(size - 1)
  }

  lemma {:induction false} UIntOfBytes(n: nat, size: nat)
    requires n < Limit(size)
    ensures UInt(Bytes(n, size)) == n
  {
    if size == 0 {
    } else {
      UIntOfBytes(n / 0x100, size - 1);
      assert Bytes(n, size)[..size - 1] == Bytes(n / 0x100, size - 1);
    }
  }

  lemma {:induction false} BytesOfUInt(b: seq<byte>)
    ensures UInt(b) < Limit(|b|) && Bytes(UInt(b), |b|) == b
  {
    if b == [] {
    } else {
      BytesOfUInt(b[..|b| - 1]);
      assert b == b[..|b| - 1] + [b[|b| - 1]];
    }
  }
}
