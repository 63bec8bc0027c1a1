// Bytes and little-endian fixed-width integers, as the packed structures of
// project-4/kvraw.c and the chunk headers of project-3/scm.c lay them out.
module Bytes {
  import opened Arith

  type byte = x: int | 0 <= x < 256
  type Bytes = seq<byte>

  const TWO64 := 0x1_0000_0000_0000_0000
  type u64 = x: int | 0 <= x < TWO64

  function Pow256(width: nat): (p: nat)
    ensures p > 0
  {
    if width == 0 then 1 else 256 * Pow256(width - 1)
  }

  // The `width` low-order bytes of n, least significant first.
  function Le(n: nat, width: nat): (bs: Bytes)
    ensures |bs| == width
  {
    if width == 0 then [] else [n % 256] + Le(n / 256, width - 1)
  }

  function Nat(bs: Bytes): nat {
    if bs == [] then 0 else bs[0] + 256 * Nat(bs[1..])
  }

  lemma {:induction false} NatOfLe(n: nat, width: nat)
    requires n < Pow256(width)
    ensures Nat(Le(n, width)) == n
  {
    if width == 0 {
    } else {
      NatOfLe(n / 256, width - 1);
      assert Le(n, width)[1..] == Le(n / 256, width - 1);
    }
  }

  lemma {:induction false} LeOfNat(bs: Bytes)
    ensures Nat(bs) < Pow256(|bs|)
    ensures Le(Nat(bs), |bs|) == bs
  {
    if bs == [] {
    } else {
      LeOfNat(bs[1..]);
    }
  }

  // Byte i of the field is the i-th digit of n to base 256, the lowest first.
  lemma {:induction false} LeDigit(n: nat, width: nat, i: nat)
    requires i < width
    ensures Le(n, width)[i] == n / Pow256(i) % 256
  {
    if i == 0 {
    } else {
      LeDigit(n / 256, width - 1, i - 1);
      DivTwice(n, Pow256(i - 1));
    }
  }

  lemma Widths()
    ensures Pow256(2) == 0x1_0000 && Pow256(4) == 0x1_0000_0000 && Pow256(8) == TWO64
  {
    assert Pow256(2) == 256 * 256;
    assert Pow256(4) == 256 * 256 * Pow256(2);
    assert Pow256(6) == 256 * 256 * Pow256(4);
    assert Pow256(8) == 256 * 256 * Pow256(6);
  }

  function Zeros(n: nat): Bytes {
    seq(n, _ => 0)
  }
}
