/** Octets and the big-endian integers of QEMUFile streams (qemu/savevm.c). */
module Octets {
  import opened Numbers

  type Byte = b: int | 0 <= b < 256

  function Pow256(n: nat): (p: nat)
    ensures p >= 1
  {
    if n == 0 then 1 else 256 * Pow256(n - 1)
  }

  /** The n low-order octets of v, most significant first. */
  function PutBe(v: nat, n: nat): (s: seq<Byte>)
    ensures |s| == n
  {
    if n == 0 then [] else PutBe(v / 256, n - 1) + [v % 256]
  }

  function GetBe(s: seq<Byte>): nat {
    if s == [] then 0 else GetBe(s[..|s| - 1]) * 256 + s[|s| - 1]
  }

  lemma {:induction false} GetBeBound(s: seq<Byte>)
    ensures GetBe(s) < Pow256(|s|)
  {
    if s != [] {
      GetBeBound(s[..|s| - 1]);
    }
  }

  lemma {:induction false} BeRoundTrip(v: nat, n: nat)
    requires v < Pow256(n)
    ensures GetBe(PutBe(v, n)) == v
  {
    if n > 0 {
      BeRoundTrip(v / 256, n - 1);
      assert PutBe(v, n)[..n - 1] == PutBe(v / 256, n - 1);
    }
  }

  /** Octet i, counted from the most significant one. */
  lemma {:induction false} PutBeAt(v: nat, n: nat, i: nat)
    requires i < n
    ensures PutBe(v, n)[i] == v / Pow256(n - 1 - i) % 256
  {
    if i < n - 1 {
      PutBeAt(v / 256, n - 1, i);
      DivDiv(v, 256, Pow256(n - 2 - i));
    }
  }

  const TWO_64 := 0x1_0000_0000_0000_0000

  lemma Pow256Of8()
    ensures Pow256(8) == TWO_64
  {
    assert Pow256(2) == 0x1_0000;
    assert Pow256(4) == 0x1_0000_0000;
    assert Pow256(6) == 0x1_0000_0000_0000;
  }

  /** qemu_put_be64. */
  function Be64(v: nat): (s: seq<Byte>)
    ensures |s| == 8
    ensures v < TWO_64 ==> Word(s) == v
  {
    Pow256Of8();
    assert v < TWO_64 ==> GetBe(PutBe(v, 8)) == v by {
      if v < TWO_64 { BeRoundTrip(v, 8); }
    }
    PutBe(v, 8)
  }

  /** qemu_get_be64. */
  function Word(s: seq<Byte>): (w: nat)
    requires |s| == 8
    ensures w < TWO_64
  {
    Pow256Of8();
    GetBeBound(s);
    GetBe(s)
  }
}
