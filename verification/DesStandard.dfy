/** The cipher of FIPS 46-3 ("Enciphering", "Primitive functions for the data encryption algorithm"), and the
    proof that d3des.c computes it, with the bits of each key byte taken from the low end. */
module DesStandard {
  import opened DesTables
  import opened Des
  import opened DesBoxes
  import opened DesCode

  // ----- the cipher function f -----

  function Six(w: bv32, a: bv32, b: bv32, c: bv32, d: bv32, e: bv32, f: bv32): bv32
    requires 1 <= a <= 32 && 1 <= b <= 32 && 1 <= c <= 32 && 1 <= d <= 32 && 1 <= e <= 32 && 1 <= f <= 32
  {
    (Bit(w, a) << 5) | (Bit(w, b) << 4) | (Bit(w, c) << 3) | (Bit(w, d) << 2) | (Bit(w, e) << 1) | Bit(w, f)
  }

  // the rows of the table E

  function E1(r: bv32): bv32 { Six(r, 32, 1, 2, 3, 4, 5) }

  function E2(r: bv32): bv32 { Six(r, 4, 5, 6, 7, 8, 9) }

  function E3(r: bv32): bv32 { Six(r, 8, 9, 10, 11, 12, 13) }

  function E4(r: bv32): bv32 { Six(r, 12, 13, 14, 15, 16, 17) }

  function E5(r: bv32): bv32 { Six(r, 16, 17, 18, 19, 20, 21) }

  function E6(r: bv32): bv32 { Six(r, 20, 21, 22, 23, 24, 25) }

  function E7(r: bv32): bv32 { Six(r, 24, 25, 26, 27, 28, 29) }

  function E8(r: bv32): bv32 { Six(r, 28, 29, 30, 31, 32, 1) }

  type SixBits = v: bv32 | v & 0x3f == v

  /** The 48 bits of a round key, six for each S-box. */
  datatype SubKey = SubKey(k1: SixBits, k2: SixBits, k3: SixBits, k4: SixBits,
                           k5: SixBits, k6: SixBits, k7: SixBits, k8: SixBits)

  /** A six-bit number. */
  function Index(v: bv32): (x: nat)
    ensures x < 64
  {
    (v & 0x3f) as bv6 as nat
  }

  function Cat(a: Nibble, b: Nibble, c: Nibble, d: Nibble, e: Nibble, f: Nibble, g: Nibble, h: Nibble): bv32 {
    (a << 28) | (b << 24) | (c << 20) | (d << 16) | (e << 12) | (f << 8) | (g << 4) | h
  }

  /** The six bits that select the entry of an S-box. */
  function Select(e: bv32, k: SixBits): (x: nat)
    ensures x < 64
  {
    Index(Mixed6(e, k))
  }

  function Mixed6(e: bv32, k: SixBits): bv32 { (e ^ k) & 0x3f }

  function F(r: bv32, k: SubKey): bv32 {
    P(Cat(S1(Select(E1(r), k.k1)), S2(Select(E2(r), k.k2)), S3(Select(E3(r), k.k3)), S4(Select(E4(r), k.k4)),
          S5(Select(E5(r), k.k5)), S6(Select(E6(r), k.k6)), S7(Select(E7(r), k.k7)), S8(Select(E8(r), k.k8))))
  }

  /** A round key as cookey arranges it: a six-bit group in each byte, S-boxes by turns. */
  function Bytes(a: SixBits, b: SixBits, c: SixBits, d: SixBits): bv32 {
    (a << 24) | (b << 16) | (c << 8) | d
  }

  function OddWord(k: SubKey): bv32 { Bytes(k.k1, k.k3, k.k5, k.k7) }

  function EvenWord(k: SubKey): bv32 { Bytes(k.k2, k.k4, k.k6, k.k8) }

  // the six bits that begin at bit N from the right

  function At0(w: bv32): bv32 { w & 0x3f }

  function At8(w: bv32): bv32 { (w >> 8) & 0x3f }

  function At16(w: bv32): bv32 { (w >> 16) & 0x3f }

  function At24(w: bv32): bv32 { (w >> 24) & 0x3f }

  lemma Six0Is(w: bv32)
    ensures Six0(w) == Index(At0(w))
  {
    assert At0(w) as bv6 == (At0(w) & 0x3f) as bv6;
  }

  lemma Six8Is(w: bv32)
    ensures Six8(w) == Index(At8(w))
  {
    assert At8(w) as bv6 == (At8(w) & 0x3f) as bv6;
  }

  lemma Six16Is(w: bv32)
    ensures Six16(w) == Index(At16(w))
  {
    assert At16(w) as bv6 == (At16(w) & 0x3f) as bv6;
  }

  lemma Six24Is(w: bv32)
    ensures Six24(w) == Index(At24(w))
  {
    assert At24(w) as bv6 == (At24(w) & 0x3f) as bv6;
  }

  lemma OddRaw(r: bv32, a: SixBits, b: SixBits, c: SixBits, d: SixBits)
    ensures var w := OddSelector(TurnLeft(r), (a << 24) | (b << 16) | (c << 8) | d);
      && (w >> 24) & 0x3f == (E1(r) ^ a) & 0x3f
      && (w >> 16) & 0x3f == (E3(r) ^ b) & 0x3f
      && (w >> 8) & 0x3f == (E5(r) ^ c) & 0x3f
      && w & 0x3f == (E7(r) ^ d) & 0x3f
  {
  }

  lemma OddBits(r: bv32, a: SixBits, b: SixBits, c: SixBits, d: SixBits)
    ensures var w := OddSelector(TurnLeft(r), Bytes(a, b, c, d));
      && At24(w) == Mixed6(E1(r), a) && At16(w) == Mixed6(E3(r), b)
      && At8(w) == Mixed6(E5(r), c) && At0(w) == Mixed6(E7(r), d)
  {
    hide OddSelector, TurnLeft, E1, E3, E5, E7;
    OddRaw(r, a, b, c, d);
  }

  lemma EvenRaw(r: bv32, a: SixBits, b: SixBits, c: SixBits, d: SixBits)
    ensures var w := EvenSelector(TurnLeft(r), (a << 24) | (b << 16) | (c << 8) | d);
      && (w >> 24) & 0x3f == (E2(r) ^ a) & 0x3f
      && (w >> 16) & 0x3f == (E4(r) ^ b) & 0x3f
      && (w >> 8) & 0x3f == (E6(r) ^ c) & 0x3f
      && w & 0x3f == (E8(r) ^ d) & 0x3f
  {
  }

  lemma EvenBits(r: bv32, a: SixBits, b: SixBits, c: SixBits, d: SixBits)
    ensures var w := EvenSelector(TurnLeft(r), Bytes(a, b, c, d));
      && At24(w) == Mixed6(E2(r), a) && At16(w) == Mixed6(E4(r), b)
      && At8(w) == Mixed6(E6(r), c) && At0(w) == Mixed6(E8(r), d)
  {
    hide EvenSelector, TurnLeft, E2, E4, E6, E8;
    EvenRaw(r, a, b, c, d);
  }

  lemma Selects(r: bv32, k: SubKey)
    ensures var w := OddSelector(TurnLeft(r), OddWord(k));
      && Six24(w) == Select(E1(r), k.k1) && Six16(w) == Select(E3(r), k.k3)
      && Six8(w) == Select(E5(r), k.k5) && Six0(w) == Select(E7(r), k.k7)
    ensures var w := EvenSelector(TurnLeft(r), EvenWord(k));
      && Six24(w) == Select(E2(r), k.k2) && Six16(w) == Select(E4(r), k.k4)
      && Six8(w) == Select(E6(r), k.k6) && Six0(w) == Select(E8(r), k.k8)
  {
    hide OddSelector, EvenSelector, Bytes, TurnLeft, Mixed6, Index, At0, At8, At16, At24;
    hide E1, E2, E3, E4, E5, E6, E7, E8, Six0, Six8, Six16, Six24;
    OddBits(r, k.k1, k.k3, k.k5, k.k7);
    EvenBits(r, k.k2, k.k4, k.k6, k.k8);
    var v, w := OddSelector(TurnLeft(r), OddWord(k)), EvenSelector(TurnLeft(r), EvenWord(k));
    Six0Is(v);
    Six8Is(v);
    Six16Is(v);
    Six24Is(v);
    Six0Is(w);
    Six8Is(w);
    Six16Is(w);
    Six24Is(w);
  }

  lemma BoxesAreStandard(w: bv32)
    ensures OddBoxes(w) == Or4(Out7(S7(Six0(w))), Out5(S5(Six8(w))), Out3(S3(Six16(w))), Out1(S1(Six24(w))))
    ensures EvenBoxes(w) == Or4(Out8(S8(Six0(w))), Out6(S6(Six8(w))), Out4(S4(Six16(w))), Out2(S2(Six24(w))))
  {
    hide Out1, Out2, Out3, Out4, Out5, Out6, Out7, Out8, S1, S2, S3, S4, S5, S6, S7, S8;
    hide Six0, Six8, Six16, Six24, Or4;
    Table1(Six24(w));
    Table2(Six24(w));
    Table3(Six16(w));
    Table4(Six16(w));
    Table5(Six8(w));
    Table6(Six8(w));
    Table7(Six0(w));
    Table8(Six0(w));
  }

  /** P and the rotation take the nibbles apart. */
  lemma Outputs(a: Nibble, b: Nibble, c: Nibble, d: Nibble, e: Nibble, f: Nibble, g: Nibble, h: Nibble)
    ensures TurnLeft(P(Cat(a, b, c, d, e, f, g, h)))
         == Either(Or4(Out7(g), Out5(e), Out3(c), Out1(a)), Or4(Out8(h), Out6(f), Out4(d), Out2(b)))
  {
  }

  /** On halves rotated left by one and keys as cookey arranges them, the round function is f. */
  lemma MangleIsStandard(r: bv32, k: SubKey)
    ensures Mangle(TurnLeft(r), Pair(OddWord(k), EvenWord(k))) == TurnLeft(F(r, k))
  {
    hide OddBoxes, EvenBoxes, OddSelector, EvenSelector, OddWord, EvenWord, TurnLeft, P, Cat, Or4, Either, Select;
    hide S1, S2, S3, S4, S5, S6, S7, S8, E1, E2, E3, E4, E5, E6, E7, E8, Six0, Six8, Six16, Six24;
    hide Out1, Out2, Out3, Out4, Out5, Out6, Out7, Out8;
    Selects(r, k);
    BoxesAreStandard(OddSelector(TurnLeft(r), OddWord(k)));
    BoxesAreStandard(EvenSelector(TurnLeft(r), EvenWord(k)));
    Outputs(S1(Select(E1(r), k.k1)), S2(Select(E2(r), k.k2)), S3(Select(E3(r), k.k3)), S4(Select(E4(r), k.k4)),
            S5(Select(E5(r), k.k5)), S6(Select(E6(r), k.k6)), S7(Select(E7(r), k.k7)), S8(Select(E8(r), k.k8)));
  }

  // ----- the rounds and the permutations around them -----

  function StandardRounds(p: Pair, ks: seq<SubKey>): Pair {
    if ks == [] then p
    else
      var q := StandardRounds(p, ks[..|ks| - 1]);
      Pair(q.b, q.a ^ F(q.b, ks[|ks| - 1]))
  }

  function Turned(p: Pair): Pair {
    Pair(TurnLeft(p.a), TurnLeft(p.b))
  }

  function Arranged(k: SubKey): Pair {
    Pair(OddWord(k), EvenWord(k))
  }

  lemma TurnSum(x: bv32, y: bv32)
    ensures Add(TurnLeft(x), TurnLeft(y)) == TurnLeft(x ^ y)
  {
  }

  lemma {:induction false} RoundsAreStandard(p: Pair, keys: seq<Pair>, ks: seq<SubKey>)
    requires |keys| == |ks| && forall i | 0 <= i < |ks| :: keys[i] == Arranged(ks[i])
    ensures Rounds(Mangle, Turned(p), keys) == Turned(StandardRounds(p, ks))
    decreases |ks|
  {
    hide Mangle, F, TurnLeft, Add, OddWord, EvenWord;
    if ks != [] {
      var n := |ks| - 1;
      RoundsAreStandard(p, keys[..n], ks[..n]);
      var q := StandardRounds(p, ks[..n]);
      MangleIsStandard(q.b, ks[n]);
      TurnSum(q.a, F(q.b, ks[n]));
    }
  }

  lemma TurnedOnce(x: bv32, y: bv32)
    requires TurnLeft(x) == TurnLeft(y)
    ensures x == y
  {
  }

  /** The output, permuted by IP, is the pre-output R16 L16: it is the inverse of IP applied to it. */
  lemma EncipherIsStandard(block: Pair, keys: seq<Pair>, ks: seq<SubKey>)
    requires |keys| == |ks| && forall i | 0 <= i < |ks| :: keys[i] == Arranged(ks[i])
    ensures StandardInitial(Encipher(block, keys)) == Swap(StandardRounds(StandardInitial(block), ks))
  {
    hide InitialPermutation, FinalPermutation, StandardInitial, StandardRounds, Rounds, Mangle, TurnLeft, Arranged;
    var start := StandardInitial(block);
    InitialIsStandard(block);
    RoundsAreStandard(start, keys, ks);
    var out := StandardRounds(start, ks);
    InitialUndoesFinal(Turned(out));
    var q := Encipher(block, keys);
    InitialIsStandard(q);
    TurnedOnce(StandardInitial(q).a, out.b);
    TurnedOnce(StandardInitial(q).b, out.a);
  }
}
