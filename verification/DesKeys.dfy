/** The key schedule of FIPS 46-3 ("Primitive functions for the data encryption algorithm"), and the proof
    that deskey and cookey compute it. */
module DesKeys {
  import opened DesTables
  import opened Des
  import opened DesCode
  import opened DesBoxes
  import opened DesStandard

  const PERMUTED_CHOICE_1: seq<nat> :=
    [57, 49, 41, 33, 25, 17, 9, 1, 58, 50, 42, 34, 26, 18] +
    [10, 2, 59, 51, 43, 35, 27, 19, 11, 3, 60, 52, 44, 36] +
    [63, 55, 47, 39, 31, 23, 15, 7, 62, 54, 46, 38, 30, 22] +
    [14, 6, 61, 53, 45, 37, 29, 21, 13, 5, 28, 20, 12, 4]

  const PERMUTED_CHOICE_2: seq<nat> :=
    [14, 17, 11, 24, 1, 5, 3, 28, 15, 6, 21, 10] +
    [23, 19, 12, 4, 26, 8, 16, 7, 27, 20, 13, 2] +
    [41, 52, 31, 37, 47, 55, 30, 40, 51, 45, 33, 48] +
    [44, 49, 39, 56, 34, 53, 46, 42, 50, 36, 29, 32]

  const SHIFTS: seq<nat> := [1, 1, 2, 2, 2, 2, 2, 2] + [1, 2, 2, 2, 2, 2, 2, 1]

  lemma Choice1(j: nat)
    requires j < 56
    ensures |PERMUTED_CHOICE_1| == 56 && PC1[j] == PERMUTED_CHOICE_1[j] - 1
  {
  }

  lemma Choice2(n: nat)
    requires n < 48
    ensures |PERMUTED_CHOICE_2| == 48 && PC2[n] == PERMUTED_CHOICE_2[n] - 1
  {
  }

  lemma Shift(i: nat)
    requires i < 16
    ensures |SHIFTS| == 16 && TOTROT[i] <= 28
    ensures TOTROT[i] == SHIFTS[i] + if i == 0 then 0 else TOTROT[i - 1]
  {
  }

  // ----- C and D -----

  /** Bit n of the key, numbered 1 to 64, each byte read from its low end. */
  predicate KeyBitAt(key: seq<bv8>, n: nat)
    requires |key| == 8 && 1 <= n <= 64
  {
    HasBit(key[(n - 1) / 8], (n - 1) % 8)
  }

  type Halves = s: seq<bool> | |s| == 56 witness seq(56, _ => false)

  /** Where bit j of C D has come from after shifts of n in all. */
  function From(j: nat, n: nat): (l: nat)
    requires j < 56
    ensures l < 56
  {
    if j < 28 then (j + n) % 28 else 28 + (j - 28 + n) % 28
  }

  /** C and D, each rotated left by n. */
  function Shifted(cd: Halves, n: nat): Halves {
    seq(56, j requires 0 <= j < 56 => cd[From(j, n)])
  }

  function Chosen(key: seq<bv8>): (r: Halves)
    requires |key| == 8
  {
    seq(56, j requires 0 <= j < 56 => ChosenBit(key, j))
  }

  predicate ChosenBit(key: seq<bv8>, j: nat)
    requires |key| == 8 && j < 56
  {
    Choice1(j);
    KeyBitAt(key, PERMUTED_CHOICE_1[j])
  }

  /** C and D of round i. */
  function Cd(key: seq<bv8>, i: nat): Halves
    requires |key| == 8 && i <= 16
  {
    if i == 0 then Chosen(key)
    else
      Shift(i - 1);
      Shifted(Cd(key, i - 1), SHIFTS[i - 1])
  }

  lemma FromFrom(j: nat, m: nat, n: nat)
    requires j < 56 && m + n <= 28
    ensures From(From(j, n), m) == From(j, m + n)
  {
  }

  lemma FromSource(i: nat, j: nat)
    requires i < 16 && j < 56
    ensures From(j, TOTROT[i]) == Source(i, j)
  {
  }

  lemma ChosenIs(key: seq<bv8>, j: nat)
    requires |key| == 8 && j < 56
    ensures Chosen(key)[j] == KeyBitSet(key, j)
  {
    hide HasBit;
    Choice1(j);
  }

  lemma CdStart(key: seq<bv8>)
    requires |key| == 8
    ensures Cd(key, 0) == Chosen(key)
  {
  }

  lemma CdStep(key: seq<bv8>, i: nat, j: nat)
    requires |key| == 8 && i < 16 && j < 56
    ensures |SHIFTS| == 16 && Cd(key, i + 1)[j] == Cd(key, i)[From(j, SHIFTS[i])]
  {
    hide From, SHIFTS, TOTROT;
    Shift(i);
  }

  lemma {:induction false} CdShifted(key: seq<bv8>, i: nat, j: nat)
    requires |key| == 8 && i < 16 && j < 56
    ensures Cd(key, i + 1)[j] == Chosen(key)[From(j, TOTROT[i])]
    decreases i
  {
    hide Chosen, From, Cd, TOTROT, SHIFTS;
    Shift(i);
    CdStep(key, i, j);
    if i == 0 {
      CdStart(key);
    } else {
      CdShifted(key, i - 1, From(j, SHIFTS[i]));
      FromFrom(j, TOTROT[i - 1], SHIFTS[i]);
    }
  }

  /** The bits that pcr holds in round i are those of C and D after i + 1 shifts. */
  lemma CdIsSource(key: seq<bv8>, i: nat, j: nat)
    requires |key| == 8 && i < 16 && j < 56
    ensures Cd(key, i + 1)[j] == KeyBitSet(key, Source(i, j))
  {
    hide Cd, Chosen, KeyBitSet, Source, From;
    CdShifted(key, i, j);
    FromSource(i, j);
    ChosenIs(key, Source(i, j));
  }

  // ----- the round keys -----

  /** Bit n of the key of round i + 1, counted from 0. */
  predicate KBit(key: seq<bv8>, i: nat, n: nat)
    requires |key| == 8 && i < 16 && n < 48
  {
    Choice2(n);
    Cd(key, i + 1)[PERMUTED_CHOICE_2[n] - 1]
  }

  function Pack(a: bool, b: bool, c: bool, d: bool, e: bool, f: bool): SixBits {
    (if a then 0x20 else 0) | (if b then 0x10 else 0) | (if c then 8 else 0)
    | (if d then 4 else 0) | (if e then 2 else 0) | (if f then 1 else 0)
  }

  function Packed(key: seq<bv8>, i: nat, n: nat): SixBits
    requires |key| == 8 && i < 16 && n + 6 <= 48
  {
    Pack(KBit(key, i, n), KBit(key, i, n + 1), KBit(key, i, n + 2),
         KBit(key, i, n + 3), KBit(key, i, n + 4), KBit(key, i, n + 5))
  }

  /** The key of round i + 1: 48 bits in eight groups of six. */
  function SubKeyOf(key: seq<bv8>, i: nat): SubKey
    requires |key| == 8 && i < 16
  {
    SubKey(Packed(key, i, 0), Packed(key, i, 6), Packed(key, i, 12), Packed(key, i, 18),
           Packed(key, i, 24), Packed(key, i, 30), Packed(key, i, 36), Packed(key, i, 42))
  }

  lemma RawStep(key: seq<bv8>, i: nat, half: nat, n: nat)
    requires |key| == 8 && i < 16 && half < 2 && n < 24
    ensures RawKey(key, i, half, n + 1) == Joined(RawKey(key, i, half, n), KBit(key, i, n + 24 * half), n)
  {
    hide KeyBitSet, Source, Joined, Cd;
    CdIsSource(key, i, PC2[n + 24 * half]);
    Choice2(n + 24 * half);
  }

  function Wide6(v: SixBits): bv64 { v as bv64 }

  /** What a bit adds to a raw word. */
  function Mask(bit: bool, j: nat): bv64
    requires j < 24
  {
    if bit then BigByte(j) else 0
  }

  lemma JoinedMask(w: bv64, bit: bool, j: nat)
    requires j < 24
    ensures Joined(w, bit, j) == Or64(w, Mask(bit, j))
  {
    hide BigByte;
    OrZero(w);
  }

  lemma OrZero(w: bv64)
    ensures Or64(w, 0) == w
  {
  }

  function Or64(x: bv64, y: bv64): bv64 { x | y }

  function Or3(a: bv64, b: bv64, c: bv64): bv64 { a | b | c }

  function Or6(a: bv64, b: bv64, c: bv64, d: bv64, e: bv64, f: bv64): bv64 { a | b | c | d | e | f }

  lemma OrThree(w: bv64, a: bv64, b: bv64, c: bv64)
    ensures Or64(Or64(Or64(w, a), b), c) == Or64(w, Or3(a, b, c))
  {
    assert w | a | b | c == w | (a | b | c);
  }

  lemma OrSix(w: bv64, a: bv64, b: bv64, c: bv64, d: bv64, e: bv64, f: bv64)
    ensures Or64(Or64(w, Or3(a, b, c)), Or3(d, e, f)) == Or64(w, Or6(a, b, c, d, e, f))
  {
    assert w | (a | b | c) | (d | e | f) == w | (a | b | c | d | e | f);
  }

  lemma OrChain(w: bv64, a: bv64, b: bv64, c: bv64, d: bv64, e: bv64, f: bv64,
                x1: bv64, x2: bv64, x3: bv64, x4: bv64, x5: bv64, x6: bv64)
    requires x1 == Or64(w, a) && x2 == Or64(x1, b) && x3 == Or64(x2, c)
    requires x4 == Or64(x3, d) && x5 == Or64(x4, e) && x6 == Or64(x5, f)
    ensures x6 == Or64(w, Or6(a, b, c, d, e, f))
  {
    hide Or64, Or3, Or6;
    OrThree(w, a, b, c);
    OrThree(x3, d, e, f);
    OrSix(w, a, b, c, d, e, f);
  }

  // a group at its place in a raw word

  function Group18(v: SixBits): bv64 { Wide6(v) << 18 }

  function Group12(v: SixBits): bv64 { Wide6(v) << 12 }

  function Group6(v: SixBits): bv64 { Wide6(v) << 6 }

  function Group0(v: SixBits): bv64 { Wide6(v) }

  lemma Masks0(a: bool, b: bool, c: bool, d: bool, e: bool, f: bool)
    ensures Or6(Mask(a, 0), Mask(b, 1), Mask(c, 2), Mask(d, 3), Mask(e, 4), Mask(f, 5))
         == Group18(Pack(a, b, c, d, e, f))
  {
    assert Mask(a, 0) == if a then 0x800000 else 0;
    assert Mask(b, 1) == if b then 0x400000 else 0;
    assert Mask(c, 2) == if c then 0x200000 else 0;
    assert Mask(d, 3) == if d then 0x100000 else 0;
    assert Mask(e, 4) == if e then 0x80000 else 0;
    assert Mask(f, 5) == if f then 0x40000 else 0;
  }

  lemma Masks6(a: bool, b: bool, c: bool, d: bool, e: bool, f: bool)
    ensures Or6(Mask(a, 6), Mask(b, 7), Mask(c, 8), Mask(d, 9), Mask(e, 10), Mask(f, 11))
         == Group12(Pack(a, b, c, d, e, f))
  {
    assert Mask(a, 6) == if a then 0x20000 else 0;
    assert Mask(b, 7) == if b then 0x10000 else 0;
    assert Mask(c, 8) == if c then 0x8000 else 0;
    assert Mask(d, 9) == if d then 0x4000 else 0;
    assert Mask(e, 10) == if e then 0x2000 else 0;
    assert Mask(f, 11) == if f then 0x1000 else 0;
  }

  lemma Masks12(a: bool, b: bool, c: bool, d: bool, e: bool, f: bool)
    ensures Or6(Mask(a, 12), Mask(b, 13), Mask(c, 14), Mask(d, 15), Mask(e, 16), Mask(f, 17))
         == Group6(Pack(a, b, c, d, e, f))
  {
    assert Mask(a, 12) == if a then 0x800 else 0;
    assert Mask(b, 13) == if b then 0x400 else 0;
    assert Mask(c, 14) == if c then 0x200 else 0;
    assert Mask(d, 15) == if d then 0x100 else 0;
    assert Mask(e, 16) == if e then 0x80 else 0;
    assert Mask(f, 17) == if f then 0x40 else 0;
  }

  lemma Masks18(a: bool, b: bool, c: bool, d: bool, e: bool, f: bool)
    ensures Or6(Mask(a, 18), Mask(b, 19), Mask(c, 20), Mask(d, 21), Mask(e, 22), Mask(f, 23))
         == Group0(Pack(a, b, c, d, e, f))
  {
    assert Mask(a, 18) == if a then 0x20 else 0;
    assert Mask(b, 19) == if b then 0x10 else 0;
    assert Mask(c, 20) == if c then 0x8 else 0;
    assert Mask(d, 21) == if d then 0x4 else 0;
    assert Mask(e, 22) == if e then 0x2 else 0;
    assert Mask(f, 23) == if f then 0x1 else 0;
  }

  /** The four groups of a raw word. */
  function Groups(a: SixBits, b: SixBits, c: SixBits, d: SixBits): bv64 {
    (Wide6(a) << 18) | (Wide6(b) << 12) | (Wide6(c) << 6) | Wide6(d)
  }

  /** Six bits more of a raw word. */
  lemma RawSix(key: seq<bv8>, i: nat, half: nat, n: nat)
    requires |key| == 8 && i < 16 && half < 2 && n <= 18
    ensures var m := n + 24 * half;
      RawKey(key, i, half, n + 6) == Or64(RawKey(key, i, half, n),
        Or6(Mask(KBit(key, i, m), n), Mask(KBit(key, i, m + 1), n + 1), Mask(KBit(key, i, m + 2), n + 2),
            Mask(KBit(key, i, m + 3), n + 3), Mask(KBit(key, i, m + 4), n + 4), Mask(KBit(key, i, m + 5), n + 5)))
  {
    hide RawKey, Joined, Mask, KBit, Or64, Or6;
    var m, w := n + 24 * half, RawKey(key, i, half, n);
    var x1 := RawMore(key, i, half, n);
    var x2 := RawMore(key, i, half, n + 1);
    var x3 := RawMore(key, i, half, n + 2);
    var x4 := RawMore(key, i, half, n + 3);
    var x5 := RawMore(key, i, half, n + 4);
    var x6 := RawMore(key, i, half, n + 5);
    OrChain(w, Mask(KBit(key, i, m), n), Mask(KBit(key, i, m + 1), n + 1), Mask(KBit(key, i, m + 2), n + 2),
            Mask(KBit(key, i, m + 3), n + 3), Mask(KBit(key, i, m + 4), n + 4), Mask(KBit(key, i, m + 5), n + 5),
            x1, x2, x3, x4, x5, x6);
  }

  lemma RawMore(key: seq<bv8>, i: nat, half: nat, n: nat) returns (x: bv64)
    requires |key| == 8 && i < 16 && half < 2 && n < 24
    ensures x == RawKey(key, i, half, n + 1) == Or64(RawKey(key, i, half, n), Mask(KBit(key, i, n + 24 * half), n))
  {
    hide RawKey, Joined, Mask, KBit, Or64;
    RawStep(key, i, half, n);
    JoinedMask(RawKey(key, i, half, n), KBit(key, i, n + 24 * half), n);
    x := RawKey(key, i, half, n + 1);
  }

  lemma RawParts(key: seq<bv8>, i: nat, half: nat)
    requires |key| == 8 && i < 16 && half < 2
    ensures var m := 24 * half;
      && RawKey(key, i, half, 6) == Or64(RawKey(key, i, half, 0), Group18(Packed(key, i, m)))
      && RawKey(key, i, half, 12) == Or64(RawKey(key, i, half, 6), Group12(Packed(key, i, 6 + m)))
      && RawKey(key, i, half, 18) == Or64(RawKey(key, i, half, 12), Group6(Packed(key, i, 12 + m)))
      && RawKey(key, i, half, 24) == Or64(RawKey(key, i, half, 18), Group0(Packed(key, i, 18 + m)))
  {
    hide RawKey, Packed, Or64, Group0, Group6, Group12, Group18;
    RawPart(key, i, half, 0);
    RawPart(key, i, half, 6);
    RawPart(key, i, half, 12);
    RawPart(key, i, half, 18);
  }

  lemma RawPart(key: seq<bv8>, i: nat, half: nat, n: nat)
    requires |key| == 8 && i < 16 && half < 2 && (n == 0 || n == 6 || n == 12 || n == 18)
    ensures var v, w := Packed(key, i, n + 24 * half), RawKey(key, i, half, n);
      RawKey(key, i, half, n + 6)
      == if n == 0 then Or64(w, Group18(v)) else if n == 6 then Or64(w, Group12(v))
         else if n == 12 then Or64(w, Group6(v)) else Or64(w, Group0(v))
  {
    hide RawKey, Mask, Pack, KBit, Or64, Or6, Group0, Group6, Group12, Group18;
    var m := n + 24 * half;
    var a, b, c := KBit(key, i, m), KBit(key, i, m + 1), KBit(key, i, m + 2);
    var d, e, f := KBit(key, i, m + 3), KBit(key, i, m + 4), KBit(key, i, m + 5);
    RawSix(key, i, half, n);
    if n == 0 {
      Masks0(a, b, c, d, e, f);
    } else if n == 6 {
      Masks6(a, b, c, d, e, f);
    } else if n == 12 {
      Masks12(a, b, c, d, e, f);
    } else {
      Masks18(a, b, c, d, e, f);
    }
  }

  lemma RawNone(key: seq<bv8>, i: nat, half: nat)
    requires |key| == 8 && i < 16 && half < 2
    ensures RawKey(key, i, half, 0) == 0
  {
  }

  lemma OrGroups(x0: bv64, x1: bv64, x2: bv64, x3: bv64, x4: bv64, a: SixBits, b: SixBits, c: SixBits, d: SixBits)
    requires x0 == 0 && x1 == Or64(x0, Group18(a)) && x2 == Or64(x1, Group12(b))
    requires x3 == Or64(x2, Group6(c)) && x4 == Or64(x3, Group0(d))
    ensures x4 == Groups(a, b, c, d)
  {
    hide Or64, Or3, Group0, Group6, Group12, Group18, Groups;
    FirstGroup(Group18(a));
    OrThree(Group18(a), Group12(b), Group6(c), Group0(d));
    FourGroups(a, b, c, d);
  }

  lemma FirstGroup(x: bv64)
    ensures Or64(0, x) == x
  {
  }

  lemma FourGroups(a: SixBits, b: SixBits, c: SixBits, d: SixBits)
    ensures Or64(Group18(a), Or3(Group12(b), Group6(c), Group0(d))) == Groups(a, b, c, d)
  {
  }

  /** A raw word is four groups of a round key. */
  lemma RawGroups(key: seq<bv8>, i: nat, half: nat)
    requires |key| == 8 && i < 16 && half < 2
    ensures RawKey(key, i, half, 24) == Groups(Packed(key, i, 24 * half), Packed(key, i, 6 + 24 * half),
                                               Packed(key, i, 12 + 24 * half), Packed(key, i, 18 + 24 * half))
  {
    hide RawKey, Packed, Groups, Or64, Group0, Group6, Group12, Group18;
    RawNone(key, i, half);
    RawParts(key, i, half);
    OrGroups(RawKey(key, i, half, 0), RawKey(key, i, half, 6), RawKey(key, i, half, 12), RawKey(key, i, half, 18),
             RawKey(key, i, half, 24), Packed(key, i, 24 * half), Packed(key, i, 6 + 24 * half),
             Packed(key, i, 12 + 24 * half), Packed(key, i, 18 + 24 * half));
  }

  lemma CookGroups(a: SixBits, b: SixBits, c: SixBits, d: SixBits, e: SixBits, f: SixBits, g: SixBits, h: SixBits)
    ensures Low(CookFirst(Groups(a, b, c, d), Groups(e, f, g, h))) == Bytes(a, c, e, g)
    ensures Low(CookSecond(Groups(a, b, c, d), Groups(e, f, g, h))) == Bytes(b, d, f, h)
  {
  }

  /** deskey and cookey give the round keys of the standard, arranged for the S-boxes. */
  lemma RoundKeyIsStandard(key: seq<bv8>, i: nat)
    requires |key| == 8 && i < 16
    ensures LowPair(RoundKey(key, i)) == Arranged(SubKeyOf(key, i))
  {
    hide RawKey, Packed, Groups, Low, CookFirst, CookSecond, Bytes;
    RawGroups(key, i, 0);
    RawGroups(key, i, 1);
    CookGroups(Packed(key, i, 0), Packed(key, i, 6), Packed(key, i, 12), Packed(key, i, 18),
               Packed(key, i, 24), Packed(key, i, 30), Packed(key, i, 36), Packed(key, i, 42));
  }

  /** The sixteen round keys of the standard. */
  function SubKeys(key: seq<bv8>): (ks: seq<SubKey>)
    requires |key| == 8
    ensures |ks| == 16
  {
    seq(16, i requires 0 <= i < 16 => SubKeyOf(key, i))
  }

  /** deskey and des compute the cipher of FIPS 46-3: IP of the output is R16 L16. */
  lemma DesIsStandard(key: seq<bv8>, block: seq<bv8>)
    requires |key| == 8 && |block| == 8
    ensures StandardInitial(Scrunch(DesBlock(key, false, block)))
         == Swap(StandardRounds(StandardInitial(Scrunch(block)), SubKeys(key)))
  {
    hide RoundKey, SubKeyOf, Arranged, Encipher, StandardInitial, StandardRounds, Scrunch, Unscrun, LowPair;
    var keys := LowKeys(Schedule(key, false));
    forall i | 0 <= i < 16
      ensures keys[i] == Arranged(SubKeys(key)[i])
    {
      RoundKeyIsStandard(key, i);
    }
    EncipherIsStandard(Scrunch(block), keys, SubKeys(key));
    BytesRoundTrip(block, Encipher(Scrunch(block), keys));
  }

  /** Bit j, from 0, of an octet, the most significant one first. */
  function OctetBit(b: bv8, j: bv8): bv32
    requires j < 8
  {
    ((b >> (7 - j)) & 1) as bv32
  }

  /** A block is read as FIPS 46-3 numbers its bits: octet after octet, the most significant bit first. */
  lemma BlockBits(b: seq<bv8>, j: bv8)
    requires |b| == 8 && j < 8
    ensures var p, n := Scrunch(b), j as bv32;
      && Bit(p.a, 1 + n) == OctetBit(b[0], j) && Bit(p.a, 9 + n) == OctetBit(b[1], j)
      && Bit(p.a, 17 + n) == OctetBit(b[2], j) && Bit(p.a, 25 + n) == OctetBit(b[3], j)
      && Bit(p.b, 1 + n) == OctetBit(b[4], j) && Bit(p.b, 9 + n) == OctetBit(b[5], j)
      && Bit(p.b, 17 + n) == OctetBit(b[6], j) && Bit(p.b, 25 + n) == OctetBit(b[7], j)
  {
    hide Word, Bit, OctetBit;
    WordBits(b[0], b[1], b[2], b[3], j);
    WordBits(b[4], b[5], b[6], b[7], j);
  }

  lemma WordBits(b0: bv8, b1: bv8, b2: bv8, b3: bv8, j: bv8)
    requires j < 8
    ensures var w, n := Word(b0, b1, b2, b3), j as bv32;
      && 1 + n <= 32 && 9 + n <= 32 && 17 + n <= 32 && 25 + n <= 32
      && Bit(w, 1 + n) == OctetBit(b0, j) && Bit(w, 9 + n) == OctetBit(b1, j)
      && Bit(w, 17 + n) == OctetBit(b2, j) && Bit(w, 25 + n) == OctetBit(b3, j)
  {
    hide Word, Bit, OctetBit;
    Places(j);
    WordBit0(b0, b1, b2, b3, j);
    WordBit1(b0, b1, b2, b3, j);
    WordBit2(b0, b1, b2, b3, j);
    WordBit3(b0, b1, b2, b3, j);
  }

  lemma Places(j: bv8)
    requires j < 8
    ensures var n := j as bv32; 1 <= 1 + n <= 32 && 1 <= 9 + n <= 32 && 1 <= 17 + n <= 32 && 1 <= 25 + n <= 32
  {
  }

  lemma WordBit0(b0: bv8, b1: bv8, b2: bv8, b3: bv8, j: bv8)
    requires j < 8 && 1 <= 1 + j as bv32 <= 32
    ensures Bit(Word(b0, b1, b2, b3), 1 + j as bv32) == OctetBit(b0, j)
  {
  }

  lemma WordBit1(b0: bv8, b1: bv8, b2: bv8, b3: bv8, j: bv8)
    requires j < 8 && 1 <= 9 + j as bv32 <= 32
    ensures Bit(Word(b0, b1, b2, b3), 9 + j as bv32) == OctetBit(b1, j)
  {
  }

  lemma WordBit2(b0: bv8, b1: bv8, b2: bv8, b3: bv8, j: bv8)
    requires j < 8 && 1 <= 17 + j as bv32 <= 32
    ensures Bit(Word(b0, b1, b2, b3), 17 + j as bv32) == OctetBit(b2, j)
  {
  }

  lemma WordBit3(b0: bv8, b1: bv8, b2: bv8, b3: bv8, j: bv8)
    requires j < 8 && 1 <= 25 + j as bv32 <= 32
    ensures Bit(Word(b0, b1, b2, b3), 25 + j as bv32) == OctetBit(b3, j)
  {
  }
}
