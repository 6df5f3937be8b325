/** The S-boxes and the permutation P of FIPS 46-3, and the tables that d3des.c makes of them. */
module DesBoxes {
  import opened DesTables
  import opened Des

  type Nibble = v: bv32 | v & 0xf == v
  type SRow = s: seq<Nibble> | |s| == 16 witness seq(16, _ => 0)

  // row r of S-box g is Sg_r

  const S1_0: SRow := [14, 4, 13, 1, 2, 15, 11, 8, 3, 10, 6, 12, 5, 9, 0, 7]
  const S1_1: SRow := [0, 15, 7, 4, 14, 2, 13, 1, 10, 6, 12, 11, 9, 5, 3, 8]
  const S1_2: SRow := [4, 1, 14, 8, 13, 6, 2, 11, 15, 12, 9, 7, 3, 10, 5, 0]
  const S1_3: SRow := [15, 12, 8, 2, 4, 9, 1, 7, 5, 11, 3, 14, 10, 0, 6, 13]

  const S2_0: SRow := [15, 1, 8, 14, 6, 11, 3, 4, 9, 7, 2, 13, 12, 0, 5, 10]
  const S2_1: SRow := [3, 13, 4, 7, 15, 2, 8, 14, 12, 0, 1, 10, 6, 9, 11, 5]
  const S2_2: SRow := [0, 14, 7, 11, 10, 4, 13, 1, 5, 8, 12, 6, 9, 3, 2, 15]
  const S2_3: SRow := [13, 8, 10, 1, 3, 15, 4, 2, 11, 6, 7, 12, 0, 5, 14, 9]

  const S3_0: SRow := [10, 0, 9, 14, 6, 3, 15, 5, 1, 13, 12, 7, 11, 4, 2, 8]
  const S3_1: SRow := [13, 7, 0, 9, 3, 4, 6, 10, 2, 8, 5, 14, 12, 11, 15, 1]
  const S3_2: SRow := [13, 6, 4, 9, 8, 15, 3, 0, 11, 1, 2, 12, 5, 10, 14, 7]
  const S3_3: SRow := [1, 10, 13, 0, 6, 9, 8, 7, 4, 15, 14, 3, 11, 5, 2, 12]

  const S4_0: SRow := [7, 13, 14, 3, 0, 6, 9, 10, 1, 2, 8, 5, 11, 12, 4, 15]
  const S4_1: SRow := [13, 8, 11, 5, 6, 15, 0, 3, 4, 7, 2, 12, 1, 10, 14, 9]
  const S4_2: SRow := [10, 6, 9, 0, 12, 11, 7, 13, 15, 1, 3, 14, 5, 2, 8, 4]
  const S4_3: SRow := [3, 15, 0, 6, 10, 1, 13, 8, 9, 4, 5, 11, 12, 7, 2, 14]

  const S5_0: SRow := [2, 12, 4, 1, 7, 10, 11, 6, 8, 5, 3, 15, 13, 0, 14, 9]
  const S5_1: SRow := [14, 11, 2, 12, 4, 7, 13, 1, 5, 0, 15, 10, 3, 9, 8, 6]
  const S5_2: SRow := [4, 2, 1, 11, 10, 13, 7, 8, 15, 9, 12, 5, 6, 3, 0, 14]
  const S5_3: SRow := [11, 8, 12, 7, 1, 14, 2, 13, 6, 15, 0, 9, 10, 4, 5, 3]

  const S6_0: SRow := [12, 1, 10, 15, 9, 2, 6, 8, 0, 13, 3, 4, 14, 7, 5, 11]
  const S6_1: SRow := [10, 15, 4, 2, 7, 12, 9, 5, 6, 1, 13, 14, 0, 11, 3, 8]
  const S6_2: SRow := [9, 14, 15, 5, 2, 8, 12, 3, 7, 0, 4, 10, 1, 13, 11, 6]
  const S6_3: SRow := [4, 3, 2, 12, 9, 5, 15, 10, 11, 14, 1, 7, 6, 0, 8, 13]

  const S7_0: SRow := [4, 11, 2, 14, 15, 0, 8, 13, 3, 12, 9, 7, 5, 10, 6, 1]
  const S7_1: SRow := [13, 0, 11, 7, 4, 9, 1, 10, 14, 3, 5, 12, 2, 15, 8, 6]
  const S7_2: SRow := [1, 4, 11, 13, 12, 3, 7, 14, 10, 15, 6, 8, 0, 5, 9, 2]
  const S7_3: SRow := [6, 11, 13, 8, 1, 4, 10, 7, 9, 5, 0, 15, 14, 2, 3, 12]

  const S8_0: SRow := [13, 2, 8, 4, 6, 15, 11, 1, 10, 9, 3, 14, 5, 0, 12, 7]
  const S8_1: SRow := [1, 15, 13, 8, 10, 3, 7, 4, 12, 5, 6, 11, 0, 14, 9, 2]
  const S8_2: SRow := [7, 11, 4, 1, 9, 12, 14, 2, 0, 6, 10, 13, 15, 3, 5, 8]
  const S8_3: SRow := [2, 1, 14, 7, 4, 10, 8, 13, 15, 12, 9, 0, 3, 5, 6, 11]

  /** The entry of an S-box for six bits: the outer two select the row, the inner four the column. */
  function Entry(r0: SRow, r1: SRow, r2: SRow, r3: SRow, x: nat): Nibble
    requires x < 64
  {
    var col := x / 2 % 16;
    if x < 32 then if x % 2 == 0 then r0[col] else r1[col]
    else if x % 2 == 0 then r2[col] else r3[col]
  }

  function S1(x: nat): Nibble
    requires x < 64
  {
    Entry(S1_0, S1_1, S1_2, S1_3, x)
  }

  function S2(x: nat): Nibble
    requires x < 64
  {
    Entry(S2_0, S2_1, S2_2, S2_3, x)
  }

  function S3(x: nat): Nibble
    requires x < 64
  {
    Entry(S3_0, S3_1, S3_2, S3_3, x)
  }

  function S4(x: nat): Nibble
    requires x < 64
  {
    Entry(S4_0, S4_1, S4_2, S4_3, x)
  }

  function S5(x: nat): Nibble
    requires x < 64
  {
    Entry(S5_0, S5_1, S5_2, S5_3, x)
  }

  function S6(x: nat): Nibble
    requires x < 64
  {
    Entry(S6_0, S6_1, S6_2, S6_3, x)
  }

  function S7(x: nat): Nibble
    requires x < 64
  {
    Entry(S7_0, S7_1, S7_2, S7_3, x)
  }

  function S8(x: nat): Nibble
    requires x < 64
  {
    Entry(S8_0, S8_1, S8_2, S8_3, x)
  }

  /** Bit n of a half, numbered 1 to 32 from the left. */
  function Bit(w: bv32, n: bv32): bv32
    requires 1 <= n <= 32
  {
    (w >> (32 - n)) & 1
  }

  /** The permutation P. */
  function P(w: bv32): bv32 {
    (Bit(w, 16) << 31) | (Bit(w, 7) << 30) | (Bit(w, 20) << 29) | (Bit(w, 21) << 28)
    | (Bit(w, 29) << 27) | (Bit(w, 12) << 26) | (Bit(w, 28) << 25) | (Bit(w, 17) << 24)
    | (Bit(w, 1) << 23) | (Bit(w, 15) << 22) | (Bit(w, 23) << 21) | (Bit(w, 26) << 20)
    | (Bit(w, 5) << 19) | (Bit(w, 18) << 18) | (Bit(w, 31) << 17) | (Bit(w, 10) << 16)
    | (Bit(w, 2) << 15) | (Bit(w, 8) << 14) | (Bit(w, 24) << 13) | (Bit(w, 14) << 12)
    | (Bit(w, 32) << 11) | (Bit(w, 27) << 10) | (Bit(w, 3) << 9) | (Bit(w, 9) << 8)
    | (Bit(w, 19) << 7) | (Bit(w, 13) << 6) | (Bit(w, 30) << 5) | (Bit(w, 6) << 4)
    | (Bit(w, 22) << 3) | (Bit(w, 11) << 2) | (Bit(w, 4) << 1) | Bit(w, 25)
  }

  /** Where the four bits of a nibble go. */
  datatype Weights = Weights(w8: bv32, w4: bv32, w2: bv32, w1: bv32)

  function Spread(w: Weights, v: bv32): bv32 {
    (if v & 8 != 0 then w.w8 else 0) | (if v & 4 != 0 then w.w4 else 0)
    | (if v & 2 != 0 then w.w2 else 0) | (if v & 1 != 0 then w.w1 else 0)
  }

  /** Eight entries of a combined table: two rows of an S-box taken by turns, from column k on. */
  function Eighth(w: Weights, a: SRow, b: SRow, k: nat): (r: seq<bv32>)
    requires k <= 12
    ensures |r| == 8
  {
    [Spread(w, a[k]), Spread(w, b[k]), Spread(w, a[k + 1]), Spread(w, b[k + 1]),
     Spread(w, a[k + 2]), Spread(w, b[k + 2]), Spread(w, a[k + 3]), Spread(w, b[k + 3])]
  }

  lemma EighthAt(w: Weights, a: SRow, b: SRow, k: nat, j: nat)
    requires k <= 12 && j < 8
    ensures Eighth(w, a, b, k)[j] == Spread(w, if j % 2 == 0 then a[k + j / 2] else b[k + j / 2])
  {
    hide Spread;
  }

  function Half(w: Weights, a: SRow, b: SRow): (r: seq<bv32>)
    ensures |r| == 32
  {
    Eighth(w, a, b, 0) + Eighth(w, a, b, 4) + Eighth(w, a, b, 8) + Eighth(w, a, b, 12)
  }

  lemma HalfAt(w: Weights, a: SRow, b: SRow, x: nat)
    requires x < 32
    ensures Half(w, a, b)[x] == Spread(w, if x % 2 == 0 then a[x / 2] else b[x / 2])
  {
    hide Spread, Eighth;
    EighthAt(w, a, b, x / 8 * 4, x % 8);
  }

  function Woven(w: Weights, r0: SRow, r1: SRow, r2: SRow, r3: SRow): (t: seq<bv32>)
    ensures |t| == 64
  {
    Half(w, r0, r1) + Half(w, r2, r3)
  }

  lemma WovenAt(w: Weights, r0: SRow, r1: SRow, r2: SRow, r3: SRow, x: nat)
    requires x < 64
    ensures Woven(w, r0, r1, r2, r3)[x] == Spread(w, Entry(r0, r1, r2, r3, x))
  {
    hide Spread, Half;
    if x < 32 {
      HalfAt(w, r0, r1, x);
    } else {
      HalfAt(w, r2, r3, x - 32);
    }
  }

  lemma Box1()
    ensures SP1 == Woven(Weights(0x1000000, 0x10000, 0x400, 0x4), S1_0, S1_1, S1_2, S1_3)
  {
  }

  lemma Box2()
    ensures SP2 == Woven(Weights(0x100000, 0x20, 0x80000000, 0x8000), S2_0, S2_1, S2_2, S2_3)
  {
  }

  lemma Box3()
    ensures SP3 == Woven(Weights(0x200, 0x20000, 0x8, 0x8000000), S3_0, S3_1, S3_2, S3_3)
  {
  }

  lemma Box4()
    ensures SP4 == Woven(Weights(0x80, 0x2000, 0x800000, 0x1), S4_0, S4_1, S4_2, S4_3)
  {
  }

  lemma Box5()
    ensures SP5 == Woven(Weights(0x2000000, 0x80000, 0x100, 0x40000000), S5_0, S5_1, S5_2, S5_3)
  {
  }

  lemma Box6()
    ensures SP6 == Woven(Weights(0x20000000, 0x10, 0x400000, 0x4000), S6_0, S6_1, S6_2, S6_3)
  {
  }

  lemma Box7()
    ensures SP7 == Woven(Weights(0x2, 0x200000, 0x800, 0x4000000), S7_0, S7_1, S7_2, S7_3)
  {
  }

  lemma Box8()
    ensures SP8 == Woven(Weights(0x10000000, 0x40, 0x40000, 0x1000), S8_0, S8_1, S8_2, S8_3)
  {
  }

  lemma Spread1(v: Nibble)
    ensures Spread(Weights(0x1000000, 0x10000, 0x400, 0x4), v) == TurnLeft(P(v << 28))
  {
  }

  lemma Spread2(v: Nibble)
    ensures Spread(Weights(0x100000, 0x20, 0x80000000, 0x8000), v) == TurnLeft(P(v << 24))
  {
  }

  lemma Spread3(v: Nibble)
    ensures Spread(Weights(0x200, 0x20000, 0x8, 0x8000000), v) == TurnLeft(P(v << 20))
  {
  }

  lemma Spread4(v: Nibble)
    ensures Spread(Weights(0x80, 0x2000, 0x800000, 0x1), v) == TurnLeft(P(v << 16))
  {
  }

  lemma Spread5(v: Nibble)
    ensures Spread(Weights(0x2000000, 0x80000, 0x100, 0x40000000), v) == TurnLeft(P(v << 12))
  {
  }

  lemma Spread6(v: Nibble)
    ensures Spread(Weights(0x20000000, 0x10, 0x400000, 0x4000), v) == TurnLeft(P(v << 8))
  {
  }

  lemma Spread7(v: Nibble)
    ensures Spread(Weights(0x2, 0x200000, 0x800, 0x4000000), v) == TurnLeft(P(v << 4))
  {
  }

  lemma Spread8(v: Nibble)
    ensures Spread(Weights(0x10000000, 0x40, 0x40000, 0x1000), v) == TurnLeft(P(v << 0))
  {
  }

  /** An output of S-box 1, permuted and rotated. */
  function Out1(v: Nibble): bv32 { TurnLeft(P(v << 28)) }

  lemma Table1(x: nat)
    requires x < 64
    ensures SP1[x] == Out1(S1(x))
  {
    hide Spread, P, TurnLeft, Entry, Woven;
    Box1();
    WovenAt(Weights(0x1000000, 0x10000, 0x400, 0x4), S1_0, S1_1, S1_2, S1_3, x);
    Spread1(S1(x));
  }

  /** An output of S-box 2, permuted and rotated. */
  function Out2(v: Nibble): bv32 { TurnLeft(P(v << 24)) }

  lemma Table2(x: nat)
    requires x < 64
    ensures SP2[x] == Out2(S2(x))
  {
    hide Spread, P, TurnLeft, Entry, Woven;
    Box2();
    WovenAt(Weights(0x100000, 0x20, 0x80000000, 0x8000), S2_0, S2_1, S2_2, S2_3, x);
    Spread2(S2(x));
  }

  /** An output of S-box 3, permuted and rotated. */
  function Out3(v: Nibble): bv32 { TurnLeft(P(v << 20)) }

  lemma Table3(x: nat)
    requires x < 64
    ensures SP3[x] == Out3(S3(x))
  {
    hide Spread, P, TurnLeft, Entry, Woven;
    Box3();
    WovenAt(Weights(0x200, 0x20000, 0x8, 0x8000000), S3_0, S3_1, S3_2, S3_3, x);
    Spread3(S3(x));
  }

  /** An output of S-box 4, permuted and rotated. */
  function Out4(v: Nibble): bv32 { TurnLeft(P(v << 16)) }

  lemma Table4(x: nat)
    requires x < 64
    ensures SP4[x] == Out4(S4(x))
  {
    hide Spread, P, TurnLeft, Entry, Woven;
    Box4();
    WovenAt(Weights(0x80, 0x2000, 0x800000, 0x1), S4_0, S4_1, S4_2, S4_3, x);
    Spread4(S4(x));
  }

  /** An output of S-box 5, permuted and rotated. */
  function Out5(v: Nibble): bv32 { TurnLeft(P(v << 12)) }

  lemma Table5(x: nat)
    requires x < 64
    ensures SP5[x] == Out5(S5(x))
  {
    hide Spread, P, TurnLeft, Entry, Woven;
    Box5();
    WovenAt(Weights(0x2000000, 0x80000, 0x100, 0x40000000), S5_0, S5_1, S5_2, S5_3, x);
    Spread5(S5(x));
  }

  /** An output of S-box 6, permuted and rotated. */
  function Out6(v: Nibble): bv32 { TurnLeft(P(v << 8)) }

  lemma Table6(x: nat)
    requires x < 64
    ensures SP6[x] == Out6(S6(x))
  {
    hide Spread, P, TurnLeft, Entry, Woven;
    Box6();
    WovenAt(Weights(0x20000000, 0x10, 0x400000, 0x4000), S6_0, S6_1, S6_2, S6_3, x);
    Spread6(S6(x));
  }

  /** An output of S-box 7, permuted and rotated. */
  function Out7(v: Nibble): bv32 { TurnLeft(P(v << 4)) }

  lemma Table7(x: nat)
    requires x < 64
    ensures SP7[x] == Out7(S7(x))
  {
    hide Spread, P, TurnLeft, Entry, Woven;
    Box7();
    WovenAt(Weights(0x2, 0x200000, 0x800, 0x4000000), S7_0, S7_1, S7_2, S7_3, x);
    Spread7(S7(x));
  }

  /** An output of S-box 8, permuted and rotated. */
  function Out8(v: Nibble): bv32 { TurnLeft(P(v << 0)) }

  lemma Table8(x: nat)
    requires x < 64
    ensures SP8[x] == Out8(S8(x))
  {
    hide Spread, P, TurnLeft, Entry, Woven;
    Box8();
    WovenAt(Weights(0x10000000, 0x40, 0x40000, 0x1000), S8_0, S8_1, S8_2, S8_3, x);
    Spread8(S8(x));
  }

}
