/** d3des.c as it runs on a machine whose unsigned long has 64 bits. */
module DesCode {
  import opened DesTables
  import opened Des

  function Low(x: bv64): bv32 {
    (x & 0xffffffff) as bv32
  }

  function Wide(x: bv32): bv64 {
    x as bv64
  }

  datatype Words = Words(a: bv64, b: bv64)

  function LowPair(w: Words): Pair {
    Pair(Low(w.a), Low(w.b))
  }

  // ----- the key schedule (d3des.c:67-122) -----

  /** key[l >> 3] & bytebit[m]. */
  predicate HasBit(b: bv8, m: nat)
    requires m < 8
  {
    b & (1 << m) != 0
  }

  /** pc1m: the key bits in the order of the table PC1. */
  predicate KeyBitSet(key: seq<bv8>, j: nat)
    requires |key| == 8 && j < 56
  {
    var l := PC1[j];
    HasBit(key[l / 8], l % 8)
  }

  /** pcr: where bit j of round i comes from, each half rotated on its own. */
  function Source(i: nat, j: nat): (l: nat)
    requires i < 16 && j < 56
    ensures l < 56 && (l < 28 <==> j < 28)
  {
    var l := j + TOTROT[i];
    if (if j < 28 then l < 28 else l < 56) then l else l - 28
  }

  /** bigbyte[j]. */
  function BigByte(j: nat): bv64
    requires j < 24
  {
    0x800000 >> j
  }

  /** kn[m] |= bigbyte[j], if the bit is set. */
  function Joined(w: bv64, bit: bool, j: nat): bv64
    requires j < 24
  {
    if bit then w | BigByte(j) else w
  }

  /** The first n bits of half 0 or 1 of the round key, before cooking. */
  function RawKey(key: seq<bv8>, i: nat, half: nat, n: nat): bv64
    requires |key| == 8 && i < 16 && half < 2 && n <= 24
  {
    if n == 0 then 0
    else
      Joined(RawKey(key, i, half, n - 1), KeyBitSet(key, Source(i, PC2[n - 1 + 24 * half])), n - 1)
  }

  /** cookey for one round. */
  function Cook(raw0: bv64, raw1: bv64): Words {
    Words(CookFirst(raw0, raw1), CookSecond(raw0, raw1))
  }

  function CookFirst(raw0: bv64, raw1: bv64): bv64 {
    ((raw0 & 0x00fc0000) << 6) | ((raw0 & 0x00000fc0) << 10) | ((raw1 & 0x00fc0000) >> 10) | ((raw1 & 0x00000fc0) >> 6)
  }

  function CookSecond(raw0: bv64, raw1: bv64): bv64 {
    ((raw0 & 0x0003f000) << 12) | ((raw0 & 0x0000003f) << 16) | ((raw1 & 0x0003f000) >> 4) | (raw1 & 0x0000003f)
  }

  function RoundKey(key: seq<bv8>, i: nat): Words
    requires |key| == 8 && i < 16
  {
    Cook(RawKey(key, i, 0, 24), RawKey(key, i, 1, 24))
  }

  /** The round keys as deskey leaves them in KnL: in order for EN0, in reverse for DE1. */
  function Schedule(key: seq<bv8>, decipher: bool): (ks: seq<Words>)
    requires |key| == 8
    ensures |ks| == 16
  {
    seq(16, m requires 0 <= m < 16 => RoundKey(key, if decipher then 15 - m else m))
  }

  function LowKeys(ks: seq<Words>): (r: seq<Pair>)
    ensures |r| == |ks| && forall i | 0 <= i < |ks| :: r[i] == LowPair(ks[i])
  {
    seq(|ks|, i requires 0 <= i < |ks| => LowPair(ks[i]))
  }

  lemma ScheduleReversed(key: seq<bv8>)
    requires |key| == 8
    ensures LowKeys(Schedule(key, true)) == Reversed(LowKeys(Schedule(key, false)))
  {
    hide RoundKey;
  }

  // ----- one block on 64-bit words -----

  function WideDiff4(a: bv64, b: bv64): bv64 { ((a >> 4) ^ b) & 0x0f0f0f0f }

  function WidePut4(a: bv64, w: bv64): bv64 { a ^ (w << 4) }

  function WideDiff16(a: bv64, b: bv64): bv64 { ((a >> 16) ^ b) & 0x0000ffff }

  function WidePut16(a: bv64, w: bv64): bv64 { a ^ (w << 16) }

  function WideDiff2(a: bv64, b: bv64): bv64 { ((a >> 2) ^ b) & 0x33333333 }

  function WidePut2(a: bv64, w: bv64): bv64 { a ^ (w << 2) }

  function WideDiff8(a: bv64, b: bv64): bv64 { ((a >> 8) ^ b) & 0x00ff00ff }

  function WidePut8(a: bv64, w: bv64): bv64 { a ^ (w << 8) }

  function WideDiff(a: bv64, b: bv64): bv64 { (a ^ b) & 0xaaaaaaaa }

  function WideAdd(a: bv64, w: bv64): bv64 { a ^ w }

  function WideTurnLeft(a: bv64): bv64 { ((a << 1) | ((a >> 31) & 1)) & 0xffffffff }

  /** Not masked: bits above the 32nd are left over. */
  function WideTurnRight(a: bv64): bv64 { (a << 31) | (a >> 1) }

  function InitialWide(p: Words): Words {
    var l, r := p.a, p.b;
    var w := WideDiff4(l, r);
    var l, r := WidePut4(l, w), WideAdd(r, w);
    var w := WideDiff16(l, r);
    var l, r := WidePut16(l, w), WideAdd(r, w);
    var w := WideDiff2(r, l);
    var l, r := WideAdd(l, w), WidePut2(r, w);
    var w := WideDiff8(r, l);
    var l, r := WideAdd(l, w), WidePut8(r, w);
    var r := WideTurnLeft(r);
    var w := WideDiff(l, r);
    Words(WideTurnLeft(WideAdd(l, w)), WideAdd(r, w))
  }

  function FinalWide(p: Words): Words {
    var l, r := p.a, WideTurnRight(p.b);
    var w := WideDiff(l, r);
    var l, r := WideTurnRight(WideAdd(l, w)), WideAdd(r, w);
    var w := WideDiff8(l, r);
    var l, r := WidePut8(l, w), WideAdd(r, w);
    var w := WideDiff2(l, r);
    var l, r := WidePut2(l, w), WideAdd(r, w);
    var w := WideDiff16(r, l);
    var l, r := WideAdd(l, w), WidePut16(r, w);
    var w := WideDiff4(r, l);
    Words(WidePut4(r, w), WideAdd(l, w))
  }

  function WideSix0(w: bv64): (i: nat)
    ensures i < 64
  {
    (w & 0x3f) as bv6 as nat
  }

  function WideSix8(w: bv64): (i: nat)
    ensures i < 64
  {
    ((w >> 8) & 0x3f) as bv6 as nat
  }

  function WideSix16(w: bv64): (i: nat)
    ensures i < 64
  {
    ((w >> 16) & 0x3f) as bv6 as nat
  }

  function WideSix24(w: bv64): (i: nat)
    ensures i < 64
  {
    ((w >> 24) & 0x3f) as bv6 as nat
  }

  function WideOr(a: bv64, b: bv64): bv64 { a | b }

  function WideOr4(a: bv64, b: bv64, c: bv64, d: bv64): bv64 { a | b | c | d }

  function WideOddBoxes(w: bv64): bv64 {
    WideOr4(Wide(SP7[WideSix0(w)]), Wide(SP5[WideSix8(w)]), Wide(SP3[WideSix16(w)]), Wide(SP1[WideSix24(w)]))
  }

  function WideEvenBoxes(w: bv64): bv64 {
    WideOr4(Wide(SP8[WideSix0(w)]), Wide(SP6[WideSix8(w)]), Wide(SP4[WideSix16(w)]), Wide(SP2[WideSix24(w)]))
  }

  function WideOddSelector(half: bv64, k: bv64): bv64 { ((half << 28) | (half >> 4)) ^ k }

  function WideEvenSelector(half: bv64, k: bv64): bv64 { half ^ k }

  function WideMangle(half: bv64, key: Words): bv64 {
    WideOr(WideOddBoxes(WideOddSelector(half, key.a)), WideEvenBoxes(WideEvenSelector(half, key.b)))
  }

  function WidePair(p: Pair): Words {
    Words(Wide(p.a), Wide(p.b))
  }

  /** A 64-bit word whose low 32 bits are y. */
  predicate Shows(x: bv64, y: bv32) {
    x & 0xffffffff == Wide(y)
  }

  lemma ShowsAdd(x: bv64, y: bv32, w: bv64, v: bv32)
    requires Shows(x, y) && w == Wide(v)
    ensures Shows(WideAdd(x, w), Add(y, v))
    ensures x == Wide(y) ==> WideAdd(x, w) == Wide(Add(y, v))
  {
  }

  lemma ShowsPut4(x: bv64, y: bv32, w: bv64, v: bv32)
    requires Shows(x, y) && w == Wide(v)
    ensures Shows(WidePut4(x, w), Put4(y, v))
    ensures x == Wide(y) && v & 0x0f0f0f0f == v ==> WidePut4(x, w) == Wide(Put4(y, v))
  {
  }

  lemma ShowsDiff4(l: bv64, r: bv64, x: bv32, y: bv32)
    requires Shows(l, x) && Shows(r, y)
    ensures WideDiff4(l, r) == Wide(Diff4(x, y)) && Diff4(x, y) & 0x0f0f0f0f == Diff4(x, y)
  {
  }

  lemma ShowsPut16(x: bv64, y: bv32, w: bv64, v: bv32)
    requires Shows(x, y) && w == Wide(v)
    ensures Shows(WidePut16(x, w), Put16(y, v))
    ensures x == Wide(y) && v & 0x0000ffff == v ==> WidePut16(x, w) == Wide(Put16(y, v))
  {
  }

  lemma ShowsDiff16(l: bv64, r: bv64, x: bv32, y: bv32)
    requires Shows(l, x) && Shows(r, y)
    ensures WideDiff16(l, r) == Wide(Diff16(x, y)) && Diff16(x, y) & 0x0000ffff == Diff16(x, y)
  {
  }

  lemma ShowsPut2(x: bv64, y: bv32, w: bv64, v: bv32)
    requires Shows(x, y) && w == Wide(v)
    ensures Shows(WidePut2(x, w), Put2(y, v))
    ensures x == Wide(y) && v & 0x33333333 == v ==> WidePut2(x, w) == Wide(Put2(y, v))
  {
  }

  lemma ShowsDiff2(l: bv64, r: bv64, x: bv32, y: bv32)
    requires Shows(l, x) && Shows(r, y)
    ensures WideDiff2(l, r) == Wide(Diff2(x, y)) && Diff2(x, y) & 0x33333333 == Diff2(x, y)
  {
  }

  lemma ShowsPut8(x: bv64, y: bv32, w: bv64, v: bv32)
    requires Shows(x, y) && w == Wide(v)
    ensures Shows(WidePut8(x, w), Put8(y, v))
    ensures x == Wide(y) && v & 0x00ff00ff == v ==> WidePut8(x, w) == Wide(Put8(y, v))
  {
  }

  lemma ShowsDiff8(l: bv64, r: bv64, x: bv32, y: bv32)
    requires Shows(l, x) && Shows(r, y)
    ensures WideDiff8(l, r) == Wide(Diff8(x, y)) && Diff8(x, y) & 0x00ff00ff == Diff8(x, y)
  {
  }

  lemma ShowsDiff(l: bv64, r: bv64, x: bv32, y: bv32)
    requires Shows(l, x) && Shows(r, y)
    ensures WideDiff(l, r) == Wide(Diff(x, y))
  {
  }

  lemma WideShows(y: bv32)
    ensures Shows(Wide(y), y)
  {
  }

  lemma ShowsLow(x: bv64, y: bv32)
    requires Shows(x, y)
    ensures Low(x) == y
  {
  }

  lemma Six0Low(x: bv64)
    ensures WideSix0(x) == Six0(Low(x))
  {
    assert (x & 0x3f) as bv6 == (Low(x) & 0x3f) as bv6;
  }

  lemma Six8Low(x: bv64)
    ensures WideSix8(x) == Six8(Low(x))
  {
    assert ((x >> 8) & 0x3f) as bv6 == ((Low(x) >> 8) & 0x3f) as bv6;
  }

  lemma Six16Low(x: bv64)
    ensures WideSix16(x) == Six16(Low(x))
  {
    assert ((x >> 16) & 0x3f) as bv6 == ((Low(x) >> 16) & 0x3f) as bv6;
  }

  lemma Six24Low(x: bv64)
    ensures WideSix24(x) == Six24(Low(x))
  {
    assert ((x >> 24) & 0x3f) as bv6 == ((Low(x) >> 24) & 0x3f) as bv6;
  }

  lemma OddSelectorLow(half: bv32, k: bv64)
    ensures Low(WideOddSelector(Wide(half), k)) == OddSelector(half, Low(k))
  {
  }

  lemma EvenSelectorLow(half: bv32, k: bv64)
    ensures Low(WideEvenSelector(Wide(half), k)) == EvenSelector(half, Low(k))
  {
  }

  lemma Or4Wide(a: bv32, b: bv32, c: bv32, d: bv32)
    ensures WideOr4(Wide(a), Wide(b), Wide(c), Wide(d)) == Wide(Or4(a, b, c, d))
  {
  }

  lemma OrWide(a: bv32, b: bv32)
    ensures WideOr(Wide(a), Wide(b)) == Wide(Either(a, b))
  {
  }

  lemma BoxesLow(w: bv64)
    ensures WideOddBoxes(w) == Wide(OddBoxes(Low(w))) && WideEvenBoxes(w) == Wide(EvenBoxes(Low(w)))
  {
    hide Six0, Six8, Six16, Six24, WideSix0, WideSix8, WideSix16, WideSix24, Low, Wide, Or4, WideOr4;
    Six0Low(w);
    Six8Low(w);
    Six16Low(w);
    Six24Low(w);
    var x := Low(w);
    Or4Wide(SP7[Six0(x)], SP5[Six8(x)], SP3[Six16(x)], SP1[Six24(x)]);
    Or4Wide(SP8[Six0(x)], SP6[Six8(x)], SP4[Six16(x)], SP2[Six24(x)]);
  }

  /** The bits above the 32nd that the selectors pick up are never looked at. */
  lemma MangleSame(half: bv32, key: Words)
    ensures WideMangle(Wide(half), key) == Wide(Mangle(half, LowPair(key)))
  {
    hide OddSelector, EvenSelector, WideOddSelector, WideEvenSelector, OddBoxes, EvenBoxes, WideOddBoxes,
         WideEvenBoxes, Low, Wide, WideOr, Either;
    OddSelectorLow(half, key.a);
    EvenSelectorLow(half, key.b);
    BoxesLow(WideOddSelector(Wide(half), key.a));
    BoxesLow(WideEvenSelector(Wide(half), key.b));
    OrWide(OddBoxes(OddSelector(half, Low(key.a))), EvenBoxes(EvenSelector(half, Low(key.b))));
  }

  lemma TurnLeftBits(y: bv32)
    ensures WideTurnLeft(y as bv64) == TurnLeft(y) as bv64
  {
  }

  lemma TurnLeftSame(y: bv32)
    ensures WideTurnLeft(Wide(y)) == Wide(TurnLeft(y))
  {
    hide WideTurnLeft, TurnLeft;
    TurnLeftBits(y);
  }

  lemma TurnRightBits(y: bv32)
    ensures WideTurnRight(y as bv64) & 0xffffffff == TurnRight(y) as bv64
  {
  }

  /** Turned right without a mask, a word has leftover bits above the 32nd. */
  lemma TurnRightShows(y: bv32)
    ensures Shows(WideTurnRight(Wide(y)), TurnRight(y))
  {
    hide WideTurnRight, TurnRight;
    TurnRightBits(y);
  }

  lemma InitialSame(p: Pair)
    ensures InitialWide(WidePair(p)) == WidePair(InitialPermutation(p))
  {
    hide Shows, Wide, Diff4, Diff16, Diff2, Diff8, Diff, Put4, Put16, Put2, Put8, Add, TurnLeft;
    hide WideDiff4, WideDiff16, WideDiff2, WideDiff8, WideDiff, WidePut4, WidePut16, WidePut2, WidePut8, WideAdd,
         WideTurnLeft;
    var l0, r0 := p.a, p.b;
    WideShows(l0);
    WideShows(r0);
    var w1 := Diff4(l0, r0);
    ShowsDiff4(Wide(l0), Wide(r0), l0, r0);
    ShowsPut4(Wide(l0), l0, Wide(w1), w1);
    ShowsAdd(Wide(r0), r0, Wide(w1), w1);
    var l1, r1 := Put4(l0, w1), Add(r0, w1);
    var w2 := Diff16(l1, r1);
    ShowsDiff16(Wide(l1), Wide(r1), l1, r1);
    ShowsPut16(Wide(l1), l1, Wide(w2), w2);
    ShowsAdd(Wide(r1), r1, Wide(w2), w2);
    var l2, r2 := Put16(l1, w2), Add(r1, w2);
    var w3 := Diff2(r2, l2);
    ShowsDiff2(Wide(r2), Wide(l2), r2, l2);
    ShowsPut2(Wide(r2), r2, Wide(w3), w3);
    ShowsAdd(Wide(l2), l2, Wide(w3), w3);
    var l3, r3 := Add(l2, w3), Put2(r2, w3);
    var w4 := Diff8(r3, l3);
    ShowsDiff8(Wide(r3), Wide(l3), r3, l3);
    ShowsPut8(Wide(r3), r3, Wide(w4), w4);
    ShowsAdd(Wide(l3), l3, Wide(w4), w4);
    var l4, r4 := Add(l3, w4), Put8(r3, w4);
    TurnLeftSame(r4);
    var r5 := TurnLeft(r4);
    WideShows(l4);
    WideShows(r5);
    var w5 := Diff(l4, r5);
    ShowsDiff(Wide(l4), Wide(r5), l4, r5);
    ShowsAdd(Wide(l4), l4, Wide(w5), w5);
    ShowsAdd(Wide(r5), r5, Wide(w5), w5);
    TurnLeftSame(Add(l4, w5));
  }

  /** The unmasked rotations leave bits above the 32nd, which do not reach the low 32. */
  lemma FinalSame(p: Pair)
    ensures LowPair(FinalWide(WidePair(p))) == FinalPermutation(p)
  {
    hide Low, Shows, Wide, Diff4, Diff16, Diff2, Diff8, Diff, Put4, Put16, Put2, Put8, Add, TurnRight;
    hide WideDiff4, WideDiff16, WideDiff2, WideDiff8, WideDiff, WidePut4, WidePut16, WidePut2, WidePut8, WideAdd,
         WideTurnRight;
    var x0 := p.a;
    WideShows(x0);
    TurnRightShows(p.b);
    var r1, y1 := WideTurnRight(Wide(p.b)), TurnRight(p.b);
    var v1 := Diff(x0, y1);
    ShowsDiff(Wide(x0), r1, x0, y1);
    ShowsAdd(Wide(x0), x0, Wide(v1), v1);
    ShowsAdd(r1, y1, Wide(v1), v1);
    var r2, y2 := WideAdd(r1, Wide(v1)), Add(y1, v1);
    TurnRightShows(Add(x0, v1));
    var l2, x2 := WideTurnRight(Wide(Add(x0, v1))), TurnRight(Add(x0, v1));
    var v2 := Diff8(x2, y2);
    ShowsDiff8(l2, r2, x2, y2);
    ShowsPut8(l2, x2, Wide(v2), v2);
    ShowsAdd(r2, y2, Wide(v2), v2);
    var l3, r3, x3, y3 := WidePut8(l2, Wide(v2)), WideAdd(r2, Wide(v2)), Put8(x2, v2), Add(y2, v2);
    var v3 := Diff2(x3, y3);
    ShowsDiff2(l3, r3, x3, y3);
    ShowsPut2(l3, x3, Wide(v3), v3);
    ShowsAdd(r3, y3, Wide(v3), v3);
    var l4, r4, x4, y4 := WidePut2(l3, Wide(v3)), WideAdd(r3, Wide(v3)), Put2(x3, v3), Add(y3, v3);
    var v4 := Diff16(y4, x4);
    ShowsDiff16(r4, l4, y4, x4);
    ShowsPut16(r4, y4, Wide(v4), v4);
    ShowsAdd(l4, x4, Wide(v4), v4);
    var l5, r5, x5, y5 := WideAdd(l4, Wide(v4)), WidePut16(r4, Wide(v4)), Add(x4, v4), Put16(y4, v4);
    var v5 := Diff4(y5, x5);
    ShowsDiff4(r5, l5, y5, x5);
    ShowsPut4(r5, y5, Wide(v5), v5);
    ShowsAdd(l5, x5, Wide(v5), v5);
    ShowsLow(WidePut4(r5, Wide(v5)), Put4(y5, v5));
    ShowsLow(WideAdd(l5, Wide(v5)), Add(x5, v5));
  }

  // ----- bytes -----

  /** scrunch and unscrun, on 32-bit words. */
  function Word(b0: bv8, b1: bv8, b2: bv8, b3: bv8): bv32 {
    ((b0 as bv32) << 24) | ((b1 as bv32) << 16) | ((b2 as bv32) << 8) | (b3 as bv32)
  }

  function Octet(w: bv32, k: nat): bv8
    requires k < 4
  {
    match k
    case 0 => ((w >> 24) & 0xff) as bv8
    case 1 => ((w >> 16) & 0xff) as bv8
    case 2 => ((w >> 8) & 0xff) as bv8
    case 3 => (w & 0xff) as bv8
  }

  function Scrunch(b: seq<bv8>): Pair
    requires |b| == 8
  {
    Pair(Word(b[0], b[1], b[2], b[3]), Word(b[4], b[5], b[6], b[7]))
  }

  function Unscrun(p: Pair): (b: seq<bv8>)
    ensures |b| == 8
  {
    [Octet(p.a, 0), Octet(p.a, 1), Octet(p.a, 2), Octet(p.a, 3),
     Octet(p.b, 0), Octet(p.b, 1), Octet(p.b, 2), Octet(p.b, 3)]
  }

  lemma OctetsOfWord(b0: bv8, b1: bv8, b2: bv8, b3: bv8)
    ensures var w := Word(b0, b1, b2, b3); Octet(w, 0) == b0 && Octet(w, 1) == b1 && Octet(w, 2) == b2 && Octet(w, 3) == b3
  {
  }

  lemma WordOfOctets(w: bv32)
    ensures Word(Octet(w, 0), Octet(w, 1), Octet(w, 2), Octet(w, 3)) == w
  {
  }

  lemma BytesRoundTrip(b: seq<bv8>, p: Pair)
    requires |b| == 8
    ensures Unscrun(Scrunch(b)) == b
    ensures Scrunch(Unscrun(p)) == p
  {
    hide Word, Octet;
    OctetsOfWord(b[0], b[1], b[2], b[3]);
    OctetsOfWord(b[4], b[5], b[6], b[7]);
    WordOfOctets(p.a);
    WordOfOctets(p.b);
  }

  /** deskey followed by des. */
  function DesBlock(key: seq<bv8>, decipher: bool, block: seq<bv8>): (r: seq<bv8>)
    requires |key| == 8 && |block| == 8
    ensures |r| == 8
  {
    Unscrun(Encipher(Scrunch(block), LowKeys(Schedule(key, decipher))))
  }

  /** Deciphering with DE1 gives back every block enciphered with EN0, for every key. */
  lemma DesUndone(key: seq<bv8>, block: seq<bv8>)
    requires |key| == 8 && |block| == 8
    ensures DesBlock(key, true, DesBlock(key, false, block)) == block
  {
    hide Encipher, Scrunch, Unscrun, Schedule, LowKeys, Reversed;
    var keys := LowKeys(Schedule(key, false));
    ScheduleReversed(key);
    EncipherUndone(Scrunch(block), keys);
    BytesRoundTrip(block, Encipher(Scrunch(block), keys));
  }
}
