/** The global key register of d3des.c and the procedures that fill and use it. */
module DesEngine {
  import opened DesTables
  import opened Des
  import opened DesCode
  import opened DesStandard
  import opened DesKeys

  /** Words 2i and 2i+1, side by side. */
  function Paired(w: seq<bv64>): (ks: seq<Words>)
    requires |w| == 32
    ensures |ks| == 16 && forall i | 0 <= i < 16 :: ks[i] == Words(w[2 * i], w[2 * i + 1])
  {
    seq(16, i requires 0 <= i < 16 => Words(w[2 * i], w[2 * i + 1]))
  }

  /** The place in the schedule that round key i takes. */
  function Place(decipher: bool, i: nat): (m: nat)
    requires i < 16
    ensures m < 16
  {
    if decipher then 15 - i else i
  }

  /** pc1m (d3des.c:74-78). */
  method SelectBits(key: array<bv8>) returns (pc1m: array<bool>)
    requires key.Length == 8
    ensures fresh(pc1m) && pc1m.Length == 56
    ensures forall j | 0 <= j < 56 :: pc1m[j] == KeyBitSet(key[..], j)
  {
    hide HasBit;
    pc1m := new bool[56];
    for j := 0 to 56
      invariant forall t | 0 <= t < j :: pc1m[t] == KeyBitSet(key[..], t)
    {
      var l := PC1[j];
      var m := l % 8;
      pc1m[j] := HasBit(key[l / 8], m);
    }
  }

  /** pcr (d3des.c:84-93): each half of 28 bits turned on its own. */
  method RotateBits(pc1m: array<bool>, pcr: array<bool>, i: nat)
    requires pc1m.Length == pcr.Length == 56 && pc1m != pcr && i < 16
    modifies pcr
    ensures forall j | 0 <= j < 56 :: pcr[j] == pc1m[Source(i, j)]
  {
    for j := 0 to 28
      invariant forall t | 0 <= t < j :: pcr[t] == pc1m[Source(i, t)]
    {
      var l := j + (TOTROT[i] as int);
      pcr[j] := if l < 28 then pc1m[l] else pc1m[l - 28];
    }
    for j := 28 to 56
      invariant forall t | 0 <= t < j :: pcr[t] == pc1m[Source(i, t)]
    {
      var l := j + (TOTROT[i] as int);
      pcr[j] := if l < 56 then pc1m[l] else pc1m[l - 28];
    }
  }

  lemma NextBit(pcr: array<bool>, key: seq<bv8>, i: nat, half: nat, n: nat)
    requires pcr.Length == 56 && |key| == 8 && i < 16 && half < 2 && n < 24
    requires forall j | 0 <= j < 56 :: pcr[j] == KeyBitSet(key, Source(i, j))
    ensures RawKey(key, i, half, n + 1) == Joined(RawKey(key, i, half, n), pcr[PC2[n + 24 * half]], n)
  {
    hide KeyBitSet, Source, Joined;
  }

  lemma NoBits(key: seq<bv8>, i: nat)
    requires |key| == 8 && i < 16
    ensures RawKey(key, i, 0, 0) == 0 == RawKey(key, i, 1, 0)
  {
  }

  /** kn[m] and kn[n] of one round (d3des.c:94-97). */
  method CollectBits(pcr: array<bool>, ghost key: seq<bv8>, i: nat) returns (k0: bv64, k1: bv64)
    requires pcr.Length == 56 && |key| == 8 && i < 16
    requires forall j | 0 <= j < 56 :: pcr[j] == KeyBitSet(key, Source(i, j))
    ensures k0 == RawKey(key, i, 0, 24) && k1 == RawKey(key, i, 1, 24)
  {
    hide KeyBitSet, Source, RawKey, Joined;
    NoBits(key, i);
    k0, k1 := 0, 0;
    for j := 0 to 24
      invariant k0 == RawKey(key, i, 0, j) && k1 == RawKey(key, i, 1, j)
    {
      NextBit(pcr, key, i, 0, j);
      NextBit(pcr, key, i, 1, j);
      k0 := Joined(k0, pcr[PC2[j]], j);
      k1 := Joined(k1, pcr[PC2[j + 24]], j);
    }
  }

  /** Place m of kn holds its two raw words. */
  ghost predicate HasRaw(kn: seq<bv64>, key: seq<bv8>, decipher: bool, m: nat)
    requires |kn| == 32 && |key| == 8 && m < 16
  {
    && kn[2 * m] == RawKey(key, Place(decipher, m), 0, 24)
    && kn[2 * m + 1] == RawKey(key, Place(decipher, m), 1, 24)
  }

  /** The loop of deskey over the sixteen rounds (d3des.c:79-98). */
  method RawKeys(key: array<bv8>, decipher: bool) returns (kn: array<bv64>)
    requires key.Length == 8
    ensures fresh(kn) && kn.Length == 32
    ensures forall m: nat | m < 16 :: HasRaw(kn[..], key[..], decipher, m)
  {
    hide KeyBitSet, Source, RawKey;
    var pc1m := SelectBits(key);
    var pcr := new bool[56];
    kn := new bv64[32];
    for i := 0 to 16
      invariant forall j | 0 <= j < 56 :: pc1m[j] == KeyBitSet(key[..], j)
      invariant forall m: nat | m < 16 && Place(decipher, m) < i :: HasRaw(kn[..], key[..], decipher, m)
    {
      var m := if decipher then (15 - i) * 2 else i * 2;
      RotateBits(pc1m, pcr, i);
      var k0, k1 := CollectBits(pcr, key[..], i);
      kn[m] := k0;
      kn[m + 1] := k1;
    }
  }

  /** scrunch and unscrun move whole bytes; the low 32 bits of a word are all they see. */
  function WideWord(b0: bv8, b1: bv8, b2: bv8, b3: bv8): bv64 {
    ((b0 as bv64) << 24) | ((b1 as bv64) << 16) | ((b2 as bv64) << 8) | (b3 as bv64)
  }

  lemma WideWordBits(b0: bv8, b1: bv8, b2: bv8, b3: bv8)
    ensures WideWord(b0, b1, b2, b3) == Word(b0, b1, b2, b3) as bv64
  {
  }

  lemma WideWordSame(b0: bv8, b1: bv8, b2: bv8, b3: bv8)
    ensures WideWord(b0, b1, b2, b3) == Wide(Word(b0, b1, b2, b3))
  {
    hide WideWord, Word;
    WideWordBits(b0, b1, b2, b3);
  }

  function WideOctet(w: bv64, k: nat): bv8
    requires k < 4
  {
    match k
    case 0 => ((w >> 24) & 0xff) as bv8
    case 1 => ((w >> 16) & 0xff) as bv8
    case 2 => ((w >> 8) & 0xff) as bv8
    case 3 => (w & 0xff) as bv8
  }

  lemma WideOctetSame(w: bv64)
    ensures forall k: nat | k < 4 :: WideOctet(w, k) == Octet(Low(w), k)
  {
    assert WideOctet(w, 0) == Octet(Low(w), 0);
    assert WideOctet(w, 1) == Octet(Low(w), 1);
    assert WideOctet(w, 2) == Octet(Low(w), 2);
    assert WideOctet(w, 3) == Octet(Low(w), 3);
  }

  /** Two rounds leave the halves where they were, each changed by the other. */
  lemma DoubleRound(p: Pair, keys: seq<Pair>, n: nat)
    requires 2 * n + 2 <= |keys|
    ensures var q := Rounds(Mangle, p, keys[..2 * n]);
      var l := Add(q.a, Mangle(q.b, keys[2 * n]));
      Rounds(Mangle, p, keys[..2 * n + 2]) == Pair(l, Add(q.b, Mangle(l, keys[2 * n + 1])))
  {
    hide Mangle, Add;
    var one, two := keys[..2 * n + 1], keys[..2 * n + 2];
    assert two[..2 * n + 1] == one && one[..2 * n] == keys[..2 * n];
    assert two[2 * n + 1] == keys[2 * n + 1] && one[2 * n] == keys[2 * n];
  }

  lemma NoRounds(p: Pair, keys: seq<Pair>)
    ensures Rounds(Mangle, p, keys[..0]) == p
  {
  }

  lemma AddSame(x: bv32, y: bv32)
    ensures WideAdd(Wide(x), Wide(y)) == Wide(Add(x, y))
  {
    hide WideAdd, Add, Wide, Shows;
    WideShows(x);
    ShowsAdd(Wide(x), x, Wide(y), y);
  }

  /** One half changed by the other, on 64-bit words. */
  lemma HalfRound(x: bv32, y: bv32, key: Words)
    ensures WideAdd(Wide(x), WideMangle(Wide(y), key)) == Wide(Add(x, Mangle(y, LowPair(key))))
  {
    hide Wide, Low, Add, WideAdd, WideMangle, Mangle;
    MangleSame(y, key);
    AddSame(x, Mangle(y, LowPair(key)));
  }

  class Register {
    /** KnL. */
    const knl: array<bv64>

    ghost predicate Valid()
    {
      knl.Length == 32
    }

    constructor ()
      ensures Valid() && fresh(knl)
    {
      knl := new bv64[32];
    }

    /** usekey (d3des.c:133-140). */
    method UseKey(from: array<bv64>)
      requires Valid() && from.Length == 32 && from != knl
      modifies knl
      ensures knl[..] == from[..]
    {
      for i := 0 to 32
        invariant forall t | 0 <= t < i :: knl[t] == from[t]
      {
        knl[i] := from[i];
      }
    }

    /** cookey (d3des.c:102-122). */
    method CookKey(raw: array<bv64>)
      requires Valid() && raw.Length == 32
      modifies knl
      ensures forall i | 0 <= i < 16 :: Paired(knl[..])[i] == old(Cook(raw[2 * i], raw[2 * i + 1]))
    {
      hide Cook, Paired;
      var dough := new bv64[32];
      for i := 0 to 16
        invariant raw[..] == old(raw[..])
        invariant forall t | 0 <= t < i :: Words(dough[2 * t], dough[2 * t + 1]) == Cook(raw[2 * t], raw[2 * t + 1])
      {
        var cooked := Cook(raw[2 * i], raw[2 * i + 1]);
        dough[2 * i] := cooked.a;
        dough[2 * i + 1] := cooked.b;
      }
      UseKey(dough);
    }

    /** deskey (d3des.c:67-100). */
    method DesKey(key: array<bv8>, decipher: bool)
      requires Valid() && key.Length == 8
      modifies knl
      ensures Paired(knl[..]) == Schedule(key[..], decipher)
    {
      hide RawKey, Cook, Paired;
      var kn := RawKeys(key, decipher);
      ghost var raw := kn[..];
      CookKey(kn);
      forall m: nat | m < 16
        ensures Paired(knl[..])[m] == Schedule(key[..], decipher)[m]
      {
        assert HasRaw(raw, key[..], decipher, m);
      }
    }

    /** scrunch (d3des.c:152-163). */
    method Scrunched(outof: array<bv8>) returns (into: Words)
      requires outof.Length == 8
      ensures into == WidePair(Scrunch(outof[..]))
    {
      hide WideWord, Word, Wide;
      into := Words(WideWord(outof[0], outof[1], outof[2], outof[3]),
                    WideWord(outof[4], outof[5], outof[6], outof[7]));
      WideWordSame(outof[0], outof[1], outof[2], outof[3]);
      WideWordSame(outof[4], outof[5], outof[6], outof[7]);
    }

    /** unscrun (d3des.c:165-176). */
    method Unscrunched(w: Words, into: array<bv8>)
      requires into.Length == 8
      modifies into
      ensures into[..] == Unscrun(LowPair(w))
    {
      hide WideOctet, Octet, Low;
      WideOctetSame(w.a);
      WideOctetSame(w.b);
      for k := 0 to 4
        invariant forall t: nat | t < k :: into[t] == Octet(Low(w.a), t) && into[4 + t] == Octet(Low(w.b), t)
      {
        into[k] := WideOctet(w.a, k);
        into[4 + k] := WideOctet(w.b, k);
      }
    }

    /** The eight double rounds of desfunc (d3des.c:347-372). */
    method RunRounds(ghost p: Pair, left0: bv64, right0: bv64) returns (leftt: bv64, right: bv64)
      requires Valid() && Words(left0, right0) == WidePair(p)
      ensures Words(leftt, right) == WidePair(Rounds(Mangle, p, LowKeys(Paired(knl[..]))))
    {
      hide Mangle, WideMangle, Wide, Add, WideAdd, Rounds, LowPair, Paired, LowKeys;
      ghost var keys := LowKeys(Paired(knl[..]));
      leftt, right := left0, right0;
      NoRounds(p, keys);
      for round := 0 to 8
        invariant Words(leftt, right) == WidePair(Rounds(Mangle, p, keys[..2 * round]))
      {
        ghost var q := Rounds(Mangle, p, keys[..2 * round]);
        var k0, k1 := Words(knl[4 * round], knl[4 * round + 1]), Words(knl[4 * round + 2], knl[4 * round + 3]);
        assert keys[2 * round] == LowPair(k0);
        assert keys[2 * round + 1] == LowPair(k1);
        HalfRound(q.a, q.b, k0);
        leftt := WideAdd(leftt, WideMangle(right, k0));
        ghost var l := Add(q.a, Mangle(q.b, LowPair(k0)));
        HalfRound(q.b, l, k1);
        right := WideAdd(right, WideMangle(leftt, k1));
        DoubleRound(p, keys, round);
      }
      assert keys[..16] == keys;
    }

    /** desfunc (d3des.c:322-394). */
    method DesFunc(ghost p: Pair, block: Words) returns (r: Words)
      requires Valid() && block == WidePair(p)
      ensures LowPair(r) == Encipher(p, LowKeys(Paired(knl[..])))
    {
      hide WideDiff4, WideDiff16, WideDiff2, WideDiff8, WideDiff, WidePut4, WidePut16, WidePut2, WidePut8, WideAdd,
           WideTurnLeft, WideTurnRight;
      hide InitialPermutation, FinalPermutation, Rounds, Mangle, WidePair, LowPair, LowKeys, Paired;
      InitialSame(p);
      var leftt, right := block.a, block.b;
      var work := WideDiff4(leftt, right);
      right := WideAdd(right, work);
      leftt := WidePut4(leftt, work);
      work := WideDiff16(leftt, right);
      right := WideAdd(right, work);
      leftt := WidePut16(leftt, work);
      work := WideDiff2(right, leftt);
      leftt := WideAdd(leftt, work);
      right := WidePut2(right, work);
      work := WideDiff8(right, leftt);
      leftt := WideAdd(leftt, work);
      right := WidePut8(right, work);
      right := WideTurnLeft(right);
      work := WideDiff(leftt, right);
      leftt := WideAdd(leftt, work);
      right := WideAdd(right, work);
      leftt := WideTurnLeft(leftt);
      leftt, right := RunRounds(InitialPermutation(p), leftt, right);
      FinalSame(Rounds(Mangle, InitialPermutation(p), LowKeys(Paired(knl[..]))));
      right := WideTurnRight(right);
      work := WideDiff(leftt, right);
      leftt := WideAdd(leftt, work);
      right := WideAdd(right, work);
      leftt := WideTurnRight(leftt);
      work := WideDiff8(leftt, right);
      right := WideAdd(right, work);
      leftt := WidePut8(leftt, work);
      work := WideDiff2(leftt, right);
      right := WideAdd(right, work);
      leftt := WidePut2(leftt, work);
      work := WideDiff16(right, leftt);
      leftt := WideAdd(leftt, work);
      right := WidePut16(right, work);
      work := WideDiff4(right, leftt);
      leftt := WideAdd(leftt, work);
      right := WidePut4(right, work);
      r := Words(right, leftt);
    }

    /** des (d3des.c:142-150); the two blocks may be the same array. */
    method Des(inblock: array<bv8>, outblock: array<bv8>)
      requires Valid() && inblock.Length == outblock.Length == 8
      modifies outblock
      ensures outblock[..] == old(Unscrun(Encipher(Scrunch(inblock[..]), LowKeys(Paired(knl[..])))))
    {
      hide Scrunch, Unscrun, Encipher, Paired, LowKeys;
      var work := Scrunched(inblock);
      work := DesFunc(Scrunch(inblock[..]), work);
      Unscrunched(work, outblock);
    }
  }

  /** deskey with EN0 and des on one block in place: the cipher of FIPS 46-3. */
  method EncipherBlock(reg: Register, key: array<bv8>, block: array<bv8>)
    requires reg.Valid() && key.Length == block.Length == 8 && key != block
    modifies reg.knl, block
    ensures StandardInitial(Scrunch(block[..]))
         == Swap(StandardRounds(StandardInitial(Scrunch(old(block[..]))), SubKeys(key[..])))
  {
    hide Schedule, Encipher, Scrunch, Unscrun, LowKeys, Paired, StandardInitial, StandardRounds, SubKeys;
    ghost var k, b := key[..], block[..];
    reg.DesKey(key, false);
    reg.Des(block, block);
    assert key[..] == k;
    DesIsStandard(k, b);
  }

  /** Enciphering with a key and deciphering with it, on one register and one block in place. */
  method RoundTrip(reg: Register, key: array<bv8>, block: array<bv8>)
    requires reg.Valid() && key.Length == block.Length == 8 && key != block
    modifies reg.knl, block
    ensures block[..] == old(block[..])
  {
    hide Schedule, Encipher, Scrunch, Unscrun, LowKeys, Paired;
    ghost var k, b := key[..], block[..];
    reg.DesKey(key, false);
    reg.Des(block, block);
    assert block[..] == DesBlock(k, false, b);
    reg.DesKey(key, true);
    reg.Des(block, block);
    DesUndone(k, b);
  }
}
