/** DES as qemu/d3des.c computes it, on 32-bit words, and its inverse. */
module Des {
  import opened DesTables

  /** The two halves of a block, or the two words of a cooked round key. */
  datatype Pair = Pair(a: bv32, b: bv32)

  function Swap(p: Pair): Pair {
    Pair(p.b, p.a)
  }

  // ----- the permutations around the rounds (d3des.c:327-345, 374-392) -----

  // DiffN is the value of `work`: how b differs, under a mask, from a shifted right by N.  PutN adds
  // it back N places further left and Add in place, so that the two exchange those bits.

  function Diff4(a: bv32, b: bv32): bv32 { ((a >> 4) ^ b) & 0x0f0f0f0f }

  function Put4(a: bv32, w: bv32): bv32 { a ^ (w << 4) }

  function Diff16(a: bv32, b: bv32): bv32 { ((a >> 16) ^ b) & 0x0000ffff }

  function Put16(a: bv32, w: bv32): bv32 { a ^ (w << 16) }

  function Diff2(a: bv32, b: bv32): bv32 { ((a >> 2) ^ b) & 0x33333333 }

  function Put2(a: bv32, w: bv32): bv32 { a ^ (w << 2) }

  function Diff8(a: bv32, b: bv32): bv32 { ((a >> 8) ^ b) & 0x00ff00ff }

  function Put8(a: bv32, w: bv32): bv32 { a ^ (w << 8) }

  function Diff(a: bv32, b: bv32): bv32 { (a ^ b) & 0xaaaaaaaa }

  function Add(a: bv32, w: bv32): bv32 { a ^ w }

  function TurnLeft(a: bv32): bv32 { (a << 1) | ((a >> 31) & 1) }

  function TurnRight(a: bv32): bv32 { (a << 31) | (a >> 1) }

  function InitialPermutation(p: Pair): Pair {
    var l, r := p.a, p.b;
    var w := Diff4(l, r);
    var l, r := Put4(l, w), Add(r, w);
    var w := Diff16(l, r);
    var l, r := Put16(l, w), Add(r, w);
    var w := Diff2(r, l);
    var l, r := Add(l, w), Put2(r, w);
    var w := Diff8(r, l);
    var l, r := Add(l, w), Put8(r, w);
    var r := TurnLeft(r);
    var w := Diff(l, r);
    Pair(TurnLeft(Add(l, w)), Add(r, w))
  }

  function FinalPermutation(p: Pair): Pair {
    var l, r := p.a, TurnRight(p.b);
    var w := Diff(l, r);
    var l, r := TurnRight(Add(l, w)), Add(r, w);
    var w := Diff8(l, r);
    var l, r := Put8(l, w), Add(r, w);
    var w := Diff2(l, r);
    var l, r := Put2(l, w), Add(r, w);
    var w := Diff16(r, l);
    var l, r := Add(l, w), Put16(r, w);
    var w := Diff4(r, l);
    Pair(Put4(r, w), Add(l, w))
  }

  lemma Exchange4Twice(a: bv32, b: bv32)
    ensures var w := Diff4(a, b); Diff4(Put4(a, w), Add(b, w)) == w
  {
  }

  lemma Put4Twice(a: bv32, w: bv32)
    ensures Put4(Put4(a, w), w) == a
  {
  }

  lemma Exchange16Twice(a: bv32, b: bv32)
    ensures var w := Diff16(a, b); Diff16(Put16(a, w), Add(b, w)) == w
  {
  }

  lemma Put16Twice(a: bv32, w: bv32)
    ensures Put16(Put16(a, w), w) == a
  {
  }

  lemma Exchange2Twice(a: bv32, b: bv32)
    ensures var w := Diff2(a, b); Diff2(Put2(a, w), Add(b, w)) == w
  {
  }

  lemma Put2Twice(a: bv32, w: bv32)
    ensures Put2(Put2(a, w), w) == a
  {
  }

  lemma Exchange8Twice(a: bv32, b: bv32)
    ensures var w := Diff8(a, b); Diff8(Put8(a, w), Add(b, w)) == w
  {
  }

  lemma Put8Twice(a: bv32, w: bv32)
    ensures Put8(Put8(a, w), w) == a
  {
  }

  lemma ExchangeTwice(a: bv32, b: bv32)
    ensures var w := Diff(a, b); Diff(Add(a, w), Add(b, w)) == w
    ensures Diff(b, a) == Diff(a, b)
  {
    assert a ^ b == b ^ a;
  }

  lemma AddTwice(a: bv32, w: bv32)
    ensures Add(Add(a, w), w) == a
  {
  }

  lemma TurnBack(a: bv32)
    ensures TurnRight(TurnLeft(a)) == a && TurnLeft(TurnRight(a)) == a
  {
  }

  /** The final permutation undoes the initial one, up to the exchange of the halves. */
  lemma FinalUndoesInitial(p: Pair)
    ensures FinalPermutation(Swap(InitialPermutation(p))) == p
  {
    hide Diff4, Diff16, Diff2, Diff8, Diff, Put4, Put16, Put2, Put8, Add, TurnLeft, TurnRight;
    var w1 := Diff4(p.a, p.b);
    var l1, r1 := Put4(p.a, w1), Add(p.b, w1);
    var w2 := Diff16(l1, r1);
    var l2, r2 := Put16(l1, w2), Add(r1, w2);
    var w3 := Diff2(r2, l2);
    var l3, r3 := Add(l2, w3), Put2(r2, w3);
    var w4 := Diff8(r3, l3);
    var l4, r4 := Add(l3, w4), Put8(r3, w4);
    var r5 := TurnLeft(r4);
    var w6 := Diff(l4, r5);
    Exchange4Twice(p.a, p.b);
    Put4Twice(p.a, w1);
    AddTwice(p.b, w1);
    Exchange16Twice(l1, r1);
    Put16Twice(l1, w2);
    AddTwice(r1, w2);
    Exchange2Twice(r2, l2);
    Put2Twice(r2, w3);
    AddTwice(l2, w3);
    Exchange8Twice(r3, l3);
    Put8Twice(r3, w4);
    AddTwice(l3, w4);
    TurnBack(r4);
    TurnBack(Add(l4, w6));
    ExchangeTwice(l4, r5);
    ExchangeTwice(Add(l4, w6), Add(r5, w6));
    AddTwice(l4, w6);
    AddTwice(r5, w6);
  }

  lemma InitialUndoesFinal(p: Pair)
    ensures InitialPermutation(FinalPermutation(p)) == Swap(p)
  {
    hide Diff4, Diff16, Diff2, Diff8, Diff, Put4, Put16, Put2, Put8, Add, TurnLeft, TurnRight;
    var r1 := TurnRight(p.b);
    var w1 := Diff(p.a, r1);
    var l2, r2 := Add(p.a, w1), Add(r1, w1);
    var l3 := TurnRight(l2);
    var w3 := Diff8(l3, r2);
    var l4, r4 := Put8(l3, w3), Add(r2, w3);
    var w4 := Diff2(l4, r4);
    var l5, r5 := Put2(l4, w4), Add(r4, w4);
    var w5 := Diff16(r5, l5);
    var l6, r6 := Add(l5, w5), Put16(r5, w5);
    var w6 := Diff4(r6, l6);
    Exchange4Twice(r6, l6);
    Put4Twice(r6, w6);
    AddTwice(l6, w6);
    Exchange16Twice(r5, l5);
    Put16Twice(r5, w5);
    AddTwice(l5, w5);
    Exchange2Twice(l4, r4);
    Put2Twice(l4, w4);
    AddTwice(r4, w4);
    Exchange8Twice(l3, r2);
    Put8Twice(l3, w3);
    AddTwice(r2, w3);
    TurnBack(l2);
    ExchangeTwice(p.a, r1);
    ExchangeTwice(l2, r2);
    AddTwice(p.a, w1);
    AddTwice(r1, w1);
    TurnBack(p.b);
  }

  // ----- the same in the terms of FIPS 46-3, "Enciphering" -----

  /** Bit n of a block, numbered 1 to 64 from the left. */
  function BlockBit(p: Pair, n: bv32): bv32
    requires 1 <= n <= 64
  {
    if n <= 32 then (p.a >> (32 - n)) & 1 else (p.b >> (64 - n)) & 1
  }

  /** A row of the table IP: every eighth bit, from bit n down. */
  function IpRow(p: Pair, n: bv32): bv32
    requires 57 <= n <= 64
  {
    (BlockBit(p, n) << 7) | (BlockBit(p, n - 8) << 6) | (BlockBit(p, n - 16) << 5) | (BlockBit(p, n - 24) << 4)
    | (BlockBit(p, n - 32) << 3) | (BlockBit(p, n - 40) << 2) | (BlockBit(p, n - 48) << 1) | BlockBit(p, n - 56)
  }

  function StandardInitial(p: Pair): Pair {
    Pair((IpRow(p, 58) << 24) | (IpRow(p, 60) << 16) | (IpRow(p, 62) << 8) | IpRow(p, 64),
         (IpRow(p, 57) << 24) | (IpRow(p, 59) << 16) | (IpRow(p, 61) << 8) | IpRow(p, 63))
  }

  // What an exchange leaves in the word shifted (UpN) and in the other (DownN): which bits move.

  function Up4(a: bv32, b: bv32): bv32 { (a & 0x0f0f0f0f) | ((b & 0x0f0f0f0f) << 4) }

  function Down4(a: bv32, b: bv32): bv32 { (b & 0xf0f0f0f0) | ((a >> 4) & 0x0f0f0f0f) }

  lemma Exchange4Moves(a: bv32, b: bv32)
    ensures Put4(a, Diff4(a, b)) == Up4(a, b) && Add(b, Diff4(a, b)) == Down4(a, b)
  {
  }

  function Up16(a: bv32, b: bv32): bv32 { (a & 0x0000ffff) | ((b & 0x0000ffff) << 16) }

  function Down16(a: bv32, b: bv32): bv32 { (b & 0xffff0000) | ((a >> 16) & 0x0000ffff) }

  lemma Exchange16Moves(a: bv32, b: bv32)
    ensures Put16(a, Diff16(a, b)) == Up16(a, b) && Add(b, Diff16(a, b)) == Down16(a, b)
  {
  }

  function Up2(a: bv32, b: bv32): bv32 { (a & 0x33333333) | ((b & 0x33333333) << 2) }

  function Down2(a: bv32, b: bv32): bv32 { (b & 0xcccccccc) | ((a >> 2) & 0x33333333) }

  lemma Exchange2Moves(a: bv32, b: bv32)
    ensures Put2(a, Diff2(a, b)) == Up2(a, b) && Add(b, Diff2(a, b)) == Down2(a, b)
  {
  }

  function Up8(a: bv32, b: bv32): bv32 { (a & 0x00ff00ff) | ((b & 0x00ff00ff) << 8) }

  function Down8(a: bv32, b: bv32): bv32 { (b & 0xff00ff00) | ((a >> 8) & 0x00ff00ff) }

  lemma Exchange8Moves(a: bv32, b: bv32)
    ensures Put8(a, Diff8(a, b)) == Up8(a, b) && Add(b, Diff8(a, b)) == Down8(a, b)
  {
  }

  function Mixed(a: bv32, b: bv32): bv32 { (a & 0x55555555) | (b & 0xaaaaaaaa) }

  lemma ExchangeMoves(a: bv32, b: bv32)
    ensures Add(a, Diff(a, b)) == Mixed(a, b) && Add(b, Diff(a, b)) == Mixed(b, a)
  {
  }

  /** The moves of bits amount to the table IP. */
  lemma MovesAreStandard(p: Pair, l1: bv32, r1: bv32, l2: bv32, r2: bv32, l3: bv32, r3: bv32, l4: bv32, r4: bv32,
                         r5: bv32)
    requires l1 == Up4(p.a, p.b) && r1 == Down4(p.a, p.b)
    requires l2 == Up16(l1, r1) && r2 == Down16(l1, r1)
    requires r3 == Up2(r2, l2) && l3 == Down2(r2, l2)
    requires r4 == Up8(r3, l3) && l4 == Down8(r3, l3)
    requires r5 == TurnLeft(r4)
    ensures Mixed(l4, r5) == StandardInitial(p).a
    ensures Mixed(r5, l4) == TurnLeft(StandardInitial(p).b)
  {
  }

  /** The exchanges of bit groups compute the table IP, each half rotated left by one. */
  lemma InitialIsStandard(p: Pair)
    ensures InitialPermutation(p) == Pair(TurnLeft(StandardInitial(p).a), TurnLeft(StandardInitial(p).b))
  {
    hide Diff4, Diff16, Diff2, Diff8, Diff, Put4, Put16, Put2, Put8, Add, TurnLeft;
    hide Up4, Up16, Up2, Up8, Down4, Down16, Down2, Down8, Mixed, StandardInitial;
    Exchange4Moves(p.a, p.b);
    var l1, r1 := Up4(p.a, p.b), Down4(p.a, p.b);
    Exchange16Moves(l1, r1);
    var l2, r2 := Up16(l1, r1), Down16(l1, r1);
    Exchange2Moves(r2, l2);
    var l3, r3 := Down2(r2, l2), Up2(r2, l2);
    Exchange8Moves(r3, l3);
    var l4, r4 := Down8(r3, l3), Up8(r3, l3);
    ExchangeMoves(l4, TurnLeft(r4));
    MovesAreStandard(p, l1, r1, l2, r2, l3, r3, l4, r4, TurnLeft(r4));
  }

  /** On a half R rotated left by one, the six bits that select S-boxes 1 to 8 are the eight groups
      of the expansion E: bits 32 1 2 3 4 5, bits 4 5 6 7 8 9, and so on to bits 28 .. 32 1. */
  lemma SelectionIsExpansion(r: bv32)
    ensures var h := TurnLeft(r);
      var w := (h << 28) | (h >> 4);
      && (w >> 24) & 0x3f == ((r << 5) | (r >> 27)) & 0x3f
      && (h >> 24) & 0x3f == ((r << 9) | (r >> 23)) & 0x3f
      && (w >> 16) & 0x3f == ((r << 13) | (r >> 19)) & 0x3f
      && (h >> 16) & 0x3f == ((r << 17) | (r >> 15)) & 0x3f
      && (w >> 8) & 0x3f == ((r << 21) | (r >> 11)) & 0x3f
      && (h >> 8) & 0x3f == ((r << 25) | (r >> 7)) & 0x3f
      && w & 0x3f == ((r << 29) | (r >> 3)) & 0x3f
      && h & 0x3f == ((r << 1) | (r >> 31)) & 0x3f
  {
  }

  // ----- a Feistel network, for any round function -----

  type RoundFunction = (bv32, Pair) -> bv32

  /** One round: the half given second decides what is added to the other. */
  function Round(f: RoundFunction, p: Pair, key: Pair): Pair {
    Pair(p.b, Add(p.a, f(p.b, key)))
  }

  function Rounds(f: RoundFunction, p: Pair, keys: seq<Pair>): Pair {
    if keys == [] then p else Round(f, Rounds(f, p, keys[..|keys| - 1]), keys[|keys| - 1])
  }

  function Reversed(keys: seq<Pair>): (r: seq<Pair>)
    ensures |r| == |keys| && forall i | 0 <= i < |keys| :: r[i] == keys[|keys| - 1 - i]
  {
    seq(|keys|, i requires 0 <= i < |keys| => keys[|keys| - 1 - i])
  }

  lemma RoundUndone(f: RoundFunction, p: Pair, key: Pair)
    ensures Round(f, Swap(Round(f, p, key)), key) == Swap(p)
  {
    hide Add;
    AddTwice(p.a, f(p.b, key));
  }

  lemma {:induction false} RoundsFirst(f: RoundFunction, p: Pair, key: Pair, keys: seq<Pair>)
    ensures Rounds(f, p, [key] + keys) == Rounds(f, Round(f, p, key), keys)
    decreases |keys|
  {
    hide Round;
    if keys == [] {
      assert [key] + keys == [key];
      assert [key][..0] == [];
      assert Rounds(f, p, []) == p;
    } else {
      var n := |keys| - 1;
      RoundsFirst(f, p, key, keys[..n]);
      assert ([key] + keys)[..n + 1] == [key] + keys[..n];
    }
  }

  /** Running the rounds with the keys in reverse order, on exchanged halves, undoes them. */
  lemma {:induction false} RoundsUndone(f: RoundFunction, p: Pair, keys: seq<Pair>)
    ensures Rounds(f, Swap(Rounds(f, p, keys)), Reversed(keys)) == Swap(p)
    decreases |keys|
  {
    hide Round, Swap;
    if keys != [] {
      var n := |keys| - 1;
      var before := Rounds(f, p, keys[..n]);
      assert Reversed(keys) == [keys[n]] + Reversed(keys[..n]);
      RoundsFirst(f, Swap(Rounds(f, p, keys)), keys[n], Reversed(keys[..n]));
      RoundUndone(f, before, keys[n]);
      RoundsUndone(f, p, keys[..n]);
    }
  }

  // ----- the round function (d3des.c:347-372) -----

  // the six bits that begin at bit N from the right

  function Six0(w: bv32): (i: nat)
    ensures i < 64
  {
    (w & 0x3f) as bv6 as nat
  }

  function Six8(w: bv32): (i: nat)
    ensures i < 64
  {
    ((w >> 8) & 0x3f) as bv6 as nat
  }

  function Six16(w: bv32): (i: nat)
    ensures i < 64
  {
    ((w >> 16) & 0x3f) as bv6 as nat
  }

  function Six24(w: bv32): (i: nat)
    ensures i < 64
  {
    ((w >> 24) & 0x3f) as bv6 as nat
  }

  function Either(a: bv32, b: bv32): bv32 { a | b }

  function Or4(a: bv32, b: bv32, c: bv32, d: bv32): bv32 { a | b | c | d }

  /** The outputs of the S-boxes with odd numbers and of those with even numbers. */
  function OddBoxes(w: bv32): bv32 {
    Or4(SP7[Six0(w)], SP5[Six8(w)], SP3[Six16(w)], SP1[Six24(w)])
  }

  function EvenBoxes(w: bv32): bv32 {
    Or4(SP8[Six0(w)], SP6[Six8(w)], SP4[Six16(w)], SP2[Six24(w)])
  }

  function OddSelector(half: bv32, k: bv32): bv32 { ((half << 28) | (half >> 4)) ^ k }

  function EvenSelector(half: bv32, k: bv32): bv32 { half ^ k }

  function Mangle(half: bv32, key: Pair): bv32 {
    Either(OddBoxes(OddSelector(half, key.a)), EvenBoxes(EvenSelector(half, key.b)))
  }

  /** desfunc. */
  function Encipher(block: Pair, keys: seq<Pair>): Pair {
    FinalPermutation(Rounds(Mangle, InitialPermutation(block), keys))
  }

  /** Deciphering inverts enciphering, for every block and every list of round keys. */
  lemma EncipherUndone(block: Pair, keys: seq<Pair>)
    ensures Encipher(Encipher(block, keys), Reversed(keys)) == block
  {
    hide InitialPermutation, FinalPermutation, Swap, Mangle, Rounds;
    var start := InitialPermutation(block);
    FinalUndoesInitial(block);
    InitialUndoesFinal(Rounds(Mangle, start, keys));
    RoundsUndone(Mangle, start, keys);
  }
}
