/** bytes_transferred against the stream itself (qemu/arch_init.c:302-332). */
module RamTransfer {
  import opened Octets
  import opened Wrappers
  import opened RamSender
  import opened RamReceiver
  import opened Migration

  /** How much page data the records of a section carry, up to its EOS. */
  function Payload(s: seq<Byte>): nat
    decreases |s|
  {
    if |s| < 8 then 0
    else
      var flags := Word(s[..8]) % TARGET_PAGE_SIZE;
      if Has(flags, EOS) then 0
      else
        match Body(flags, s[8..])
        case None => 0
        case Some(b) =>
          var n := if Has(flags, COMPRESS) then 1 else TARGET_PAGE_SIZE;
          if |b| < n then 0 else n + Payload(b[n..])
  }

  /** What follows the name, if there is one. */
  function Body(flags: nat, s: seq<Byte>): (r: Option<seq<Byte>>)
    ensures r.Some? ==> |r.value| <= |s|
  {
    if Has(flags, CONTINUE) then Some(s)
    else match TakeName(s)
      case NoName => None
      case Named(_, rest) => Some(rest)
  }

  lemma WordPayload(w: seq<Byte>, tail: seq<Byte>)
    requires |w| == 8
    ensures Payload(w + tail) ==
      var flags := Word(w) % TARGET_PAGE_SIZE;
      if Has(flags, EOS) then 0
      else match Body(flags, tail)
        case None => 0
        case Some(b) =>
          var n := if Has(flags, COMPRESS) then 1 else TARGET_PAGE_SIZE;
          if |b| < n then 0 else n + Payload(b[n..])
  {
    hide Word, Body;
    assert (w + tail)[..8] == w;
    assert (w + tail)[8..] == tail;
  }

  lemma PagePayload(id: BlockId, cont: bool, page: nat, data: Page, rest: seq<Byte>)
    requires page * TARGET_PAGE_SIZE + TARGET_PAGE_SIZE <= TWO_64
    ensures Payload(PageRecord(id, cont, page, data) + rest)
         == (if IsDup(data) then 1 else TARGET_PAGE_SIZE) + Payload(rest)
  {
    hide Payload, Be64, Word, IsDup, TakeName;
    var name := if cont then [] else [|id|] + id;
    var body := if IsDup(data) then [data[0]] else data;
    var flags := PageFlags(cont, IsDup(data));
    var word := page * TARGET_PAGE_SIZE + flags;
    var tail := name + (body + rest);
    assert PageRecord(id, cont, page, data) + rest == Be64(word) + tail;
    FlagsDecode(cont, IsDup(data));
    assert word % TARGET_PAGE_SIZE == flags;
    WordPayload(Be64(word), tail);
    NameLoads(id, body + rest);
    assert [] + (body + rest) == body + rest;
    assert (body + rest)[|body|..] == rest;
  }

  lemma EosPayload(rest: seq<Byte>)
    ensures Payload(Be64(EOS) + rest) == 0
  {
    hide Payload, Be64, Word;
    WordPayload(Be64(EOS), rest);
  }

  lemma SaveBlockPayload(s: Sender, rest: seq<Byte>)
    requires Valid(s)
    ensures Payload(SaveBlock(s).wire + rest) == SaveBlock(s).bytes + Payload(rest)
  {
    hide Payload, PageRecord, Scan, TotalBytes;
    var found := Scan(s.blocks, First(s), First(s));
    if found.None? {
      assert [] + rest == rest;
    } else {
      var b := s.blocks[found.value.block];
      assert b.Length() < TWO_64;
      var cont := s.last.Some? && s.last.value.block == found.value.block;
      PagePayload(b.id, cont, found.value.page, b.pages[found.value.page], rest);
    }
  }

  lemma {:induction false} TicksPayload(s: Sender, ticks: seq<seq<GuestWrite>>, rest: seq<Byte>)
    requires Valid(s)
    ensures Payload(SaveTicks(s, ticks).wire + rest) == SaveTicks(s, ticks).bytes + Payload(rest)
    decreases |ticks|
  {
    hide Payload, SaveBlock, Valid;
    if ticks == [] {
      assert [] + rest == rest;
    } else {
      StoresKeepValid(s, ticks[0]);
      var one := Stores(s, ticks[0]);
      SaveBlockOutcome(one);
      var first := SaveBlock(one);
      if first.bytes == 0 {
        SaveBlockPayload(one, rest);
      } else {
        var more := SaveTicks(first.state, ticks[1..]);
        SaveBlockPayload(one, more.wire + rest);
        TicksPayload(first.state, ticks[1..], rest);
        assert first.wire + more.wire + rest == first.wire + (more.wire + rest);
      }
    }
  }

  lemma {:induction false} DrainPayload(s: Sender, rest: seq<Byte>)
    requires Valid(s)
    ensures Payload(Drain(s).wire + rest) == Drain(s).bytes + Payload(rest)
    decreases Remaining(s.blocks)
  {
    hide Payload, SaveBlock, Valid;
    SaveBlockOutcome(s);
    var first := SaveBlock(s);
    if first.bytes == 0 {
      SaveBlockPayload(s, rest);
    } else {
      var more := Drain(first.state);
      SaveBlockPayload(s, more.wire + rest);
      DrainPayload(first.state, rest);
      assert first.wire + more.wire + rest == first.wire + (more.wire + rest);
    }
  }

  /** What each call of ram_save_live adds to bytes_transferred is the page data in the section it writes. */
  lemma TwoTransfers(s: Sender, round: Round)
    requires Valid(s)
    ensures StageTwo(s, round).bytes == Payload(StageTwo(s, round).wire)
  {
    hide Payload, SaveTicks, Be64, Valid;
    StoresKeepValid(s, round.before);
    TicksPayload(Stores(s, round.before), round.ticks, Be64(EOS));
    EosPayload([]);
    assert Be64(EOS) + [] == Be64(EOS);
  }

  lemma ThreeTransfers(s: Sender, before: seq<GuestWrite>, n: nat)
    requires Valid(s)
    ensures StageThree(s, before, n).bytes == Payload(StageThree(s, before, n).wire)
  {
    hide Payload, SaveTicks, Drain, Be64, Valid;
    StoresKeepValid(s, before);
    var limited := SaveTicks(Stores(s, before), seq(n, _ => []));
    var flushed := Drain(limited.state);
    assert limited.wire + flushed.wire + Be64(EOS) == limited.wire + (flushed.wire + Be64(EOS));
    TicksPayload(Stores(s, before), seq(n, _ => []), flushed.wire + Be64(EOS));
    DrainPayload(limited.state, Be64(EOS));
    EosPayload([]);
    assert Be64(EOS) + [] == Be64(EOS);
  }

  /** In stage 1, in what follows the block table. */
  lemma OneTransfers(blocks: seq<Block>, ticks: seq<seq<GuestWrite>>)
    requires ValidBlocks(blocks)
    ensures var one := StageOne(blocks, ticks);
      exists data :: one.wire == Header(blocks) + data && one.bytes == Payload(data)
  {
    hide Payload, SaveTicks, Be64, Header, TotalBytes;
    var marked := MarkDirty(blocks);
    LayoutKeepsValid(blocks, marked);
    SameHeader(blocks, marked);
    var sent := SaveTicks(Sender(marked, None), ticks);
    TicksPayload(Sender(marked, None), ticks, Be64(EOS));
    EosPayload([]);
    assert Be64(EOS) + [] == Be64(EOS);
    assert StageOne(blocks, ticks).wire == Header(blocks) + (sent.wire + Be64(EOS));
  }

  lemma {:induction false} SameTable(a: seq<Block>, b: seq<Block>)
    requires SameLayout(a, b)
    ensures SizeTable(a) == SizeTable(b)
  {
    hide Be64;
    if a != [] {
      SameTable(a[1..], b[1..]);
    }
  }

  lemma SameHeader(a: seq<Block>, b: seq<Block>)
    requires SameLayout(a, b)
    ensures Header(a) == Header(b)
  {
    hide SizeTable, TotalBytes, Be64;
    SameTable(a, b);
    SameTotal(a, b);
  }
}
