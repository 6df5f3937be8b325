/** ram_save_live, ram_load and their helpers as they run, proved against the functions of
    RamSender and RamReceiver. */
module MigrationCode {
  import opened Octets
  import opened Wrappers
  import opened RamSender
  import opened RamAccounts
  import opened RamReceiver

  function Le32(b0: int, b1: int, b2: int, b3: int): int {
    ((b3 * 256 + b2) * 256 + b1) * 256 + b0
  }

  lemma WordRepeats(b0: Byte, b1: Byte, b2: Byte, b3: Byte, ch: Byte)
    ensures Le32(b0, b1, b2, b3) == Le32(ch, ch, ch, ch) <==> b0 == b1 == b2 == b3 == ch
  {
    if Le32(b0, b1, b2, b3) == Le32(ch, ch, ch, ch) {
      LastDigit((b3 * 256 + b2) * 256 + b1, b0, (ch * 256 + ch) * 256 + ch, ch);
      LastDigit(b3 * 256 + b2, b1, ch * 256 + ch, ch);
    }
  }

  lemma LastDigit(q: int, r: Byte, q': int, r': Byte)
    requires q * 256 + r == q' * 256 + r'
    ensures q == q' && r == r'
  {
  }

  /** is_dup_page: compares the page with ch replicated into a word, four octets at a time. */
  method IsDupPage(page: Page, ch: Byte) returns (dup: bool)
    ensures dup <==> forall i | 0 <= i < TARGET_PAGE_SIZE :: page[i] == ch
  {
    hide Le32;
    var val := Le32(ch, ch, ch, ch);
    var i := 0;
    while i < TARGET_PAGE_SIZE / 4
      invariant 0 <= i <= TARGET_PAGE_SIZE / 4
      invariant forall k | 0 <= k < 4 * i :: page[k] == ch
    {
      var word := Le32(page[4 * i], page[4 * i + 1], page[4 * i + 2], page[4 * i + 3]);
      WordRepeats(page[4 * i], page[4 * i + 1], page[4 * i + 2], page[4 * i + 3], ch);
      if word != val {
        return false;
      }
      i := i + 1;
    }
    return true;
  }

  function Address(blocks: seq<Block>, at: Pos): nat
    requires at.block < |blocks|
  {
    blocks[at.block].offset + at.page * TARGET_PAGE_SIZE
  }

  /** Blocks do not overlap, so an address identifies a page. */
  lemma AddressIdentifies(blocks: seq<Block>, x: Pos, y: Pos)
    requires ValidBlocks(blocks) && InRange(blocks, x) && InRange(blocks, y)
    ensures Address(blocks, x) == Address(blocks, y) <==> x == y
  {
    hide TotalBytes;
    assert x.page * TARGET_PAGE_SIZE < blocks[x.block].Length();
    assert y.page * TARGET_PAGE_SIZE < blocks[y.block].Length();
  }

  /** The step of the scan to the next page, wrapping at the end of a block and of the list. */
  method Advance(blocks: seq<Block>, block: nat, offset: nat) returns (block': nat, offset': nat)
    requires ValidBlocks(blocks) && offset % TARGET_PAGE_SIZE == 0
    requires InRange(blocks, Pos(block, offset / TARGET_PAGE_SIZE))
    ensures offset' % TARGET_PAGE_SIZE == 0
    ensures Pos(block', offset' / TARGET_PAGE_SIZE) == Next(blocks, Pos(block, offset / TARGET_PAGE_SIZE))
  {
    hide TotalBytes;
    block', offset' := block, offset + TARGET_PAGE_SIZE;
    if offset' >= blocks[block].Length() {
      offset' := 0;
      block' := block + 1;
      if block' == |blocks| {
        block' := 0;
      }
    }
  }

  /** The do-while loop of ram_save_block: the page to send, or the page the scan began with
      when it has come back to it. */
  method NextDirty(blocks: seq<Block>, lastBlock: Option<nat>, lastOffset: nat)
    returns (found: bool, block: nat, offset: nat)
    requires ValidBlocks(blocks) && lastOffset % TARGET_PAGE_SIZE == 0
    requires lastBlock.None? ==> lastOffset == 0 && IsDirty(blocks, Pos(0, 0))
    requires lastBlock.Some? ==> InRange(blocks, Pos(lastBlock.value, lastOffset / TARGET_PAGE_SIZE))
    ensures var start := Pos(if lastBlock.Some? then lastBlock.value else 0, lastOffset / TARGET_PAGE_SIZE);
      && Scan(blocks, start, start)
         == (if found then Some(Pos(block, offset / TARGET_PAGE_SIZE)) else None)
      && (!found ==> lastBlock == Some(block) && offset == lastOffset)
    ensures offset % TARGET_PAGE_SIZE == 0
  {
    hide ValidBlocks;
    block := if lastBlock.Some? then lastBlock.value else 0;
    offset := lastOffset;
    ghost var start := Pos(block, offset / TARGET_PAGE_SIZE);
    ghost var at := start;
    while true
      invariant at == Pos(block, offset / TARGET_PAGE_SIZE) && offset % TARGET_PAGE_SIZE == 0
      invariant InRange(blocks, at) && (lastBlock.None? ==> at == start)
      invariant Scan(blocks, start, at) == Scan(blocks, start, start)
      decreases !Before(at, start), |blocks| - at.block, |blocks[at.block].dirty| - at.page
    {
      if blocks[block].dirty[offset / TARGET_PAGE_SIZE] {
        return true, block, offset;
      }
      NextDescends(blocks, start, at);
      block, offset := Advance(blocks, block, offset);
      at := Next(blocks, at);
      AddressIdentifies(blocks, at, start);
      var currentAddr := blocks[block].offset + offset;
      if currentAddr == blocks[lastBlock.value].offset + lastOffset {
        return false, block, offset;
      }
    }
  }

  lemma NextDescends(blocks: seq<Block>, start: Pos, at: Pos)
    requires ValidBlocks(blocks) && InRange(blocks, start) && InRange(blocks, at)
    ensures var n := Next(blocks, at);
      || n == start
      || (Before(n, start) && !Before(at, start))
      || (Before(n, start) == Before(at, start) && at.block < n.block < |blocks|)
      || (Before(n, start) == Before(at, start) && at.block == n.block
          && at.page < n.page < |blocks[at.block].dirty|)
  {
    hide TotalBytes;
  }

  lemma NoTicks(s: Sender)
    requires Valid(s)
    ensures SaveTicks(s, []) == Sent(s, [], 0)
  {
  }

  lemma SaveTicksUnfold(s: Sender, ticks: seq<seq<GuestWrite>>)
    requires Valid(s) && ticks != []
    ensures Valid(Stores(s, ticks[0]))
    ensures var first := SaveBlock(Stores(s, ticks[0]));
      && Valid(first.state)
      && SaveTicks(s, ticks)
         == if first.bytes == 0 then first
            else
              var rest := SaveTicks(first.state, ticks[1..]);
              Sent(rest.state, first.wire + rest.wire, first.bytes + rest.bytes)
  {
    hide Valid, SaveBlock;
    StoresKeepValid(s, ticks[0]);
    SaveBlockOutcome(Stores(s, ticks[0]));
  }

  lemma DrainUnfold(s: Sender)
    requires Valid(s)
    ensures var first := SaveBlock(s);
      && Valid(first.state)
      && (first.bytes != 0 ==> Remaining(first.state.blocks) < Remaining(s.blocks))
      && Drain(s)
         == if first.bytes == 0 then first
            else
              var rest := Drain(first.state);
              Sent(rest.state, first.wire + rest.wire, first.bytes + rest.bytes)
  {
    hide Valid, SaveBlock;
    SaveBlockOutcome(s);
  }

  lemma Joined(a: seq<Byte>, b: seq<Byte>, c: seq<Byte>)
    ensures a + b + c == a + (b + c)
  {
  }

  lemma SizeTableFrom(blocks: seq<Block>, i: nat)
    requires i < |blocks|
    ensures SizeTable(blocks[i..])
         == ([|blocks[i].id|] + blocks[i].id + Be64(blocks[i].Length())) + SizeTable(blocks[i + 1..])
  {
    hide Be64;
    assert blocks[i..][0] == blocks[i] && blocks[i..][1..] == blocks[i + 1..];
  }

  lemma NoSizeTable(blocks: seq<Block>)
    requires blocks == []
    ensures SizeTable(blocks) == []
  {
  }

  class Source {
    var blocks: seq<Block>
    var lastBlock: Option<nat>
    var lastOffset: nat
    var bytesTransferred: nat
    var stream: seq<Byte>
    var tracking: bool // dirty memory tracking is on
    var fileError: bool

    constructor (blocks: seq<Block>)
      requires ValidBlocks(blocks)
      ensures this.blocks == blocks && stream == [] && bytesTransferred == 0 && !tracking && !fileError
    {
      tracking, fileError := false, false;
      this.blocks := blocks;
      lastBlock, lastOffset, bytesTransferred, stream := None, 0, 0, [];
    }

    ghost function View(): Sender
      reads this
    {
      Sender(blocks, if lastBlock.Some? then Some(Pos(lastBlock.value, lastOffset / TARGET_PAGE_SIZE)) else None)
    }

    ghost predicate Ok()
      reads this
    {
      && lastOffset % TARGET_PAGE_SIZE == 0
      && (lastBlock.None? ==> lastOffset == 0)
      && Valid(View())
    }

    method RamSaveBlock() returns (bytesSent: nat)
      requires Ok()
      modifies `blocks, `lastBlock, `lastOffset, `stream
      ensures Ok()
      ensures Sent(View(), stream, bytesSent)
           == var r := SaveBlock(old(View())); r.(wire := old(stream) + r.wire)
    {
      hide ValidBlocks, Scan, PageRecord, IsDup;
      SaveBlockOutcome(View());
      var found, block, offset := NextDirty(blocks, lastBlock, lastOffset);
      bytesSent := 0;
      if found {
        bytesSent := SendPage(block, offset);
      }
      lastBlock, lastOffset := Some(block), offset;
    }

    /** The body of the if statement in ram_save_block. */
    method SendPage(block: nat, offset: nat) returns (bytesSent: nat)
      requires ValidBlocks(blocks) && offset % TARGET_PAGE_SIZE == 0
      requires InRange(blocks, Pos(block, offset / TARGET_PAGE_SIZE))
      modifies `blocks, `stream
      ensures blocks == Clean(old(blocks), Pos(block, offset / TARGET_PAGE_SIZE))
      ensures var p := old(blocks)[block].pages[offset / TARGET_PAGE_SIZE];
        && stream == old(stream)
                     + PageRecord(old(blocks)[block].id, lastBlock == Some(block), offset / TARGET_PAGE_SIZE, p)
        && bytesSent == if IsDup(p) then 1 else TARGET_PAGE_SIZE
    {
      hide TotalBytes, Be64;
      var b := blocks[block];
      var cont := if lastBlock == Some(block) then CONTINUE else 0;
      blocks := blocks[block := b.(dirty := b.dirty[offset / TARGET_PAGE_SIZE := false])];
      var p := b.pages[offset / TARGET_PAGE_SIZE];
      var name := if cont != 0 then [] else [|b.id|] + b.id;
      var dup := IsDupPage(p, p[0]);
      if dup {
        stream := stream + (Be64(offset + cont + COMPRESS) + name + [p[0]]);
        bytesSent := 1;
      } else {
        stream := stream + (Be64(offset + cont + PAGE) + name + p);
        bytesSent := TARGET_PAGE_SIZE;
      }
    }

    /** ram_save_remaining. */
    method RamSaveRemaining() returns (count: nat)
      ensures count == Remaining(blocks) == |DirtyPages(blocks)|
      ensures count == 0 <==> AllClean(blocks)
    {
      RemainingIsDirty(blocks);
      RemainingNone(blocks);
      count := 0;
      var i := 0;
      while i < |blocks|
        invariant 0 <= i <= |blocks|
        invariant count == Remaining(blocks[..i])
      {
        var flags := blocks[i].dirty;
        var j := 0;
        while j < |flags|
          invariant 0 <= j <= |flags|
          invariant count == Remaining(blocks[..i]) + CountTrue(flags[..j])
        {
          assert flags[..j + 1][..j] == flags[..j];
          if flags[j] {
            count := count + 1;
          }
          j := j + 1;
        }
        assert flags[..j] == flags;
        assert blocks[..i + 1][..i] == blocks[..i];
        i := i + 1;
      }
      assert blocks[..i] == blocks;
    }

    /** Stores by the running guest. */
    method Guest(ws: seq<GuestWrite>)
      requires Ok()
      modifies `blocks
      ensures Ok() && View() == Stores(old(View()), ws)
    {
      hide Valid, Store;
      var i := 0;
      while i < |ws|
        invariant 0 <= i <= |ws|
        invariant Ok() && Stores(View(), ws[i..]) == Stores(old(View()), ws)
      {
        assert ws[i..][0] == ws[i] && ws[i..][1..] == ws[i + 1..];
        StoreKeepsValid(View(), ws[i]);
        blocks := Store(blocks, ws[i]);
        i := i + 1;
      }
    }

    /** The loop guarded by qemu_file_rate_limit. */
    method RateLimited(ticks: seq<seq<GuestWrite>>)
      requires Ok()
      modifies `blocks, `lastBlock, `lastOffset, `stream, `bytesTransferred
      ensures Ok()
      ensures View() == SaveTicks(old(View()), ticks).state
      ensures stream == old(stream) + SaveTicks(old(View()), ticks).wire
      ensures bytesTransferred == old(bytesTransferred) + SaveTicks(old(View()), ticks).bytes
    {
      hide Valid, SaveBlock, SaveTicks, Stores;
      NoTicks(View());
      ghost var all := SaveTicks(View(), ticks);
      ghost var done: seq<Byte> := [];
      ghost var sent: nat := 0;
      var i := 0;
      while i < |ticks|
        invariant 0 <= i <= |ticks|
        invariant Ok()
        invariant stream == old(stream) + done && bytesTransferred == old(bytesTransferred) + sent
        invariant var rest := SaveTicks(View(), ticks[i..]);
          all == Sent(rest.state, done + rest.wire, sent + rest.bytes)
      {
        assert ticks[i..][0] == ticks[i] && ticks[i..][1..] == ticks[i + 1..];
        SaveTicksUnfold(View(), ticks[i..]);
        Guest(ticks[i]);
        ghost var one := SaveBlock(View());
        var bytesSent := RamSaveBlock();
        bytesTransferred := bytesTransferred + bytesSent;
        assert stream == old(stream) + (done + one.wire);
        done, sent := done + one.wire, sent + one.bytes;
        if bytesSent == 0 {
          return;
        }
        i := i + 1;
      }
      assert ticks[i..] == [];
      NoTicks(View());
    }

    /** The flush of stage 3. */
    method Flush()
      requires Ok()
      modifies `blocks, `lastBlock, `lastOffset, `stream, `bytesTransferred
      ensures Ok()
      ensures View() == Drain(old(View())).state
      ensures stream == old(stream) + Drain(old(View())).wire
      ensures bytesTransferred == old(bytesTransferred) + Drain(old(View())).bytes
    {
      hide Valid, SaveBlock, Drain;
      ghost var all := Drain(View());
      ghost var done: seq<Byte> := [];
      ghost var sent: nat := 0;
      while true
        invariant Ok()
        invariant stream == old(stream) + done && bytesTransferred == old(bytesTransferred) + sent
        invariant var rest := Drain(View()); all == Sent(rest.state, done + rest.wire, sent + rest.bytes)
        decreases Remaining(blocks)
      {
        DrainUnfold(View());
        ghost var one := SaveBlock(View());
        ghost var more := Drain(one.state).wire;
        Joined(old(stream), done, one.wire);
        Joined(done, one.wire, more);
        var bytesSent := RamSaveBlock();
        done, sent := done + one.wire, sent + one.bytes;
        if bytesSent == 0 {
          return;
        }
        bytesTransferred := bytesTransferred + bytesSent;
      }
    }

    /** The start of stage 1: cursor reset, every page marked dirty, and the block table. */
    method Begin()
      requires ValidBlocks(blocks)
      modifies `blocks, `lastBlock, `lastOffset, `stream, `bytesTransferred
      ensures Ok() && View() == Sender(MarkDirty(old(blocks)), None)
      ensures stream == old(stream) + Header(MarkDirty(old(blocks))) && bytesTransferred == 0
    {
      hide TotalBytes, Be64, ValidBlocks, SizeTable;
      LayoutKeepsValid(blocks, MarkDirty(blocks));
      bytesTransferred, lastBlock, lastOffset := 0, None, 0;
      blocks := MarkDirty(blocks);
      FirstInRange(blocks);
      var table := Sizes();
      stream := stream + (Be64(TotalBytes(blocks) + MEM_SIZE) + table);
    }

    /** The name and length of every block (arch_init.c:292-296). */
    method Sizes() returns (table: seq<Byte>)
      requires ValidBlocks(blocks)
      ensures table == SizeTable(blocks)
    {
      hide Be64, Block.Length, SizeTable;
      table := [];
      var i := 0;
      assert blocks[0..] == blocks;
      while i < |blocks|
        invariant 0 <= i <= |blocks|
        invariant table + SizeTable(blocks[i..]) == SizeTable(blocks)
      {
        var b := blocks[i];
        var entry := [|b.id|] + b.id + Be64(b.Length());
        SizeTableFrom(blocks, i);
        Joined(table, entry, SizeTable(blocks[i + 1..]));
        table := table + entry;
        i := i + 1;
      }
      NoSizeTable(blocks[i..]);
    }

    /** ram_save_live, synced saying whether the dirty bitmap could be synchronized.  ticks is the guest
        activity before each turn of the rate-limited loop; in stage 3 there is none. */
    method RamSaveLive(stage: int, synced: bool, ticks: seq<seq<GuestWrite>>)
      requires stage >= 0 && synced ==> if stage == 1 then ValidBlocks(blocks) else Ok()
      requires stage == 3 ==> ticks == seq(|ticks|, _ => [])
      modifies this
      ensures stage < 0 ==> tracking == false && fileError == old(fileError)
      ensures stage >= 0 && !synced ==> tracking == old(tracking) && fileError
      ensures stage < 0 || !synced ==>
        View() == old(View()) && stream == old(stream) && bytesTransferred == old(bytesTransferred)
      ensures stage >= 0 && synced ==> Ok() && fileError == old(fileError)
      ensures stage >= 0 && synced ==> tracking == (if stage == 1 then true else if stage == 3 then false else old(tracking))
      ensures stage >= 0 && synced ==>
        Sent(View(), stream, bytesTransferred)
           == (var r :=
                 if stage == 1 then StageOne(old(blocks), ticks)
                 else if stage == 3 then StageThree(old(View()), [], |ticks|)
                 else StageTwo(old(View()), Round([], ticks));
               Sent(r.state, old(stream) + r.wire, (if stage == 1 then 0 else old(bytesTransferred)) + r.bytes))
    {
      hide Valid, ValidBlocks, SaveTicks, Drain, Be64, Header;
      if stage < 0 {
        tracking := false;
        return;
      }
      if !synced {
        fileError := true;
        return;
      }
      if stage == 1 {
        Begin();
        tracking := true;
      }
      RateLimited(ticks);
      if stage == 3 {
        Flush();
        tracking := false;
      }
      stream := stream + Be64(EOS);
    }
  }

  lemma FirstInRange(blocks: seq<Block>)
    requires ValidBlocks(blocks)
    ensures InRange(blocks, Pos(0, 0))
  {
  }

  /** The receiving process. */
  class Destination {
    var blocks: seq<DestBlock>
    var current: Option<nat>

    constructor (blocks: seq<DestBlock>)
      ensures this.blocks == blocks && current == None
    {
      this.blocks, current := blocks, None;
    }

    function View(): Dest
      reads this
    {
      Dest(blocks, current)
    }

    /** The loop over the block list comparing names; |blocks| when there is no such block. */
    method Search(id: seq<Byte>) returns (i: nat)
      ensures FindBlock(blocks, id, 0) == if i < |blocks| then Some(i) else None
    {
      i := 0;
      while i < |blocks|
        invariant 0 <= i <= |blocks|
        invariant FindBlock(blocks, id, 0) == FindBlock(blocks, id, i)
      {
        if blocks[i].id == id {
          return;
        }
        i := i + 1;
      }
    }

    method HostFromStreamOffset(flags: nat, f: seq<Byte>) returns (r: Located)
      modifies `current
      ensures r == Locate(old(View()), flags, f)
      ensures r.Located? ==> current == r.block
    {
      hide FindBlock, Has;
      if Has(flags, CONTINUE) {
        return Located(current, f);
      }
      match TakeName(f)
      case NoName => return NoHost(Eio);
      case Named(id, rest) =>
        var i := Search(id);
        current := if i < |blocks| then Some(i) else None;
        return Located(current, rest);
    }

    method CheckSizes(size: nat, f: seq<Byte>) returns (r: Loaded)
      requires size < TWO_64
      ensures r == LoadSizes(View(), size, f)
    {
      hide FindBlock, Word, TakeName, Minus64;
      var total: nat, rest := size, f;
      while total != 0
        invariant total < TWO_64
        invariant LoadSizes(View(), size, f) == LoadSizes(View(), total, rest)
        decreases |rest|
      {
        var named := TakeName(rest);
        if named.NoName? || |named.rest| < 8 {
          return Failed(Eio);
        }
        var length := Word(named.rest[..8]);
        var i := Search(named.id);
        if i >= |blocks| || |blocks[i].pages| * TARGET_PAGE_SIZE != length {
          return Failed(Einval);
        }
        total, rest := Minus64(total, length), named.rest[8..];
      }
      return Loaded(View(), rest);
    }

    /** The branches of ram_load for a duplicate page and for a full page. */
    method ReadPage(addr: nat, flags: nat, f: seq<Byte>) returns (error: Option<LoadError>, rest: seq<Byte>)
      modifies this
      ensures (if error.Some? then Failed(error.value) else Loaded(View(), rest)) == LoadPage(old(View()), addr, flags, f)
    {
      hide Locate, Has;
      rest := [];
      var dup := Has(flags, COMPRESS);
      var host := HostFromStreamOffset(flags, f);
      if host.NoHost? {
        return Some(host.error), [];
      }
      if host.block.None? {
        return Some(if dup then Einval else Fault), [];
      }
      var size := if dup then 1 else TARGET_PAGE_SIZE;
      if |host.rest| < size {
        return Some(Eio), [];
      }
      if !InHost(View(), host.block.value, addr) {
        return Some(Fault), [];
      }
      var b, p := blocks[host.block.value], addr / TARGET_PAGE_SIZE;
      var data := if dup then Filled(host.rest[0]) else host.rest[..size];
      blocks := blocks[host.block.value := b.(pages := b.pages[p := data])];
      return None, host.rest[size..];
    }

    /** ram_load with version_id 3, reading from f. */
    method RamLoad(f: seq<Byte>) returns (error: Option<LoadError>, rest: seq<Byte>)
      modifies this
      ensures (if error.Some? then Failed(error.value) else Loaded(View(), rest)) == Load(old(View()), f)
    {
      hide Word, Has, LoadPage, LoadSizes;
      rest := f;
      while true
        invariant Load(View(), rest) == Load(old(View()), f)
        decreases |rest|
      {
        if |rest| < 8 {
          return Some(Eio), rest;
        }
        var word := Word(rest[..8]);
        var flags := word % TARGET_PAGE_SIZE;
        ghost var before := rest;
        rest := rest[8..];
        if Has(flags, MEM_SIZE) {
          var sizes := CheckSizes(word - flags, rest);
          if sizes.Failed? {
            return Some(sizes.error), rest;
          }
          rest := sizes.rest;
        } else if Has(flags, COMPRESS) || Has(flags, PAGE) {
          var pageError;
          pageError, rest := ReadPage(word - flags, flags, rest);
          if pageError.Some? {
            return pageError, rest;
          }
        }
        assert |rest| < |before|;
        if Has(flags, EOS) {
          return None, rest;
        }
      }
    }
  }
}
