/** Live RAM migration end to end: what the receiver makes of everything the sender writes. */
module Migration {
  import opened Octets
  import opened Wrappers
  import opened RamSender
  import opened RamReceiver

  /** Every source block exists at the destination, with the same size. */
  ghost predicate Matches(blocks: seq<Block>, d: Dest) {
    forall i | 0 <= i < |blocks| ::
      && FindBlock(d.blocks, blocks[i].id, 0).Some?
      && |d.blocks[Home(d, blocks[i].id)].pages| == |blocks[i].pages|
  }

  ghost function Home(d: Dest, id: BlockId): (j: nat)
    requires FindBlock(d.blocks, id, 0).Some?
    ensures j < |d.blocks| && d.blocks[j].id == id
  {
    FindBlock(d.blocks, id, 0).value
  }

  ghost predicate SamePage(blocks: seq<Block>, d: Dest, at: Pos)
    requires Matches(blocks, d) && ValidBlocks(blocks) && InRange(blocks, at)
  {
    d.blocks[Home(d, blocks[at.block].id)].pages[at.page] == blocks[at.block].pages[at.page]
  }

  /** The protocol invariant: clean pages agree, and CONTINUE means the same block on both sides. */
  ghost predicate Synced(s: Sender, d: Dest) {
    && Valid(s)
    && Matches(s.blocks, d)
    && (forall at | InRange(s.blocks, at) && !IsDirty(s.blocks, at) :: SamePage(s.blocks, d, at))
    && (s.last.Some? ==> d.current == Some(Home(d, s.blocks[s.last.value.block].id)))
  }

  // ----- reading back what was written -----

  function PageFlags(cont: bool, dup: bool): nat {
    (if cont then CONTINUE else 0) + (if dup then COMPRESS else PAGE)
  }

  lemma FlagsDecode(cont: bool, dup: bool)
    ensures var flags := PageFlags(cont, dup);
      && flags < TARGET_PAGE_SIZE
      && Has(flags, COMPRESS) == dup && Has(flags, PAGE) == !dup && Has(flags, CONTINUE) == cont
      && !Has(flags, MEM_SIZE) && !Has(flags, EOS)
  {
  }

  lemma LocateNamed(d: Dest, id: BlockId, cont: bool, dup: bool, rest: seq<Byte>)
    requires FindBlock(d.blocks, id, 0).Some?
    requires cont ==> d.current == Some(Home(d, id))
    ensures Locate(d, PageFlags(cont, dup), (if cont then [] else [|id|] + id) + rest)
         == Located(Some(Home(d, id)), rest)
  {
    FlagsDecode(cont, dup);
    NameLoads(id, rest);
    assert [] + rest == rest;
  }

  lemma BodyLoads(d: Dest, id: BlockId, cont: bool, page: nat, data: Page, s: seq<Byte>, rest: seq<Byte>)
    requires FindBlock(d.blocks, id, 0).Some?
    requires page < |d.blocks[Home(d, id)].pages|
    requires Locate(d, PageFlags(cont, IsDup(data)), s)
          == Located(Some(Home(d, id)), (if IsDup(data) then [data[0]] else data) + rest)
    ensures LoadPage(d, page * TARGET_PAGE_SIZE, PageFlags(cont, IsDup(data)), s)
         == Loaded(PutPage(d, Home(d, id), page * TARGET_PAGE_SIZE, data), rest)
  {
    FlagsDecode(cont, IsDup(data));
    if IsDup(data) {
      assert Filled(data[0]) == data;
      assert ([data[0]] + rest)[1..] == rest;
    } else {
      assert (data + rest)[..TARGET_PAGE_SIZE] == data;
      assert (data + rest)[TARGET_PAGE_SIZE..] == rest;
    }
  }

  lemma WordLoads(d: Dest, w: seq<Byte>, tail: seq<Byte>)
    requires |w| == 8
    ensures Load(d, w + tail)
         == var r := Dispatch(d, Word(w), tail);
            if r.Failed? || Has(Word(w) % TARGET_PAGE_SIZE, EOS) then r else Load(r.dest, r.rest)
  {
    hide Word, Dispatch;
    assert (w + tail)[..8] == w;
    assert (w + tail)[8..] == tail;
  }

  lemma PageWord(d: Dest, page: nat, cont: bool, dup: bool, word: nat, tail: seq<Byte>)
    requires word == page * TARGET_PAGE_SIZE + PageFlags(cont, dup) < TWO_64
    ensures Dispatch(d, word, tail) == LoadPage(d, page * TARGET_PAGE_SIZE, PageFlags(cont, dup), tail)
    ensures !Has(word % TARGET_PAGE_SIZE, EOS)
  {
    hide LoadSizes, LoadPage;
    FlagsDecode(cont, dup);
    assert word % TARGET_PAGE_SIZE == PageFlags(cont, dup);
  }

  /** Loading a page record stores exactly that page and makes its block the current one. */
  lemma PageRecordLoads(d: Dest, id: BlockId, cont: bool, page: nat, data: Page, rest: seq<Byte>)
    requires FindBlock(d.blocks, id, 0).Some?
    requires page < |d.blocks[Home(d, id)].pages|
    requires cont ==> d.current == Some(Home(d, id))
    requires page * TARGET_PAGE_SIZE + TARGET_PAGE_SIZE <= TWO_64
    ensures Load(d, PageRecord(id, cont, page, data) + rest)
         == Load(PutPage(d, Home(d, id), page * TARGET_PAGE_SIZE, data), rest)
  {
    hide Load, LoadPage, Locate, Dispatch, Be64, Word, FindBlock;
    var name := if cont then [] else [|id|] + id;
    var body := if IsDup(data) then [data[0]] else data;
    var word := page * TARGET_PAGE_SIZE + PageFlags(cont, IsDup(data));
    var tail := name + (body + rest);
    assert PageRecord(id, cont, page, data) + rest == Be64(word) + tail;
    LocateNamed(d, id, cont, IsDup(data), body + rest);
    BodyLoads(d, id, cont, page, data, tail, rest);
    PageWord(d, page, cont, IsDup(data), word, tail);
    WordLoads(d, Be64(word), tail);
  }

  /** A record for a block that the destination does not have is refused, by an error return for a page of one
      octet value and by a bad pointer for any other. */
  lemma UnknownBlock(d: Dest, id: BlockId, page: nat, data: Page, rest: seq<Byte>)
    requires FindBlock(d.blocks, id, 0).None?
    requires page * TARGET_PAGE_SIZE + TARGET_PAGE_SIZE <= TWO_64
    ensures Load(d, PageRecord(id, false, page, data) + rest) == Failed(if IsDup(data) then Einval else Fault)
  {
    hide Load, Dispatch, Be64, Word, FindBlock, IsDup;
    var body := if IsDup(data) then [data[0]] else data;
    var word := page * TARGET_PAGE_SIZE + PageFlags(false, IsDup(data));
    var tail := [|id|] + id + (body + rest);
    assert PageRecord(id, false, page, data) + rest == Be64(word) + tail;
    NameLoads(id, body + rest);
    FlagsDecode(false, IsDup(data));
    PageWord(d, page, false, IsDup(data), word, tail);
    WordLoads(d, Be64(word), tail);
  }

  lemma NameLoads(id: BlockId, rest: seq<Byte>)
    ensures TakeName([|id|] + id + rest) == Named(id, rest)
    ensures TakeName([|id|] + (id + rest)) == Named(id, rest)
  {
    var s := [|id|] + id + rest;
    assert s == [|id|] + (id + rest);
    assert s[1..1 + |id|] == id;
    assert s[1 + |id|..] == rest;
  }

  lemma EosLoads(d: Dest, rest: seq<Byte>)
    ensures Load(d, Be64(EOS) + rest) == Loaded(d, rest)
  {
    hide Load, Be64, Word;
    WordLoads(d, Be64(EOS), rest);
  }

  // ----- the invariant is kept by every action -----

  lemma StoreSync(s: Sender, w: GuestWrite, d: Dest)
    requires Synced(s, d)
    ensures Synced(s.(blocks := Store(s.blocks, w)), d)
  {
    hide TotalBytes, FindBlock;
    var blocks := Store(s.blocks, w);
    LayoutKeepsValid(s.blocks, blocks);
    forall at | InRange(blocks, at) && !IsDirty(blocks, at)
      ensures SamePage(blocks, d, at)
    {
      assert InRange(s.blocks, at) && !IsDirty(s.blocks, at);
    }
  }

  lemma {:induction false} StoresSync(s: Sender, ws: seq<GuestWrite>, d: Dest)
    requires Synced(s, d)
    ensures Synced(Stores(s, ws), d)
    decreases |ws|
  {
    if ws != [] {
      StoreSync(s, ws[0], d);
      StoresSync(s.(blocks := Store(s.blocks, ws[0])), ws[1..], d);
    }
  }

  lemma CleanSync(s: Sender, d: Dest, at: Pos, d': Dest)
    requires Synced(s, d) && InRange(s.blocks, at)
    requires d' == PutPage(d, Home(d, s.blocks[at.block].id), at.page * TARGET_PAGE_SIZE,
                           s.blocks[at.block].pages[at.page])
    ensures Synced(Sender(Clean(s.blocks, at), Some(at)), d')
  {
    hide TotalBytes, FindBlock;
    var blocks := Clean(s.blocks, at);
    LayoutKeepsValid(s.blocks, blocks);
    MatchesKept(s.blocks, blocks, d, d');
    forall q | InRange(blocks, q) && !IsDirty(blocks, q)
      ensures SamePage(blocks, d', q)
    {
      if q != at {
        assert InRange(s.blocks, q) && !IsDirty(s.blocks, q) && SamePage(s.blocks, d, q);
      }
    }
  }

  lemma MatchesKept(a: seq<Block>, b: seq<Block>, d: Dest, d': Dest)
    requires SameLayout(a, b) && Matches(a, d)
    requires |d.blocks| == |d'.blocks|
    requires forall i | 0 <= i < |d.blocks| ::
               d.blocks[i].id == d'.blocks[i].id && |d.blocks[i].pages| == |d'.blocks[i].pages|
    ensures Matches(b, d')
    ensures forall i | 0 <= i < |a| :: Home(d', b[i].id) == Home(d, a[i].id)
  {
    hide FindBlock;
    FindUnchanged(d.blocks, d'.blocks, 0);
  }

  lemma {:induction false} FindUnchanged(a: seq<DestBlock>, b: seq<DestBlock>, from: nat)
    requires |a| == |b| && from <= |a|
    requires forall i | 0 <= i < |a| :: a[i].id == b[i].id
    ensures forall id :: FindBlock(a, id, from) == FindBlock(b, id, from)
    decreases |a| - from
  {
    if from < |a| {
      FindUnchanged(a, b, from + 1);
    }
  }

  lemma SaveBlockSync(s: Sender, d: Dest, rest: seq<Byte>) returns (d': Dest)
    requires Synced(s, d)
    ensures Load(d, SaveBlock(s).wire + rest) == Load(d', rest)
    ensures Synced(SaveBlock(s).state, d')
  {
    var found := Scan(s.blocks, First(s), First(s));
    if found.None? {
      assert [] + rest == rest;
      return d;
    }
    var at := found.value;
    var b := s.blocks[at.block];
    var cont := s.last.Some? && s.last.value.block == at.block;
    PageRecordLoads(d, b.id, cont, at.page, b.pages[at.page], rest);
    d' := PutPage(d, Home(d, b.id), at.page * TARGET_PAGE_SIZE, b.pages[at.page]);
    CleanSync(s, d, at, d');
  }

  lemma {:induction false} SaveTicksSync(s: Sender, ticks: seq<seq<GuestWrite>>, d: Dest, rest: seq<Byte>)
    returns (d': Dest)
    requires Synced(s, d)
    ensures Load(d, SaveTicks(s, ticks).wire + rest) == Load(d', rest)
    ensures Synced(SaveTicks(s, ticks).state, d')
    decreases |ticks|
  {
    hide ValidBlocks, Matches, SaveBlock, Load;
    if ticks == [] {
      assert [] + rest == rest;
      return d;
    }
    StoresSync(s, ticks[0], d);
    var one := Stores(s, ticks[0]);
    SaveBlockOutcome(one);
    var first := SaveBlock(one);
    if first.bytes == 0 {
      d' := SaveBlockSync(one, d, rest);
    } else {
      var more := SaveTicks(first.state, ticks[1..]);
      d' := SaveBlockSync(one, d, more.wire + rest);
      assert first.wire + (more.wire + rest) == first.wire + more.wire + rest;
      d' := SaveTicksSync(first.state, ticks[1..], d', rest);
    }
  }

  lemma {:induction false} DrainSync(s: Sender, d: Dest, rest: seq<Byte>) returns (d': Dest)
    requires Synced(s, d)
    ensures Load(d, Drain(s).wire + rest) == Load(d', rest)
    ensures Synced(Drain(s).state, d')
    decreases Remaining(s.blocks)
  {
    hide ValidBlocks, Matches, SaveBlock, Load;
    SaveBlockOutcome(s);
    var first := SaveBlock(s);
    if first.bytes == 0 {
      d' := SaveBlockSync(s, d, rest);
    } else {
      var more := Drain(first.state);
      d' := SaveBlockSync(s, d, more.wire + rest);
      assert first.wire + (more.wire + rest) == first.wire + more.wire + rest;
      d' := DrainSync(first.state, d', rest);
    }
  }

  lemma SizeEntryLoads(d: Dest, total: nat, id: BlockId, w: seq<Byte>, tail: seq<Byte>)
    requires 0 < total < TWO_64 && |w| == 8
    ensures LoadSizes(d, total, [|id|] + (id + (w + tail)))
         == match FindBlock(d.blocks, id, 0)
            case None => Failed(Einval)
            case Some(i) =>
              if |d.blocks[i].pages| * TARGET_PAGE_SIZE != Word(w) then Failed(Einval)
              else LoadSizes(d, Minus64(total, Word(w)), tail)
  {
    hide Word, TakeName, FindBlock;
    NameLoads(id, w + tail);
    assert (w + tail)[..8] == w;
    assert (w + tail)[8..] == tail;
  }

  /** The receiver accepts the block table exactly when every listed block exists with the
      listed length. */
  lemma {:induction false} SizeTableLoads(blocks: seq<Block>, d: Dest, rest: seq<Byte>)
    requires forall i | 0 <= i < |blocks| :: 0 < |blocks[i].pages|
    requires TotalBytes(blocks) < TWO_64
    ensures LoadSizes(d, TotalBytes(blocks), SizeTable(blocks) + rest)
         == if Matches(blocks, d) then Loaded(d, rest) else Failed(Einval)
    decreases |blocks|
  {
    hide Word, Be64, LoadSizes, Matches, SizeTable;
    if blocks == [] {
      NoSizes(d, rest);
    } else {
      var b := blocks[0];
      var tail := SizeTable(blocks[1..]) + rest;
      SizeTableSplit(blocks, rest);
      SizeEntryLoads(d, TotalBytes(blocks), b.id, Be64(b.Length()), tail);
      SizeTableLoads(blocks[1..], d, rest);
      MatchesSplit(blocks, d);
    }
  }

  lemma NoSizes(d: Dest, rest: seq<Byte>)
    ensures Matches([], d)
    ensures LoadSizes(d, 0, SizeTable([]) + rest) == Loaded(d, rest)
  {
    assert SizeTable([]) + rest == rest;
  }

  lemma SizeTableSplit(blocks: seq<Block>, rest: seq<Byte>)
    requires blocks != []
    ensures SizeTable(blocks) + rest
         == [|blocks[0].id|] + (blocks[0].id + (Be64(blocks[0].Length()) + (SizeTable(blocks[1..]) + rest)))
  {
    hide Be64;
    Regrouped([|blocks[0].id|], blocks[0].id, Be64(blocks[0].Length()), SizeTable(blocks[1..]), rest);
  }

  lemma Regrouped(a: seq<Byte>, b: seq<Byte>, c: seq<Byte>, d: seq<Byte>, e: seq<Byte>)
    ensures a + b + c + d + e == a + (b + (c + (d + e)))
  {
  }

  lemma MatchesSplit(blocks: seq<Block>, d: Dest)
    requires blocks != []
    ensures Matches(blocks, d) <==>
              && FindBlock(d.blocks, blocks[0].id, 0).Some?
              && |d.blocks[Home(d, blocks[0].id)].pages| == |blocks[0].pages|
              && Matches(blocks[1..], d)
  {
    hide FindBlock, Home;
    assert blocks == [blocks[0]] + blocks[1..];
  }

  lemma SizeWord(d: Dest, total: nat, word: nat, tail: seq<Byte>)
    requires word == total + MEM_SIZE < TWO_64 && total % TARGET_PAGE_SIZE == 0
    ensures Dispatch(d, word, tail) == LoadSizes(d, total, tail)
    ensures !Has(word % TARGET_PAGE_SIZE, EOS)
  {
    hide LoadSizes, LoadPage;
    assert word % TARGET_PAGE_SIZE == MEM_SIZE;
  }

  /** The opening of the stream is accepted if and only if the block lists match. */
  lemma HeaderLoads(blocks: seq<Block>, d: Dest, rest: seq<Byte>)
    requires ValidBlocks(blocks)
    ensures Load(d, Header(blocks) + rest) == if Matches(blocks, d) then Load(d, rest) else Failed(Einval)
  {
    hide Be64, Word, Load, LoadSizes, SizeTable, Matches, Dispatch, TotalBytes;
    var word := TotalBytes(blocks) + MEM_SIZE;
    assert Header(blocks) + rest == Be64(word) + (SizeTable(blocks) + rest);
    TotalAligned(blocks);
    SizeWord(d, TotalBytes(blocks), word, SizeTable(blocks) + rest);
    WordLoads(d, Be64(word), SizeTable(blocks) + rest);
    SizeTableLoads(blocks, d, rest);
  }

  // ----- whole runs -----

  /** ram_load applied to each section in turn; every section must be consumed exactly. */
  function LoadAll(d: Dest, sections: seq<seq<Byte>>): Option<Dest>
    decreases |sections|
  {
    if sections == [] then Some(d)
    else match Load(d, sections[0])
      case Loaded(d', rest) => if rest == [] then LoadAll(d', sections[1..]) else None
      case Failed(_) => None
  }

  lemma StageOneSync(blocks: seq<Block>, ticks: seq<seq<GuestWrite>>, d: Dest) returns (d': Dest)
    requires ValidBlocks(blocks) && Matches(blocks, d)
    ensures Load(d, StageOne(blocks, ticks).wire) == Loaded(d', [])
    ensures Synced(StageOne(blocks, ticks).state, d')
  {
    hide Load, SaveTicks, Be64, Header, TotalBytes;
    var marked := MarkDirty(blocks);
    LayoutKeepsValid(blocks, marked);
    var s := Sender(marked, None);
    var sent := SaveTicks(s, ticks);
    assert StageOne(blocks, ticks).wire == Header(marked) + (sent.wire + Be64(EOS));
    HeaderLoads(marked, d, sent.wire + Be64(EOS));
    d' := SaveTicksSync(s, ticks, d, Be64(EOS));
    EosLoads(d', []);
    assert Be64(EOS) + [] == Be64(EOS);
  }

  lemma StageTwoSync(s: Sender, round: Round, d: Dest) returns (d': Dest)
    requires Synced(s, d)
    ensures Load(d, StageTwo(s, round).wire) == Loaded(d', [])
    ensures Synced(StageTwo(s, round).state, d')
  {
    hide ValidBlocks, Matches, Load, SaveTicks, Be64;
    StoresSync(s, round.before, d);
    d' := SaveTicksSync(Stores(s, round.before), round.ticks, d, Be64(EOS));
    EosLoads(d', []);
    assert Be64(EOS) + [] == Be64(EOS);
  }

  lemma StageThreeSync(s: Sender, before: seq<GuestWrite>, n: nat, d: Dest) returns (d': Dest)
    requires Synced(s, d)
    ensures Load(d, StageThree(s, before, n).wire) == Loaded(d', [])
    ensures Synced(StageThree(s, before, n).state, d')
  {
    hide ValidBlocks, Matches, Load, Drain, SaveTicks, Be64;
    StoresSync(s, before, d);
    var limited := SaveTicks(Stores(s, before), seq(n, _ => []));
    var flushed := Drain(limited.state);
    assert limited.wire + flushed.wire + Be64(EOS) == limited.wire + (flushed.wire + Be64(EOS));
    d' := SaveTicksSync(Stores(s, before), seq(n, _ => []), d, flushed.wire + Be64(EOS));
    d' := DrainSync(limited.state, d', Be64(EOS));
    EosLoads(d', []);
    assert Be64(EOS) + [] == Be64(EOS);
  }

  /** After any number of stage-2 calls, once what was sent has been loaded, every page that is
      not dirty is equal on both sides. */
  lemma {:induction false} StagesTwoSync(s: Sender, rounds: seq<Round>, d: Dest, tail: seq<seq<Byte>>)
    returns (d': Dest)
    requires Synced(s, d)
    ensures LoadAll(d, StagesTwo(s, rounds).sections + tail) == LoadAll(d', tail)
    ensures Synced(StagesTwo(s, rounds).state, d')
    decreases |rounds|
  {
    hide ValidBlocks, Matches, Load, StageTwo;
    if rounds == [] {
      assert [] + tail == tail;
      return d;
    }
    var first := StageTwo(s, rounds[0]);
    var more := StagesTwo(first.state, rounds[1..]).sections;
    d' := StageTwoSync(s, rounds[0], d);
    assert ([first.wire] + more + tail)[1..] == more + tail;
    d' := StagesTwoSync(first.state, rounds[1..], d', tail);
  }

  /** Migration is correct over every run: whatever the initial contents on either side, whatever
      the guest writes before stage 3 and wherever the rate limit cuts the calls, the whole
      stream loads and leaves the destination equal to the source on every page. */
  lemma MigrationCorrect(blocks: seq<Block>, ticks: seq<seq<GuestWrite>>, rounds: seq<Round>,
                         before: seq<GuestWrite>, n: nat, d: Dest)
    requires ValidBlocks(blocks) && Matches(blocks, d)
    ensures var run := Migrate(blocks, ticks, rounds, before, n);
      var result := LoadAll(d, run.sections);
      && result.Some?
      && Matches(run.state.blocks, result.value)
      && forall at | InRange(run.state.blocks, at) :: SamePage(run.state.blocks, result.value, at)
  {
    hide ValidBlocks, Matches, Load, StageOne, StagesTwo, StageThree;
    var one := StageOne(blocks, ticks);
    var two := StagesTwo(one.state, rounds);
    var three := StageThree(two.state, before, n);
    var d1 := StageOneSync(blocks, ticks, d);
    var d2 := StagesTwoSync(one.state, rounds, d1, [three.wire]);
    var d3 := StageThreeSync(two.state, before, n, d2);
    var sections := Migrate(blocks, ticks, rounds, before, n).sections;
    assert sections == [one.wire] + (two.sections + [three.wire]);
    assert sections[1..] == two.sections + [three.wire];
    assert LoadAll(d2, [three.wire]) == LoadAll(d3, []);
  }
}
