/** What the counts and the bytes of live RAM migration stand for (qemu/arch_init.c:89-196, 303-337). */
module RamAccounts {
  import opened Octets
  import opened Wrappers
  import opened RamSender

  // ----- counts -----

  function SetFlags(flags: seq<bool>): set<nat> {
    set p: nat | p < |flags| && flags[p]
  }

  function DirtyPages(blocks: seq<Block>): set<Pos> {
    set b: nat, p: nat | b < |blocks| && p < |blocks[b].dirty| && blocks[b].dirty[p] :: Pos(b, p)
  }

  lemma {:induction false} CountIsSize(flags: seq<bool>)
    ensures CountTrue(flags) == |SetFlags(flags)|
  {
    if flags != [] {
      var n := |flags| - 1;
      CountIsSize(flags[..n]);
      assert SetFlags(flags) == SetFlags(flags[..n]) + if flags[n] then {n} else {};
    }
  }

  function At(b: nat, pages: set<nat>): (r: set<Pos>)
    ensures forall x :: x in r <==> x.block == b && x.page in pages
  {
    set p | p in pages :: Pos(b, p)
  }

  lemma {:induction false} AtSize(b: nat, pages: set<nat>)
    ensures |At(b, pages)| == |pages|
    decreases |pages|
  {
    if pages != {} {
      var p :| p in pages;
      AtSize(b, pages - {p});
      assert At(b, pages) == At(b, pages - {p}) + {Pos(b, p)};
    } else {
      assert At(b, pages) == {};
    }
  }

  /** ram_save_remaining is the number of dirty pages. */
  lemma {:induction false} RemainingIsDirty(blocks: seq<Block>)
    ensures Remaining(blocks) == |DirtyPages(blocks)|
  {
    if blocks != [] {
      hide CountTrue, SetFlags, At;
      var n := |blocks| - 1;
      RemainingIsDirty(blocks[..n]);
      LastBlock(blocks);
      CountIsSize(blocks[n].dirty);
      AtSize(n, SetFlags(blocks[n].dirty));
    }
  }

  lemma LastBlock(blocks: seq<Block>)
    requires blocks != []
    ensures var n := |blocks| - 1;
      var last := At(n, SetFlags(blocks[n].dirty));
      && DirtyPages(blocks) == DirtyPages(blocks[..n]) + last
      && |DirtyPages(blocks)| == |DirtyPages(blocks[..n])| + |last|
  {
    var n := |blocks| - 1;
    var last := At(n, SetFlags(blocks[n].dirty));
    assert DirtyPages(blocks) == DirtyPages(blocks[..n]) + last;
    assert DirtyPages(blocks[..n]) !! last;
  }

  /** It is 0 exactly when every page is clean. */
  lemma RemainingNone(blocks: seq<Block>)
    ensures Remaining(blocks) == 0 <==> AllClean(blocks)
  {
    hide Remaining;
    RemainingIsDirty(blocks);
    assert forall q :: q in DirtyPages(blocks) <==> InRange(blocks, q) && IsDirty(blocks, q);
    if AllClean(blocks) {
      assert DirtyPages(blocks) == {};
    }
  }

  lemma {:induction false} AllTrue(n: nat)
    ensures CountTrue(seq(n, _ => true)) == n
  {
    if n > 0 {
      AllTrue(n - 1);
      assert seq(n, _ => true)[..n - 1] == seq(n - 1, _ => true);
    }
  }

  lemma {:induction false} TotalLast(blocks: seq<Block>)
    requires blocks != []
    ensures TotalBytes(blocks) == TotalBytes(blocks[..|blocks| - 1]) + blocks[|blocks| - 1].Length()
  {
    if |blocks| > 1 {
      TotalLast(blocks[1..]);
      assert blocks[1..][..|blocks| - 2] == blocks[..|blocks| - 1][1..];
    } else {
      assert blocks[1..] == [] && blocks[..0] == [];
    }
  }

  /** When stage 1 begins, all bytes of all blocks remain. */
  lemma {:induction false} AllRemain(blocks: seq<Block>)
    requires forall i | 0 <= i < |blocks| :: |blocks[i].pages| == |blocks[i].dirty|
    ensures Remaining(MarkDirty(blocks)) * TARGET_PAGE_SIZE == TotalBytes(blocks)
  {
    if blocks != [] {
      hide CountTrue, TotalBytes;
      var n := |blocks| - 1;
      AllRemain(blocks[..n]);
      assert MarkDirty(blocks)[..n] == MarkDirty(blocks[..n]);
      AllTrue(|blocks[n].dirty|);
      TotalLast(blocks);
    } else {
      assert MarkDirty(blocks) == [];
    }
  }

  /** The count that ram_save_block returns is the size of the page data it wrote. */
  lemma BytesWritten(s: Sender)
    requires Valid(s)
    ensures var r := SaveBlock(s);
      if r.bytes == 0 then r.wire == []
      else r.state.last.Some? &&
           var to := r.state.last.value;
           var named := !(s.last.Some? && s.last.value.block == to.block);
           && InRange(s.blocks, to)
           && |r.wire| == 8 + (if named then 1 + |s.blocks[to.block].id| else 0) + r.bytes
           && (r.bytes == 1 <==> forall b | b in s.blocks[to.block].pages[to.page] ::
                 b == s.blocks[to.block].pages[to.page][0])
  {
    hide Scan, TotalBytes;
    var found := Scan(s.blocks, First(s), First(s));
    if found.Some? {
      OneValue(s.blocks[found.value.block].pages[found.value.page]);
    }
  }

  lemma OneValue(page: Page)
    ensures IsDup(page) <==> forall b | b in page :: b == page[0]
  {
    if forall b | b in page :: b == page[0] {
      assert forall i | 0 <= i < |page| :: page[i] in page;
    }
  }

  // ----- bytes -----

  /** A whole page, with the name of its block. */
  lemma NamedPage(data: Page)
    requires !IsDup(data)
    ensures PageRecord([97, 98], false, 3, data) == [0, 0, 0, 0, 0, 0, 0x0C, 0x08] + [2, 97, 98] + data
  {
    hide IsDup, Be64;
    SmallWord(0x0C08);
  }

  /** A page of one octet value, in the block of the page before. */
  lemma FilledPage(id: BlockId, data: Page)
    requires IsDup(data)
    ensures PageRecord(id, true, 1, data) == [0, 0, 0, 0, 0, 0, 0x04, 0x22] + [data[0]]
  {
    hide IsDup, Be64;
    SmallWord(0x0422);
  }

  /** The opening for one block of one page, and the end of a section. */
  lemma OpeningAndEnd(block: Block)
    requires block.id == [97, 98] && |block.pages| == 1
    ensures Header([block])
         == [0, 0, 0, 0, 0, 0, 0x04, 0x04] + ([2, 97, 98] + [0, 0, 0, 0, 0, 0, 0x04, 0x00])
    ensures Be64(EOS) == [0, 0, 0, 0, 0, 0, 0, 0x10]
  {
    hide Be64;
    SmallWord(0x0404);
    SmallWord(0x0400);
    SmallWord(0x10);
    assert [block][1..] == [] && SizeTable([]) == [];
    assert TotalBytes([block]) == 0x400;
    assert SizeTable([block]) == [2] + [97, 98] + Be64(0x400);
  }

  lemma SmallWord(v: nat)
    requires v < 0x1_0000
    ensures Be64(v) == [0, 0, 0, 0, 0, 0, v / 256, v % 256]
  {
    assert PutBe(0, 2) == [0, 0];
    assert PutBe(0, 4) == [0, 0, 0, 0];
    assert PutBe(0, 6) == [0, 0, 0, 0, 0, 0];
    assert PutBe(v / 256, 7) == PutBe(0, 6) + [v / 256];
  }
}
