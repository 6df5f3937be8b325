/** The sending side of live RAM migration (qemu/arch_init.c:89-337). */
module RamSender {
  import opened Octets
  import opened Wrappers

  const TARGET_PAGE_SIZE := 1024 // 1 << TARGET_PAGE_BITS, qemu/target-arm/cpu.h:446

  // RAM_SAVE_FLAG_*.  Offsets are page aligned and flags are below the page size,
  // so `offset | flags` is written offset + flags.
  const COMPRESS := 0x02
  const MEM_SIZE := 0x04
  const PAGE := 0x08
  const EOS := 0x10
  const CONTINUE := 0x20

  type Page = p: seq<Byte> | |p| == TARGET_PAGE_SIZE witness seq(TARGET_PAGE_SIZE, _ => 0)

  /** A block name: a C string of fewer than 256 characters. */
  type BlockId = s: seq<Byte> | |s| < 256 && 0 !in s witness []

  /** A RAMBlock with its host memory and the migration dirty flag of each page. */
  datatype Block = Block(id: BlockId, offset: nat, pages: seq<Page>, dirty: seq<bool>) {
    function Length(): nat { |pages| * TARGET_PAGE_SIZE }
  }

  datatype Pos = Pos(block: nat, page: nat)

  /** last_block and last_offset: NULL, or the page last looked at. */
  datatype Sender = Sender(blocks: seq<Block>, last: Option<Pos>)

  predicate InRange(blocks: seq<Block>, at: Pos) {
    at.block < |blocks| && at.page < |blocks[at.block].dirty|
  }

  predicate IsDirty(blocks: seq<Block>, at: Pos)
    requires InRange(blocks, at)
  {
    blocks[at.block].dirty[at.page]
  }

  /** ram_bytes_total. */
  function TotalBytes(blocks: seq<Block>): nat {
    if blocks == [] then 0 else blocks[0].Length() + TotalBytes(blocks[1..])
  }

  lemma {:induction false} TotalAligned(blocks: seq<Block>)
    ensures TotalBytes(blocks) % TARGET_PAGE_SIZE == 0
  {
    if blocks != [] {
      TotalAligned(blocks[1..]);
    }
  }

  ghost predicate ValidBlocks(blocks: seq<Block>) {
    && |blocks| > 0
    && (forall i | 0 <= i < |blocks| :: 0 < |blocks[i].pages| == |blocks[i].dirty|)
    && (forall i | 0 <= i < |blocks| :: blocks[i].Length() < TWO_64)
    && TotalBytes(blocks) < TWO_64
    && (forall i, j | 0 <= i < j < |blocks| :: blocks[i].id != blocks[j].id)
    && (forall i, j | 0 <= i < |blocks| && 0 <= j < |blocks| && i != j ::
          || blocks[i].offset + blocks[i].Length() <= blocks[j].offset
          || blocks[j].offset + blocks[j].Length() <= blocks[i].offset)
  }

  /** The cursor is in range, and while it is NULL the first page is still dirty:
      ram_save_block dereferences last_block unless its first probe succeeds. */
  ghost predicate Valid(s: Sender) {
    && ValidBlocks(s.blocks)
    && match s.last
       case None => IsDirty(s.blocks, Pos(0, 0))
       case Some(at) => InRange(s.blocks, at)
  }

  // ----- the round-robin scan -----

  predicate Before(x: Pos, y: Pos) {
    x.block < y.block || (x.block == y.block && x.page < y.page)
  }

  /** x is visited before y by a scan that begins at start and wraps around. */
  predicate Sooner(start: Pos, x: Pos, y: Pos) {
    if Before(x, start) == Before(y, start) then Before(x, y) else Before(y, start)
  }

  function Next(blocks: seq<Block>, at: Pos): (n: Pos)
    requires ValidBlocks(blocks) && InRange(blocks, at)
    ensures InRange(blocks, n)
  {
    if at.page + 1 < |blocks[at.block].pages| then Pos(at.block, at.page + 1)
    else if at.block + 1 < |blocks| then Pos(at.block + 1, 0)
    else Pos(0, 0)
  }

  /** The do-while loop of ram_save_block. */
  function Scan(blocks: seq<Block>, start: Pos, at: Pos): (r: Option<Pos>)
    requires ValidBlocks(blocks) && InRange(blocks, start) && InRange(blocks, at)
    ensures r.Some? ==> InRange(blocks, r.value) && IsDirty(blocks, r.value) && !Sooner(start, r.value, at)
    ensures forall q | InRange(blocks, q) && IsDirty(blocks, q) && !Sooner(start, q, at) ::
              r.Some? && !Sooner(start, q, r.value)
    decreases !Before(at, start), |blocks| - at.block, |blocks[at.block].pages| - at.page
  {
    if IsDirty(blocks, at) then Some(at)
    else
      var n := Next(blocks, at);
      if n == start then None else Scan(blocks, start, n)
  }

  function First(s: Sender): Pos {
    if s.last.Some? then s.last.value else Pos(0, 0)
  }

  // ----- one page record -----

  predicate IsDup(page: Page) {
    forall i | 0 <= i < TARGET_PAGE_SIZE :: page[i] == page[0]
  }

  function PageRecord(id: BlockId, cont: bool, page: nat, data: Page): seq<Byte> {
    var flags := (if cont then CONTINUE else 0) + (if IsDup(data) then COMPRESS else PAGE);
    Be64(page * TARGET_PAGE_SIZE + flags)
    + (if cont then [] else [|id|] + id)
    + (if IsDup(data) then [data[0]] else data)
  }

  function Clean(blocks: seq<Block>, at: Pos): seq<Block>
    requires InRange(blocks, at)
  {
    blocks[at.block := blocks[at.block].(dirty := blocks[at.block].dirty[at.page := false])]
  }

  datatype Sent = Sent(state: Sender, wire: seq<Byte>, bytes: nat)

  /** ram_save_block: the new sender state, the bytes written and the count returned. */
  function SaveBlock(s: Sender): Sent
    requires Valid(s)
  {
    match Scan(s.blocks, First(s), First(s))
    case None => Sent(s, [], 0)
    case Some(at) =>
      var block := s.blocks[at.block];
      var cont := s.last.Some? && s.last.value.block == at.block;
      Sent(Sender(Clean(s.blocks, at), Some(at)),
           PageRecord(block.id, cont, at.page, block.pages[at.page]),
           if IsDup(block.pages[at.page]) then 1 else TARGET_PAGE_SIZE)
  }

  // ----- what one call achieves -----

  function CountTrue(flags: seq<bool>): (n: nat)
    ensures n <= |flags|
  {
    if flags == [] then 0
    else CountTrue(flags[..|flags| - 1]) + if flags[|flags| - 1] then 1 else 0
  }

  /** ram_save_remaining: the number of dirty pages. */
  function Remaining(blocks: seq<Block>): nat {
    if blocks == [] then 0
    else Remaining(blocks[..|blocks| - 1]) + CountTrue(blocks[|blocks| - 1].dirty)
  }

  lemma {:induction false} CountTrueClear(flags: seq<bool>, i: nat)
    requires i < |flags| && flags[i]
    ensures CountTrue(flags[i := false]) == CountTrue(flags) - 1
  {
    var n := |flags| - 1;
    if i < n {
      CountTrueClear(flags[..n], i);
      assert flags[i := false][..n] == flags[..n][i := false];
    } else {
      assert flags[i := false][..n] == flags[..n];
    }
  }

  lemma {:induction false} RemainingClean(blocks: seq<Block>, at: Pos)
    requires InRange(blocks, at) && IsDirty(blocks, at)
    ensures Remaining(Clean(blocks, at)) == Remaining(blocks) - 1
  {
    var n := |blocks| - 1;
    CountTrueClear(blocks[at.block].dirty, at.page);
    if at.block < n {
      RemainingClean(blocks[..n], at);
      assert Clean(blocks, at)[..n] == Clean(blocks[..n], at);
    } else {
      assert Clean(blocks, at)[..n] == blocks[..n];
    }
  }

  ghost predicate AllClean(blocks: seq<Block>) {
    forall q | InRange(blocks, q) :: !IsDirty(blocks, q)
  }

  /** The block list of two states differs at most in memory contents and dirty flags. */
  ghost predicate SameLayout(a: seq<Block>, b: seq<Block>) {
    && |a| == |b|
    && forall i | 0 <= i < |a| ::
         a[i].id == b[i].id && a[i].offset == b[i].offset
         && |a[i].pages| == |b[i].pages| && |a[i].dirty| == |b[i].dirty|
  }

  lemma {:induction false} SameTotal(a: seq<Block>, b: seq<Block>)
    requires SameLayout(a, b)
    ensures TotalBytes(a) == TotalBytes(b)
  {
    if a != [] {
      SameTotal(a[1..], b[1..]);
    }
  }

  lemma LayoutKeepsValid(a: seq<Block>, b: seq<Block>)
    requires SameLayout(a, b) && ValidBlocks(a)
    ensures ValidBlocks(b)
  {
    hide TotalBytes;
    SameTotal(a, b);
    assert forall i | 0 <= i < |a| :: a[i].Length() == b[i].Length();
  }

  /** ram_save_block either cleans exactly one page, the first dirty one in round-robin
      order from the cursor, or finds no dirty page in any block. */
  lemma SaveBlockOutcome(s: Sender)
    requires Valid(s)
    ensures var r := SaveBlock(s);
      && Valid(r.state)
      && SameLayout(s.blocks, r.state.blocks)
      && (r.bytes == 0 ==> r.state == s && r.wire == [] && AllClean(s.blocks))
      && (r.bytes != 0 ==>
            exists at | InRange(s.blocks, at) ::
              && IsDirty(s.blocks, at)
              && r.state == Sender(Clean(s.blocks, at), Some(at))
              && Remaining(r.state.blocks) == Remaining(s.blocks) - 1
              && forall q | InRange(s.blocks, q) && IsDirty(s.blocks, q) :: !Sooner(First(s), q, at))
  {
    hide TotalBytes, Remaining;
    var found := Scan(s.blocks, First(s), First(s));
    if found.Some? {
      RemainingClean(s.blocks, found.value);
      LayoutKeepsValid(s.blocks, Clean(s.blocks, found.value));
    }
  }

  // ----- guest activity and whole calls of ram_save_live -----

  datatype GuestWrite = GuestWrite(at: Pos, data: Page)

  /** A guest store: the page changes and its dirty flag is raised. */
  function Store(blocks: seq<Block>, w: GuestWrite): (r: seq<Block>)
    ensures ValidBlocks(blocks) ==> SameLayout(blocks, r)
  {
    if InRange(blocks, w.at) && w.at.page < |blocks[w.at.block].pages| then
      var b := blocks[w.at.block];
      blocks[w.at.block := b.(pages := b.pages[w.at.page := w.data], dirty := b.dirty[w.at.page := true])]
    else blocks
  }

  function Stores(s: Sender, ws: seq<GuestWrite>): Sender
    decreases |ws|
  {
    if ws == [] then s else Stores(s.(blocks := Store(s.blocks, ws[0])), ws[1..])
  }

  lemma StoreKeepsValid(s: Sender, w: GuestWrite)
    requires Valid(s)
    ensures Valid(s.(blocks := Store(s.blocks, w)))
  {
    hide ValidBlocks;
    LayoutKeepsValid(s.blocks, Store(s.blocks, w));
  }

  lemma {:induction false} StoresKeepValid(s: Sender, ws: seq<GuestWrite>)
    requires Valid(s)
    ensures Valid(Stores(s, ws)) && SameLayout(s.blocks, Stores(s, ws).blocks)
    decreases |ws|
  {
    hide ValidBlocks;
    if ws != [] {
      StoreKeepsValid(s, ws[0]);
      StoresKeepValid(s.(blocks := Store(s.blocks, ws[0])), ws[1..]);
    }
  }

  /** The rate-limited loop of ram_save_live.  Each element of ticks is the guest activity that
      precedes one turn; the rate limit stops the loop when ticks runs out. */
  function SaveTicks(s: Sender, ticks: seq<seq<GuestWrite>>): (r: Sent)
    requires Valid(s)
    ensures Valid(r.state) && SameLayout(s.blocks, r.state.blocks)
    decreases |ticks|
  {
    if ticks == [] then Sent(s, [], 0)
    else
      StoresKeepValid(s, ticks[0]);
      var one := Stores(s, ticks[0]);
      SaveBlockOutcome(one);
      var first := SaveBlock(one);
      if first.bytes == 0 then first
      else
        var rest := SaveTicks(first.state, ticks[1..]);
        Sent(rest.state, first.wire + rest.wire, first.bytes + rest.bytes)
  }

  /** The flush of stage 3: no rate limit and a stopped guest. */
  function Drain(s: Sender): (r: Sent)
    requires Valid(s)
    ensures AllClean(r.state.blocks) && Valid(r.state) && SameLayout(s.blocks, r.state.blocks)
    decreases Remaining(s.blocks)
  {
    SaveBlockOutcome(s);
    var first := SaveBlock(s);
    if first.bytes == 0 then first
    else
      var rest := Drain(first.state);
      Sent(rest.state, first.wire + rest.wire, first.bytes + rest.bytes)
  }

  function SizeTable(blocks: seq<Block>): seq<Byte> {
    if blocks == [] then []
    else [|blocks[0].id|] + blocks[0].id + Be64(blocks[0].Length()) + SizeTable(blocks[1..])
  }

  function Header(blocks: seq<Block>): seq<Byte> {
    Be64(TotalBytes(blocks) + MEM_SIZE) + SizeTable(blocks)
  }

  function MarkDirty(blocks: seq<Block>): (r: seq<Block>)
    ensures SameLayout(blocks, r)
    ensures forall q | InRange(r, q) :: IsDirty(r, q)
  {
    seq(|blocks|, i requires 0 <= i < |blocks| =>
      blocks[i].(dirty := seq(|blocks[i].dirty|, _ => true)))
  }

  /** ram_save_live with stage 1: the block table, then as much as the rate limit allows. */
  function StageOne(blocks: seq<Block>, ticks: seq<seq<GuestWrite>>): (r: Sent)
    requires ValidBlocks(blocks)
    ensures Valid(r.state) && SameLayout(blocks, r.state.blocks)
  {
    var marked := MarkDirty(blocks);
    LayoutKeepsValid(blocks, marked);
    var sent := SaveTicks(Sender(marked, None), ticks);
    sent.(wire := Header(marked) + sent.wire + Be64(EOS))
  }

  /** One call with stage 2: guest activity since the last call, then the rate-limited loop. */
  datatype Round = Round(before: seq<GuestWrite>, ticks: seq<seq<GuestWrite>>)

  function StageTwo(s: Sender, round: Round): (r: Sent)
    requires Valid(s)
    ensures Valid(r.state) && SameLayout(s.blocks, r.state.blocks)
  {
    StoresKeepValid(s, round.before);
    var sent := SaveTicks(Stores(s, round.before), round.ticks);
    sent.(wire := sent.wire + Be64(EOS))
  }

  /** The call with stage 3: the guest has stopped after `before`; the rate-limited loop takes
      at most n turns and then everything left is flushed. */
  function StageThree(s: Sender, before: seq<GuestWrite>, n: nat): (r: Sent)
    requires Valid(s)
    ensures Valid(r.state) && SameLayout(s.blocks, r.state.blocks)
    ensures AllClean(r.state.blocks)
  {
    StoresKeepValid(s, before);
    var limited := SaveTicks(Stores(s, before), seq(n, _ => []));
    var flushed := Drain(limited.state);
    Sent(flushed.state, limited.wire + flushed.wire + Be64(EOS), limited.bytes + flushed.bytes)
  }

  datatype Stream = Stream(state: Sender, sections: seq<seq<Byte>>)

  function StagesTwo(s: Sender, rounds: seq<Round>): (r: Stream)
    requires Valid(s)
    ensures Valid(r.state) && SameLayout(s.blocks, r.state.blocks)
    decreases |rounds|
  {
    if rounds == [] then Stream(s, [])
    else
      var first := StageTwo(s, rounds[0]);
      var rest := StagesTwo(first.state, rounds[1..]);
      Stream(rest.state, [first.wire] + rest.sections)
  }

  /** A whole migration: the final source state and the sections written. */
  function Migrate(blocks: seq<Block>, ticks: seq<seq<GuestWrite>>, rounds: seq<Round>,
                   before: seq<GuestWrite>, n: nat): (r: Stream)
    requires ValidBlocks(blocks)
    ensures Valid(r.state) && SameLayout(blocks, r.state.blocks) && AllClean(r.state.blocks)
  {
    var one := StageOne(blocks, ticks);
    var two := StagesTwo(one.state, rounds);
    var three := StageThree(two.state, before, n);
    Stream(three.state, [one.wire] + two.sections + [three.wire])
  }
}
