/** The receiving side of live RAM migration (qemu/arch_init.c:339-457, version_id 3). */
module RamReceiver {
  import opened Octets
  import opened Wrappers
  import opened RamSender

  datatype DestBlock = DestBlock(id: BlockId, pages: seq<Page>)

  /** RAM at the destination and the static `block` of host_from_stream_offset. */
  datatype Dest = Dest(blocks: seq<DestBlock>, current: Option<nat>)

  /** Einval and Eio are error returns; Fault is a store through a bad pointer. */
  datatype LoadError = Einval | Eio | Fault

  datatype Loaded = Loaded(dest: Dest, rest: seq<Byte>) | Failed(error: LoadError)

  predicate Has(flags: nat, bit: nat)
    requires bit > 0
  {
    flags / bit % 2 == 1
  }

  /** The C string held in a buffer: everything before the first NUL. */
  function CString(s: seq<Byte>): (r: seq<Byte>)
    ensures 0 !in s ==> r == s
  {
    if s == [] || s[0] == 0 then [] else [s[0]] + CString(s[1..])
  }

  /** The search of the block list by name. */
  function FindBlock(blocks: seq<DestBlock>, id: seq<Byte>, from: nat): (r: Option<nat>)
    requires from <= |blocks|
    ensures r.Some? ==> from <= r.value < |blocks| && blocks[r.value].id == id
    ensures r.Some? ==> forall i | from <= i < r.value :: blocks[i].id != id
    ensures r.None? ==> forall i | from <= i < |blocks| :: blocks[i].id != id
    decreases |blocks| - from
  {
    if from == |blocks| then None
    else if blocks[from].id == id then Some(from)
    else FindBlock(blocks, id, from + 1)
  }

  datatype Named = Named(id: seq<Byte>, rest: seq<Byte>) | NoName

  /** A length octet followed by that many characters. */
  function TakeName(s: seq<Byte>): (r: Named)
    ensures r.Named? ==> |r.rest| < |s|
  {
    if s == [] || |s| - 1 < s[0] then NoName
    else Named(CString(s[1..1 + s[0]]), s[1 + s[0]..])
  }

  /** Unsigned 64-bit subtraction. */
  function Minus64(a: nat, b: nat): (r: nat)
    requires a < TWO_64 && b < TWO_64
    ensures r < TWO_64
  {
    if a >= b then a - b else a - b + TWO_64
  }

  /** The check of the block list that opens the stream. */
  function LoadSizes(d: Dest, total: nat, s: seq<Byte>): (r: Loaded)
    requires total < TWO_64
    ensures r.Loaded? ==> r.dest == d && |r.rest| <= |s|
    decreases |s|
  {
    if total == 0 then Loaded(d, s)
    else match TakeName(s)
      case NoName => Failed(Eio)
      case Named(id, s1) =>
        if |s1| < 8 then Failed(Eio)
        else
          var length := Word(s1[..8]);
          match FindBlock(d.blocks, id, 0)
          case None => Failed(Einval)
          case Some(i) =>
            if |d.blocks[i].pages| * TARGET_PAGE_SIZE != length then Failed(Einval)
            else LoadSizes(d, Minus64(total, length), s1[8..])
  }

  datatype Located = Located(block: Option<nat>, rest: seq<Byte>) | NoHost(error: LoadError)

  /** host_from_stream_offset: which block the record is for. */
  function Locate(d: Dest, flags: nat, s: seq<Byte>): (r: Located)
    ensures r.Located? ==> |r.rest| <= |s|
  {
    if Has(flags, CONTINUE) then Located(d.current, s)
    else match TakeName(s)
      case NoName => NoHost(Eio)
      case Named(id, s1) => Located(FindBlock(d.blocks, id, 0), s1)
  }

  predicate InHost(d: Dest, block: nat, addr: nat) {
    block < |d.blocks| && addr / TARGET_PAGE_SIZE < |d.blocks[block].pages|
  }

  function PutPage(d: Dest, block: nat, addr: nat, data: Page): Dest
    requires InHost(d, block, addr)
  {
    var b := d.blocks[block];
    Dest(d.blocks[block := b.(pages := b.pages[addr / TARGET_PAGE_SIZE := data])], Some(block))
  }

  function Filled(ch: Byte): Page {
    seq(TARGET_PAGE_SIZE, _ => ch)
  }

  function LoadPage(d: Dest, addr: nat, flags: nat, s: seq<Byte>): (r: Loaded)
    ensures r.Loaded? ==> |r.rest| <= |s|
  {
    var dup := Has(flags, COMPRESS);
    match Locate(d, flags, s)
    case NoHost(e) => Failed(e)
    case Located(None, _) => Failed(if dup then Einval else Fault)
    case Located(Some(b), s1) =>
      var size := if dup then 1 else TARGET_PAGE_SIZE;
      if |s1| < size then Failed(Eio)
      else if !InHost(d, b, addr) then Failed(Fault)
      else Loaded(PutPage(d, b, addr, if dup then Filled(s1[0]) else s1[..size]), s1[size..])
  }

  /** The treatment of one record, by the flags in the low bits of its first word. */
  function Dispatch(d: Dest, word: nat, s: seq<Byte>): (r: Loaded)
    requires word < TWO_64
    ensures r.Loaded? ==> |r.rest| <= |s|
  {
    var flags := word % TARGET_PAGE_SIZE;
    if Has(flags, MEM_SIZE) then LoadSizes(d, word - flags, s)
    else if Has(flags, COMPRESS) || Has(flags, PAGE) then LoadPage(d, word - flags, flags, s)
    else Loaded(d, s)
  }

  /** ram_load: the records of one section, up to and including its EOS. */
  function Load(d: Dest, s: seq<Byte>): (r: Loaded)
    ensures r.Loaded? ==> |r.rest| < |s|
    decreases |s|
  {
    if |s| < 8 then Failed(Eio)
    else
      var r := Dispatch(d, Word(s[..8]), s[8..]);
      if r.Failed? || Has(Word(s[..8]) % TARGET_PAGE_SIZE, EOS) then r else Load(r.dest, r.rest)
  }
}
