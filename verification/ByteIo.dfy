/** Byte requests on a device of 512-byte sectors (qemu/block.c:874-1065). */
module ByteIo {
  import opened Octets
  import opened Constants

  /** What the checks before a request look at. */
  datatype Media = Media(driver: bool, inserted: bool, growable: bool, readOnly: bool, totalSectors: nat)

  /** What a call into the driver does: a write that fails has stored only the bytes that are torn. */
  datatype Fate = Done | Fails(less: nat, torn: int -> bool)

  /** The error code of a fault; never zero. */
  function Code(f: Fate): (ret: int)
    requires f.Fails?
    ensures ret < 0
  {
    -1 - f.less
  }

  type Contents = int -> Byte

  /** The byte requests that a device without faults serves; nothing here is about sectors. */
  predicate Accepts(m: Media, offset: int, count: int) {
    m.driver && m.inserted && (m.growable || (0 <= offset && offset + count <= SECTOR * m.totalSectors))
  }

  /** bdrv_check_byte_request, with bdrv_is_inserted and bdrv_getlength (block.c:874-894, 1127-1142, 2513-2523). */
  function CheckByteRequest(m: Media, offset: int, size: nat): (ret: int)
    ensures ret == 0 <==> Accepts(m, offset, size)
    ensures ret <= 0
  {
    if !m.driver || !m.inserted then -ENOMEDIUM
    else if m.growable then 0
    else
      var len := SECTOR * m.totalSectors;
      if offset < 0 then -EIO else if offset > len || len - offset < size then -EIO else 0
  }

  predicate Writable(m: Media, offset: int, count: int) {
    !m.readOnly && Accepts(m, offset, count)
  }

  /** How far it is from offset to the next sector boundary. */
  function Lead(offset: int): (len: nat)
    ensures len == 0 ==> SECTOR * (offset / SECTOR) == offset
    ensures len > 0 ==> offset % SECTOR + len == SECTOR
  {
    (SECTOR - offset) % SECTOR
  }

  /** A device serves a request for part of a sector when it serves the sector. */
  lemma SectorServed(m: Media, sector: int, skip: nat, len: nat)
    requires 0 < len && skip + len <= SECTOR
    ensures Accepts(m, SECTOR * sector, SECTOR) <==> Accepts(m, SECTOR * sector + skip, len)
  {
  }

  /** A request is served when its pieces are, and its pieces when it is. */
  lemma PieceServed(m: Media, offset: int, at: nat, k: nat, count: nat)
    requires 0 < k && at + k <= count
    ensures Accepts(m, offset, count) ==> Accepts(m, offset + at, k)
    ensures at == 0 || Accepts(m, offset, at) ==> Accepts(m, offset + at, k) ==> Accepts(m, offset, at + k)
  {
  }

  lemma PieceWritable(m: Media, offset: int, at: nat, k: nat, count: nat)
    requires 0 < k && at + k <= count
    ensures Writable(m, offset, count) ==> Writable(m, offset + at, k)
    ensures at == 0 || Writable(m, offset, at) ==> Writable(m, offset + at, k) ==> Writable(m, offset, at + k)
  {
  }

  /** From was to now, the bytes of disk from offset on have been fetched into len places from at on:
      all of them if done, else some. */
  ghost predicate Fetched(was: seq<Byte>, now: seq<Byte>, disk: Contents, offset: int, at: nat, len: nat, done: bool) {
    && |now| == |was| && at + len <= |now|
    && (forall i | at <= i < at + len :: now[i] == disk(offset + i - at) || (!done && now[i] == was[i]))
    && (forall i | 0 <= i < |now| && !(at <= i < at + len) :: now[i] == was[i])
  }

  lemma FetchedOn(was: seq<Byte>, mid: seq<Byte>, now: seq<Byte>, disk: Contents, offset: int, at: nat, n: nat, k: nat,
                  count: nat, done: bool)
    requires n + k <= count && at + count <= |was|
    requires Fetched(was, mid, disk, offset, at, n, true)
    requires Fetched(mid, now, disk, offset + n, at + n, k, done)
    ensures Fetched(was, now, disk, offset, at, n + k, done)
    ensures !done ==> Fetched(was, now, disk, offset, at, count, false)
  {
  }

  /** From was to now, the len bytes of data from at on have been stored at offset: all of them if done,
      else some. */
  ghost predicate Stored(was: Contents, now: Contents, offset: int, data: seq<Byte>, at: nat, len: nat, done: bool) {
    && at + len <= |data|
    && (forall i | offset <= i < offset + len :: now(i) == data[at + i - offset] || (!done && now(i) == was(i)))
    && (forall i | !(offset <= i < offset + len) :: now(i) == was(i))
  }

  /** From was to now, len places from at on have taken the bytes of data from skip on. */
  ghost predicate Copied(was: seq<Byte>, now: seq<Byte>, at: nat, data: seq<Byte>, skip: nat, len: nat) {
    && |now| == |was| && at + len <= |now| && skip + len <= |data|
    && (forall i | 0 <= i < |now| :: now[i] == if at <= i < at + len then data[skip + i - at] else was[i])
  }

  lemma NothingStored(disk: Contents, offset: int, data: seq<Byte>, at: nat, len: nat)
    requires at + len <= |data|
    ensures Stored(disk, disk, offset, data, at, 0, true)
    ensures Stored(disk, disk, offset, data, at, len, false)
  {
  }

  lemma NothingFetched(buf: seq<Byte>, disk: Contents, offset: int, at: nat)
    requires at <= |buf|
    ensures Fetched(buf, buf, disk, offset, at, 0, true)
  {
  }

  lemma StoredOn(was: Contents, mid: Contents, now: Contents, offset: int, data: seq<Byte>, at: nat, n: nat, k: nat,
                 count: nat, done: bool)
    requires n + k <= count && at + count <= |data|
    requires Stored(was, mid, offset, data, at, n, true)
    requires Stored(mid, now, offset + n, data, at + n, k, done)
    ensures Stored(was, now, offset, data, at, n + k, done)
    ensures !done ==> Stored(was, now, offset, data, at, count, false)
  {
  }

  /** Writing back a sector of which some bytes have been changed stores those bytes. */
  lemma StoredPart(was: Contents, now: Contents, start: int, blank: seq<Byte>, read: seq<Byte>, sector: seq<Byte>,
                   skip: nat, data: seq<Byte>, at: nat, len: nat, done: bool)
    requires Fetched(blank, read, was, start, 0, |sector|, true)
    requires Copied(read, sector, skip, data, at, len)
    requires Stored(was, now, start, sector, 0, |sector|, done)
    ensures Stored(was, now, start + skip, data, at, len, done)
  {
    forall i | start + skip <= i < start + skip + len
      ensures now(i) == data[at + i - (start + skip)] || (!done && now(i) == was(i))
    {
      assert sector[i - start] == data[at + i - start - skip];
    }
    forall i | !(start + skip <= i < start + skip + len)
      ensures now(i) == was(i)
    {
      if start <= i < start + |sector| {
        assert read[i - start] == was(start + (i - start) - 0);
        assert sector[i - start] == read[i - start];
      }
    }
  }

  class Device {
    const media: Media
    var disk: Contents
    /** How the next calls into the driver go; the calls after them are done. */
    var fates: seq<Fate>

    /** wr_highest_sector. */
    var wrHighest: int

    constructor (media: Media, disk: Contents, fates: seq<Fate>)
      ensures this.media == media && this.disk == disk && this.fates == fates && wrHighest == 0
    {
      this.media, this.disk, this.fates, wrHighest := media, disk, fates, 0;
    }

    ghost predicate Reliable()
      reads this`fates
    {
      forall f | f in fates :: f.Done?
    }

    method NextFate() returns (f: Fate)
      modifies this`fates
      ensures old(Reliable()) ==> Reliable() && f.Done?
    {
      f := Done;
      if fates != [] {
        f, fates := fates[0], fates[1..];
      }
    }

    /** bdrv_read (block.c:904-915), into buf from position at. */
    method Read(sector: int, buf: array<Byte>, at: nat, nb: nat) returns (ret: int)
      requires at + SECTOR * nb <= buf.Length
      modifies this`fates, buf
      ensures ret <= 0
      ensures ret == 0 ==> Accepts(media, SECTOR * sector, SECTOR * nb)
      ensures old(Reliable()) ==> Reliable() && (ret == 0 <==> Accepts(media, SECTOR * sector, SECTOR * nb))
      ensures Fetched(old(buf[..]), buf[..], disk, SECTOR * sector, at, SECTOR * nb, ret == 0)
    {
      if !media.driver {
        return -ENOMEDIUM;
      }
      var check := CheckByteRequest(media, SECTOR * sector, SECTOR * nb);
      if check != 0 {
        return -EIO;
      }
      var f := NextFate();
      forall i | 0 <= i < SECTOR * nb && (f.Done? || f.torn(i)) {
        buf[at + i] := disk(SECTOR * sector + i);
      }
      return if f.Fails? then Code(f) else 0;
    }

    /** bdrv_write (block.c:951-971), from buf at position at. */
    method Write(sector: int, buf: array<Byte>, at: nat, nb: nat) returns (ret: int)
      requires at + SECTOR * nb <= buf.Length
      modifies this`fates, this`disk, this`wrHighest
      ensures ret <= 0
      ensures ret == 0 ==> Writable(media, SECTOR * sector, SECTOR * nb)
      ensures old(Reliable()) ==> Reliable() && (ret == 0 <==> Writable(media, SECTOR * sector, SECTOR * nb))
      ensures Stored(old(disk), disk, SECTOR * sector, buf[..], at, SECTOR * nb, ret == 0)
      ensures wrHighest == if Writable(media, SECTOR * sector, SECTOR * nb) && old(wrHighest) < sector + nb - 1
                           then sector + nb - 1 else old(wrHighest)
    {
      if !media.driver {
        return -ENOMEDIUM;
      }
      if media.readOnly {
        return -EACCES;
      }
      var check := CheckByteRequest(media, SECTOR * sector, SECTOR * nb);
      if check != 0 {
        return -EIO;
      }
      if wrHighest < sector + nb - 1 {
        wrHighest := sector + nb - 1;
      }
      var f := NextFate();
      var was, start, data := disk, SECTOR * sector, buf[at..at + SECTOR * nb];
      disk := i => if start <= i < start + |data| && (f.Done? || f.torn(i)) then data[i - start] else was(i);
      return if f.Fails? then Code(f) else 0;
    }

    /** Part of one sector, through tmp_buf (block.c:987-990, 1010-1013). */
    method ReadPart(sector: int, skip: nat, buf: array<Byte>, at: nat, len: nat) returns (ret: int)
      requires at + len <= buf.Length && 0 < len && skip + len <= SECTOR
      modifies this`fates, buf
      ensures ret <= 0
      ensures ret == 0 ==> Accepts(media, SECTOR * sector + skip, len)
      ensures old(Reliable()) ==> Reliable() && (ret == 0 <==> Accepts(media, SECTOR * sector + skip, len))
      ensures Fetched(old(buf[..]), buf[..], disk, SECTOR * sector + skip, at, len, ret == 0)
    {
      hide Accepts, Reliable;
      SectorServed(media, sector, skip, len);
      var tmp := SectorBuffer();
      ret := Read(sector, tmp, 0, 1);
      if ret < 0 {
        return ret;
      }
      Copy(buf, at, tmp, skip, len);
    }

    /** Part of one sector read, changed and written back (block.c:1032-1037, 1057-1062). */
    method WritePart(sector: int, skip: nat, buf: array<Byte>, at: nat, len: nat) returns (ret: int)
      requires at + len <= buf.Length && 0 < len && skip + len <= SECTOR
      modifies this`fates, this`disk, this`wrHighest
      ensures ret <= 0
      ensures ret == 0 ==> Writable(media, SECTOR * sector + skip, len)
      ensures old(Reliable()) ==> Reliable() && (ret == 0 <==> Writable(media, SECTOR * sector + skip, len))
      ensures Stored(old(disk), disk, SECTOR * sector + skip, buf[..], at, len, ret == 0)
      ensures wrHighest >= old(wrHighest)
    {
      hide Accepts, Reliable, Stored, Fetched, Copied;
      SectorServed(media, sector, skip, len);
      ghost var was, data := disk, buf[..];
      NothingStored(was, SECTOR * sector + skip, data, at, len);
      var tmp := SectorBuffer();
      ghost var blank := tmp[..];
      ret := Read(sector, tmp, 0, 1);
      if ret < 0 {
        return ret;
      }
      ret := Rewrite(sector, blank, tmp, skip, buf, at, len);
    }

    /** The second half of the above, once the sector has been read. */
    method Rewrite(sector: int, ghost blank: seq<Byte>, tmp: array<Byte>, skip: nat, buf: array<Byte>, at: nat, len: nat)
      returns (ret: int)
      requires at + len <= buf.Length && 0 < len && skip + len <= SECTOR == tmp.Length && tmp != buf
      requires Fetched(blank, tmp[..], disk, SECTOR * sector, 0, SECTOR, true)
      modifies this`fates, this`disk, this`wrHighest, tmp
      ensures ret <= 0
      ensures ret == 0 ==> Writable(media, SECTOR * sector, SECTOR)
      ensures old(Reliable()) ==> Reliable() && (ret == 0 <==> Writable(media, SECTOR * sector, SECTOR))
      ensures Stored(old(disk), disk, SECTOR * sector + skip, buf[..], at, len, ret == 0)
      ensures wrHighest >= old(wrHighest)
    {
      hide Accepts, Writable, Reliable, Stored, Fetched, Copied;
      ghost var was, before := disk, tmp[..];
      Copy(tmp, skip, buf, at, len);
      ret := Write(sector, tmp, 0, 1);
      StoredPart(was, disk, SECTOR * sector, blank, before, tmp[..], skip, buf[..], at, len, ret == 0);
    }

    /** What follows the first partial sector: whole sectors and the last one (block.c:998-1014). */
    method ReadOn(sector0: int, buf: array<Byte>, at0: nat, count0: int) returns (ret: int)
      requires 0 <= count0 && at0 + count0 <= buf.Length
      modifies this`fates, buf
      ensures ret <= 0
      ensures Fetched(old(buf[..]), buf[..], disk, SECTOR * sector0, at0, count0, ret == 0)
      ensures ret == 0 && count0 > 0 ==> Accepts(media, SECTOR * sector0, count0)
      ensures old(Reliable()) ==> Reliable() && (Accepts(media, SECTOR * sector0, count0) ==> ret == 0)
    {
      hide Accepts, Reliable, Fetched;
      ghost var start, done := SECTOR * sector0, 0;
      ghost var was := buf[..];
      NothingFetched(was, disk, start, at0);
      var sector, at, count := sector0, at0, count0;
      var nb := count / SECTOR;
      if nb > 0 {
        var len := SECTOR * nb;
        PieceServed(media, start, 0, len, count0);
        ret := Read(sector, buf, at, nb);
        FetchedOn(was, was, buf[..], disk, start, at0, 0, len, count0, ret == 0);
        if ret < 0 {
          return;
        }
        sector := sector + nb;
        at := at + len;
        count := count - len;
        done := len;
      }
      assert SECTOR * sector == start + done && at == at0 + done && count == count0 - done;
      ret := 0;
      if count > 0 {
        ghost var mid := buf[..];
        PieceServed(media, start, done, count, count0);
        ret := ReadPart(sector, 0, buf, at, count);
        FetchedOn(was, mid, buf[..], disk, start, at0, done, count, count0, ret == 0);
      }
    }

    /** bdrv_pread (block.c:973-1016). */
    method Pread(offset: int, buf: array<Byte>, count1: int) returns (ret: int)
      requires count1 <= buf.Length
      modifies this`fates, buf
      ensures ret == count1 || ret < 0
      ensures count1 <= 0 ==> ret == count1 && buf[..] == old(buf[..])
      ensures count1 > 0 ==> Fetched(old(buf[..]), buf[..], disk, offset, 0, count1, ret == count1)
      ensures ret == count1 && count1 > 0 ==> Accepts(media, offset, count1)
      ensures old(Reliable()) ==> Reliable() && (count1 > 0 && Accepts(media, offset, count1) ==> ret == count1)
    {
      hide Accepts, Reliable, Fetched, Lead;
      ghost var was := buf[..];
      NothingFetched(was, disk, offset, 0);
      var count := count1;
      var len: int := Lead(offset);
      if len > count {
        len := count;
      }
      var sector := offset / SECTOR;
      var at := 0;
      if len > 0 {
        PieceServed(media, offset, 0, len, count1);
        ret := ReadPart(sector, offset % SECTOR, buf, 0, len);
        FetchedOn(was, was, buf[..], disk, offset, 0, 0, len, count1, ret == 0);
        if ret < 0 {
          return;
        }
        count := count - len;
        if count == 0 {
          return count1;
        }
        sector := sector + 1;
        at := len;
      }
      if count > 0 {
        ghost var mid := buf[..];
        assert SECTOR * sector == offset + at;
        PieceServed(media, offset, at, count, count1);
        ret := ReadOn(sector, buf, at, count);
        FetchedOn(was, mid, buf[..], disk, offset, 0, at, count, count1, ret == 0);
        if ret < 0 {
          return;
        }
      }
      return count1;
    }

    /** What follows the first partial sector: whole sectors and the last one (block.c:1045-1063). */
    method WriteOn(sector0: int, buf: array<Byte>, at0: nat, count0: int) returns (ret: int)
      requires 0 <= count0 && at0 + count0 <= buf.Length
      modifies this`fates, this`disk, this`wrHighest
      ensures ret <= 0
      ensures Stored(old(disk), disk, SECTOR * sector0, buf[..], at0, count0, ret == 0)
      ensures ret == 0 && count0 > 0 ==> Writable(media, SECTOR * sector0, count0)
      ensures old(Reliable()) ==> Reliable() && (Writable(media, SECTOR * sector0, count0) ==> ret == 0)
      ensures wrHighest >= old(wrHighest)
    {
      hide Writable, Reliable, Stored;
      ghost var start, done := SECTOR * sector0, 0;
      ghost var was, data := disk, buf[..];
      NothingStored(was, start, data, at0, count0);
      var sector, at, count := sector0, at0, count0;
      var nb := count / SECTOR;
      if nb > 0 {
        var len := SECTOR * nb;
        PieceWritable(media, start, 0, len, count0);
        ret := Write(sector, buf, at, nb);
        StoredOn(was, was, disk, start, data, at0, 0, len, count0, ret == 0);
        if ret < 0 {
          return;
        }
        sector := sector + nb;
        at := at + len;
        count := count - len;
        done := len;
      }
      assert SECTOR * sector == start + done && at == at0 + done && count == count0 - done;
      ret := 0;
      if count > 0 {
        ghost var mid := disk;
        PieceWritable(media, start, done, count, count0);
        ret := WritePart(sector, 0, buf, at, count);
        StoredOn(was, mid, disk, start, data, at0, done, count, count0, ret == 0);
      }
    }

    /** bdrv_pwrite (block.c:1018-1065). */
    method Pwrite(offset: int, buf: array<Byte>, count1: int) returns (ret: int)
      requires count1 <= buf.Length
      modifies this`fates, this`disk, this`wrHighest
      ensures ret == count1 || ret < 0
      ensures count1 <= 0 ==> ret == count1 && disk == old(disk)
      ensures count1 > 0 ==> Stored(old(disk), disk, offset, buf[..], 0, count1, ret == count1)
      ensures ret == count1 && count1 > 0 ==> Writable(media, offset, count1)
      ensures old(Reliable()) ==> Reliable() && (count1 > 0 && Writable(media, offset, count1) ==> ret == count1)
      ensures wrHighest >= old(wrHighest)
    {
      hide Writable, Reliable, Stored, Lead;
      ghost var was, data := disk, buf[..];
      NothingStored(was, offset, data, 0, 0);
      var count := count1;
      var len: int := Lead(offset);
      if len > count {
        len := count;
      }
      var sector := offset / SECTOR;
      var at := 0;
      if len > 0 {
        PieceWritable(media, offset, 0, len, count1);
        ret := WritePart(sector, offset % SECTOR, buf, 0, len);
        StoredOn(was, was, disk, offset, data, 0, 0, len, count1, ret == 0);
        if ret < 0 {
          return;
        }
        count := count - len;
        if count == 0 {
            return count1;
        }
        sector := sector + 1;
        at := len;
      }
      if count > 0 {
        ghost var mid := disk;
        assert SECTOR * sector == offset + at;
        PieceWritable(media, offset, at, count, count1);
        ret := WriteOn(sector, buf, at, count);
        StoredOn(was, mid, disk, offset, data, 0, at, count, count1, ret == 0);
        if ret < 0 {
          return;
        }
      }
      return count1;
    }
  }

  method SectorBuffer() returns (tmp: array<Byte>)
    ensures fresh(tmp) && tmp.Length == SECTOR
  {
    tmp := new Byte[SECTOR];
  }

  /** memcpy. */
  method Copy(to: array<Byte>, at: nat, from: array<Byte>, skip: nat, len: nat)
    requires at + len <= to.Length && skip + len <= from.Length && to != from
    modifies to
    ensures Copied(old(to[..]), to[..], at, from[..], skip, len)
  {
    forall i | 0 <= i < len {
      to[at + i] := from[skip + i];
    }
  }

  // ----- whole runs against a flat array of bytes -----

  datatype Op = PutBytes(offset: int, data: seq<Byte>) | GetBytes(offset: int, count: nat)

  function FlatPut(disk: Contents, offset: int, data: seq<Byte>): Contents {
    i => if offset <= i < offset + |data| then data[i - offset] else disk(i)
  }

  function FlatGet(disk: Contents, offset: int, count: nat): (r: seq<Byte>)
    ensures |r| == count && forall i | 0 <= i < count :: r[i] == disk(offset + i)
  {
    seq(count, i requires 0 <= i => disk(offset + i))
  }

  function Final(disk: Contents, ops: seq<Op>): Contents {
    if ops == [] then disk
    else
      var before, op := Final(disk, ops[..|ops| - 1]), ops[|ops| - 1];
      if op.PutBytes? then FlatPut(before, op.offset, op.data) else before
  }

  function Replies(disk: Contents, ops: seq<Op>): (r: seq<seq<Byte>>) {
    if ops == [] then []
    else
      var before, op := ops[..|ops| - 1], ops[|ops| - 1];
      if op.GetBytes? then Replies(disk, before) + [FlatGet(Final(disk, before), op.offset, op.count)]
      else Replies(disk, before)
  }

  predicate Served(m: Media, op: Op) {
    match op
    case PutBytes(offset, data) => data == [] || Writable(m, offset, |data|)
    case GetBytes(offset, count) => count == 0 || Accepts(m, offset, count)
  }

  /** The last reply after writing and reading back is what was written, whatever came before. */
  lemma ReadsBack(disk: Contents, ops: seq<Op>, offset: int, data: seq<Byte>)
    ensures Replies(disk, ops + [PutBytes(offset, data), GetBytes(offset, |data|)]) == Replies(disk, ops) + [data]
  {
    hide FlatGet, FlatPut;
    var put, get := PutBytes(offset, data), GetBytes(offset, |data|);
    assert (ops + [put, get])[..|ops| + 1] == ops + [put];
    assert (ops + [put])[..|ops|] == ops;
    PutGet(Final(disk, ops), offset, data);
  }

  lemma PutGet(disk: Contents, offset: int, data: seq<Byte>)
    ensures FlatGet(FlatPut(disk, offset, data), offset, |data|) == data
  {
  }

  method PutAll(dev: Device, offset: int, data: seq<Byte>)
    requires dev.Reliable() && Served(dev.media, PutBytes(offset, data))
    modifies dev
    ensures dev.Reliable()
    ensures forall i :: dev.disk(i) == FlatPut(old(dev.disk), offset, data)(i)
  {
    var buf := new Byte[|data|](i requires 0 <= i < |data| => data[i]);
    var ret := dev.Pwrite(offset, buf, |data|);
    hide Accepts;
    assert buf[..] == data;
  }

  method GetAll(dev: Device, offset: int, count: nat) returns (data: seq<Byte>)
    requires dev.Reliable() && Served(dev.media, GetBytes(offset, count))
    modifies dev
    ensures dev.Reliable() && dev.disk == old(dev.disk)
    ensures data == FlatGet(dev.disk, offset, count)
  {
    hide Accepts;
    var buf := new Byte[count];
    var ret := dev.Pread(offset, buf, count);
    data := buf[..];
  }

  /** Any run of byte requests that a device serves behaves as on a flat array. */
  method Serve(dev: Device, ops: seq<Op>) returns (replies: seq<seq<Byte>>)
    requires dev.Reliable() && forall op | op in ops :: Served(dev.media, op)
    modifies dev
    ensures forall i :: dev.disk(i) == Final(old(dev.disk), ops)(i)
    ensures replies == Replies(old(dev.disk), ops)
  {
    hide Served, FlatPut, FlatGet;
    ghost var disk := dev.disk;
    replies := [];
    for k := 0 to |ops|
      invariant dev.Reliable()
      invariant forall i :: dev.disk(i) == Final(disk, ops[..k])(i)
      invariant replies == Replies(disk, ops[..k])
    {
      ghost var before := dev.disk;
      assert ops[k] in ops;
      assert ops[..k + 1][..k] == ops[..k];
      match ops[k]
      case PutBytes(offset, data) =>
        PutAll(dev, offset, data);
        SamePut(before, Final(disk, ops[..k]), offset, data);
      case GetBytes(offset, count) =>
        var data := GetAll(dev, offset, count);
        SameGet(before, Final(disk, ops[..k]), offset, count);
        replies := replies + [data];
    }
    assert ops[..|ops|] == ops;
  }

  lemma SamePut(f: Contents, g: Contents, offset: int, data: seq<Byte>)
    requires forall i :: f(i) == g(i)
    ensures forall i :: FlatPut(f, offset, data)(i) == FlatPut(g, offset, data)(i)
  {
  }

  lemma SameGet(f: Contents, g: Contents, offset: int, count: nat)
    requires forall i :: f(i) == g(i)
    ensures FlatGet(f, offset, count) == FlatGet(g, offset, count)
  {
  }
}
