/** Scatter-gather lists (qemu/cutils.c:134-256). */
module IoVectors {
  import opened Octets
  import opened Numbers

  /** A struct iovec: len bytes of memory from address base. */
  datatype Seg = Seg(base: nat, len: nat)

  function Range(base: nat, len: nat): (r: seq<nat>)
    ensures |r| == len && forall i | 0 <= i < len :: r[i] == base + i
  {
    seq(len, i requires 0 <= i => base + i)
  }

  /** The addresses a vector covers, in order. */
  function Addrs(iov: seq<Seg>): seq<nat> {
    if iov == [] then [] else Range(iov[0].base, iov[0].len) + Addrs(iov[1..])
  }

  lemma AddrsCons(x: Seg, iov: seq<Seg>)
    ensures Addrs([x] + iov) == Range(x.base, x.len) + Addrs(iov)
  {
    hide Range;
    assert ([x] + iov)[1..] == iov;
  }

  lemma AddrsOne(x: Seg)
    ensures Addrs([x]) == Range(x.base, x.len)
  {
    hide Range;
    AddrsCons(x, []);
    assert [x] + [] == [x];
  }

  lemma {:induction false} AddrsAppend(a: seq<Seg>, b: seq<Seg>)
    ensures Addrs(a + b) == Addrs(a) + Addrs(b)
  {
    hide Range, Addrs;
    if a == [] {
      AddrsEmpty();
      assert a + b == b;
    } else {
      var r := Range(a[0].base, a[0].len);
      AddrsAppend(a[1..], b);
      assert a + b == [a[0]] + (a[1..] + b) && a == [a[0]] + a[1..];
      AddrsCons(a[0], a[1..] + b);
      AddrsCons(a[0], a[1..]);
      assert r + (Addrs(a[1..]) + Addrs(b)) == (r + Addrs(a[1..])) + Addrs(b);
    }
  }

  lemma AddrsGrow(iov: seq<Seg>, i: nat)
    requires i < |iov|
    ensures Addrs(iov[..i + 1]) == Addrs(iov[..i]) + Range(iov[i].base, iov[i].len)
  {
    hide *;
    AddrsAppend(iov[..i], [iov[i]]);
    AddrsOne(iov[i]);
    assert iov[..i] + [iov[i]] == iov[..i + 1];
  }

  lemma AddrsSplit(iov: seq<Seg>, i: nat)
    requires i <= |iov|
    ensures Addrs(iov) == Addrs(iov[..i]) + Addrs(iov[i..])
  {
    hide *;
    AddrsAppend(iov[..i], iov[i..]);
    assert iov[..i] + iov[i..] == iov;
  }

  /** The segments qemu_iovec_copy appends: past skip bytes of src, up to size bytes. */
  function CopySegs(src: seq<Seg>, skip: nat, size: nat): seq<Seg>
    decreases |src|
  {
    if src == [] || size == 0 then []
    else if skip >= src[0].len then CopySegs(src[1..], skip - src[0].len, size)
    else
      var base, len := src[0].base + skip, src[0].len - skip;
      if len > size then [Seg(base, size)]
      else [Seg(base, len)] + CopySegs(src[1..], 0, size - len)
  }

  /** The part of s from position skip of at most size elements. */
  function Window(s: seq<nat>, skip: nat, size: nat): seq<nat> {
    s[Min(skip, |s|)..Min(skip + size, |s|)]
  }

  lemma WindowCons(r: seq<nat>, s: seq<nat>, skip: nat, size: nat)
    ensures skip >= |r| ==> Window(r + s, skip, size) == Window(s, skip - |r|, size)
    ensures skip < |r| && |r| - skip <= size ==>
              Window(r + s, skip, size) == r[skip..] + Window(s, 0, size - (|r| - skip))
    ensures skip < |r| && |r| - skip > size ==> Window(r + s, skip, size) == r[skip..skip + size]
  {
  }

  lemma WindowNone(s: seq<nat>, skip: nat)
    ensures Window(s, skip, 0) == []
    ensures s == [] ==> forall size :: Window(s, skip, size) == []
  {
  }

  lemma RangePart(base: nat, len: nat, skip: nat, size: nat)
    requires skip + size <= len
    ensures Range(base + skip, size) == Range(base, len)[skip..skip + size]
  {
  }

  /** qemu_iovec_copy takes exactly the bytes [skip, min(skip + size, total)). */
  lemma {:induction false} CopyExact(src: seq<Seg>, skip: nat, size: nat)
    ensures Addrs(CopySegs(src, skip, size)) == Window(Addrs(src), skip, size)
    decreases |src|
  {
    hide Range, Window;
    if src == [] || size == 0 {
      WindowNone(Addrs(src), skip);
    } else {
      var r := Range(src[0].base, src[0].len);
      WindowCons(r, Addrs(src[1..]), skip, size);
      if skip >= src[0].len {
        CopyExact(src[1..], skip - src[0].len, size);
      } else {
        var base, len := src[0].base + skip, src[0].len - skip;
        if len > size {
          AddrsOne(Seg(base, size));
          RangePart(src[0].base, src[0].len, skip, size);
        } else {
          CopyExact(src[1..], 0, size - len);
          RangePart(src[0].base, src[0].len, skip, len);
          assert r[skip..skip + len] == r[skip..];
          AddrsCons(Seg(base, len), CopySegs(src[1..], 0, size - len));
        }
      }
    }
  }

  // ----- contents -----

  function Read(mem: nat -> Byte, addrs: seq<nat>): (r: seq<Byte>)
    ensures |r| == |addrs| && forall i | 0 <= i < |addrs| :: r[i] == mem(addrs[i])
  {
    seq(|addrs|, i requires 0 <= i < |addrs| => mem(addrs[i]))
  }

  predicate InBounds(mem: seq<Byte>, addrs: seq<nat>) {
    forall i | 0 <= i < |addrs| :: addrs[i] < |mem|
  }

  function Gather(mem: seq<Byte>, addrs: seq<nat>): (r: seq<Byte>)
    requires InBounds(mem, addrs)
    ensures |r| == |addrs| && forall i | 0 <= i < |addrs| :: r[i] == mem[addrs[i]]
  {
    seq(|addrs|, i requires 0 <= i < |addrs| => mem[addrs[i]])
  }

  /** Memory after the bytes of data have been stored, in order, at the first |data| addresses. */
  function Scatter(mem: seq<Byte>, addrs: seq<nat>, data: seq<Byte>): (r: seq<Byte>)
    requires InBounds(mem, addrs) && |data| <= |addrs|
    ensures |r| == |mem|
    decreases |data|
  {
    if data == [] then mem
    else
      var n := |data| - 1;
      Scatter(mem, addrs, data[..n])[addrs[n] := data[n]]
  }

  ghost predicate Disjoint(addrs: seq<nat>) {
    forall i, j | 0 <= i < j < |addrs| :: addrs[i] != addrs[j]
  }

  lemma {:induction false} ScatterAt(mem: seq<Byte>, addrs: seq<nat>, data: seq<Byte>, a: nat)
    requires InBounds(mem, addrs) && |data| <= |addrs| && Disjoint(addrs) && a < |mem|
    ensures forall i | 0 <= i < |data| :: addrs[i] == a ==> Scatter(mem, addrs, data)[a] == data[i]
    ensures (forall i | 0 <= i < |data| :: addrs[i] != a) ==> Scatter(mem, addrs, data)[a] == mem[a]
    decreases |data|
  {
    if data != [] {
      ScatterAt(mem, addrs, data[..|data| - 1], a);
    }
  }

  /** qemu_iovec_from_buffer then qemu_iovec_to_buffer, over segments that do not overlap, gives
      the bytes back and leaves the rest of memory alone. */
  lemma BufferRoundTrip(mem: seq<Byte>, iov: seq<Seg>, data: seq<Byte>)
    requires InBounds(mem, Addrs(iov)) && Disjoint(Addrs(iov)) && |data| == |Addrs(iov)|
    ensures var mem' := Scatter(mem, Addrs(iov), data);
      && Gather(mem', Addrs(iov)) == data
      && forall a: nat | a < |mem| && a !in Addrs(iov) :: mem'[a] == mem[a]
  {
    hide Addrs, Scatter;
    var addrs := Addrs(iov);
    forall a: nat | a < |mem|
      ensures forall i | 0 <= i < |data| :: addrs[i] == a ==> Scatter(mem, addrs, data)[a] == data[i]
      ensures a !in addrs ==> Scatter(mem, addrs, data)[a] == mem[a]
    {
      ScatterAt(mem, addrs, data, a);
    }
  }

  // ----- the functions as they run -----

  class IoVector {
    var iov: seq<Seg>
    var nalloc: nat
    var size: nat

    ghost predicate Ok()
      reads this
    {
      |iov| <= nalloc && size == |Addrs(iov)|
    }

    constructor (allocHint: nat)
      ensures Ok() && iov == [] && nalloc == allocHint
    {
      iov, nalloc, size := [], allocHint, 0;
    }

    /** qemu_iovec_add. */
    method Add(base: nat, len: nat)
      requires Ok()
      modifies this
      ensures Ok() && iov == old(iov) + [Seg(base, len)]
    {
      if |iov| == nalloc {
        nalloc := 2 * nalloc + 1;
      }
      AddrsAppend(iov, [Seg(base, len)]);
      AddrsOne(Seg(base, len));
      iov := iov + [Seg(base, len)];
      size := size + len;
    }

    /** qemu_iovec_copy, src being the iov array of the source vector. */
    method Copy(src: seq<Seg>, skip: nat, size: nat)
      requires Ok()
      modifies this
      ensures Ok() && iov == old(iov) + CopySegs(src, skip, size)
    {
      var done := 0;
      var toSkip := skip;
      var i := 0;
      ghost var all := CopySegs(src, skip, size);
      while i < |src| && done != size
        invariant 0 <= i <= |src| && 0 <= done <= size && 0 <= toSkip
        invariant Ok() && iov + CopySegs(src[i..], toSkip, size - done) == old(iov) + all
      {
        var seg := src[i];
        ghost var rest := src[i..];
        assert rest[0] == seg && rest[1..] == src[i + 1..];
        i := i + 1;
        if toSkip >= seg.len {
          toSkip := toSkip - seg.len;
          continue;
        }
        var base, len := seg.base + toSkip, seg.len - toSkip;
        toSkip := 0;
        if done + len > size {
          Add(base, size - done);
          return;
        }
        Add(base, len);
        done := done + len;
      }
    }

    /** qemu_iovec_concat. */
    method Concat(src: seq<Seg>, size: nat)
      requires Ok()
      modifies this
      ensures Ok() && iov == old(iov) + CopySegs(src, 0, size)
    {
      Copy(src, 0, size);
    }

    /** qemu_iovec_to_buffer, reading from mem. */
    method ToBuffer(mem: seq<Byte>) returns (buf: seq<Byte>)
      requires InBounds(mem, Addrs(iov))
      ensures buf == Gather(mem, Addrs(iov))
    {
      hide Addrs, Range, InBounds;
      AddrsEmpty();
      buf := [];
      var i := 0;
      while i < |iov|
        invariant 0 <= i <= |iov|
        invariant InBounds(mem, Addrs(iov[..i])) && buf == Gather(mem, Addrs(iov[..i]))
      {
        AddrsGrow(iov, i);
        AddrsSplit(iov, i + 1);
        InBoundsPrefix(mem, Addrs(iov[..i + 1]), Addrs(iov[i + 1..]));
        InBoundsPrefix(mem, Addrs(iov[..i]), Range(iov[i].base, iov[i].len));
        var part := Gather(mem, Range(iov[i].base, iov[i].len));
        buf := buf + part;
        i := i + 1;
      }
      assert iov[..i] == iov;
    }

    /** qemu_iovec_from_buffer, storing into mem. */
    method FromBuffer(mem: array<Byte>, buf: seq<Byte>, count: nat)
      requires Ok() && InBounds(mem[..], Addrs(iov)) && count <= |buf|
      modifies mem
      ensures mem[..] == Scatter(old(mem[..]), Addrs(iov), buf[..Min(count, size)])
    {
      hide Addrs, Range, InBounds, Scatter;
      AddrsEmpty();
      ghost var before := mem[..];
      ghost var addrs := Addrs(iov);
      ScatterNone(before, addrs);
      var p, left := 0, count;
      var i := 0;
      while i < |iov| && left > 0
        invariant 0 <= i <= |iov| && 0 <= p && 0 <= left && p + left == count
        invariant p <= size && (left > 0 ==> p == |Addrs(iov[..i])|)
        invariant mem[..] == Scatter(before, addrs, buf[..p])
      {
        AddrsGrow(iov, i);
        AddrsSplit(iov, i + 1);
        var copy := Min(left, iov[i].len);
        assert buf[..p + copy][..p] == buf[..p];
        StoreRun(mem, iov[i].base, buf[p..p + copy], before, addrs, p, buf[..p + copy], Addrs(iov[..i]), iov[i].len,
                 Addrs(iov[i + 1..]));
        p, left := p + copy, left - copy;
        i := i + 1;
      }
      if left > 0 {
        assert iov[..i] == iov;
      }
    }
  }

  lemma AddrsEmpty()
    ensures Addrs([]) == []
    ensures forall mem :: InBounds(mem, [])
  {
  }

  lemma ScatterNone(mem: seq<Byte>, addrs: seq<nat>)
    requires InBounds(mem, addrs)
    ensures Scatter(mem, addrs, []) == mem
  {
  }

  /** The memcpy of one segment, extending what has been stored from p bytes to |data|. */
  method StoreRun(mem: array<Byte>, base: nat, part: seq<Byte>, ghost before: seq<Byte>, ghost addrs: seq<nat>,
                  ghost p: nat, ghost data: seq<Byte>, ghost head: seq<nat>, ghost len: nat, ghost tail: seq<nat>)
    requires InBounds(before, addrs) && addrs == head + Range(base, len) + tail
    requires p == |head| && |part| <= len && |data| == p + |part| && data[p..] == part
    requires mem[..] == Scatter(before, addrs, data[..p])
    modifies mem
    ensures mem[..] == Scatter(before, addrs, data)
  {
    var k := 0;
    assert data[..p + 0] == data[..p];
    while k < |part|
      invariant 0 <= k <= |part|
      invariant mem[..] == Scatter(before, addrs, data[..p + k])
    {
      assert addrs[p + k] == base + k && data[p + k] == part[k];
      assert data[..p + k + 1][..p + k] == data[..p + k];
      mem[base + k] := part[k];
      k := k + 1;
    }
    assert data[..p + k] == data;
  }

  lemma InBoundsPrefix(mem: seq<Byte>, a: seq<nat>, b: seq<nat>)
    requires InBounds(mem, a + b)
    ensures InBounds(mem, a) && InBounds(mem, b)
  {
    assert forall i | 0 <= i < |a| :: (a + b)[i] == a[i];
    assert forall i | 0 <= i < |b| :: (a + b)[|a| + i] == b[i];
  }
}
