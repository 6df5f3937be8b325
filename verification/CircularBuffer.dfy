/** Circular byte buffers (qemu/cbuffer.h and qemu/cbuffer.c). */
module CircularBuffer {
  import opened Octets
  import opened Numbers

  function Rotated(b: seq<Byte>, r: nat): (s: seq<Byte>)
    requires r <= |b|
    ensures |s| == |b|
    ensures forall i | 0 <= i < |b| :: s[i] == b[if r + i < |b| then r + i else r + i - |b|]
  {
    b[r..] + b[..r]
  }

  /** Reading n of the first c bytes. */
  lemma RotatedOn(b: seq<Byte>, r: nat, c: nat, n: nat, q: nat)
    requires r <= |b| && n <= c <= |b| && q == (if r + n >= |b| then r + n - |b| else r + n)
    ensures Rotated(b, q)[..c - n] == Rotated(b, r)[..c][n..]
  {
    hide Rotated;
    var x, y := Rotated(b, q), Rotated(b, r);
    forall i | 0 <= i < c - n
      ensures x[..c - n][i] == y[..c][n..][i]
    {
      assert y[..c][n..][i] == y[n + i];
    }
  }

  /** Places that lie together in memory do so in the ring. */
  lemma RotatedSlice(b: seq<Byte>, r: nat, c: nat, base: nat, n: nat)
    requires r <= |b| && c + n <= |b| && base + n <= |b| && base == (if r + c >= |b| then r + c - |b| else r + c)
    ensures b[base..base + n] == Rotated(b, r)[c..][..n]
  {
    hide Rotated;
    var y := Rotated(b, r);
    forall i | 0 <= i < n
      ensures b[base..base + n][i] == y[c..][..n][i]
    {
      assert y[c..][..n][i] == y[c + i];
    }
  }

  class CBuffer {
    const buff: array<Byte>
    var rpos: nat
    var count: nat

    ghost predicate Valid()
      reads this
    {
      count <= buff.Length && (rpos < buff.Length || rpos == 0)
    }

    /** All places of the buffer, from the reading position round. */
    ghost function Ring(): (r: seq<Byte>)
      requires Valid()
      reads this, buff
      ensures |r| == buff.Length
    {
      Rotated(buff[..], rpos)
    }

    ghost function Contents(): (r: seq<Byte>)
      requires Valid()
      reads this, buff
      ensures |r| == count
    {
      Ring()[..count]
    }

    /** The places not in use, in the order in which writing will take them. */
    ghost function Free(): (r: seq<Byte>)
      requires Valid()
      reads this, buff
      ensures |r| == buff.Length - count
    {
      Ring()[count..]
    }

    constructor (size: nat)
      ensures Valid() && fresh(buff) && buff.Length == size && count == 0
    {
      buff := new Byte[size];
      rpos, count := 0, 0;
    }

    /** cbuffer_reset on the same memory (cbuffer.h). */
    method Reset()
      modifies this
      ensures Valid() && Contents() == []
    {
      rpos, count := 0, 0;
    }

    function WritePosition(): (wpos: nat)
      requires Valid()
      reads this
      ensures wpos < buff.Length || wpos == 0
    {
      var wpos := rpos + count;
      if wpos >= buff.Length then wpos - buff.Length else wpos
    }

    /** cbuffer_write_peek (cbuffer.c:51-67): where the first free places are, and how many lie together. */
    method WritePeek() returns (base: nat, avail: nat)
      requires Valid()
      ensures base + avail <= buff.Length
      ensures avail == 0 <==> count == buff.Length
      ensures avail <= |Free()| && buff[base..base + avail] == Free()[..avail]
    {
      var wpos := rpos + count;
      avail := buff.Length - count;
      if wpos >= buff.Length {
        wpos := wpos - buff.Length;
      }
      if wpos + avail > buff.Length {
        avail := buff.Length - wpos;
      }
      base := wpos;
      RotatedSlice(buff[..], rpos, count, base, avail);
      hide Rotated;
      assert buff[base..base + avail] == buff[..][base..base + avail];
    }

    /** cbuffer_write_step (cbuffer.c:69-77): places that hold data already are put in use. */
    method WriteStep(len: nat)
      requires Valid()
      modifies this`count
      ensures Valid()
      ensures Contents() == old(Contents() + Free()[..Min(len, |Free()|)])
    {
      count := count + len;
      if count > buff.Length {
        count := buff.Length;
      }
    }

    /** One turn of the loop of cbuffer_write: memcpy into places that lie together. */
    method Fill(from: seq<Byte>, skip: nat, n: nat)
      requires Valid() && skip + n <= |from| && count + n <= buff.Length
      requires WritePosition() + n <= buff.Length
      modifies this`count, buff
      ensures Valid() && count == old(count) + n
      ensures Contents() == old(Contents()) + from[skip..skip + n]
    {
      var wpos := WritePosition();
      forall i | 0 <= i < n {
        buff[wpos + i] := from[skip + i];
      }
      count := count + n;
    }

    /** cbuffer_write (cbuffer.c:80-114). */
    method Write(from: seq<Byte>, len: int) returns (done: nat)
      requires Valid() && len <= |from|
      modifies this`count, buff
      ensures Valid()
      ensures done == if len <= 0 then 0 else Min(len, old(buff.Length - count))
      ensures Contents() == old(Contents()) + from[..done]
    {
      hide Contents, Ring, Rotated, Free;
      ghost var before := Contents();
      var len2 := len;
      done := 0;
      while len2 > 0
        invariant Valid() && done <= |from|
        invariant len2 == len - done && (done == 0 || len2 >= 0)
        invariant count == old(count) + done
        invariant Contents() == before + from[..done]
        decreases len2
      {
        var avail := buff.Length - count;
        if avail == 0 {
          break;
        }
        var wpos := rpos + count;
        if wpos >= buff.Length {
          wpos := wpos - buff.Length;
        }
        if wpos + avail > buff.Length {
          avail := buff.Length - wpos;
        }
        if avail > len2 {
          avail := len2;
        }
        Fill(from, done, avail);
        assert from[..done] + from[done..done + avail] == from[..done + avail];
        len2 := len2 - avail;
        done := done + avail;
      }
    }

    /** How many of the first bytes lie together in memory. */
    ghost function Ahead(): nat
      requires Valid()
      reads this
    {
      if rpos + count > buff.Length then buff.Length - rpos else count
    }

    /** cbuffer_read_peek (cbuffer.c:151-164): where the first bytes are, and how many lie together. */
    method ReadPeek() returns (base: nat, avail: nat)
      requires Valid()
      ensures base + avail <= buff.Length
      ensures avail == Ahead() && (avail == 0 <==> count == 0)
      ensures avail <= |Contents()| && buff[base..base + avail] == Contents()[..avail]
    {
      base, avail := rpos, count;
      if base + avail > buff.Length {
        avail := buff.Length - base;
      }
    }

    /** cbuffer_read_step (cbuffer.c:167-180). */
    method ReadStep(len: nat)
      requires Valid()
      modifies this`rpos, this`count
      ensures Valid()
      ensures Contents() == old(Contents()[Min(len, count)..])
    {
      hide Rotated;
      var len := if len > count then count else len;
      ghost var size := buff.Length;
      RotatedOn(buff[..], rpos, count, len, if rpos + len >= size then rpos + len - size else rpos + len);
      rpos := rpos + len;
      if rpos >= buff.Length {
        rpos := rpos - buff.Length;
      }
      count := count - len;
    }

    /** How many of the next bytes, up to len, one memcpy can take. */
    function Together(len: nat): (avail: nat)
      requires Valid() && count > 0 && len > 0
      reads this
      ensures 0 < avail <= count && avail <= len && rpos + avail <= buff.Length
    {
      Min(if rpos + count > buff.Length then buff.Length - rpos else count, len)
    }

    /** memcpy from places that lie together. */
    method CopyOut(to: array<Byte>, at: nat, n: nat)
      requires Valid() && at + n <= to.Length && to != buff && n <= count && rpos + n <= buff.Length
      modifies to
      ensures Placed(old(to[..]), to[..], at, Contents()[..n])
      ensures Contents() == old(Contents())
    {
      forall i | 0 <= i < n {
        to[at + i] := buff[rpos + i];
      }
    }

    /** One turn of the loop of cbuffer_read, with done bytes of all read before. */
    method ReadTurn(to: array<Byte>, done: nat, len: nat, ghost all: seq<Byte>, ghost was: seq<Byte>) returns (n: nat)
      requires Valid() && to != buff && count > 0 && 0 < len && done + len <= to.Length
      requires Taken(all, was, to[..], done) && Left(all, Contents(), done)
      modifies this`rpos, this`count, to
      ensures Valid() && 0 < n <= len && n <= old(count) && count == old(count) - n
      ensures Taken(all, was, to[..], done + n) && Left(all, Contents(), done + n)
    {
      hide Contents, Ring, Rotated, Placed, Left, Free, Together;
      n := Together(len);
      ghost var mid, rest := to[..], Contents();
      CopyOut(to, done, n);
      ReadStep(n);
      TakenOn(all, was, mid, to[..], rest, done, n);
    }

    /** cbuffer_read (cbuffer.c:116-149). */
    method Read(to: array<Byte>, len: int) returns (done: nat)
      requires Valid() && len <= to.Length && to != buff
      modifies this`rpos, this`count, to
      ensures Valid()
      ensures done == if len <= 0 then 0 else Min(len, old(count))
      ensures Taken(old(Contents()), old(to[..]), to[..], done)
      ensures Left(old(Contents()), Contents(), done)
    {
      ghost var all, was := Contents(), to[..];
      assert Taken(all, was, to[..], 0) && Left(all, all, 0);
      hide Contents, Ring, Rotated, Taken, Placed, Left, Free, Together;
      var len2 := len;
      done := 0;
      while len2 > 0
        invariant Valid() && done <= |all| && done <= |was|
        invariant len2 == len - done && (done == 0 || len2 >= 0)
        invariant count == old(count) - done
        invariant Taken(all, was, to[..], done)
        invariant Left(all, Contents(), done)
        decreases len2
      {
        if count == 0 {
          break;
        }
        var n := ReadTurn(to, done, len2, all, was);
        len2 := len2 - n;
        done := done + n;
      }
    }
  }

  /** The first bytes of all, as many as are done, have taken the places of those of was. */
  ghost predicate Taken(all: seq<Byte>, was: seq<Byte>, now: seq<Byte>, done: nat) {
    done <= |all| && done <= |was| && now == all[..done] + was[done..]
  }

  ghost predicate Placed(was: seq<Byte>, now: seq<Byte>, at: nat, chunk: seq<Byte>) {
    at + |chunk| <= |was| && now == was[..at] + chunk + was[at + |chunk|..]
  }

  /** What is left of all when done bytes are gone. */
  ghost predicate Left(all: seq<Byte>, rest: seq<Byte>, done: nat) {
    done <= |all| && rest == all[done..]
  }

  lemma TakenOn(all: seq<Byte>, was: seq<Byte>, mid: seq<Byte>, now: seq<Byte>, rest: seq<Byte>, done: nat, n: nat)
    requires Taken(all, was, mid, done) && Left(all, rest, done) && n <= |rest| && done + n <= |was|
    requires Placed(mid, now, done, rest[..n])
    ensures Taken(all, was, now, done + n) && Left(all, rest[n..], done + n)
  {
  }
}
