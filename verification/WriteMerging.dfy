/** multiwrite_merge: combining adjacent and overlapping write requests
    (qemu/block.c:2076-2166, for a driver without bdrv_merge_requests). */
module WriteMerging {
  import opened Octets
  import opened Constants
  import opened IoVectors

  const IOV_MAX := 1024

  /** A BlockRequest: nb sectors from sector, with the data at the addresses of iov. */
  datatype Request = Request(sector: nat, nb: nat, iov: seq<Seg>) {
    function Start(): nat { sector * SECTOR }
    function End(): nat { sector * SECTOR + |Addrs(iov)| }
  }

  /** The vector holds as many bytes as the sectors to write. */
  predicate ValidRequest(r: Request) {
    |Addrs(r.iov)| == r.nb * SECTOR
  }

  predicate Covers(r: Request, x: nat) {
    r.Start() <= x < r.End()
  }

  /** The memory address that byte x of the disk is written from. */
  function SourceOf(r: Request, x: nat): nat
    requires Covers(r, x)
  {
    Addrs(r.iov)[x - r.Start()]
  }

  predicate CanMerge(a: Request, b: Request) {
    b.sector <= a.sector + a.nb && |a.iov| + |b.iov| + 1 <= IOV_MAX
  }

  /** The merged request: a up to the start of b, then all of b. */
  function MergeTwo(a: Request, b: Request): Request
    requires a.sector <= b.sector
  {
    var iov := CopySegs(a.iov, 0, (b.sector - a.sector) * SECTOR) + CopySegs(b.iov, 0, |Addrs(b.iov)|);
    Request(a.sector, |Addrs(iov)| / SECTOR, iov)
  }

  /** rest is sorted by start sector and begins no earlier than cur. */
  predicate Chain(cur: Request, rest: seq<Request>) {
    && ValidRequest(cur)
    && (forall i | 0 <= i < |rest| :: ValidRequest(rest[i]) && cur.sector <= rest[i].sector)
    && (forall i, j | 0 <= i < j < |rest| :: rest[i].sector <= rest[j].sector)
  }

  lemma MergeTwoShape(a: Request, b: Request)
    requires ValidRequest(a) && ValidRequest(b) && a.sector <= b.sector <= a.sector + a.nb
    ensures var m := MergeTwo(a, b);
      && ValidRequest(m)
      && Addrs(m.iov) == Addrs(a.iov)[..b.Start() - a.Start()] + Addrs(b.iov)
  {
    hide Addrs, CopySegs;
    var d := (b.sector - a.sector) * SECTOR;
    CopyExact(a.iov, 0, d);
    CopyExact(b.iov, 0, |Addrs(b.iov)|);
    AddrsAppend(CopySegs(a.iov, 0, d), CopySegs(b.iov, 0, |Addrs(b.iov)|));
  }

  /** Byte by byte: the merged request writes what a then b would, except that bytes of a beyond
      the end of b are not written. */
  lemma MergeTwoBytes(a: Request, b: Request, x: nat)
    requires ValidRequest(a) && ValidRequest(b) && a.sector <= b.sector <= a.sector + a.nb
    ensures var m := MergeTwo(a, b);
      && (Covers(m, x) <==> a.Start() <= x < b.End())
      && (Covers(m, x) ==> if Covers(b, x) then SourceOf(m, x) == SourceOf(b, x)
                           else Covers(a, x) && SourceOf(m, x) == SourceOf(a, x))
  {
    MergeTwoShape(a, b);
    hide MergeTwo, Addrs;
  }

  lemma ChainStep(cur: Request, rest: seq<Request>)
    requires Chain(cur, rest) && rest != []
    ensures Chain(rest[0], rest[1..])
    ensures rest[0].sector <= cur.sector + cur.nb ==> Chain(MergeTwo(cur, rest[0]), rest[1..])
  {
    hide ValidRequest, Addrs, CopySegs;
    if rest[0].sector <= cur.sector + cur.nb {
      MergeTwoShape(cur, rest[0]);
    }
  }

  /** The loop of multiwrite_merge over sorted requests: cur is reqs[outidx], rest is reqs[i..]. */
  function MergeFrom(cur: Request, rest: seq<Request>): (out: seq<Request>)
    requires Chain(cur, rest)
    decreases |rest|
  {
    if rest == [] then [cur]
    else
      ChainStep(cur, rest);
      if CanMerge(cur, rest[0]) then MergeFrom(MergeTwo(cur, rest[0]), rest[1..])
      else [cur] + MergeFrom(rest[0], rest[1..])
  }

  // ----- how far merging goes -----

  lemma {:induction false} CopyNoLonger(iov: seq<Seg>, skip: nat, size: nat)
    ensures |CopySegs(iov, skip, size)| <= |iov|
    decreases |iov|
  {
    if iov != [] && size != 0 {
      var n := iov[0].len;
      if skip >= n {
        CopyNoLonger(iov[1..], skip - n, size);
      } else if n - skip <= size {
        CopyNoLonger(iov[1..], 0, size - (n - skip));
      }
    }
  }

  lemma MergeTwoFits(a: Request, b: Request)
    requires a.sector <= b.sector
    ensures MergeTwo(a, b).sector == a.sector && |MergeTwo(a, b).iov| <= |a.iov| + |b.iov|
  {
    hide CopySegs, Addrs;
    CopyNoLonger(a.iov, 0, (b.sector - a.sector) * SECTOR);
    CopyNoLonger(b.iov, 0, |Addrs(b.iov)|);
  }

  /** A request of the outcome is one of those given or has fewer than IOV_MAX segments. */
  ghost predicate Within(r: Request, cur: Request, rest: seq<Request>) {
    r == cur || r in rest || |r.iov| < IOV_MAX
  }

  /** Requests neighbouring in the outcome do not touch, or had too many segments to be joined: the later
      one begins with some request given, of the same start. */
  ghost predicate Apart(a: Request, b: Request, rest: seq<Request>) {
    exists r :: r in rest && r.sector == b.sector
                && (a.sector + a.nb < b.sector || |a.iov| + |r.iov| + 1 > IOV_MAX)
  }

  /** Merging leaves nothing to merge, and never goes beyond what one vector can hold. */
  lemma {:induction false} MergedApart(cur: Request, rest: seq<Request>)
    requires Chain(cur, rest)
    ensures var out := MergeFrom(cur, rest);
      && out != [] && out[0].sector == cur.sector
      && (forall i | 0 <= i < |out| :: Within(out[i], cur, rest))
      && (forall i | 0 <= i < |out| - 1 :: Apart(out[i], out[i + 1], rest))
    decreases |rest|
  {
    if rest != [] {
      ChainStep(cur, rest);
      var b, tail := rest[0], rest[1..];
      assert forall r | r in tail :: r in rest;
      hide Chain, MergeTwo;
      if CanMerge(cur, b) {
        ChainBounds(cur, rest);
        MergeTwoFits(cur, b);
        MergedApart(MergeTwo(cur, b), tail);
      } else {
        MergedApart(b, tail);
        assert Apart(cur, MergeFrom(b, tail)[0], rest);
      }
    }
  }

  // ----- the effect on the disk -----

  /** Byte x of the disk after one request, v being its value before. */
  function Step(mem: nat -> Byte, v: Byte, r: Request, x: nat): Byte {
    if Covers(r, x) then mem(SourceOf(r, x)) else v
  }

  /** Byte x of the disk after the requests, carried out one after the other. */
  function ByteAfter(mem: nat -> Byte, v: Byte, reqs: seq<Request>, x: nat): Byte
    decreases |reqs|
  {
    if reqs == [] then v else ByteAfter(mem, Step(mem, v, reqs[0], x), reqs[1..], x)
  }

  lemma ByteAfterCons(mem: nat -> Byte, v: Byte, r: Request, reqs: seq<Request>, x: nat)
    ensures ByteAfter(mem, v, [r] + reqs, x) == ByteAfter(mem, Step(mem, v, r, x), reqs, x)
  {
    assert ([r] + reqs)[1..] == reqs;
  }

  predicate Rewritten(reqs: seq<Request>, x: nat) {
    exists j | 0 <= j < |reqs| :: Covers(reqs[j], x)
  }

  lemma {:induction false} RewrittenForgets(mem: nat -> Byte, v: Byte, w: Byte, reqs: seq<Request>, x: nat)
    requires Rewritten(reqs, x)
    ensures ByteAfter(mem, v, reqs, x) == ByteAfter(mem, w, reqs, x)
    decreases |reqs|
  {
    hide Covers, SourceOf;
    if !Covers(reqs[0], x) {
      var j :| 0 <= j < |reqs| && Covers(reqs[j], x);
      assert Covers(reqs[1..][j - 1], x);
      RewrittenForgets(mem, Step(mem, v, reqs[0], x), Step(mem, w, reqs[0], x), reqs[1..], x);
    }
  }

  lemma {:induction false} UntouchedStays(mem: nat -> Byte, v: Byte, reqs: seq<Request>, x: nat)
    requires !Rewritten(reqs, x)
    ensures ByteAfter(mem, v, reqs, x) == v
    decreases |reqs|
  {
    hide Covers, SourceOf;
    if reqs != [] {
      assert !Covers(reqs[0], x);
      assert forall j | 0 <= j < |reqs[1..]| :: reqs[1..][j] == reqs[j + 1];
      UntouchedStays(mem, v, reqs[1..], x);
    }
  }

  /** Byte x is dropped when b joins a: it is in the part of a beyond the end of b. */
  predicate Dropped(a: Request, b: Request, x: nat) {
    b.End() <= x < a.End()
  }

  /** Merging loses nothing: every dropped byte is written again by a later request. */
  ghost predicate Lossless(cur: Request, rest: seq<Request>)
    requires Chain(cur, rest)
    decreases |rest|
  {
    rest == [] ||
    (ChainStep(cur, rest);
     if CanMerge(cur, rest[0]) then
       && (forall x: nat | Dropped(cur, rest[0], x) :: Rewritten(rest[1..], x))
       && Lossless(MergeTwo(cur, rest[0]), rest[1..])
     else Lossless(rest[0], rest[1..]))
  }

  /** Merging the first two leaves the final byte alone unless it was dropped for good. */
  lemma MergeTwoEffect(mem: nat -> Byte, v: Byte, a: Request, b: Request, rest: seq<Request>, x: nat)
    requires ValidRequest(a) && ValidRequest(b) && a.sector <= b.sector <= a.sector + a.nb
    requires !Dropped(a, b, x) || Rewritten(rest, x)
    ensures ByteAfter(mem, v, [MergeTwo(a, b)] + rest, x) == ByteAfter(mem, v, [a] + ([b] + rest), x)
  {
    hide MergeTwo, ValidRequest, SourceOf, ByteAfter, Rewritten;
    MergeTwoBytes(a, b, x);
    var m := MergeTwo(a, b);
    ByteAfterCons(mem, v, m, rest, x);
    ByteAfterCons(mem, v, a, [b] + rest, x);
    ByteAfterCons(mem, Step(mem, v, a, x), b, rest, x);
    if Dropped(a, b, x) {
      RewrittenForgets(mem, Step(mem, v, m, x), Step(mem, Step(mem, v, a, x), b, x), rest, x);
    } else {
      assert Step(mem, v, m, x) == Step(mem, Step(mem, v, a, x), b, x);
    }
  }

  /** When nothing is lost, the merged requests leave every disk as the sorted ones do. */
  lemma {:induction false} MergeSound(mem: nat -> Byte, v: Byte, cur: Request, rest: seq<Request>, x: nat)
    requires Chain(cur, rest) && Lossless(cur, rest)
    ensures ByteAfter(mem, v, MergeFrom(cur, rest), x) == ByteAfter(mem, v, [cur] + rest, x)
    decreases |rest|
  {
    if rest == [] {
      assert [cur] + rest == [cur];
    } else {
      ChainStep(cur, rest);
      var b, tail := rest[0], rest[1..];
      assert rest == [b] + tail;
      hide Chain, ByteAfter, MergeTwo;
      if CanMerge(cur, b) {
        MergeSound(mem, v, MergeTwo(cur, b), tail, x);
        ChainBounds(cur, rest);
        MergeTwoEffect(mem, v, cur, b, tail, x);
      } else {
        MergeSound(mem, Step(mem, v, cur, x), b, tail, x);
        ByteAfterCons(mem, v, cur, MergeFrom(b, tail), x);
        ByteAfterCons(mem, v, cur, [b] + tail, x);
      }
    }
  }

  lemma ChainBounds(cur: Request, rest: seq<Request>)
    requires Chain(cur, rest) && rest != []
    ensures ValidRequest(cur) && ValidRequest(rest[0]) && cur.sector <= rest[0].sector
  {
  }

  // ----- the converse -----

  ghost predicate SharesNothing(a: Request, b: Request) {
    forall y | y in Addrs(a.iov) :: y !in Addrs(b.iov)
  }

  /** No two requests take their data from the same memory. */
  ghost predicate Separate(cur: Request, rest: seq<Request>) {
    && (forall i | 0 <= i < |rest| :: SharesNothing(cur, rest[i]))
    && (forall i, j | 0 <= i < j < |rest| :: SharesNothing(rest[i], rest[j]))
  }

  ghost predicate Supplies(reqs: seq<Request>, src: nat) {
    exists i | 0 <= i < |reqs| :: src in Addrs(reqs[i].iov)
  }

  lemma MergeTwoSources(a: Request, b: Request, y: nat)
    requires ValidRequest(a) && ValidRequest(b) && a.sector <= b.sector <= a.sector + a.nb
    ensures y in Addrs(MergeTwo(a, b).iov) ==> y in Addrs(a.iov) || y in Addrs(b.iov)
  {
    hide Addrs, MergeTwo;
    MergeTwoShape(a, b);
  }

  lemma SeparateStep(cur: Request, rest: seq<Request>)
    requires Chain(cur, rest) && rest != [] && Separate(cur, rest)
    ensures Separate(rest[0], rest[1..])
    ensures rest[0].sector <= cur.sector + cur.nb ==> Separate(MergeTwo(cur, rest[0]), rest[1..])
  {
    hide Addrs, MergeTwo;
    var b := rest[0];
    if b.sector <= cur.sector + cur.nb {
      var m := MergeTwo(cur, b);
      forall i | 1 <= i < |rest|
        ensures SharesNothing(m, rest[i])
      {
        forall y | y in Addrs(m.iov)
          ensures y !in Addrs(rest[i].iov)
        {
          MergeTwoSources(cur, b, y);
        }
      }
    }
  }

  lemma {:induction false} MergeCoverage(cur: Request, rest: seq<Request>, x: nat)
    requires Chain(cur, rest) && !Covers(cur, x) && !Rewritten(rest, x)
    ensures !Rewritten(MergeFrom(cur, rest), x)
    decreases |rest|
  {
    if rest != [] {
      ChainStep(cur, rest);
      ChainBounds(cur, rest);
      assert !Covers(rest[0], x);
      assert forall j | 0 <= j < |rest[1..]| :: rest[1..][j] == rest[j + 1];
      if CanMerge(cur, rest[0]) {
        MergeTwoBytes(cur, rest[0], x);
        hide Covers, MergeTwo, Chain;
        MergeCoverage(MergeTwo(cur, rest[0]), rest[1..], x);
      } else {
        hide Covers, MergeTwo, Chain;
        MergeCoverage(rest[0], rest[1..], x);
      }
    }
  }

  /** Memory that is 1 at one address and 0 elsewhere. */
  function Only(src: nat): nat -> Byte {
    a => if a == src then 1 else 0
  }

  /** A byte that is lost when b joins cur, on a zeroed disk and with memory Only(src). */
  lemma LostHere(cur: Request, rest: seq<Request>, x: nat) returns (src: nat)
    requires Chain(cur, rest) && rest != [] && CanMerge(cur, rest[0])
    requires Dropped(cur, rest[0], x) && !Rewritten(rest[1..], x)
    ensures src in Addrs(cur.iov)
    ensures forall v :: ByteAfter(Only(src), v, [cur] + rest, x) == 1
    ensures ByteAfter(Only(src), 0, MergeFrom(cur, rest), x) == 0
  {
    var b, tail := rest[0], rest[1..];
    ChainStep(cur, rest);
    ChainBounds(cur, rest);
    src := SourceOf(cur, x);
    var m := MergeTwo(cur, b);
    MergeTwoBytes(cur, b, x);
    MergeCoverage(m, tail, x);
    assert MergeFrom(cur, rest) == MergeFrom(m, tail);
    hide MergeTwo, MergeFrom, Addrs, Chain;
    UntouchedStays(Only(src), 0, MergeFrom(m, tail), x);
    assert rest == [b] + tail;
    forall v
      ensures ByteAfter(Only(src), v, [cur] + rest, x) == 1
    {
      ByteAfterCons(Only(src), v, cur, rest, x);
      ByteAfterCons(Only(src), 1, b, tail, x);
      UntouchedStays(Only(src), 1, tail, x);
    }
  }

  lemma SuppliesMore(reqs: seq<Request>, r: Request, src: nat)
    requires Supplies(reqs, src)
    ensures Supplies([r] + reqs, src)
  {
    hide Addrs;
    var i :| 0 <= i < |reqs| && src in Addrs(reqs[i].iov);
    assert ([r] + reqs)[i + 1] == reqs[i];
  }

  lemma SuppliesMerged(a: Request, b: Request, tail: seq<Request>, src: nat)
    requires ValidRequest(a) && ValidRequest(b) && a.sector <= b.sector <= a.sector + a.nb
    requires Supplies([MergeTwo(a, b)] + tail, src)
    ensures Supplies([a] + ([b] + tail), src)
  {
    hide Addrs, MergeTwo;
    MergeTwoSources(a, b, src);
    var m := MergeTwo(a, b);
    var i :| 0 <= i < |[m] + tail| && src in Addrs(([m] + tail)[i].iov);
    var all := [a] + ([b] + tail);
    if i > 0 {
      assert all[i + 1] == ([m] + tail)[i];
    } else {
      assert all[0] == a && all[1] == b;
    }
  }

  lemma SeparateSource(cur: Request, rest: seq<Request>, src: nat)
    requires Separate(cur, rest) && Supplies(rest, src)
    ensures src !in Addrs(cur.iov)
  {
    hide Addrs;
    var i :| 0 <= i < |rest| && src in Addrs(rest[i].iov);
  }

  /** If merging loses a byte, some memory contents and disk show it. */
  lemma {:induction false} FindLoss(cur: Request, rest: seq<Request>) returns (src: nat, x: nat)
    requires Chain(cur, rest) && Separate(cur, rest) && !Lossless(cur, rest)
    ensures Supplies([cur] + rest, src)
    ensures forall v :: ByteAfter(Only(src), v, [cur] + rest, x) == 1
    ensures ByteAfter(Only(src), 0, MergeFrom(cur, rest), x) == 0
    decreases |rest|
  {
    var b, tail := rest[0], rest[1..];
    assert rest == [b] + tail;
    ChainStep(cur, rest);
    ChainBounds(cur, rest);
    SeparateStep(cur, rest);
    if CanMerge(cur, b) && exists y: nat :: Dropped(cur, b, y) && !Rewritten(tail, y) {
      x :| Dropped(cur, b, x) && !Rewritten(tail, x);
      src := LostHere(cur, rest, x);
      assert ([cur] + rest)[0] == cur;
    } else if CanMerge(cur, b) {
      src, x := FindLoss(MergeTwo(cur, b), tail);
      LossUnmerged(cur, b, tail, src, x);
    } else {
      src, x := FindLoss(b, tail);
      LossBehind(cur, rest, src, x);
    }
  }

  lemma LossUnmerged(cur: Request, b: Request, tail: seq<Request>, src: nat, x: nat)
    requires ValidRequest(cur) && ValidRequest(b) && cur.sector <= b.sector <= cur.sector + cur.nb
    requires !Dropped(cur, b, x) || Rewritten(tail, x)
    requires Supplies([MergeTwo(cur, b)] + tail, src)
    requires forall v :: ByteAfter(Only(src), v, [MergeTwo(cur, b)] + tail, x) == 1
    ensures Supplies([cur] + ([b] + tail), src)
    ensures forall v :: ByteAfter(Only(src), v, [cur] + ([b] + tail), x) == 1
  {
    hide MergeTwo, ByteAfter, Addrs;
    SuppliesMerged(cur, b, tail, src);
    forall v
      ensures ByteAfter(Only(src), v, [cur] + ([b] + tail), x) == 1
    {
      MergeTwoEffect(Only(src), v, cur, b, tail, x);
    }
  }

  lemma LossBehind(cur: Request, rest: seq<Request>, src: nat, x: nat)
    requires Chain(cur, rest) && rest != [] && Separate(cur, rest) && !CanMerge(cur, rest[0])
    requires Chain(rest[0], rest[1..])
    requires Supplies([rest[0]] + rest[1..], src)
    requires forall v :: ByteAfter(Only(src), v, [rest[0]] + rest[1..], x) == 1
    requires ByteAfter(Only(src), 0, MergeFrom(rest[0], rest[1..]), x) == 0
    ensures Supplies([cur] + rest, src)
    ensures forall v :: ByteAfter(Only(src), v, [cur] + rest, x) == 1
    ensures ByteAfter(Only(src), 0, MergeFrom(cur, rest), x) == 0
  {
    assert rest == [rest[0]] + rest[1..];
    SuppliesMore(rest, cur, src);
    SeparateSource(cur, rest, src);
    var out := MergeFrom(rest[0], rest[1..]);
    assert MergeFrom(cur, rest) == [cur] + out;
    assert Step(Only(src), 0, cur, x) == 0;
    hide ByteAfter, MergeFrom, Addrs, Chain, Separate;
    ByteAfterCons(Only(src), 0, cur, out, x);
    forall v
      ensures ByteAfter(Only(src), v, [cur] + rest, x) == 1
    {
      ByteAfterCons(Only(src), v, cur, rest, x);
    }
  }

  /** For all disks and all data, the merged requests have the effect of the sorted ones. */
  ghost predicate SameEffect(cur: Request, rest: seq<Request>)
    requires Chain(cur, rest)
  {
    forall mem: nat -> Byte, v: Byte, x: nat ::
      ByteAfter(mem, v, MergeFrom(cur, rest), x) == ByteAfter(mem, v, [cur] + rest, x)
  }

  /** Exactly when merging preserves meaning: for requests with separate buffers, if and only if
      every byte cut off by a merge is written again by a later request. */
  lemma MergeExact(cur: Request, rest: seq<Request>)
    requires Chain(cur, rest) && Separate(cur, rest)
    ensures SameEffect(cur, rest) <==> Lossless(cur, rest)
  {
    if Lossless(cur, rest) {
      hide Lossless, ByteAfter, MergeFrom;
      forall mem: nat -> Byte, v: Byte, x: nat
        ensures ByteAfter(mem, v, MergeFrom(cur, rest), x) == ByteAfter(mem, v, [cur] + rest, x)
      {
        MergeSound(mem, v, cur, rest, x);
      }
    } else {
      var src, x := FindLoss(cur, rest);
      hide ByteAfter, MergeFrom;
      assert ByteAfter(Only(src), 0, MergeFrom(cur, rest), x) != ByteAfter(Only(src), 0, [cur] + rest, x);
    }
  }

  /** A condition that is easy to check: requests whose ends are in order too lose nothing. */
  lemma {:induction false} EndsInOrder(cur: Request, rest: seq<Request>)
    requires Chain(cur, rest)
    requires forall i | 0 <= i < |rest| :: cur.End() <= rest[i].End()
    requires forall i, j | 0 <= i < j < |rest| :: rest[i].End() <= rest[j].End()
    ensures Lossless(cur, rest)
    decreases |rest|
  {
    if rest != [] {
      ChainStep(cur, rest);
      ChainBounds(cur, rest);
      if CanMerge(cur, rest[0]) {
        MergeTwoShape(cur, rest[0]);
        hide MergeTwo, Addrs, Chain;
        assert MergeTwo(cur, rest[0]).End() == rest[0].End();
        EndsInOrder(MergeTwo(cur, rest[0]), rest[1..]);
      } else {
        EndsInOrder(rest[0], rest[1..]);
      }
    }
  }

  /** Two sectors and then one sector at the same place: the second sector is never written. */
  lemma TailLost(mem: nat -> Byte, v: Byte)
    ensures var a, b := Request(0, 2, [Seg(0, 1024)]), Request(0, 1, [Seg(2048, 512)]);
      && Chain(a, [b])
      && ByteAfter(mem, v, MergeFrom(a, [b]), 512) == v
      && ByteAfter(mem, v, [a] + [b], 512) == mem(512)
  {
    hide MergeTwo, Addrs;
    var a, b := Request(0, 2, [Seg(0, 1024)]), Request(0, 1, [Seg(2048, 512)]);
    AddrsOne(Seg(0, 1024));
    AddrsOne(Seg(2048, 512));
    MergeTwoBytes(a, b, 512);
    var m := MergeTwo(a, b);
    assert MergeFrom(a, [b]) == [m] by { assert [b][1..] == []; }
    assert SourceOf(a, 512) == 512;
    ByteAfterCons(mem, v, a, [b], 512);
    assert [b] == [b] + [];
    ByteAfterCons(mem, mem(512), b, [], 512);
  }

  // ----- the loop as it runs -----

  /** The body of the loop when it merges: a new vector for the combined request. */
  method Combine(a: Request, b: Request) returns (m: Request)
    requires a.sector <= b.sector
    ensures m == MergeTwo(a, b)
  {
    hide Addrs, CopySegs;
    var qiov := new IoVector(|a.iov| + |b.iov| + 1);
    qiov.Concat(a.iov, (b.sector - a.sector) * SECTOR);
    qiov.Concat(b.iov, |Addrs(b.iov)|);
    assert qiov.iov == CopySegs(a.iov, 0, (b.sector - a.sector) * SECTOR) + CopySegs(b.iov, 0, |Addrs(b.iov)|);
    m := Request(a.sector, qiov.size / SECTOR, qiov.iov);
  }

  lemma MergeOne(cur: Request)
    requires Chain(cur, [])
    ensures MergeFrom(cur, []) == [cur]
  {
  }

  lemma MergeStep(cur: Request, rest: seq<Request>)
    requires Chain(cur, rest) && rest != []
    ensures cur.sector <= rest[0].sector
    ensures if CanMerge(cur, rest[0])
      then Chain(MergeTwo(cur, rest[0]), rest[1..]) && MergeFrom(cur, rest) == MergeFrom(MergeTwo(cur, rest[0]), rest[1..])
      else Chain(rest[0], rest[1..]) && MergeFrom(cur, rest) == [cur] + MergeFrom(rest[0], rest[1..])
  {
    hide MergeTwo, ValidRequest;
    ChainStep(cur, rest);
  }

  /** The loop of multiwrite_merge: the requests that remain are moved to the front of the array. */
  method MergeSorted(reqs: array<Request>) returns (count: nat)
    requires reqs.Length > 0 && Chain(reqs[0], reqs[1..])
    modifies reqs
    ensures 1 <= count <= reqs.Length
    ensures reqs[..count] == MergeFrom(old(reqs[0]), old(reqs[1..]))
  {
    hide Chain, MergeTwo, MergeFrom;
    ghost var all := MergeFrom(reqs[0], reqs[1..]);
    ghost var done: seq<Request>, rest := [], reqs[1..];
    var outidx := 0;
    for i := 1 to reqs.Length
      invariant 0 <= outidx < i
      invariant done == reqs[..outidx] && rest == reqs[i..]
      invariant Chain(reqs[outidx], rest)
      invariant done + MergeFrom(reqs[outidx], rest) == all
    {
      MergeStep(reqs[outidx], rest);
      ghost var cur := reqs[outidx];
      if reqs[i].sector <= reqs[outidx].sector + reqs[outidx].nb
         && |reqs[outidx].iov| + |reqs[i].iov| + 1 <= IOV_MAX {
        var m := Combine(reqs[outidx], reqs[i]);
        reqs[outidx] := m;
      } else {
        outidx := outidx + 1;
        reqs[outidx] := reqs[i];
        Appended(done, cur, MergeFrom(reqs[i], rest[1..]));
        done := done + [cur];
      }
      rest := rest[1..];
    }
    assert rest == [];
    MergeOne(reqs[outidx]);
    return outidx + 1;
  }

  lemma Appended(done: seq<Request>, cur: Request, more: seq<Request>)
    ensures done + ([cur] + more) == (done + [cur]) + more
  {
  }

  predicate SortedByStart(reqs: seq<Request>) {
    forall i, j | 0 <= i < j < |reqs| :: reqs[i].sector <= reqs[j].sector
  }

  /** multiwrite_merge for a driver without bdrv_merge_requests; order is what qsort makes of the requests. */
  method MultiwriteMerge(reqs: array<Request>, order: seq<Request>) returns (count: nat)
    requires reqs.Length > 0 && forall r | r in reqs[..] :: ValidRequest(r)
    requires multiset(order) == multiset(reqs[..]) && SortedByStart(order)
    modifies reqs
    ensures |order| == reqs.Length && Chain(order[0], order[1..])
    ensures 1 <= count <= reqs.Length
    ensures reqs[..count] == MergeFrom(order[0], order[1..])
  {
    hide Chain, MergeFrom, ValidRequest, SortedByStart;
    SortedChain(order, reqs[..]);
    Rearrange(reqs, order);
    count := MergeSorted(reqs);
  }

  method Rearrange(reqs: array<Request>, order: seq<Request>)
    requires |order| == reqs.Length > 0
    modifies reqs
    ensures reqs[..] == order && reqs[0] == order[0] && reqs[1..] == order[1..]
  {
    for i := 0 to reqs.Length
      invariant reqs[..i] == order[..i]
    {
      reqs[i] := order[i];
    }
  }

  lemma SortedChain(order: seq<Request>, reqs: seq<Request>)
    requires |reqs| > 0 && forall r | r in reqs :: ValidRequest(r)
    requires multiset(order) == multiset(reqs) && SortedByStart(order)
    ensures |order| == |reqs| && Chain(order[0], order[1..])
  {
    hide ValidRequest;
    assert |multiset(order)| == |order| && |multiset(reqs)| == |reqs|;
    forall i | 0 <= i < |order|
      ensures ValidRequest(order[i])
    {
      assert order[i] in multiset(order);
    }
  }
}
