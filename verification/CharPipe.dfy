/** Pipes between character devices, and buffers before them (qemu/charpipe.c:25-383). */
module CharPipe {
  import opened Octets
  import opened Numbers
  import opened CharTalk
  import opened CircularBuffer
  import opened BipChains

  class Pipes {
    var free: Bip?
    var halves: seq<Half>
    ghost var layout: Layout
    /** What each node holds. */
    ghost var held: map<Bip, seq<Byte>>
    /** Which node a buffer, or its memory, belongs to. */
    ghost var owner: map<object, Bip>
    ghost var repr: set<object>

    /** All nodes ever allocated. */
    ghost var nodes: set<Bip>

    /** The lists are as the layout has them, and the nodes in them hold what held says. */
    ghost predicate Linked()
      reads this, repr
    {
      && this !in repr
      && Shape(layout, free, halves)
      && (forall x | x in layout.at :: InMemory(x, repr) && Owned(x, owner))
      && (forall x | x in layout.at :: Follows(layout, x, x.next))
      && (forall x | x in layout.at :: x in held && Holds(x, held[x]))
    }

    /** No node of a chain is empty, but perhaps one. */
    ghost predicate Tight(but: Bip?)
      reads this`layout, this`held
    {
      forall x | x in layout.at && layout.at[x].list > 0 && x != but :: x in held && held[x] != []
    }

    /** Every node ever allocated is in one of the lists. */
    ghost predicate Settled(but: Bip?)
      reads this, repr
    {
      Linked() && layout.at.Keys == nodes && Tight(but)
    }

    ghost predicate Valid()
      reads this, repr
    {
      Settled(null)
    }

    /** A node in no list. */
    ghost predicate Detached(x: Bip)
      reads this
    {
      x !in layout.at && InMemory(x, repr) && Owned(x, owner)
    }

    /** The nodes in the chain of half k, and the bytes in them. */
    ghost function Nodes(k: nat): seq<Bip>
      reads this`layout
    {
      if k + 1 < |layout.lists| then layout.lists[k + 1].nodes else []
    }

    ghost function Pending(k: nat): seq<Byte>
      reads this`layout, this`held
    {
      Bytes(Nodes(k), held)
    }

    constructor (halves: seq<Half>)
      requires forall h | h in halves :: h.first == null && h.last == null
      ensures Valid() && fresh(repr) && this.halves == halves
      ensures layout.at == map[] && forall k: nat :: Nodes(k) == []
    {
      free := null;
      this.halves := halves;
      layout := Layout(seq(|halves| + 1, _ => Chain([], 0)), map[]);
      held, owner, repr, nodes := map[], map[], {}, {};
    }

    /** bip_buffer_free (charpipe.c:63-68). */
    method BipFree(x: Bip)
      requires Linked() && Detached(x) && x in held && Holds(x, held[x])
      modifies this`free, this`layout, x
      ensures Linked()
      ensures layout == old(layout).Return(x)
    {
      hide Shape, Follows, Holds, Owned, InMemory, Layout.Return;
      ReturnEnds(layout, free, halves, x);
      ReturnFollows(layout, free, halves, x);
      ghost var was := layout;
      x.next := free;
      free := x;
      layout := was.Return(x);
      assert forall y | y in was.at :: Follows(was, y, y.next);
    }

    /** The branch of bip_buffer_alloc that finds a free node (charpipe.c:49-50). */
    method TakeFree() returns (x: Bip)
      requires Linked() && free != null
      modifies this`free, this`layout
      ensures Linked() && Detached(x) && x in old(layout).at
      ensures |old(layout).lists| > 0 && old(layout).lists[0].nodes != [] && old(layout).lists[0].nodes[0] == x
      ensures layout == old(layout).Pop(0)
    {
      hide Shape, Follows, Holds, Owned, InMemory, Layout.Pop;
      x := free;
      EndsIn(layout, free, halves);
      ghost var was := layout;
      TakeEnds(was, x, halves, x.next);
      PopFollows(was, 0);
      free := x.next;
      layout := was.Pop(0);
    }

    /** The branch that allocates one (charpipe.c:52-56). */
    method NewNode() returns (x: Bip)
      requires Linked()
      modifies this`owner, this`repr, this`nodes
      ensures nodes == old(nodes) + {x}
      ensures Linked() && Detached(x) && fresh(x) && fresh(repr - old(repr)) && old(repr) <= repr
    {
      hide Shape, Follows, Holds, Owned;
      x := new Bip();
      nodes := nodes + {x};
      forall y | y in layout.at
        ensures Owned(y, owner[x.cb := x][x.cb.buff := x])
      {
        OwnerGrows(y, owner, x);
      }
      OwnerNew(owner, x);
      owner := owner[x.cb := x][x.cb.buff := x];
      repr := repr + {x, x.cb, x.cb.buff};
    }

    /** The first node of an empty chain (charpipe.c:134). */
    method LinkFirst(k: nat, x: Bip)
      requires Linked() && k < |halves| && halves[k].last == null
      requires Detached(x) && x.next == null && x in held && Holds(x, held[x])
      modifies this`halves, this`layout
      ensures Linked()
      ensures |old(layout).lists| == |halves| + 1 && layout == old(layout).Push(k + 1, x)
      ensures halves == old(halves)[k := Longer(old(halves[k]), x)]
    {
      hide Shape, Follows, Holds, Owned, InMemory, Layout.Push, Longer;
      PushEnds(layout, free, halves, k, x);
      PushFollows(layout, free, halves, k, x);
      halves := halves[k := Longer(halves[k], x)];
      layout := layout.Push(k + 1, x);
    }

    /** A successor of the node at the end of a chain (charpipe.c:147-149). */
    method LinkNext(k: nat, tail: Bip, x: Bip)
      requires Linked() && k < |halves| && halves[k].last == tail
      requires Detached(x) && x.next == null && x in held && Holds(x, held[x])
      modifies this`halves, this`layout, tail
      ensures Linked()
      ensures |old(layout).lists| == |halves| + 1 && layout == old(layout).Push(k + 1, x)
      ensures halves == old(halves)[k := Longer(old(halves[k]), x)]
    {
      hide Shape, Follows, Holds, Owned, InMemory, Layout.Push, Longer;
      PushEnds(layout, free, halves, k, x);
      PushFollows(layout, free, halves, k, x);
      tail.next := x;
      halves := halves[k := Longer(halves[k], x)];
      layout := layout.Push(k + 1, x);
    }

    /** bip_buffer_alloc (charpipe.c:45-61). */
    method BipAlloc() returns (x: Bip)
      requires Linked()
      modifies this`free, this`layout, this`owner, this`repr, this`held, this`nodes, repr
      ensures Linked() && Detached(x) && x.next == null && Holds(x, []) && held == old(held)[x := []]
      ensures layout.at.Keys == old(layout).at.Keys - {x} && forall y | y in layout.at :: layout.at[y] == old(layout).at[y]
      ensures if x in old(layout).at then nodes == old(nodes) else fresh(x) && nodes == old(nodes) + {x}
      ensures forall k: nat :: Nodes(k) == old(Nodes(k))
      ensures fresh(repr - old(repr)) && old(repr) <= repr
    {
      hide Shape, Follows, Holds, Owned;
      if free != null {
        x := TakeFree();
      } else {
        x := NewNode();
      }
      Renew(x);
    }

    /** The last lines of bip_buffer_alloc (charpipe.c:58-59). */
    method Renew(x: Bip)
      requires Linked() && Detached(x)
      modifies this`held, x, x.cb
      ensures Linked() && Detached(x) && x.next == null && Holds(x, []) && held == old(held)[x := []]
    {
      hide Shape, Follows, Owned;
      forall y | y in layout.at
        ensures y.cb != x.cb
      {
        OwnedApart(x, y, owner);
      }
      x.next := null;
      x.cb.Reset();
      held := held[x := []];
    }

    /** The first node of the chain of half k is taken out (charpipe.c:174-176). */
    method Unlink(k: nat) returns (x: Bip)
      requires Linked() && k < |halves| && halves[k].first != null
      modifies this`halves, this`layout
      ensures Linked() && Detached(x) && x in held && Holds(x, held[x]) && x in old(layout).at
      ensures x == old(halves[k].first) && halves == old(halves)[k := Shorter(old(halves[k]), x.next)]
      ensures |old(layout).lists| == |old(halves)| + 1 && old(layout).lists[k + 1].nodes != []
      ensures layout == old(layout).Pop(k + 1) && old(layout).lists[k + 1].nodes[0] == x
    {
      hide Shape, Follows, Holds, Owned, InMemory, Layout.Pop;
      x := halves[k].first;
      EndsIn(layout, free, halves);
      ghost var was := layout;
      PopEnds(was, free, halves, k, x, x.next);
      PopFollows(was, k + 1);
      halves := halves[k := halves[k].(first := x.next)];
      if halves[k].first == null {
        halves := halves[k := halves[k].(last := null)];
      }
      assert halves == old(halves)[k := Shorter(old(halves[k]), x.next)];
      layout := was.Pop(k + 1);
    }

    /** Bytes go into the last node of half k, as many as it has room for. */
    method Fill(k: nat, data: seq<Byte>) returns (n: nat)
      requires Linked() && k < |halves| && halves[k].last != null
      modifies this`held, repr
      ensures Linked() && layout == old(layout) && halves == old(halves) && repr == old(repr) && nodes == old(nodes)
      ensures n <= |data|
      ensures var x := halves[k].last;
        && x in layout.at && x in old(held) && held == old(held)[x := old(held)[x] + data[..n]]
        && n == Min(|data|, BIP_BUFFER_SIZE - |old(held)[x]|)
    {
      hide Shape, Follows, Owned, Holds;
      EndsIn(layout, free, halves);
      var x := halves[k].last;
      forall y | y in layout.at && y != x
        ensures y.cb != x.cb && y.cb.buff != x.cb.buff
      {
        OwnedApart(x, y, owner);
      }
      n := PutIn(x, held[x], data);
      held := held[x := held[x] + data[..n]];
    }

    method Link(k: nat, x: Bip)
      requires Linked() && k < |halves| && Detached(x) && x.next == null && x in held && Holds(x, held[x])
      modifies this`halves, this`layout, repr
      ensures Linked()
      ensures |old(layout).lists| == |halves| + 1 && layout == old(layout).Push(k + 1, x)
      ensures halves == old(halves)[k := Longer(old(halves[k]), x)]
    {
      hide Shape, Follows, Holds, Owned, Layout.Push, Layout.Valid, Longer;
      EndsIn(layout, free, halves);
      if halves[k].last == null {
        LinkFirst(k, x);
      } else {
        LinkNext(k, halves[k].last, x);
      }
    }

    /** Bytes leave the first node of half k (charpipe.c:191-193, 198). */
    method Drain(k: nat, size: nat) returns (data: seq<Byte>)
      requires Linked() && k < |halves| && halves[k].first != null
      modifies this`held, repr
      ensures Linked() && halves == old(halves) && layout == old(layout) && repr == old(repr) && nodes == old(nodes)
      ensures free == old(free)
      ensures var x := halves[k].first;
        && x in old(held) && |data| <= |old(held)[x]| && x.cb.Valid() && old(x.cb.Valid())
        && data == old(held)[x][..|data|] && held == old(held)[x := old(held)[x][|data|..]]
        && |data| == Min(size, old(x.cb.Ahead())) && old(x.cb.Ahead()) <= |old(held)[x]|
        && (old(held)[x] != [] ==> old(x.cb.Ahead()) > 0)
    {
      hide Shape, Follows, Owned, Holds;
      EndsIn(layout, free, halves);
      var x := halves[k].first;
      forall y | y in layout.at && y != x
        ensures y.cb != x.cb && y.cb.buff != x.cb.buff
      {
        OwnedApart(x, y, owner);
      }
      HoldsValid(x, held[x]);
      data := TakeOut(x, held[x], size);
      HoldsValid(x, held[x][|data|..]);
      held := held[x := held[x][|data|..]];
    }

    /** A new and empty node at the end of the chain of half k. */
    method AddNode(k: nat)
      requires Valid() && k < |halves|
      modifies this, repr
      ensures |halves| == |old(halves)| && halves[k].last != null
      ensures Settled(halves[k].last) && fresh(repr - old(repr)) && fresh(nodes - old(nodes)) && old(nodes) <= nodes
      ensures halves == old(halves)[k := halves[k]] && halves[k].face == old(halves[k].face)
      ensures forall j: nat :: Pending(j) == old(Pending(j))
      ensures halves[k].last in held && held[halves[k].last] == []
    {
      hide Linked, Pending;
      Extend(k);
    }

    method Extend(k: nat)
      requires Linked() && layout.at.Keys == nodes && k < |halves|
      modifies this, repr
      ensures Linked() && layout.at.Keys == nodes
      ensures |halves| == |old(halves)| && halves[k].last != null
      ensures fresh(repr - old(repr)) && fresh(nodes - old(nodes)) && old(nodes) <= nodes
      ensures halves == old(halves)[k := halves[k]] && halves[k].face == old(halves[k].face)
      ensures forall j: nat :: Pending(j) == old(Pending(j))
      ensures var x := halves[k].last;
        && held == old(held)[x := []]
        && forall y | y in layout.at && y != x :: y in old(layout).at && layout.at[y] == old(layout).at[y]
    {
      hide Shape, Follows, Holds, Owned, InMemory, Bytes, Layout.Valid;
      var x := BipAlloc();
      AddedBytes(layout, free, halves, k, old(held), x);
      Link(k, x);
    }

    /** Half k as its peer sees it. */
    ghost function LineOf(k: nat): Line
      requires k < |halves|
      reads this`layout, this`held, this`halves
    {
      Line(halves[k].face, Pending(k), false)
    }

    /** The chain of a half is empty exactly when no bytes wait in it. */
    lemma EmptyChain(k: nat)
      requires Valid() && k < |halves|
      ensures Pending(k) == [] <==> halves[k].last == null
      ensures halves[k].first == null <==> halves[k].last == null
      ensures Nodes(k) == [] <==> halves[k].last == null
    {
      hide Follows, Holds, Owned, InMemory;
      assert Ends(halves[k], layout.lists[k + 1].nodes);
      var nodes := Nodes(k);
      if nodes != [] {
        assert layout.at[nodes[0]].list == k + 1;
        BytesFirst(nodes, held);
      }
    }

    /** cbuffer_write into the last node of half k (charpipe.c:138). */
    method Store(k: nat, data: seq<Byte>) returns (n: nat)
      requires k < |halves| && halves[k].last != null && data != []
      requires Settled(halves[k].last)
      modifies this`held, repr
      ensures Valid() && halves == old(halves) && repr == old(repr) && nodes == old(nodes)
      ensures n <= |data| && halves[k].last in old(held)
      ensures n == Min(|data|, BIP_BUFFER_SIZE - |old(held)[halves[k].last]|)
      ensures Pending(k) == old(Pending(k)) + data[..n]
      ensures forall j: nat | j != k :: Pending(j) == old(Pending(j))
    {
      hide Shape, Follows, Holds, Owned, InMemory, Bytes, Layout.Valid;
      n := Fill(k, data);
      StoredBytes(layout, free, halves, k, old(held), data[..n]);
    }

    /** Only the face of half k changes. */
    method SetFace(k: nat, face: Face)
      requires k < |halves| && Linked()
      modifies this`halves
      ensures Linked() && halves == old(halves)[k := old(halves[k]).(face := face)]
    {
      hide Follows, Holds, Owned, InMemory, Layout.Valid;
      halves := halves[k := halves[k].(face := face)];
    }

    /** qemu_chr_can_read on the peer (qemu-char.c:184-189). */
    method CanRead(k: nat) returns (size: nat)
      requires k < |halves| && Linked()
      modifies this`halves
      ensures Linked() && halves == old(halves)[k := old(halves[k]).(face := Ask(old(halves[k].face)).0)]
      ensures size == Ask(old(halves[k].face)).1
    {
      hide Linked;
      var f := halves[k].face;
      size := 0;
      if f.peerLimit {
        size := Answer(f);
        SetFace(k, Heard(f, Asked(size)));
      } else {
        assert halves == halves[k := halves[k].(face := f)];
      }
    }

    /** The direct part of charpipehalf_write (charpipe.c:106-126): how many bytes the peer took. */
    method WriteDirect(k: nat, data: seq<Byte>) returns (done: nat)
      requires k < |halves| && Linked()
      modifies this`halves
      ensures Linked() && |halves| == |old(halves)|
      ensures (halves[k].face, done) == Bypass(old(halves[k].face), data)
      ensures halves == old(halves)[k := old(halves[k]).(face := halves[k].face)]
    {
      hide Linked, Ask, Give, Bypass;
      done := 0;
      ghost var f := halves[k].face;
      assert data[0..] == data;
      while done < |data|
        invariant Linked() && |halves| == |old(halves)| && done <= |data|
        invariant halves == old(halves)[k := old(halves[k]).(face := halves[k].face)]
        invariant var (g, more) := Bypass(halves[k].face, data[done..]); Bypass(f, data) == (g, done + more)
      {
        ghost var g := halves[k].face;
        BypassOnce(g, data[done..]);
        var size := |data| - done;
        if halves[k].face.peerLimit {
          var room := CanRead(k);
          if room == 0 {
            return;
          }
          if size > room {
            size := room;
          }
        }
        assert data[done..][..size] == data[done..done + size] && data[done..][size..] == data[done + size..];
        SetFace(k, Give(halves[k].face, data[done..done + size]));
        done := done + size;
        BypassNone(halves[k].face);
        assert done == |data| ==> data[done..] == [];
      }
      BypassNone(halves[k].face);
      assert data[done..] == [];
    }

    /** The rest of charpipehalf_write (charpipe.c:131-150). */
    method Buffer(k: nat, data: seq<Byte>)
      requires Valid() && k < |halves| && data != []
      modifies this, repr
      ensures Valid() && |halves| == |old(halves)| && fresh(repr - old(repr))
      ensures fresh(nodes - old(nodes)) && old(nodes) <= nodes
      ensures halves == old(halves)[k := halves[k]] && halves[k].face == old(halves[k].face)
      ensures Pending(k) == old(Pending(k)) + data
      ensures forall j: nat | j != k :: Pending(j) == old(Pending(j))
    {
      hide Settled, Pending;
      if halves[k].last == null {
        AddNode(k);
      } else {
        Loosen(k);
      }
      var done := 0;
      assert data[0..] == data;
      while done < |data|
        invariant |halves| == |old(halves)| && halves[k].last != null && done <= |data|
        invariant if done < |data| then Settled(halves[k].last) else Valid()
        invariant fresh(repr - old(repr)) && fresh(nodes - old(nodes)) && old(nodes) <= nodes
        invariant halves == old(halves)[k := halves[k]] && halves[k].face == old(halves[k].face)
        invariant Pending(k) + data[done..] == old(Pending(k)) + data
        invariant forall j: nat | j != k :: Pending(j) == old(Pending(j))
        decreases |data| - done, if halves[k].last in held && held[halves[k].last] == [] then 0 else 1
      {
        ghost var was := Pending(k);
        var n := StoreSome(k, data[done..]);
        Carried(was, data[done..], n);
        assert data[done..][n..] == data[done + n..];
        done := done + n;
      }
      assert data[done..] == [];
    }

    /** One turn of that loop: the last node is filled, and another one added if that was not enough. */
    method StoreSome(k: nat, data: seq<Byte>) returns (n: nat)
      requires k < |halves| && halves[k].last != null && data != [] && Settled(halves[k].last)
      modifies this, repr
      ensures |halves| == |old(halves)| && halves[k].last != null && n <= |data|
      ensures if n < |data| then Settled(halves[k].last) else Valid()
      ensures fresh(repr - old(repr)) && fresh(nodes - old(nodes)) && old(nodes) <= nodes
      ensures halves == old(halves)[k := halves[k]] && halves[k].face == old(halves[k].face)
      ensures Pending(k) == old(Pending(k)) + data[..n]
      ensures forall j: nat | j != k :: Pending(j) == old(Pending(j))
      ensures n < |data| ==> halves[k].last in held && held[halves[k].last] == []
      ensures n == 0 ==> old(halves[k].last in held && held[halves[k].last] != [])
    {
      hide Settled, Pending;
      n := Store(k, data);
      if n < |data| {
        AddNode(k);
      }
    }

    /** One node may be empty from now on. */
    lemma Loosen(k: nat)
      requires Valid() && k < |halves|
      ensures Settled(halves[k].last) && Settled(halves[k].first)
    {
      hide Linked;
    }

    /** charpipehalf_write (charpipe.c:95-152). */
    method Write(k: nat, data: seq<Byte>) returns (ret: nat)
      requires Valid() && k < |halves|
      modifies this, repr
      ensures Valid() && |halves| == |old(halves)| && fresh(repr - old(repr))
      ensures fresh(nodes - old(nodes)) && old(nodes) <= nodes
      ensures ret == |data|
      ensures LineOf(k) == Written(old(LineOf(k)), data)
      ensures forall j: nat | j != k && j < |halves| :: LineOf(j) == old(LineOf(j))
    {
      hide Settled, Pending, Bypass;
      EmptyChain(k);
      ret := 0;
      var h := halves[k];
      BypassDelivers(h.face, data);
      ghost var was := Pending(k);
      if h.last == null && h.face.open && h.face.reader {
        ret := Bypassed(k, data);
      }
      if ret == |data| {
        assert was + [] == was && data[ret..] == [];
        return;
      }
      Buffer(k, data[ret..]);
      assert [] + data[ret..] == data[ret..] && data[0..] == data;
      ret := |data|;
    }

    method Bypassed(k: nat, data: seq<Byte>) returns (done: nat)
      requires k < |halves| && Valid()
      modifies this`halves
      ensures Valid() && |halves| == |old(halves)|
      ensures (halves[k].face, done) == Bypass(old(halves[k].face), data)
      ensures halves == old(halves)[k := old(halves[k]).(face := halves[k].face)]
    {
      hide Linked, Bypass;
      done := WriteDirect(k, data);
    }

    /** The first node of half k goes to the free list (charpipe.c:174-177, 86-88). */
    method Discard(k: nat)
      requires k < |halves| && halves[k].first != null
      requires Settled(halves[k].first)
      modifies this`free, this`layout, this`halves, repr
      ensures Valid() && |halves| == |old(halves)| && repr == old(repr) && held == old(held) && nodes == old(nodes)
      ensures halves == old(halves)[k := halves[k]] && halves[k].face == old(halves[k].face)
      ensures old(Nodes(k)) != [] && old(Nodes(k))[0] == old(halves[k].first) && Nodes(k) == old(Nodes(k))[1..]
      ensures forall j: nat | j != k :: Nodes(j) == old(Nodes(j))
    {
      hide Linked, Nodes;
      Recycle(k);
    }

    method Recycle(k: nat)
      requires Linked() && k < |halves| && halves[k].first != null
      modifies this`free, this`layout, this`halves, repr
      ensures Linked() && |halves| == |old(halves)| && repr == old(repr) && held == old(held) && nodes == old(nodes)
      ensures halves == old(halves)[k := halves[k]] && halves[k].face == old(halves[k].face)
      ensures old(Nodes(k)) != [] && old(Nodes(k))[0] == old(halves[k].first) && Nodes(k) == old(Nodes(k))[1..]
      ensures forall j: nat | j != k :: Nodes(j) == old(Nodes(j))
      ensures layout.at.Keys == old(layout).at.Keys
      ensures forall y | y in layout.at ::
        layout.at[y].list == if y == old(halves[k].first) then 0 else old(layout).at[y].list
    {
      hide Shape, Follows, Holds, Owned, Layout.Valid;
      var x := Unlink(k);
      BipFree(x);
      assert layout.at.Keys == old(layout).at.Keys - {x} + {x};
    }

    /** How many of the first bytes of half k lie together. */
    ghost function Together(k: nat): nat
      reads this, repr
    {
      if k < |halves| && halves[k].first != null && halves[k].first.cb in repr && halves[k].first.cb.Valid()
      then halves[k].first.cb.Ahead()
      else 0
    }

    /** Bytes from the first node of half k leave it, up to size (charpipe.c:191-193, 198). */
    method Deliver(k: nat, size: nat) returns (data: seq<Byte>)
      requires k < |halves| && halves[k].first != null && size > 0
      requires Valid()
      modifies this`held, repr
      ensures Settled(halves[k].first) && halves == old(halves)
      ensures repr == old(repr) && layout == old(layout) && nodes == old(nodes)
      ensures 0 < |data| <= |old(Pending(k))| && |data| == Min(size, old(Together(k)))
      ensures |data| < old(Together(k)) ==> Valid()
      ensures data == old(Pending(k))[..|data|] && Pending(k) == old(Pending(k))[|data|..]
      ensures forall j: nat | j != k :: Pending(j) == old(Pending(j))
    {
      hide Shape, Follows, Holds, Owned, Bytes, Layout.Valid;
      FirstHolds(k);
      EndsIn(layout, free, halves);
      data := Drain(k, size);
      DrainedBytes(layout, free, halves, k, old(held), |data|);
    }

    lemma FirstHolds(k: nat)
      requires Valid() && k < |halves| && halves[k].first != null
      ensures halves[k].first in held && held[halves[k].first] != []
    {
      hide Follows, Holds, Owned, InMemory;
      assert Ends(halves[k], layout.lists[k + 1].nodes);
      assert layout.at[Nodes(k)[0]].list == k + 1;
    }

    /** cbuffer_read_avail of the first node. */
    method FirstCount(k: nat) returns (size: nat)
      requires k < |halves| && halves[k].first != null && Settled(halves[k].first)
      ensures if size == 0 then halves[k].first in held && held[halves[k].first] == [] else Valid() && Together(k) > 0
      ensures |Pending(k)| >= size >= Together(k)
    {
      hide Shape, Follows, Owned, Layout.Valid, Bytes, CBuffer.Ring, Rotated;
      EndsIn(layout, free, halves);
      size := halves[k].first.cb.count;
      DrainedBytes(layout, free, halves, k, held, size);
    }

    /** An empty first node goes to the free list; no bytes go with it. */
    method DiscardEmpty(k: nat)
      requires k < |halves| && halves[k].first != null && Settled(halves[k].first)
      requires halves[k].first in held && held[halves[k].first] == []
      modifies this`free, this`layout, this`halves, repr
      ensures Valid() && |halves| == |old(halves)| && repr == old(repr) && nodes == old(nodes)
      ensures halves == old(halves)[k := halves[k]] && halves[k].face == old(halves[k].face)
      ensures |Nodes(k)| < |old(Nodes(k))|
      ensures forall j: nat :: Pending(j) == old(Pending(j))
    {
      hide Settled, Bytes, Nodes;
      ghost var first := Nodes(k);
      Discard(k);
      BytesFirst(first, held);
    }

    /** One turn of charpipehalf_poll on a node with bytes in it (charpipe.c:181-198). */
    method PollNode(k: nat, count: nat) returns (stop: bool)
      requires Valid() && k < |halves| && halves[k].first != null
      requires Together(k) > 0 && count >= Together(k)
      modifies this`held, this`halves, repr
      ensures |halves| == |old(halves)| && repr == old(repr) && nodes == old(nodes) && layout == old(layout)
      ensures if stop then Valid() else Settled(halves[k].first)
      ensures halves == old(halves)[k := old(halves[k]).(face := halves[k].face)]
      ensures Line(halves[k].face, Pending(k), stop) == PollOnce(old(LineOf(k)), old(Together(k)))
      ensures !stop ==> |Pending(k)| < |old(Pending(k))|
      ensures forall j: nat | j != k :: Pending(j) == old(Pending(j))
    {
      hide Linked, Pending, Nodes;
      var size := count;
      if halves[k].face.ownLimit {
        var size2 := CanRead(k);
        if size2 == 0 {
          return true;
        }
        if size > size2 {
          size := size2;
        }
      }
      var data := Deliver(k, size);
      SetFace(k, Give(halves[k].face, data));
      return false;
    }

    /** charpipehalf_poll (charpipe.c:155-200); parts tells how many bytes lay together at each turn. */
    method Poll(k: nat) returns (ghost parts: seq<nat>)
      requires Valid() && k < |halves|
      modifies this`held, this`layout, this`free, this`halves, repr
      ensures Valid() && |halves| == |old(halves)| && repr == old(repr) && nodes == old(nodes)
      ensures LineOf(k) == Polled(old(LineOf(k)), parts)
      ensures old(halves[k].face.open && halves[k].face.reader) ==> Fits(old(LineOf(k)), parts)
      ensures old(halves[k].face.open && halves[k].face.reader) ==>
        Pending(k) == [] || PollLine(old(LineOf(k)), parts).stopped
      ensures forall j: nat | j != k && j < |halves| :: LineOf(j) == old(LineOf(j))
    {
      hide Settled, Pending, Nodes, PollOnce;
      parts := [];
      ghost var start := LineOf(k);
      if !halves[k].face.open || !halves[k].face.reader {
        return;
      }
      Loosen(k);
      while halves[k].first != null
        invariant |halves| == |old(halves)| && repr == old(repr) && nodes == old(nodes) && Settled(halves[k].first)
        invariant halves == old(halves)[k := halves[k]]
        invariant forall j: nat | j != k :: Pending(j) == old(Pending(j))
        invariant Fits(start, parts) && LineOf(k) == PollLine(start, parts)
        decreases |Nodes(k)|, |Pending(k)|
      {
        var size := FirstCount(k);
        if size == 0 {
          DiscardEmpty(k);
          Loosen(k);
          continue;
        }
        ghost var t := Together(k);
        var stop := PollNode(k, size);
        PollMore(start, parts, t);
        parts := parts + [t];
        if stop {
          PollConserves(start, parts);
          return;
        }
      }
      PollConserves(start, parts);
      EmptyChain(k);
    }

    // A CharBuffer is a half whose peer is an endpoint: open says that there is one, and room holds what
    // qemu_chr_write on it will return, a negative value counting as 0.

    /** charbuffer_write (charpipe.c:293-342). */
    method BufferWrite(k: nat, data: seq<Byte>) returns (ret: nat)
      requires Valid() && k < |halves|
      modifies this, repr
      ensures Valid() && |halves| == |old(halves)| && fresh(repr - old(repr))
      ensures fresh(nodes - old(nodes)) && old(nodes) <= nodes
      ensures ret == |data|
      ensures LineOf(k) == BufferWritten(old(LineOf(k)), data)
      ensures forall j: nat | j != k && j < |halves| :: LineOf(j) == old(LineOf(j))
    {
      hide Settled, Pending, Offer;
      EmptyChain(k);
      ret := 0;
      ghost var was := Pending(k);
      if halves[k].last == null && halves[k].face.open {
        ret := OfferTo(k, data);
      }
      if ret == |data| {
        assert was + [] == was && data[ret..] == [];
        return;
      }
      Buffer(k, data[ret..]);
      assert [] + data[ret..] == data[ret..] && data[0..] == data;
      ret := |data|;
    }

    /** qemu_chr_write on the endpoint, its result kept within bounds (charpipe.c:306-311, 371-376). */
    method OfferTo(k: nat, data: seq<Byte>) returns (size: nat)
      requires Valid() && k < |halves|
      modifies this`halves
      ensures Valid() && halves == old(halves)[k := old(halves[k]).(face := Offer(old(halves[k].face), data).0)]
      ensures size == Offer(old(halves[k].face), data).1 && size <= |data|
    {
      hide Linked;
      var (face, n) := Offer(halves[k].face, data);
      SetFace(k, face);
      size := n;
    }

    /** cbuffer_read_peek of the first node. */
    method FirstBytes(k: nat) returns (data: seq<Byte>)
      requires k < |halves| && halves[k].first != null && Settled(halves[k].first)
      ensures if data == [] then halves[k].first in held && held[halves[k].first] == [] else Valid()
      ensures |data| == Together(k) <= |Pending(k)| && data == Pending(k)[..|data|]
    {
      hide Shape, Follows, Owned, Layout.Valid, Bytes, CBuffer.Ring, Rotated;
      EndsIn(layout, free, halves);
      var x := halves[k].first;
      var base, n := x.cb.ReadPeek();
      data := x.cb.buff[base..base + n];
      DrainedBytes(layout, free, halves, k, held, n);
    }

    /** One turn of charbuffer_poll on a node with bytes in it (charpipe.c:371-381). */
    method OfferNode(k: nat, data: seq<Byte>) returns (stop: bool)
      requires Valid() && k < |halves| && halves[k].first != null
      requires 0 < |data| == Together(k) <= |Pending(k)| && data == Pending(k)[..|data|]
      modifies this`held, this`halves, repr
      ensures |halves| == |old(halves)| && repr == old(repr) && nodes == old(nodes) && layout == old(layout)
      ensures if stop then Valid() else Settled(halves[k].first)
      ensures halves == old(halves)[k := old(halves[k]).(face := halves[k].face)]
      ensures Line(halves[k].face, Pending(k), stop) == OfferOnce(old(LineOf(k)), |data|)
      ensures !stop ==> |Pending(k)| < |old(Pending(k))|
      ensures forall j: nat | j != k :: Pending(j) == old(Pending(j))
    {
      hide Linked, Pending, Nodes, Offer;
      var size := OfferTo(k, data);
      if size > 0 {
        var taken := Deliver(k, size);
      }
      return size < |data|;
    }

    /** charbuffer_poll (charpipe.c:345-383); parts tells how many bytes were offered at each turn. */
    method BufferPoll(k: nat) returns (ghost parts: seq<nat>)
      requires Valid() && k < |halves|
      modifies this`held, this`layout, this`free, this`halves, repr
      ensures Valid() && |halves| == |old(halves)| && repr == old(repr) && nodes == old(nodes)
      ensures LineOf(k) == BufferPolled(old(LineOf(k)), parts)
      ensures old(halves[k].face.open) ==> FitsOffer(old(LineOf(k)), parts)
      ensures old(halves[k].face.open) ==> Pending(k) == [] || OfferLine(old(LineOf(k)), parts).stopped
      ensures forall j: nat | j != k && j < |halves| :: LineOf(j) == old(LineOf(j))
    {
      hide Settled, Pending, Nodes, OfferOnce;
      parts := [];
      ghost var start := LineOf(k);
      if !halves[k].face.open {
        return;
      }
      Loosen(k);
      while halves[k].first != null
        invariant |halves| == |old(halves)| && repr == old(repr) && nodes == old(nodes) && Settled(halves[k].first)
        invariant halves == old(halves)[k := halves[k]]
        invariant forall j: nat | j != k :: Pending(j) == old(Pending(j))
        invariant FitsOffer(start, parts) && LineOf(k) == OfferLine(start, parts)
        decreases |Nodes(k)|, |Pending(k)|
      {
        var data := FirstBytes(k);
        if data == [] {
          DiscardEmpty(k);
          Loosen(k);
          continue;
        }
        var stop := OfferNode(k, data);
        OfferMore(start, parts, |data|);
        parts := parts + [|data|];
        if stop {
          OfferConserves(start, parts);
          return;
        }
      }
      OfferConserves(start, parts);
      EmptyChain(k);
    }

    /** charpipehalf_close (charpipe.c:80-92). */
    method Close(k: nat)
      requires Valid() && k < |halves|
      modifies this`layout, this`free, this`halves, repr
      ensures Valid() && |halves| == |old(halves)| && repr == old(repr) && nodes == old(nodes)
      ensures LineOf(k) == Line(old(halves[k].face).(open := false), [], false)
      ensures forall j: nat | j != k && j < |halves| :: LineOf(j) == old(LineOf(j))
    {
      hide Settled, Nodes, Bytes;
      while halves[k].first != null
        invariant Valid() && |halves| == |old(halves)| && repr == old(repr) && held == old(held) && nodes == old(nodes)
        invariant halves == old(halves)[k := halves[k]] && halves[k].face == old(halves[k].face)
        invariant forall j: nat | j != k :: Nodes(j) == old(Nodes(j))
        decreases |Nodes(k)|
      {
        Loosen(k);
        Discard(k);
      }
      EmptyChain(k);
      Reface(k, halves[k].face.(open := false));
    }

    method Reface(k: nat, face: Face)
      requires Valid() && k < |halves|
      modifies this`halves
      ensures Valid() && halves == old(halves)[k := old(halves[k]).(face := face)]
    {
      hide Linked;
      SetFace(k, face);
    }

    /** qemu_chr_add_handlers on this half or on its peer. */
    method AddHandlers(k: nat, reader: bool, ownLimit: bool, peerLimit: bool)
      requires Valid() && k < |halves|
      modifies this`halves
      ensures Valid()
      ensures var face := old(halves[k].face).(reader := reader, ownLimit := ownLimit, peerLimit := peerLimit);
        halves == old(halves)[k := old(halves[k]).(face := face)]
    {
      hide Settled;
      Reface(k, halves[k].face.(reader := reader, ownLimit := ownLimit, peerLimit := peerLimit));
    }

    /** charpipehalf_init (charpipe.c:203-217): what is in the chain is forgotten, not freed, so that every
        node is still in a list if and only if the chain was empty. */
    method Init(k: nat)
      requires Valid() && k < |halves|
      modifies this`halves, this`layout
      ensures Linked() && halves == old(halves)[k := Half(null, null, old(halves[k].face).(open := true))]
      ensures Nodes(k) == [] && forall j: nat | j != k :: Nodes(j) == old(Nodes(j))
      ensures layout.at.Keys == nodes - Members(old(Nodes(k)))
      ensures Valid() <==> old(Pending(k)) == []
      ensures layout.at.Keys == nodes <==> old(Pending(k)) == []
    {
      EmptyChain(k);
      Forget(k);
    }

    method Forget(k: nat)
      requires Settled(null) && k < |halves|
      modifies this`halves, this`layout
      ensures Linked() && halves == old(halves)[k := Half(null, null, old(halves[k].face).(open := true))]
      ensures Nodes(k) == [] && forall j: nat | j != k :: Nodes(j) == old(Nodes(j))
      ensures layout.at.Keys == nodes - Members(old(Nodes(k))) && Tight(null)
      ensures layout.at.Keys == nodes <==> old(Nodes(k)) == []
    {
      hide Shape, Follows, Holds, Owned, InMemory, Layout.Valid;
      EndsIn(layout, free, halves);
      ForgetEnds(layout, free, halves, k);
      ForgetFollows(layout, k + 1);
      halves := halves[k := Half(null, null, halves[k].face.(open := true))];
      layout := layout.Forget(k + 1);
    }
  }

  // ----- whole runs -----

  datatype Op =
    | WriteOp(k: nat, data: seq<Byte>) | PollOp(k: nat) | CloseOp(k: nat)
    | BufferWriteOp(k: nat, data: seq<Byte>) | BufferPollOp(k: nat)

  function WrittenBy(op: Op, k: nat): seq<Byte> {
    if (op.WriteOp? || op.BufferWriteOp?) && op.k == k then op.data else []
  }

  /** All bytes written to half k. */
  function AllWritten(ops: seq<Op>, k: nat): seq<Byte> {
    if ops == [] then [] else AllWritten(ops[..|ops| - 1], k) + WrittenBy(ops[|ops| - 1], k)
  }

  /** The peer is never given more than it has room for, and will not be. */
  predicate Flowing(f: Face) {
    Respected(f) && (f.ownLimit || !f.peerLimit)
  }

  /** What one operation does to the half it is for. */
  ghost predicate Moved(op: Op, s: Line, t: Line) {
    match op
    case WriteOp(_, data) => t == Written(s, data)
    case PollOp(_) => exists parts :: t == Polled(s, parts)
    case CloseOp(_) => t == Line(s.face.(open := false), [], false)
    case BufferWriteOp(_, data) => t == BufferWritten(s, data)
    case BufferPollOp(_) => exists parts :: t == BufferPolled(s, parts)
  }

  lemma MovedKeeps(op: Op, s: Line, t: Line)
    requires Moved(op, s, t) && !s.stopped
    ensures !op.CloseOp? ==> Total(t) == Total(s) + WrittenBy(op, op.k)
    ensures Flowing(s.face) ==> Flowing(t.face)
  {
    hide Paced, PollLine, OfferLine, Bypass;
    match op
    case WriteOp(_, data) =>
      BypassDelivers(s.face, data);
      Sent(s, data, Bypass(s.face, data).1);
      if Flowing(s.face) {
        BypassPaced(s.face, data);
      }
    case PollOp(_) =>
      var parts :| t == Polled(s, parts);
      PollConserves(s, parts);
      assert Total(s) + [] == Total(s);
      if Flowing(s.face) {
        PollPaced(s, parts);
      }
    case CloseOp(_) =>
    case BufferWriteOp(_, data) =>
      Sent(s, data, Offer(s.face, data).1);
      if Flowing(s.face) && s.face.peerLimit {
        OfferPaced(s.face.log, |data|, Offer(s.face, data).1);
      }
    case BufferPollOp(_) =>
      var parts :| t == BufferPolled(s, parts);
      OfferConserves(s, parts);
      assert Total(s) + [] == Total(s);
      if Flowing(s.face) {
        OfferAllPaced(s, parts);
      }
  }

  lemma Sent(s: Line, data: seq<Byte>, n: nat)
    requires n <= |data|
    ensures s.waiting == [] ==> s.face.delivered + data[..n] + data[n..] == Total(s) + data
    ensures s.face.delivered + (s.waiting + data) == Total(s) + data
  {
  }

  method Apply(p: Pipes, op: Op)
    requires p.Valid() && op.k < |p.halves|
    modifies p, p.repr
    ensures p.Valid() && |p.halves| == |old(p.halves)| && fresh(p.repr - old(p.repr))
    ensures fresh(p.nodes - old(p.nodes)) && old(p.nodes) <= p.nodes
    ensures Moved(op, old(p.LineOf(op.k)), p.LineOf(op.k))
    ensures forall j: nat | j != op.k && j < |p.halves| :: p.LineOf(j) == old(p.LineOf(j))
  {
    hide Pipes.Settled, Pipes.Pending, Written, Polled, BufferWritten, BufferPolled;
    match op
    case WriteOp(k, data) => var _ := p.Write(k, data);
    case PollOp(k) => ghost var parts := p.Poll(k);
    case CloseOp(k) => p.Close(k);
    case BufferWriteOp(k, data) => var _ := p.BufferWrite(k, data);
    case BufferPollOp(k) => ghost var parts := p.BufferPoll(k);
  }

  /** Over every run: a half that is not closed is a FIFO, what its peer got and what waits being all that
      was written to it, in order; every node ever allocated is in exactly one list; and no peer is given
      more than it has room for, if this half has chr_can_read or the peer has none. */
  method Drive(p: Pipes, ops: seq<Op>)
    requires p.Valid() && forall op | op in ops :: op.k < |p.halves|
    modifies p, p.repr
    ensures p.Valid() && |p.halves| == |old(p.halves)|
    ensures p.layout.at.Keys == p.nodes && old(p.nodes) <= p.nodes && fresh(p.nodes - old(p.nodes))
    ensures forall k: nat | k < |p.halves| && CloseOp(k) !in ops ::
      Total(p.LineOf(k)) == old(Total(p.LineOf(k))) + AllWritten(ops, k)
    ensures forall k: nat | k < |p.halves| && old(Flowing(p.LineOf(k).face)) :: Flowing(p.LineOf(k).face)
  {
    hide Pipes.Linked, Pipes.Pending, WrittenBy, Flowing, Total, Moved;
    for n := 0 to |ops|
      invariant p.Valid() && |p.halves| == |old(p.halves)| && fresh(p.repr - old(p.repr))
      invariant old(p.nodes) <= p.nodes && fresh(p.nodes - old(p.nodes))
      invariant forall k: nat | k < |p.halves| && CloseOp(k) !in ops ::
        Total(p.LineOf(k)) == old(Total(p.LineOf(k))) + AllWritten(ops[..n], k)
      invariant forall k: nat | k < |p.halves| && old(Flowing(p.LineOf(k).face)) :: Flowing(p.LineOf(k).face)
    {
      ghost var op := ops[n];
      ghost var s := p.LineOf(op.k);
      assert op in ops;
      assert ops[..n + 1][..n] == ops[..n];
      Apply(p, ops[n]);
      MovedKeeps(op, s, p.LineOf(op.k));
      OneMore(ops, n);
    }
    assert ops[..|ops|] == ops;
  }

  lemma OneMore(ops: seq<Op>, n: nat)
    requires n < |ops|
    ensures forall k: nat :: AllWritten(ops[..n + 1], k) == AllWritten(ops[..n], k) + WrittenBy(ops[n], k)
    ensures forall k: nat | k != ops[n].k :: WrittenBy(ops[n], k) == []
  {
    assert ops[..n + 1][..n] == ops[..n];
  }

  // ----- what goes wrong -----

  /** chr_can_read at the peer only: it has no room, and a poll gives it a byte all the same. */
  method OverrunPeer(p: Pipes, k: nat)
    requires p.Valid() && k < |p.halves|
    requires p.LineOf(k) == Opened(false, true, [])
    modifies p, p.repr
    ensures p.Valid() && |p.halves| == |old(p.halves)| && !Respected(p.halves[k].face)
  {
    hide Pipes.Settled, Pipes.Pending, Written, PollLine, Respected;
    var _ := p.Write(k, [7]);
    SendUnwanted();
    ghost var parts := p.Poll(k);
    OverrunTurns(parts);
  }

  /** chr_can_read at this half only: what was written before the peer began to read stays where it is. */
  method StallHalf(p: Pipes, k: nat)
    requires p.Valid() && k < |p.halves|
    requires p.LineOf(k) == Line(Face(true, false, false, false, [], [], []), [], false)
    modifies p, p.repr
    ensures p.Valid() && |p.halves| == |old(p.halves)|
    ensures p.LineOf(k) == Line(Face(true, true, true, false, [], [], []), [7], false)
  {
    hide Pipes.Settled, Pipes.Pending, PollLine;
    var _ := p.Write(k, [7]);
    assert [] + [7] == [7];
    p.AddHandlers(k, true, true, false);
    ghost var s := p.LineOf(k);
    ghost var parts := p.Poll(k);
    Stalled(s, parts);
  }

  /** A half that is closed, written to and opened again: the nodes that took the data are in no list. */
  method LoseNodes(p: Pipes, k: nat, data: seq<Byte>)
    requires p.Valid() && k < |p.halves| && data != []
    modifies p, p.repr
    ensures p.Linked() && p.layout.at.Keys < p.nodes
  {
    hide Pipes.Linked, Pipes.Pending;
    p.Close(k);
    var _ := p.Write(k, data);
    assert [] + data == data;
    p.Init(k);
  }
}
