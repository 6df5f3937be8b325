/** The 512-byte nodes of qemu/charpipe.c (35-76), where they are and what they hold. */
module BipChains {
  import opened Octets
  import opened Numbers
  import opened CircularBuffer
  import opened CharTalk

  const BIP_BUFFER_SIZE := 512

  class Bip {
    var next: Bip?
    const cb: CBuffer

    constructor ()
      ensures fresh(cb) && fresh(cb.buff) && cb.Valid() && cb.buff.Length == BIP_BUFFER_SIZE
    {
      next := null;
      cb := new CBuffer(BIP_BUFFER_SIZE);
    }
  }

  // ----- where the nodes are -----

  /** The nodes of a list; base counts the nodes ever taken from its head, less those put there. */
  datatype Chain = Chain(nodes: seq<Bip>, base: int)

  datatype Place = Place(list: int, rank: int)

  /** List 0 is the free list, list k + 1 the chain of half k; at says where each node is. */
  datatype Layout = Layout(lists: seq<Chain>, at: map<Bip, Place>) {
    /** Node and place determine each other, so a node is in one list, once. */
    ghost predicate Valid() {
      && (forall k, i | 0 <= k < |lists| && 0 <= i < |lists[k].nodes| ::
            lists[k].nodes[i] in at && at[lists[k].nodes[i]] == Place(k, lists[k].base + i))
      && (forall x | x in at :: Located(x))
    }

    ghost predicate Located(x: Bip)
      requires x in at
    {
      var Place(k, r) := at[x];
      0 <= k < |lists| && 0 <= r - lists[k].base < |lists[k].nodes| && lists[k].nodes[r - lists[k].base] == x
    }

    ghost function Next(x: Bip): Bip?
      requires x in at && Located(x)
    {
      var Place(k, r) := at[x];
      var i := r - lists[k].base + 1;
      if i < |lists[k].nodes| then lists[k].nodes[i] else null
    }

    /** A node put at the end of list k. */
    ghost function Push(k: nat, x: Bip): Layout
      requires k < |lists|
    {
      var c := lists[k];
      Layout(lists[k := c.(nodes := c.nodes + [x])], at[x := Place(k, c.base + |c.nodes|)])
    }

    /** A node put at the head of the free list. */
    ghost function Return(x: Bip): Layout
      requires |lists| > 0
    {
      var c := lists[0];
      Layout(lists[0 := Chain([x] + c.nodes, c.base - 1)], at[x := Place(0, c.base - 1)])
    }

    /** List k with nothing in it, and its nodes nowhere. */
    ghost function Forget(k: nat): Layout
      requires k < |lists|
    {
      Layout(lists[k := Chain([], 0)], map x | x in at && at[x].list != k :: at[x])
    }

    /** The node at the head of list k taken away. */
    ghost function Pop(k: nat): Layout
      requires k < |lists| && lists[k].nodes != []
    {
      var c := lists[k];
      Layout(lists[k := Chain(c.nodes[1..], c.base + 1)], at - {c.nodes[0]})
    }
  }

  /** A node is in one list, once, and every node that has a place is there. */
  lemma OnePlace(l: Layout)
    requires l.Valid()
    ensures forall k, i, m, j | 0 <= k < |l.lists| && 0 <= i < |l.lists[k].nodes| && 0 <= m < |l.lists|
      && 0 <= j < |l.lists[m].nodes| && l.lists[k].nodes[i] == l.lists[m].nodes[j] :: k == m && i == j
    ensures forall x | x in l.at :: exists k | 0 <= k < |l.lists| :: x in l.lists[k].nodes
  {
    forall x | x in l.at
      ensures exists k | 0 <= k < |l.lists| :: x in l.lists[k].nodes
    {
      assert l.Located(x);
      assert x in l.lists[l.at[x].list].nodes;
    }
  }

  ghost function Members(nodes: seq<Bip>): set<Bip> {
    set x | x in nodes
  }

  function Head(nodes: seq<Bip>): Bip? {
    if nodes == [] then null else nodes[0]
  }

  function Last(nodes: seq<Bip>): Bip? {
    if nodes == [] then null else nodes[|nodes| - 1]
  }

  lemma PushValid(l: Layout, k: nat, x: Bip)
    requires l.Valid() && k < |l.lists| && x !in l.at
    ensures l.Push(k, x).Valid()
  {
    var m, c := l.Push(k, x), l.lists[k];
    forall j, i | 0 <= j < |m.lists| && 0 <= i < |m.lists[j].nodes|
      ensures m.lists[j].nodes[i] in m.at && m.at[m.lists[j].nodes[i]] == Place(j, m.lists[j].base + i)
    {
      if j != k || i < |c.nodes| {
        assert m.lists[j].nodes[i] == l.lists[j].nodes[i];
      }
    }
    forall y | y in m.at
      ensures m.Located(y)
    {
      if y != x {
        assert l.Located(y);
      }
    }
  }

  lemma PushNext(l: Layout, k: nat, x: Bip, y: Bip)
    requires k < |l.lists| && x !in l.at && y in l.at && l.Located(y)
    requires forall i | 0 <= i < |l.lists[k].nodes| ::
      l.lists[k].nodes[i] in l.at && l.at[l.lists[k].nodes[i]] == Place(k, l.lists[k].base + i)
    ensures l.Push(k, x).Located(y)
    ensures l.Push(k, x).Next(y) == (if y == Last(l.lists[k].nodes) then x else l.Next(y))
  {
  }

  lemma ReturnValid(l: Layout, x: Bip)
    requires l.Valid() && |l.lists| > 0 && x !in l.at
    ensures l.Return(x).Valid()
  {
    var m, c := l.Return(x), l.lists[0];
    forall k, i | 0 <= k < |m.lists| && 0 <= i < |m.lists[k].nodes|
      ensures m.lists[k].nodes[i] in m.at && m.at[m.lists[k].nodes[i]] == Place(k, m.lists[k].base + i)
    {
      if k == 0 && i > 0 {
        assert m.lists[0].nodes[i] == c.nodes[i - 1];
      }
    }
    forall y | y in m.at
      ensures m.Located(y)
    {
      if y != x {
        assert l.Located(y);
        var r := l.at[y].rank;
        if l.at[y].list == 0 {
          assert m.lists[0].nodes[r - c.base + 1] == c.nodes[r - c.base];
        }
      }
    }
  }

  lemma ReturnNext(l: Layout, x: Bip, y: Bip)
    requires |l.lists| > 0 && x !in l.at && y in l.at && l.Located(y)
    ensures l.Return(x).Located(y) && l.Return(x).Next(y) == l.Next(y)
  {
  }

  lemma ReturnFirst(l: Layout, x: Bip)
    requires |l.lists| > 0
    ensures l.Return(x).Located(x) && l.Return(x).Next(x) == Head(l.lists[0].nodes)
  {
  }

  lemma PopValid(l: Layout, k: nat)
    requires l.Valid() && k < |l.lists| && l.lists[k].nodes != []
    ensures l.Pop(k).Valid()
  {
    var m, c := l.Pop(k), l.lists[k];
    forall j, i | 0 <= j < |m.lists| && 0 <= i < |m.lists[j].nodes|
      ensures m.lists[j].nodes[i] in m.at && m.at[m.lists[j].nodes[i]] == Place(j, m.lists[j].base + i)
    {
      if j == k {
        assert m.lists[j].nodes[i] == c.nodes[i + 1];
      } else {
        assert m.lists[j].nodes[i] == l.lists[j].nodes[i];
      }
    }
    forall y | y in m.at
      ensures m.Located(y)
    {
      assert l.Located(y);
    }
  }

  lemma PopNext(l: Layout, k: nat, y: Bip)
    requires k < |l.lists| && l.lists[k].nodes != [] && y in l.at && l.Located(y) && y != l.lists[k].nodes[0]
    ensures l.Pop(k).Located(y) && l.Pop(k).Next(y) == l.Next(y)
  {
  }

  lemma ForgetValid(l: Layout, k: nat)
    requires l.Valid() && k < |l.lists|
    ensures l.Forget(k).Valid()
    ensures l.Forget(k).at.Keys == l.at.Keys - Members(l.lists[k].nodes)
    ensures l.Forget(k).at.Keys == l.at.Keys <==> l.lists[k].nodes == []
  {
    var m := l.Forget(k);
    forall y | y in m.at
      ensures m.Located(y)
    {
      assert l.Located(y);
    }
    forall y | y in l.at && y !in m.at
      ensures y in l.lists[k].nodes
    {
      assert l.Located(y);
    }
    if l.lists[k].nodes != [] {
      assert l.lists[k].nodes[0] in l.at.Keys && l.lists[k].nodes[0] !in m.at.Keys;
    }
  }

  lemma ForgetNext(l: Layout, k: nat, y: Bip)
    requires k < |l.lists| && y in l.at && l.at[y].list != k && l.Located(y)
    ensures l.Forget(k).Located(y) && l.Forget(k).Next(y) == l.Next(y)
  {
  }

  // ----- the pipes -----

  /** One half of a pipe: its chain, and its dealings with the device behind it. */
  datatype Half = Half(first: Bip?, last: Bip?, face: Face)

  /** All that the heads of lists, and nothing in the nodes, tell. */
  ghost predicate Shape(l: Layout, free: Bip?, halves: seq<Half>) {
    && l.Valid() && |l.lists| == |halves| + 1
    && free == Head(l.lists[0].nodes)
    && (forall k | 0 <= k < |halves| :: Ends(halves[k], l.lists[k + 1].nodes))
  }

  ghost predicate Ends(h: Half, nodes: seq<Bip>) {
    h.first == Head(nodes) && h.last == Last(nodes)
  }

  /** The buffer of a node, and its memory, belong to no other. */
  ghost predicate Owned(x: Bip, owner: map<object, Bip>) {
    && x.cb in owner && owner[x.cb] == x && x.cb.buff in owner && owner[x.cb.buff] == x
  }

  ghost predicate Holds(x: Bip, data: seq<Byte>)
    reads x.cb, x.cb.buff
  {
    x.cb.Valid() && x.cb.Contents() == data
  }

  /** The next node, or none, as the layout has it. */
  ghost predicate Follows(l: Layout, x: Bip, next: Bip?) {
    x in l.at && l.Located(x) && next == l.Next(x)
  }

  /** Giving a node back keeps every other node where it is. */
  lemma ReturnEnds(l: Layout, free: Bip?, halves: seq<Half>, x: Bip)
    requires Shape(l, free, halves) && x !in l.at
    ensures |l.lists| > 0 && Shape(l.Return(x), x, halves) && l.Return(x).at.Keys == l.at.Keys + {x}
  {
    hide Layout.Valid;
    ReturnValid(l, x);
  }

  lemma ReturnFollows(l: Layout, free: Bip?, halves: seq<Half>, x: Bip)
    requires Shape(l, free, halves) && x !in l.at
    ensures |l.lists| > 0 && Follows(l.Return(x), x, free)
    ensures forall y, n | Follows(l, y, n) :: Follows(l.Return(x), y, n)
  {
    hide Layout.Valid, Layout.Next;
    ReturnFirst(l, x);
    forall y | y in l.at && l.Located(y)
      ensures l.Return(x).Located(y) && l.Return(x).Next(y) == l.Next(y)
    {
      ReturnNext(l, x, y);
    }
  }

  /** Taking the first free node moves no other. */
  lemma TakeEnds(l: Layout, free: Bip, halves: seq<Half>, next: Bip?)
    requires Shape(l, free, halves) && Follows(l, free, next)
    ensures |l.lists| > 0 && l.lists[0].nodes != [] && l.lists[0].nodes[0] == free
    ensures Shape(l.Pop(0), next, halves) && l.Pop(0).at.Keys == l.at.Keys - {free}
  {
    hide Layout.Valid, Layout.Next, Layout.Located;
    PopValid(l, 0);
    FollowsHead(l, 0, next);
  }

  lemma FollowsHead(l: Layout, k: nat, next: Bip?)
    requires l.Valid() && k < |l.lists| && l.lists[k].nodes != [] && Follows(l, l.lists[k].nodes[0], next)
    ensures next == Head(l.lists[k].nodes[1..])
    ensures next == null <==> |l.lists[k].nodes| == 1
  {
  }

  lemma PopFollows(l: Layout, k: nat)
    requires k < |l.lists| && l.lists[k].nodes != []
    ensures forall y, n | Follows(l, y, n) && y != l.lists[k].nodes[0] :: Follows(l.Pop(k), y, n)
  {
    hide Layout.Next;
    forall y | y in l.at && l.Located(y) && y != l.lists[k].nodes[0]
      ensures l.Pop(k).Located(y) && l.Pop(k).Next(y) == l.Next(y)
    {
      PopNext(l, k, y);
    }
  }

  /** The nodes at the ends of lists are in them. */
  lemma EndsIn(l: Layout, free: Bip?, halves: seq<Half>)
    requires Shape(l, free, halves)
    ensures |l.lists| == |halves| + 1
    ensures free != null ==> free in l.at
    ensures forall k | 0 <= k < |halves| ::
      && (halves[k].first == null <==> halves[k].last == null)
      && (halves[k].first != null ==> halves[k].first in l.at && halves[k].last in l.at)
  {
    forall k | 0 <= k < |halves|
      ensures (halves[k].first == null <==> halves[k].last == null)
      ensures halves[k].first != null ==> halves[k].first in l.at && halves[k].last in l.at
    {
      assert Ends(halves[k], l.lists[k + 1].nodes);
    }
  }

  /** Half k after a node has been added at the end of its chain. */
  function Longer(h: Half, x: Bip): Half {
    h.(first := if h.first == null then x else h.first, last := x)
  }

  lemma PushEnds(l: Layout, free: Bip?, halves: seq<Half>, k: nat, x: Bip)
    requires Shape(l, free, halves) && k < |halves| && x !in l.at
    ensures |l.lists| == |halves| + 1
    ensures Shape(l.Push(k + 1, x), free, halves[k := Longer(halves[k], x)])
    ensures l.Push(k + 1, x).at.Keys == l.at.Keys + {x}
  {
    hide Layout.Valid;
    PushValid(l, k + 1, x);
    assert Ends(halves[k], l.lists[k + 1].nodes);
  }

  lemma PushFollows(l: Layout, free: Bip?, halves: seq<Half>, k: nat, x: Bip)
    requires Shape(l, free, halves) && k < |halves| && x !in l.at
    ensures Follows(l.Push(k + 1, x), x, null)
    ensures var last := halves[k].last; last != null ==> last in l.at && Follows(l.Push(k + 1, x), last, x)
    ensures forall y, n | Follows(l, y, n) && y != halves[k].last :: Follows(l.Push(k + 1, x), y, n)
  {
    hide Layout.Next;
    assert Ends(halves[k], l.lists[k + 1].nodes);
    forall y | y in l.at
      ensures l.Push(k + 1, x).Located(y)
      ensures l.Push(k + 1, x).Next(y) == (if y == halves[k].last then x else l.Next(y))
    {
      PushNext(l, k + 1, x, y);
    }
    PushLast(l, k + 1, x);
  }

  lemma PushLast(l: Layout, k: nat, x: Bip)
    requires k < |l.lists|
    ensures l.Push(k, x).Located(x) && l.Push(k, x).Next(x) == null
  {
  }

  /** Half k after the first node of its chain has been taken away. */
  function Shorter(h: Half, next: Bip?): Half {
    h.(first := next, last := if next == null then null else h.last)
  }

  lemma PopEnds(l: Layout, free: Bip?, halves: seq<Half>, k: nat, x: Bip, next: Bip?)
    requires Shape(l, free, halves) && k < |halves| && halves[k].first == x && Follows(l, x, next)
    ensures |l.lists| == |halves| + 1 && l.lists[k + 1].nodes != [] && l.lists[k + 1].nodes[0] == x
    ensures Shape(l.Pop(k + 1), free, halves[k := Shorter(halves[k], next)])
    ensures l.Pop(k + 1).at.Keys == l.at.Keys - {x}
  {
    hide Layout.Valid, Layout.Next, Layout.Located;
    assert Ends(halves[k], l.lists[k + 1].nodes);
    PopValid(l, k + 1);
    FollowsHead(l, k + 1, next);
  }

  lemma ForgetEnds(l: Layout, free: Bip?, halves: seq<Half>, k: nat)
    requires Shape(l, free, halves) && k < |halves|
    ensures |l.lists| == |halves| + 1
    ensures forall face :: Shape(l.Forget(k + 1), free, halves[k := Half(null, null, face)])
    ensures var m := l.Forget(k + 1);
      && |m.lists| == |l.lists| && m.lists[k + 1].nodes == []
      && (forall j | 0 <= j < |l.lists| && j != k + 1 :: m.lists[j] == l.lists[j])
      && m.at.Keys == l.at.Keys - Members(l.lists[k + 1].nodes)
      && (m.at.Keys == l.at.Keys <==> l.lists[k + 1].nodes == [])
  {
    hide Layout.Valid;
    ForgetValid(l, k + 1);
  }

  lemma ForgetFollows(l: Layout, k: nat)
    requires k < |l.lists|
    ensures forall y, n | y in l.Forget(k).at && Follows(l, y, n) :: Follows(l.Forget(k), y, n)
  {
    hide Layout.Next;
    forall y | y in l.Forget(k).at && l.Located(y)
      ensures l.Forget(k).Located(y) && l.Forget(k).Next(y) == l.Next(y)
    {
      ForgetNext(l, k, y);
    }
  }

  ghost predicate InMemory(x: Bip, repr: set<object>) {
    x in repr && x.cb in repr && x.cb.buff in repr && x.cb.buff.Length == BIP_BUFFER_SIZE
  }

  lemma OwnedApart(x: Bip, y: Bip, owner: map<object, Bip>)
    requires Owned(x, owner) && Owned(y, owner) && x != y
    ensures x.cb != y.cb && x.cb.buff != y.cb.buff
  {
  }

  lemma OwnerGrows(y: Bip, owner: map<object, Bip>, x: Bip)
    requires Owned(y, owner) && y.cb != x.cb && y.cb.buff != x.cb.buff
    ensures Owned(y, owner[x.cb := x][x.cb.buff := x])
  {
  }

  lemma OwnerNew(owner: map<object, Bip>, x: Bip)
    ensures Owned(x, owner[x.cb := x][x.cb.buff := x])
  {
  }

  // ----- the bytes in a chain -----

  ghost function Bytes(nodes: seq<Bip>, held: map<Bip, seq<Byte>>): seq<Byte> {
    if nodes == [] then []
    else
      var x := nodes[|nodes| - 1];
      Bytes(nodes[..|nodes| - 1], held) + (if x in held then held[x] else [])
  }

  lemma {:induction false} BytesSame(nodes: seq<Bip>, held: map<Bip, seq<Byte>>, x: Bip, data: seq<Byte>)
    requires x !in nodes
    ensures Bytes(nodes, held[x := data]) == Bytes(nodes, held)
    decreases |nodes|
  {
    if nodes != [] {
      BytesSame(nodes[..|nodes| - 1], held, x, data);
      assert nodes[|nodes| - 1] in nodes;
    }
  }

  lemma BytesLast(nodes: seq<Bip>, held: map<Bip, seq<Byte>>, x: Bip)
    ensures Bytes(nodes + [x], held) == Bytes(nodes, held) + (if x in held then held[x] else [])
  {
    assert (nodes + [x])[..|nodes|] == nodes;
  }

  lemma {:induction false} BytesFirst(nodes: seq<Bip>, held: map<Bip, seq<Byte>>)
    requires nodes != [] && nodes[0] in held
    ensures Bytes(nodes, held) == held[nodes[0]] + Bytes(nodes[1..], held)
    decreases |nodes|
  {
    hide Bytes;
    var n := |nodes| - 1;
    NoBytes(held);
    if n == 0 {
      BytesLast([], held, nodes[0]);
      assert nodes == [] + [nodes[0]] && nodes[1..] == [];
    } else {
      var x := nodes[n];
      BytesFirst(nodes[..n], held);
      assert nodes == nodes[..n] + [x] && nodes[1..] == nodes[..n][1..] + [x];
      BytesLast(nodes[..n], held, x);
      BytesLast(nodes[..n][1..], held, x);
    }
  }

  /** Changing what the last node of a list holds. */
  lemma BytesAtEnd(l: Layout, k: nat, held: map<Bip, seq<Byte>>, x: Bip, data: seq<Byte>)
    requires l.Valid() && k < |l.lists| && Last(l.lists[k].nodes) == x && x in held
    ensures Bytes(l.lists[k].nodes, held[x := held[x] + data]) == Bytes(l.lists[k].nodes, held) + data
    ensures forall j: nat | j < |l.lists| && j != k ::
      Bytes(l.lists[j].nodes, held[x := held[x] + data]) == Bytes(l.lists[j].nodes, held)
  {
    var nodes := l.lists[k].nodes;
    var n := |nodes| - 1;
    assert l.at[nodes[n]] == Place(k, l.lists[k].base + n);
    BytesSame(nodes[..n], held, x, held[x] + data);
    BytesElsewhere(l, k, held, x, held[x] + data);
    assert Bytes(nodes[..n], held) + (held[x] + data) == Bytes(nodes[..n], held) + held[x] + data;
  }

  lemma BytesElsewhere(l: Layout, k: nat, held: map<Bip, seq<Byte>>, x: Bip, data: seq<Byte>)
    requires l.Valid() && (x in l.at ==> l.at[x].list == k)
    ensures forall j: nat | j < |l.lists| && j != k ::
      Bytes(l.lists[j].nodes, held[x := data]) == Bytes(l.lists[j].nodes, held)
  {
    forall j: nat | j < |l.lists| && j != k
      ensures Bytes(l.lists[j].nodes, held[x := data]) == Bytes(l.lists[j].nodes, held)
    {
      BytesSame(l.lists[j].nodes, held, x, data);
    }
  }

  lemma BytesDetached(l: Layout, held: map<Bip, seq<Byte>>, x: Bip, data: seq<Byte>)
    requires l.Valid() && x !in l.at
    ensures forall j: nat | j < |l.lists| :: Bytes(l.lists[j].nodes, held[x := data]) == Bytes(l.lists[j].nodes, held)
  {
    BytesElsewhere(l, |l.lists|, held, x, data);
  }

  /** Changing what the first node of a list holds. */
  lemma BytesAtHead(l: Layout, k: nat, held: map<Bip, seq<Byte>>, x: Bip, n: nat)
    requires l.Valid() && k < |l.lists| && Head(l.lists[k].nodes) == x && x in held && n <= |held[x]|
    ensures n <= |Bytes(l.lists[k].nodes, held)|
    ensures held[x][..n] == Bytes(l.lists[k].nodes, held)[..n]
    ensures Bytes(l.lists[k].nodes, held[x := held[x][n..]]) == Bytes(l.lists[k].nodes, held)[n..]
    ensures forall j: nat | j < |l.lists| && j != k ::
      Bytes(l.lists[j].nodes, held[x := held[x][n..]]) == Bytes(l.lists[j].nodes, held)
  {
    var nodes := l.lists[k].nodes;
    assert l.at[nodes[0]] == Place(k, l.lists[k].base);
    forall i | 0 < i < |nodes|
      ensures nodes[i] != x
    {
      assert l.at[nodes[i]] == Place(k, l.lists[k].base + i);
    }
    assert x !in nodes[1..];
    BytesSame(nodes[1..], held, x, held[x][n..]);
    BytesElsewhere(l, k, held, x, held[x][n..]);
    BytesFirst(nodes, held);
    BytesFirst(nodes, held[x := held[x][n..]]);
  }

  /** A new and empty node adds no bytes. */
  lemma AddedBytes(l: Layout, free: Bip?, halves: seq<Half>, k: nat, held: map<Bip, seq<Byte>>, x: Bip)
    requires Shape(l, free, halves) && k < |halves| && x !in l.at
    ensures |l.lists| == |halves| + 1
    ensures var now, nodes := held[x := []], l.lists[k + 1].nodes;
      && l.Push(k + 1, x).lists[k + 1].nodes == nodes + [x]
      && Bytes(nodes + [x], now) == Bytes(nodes, held)
      && Bytes([], now) == Bytes([], held) == []
    ensures forall j: nat | j < |l.lists| :: Bytes(l.lists[j].nodes, held[x := []]) == Bytes(l.lists[j].nodes, held)
    ensures l.Push(k + 1, x).at.Keys == l.at.Keys + {x}
  {
    hide Bytes;
    BytesDetached(l, held, x, []);
    BytesLast(l.lists[k + 1].nodes, held[x := []], x);
    NoBytes(held);
    NoBytes(held[x := []]);
  }

  lemma NoBytes(held: map<Bip, seq<Byte>>)
    ensures Bytes([], held) == []
  {
  }

  lemma StoredBytes(l: Layout, free: Bip?, halves: seq<Half>, k: nat, held: map<Bip, seq<Byte>>, data: seq<Byte>)
    requires Shape(l, free, halves) && k < |halves| && halves[k].last != null && halves[k].last in held
    ensures |l.lists| == |halves| + 1
    ensures var x := halves[k].last;
      var now := held[x := held[x] + data];
      && Bytes(l.lists[k + 1].nodes, now) == Bytes(l.lists[k + 1].nodes, held) + data
      && Bytes([], now) == Bytes([], held) == []
      && forall j: nat | j < |l.lists| && j != k + 1 :: Bytes(l.lists[j].nodes, now) == Bytes(l.lists[j].nodes, held)
  {
    hide Bytes, Layout.Valid;
    var x := halves[k].last;
    assert Ends(halves[k], l.lists[k + 1].nodes);
    BytesAtEnd(l, k + 1, held, x, data);
    NoBytes(held);
    NoBytes(held[x := held[x] + data]);
  }

  lemma DrainedBytes(l: Layout, free: Bip?, halves: seq<Half>, k: nat, held: map<Bip, seq<Byte>>, n: nat)
    requires Shape(l, free, halves) && k < |halves| && halves[k].first != null && halves[k].first in held
    requires n <= |held[halves[k].first]|
    ensures |l.lists| == |halves| + 1
    ensures var x, all := halves[k].first, Bytes(l.lists[k + 1].nodes, held);
      var now := held[x := held[x][n..]];
      && n <= |all| && held[x][..n] == all[..n]
      && Bytes(l.lists[k + 1].nodes, now) == all[n..]
      && Bytes([], now) == Bytes([], held) == []
      && forall j: nat | j < |l.lists| && j != k + 1 :: Bytes(l.lists[j].nodes, now) == Bytes(l.lists[j].nodes, held)
  {
    hide Bytes, Layout.Valid;
    var x := halves[k].first;
    assert Ends(halves[k], l.lists[k + 1].nodes);
    BytesAtHead(l, k + 1, held, x, n);
    NoBytes(held);
    NoBytes(held[x := held[x][n..]]);
  }

  lemma Carried(was: seq<Byte>, data: seq<Byte>, n: nat)
    requires n <= |data|
    ensures was + data[..n] + data[n..] == was + data
  {
  }

  lemma HoldsValid(x: Bip, data: seq<Byte>)
    requires Holds(x, data)
    ensures x.cb.Valid()
  {
  }

  /** Bytes leave a node: those that lie together, up to size (charpipe.c:191-193, 198). */
  method TakeOut(x: Bip, ghost all: seq<Byte>, size: nat) returns (data: seq<Byte>)
    requires Holds(x, all)
    modifies x.cb
    ensures |data| <= |all| && data == all[..|data|] && Holds(x, all[|data|..])
    ensures |data| == Min(size, old(x.cb.Ahead())) && old(x.cb.Ahead()) <= |all| && (all != [] ==> old(x.cb.Ahead()) > 0)
  {
    hide CBuffer.Ring, Rotated;
    var base, avail := x.cb.ReadPeek();
    if avail > size {
      avail := size;
    }
    data := x.cb.buff[base..base + avail];
    x.cb.ReadStep(avail);
  }

  /** Bytes enter a node, as many as it has room for (charpipe.c:138). */
  method PutIn(x: Bip, ghost all: seq<Byte>, data: seq<Byte>) returns (n: nat)
    requires Holds(x, all) && x.cb.buff.Length == BIP_BUFFER_SIZE
    modifies x.cb, x.cb.buff
    ensures n <= |data| && n == Min(|data|, BIP_BUFFER_SIZE - |all|) && Holds(x, all + data[..n])
  {
    hide CBuffer.Ring, Rotated;
    n := x.cb.Write(data, |data|);
  }
}
