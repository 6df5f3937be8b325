/** What one half of a pipe, or a buffer, says to the device behind it and what that answers
    (qemu/charpipe.c:106-126, 155-200, 304-316, 345-383). */
module CharTalk {
  import opened Octets
  import opened Numbers

  /** The device was asked for room, was given bytes to read, or was offered bytes and took some. */
  datatype Talk = Asked(room: nat) | Given(bytes: nat) | Offered(bytes: nat, taken: nat)

  /** open: there is a peer; reader: it has chr_read; ownLimit, peerLimit: this half and the peer have
      chr_can_read.  room holds what the peer will answer, then zeros; delivered is what it was given. */
  datatype Face = Face(open: bool, reader: bool, ownLimit: bool, peerLimit: bool, room: seq<nat>,
                       delivered: seq<Byte>, log: seq<Talk>)

  function Answer(f: Face): nat {
    if f.room == [] then 0 else f.room[0]
  }

  function Heard(f: Face, t: Talk): Face {
    f.(room := if f.room == [] then [] else f.room[1..], log := f.log + [t])
  }

  /** qemu_chr_can_read (qemu-char.c:184-189): a device without chr_can_read is not asked, and has no room. */
  function Ask(f: Face): (Face, nat) {
    if f.peerLimit then (Heard(f, Asked(Answer(f))), Answer(f)) else (f, 0)
  }

  /** qemu_chr_read. */
  function Give(f: Face, data: seq<Byte>): Face {
    f.(delivered := f.delivered + data, log := f.log + [Given(|data|)])
  }

  /** The loop of charpipehalf_write that bypasses the chain: the face afterwards and the bytes given. */
  function Bypass(f: Face, data: seq<Byte>): (Face, nat)
    decreases |data|
  {
    if data == [] then (f, 0)
    else if !f.peerLimit then (Give(f, data), |data|)
    else
      var (g, room) := Ask(f);
      if room == 0 then (g, 0)
      else
        var n := Min(room, |data|);
        var (h, more) := Bypass(Give(g, data[..n]), data[n..]);
        (h, n + more)
  }

  lemma BypassNone(f: Face)
    ensures Bypass(f, []) == (f, 0)
  {
  }

  lemma BypassOnce(f: Face, data: seq<Byte>)
    requires data != []
    ensures !f.peerLimit ==> Bypass(f, data) == (Give(f, data[..|data|]), |data|)
    ensures f.peerLimit ==>
      var (g, room) := Ask(f);
      if room == 0 then Bypass(f, data) == (g, 0)
      else
        var n := Min(room, |data|);
        var (h, more) := Bypass(Give(g, data[..n]), data[n..]);
        Bypass(f, data) == (h, n + more)
  {
    hide Ask, Give;
    assert data[..|data|] == data;
  }

  /** A face, the bytes that wait behind it, and whether the device has had enough. */
  datatype Line = Line(face: Face, waiting: seq<Byte>, stopped: bool)

  /** charpipehalf_write: past an empty line straight to a peer that reads, else to the end of the line. */
  function Written(s: Line, data: seq<Byte>): Line {
    if s.waiting == [] && s.face.open && s.face.reader then
      BypassDelivers(s.face, data);
      var (f, n) := Bypass(s.face, data);
      Line(f, data[n..], false)
    else Line(s.face, s.waiting + data, false)
  }

  /** One turn of charpipehalf_poll on a node with t bytes together. */
  function PollOnce(s: Line, t: nat): Line {
    if !s.face.ownLimit then Pass(s, s.face, t)
    else
      var (g, room) := Ask(s.face);
      if room == 0 then Line(g, s.waiting, true) else Pass(s, g, Min(room, t))
  }

  function Pass(s: Line, f: Face, n: nat): Line {
    var m := Min(n, |s.waiting|);
    Line(Give(f, s.waiting[..m]), s.waiting[m..], false)
  }

  /** The loop of charpipehalf_poll: parts says how many bytes lie together at each turn. */
  function PollLine(s: Line, parts: seq<nat>): Line {
    if parts == [] then s
    else
      var before := PollLine(s, parts[..|parts| - 1]);
      if before.stopped then before else PollOnce(before, parts[|parts| - 1])
  }

  lemma PollMore(s: Line, parts: seq<nat>, t: nat)
    requires !PollLine(s, parts).stopped && Fits(s, parts) && 0 < t <= |PollLine(s, parts).waiting|
    ensures PollLine(s, parts + [t]) == PollOnce(PollLine(s, parts), t) && Fits(s, parts + [t])
  {
    hide PollLine;
    PollMoreTurn(s, parts, t);
    forall i | 0 <= i < |parts| + 1
      ensures 0 < (parts + [t])[i] <= |PollLine(s, (parts + [t])[..i]).waiting|
    {
      assert (parts + [t])[..i] == if i < |parts| then parts[..i] else parts;
    }
  }

  lemma PollMoreTurn(s: Line, parts: seq<nat>, t: nat)
    requires !PollLine(s, parts).stopped
    ensures PollLine(s, parts + [t]) == PollOnce(PollLine(s, parts), t)
  {
    hide PollOnce;
    assert (parts + [t])[..|parts|] == parts;
  }

  /** charpipehalf_poll: nothing happens without a peer that reads. */
  function Polled(s: Line, parts: seq<nat>): Line {
    if s.face.open && s.face.reader then PollLine(s, parts).(stopped := false) else s
  }

  /** qemu_chr_write on an endpoint, its result kept within bounds. */
  function Offer(f: Face, data: seq<Byte>): (Face, nat) {
    var n := Min(Answer(f), |data|);
    (Heard(f, Offered(|data|, n)).(delivered := f.delivered + data[..n]), n)
  }

  /** One turn of charbuffer_poll on a node with t bytes together. */
  function OfferOnce(s: Line, t: nat): Line {
    var m := Min(t, |s.waiting|);
    var (f, n) := Offer(s.face, s.waiting[..m]);
    Line(f, s.waiting[n..], n < m)
  }

  function OfferLine(s: Line, parts: seq<nat>): Line {
    if parts == [] then s
    else
      var before := OfferLine(s, parts[..|parts| - 1]);
      if before.stopped then before else OfferOnce(before, parts[|parts| - 1])
  }

  /** Each part is some of the bytes that wait when its turn comes. */
  predicate Fits(s: Line, parts: seq<nat>) {
    forall i | 0 <= i < |parts| :: 0 < parts[i] <= |PollLine(s, parts[..i]).waiting|
  }

  predicate FitsOffer(s: Line, parts: seq<nat>) {
    forall i | 0 <= i < |parts| :: 0 < parts[i] <= |OfferLine(s, parts[..i]).waiting|
  }

  lemma OfferMore(s: Line, parts: seq<nat>, t: nat)
    requires !OfferLine(s, parts).stopped && FitsOffer(s, parts) && 0 < t <= |OfferLine(s, parts).waiting|
    ensures OfferLine(s, parts + [t]) == OfferOnce(OfferLine(s, parts), t) && FitsOffer(s, parts + [t])
  {
    hide OfferLine;
    OfferMoreTurn(s, parts, t);
    forall i | 0 <= i < |parts| + 1
      ensures 0 < (parts + [t])[i] <= |OfferLine(s, (parts + [t])[..i]).waiting|
    {
      assert (parts + [t])[..i] == if i < |parts| then parts[..i] else parts;
    }
  }

  lemma OfferMoreTurn(s: Line, parts: seq<nat>, t: nat)
    requires !OfferLine(s, parts).stopped
    ensures OfferLine(s, parts + [t]) == OfferOnce(OfferLine(s, parts), t)
  {
    hide OfferOnce;
    assert (parts + [t])[..|parts|] == parts;
  }

  /** charbuffer_write: past an empty line to the endpoint, the rest to the end of the line. */
  function BufferWritten(s: Line, data: seq<Byte>): Line {
    if s.waiting == [] && s.face.open then
      var (f, n) := Offer(s.face, data);
      Line(f, data[n..], false)
    else Line(s.face, s.waiting + data, false)
  }

  /** charbuffer_poll: nothing happens without an endpoint. */
  function BufferPolled(s: Line, parts: seq<nat>): Line {
    if s.face.open then OfferLine(s, parts).(stopped := false) else s
  }

  predicate SameSettings(f: Face, g: Face) {
    g.open == f.open && g.reader == f.reader && g.ownLimit == f.ownLimit && g.peerLimit == f.peerLimit
  }

  /** All that a device has room for before it first answers 0. */
  function Room(room: seq<nat>): nat {
    if room == [] || room[0] == 0 then 0 else room[0] + Room(room[1..])
  }

  /** Direct delivery to a device that states its room takes all of that room, and falls short of the data
      only after an answer of 0. */
  lemma {:induction false} BypassAmount(f: Face, data: seq<Byte>)
    requires f.peerLimit
    ensures var (g, n) := Bypass(f, data);
      && n == Min(|data|, Room(f.room))
      && (n < |data| ==> g.log != [] && g.log[|g.log| - 1] == Asked(0))
    decreases |data|
  {
    if data != [] && Answer(f) > 0 {
      var n := Min(Answer(f), |data|);
      BypassAmount(Give(Heard(f, Asked(Answer(f))), data[..n]), data[n..]);
    }
  }

  /** How many bytes a turn of the poll delivers, and that it stops the poll on an answer of 0 only. */
  lemma TurnAmount(s: Line, t: nat)
    ensures var r := PollOnce(s, t);
      var room := if !s.face.ownLimit then t else if s.face.peerLimit then Answer(s.face) else 0;
      && |s.waiting| - |r.waiting| == Min(Min(room, t), |s.waiting|)
      && (r.stopped <==> s.face.ownLimit && room == 0)
  {
  }

  // ----- nothing is lost between the face and the line behind it -----

  lemma {:induction false} BypassDelivers(f: Face, data: seq<Byte>)
    ensures var (g, n) := Bypass(f, data);
      && n <= |data| && g.delivered == f.delivered + data[..n] && SameSettings(f, g)
      && (!f.peerLimit ==> n == |data|)
    decreases |data|
  {
    hide Bypass;
    if data == [] {
      BypassNone(f);
    } else {
      BypassOnce(f, data);
      var (g, room) := Ask(f);
      if f.peerLimit && room > 0 {
        var n := Min(room, |data|);
        BypassDelivers(Give(g, data[..n]), data[n..]);
        Joined(f.delivered, data, n, Bypass(Give(g, data[..n]), data[n..]).1);
      }
    }
  }

  lemma Joined(sent: seq<Byte>, data: seq<Byte>, n: nat, m: nat)
    requires n + m <= |data|
    ensures sent + data[..n] + data[n..][..m] == sent + data[..n + m]
  {
  }

  /** Delivered and waiting bytes together, in order. */
  function Total(s: Line): seq<Byte> {
    s.face.delivered + s.waiting
  }

  lemma Split(sent: seq<Byte>, waiting: seq<Byte>, n: nat)
    requires n <= |waiting|
    ensures (sent + waiting[..n]) + waiting[n..] == sent + waiting
  {
  }

  lemma PollTurnConserves(s: Line, t: nat)
    ensures Total(PollOnce(s, t)) == Total(s) && SameSettings(s.face, PollOnce(s, t).face)
  {
    var room := Ask(s.face).1;
    Split(s.face.delivered, s.waiting, Min(t, |s.waiting|));
    Split(s.face.delivered, s.waiting, Min(Min(room, t), |s.waiting|));
  }

  lemma OfferTurnConserves(s: Line, t: nat)
    ensures Total(OfferOnce(s, t)) == Total(s) && SameSettings(s.face, OfferOnce(s, t).face)
  {
    var m := Min(t, |s.waiting|);
    var n := Min(Answer(s.face), m);
    assert s.waiting[..m][..n] == s.waiting[..n];
    Split(s.face.delivered, s.waiting, n);
  }

  lemma {:induction false} PollConserves(s: Line, parts: seq<nat>)
    ensures Total(PollLine(s, parts)) == Total(s) && SameSettings(s.face, PollLine(s, parts).face)
  {
    hide PollOnce, OfferOnce, Total;
    if parts != [] {
      PollConserves(s, parts[..|parts| - 1]);
      PollTurnConserves(PollLine(s, parts[..|parts| - 1]), parts[|parts| - 1]);
    }
  }

  lemma {:induction false} OfferConserves(s: Line, parts: seq<nat>)
    ensures Total(OfferLine(s, parts)) == Total(s) && SameSettings(s.face, OfferLine(s, parts).face)
  {
    hide PollOnce, OfferOnce, Total;
    if parts != [] {
      OfferConserves(s, parts[..|parts| - 1]);
      OfferTurnConserves(OfferLine(s, parts[..|parts| - 1]), parts[|parts| - 1]);
    }
  }

  // ----- flow control -----

  /** Nothing is given but right after an answer that has room for it. */
  predicate Paced(log: seq<Talk>) {
    forall i | 0 <= i < |log| && log[i].Given? :: i > 0 && log[i - 1].Asked? && log[i].bytes <= log[i - 1].room
  }

  /** A device that states its room is never given more. */
  predicate Respected(f: Face) {
    f.peerLimit ==> Paced(f.log)
  }

  lemma AskedPaced(log: seq<Talk>, room: nat, n: nat)
    requires Paced(log)
    ensures Paced(log + [Asked(room)])
    ensures n <= room ==> Paced(log + [Asked(room)] + [Given(n)])
  {
  }

  lemma {:induction false} BypassPaced(f: Face, data: seq<Byte>)
    requires Respected(f)
    ensures Respected(Bypass(f, data).0)
    decreases |data|
  {
    hide Paced;
    BypassDelivers(f, data);
    if data != [] && f.peerLimit {
      var (g, room) := Ask(f);
      var n := Min(room, |data|);
      AskedPaced(f.log, room, n);
      if room > 0 {
        BypassPaced(Give(g, data[..n]), data[n..]);
      }
    }
  }

  lemma PollTurnPaced(s: Line, t: nat)
    requires Respected(s.face) && (s.face.ownLimit || !s.face.peerLimit)
    ensures Respected(PollOnce(s, t).face)
  {
    hide Paced;
    if s.face.peerLimit {
      var room := Ask(s.face).1;
      AskedPaced(s.face.log, room, Min(Min(room, t), |s.waiting|));
    }
  }

  lemma {:induction false} PollPaced(s: Line, parts: seq<nat>)
    requires Respected(s.face) && (s.face.ownLimit || !s.face.peerLimit)
    ensures Respected(PollLine(s, parts).face)
  {
    hide Paced, PollOnce;
    if parts != [] {
      PollPaced(s, parts[..|parts| - 1]);
      PollConserves(s, parts[..|parts| - 1]);
      PollTurnPaced(PollLine(s, parts[..|parts| - 1]), parts[|parts| - 1]);
    }
  }

  lemma OfferPaced(log: seq<Talk>, n: nat, m: nat)
    requires Paced(log)
    ensures Paced(log + [Offered(n, m)])
  {
  }

  lemma {:induction false} OfferAllPaced(s: Line, parts: seq<nat>)
    requires Respected(s.face)
    ensures Respected(OfferLine(s, parts).face)
  {
    hide Paced;
    if parts != [] {
      var before := OfferLine(s, parts[..|parts| - 1]);
      OfferAllPaced(s, parts[..|parts| - 1]);
      var m := Min(parts[|parts| - 1], |before.waiting|);
      if before.face.peerLimit {
        OfferPaced(before.face.log, m, Min(Answer(before.face), m));
      }
    }
  }

  /** Data written to a half, or a poll of it. */
  datatype Act = Send(data: seq<Byte>) | Turns(parts: seq<nat>)

  function StepLine(s: Line, a: Act): Line {
    match a
    case Send(data) => Written(s, data)
    case Turns(parts) => Polled(s, parts)
  }

  function RunLine(s: Line, acts: seq<Act>): Line {
    if acts == [] then s else StepLine(RunLine(s, acts[..|acts| - 1]), acts[|acts| - 1])
  }

  function Opened(own: bool, peer: bool, room: seq<nat>): Line {
    Line(Face(true, true, own, peer, room, [], []), [], false)
  }

  lemma {:induction false} RunRespects(s: Line, acts: seq<Act>)
    requires Respected(s.face) && (s.face.ownLimit || !s.face.peerLimit)
    ensures Respected(RunLine(s, acts).face) && SameSettings(s.face, RunLine(s, acts).face)
  {
    hide Paced, PollLine, Bypass;
    if acts != [] {
      var before := RunLine(s, acts[..|acts| - 1]);
      RunRespects(s, acts[..|acts| - 1]);
      match acts[|acts| - 1] {
        case Send(data) =>
          BypassPaced(before.face, data);
          BypassDelivers(before.face, data);
        case Turns(parts) =>
          PollPaced(before, parts);
          PollConserves(before, parts);
      }
    }
  }

  /** A byte that the peer has no room for. */
  function Unwanted(): Line {
    Line(Face(true, true, false, true, [], [], [Asked(0)]), [7], false)
  }

  lemma SendUnwanted()
    ensures Written(Opened(false, true, []), [7]) == Unwanted()
  {
    var s, t := Opened(false, true, []), Unwanted();
    assert [7][0..] == [7] && [] + [Asked(0)] == [Asked(0)];
    assert Ask(s.face) == (t.face, 0);
    assert Bypass(s.face, [7]) == (t.face, 0);
  }

  lemma PollUnwanted()
    ensures PollLine(Unwanted(), [1]) == Line(Face(true, true, false, true, [], [7], [Asked(0), Given(1)]), [], false)
  {
    var t := Unwanted();
    assert [1][..0] == [];
    assert PollLine(t, [1]) == PollOnce(t, 1);
    assert [7][1..] == [] && [] + [7][..1] == [7] && [Asked(0)] + [Given(1)] == [Asked(0), Given(1)];
  }

  /** A poll gives the byte to the peer all the same, however it is done. */
  lemma OverrunTurns(parts: seq<nat>)
    requires Fits(Unwanted(), parts) && (PollLine(Unwanted(), parts).waiting == [] || PollLine(Unwanted(), parts).stopped)
    ensures !Respected(PollLine(Unwanted(), parts).face)
  {
    hide PollOnce;
    var s := Unwanted();
    PollUnwanted();
    assert parts != [];
    assert parts[..0] == [] && PollLine(s, []) == s;
    assert parts[0] == 1;
    assert parts[..1] == [1];
    assert |parts| == 1;
    var log := PollLine(s, parts).face.log;
    assert log[1].Given? && log[1].bytes > log[0].room;
  }

  lemma Overrun()
    ensures RunLine(Opened(false, true, []), [Send([7]), Turns([1])])
         == Line(Face(true, true, false, true, [], [7], [Asked(0), Given(1)]), [], false)
  {
    hide Written, PollLine;
    var s := Opened(false, true, []);
    var acts := [Send([7]), Turns([1])];
    assert acts[..1] == [Send([7])] && acts[..1][..0] == [];
    SendUnwanted();
    PollUnwanted();
    assert RunLine(s, [Send([7])]) == StepLine(RunLine(s, []), Send([7])) == Unwanted();
  }

  /** Bytes that a half with chr_can_read, and a peer without, holds back for ever. */
  lemma {:induction false} Stalled(s: Line, parts: seq<nat>)
    requires s.face.ownLimit && !s.face.peerLimit
    ensures PollLine(s, parts).face == s.face && PollLine(s, parts).waiting == s.waiting
  {
    if parts != [] {
      Stalled(s, parts[..|parts| - 1]);
    }
  }

  /** With bytes waiting and room at the peer, a turn of the poll delivers some if and only if this half has
      no chr_can_read or the peer has one. */
  lemma TurnMoves(s: Line, t: nat)
    requires s.waiting != [] && t > 0 && Answer(s.face) > 0
    ensures |PollOnce(s, t).waiting| < |s.waiting| <==> !s.face.ownLimit || s.face.peerLimit
  {
  }

  /** Over every run, for every answer of the peer, no delivery exceeds the answer just before it, if and
      only if this half has chr_can_read or the peer has none. */
  lemma FlowControl(own: bool, peer: bool)
    ensures (forall room, acts :: Respected(RunLine(Opened(own, peer, room), acts).face)) <==> own || !peer
  {
    if own || !peer {
      forall room, acts
        ensures Respected(RunLine(Opened(own, peer, room), acts).face)
      {
        RunRespects(Opened(own, peer, room), acts);
      }
    } else {
      Overrun();
      var f := RunLine(Opened(own, peer, []), [Send([7]), Turns([1])]).face;
      assert f.log[1].Given? && f.log[1].bytes > f.log[0].room;
    }
  }
}
