// Any number of consoles tunnelling TCP connections to each other over
// loss-free FIFO channels, each running the stream table of TunnelTable.
//
// Every frame under way and every used slot carries a tag: the connection it
// belongs to. Tags are bookkeeping of this model only - no step looks at one
// to decide anything - so that "acts on the paired slot" can be stated.

module TunnelSystem {
  import opened Bytes
  import opened TunnelTable
  import opened TunnelLink

  datatype Tagged = Tagged(frame: TunnelFrame, tag: nat)
  datatype Pair = Pair(from: u32, to: u32)

  /** A console: its table, the tag of each slot, and how many stream ids it has drawn so far. */
  datatype Node = Node(table: Table, tags: seq<nat>, drawn: nat)

  /** A connection: who opened it to whom under which id (the serial-th draw), and its socket histories. */
  datatype Conn = Conn(origin: u32, peer: u32, id: u16, serial: nat,
                       readO: seq<byte>, tookO: seq<byte>, readP: seq<byte>, tookP: seq<byte>)

  datatype System = System(nodes: map<u32, Node>, chan: map<Pair, seq<Tagged>>, conns: seq<Conn>)

  function Chan(s: System, a: u32, b: u32): seq<Tagged> {
    if Pair(a, b) in s.chan then s.chan[Pair(a, b)] else []
  }

  // ---- The link each connection amounts to ----

  predicate Holds(n: Node, c: nat, i: nat) {
    i < |n.table.streams| && i < |n.tags| && n.table.streams[i].used && n.tags[i] == c
  }

  function EndOfStream(st: Stream): End {
    if st.used then Up(st.pending) else Absent
  }

  function EndFrom(n: Node, c: nat, i: nat): End
    decreases |n.table.streams| - i
  {
    if i >= |n.table.streams| then Absent
    else if Holds(n, c, i) then Up(n.table.streams[i].pending)
    else EndFrom(n, c, i + 1)
  }

  function EndOf(n: Node, c: nat): End {
    EndFrom(n, c, 0)
  }

  function MsgOf(f: TunnelFrame): Msg {
    if f.kind == TUNNEL_OPEN then Open else if f.kind == TUNNEL_DATA then Data(f.data) else Close
  }

  function Msgs(ch: seq<Tagged>, c: nat): seq<Msg> {
    if ch == [] then []
    else (if ch[0].tag == c then [MsgOf(ch[0].frame)] else []) + Msgs(ch[1..], c)
  }

  function View(s: System, c: nat): Link
    requires c < |s.conns| && s.conns[c].origin in s.nodes && s.conns[c].peer in s.nodes
  {
    var k := s.conns[c];
    Link(EndOf(s.nodes[k.origin], c), EndOf(s.nodes[k.peer], c),
         Msgs(Chan(s, k.origin, k.peer), c), Msgs(Chan(s, k.peer, k.origin), c),
         k.readO, k.tookO, k.readP, k.tookP)
  }

  // ---- What holds in every reachable state ----

  /** A used slot belongs to its connection: same id, and the originator bit says which end it is. */
  ghost predicate SlotKeyed(s: System, x: u32, st: Stream, c: nat) {
    c < |s.conns| &&
    var k := s.conns[c];
    st.id == k.id && (if st.originator then k.origin == x && k.peer == st.peer else k.peer == x && k.origin == st.peer)
  }

  ghost predicate FrameKeyed(s: System, a: u32, b: u32, t: Tagged) {
    t.tag < |s.conns| &&
    var k, f := s.conns[t.tag], t.frame;
    && f.stream == k.id && f.kind in {TUNNEL_OPEN, TUNNEL_DATA, TUNNEL_CLOSE}
    && (f.kind == TUNNEL_OPEN ==> f.owner == OWNER_SENDER) && (f.kind == TUNNEL_DATA ==> f.data != [])
    && (f.owner == OWNER_SENDER || f.owner == OWNER_RECEIVER)
    && (if f.owner == OWNER_SENDER then k.origin == a && k.peer == b else k.peer == a && k.origin == b)
  }

  ghost predicate NodeOk(s: System, x: u32)
    requires x in s.nodes
  {
    var n := s.nodes[x];
    && |n.table.streams| == |n.tags| == MAX_STREAMS
    && n.table.nextId == Low16(1 + n.drawn)
    && (forall i | 0 <= i < MAX_STREAMS && n.table.streams[i].used :: SlotKeyed(s, x, n.table.streams[i], n.tags[i]))
    && OneSlotEach(n)
  }

  ghost predicate OneSlotEach(n: Node)
  {
    forall c, i, j :: Holds(n, c, i) && Holds(n, c, j) ==> i == j
  }

  ghost predicate ChanOk(s: System, a: u32, b: u32) {
    forall p | 0 <= p < |Chan(s, a, b)| :: FrameKeyed(s, a, b, Chan(s, a, b)[p])
  }

  ghost predicate ConnOk(s: System, c: nat)
    requires c < |s.conns|
  {
    var k := s.conns[c];
    k.origin != k.peer && k.origin in s.nodes && k.peer in s.nodes
    && k.serial < s.nodes[k.origin].drawn && k.id == Low16(1 + k.serial)
  }

  ghost predicate Structural(s: System) {
    && (forall x | x in s.nodes :: NodeOk(s, x))
    && (forall a, b :: ChanOk(s, a, b))
    && (forall c | 0 <= c < |s.conns| :: ConnOk(s, c))
  }

  ghost predicate SameKey(a: Conn, b: Conn) {
    a.origin == b.origin && a.peer == b.peer && a.id == b.id
  }

  ghost predicate Live(s: System, c: nat)
    requires Structural(s) && c < |s.conns|
  {
    assert ConnOk(s, c);
    !Idle(View(s, c))
  }

  /** No two connections that are still around share (originator, peer, id). */
  ghost predicate KeysApart(s: System)
    requires Structural(s)
  {
    forall c, d | 0 <= c < |s.conns| && 0 <= d < |s.conns| && Live(s, c) && Live(s, d) && SameKey(s.conns[c], s.conns[d]) :: c == d
  }

  ghost predicate LinksOk(s: System)
    requires Structural(s)
  {
    forall c | 0 <= c < |s.conns| :: ConnOk(s, c) && LinkOk(View(s, c))
  }

  ghost predicate Inv(s: System) {
    Structural(s) && KeysApart(s) && LinksOk(s)
  }

  // ---- Facts about ends and messages ----

  lemma {:induction false} EndFound(n: Node, c: nat, i: nat, from: nat)
    requires Holds(n, c, i) && from <= i && forall j :: Holds(n, c, j) ==> j == i
    ensures EndFrom(n, c, from) == Up(n.table.streams[i].pending)
    decreases i - from
  {
    if from < i {
      EndFound(n, c, i, from + 1);
    }
  }

  lemma {:induction false} EndMissing(n: Node, c: nat, from: nat)
    requires forall j :: !Holds(n, c, j)
    ensures EndFrom(n, c, from) == Absent
    decreases |n.table.streams| - from
  {
    if from < |n.table.streams| {
      EndMissing(n, c, from + 1);
    }
  }

  /** The end of a connection depends only on the slot holding it. */
  lemma {:induction false} EndSame(n: Node, m: Node, c: nat, from: nat)
    requires |n.table.streams| == |m.table.streams|
    requires forall j: nat :: Holds(n, c, j) <==> Holds(m, c, j)
    requires forall j: nat :: Holds(n, c, j) ==> n.table.streams[j].pending == m.table.streams[j].pending
    ensures EndFrom(n, c, from) == EndFrom(m, c, from)
    decreases |n.table.streams| - from
  {
    if from < |n.table.streams| {
      EndSame(n, m, c, from + 1);
    }
  }

  /** Changing a slot that holds another connection. */
  lemma EndUntouched(n: Node, i: nat, st: Stream, d: nat)
    requires |n.table.streams| == |n.tags| && i < |n.tags| && n.tags[i] != d
    ensures EndOf(n.(table := WithStream(n.table, i, st)), d) == EndOf(n, d)
  {
    var m := n.(table := WithStream(n.table, i, st));
    assert forall j: nat :: Holds(n, d, j) ==> j != i && m.table.streams[j] == n.table.streams[j];
    assert forall j: nat :: Holds(m, d, j) ==> j != i && m.table.streams[j] == n.table.streams[j];
    EndSame(n, m, d, 0);
  }

  lemma {:induction false} MsgsAppend(ch: seq<Tagged>, t: Tagged, c: nat)
    ensures Msgs(ch + [t], c) == Msgs(ch, c) + (if t.tag == c then [MsgOf(t.frame)] else [])
    decreases |ch|
  {
    if ch == [] {
      assert ch + [t] == [t];
      assert Msgs([t][1..], c) == [];
    } else {
      MsgsAppend(ch[1..], t, c);
      assert (ch + [t])[1..] == ch[1..] + [t];
    }
  }

  // ---- An event in one slot ----

  function SendAll(s: System, x: u32, out: seq<Outgoing>, c: nat): map<Pair, seq<Tagged>> {
    if out == [] then s.chan
    else s.chan[Pair(x, out[0].peer) := Chan(s, x, out[0].peer) + [Tagged(out[0].frame, c)]]
  }

  function TookAt(k: Conn, x: u32, took: seq<byte>): Conn {
    if k.origin == x then k.(tookO := k.tookO + took) else k.(tookP := k.tookP + took)
  }

  function ReadAt(k: Conn, x: u32, data: seq<byte>): Conn {
    if k.origin == x then k.(readO := k.readO + data) else k.(readP := k.readP + data)
  }

  /** The state after an event at console x that belongs to connection c. */
  function Absorb(s: System, x: u32, e: Effect, c: nat, read: seq<byte>): System
    requires x in s.nodes && c < |s.conns|
  {
    System(s.nodes[x := s.nodes[x].(table := e.table)], SendAll(s, x, e.out, c),
           s.conns[c := ReadAt(TookAt(s.conns[c], x, e.took), x, read)])
  }

  /** An effect confined to slot i: its stream keeps its key or is released, and only its frames go out. */
  ghost predicate SlotEffect(t: Table, i: nat, e: Effect)
    requires i < |t.streams|
  {
    && |e.table.streams| == |t.streams| && e.table == WithStream(t, i, e.table.streams[i])
    && (e.table.streams[i].used ==>
          e.table.streams[i].id == t.streams[i].id && e.table.streams[i].peer == t.streams[i].peer
          && e.table.streams[i].originator == t.streams[i].originator)
    && |e.out| <= 1
    && (e.out != [] ==>
          && e.out[0].peer == t.streams[i].peer && e.out[0].frame.stream == t.streams[i].id
          && e.out[0].frame.owner == OwnerOf(t.streams[i])
          && (e.out[0].frame.kind == TUNNEL_CLOSE || (e.out[0].frame.kind == TUNNEL_DATA && e.out[0].frame.data != [])))
  }

  lemma AbsorbStructural(s: System, x: u32, i: nat, e: Effect, read: seq<byte>)
    requires Structural(s) && x in s.nodes && i < MAX_STREAMS && NodeOk(s, x)
    requires s.nodes[x].table.streams[i].used && SlotEffect(s.nodes[x].table, i, e)
    ensures s.nodes[x].tags[i] < |s.conns|
    ensures Structural(Absorb(s, x, e, s.nodes[x].tags[i], read))
  {
    var n, c := s.nodes[x], s.nodes[x].tags[i];
    assert SlotKeyed(s, x, n.table.streams[i], c);
    var t := Absorb(s, x, e, c, read);
    forall y | y in t.nodes
      ensures NodeOk(t, y)
    {
      assert NodeOk(s, y);
      AbsorbNode(s, x, i, e, read, y);
    }
    forall a, b
      ensures ChanOk(t, a, b)
    {
      assert ChanOk(s, a, b);
      forall p | 0 <= p < |Chan(t, a, b)|
        ensures FrameKeyed(t, a, b, Chan(t, a, b)[p])
      {
        assert p < |Chan(s, a, b)| ==> FrameKeyed(s, a, b, Chan(s, a, b)[p]) && Chan(t, a, b)[p] == Chan(s, a, b)[p];
      }
    }
    forall d | 0 <= d < |t.conns|
      ensures ConnOk(t, d)
    {
      assert ConnOk(s, d);
    }
  }

  lemma AbsorbNode(s: System, x: u32, i: nat, e: Effect, read: seq<byte>, y: u32)
    requires x in s.nodes && i < MAX_STREAMS && NodeOk(s, x) && s.nodes[x].tags[i] < |s.conns|
    requires s.nodes[x].table.streams[i].used && SlotEffect(s.nodes[x].table, i, e)
    requires y in s.nodes && NodeOk(s, y)
    ensures NodeOk(Absorb(s, x, e, s.nodes[x].tags[i], read), y)
  {
    var t := Absorb(s, x, e, s.nodes[x].tags[i], read);
    var n, m := s.nodes[y], t.nodes[y];
    forall j | 0 <= j < MAX_STREAMS && m.table.streams[j].used
      ensures SlotKeyed(t, y, m.table.streams[j], m.tags[j])
    {
      assert SlotKeyed(s, y, n.table.streams[j], n.tags[j]);
    }
    assert forall c, j :: Holds(m, c, j) ==> Holds(n, c, j);
  }

  /** Which side of connection c console x is. */
  function SideOf(s: System, x: u32, c: nat): bool
    requires c < |s.conns|
  {
    s.conns[c].origin == x
  }

  /** The link of connection c after an event in its slot at x. */
  ghost function AfterEvent(l: Link, side: bool, st: Stream, out: seq<Outgoing>, took: seq<byte>, read: seq<byte>): Link {
    var moved := l.WithEnd(side, EndOfStream(st)).WithTook(side, took).WithRead(side, read);
    if out == [] then moved else moved.WithOutbox(side, l.Outbox(side) + [MsgOf(out[0].frame)])
  }

  /** The end of connection c at x after an event in its slot. */
  lemma AbsorbEnd(n: Node, i: nat, st: Stream, c: nat)
    requires |n.table.streams| == |n.tags| && i < |n.tags| && n.tags[i] == c && n.table.streams[i].used && OneSlotEach(n)
    ensures EndOf(n, c) == Up(n.table.streams[i].pending)
    ensures EndOf(n.(table := WithStream(n.table, i, st)), c) == EndOfStream(st)
  {
    var m := n.(table := WithStream(n.table, i, st));
    assert Holds(n, c, i);
    EndFound(n, c, i, 0);
    if st.used {
      assert Holds(m, c, i) && forall j :: Holds(m, c, j) ==> Holds(n, c, j);
      EndFound(m, c, i, 0);
    } else {
      assert forall j :: Holds(m, c, j) ==> Holds(n, c, j) && j != i;
      EndMissing(m, c, 0);
    }
  }

  lemma AbsorbView(s: System, x: u32, i: nat, e: Effect, read: seq<byte>)
    requires Structural(s) && x in s.nodes && i < MAX_STREAMS && NodeOk(s, x)
    requires s.nodes[x].table.streams[i].used && SlotEffect(s.nodes[x].table, i, e)
    ensures
      var c := s.nodes[x].tags[i];
      && c < |s.conns| && ConnOk(s, c) && SideOf(s, x, c) == s.nodes[x].table.streams[i].originator
      && View(s, c).EndAt(SideOf(s, x, c)) == Up(s.nodes[x].table.streams[i].pending)
      && var t := Absorb(s, x, e, c, read);
         View(t, c) == AfterEvent(View(s, c), SideOf(s, x, c), e.table.streams[i], e.out, e.took, read)
  {
    var n, c := s.nodes[x], s.nodes[x].tags[i];
    assert SlotKeyed(s, x, n.table.streams[i], c) && ConnOk(s, c);
    var t := Absorb(s, x, e, c, read);
    AbsorbEnd(n, i, e.table.streams[i], c);
    assert t.nodes[x] == n.(table := WithStream(n.table, i, e.table.streams[i]));
    if e.out != [] {
      MsgsAppend(Chan(s, x, e.out[0].peer), Tagged(e.out[0].frame, c), c);
    }
  }

  /** A frame of one connection is invisible to the others. */
  lemma SendUnseen(s: System, x: u32, out: seq<Outgoing>, c: nat, a: u32, b: u32, d: nat)
    requires d != c && |out| <= 1
    ensures Msgs(Chan(s.(chan := SendAll(s, x, out, c)), a, b), d) == Msgs(Chan(s, a, b), d)
  {
    if out != [] {
      MsgsAppend(Chan(s, x, out[0].peer), Tagged(out[0].frame, c), d);
    }
  }

  /** An event in one connection's slot is invisible to every other connection. */
  lemma AbsorbOthers(s: System, x: u32, i: nat, e: Effect, read: seq<byte>, d: nat)
    requires Structural(s) && x in s.nodes && i < MAX_STREAMS && NodeOk(s, x)
    requires s.nodes[x].table.streams[i].used && SlotEffect(s.nodes[x].table, i, e)
    requires d < |s.conns| && d != s.nodes[x].tags[i] && ConnOk(s, d)
    ensures s.nodes[x].tags[i] < |s.conns|
    ensures View(Absorb(s, x, e, s.nodes[x].tags[i], read), d) == View(s, d)
  {
    var n, c, k := s.nodes[x], s.nodes[x].tags[i], s.conns[d];
    assert SlotKeyed(s, x, n.table.streams[i], c);
    var t := Absorb(s, x, e, c, read);
    assert t.nodes[x] == n.(table := WithStream(n.table, i, e.table.streams[i]));
    EndUntouched(n, i, e.table.streams[i], d);
    SendUnseen(s, x, e.out, c, k.origin, k.peer, d);
    SendUnseen(s, x, e.out, c, k.peer, k.origin, d);
    assert forall a, b :: Chan(t, a, b) == Chan(s.(chan := SendAll(s, x, e.out, c)), a, b);
  }
}
