// The steps of the tunnelled system, and that each keeps its invariant: pairing
// of the two ends of every connection, and fidelity of the byte streams.

module TunnelSteps {
  import opened Bytes
  import opened TunnelTable
  import opened TunnelLink
  import opened TunnelSystem

  // ---- Steps ----

  datatype Step =
    | Connect(x: u32, y: u32, gameFd: int, port: u16, setup: Setup)
    | Accepted(x: u32, i: nat, fd: nat, sends: seq<SendResult>)
    | Arrived(x: u32, i: nat, data: seq<byte>)
    | Ended(x: u32, i: nat)
    | Idled(x: u32, i: nat, sends: seq<SendResult>)
    | Deliver(x: u32, y: u32, local: Option<nat>, sends: seq<SendResult>)
    | Stop(x: u32)

  predicate Used(s: System, x: u32, i: nat) {
    x in s.nodes && i < |s.nodes[x].table.streams| && s.nodes[x].table.streams[i].used
  }

  predicate Enabled(s: System, step: Step) {
    match step
    case Connect(x, y, _, _, _) => x in s.nodes && y in s.nodes && x != y
    case Accepted(x, i, _, _) => Used(s, x, i) && s.nodes[x].table.streams[i].listener >= 0
    case Arrived(x, i, data) => Used(s, x, i) && s.nodes[x].table.streams[i].sock >= 0 && 0 < |data| <= MAX_CHUNK
    case Ended(x, i) => Used(s, x, i) && s.nodes[x].table.streams[i].sock >= 0
    case Idled(x, i, _) => Used(s, x, i)
    case Deliver(x, y, _, _) => x in s.nodes && y in s.nodes && Chan(s, x, y) != []
    case Stop(x) => x in s.nodes
  }

  /** A used slot whose tag names a connection. */
  predicate InUse(s: System, x: u32, i: nat) {
    Used(s, x, i) && i < |s.nodes[x].tags| && s.nodes[x].tags[i] < |s.conns|
  }

  /** The tags a step moves around name connections; TagsNeverBlock shows they always do. */
  predicate Booked(s: System, step: Step)
    requires Enabled(s, step)
  {
    match step
    case Connect(_, _, _, _, _) => true
    case Deliver(x, y, _, _) => ActsOn(s.nodes[y], x, Chan(s, x, y)[0]) < |s.conns|
    case Stop(_) => true
    case _ => InUse(s, step.x, step.i)
  }

  function NextConnect(s: System, x: u32, y: u32, gameFd: int, port: u16, setup: Setup): System
    requires x in s.nodes
  {
    var n := s.nodes[x];
    var e := Redirect(n.table, gameFd, y, port, setup).0;
    var drawn := if e.table.nextId == n.table.nextId then n.drawn else n.drawn + 1;
    if e.out == [] then s.(nodes := s.nodes[x := Node(e.table, n.tags, drawn)])
    else
      var free, c := FindFree(n.table.streams), |s.conns|;
      System(s.nodes[x := Node(e.table, if free < |n.tags| then n.tags[free := c] else n.tags, drawn)],
             SendAll(s, x, e.out, c), s.conns + [Conn(x, y, n.table.nextId, n.drawn, [], [], [], [])])
  }

  function Pop(s: System, x: u32, y: u32): System
    requires Chan(s, x, y) != []
  {
    s.(chan := s.chan[Pair(x, y) := Chan(s, x, y)[1..]])
  }

  /** The slot a Data or Close frame finds at its receiver. */
  function Target(n: Node, src: u32, f: TunnelFrame): nat {
    Find(n.table.streams, src, f.stream, f.owner == OWNER_RECEIVER)
  }

  /** The connection whose slot a delivered frame acts on; a frame that finds no slot is its own. */
  function ActsOn(n: Node, src: u32, t: Tagged): nat {
    var i := Target(n, src, t.frame);
    if t.frame.kind != TUNNEL_OPEN && i < |n.tags| then n.tags[i] else t.tag
  }

  function NextDeliver(s: System, x: u32, y: u32, fd: Option<nat>, sends: seq<SendResult>): System
    requires y in s.nodes && Chan(s, x, y) != []
    requires ActsOn(s.nodes[y], x, Chan(s, x, y)[0]) < |s.conns|
  {
    var head, n := Chan(s, x, y)[0], s.nodes[y];
    var e := OnFrame(n.table, x, head.frame, fd, sends);
    var free := FindFree(n.table.streams);
    var opened_ := head.frame.kind == TUNNEL_OPEN && e.table != n.table;
    var tags := if opened_ && free < |n.tags| then n.tags[free := head.tag] else n.tags;
    Absorb(Pop(s, x, y).(nodes := s.nodes[y := n.(tags := tags)]), y, e, ActsOn(n, x, head), [])
  }

  function Next(s: System, step: Step): System
    requires Enabled(s, step) && Booked(s, step)
  {
    match step
    case Connect(x, y, gameFd, port, setup) => NextConnect(s, x, y, gameFd, port, setup)
    case Accepted(x, i, fd, sends) =>
      Absorb(s, x, AcceptSlot(s.nodes[x].table, i, fd, sends), s.nodes[x].tags[i], [])
    case Arrived(x, i, data) => Absorb(s, x, ReadSlot(s.nodes[x].table, i, data), s.nodes[x].tags[i], data)
    case Ended(x, i) => Absorb(s, x, ShutSlot(s.nodes[x].table, i), s.nodes[x].tags[i], [])
    case Idled(x, i, sends) => Absorb(s, x, FlushSlot(s.nodes[x].table, i, sends), s.nodes[x].tags[i], [])
    case Deliver(x, y, fd, sends) => NextDeliver(s, x, y, fd, sends)
    case Stop(x) => s.(nodes := s.nodes[x := s.nodes[x].(table := Stopped(s.nodes[x].table))])
  }

  /** The next id a console draws names no connection to that peer that is still around. */
  ghost predicate FreshDraw(s: System, x: u32, y: u32)
    requires Structural(s) && x in s.nodes
  {
    forall c | 0 <= c < |s.conns| && Live(s, c) :: !(s.conns[c].origin == x && s.conns[c].peer == y && s.conns[c].id == s.nodes[x].table.nextId)
  }

  // ---- From one state to the next ----

  /** A step that touches one live connection keeps everything if it keeps that link faithful. */
  lemma OneLinkChanged(s: System, t: System, c: nat)
    requires Inv(s) && Structural(t) && |t.conns| == |s.conns| && c < |s.conns| && Live(s, c)
    requires forall d | 0 <= d < |s.conns| :: SameKey(s.conns[d], t.conns[d])
    requires forall d | 0 <= d < |s.conns| && d != c :: ConnOk(s, d) && ConnOk(t, d) && View(t, d) == View(s, d)
    requires ConnOk(t, c) && LinkOk(View(t, c))
    ensures Inv(t)
  {
    forall d | 0 <= d < |t.conns|
      ensures ConnOk(t, d) && LinkOk(View(t, d))
      ensures Live(t, d) ==> Live(s, d)
    {
      assert ConnOk(s, d);
    }
  }

  /** Appending nothing changes nothing. */
  lemma NoBytes(b: seq<byte>)
    ensures b + [] == b
  {
  }

  lemma AfterShape(l: Link, side: bool, st: Stream, out: seq<Outgoing>, took: seq<byte>, read: seq<byte>)
    ensures took == [] ==> l.WithTook(side, took) == l
    ensures read == [] ==> l.WithRead(side, read) == l
  {
    NoBytes(l.Took(side));
    NoBytes(l.Read(side));
    NoBytes(l.readO);
    NoBytes(l.readP);
    NoBytes(l.tookO);
    NoBytes(l.tookP);
  }

  /** What an event in a used slot does to its link is one of the link's own steps. */
  lemma FlushKeepsLink(l: Link, side: bool, t: Table, i: nat, sends: seq<SendResult>)
    requires LinkOk(l) && i < |t.streams| && t.streams[i].used && l.EndAt(side) == Up(t.streams[i].pending)
    ensures
      var e := FlushSlot(t, i, sends);
      SlotEffect(t, i, e) && LinkOk(AfterEvent(l, side, e.table.streams[i], e.out, e.took, []))
  {
    var st := t.streams[i];
    var f, e := Flush(st.pending, sends), FlushSlot(t, i, sends);
    FlushSplits(st.pending, sends);
    AfterShape(l, side, st, [], [], []);
    assert WithStream(t, i, st) == t;
    if st.sock < 0 {
      assert AfterEvent(l, side, st, [], [], []) == l;
    } else {
      TakesOk(l, side, f.took, f.left);
      var taken := Takes(l, side, f.took, f.left);
      AfterShape(taken, side, st, [], [], []);
      if f.failed {
        LeavesOk(taken, side, true);
        assert AfterEvent(l, side, FREE, e.out, f.took, []) == Leaves(taken, side, true);
      } else {
        assert AfterEvent(l, side, st.(pending := f.left), [], f.took, []) == taken;
      }
    }
  }

  lemma ReadKeepsLink(l: Link, side: bool, t: Table, i: nat, data: seq<byte>)
    requires LinkOk(l) && i < |t.streams| && t.streams[i].used && l.EndAt(side) == Up(t.streams[i].pending) && data != []
    ensures
      var e := ReadSlot(t, i, data);
      SlotEffect(t, i, e) && LinkOk(AfterEvent(l, side, e.table.streams[i], e.out, e.took, data))
  {
    SendsOk(l, side, data);
    AfterShape(l, side, t.streams[i], [], [], []);
    assert WithStream(t, i, t.streams[i]) == t;
    var e := ReadSlot(t, i, data);
    assert AfterEvent(l, side, e.table.streams[i], e.out, e.took, data) == Sends(l, side, data);
  }

  lemma ShutKeepsLink(l: Link, side: bool, t: Table, i: nat)
    requires LinkOk(l) && i < |t.streams| && t.streams[i].used && l.EndAt(side) == Up(t.streams[i].pending)
    ensures
      var e := ShutSlot(t, i);
      && SlotEffect(t, i, e) && LinkOk(AfterEvent(l, side, e.table.streams[i], e.out, e.took, []))
      && AfterEvent(l, side, e.table.streams[i], e.out, e.took, []) == Leaves(l, side, true)
  {
    LeavesOk(l, side, true);
    AfterShape(l, side, FREE, [], [], []);
    var e := ShutSlot(t, i);
    assert AfterEvent(l, side, e.table.streams[i], e.out, e.took, []) == Leaves(l, side, true);
  }

  /** Replacing the fields of a slot that its key does not mention is a slot effect, before or after another one. */
  lemma EffectAfterTouch(t: Table, i: nat, st: Stream, e: Effect)
    requires i < |t.streams| && st.id == t.streams[i].id && st.peer == t.streams[i].peer && st.originator == t.streams[i].originator
    requires SlotEffect(WithStream(t, i, st), i, e)
    ensures SlotEffect(t, i, e)
  {
    assert WithStream(WithStream(t, i, st), i, e.table.streams[i]) == WithStream(t, i, e.table.streams[i]);
  }

  lemma SlotStepKeeps(s: System, x: u32, i: nat, e: Effect, read: seq<byte>)
    requires Inv(s) && InUse(s, x, i) && i < MAX_STREAMS && NodeOk(s, x)
    requires SlotEffect(s.nodes[x].table, i, e)
    requires
      var c := s.nodes[x].tags[i];
      ConnOk(s, c) && LinkOk(AfterEvent(View(s, c), SideOf(s, x, c), e.table.streams[i], e.out, e.took, read))
    ensures Inv(Absorb(s, x, e, s.nodes[x].tags[i], read))
  {
    var c := s.nodes[x].tags[i];
    AbsorbStructural(s, x, i, e, read);
    AbsorbView(s, x, i, e, read);
    var t := Absorb(s, x, e, c, read);
    forall d | 0 <= d < |s.conns| && d != c
      ensures ConnOk(s, d) && ConnOk(t, d) && View(t, d) == View(s, d)
    {
      assert ConnOk(s, d) && ConnOk(t, d);
      AbsorbOthers(s, x, i, e, read, d);
    }
    assert ConnOk(t, c);
    OneLinkChanged(s, t, c);
  }

  /** The link of the connection in a slot, seen from the slot. */
  lemma SlotLink(s: System, x: u32, i: nat)
    requires Inv(s) && InUse(s, x, i)
    ensures i < MAX_STREAMS && NodeOk(s, x)
    ensures
      var c := s.nodes[x].tags[i];
      && ConnOk(s, c) && LinkOk(View(s, c)) && Live(s, c)
      && View(s, c).EndAt(SideOf(s, x, c)) == Up(s.nodes[x].table.streams[i].pending)
      && SideOf(s, x, c) == s.nodes[x].table.streams[i].originator
  {
    var n, c := s.nodes[x], s.nodes[x].tags[i];
    assert NodeOk(s, x);
    assert SlotKeyed(s, x, n.table.streams[i], c) && ConnOk(s, c);
    assert Holds(n, c, i);
    EndFound(n, c, i, 0);
  }

  lemma LocalStepKeeps(s: System, step: Step)
    requires Inv(s) && Enabled(s, step) && Booked(s, step)
    requires step.Accepted? || step.Arrived? || step.Ended? || step.Idled?
    ensures Inv(Next(s, step))
  {
    var x, i := step.x, step.i;
    SlotLink(s, x, i);
    var t, c := s.nodes[x].table, s.nodes[x].tags[i];
    var l, side := View(s, c), SideOf(s, x, c);
    match step
    case Accepted(_, _, fd, sends) =>
      var st := t.streams[i].(listener := -1, sock := fd);
      FlushKeepsLink(l, side, WithStream(t, i, st), i, sends);
      EffectAfterTouch(t, i, st, AcceptSlot(t, i, fd, sends));
      SlotStepKeeps(s, x, i, AcceptSlot(t, i, fd, sends), []);
    case Arrived(_, _, data) =>
      ReadKeepsLink(l, side, t, i, data);
      SlotStepKeeps(s, x, i, ReadSlot(t, i, data), data);
    case Ended(_, _) =>
      ShutKeepsLink(l, side, t, i);
      SlotStepKeeps(s, x, i, ShutSlot(t, i), []);
    case Idled(_, _, sends) =>
      FlushKeepsLink(l, side, t, i, sends);
      SlotStepKeeps(s, x, i, FlushSlot(t, i, sends), []);
  }

  // ---- Delivery ----

  /** The receiving side of the first frame of a channel. */
  lemma HeadLink(s: System, x: u32, y: u32)
    requires Inv(s) && x in s.nodes && y in s.nodes && Chan(s, x, y) != []
    ensures
      var t := Chan(s, x, y)[0];
      && t.tag < |s.conns| && ConnOk(s, t.tag) && FrameKeyed(s, x, y, t) && LinkOk(View(s, t.tag)) && Live(s, t.tag)
      && SideOf(s, y, t.tag) == (t.frame.owner == OWNER_RECEIVER)
      && View(s, t.tag).Outbox(!SideOf(s, y, t.tag)) == Msgs(Chan(s, x, y), t.tag)
      && Msgs(Chan(s, x, y), t.tag)[..1] == [MsgOf(t.frame)]
  {
    assert ChanOk(s, x, y);
    assert FrameKeyed(s, x, y, Chan(s, x, y)[0]);
    assert ConnOk(s, Chan(s, x, y)[0].tag);
  }

  lemma PopStructural(s: System, x: u32, y: u32)
    requires Structural(s) && Chan(s, x, y) != []
    ensures Structural(Pop(s, x, y))
  {
    var t := Pop(s, x, y);
    forall a, b
      ensures ChanOk(t, a, b)
    {
      assert ChanOk(s, a, b);
      forall p | 0 <= p < |Chan(t, a, b)|
        ensures FrameKeyed(t, a, b, Chan(t, a, b)[p])
      {
        var q := if a == x && b == y then p + 1 else p;
        assert Chan(t, a, b)[p] == Chan(s, a, b)[q] && FrameKeyed(s, a, b, Chan(s, a, b)[q]);
      }
    }
    forall z | z in t.nodes
      ensures NodeOk(t, z)
    {
      assert NodeOk(s, z);
      assert forall st, c :: SlotKeyed(s, z, st, c) ==> SlotKeyed(t, z, st, c);
    }
    forall c | 0 <= c < |t.conns|
      ensures ConnOk(t, c)
    {
      assert ConnOk(s, c);
    }
  }

  lemma PopMsgs(s: System, x: u32, y: u32, a: u32, b: u32, d: nat)
    requires Chan(s, x, y) != []
    ensures Msgs(Chan(Pop(s, x, y), a, b), d)
         == if a == x && b == y && d == Chan(s, x, y)[0].tag then Msgs(Chan(s, x, y), d)[1..] else Msgs(Chan(s, a, b), d)
  {
  }

  lemma PopOthers(s: System, x: u32, y: u32, d: nat)
    requires Chan(s, x, y) != [] && d < |s.conns| && ConnOk(s, d) && d != Chan(s, x, y)[0].tag
    ensures View(Pop(s, x, y), d) == View(s, d)
  {
    var k := s.conns[d];
    PopMsgs(s, x, y, k.origin, k.peer, d);
    PopMsgs(s, x, y, k.peer, k.origin, d);
  }

  lemma PopView(s: System, x: u32, y: u32)
    requires Inv(s) && x in s.nodes && y in s.nodes && Chan(s, x, y) != []
    ensures
      var d := Chan(s, x, y)[0].tag;
      && d < |s.conns| && ConnOk(s, d) && View(s, d).Outbox(!SideOf(s, y, d)) != []
      && View(s, d).Outbox(!SideOf(s, y, d))[0] == MsgOf(Chan(s, x, y)[0].frame)
      && View(Pop(s, x, y), d) == Popped(View(s, d), SideOf(s, y, d))
  {
    HeadLink(s, x, y);
    var d := Chan(s, x, y)[0].tag;
    var k, ms := s.conns[d], Msgs(Chan(s, x, y), d);
    assert ms[0] == ms[..1][0];
    PopMsgs(s, x, y, k.origin, k.peer, d);
    PopMsgs(s, x, y, k.peer, k.origin, d);
  }

  /** Pairing, one half: a slot found by a frame belongs to the frame's own connection. */
  lemma FoundIsPaired(s: System, x: u32, y: u32, i: nat)
    requires Inv(s) && x in s.nodes && y in s.nodes && Chan(s, x, y) != []
    requires
      var f := Chan(s, x, y)[0].frame;
      i < |s.nodes[y].table.streams| && Matches(s.nodes[y].table.streams[i], x, f.stream, f.owner == OWNER_RECEIVER)
    ensures InUse(s, y, i) && s.nodes[y].tags[i] == Chan(s, x, y)[0].tag
  {
    HeadLink(s, x, y);
    assert NodeOk(s, y);
    var n := s.nodes[y];
    assert SlotKeyed(s, y, n.table.streams[i], n.tags[i]);
    SlotLink(s, y, i);
    assert SameKey(s.conns[n.tags[i]], s.conns[Chan(s, x, y)[0].tag]);
  }

  /** Pairing, the other half: the slot of the frame's connection is the one that is found. */
  lemma PairedIsFound(s: System, x: u32, y: u32, i: nat)
    requires Inv(s) && x in s.nodes && y in s.nodes && Chan(s, x, y) != []
    requires Holds(s.nodes[y], Chan(s, x, y)[0].tag, i)
    ensures
      var f := Chan(s, x, y)[0].frame;
      Matches(s.nodes[y].table.streams[i], x, f.stream, f.owner == OWNER_RECEIVER) && Target(s.nodes[y], x, f) == i
  {
    HeadLink(s, x, y);
    assert NodeOk(s, y);
    var n, f := s.nodes[y], Chan(s, x, y)[0].frame;
    assert SlotKeyed(s, y, n.table.streams[i], n.tags[i]);
    assert Matches(n.table.streams[i], x, f.stream, f.owner == OWNER_RECEIVER);
    var j := Target(n, x, f);
    FoundIsPaired(s, x, y, j);
    assert Holds(n, Chan(s, x, y)[0].tag, j);
  }

  /**
   * Pairing: a frame acts on the slot its own connection has at the receiver,
   * on exactly that one, and on none if there is none - however many streams
   * with the same number the two consoles have opened to each other.
   */
  lemma FramesActOnPairedSlot(s: System, x: u32, y: u32)
    requires Inv(s) && x in s.nodes && y in s.nodes && Chan(s, x, y) != []
    ensures
      var t, n := Chan(s, x, y)[0], s.nodes[y];
      var i := Target(n, x, t.frame);
      && t.tag < |s.conns| && ActsOn(n, x, t) == t.tag
      && (i < |n.table.streams| ==> Holds(n, t.tag, i))
      && (i == |n.table.streams| ==> forall j: nat :: !Holds(n, t.tag, j))
      && (View(s, t.tag).EndAt(SideOf(s, y, t.tag)).Up? <==> i < |n.table.streams|)
  {
    HeadLink(s, x, y);
    var t, n := Chan(s, x, y)[0], s.nodes[y];
    var i := Target(n, x, t.frame);
    assert NodeOk(s, y);
    if i < |n.table.streams| {
      FoundIsPaired(s, x, y, i);
      assert OneSlotEach(n) && Holds(n, t.tag, i);
      EndFound(n, t.tag, i, 0);
    } else {
      forall j: nat
        ensures !Holds(n, t.tag, j)
      {
        if Holds(n, t.tag, j) {
          PairedIsFound(s, x, y, j);
        }
      }
      EndMissing(n, t.tag, 0);
    }
  }

  /** What a frame that found slot i does to the link, whose first message it was. */
  lemma FrameKeepsLink(l: Link, side: bool, t: Table, i: nat, src: u32, f: TunnelFrame, local: Option<nat>, sends: seq<SendResult>)
    requires LinkOk(l) && l.Outbox(!side) != [] && l.Outbox(!side)[0] == MsgOf(f)
    requires f.kind == TUNNEL_DATA || f.kind == TUNNEL_CLOSE
    requires f.kind == TUNNEL_DATA ==> f.data != []
    requires i == Find(t.streams, src, f.stream, f.owner == OWNER_RECEIVER) < |t.streams|
    requires l.EndAt(side) == Up(t.streams[i].pending)
    ensures
      var e := OnFrame(t, src, f, local, sends);
      SlotEffect(t, i, e) && LinkOk(AfterEvent(Popped(l, side), side, e.table.streams[i], e.out, e.took, []))
  {
    var st := t.streams[i];
    if f.kind == TUNNEL_CLOSE {
      ClosedOk(l, side);
      AfterShape(Popped(l, side), side, st, [], [], []);
      AfterShape(Popped(l, side).WithEnd(side, Absent), side, st, [], [], []);
    } else if |st.pending| + |f.data| > PENDING_MAX {
      ShutKeepsLink(l, side, t, i);
      LosesOk(Leaves(l, side, true), side);
      AfterShape(Popped(l, side), side, st, [], [], []);
      AfterShape(Popped(l, side).WithEnd(side, Absent), side, st, [], [], []);
      var e := ShutSlot(t, i);
      assert AfterEvent(Popped(l, side), side, FREE, e.out, [], []) == Popped(Leaves(l, side, true), side);
    } else {
      GetsOk(l, side);
      var more := st.(pending := st.pending + f.data);
      FlushKeepsLink(Gets(l, side), side, WithStream(t, i, more), i, sends);
      var e := FlushSlot(WithStream(t, i, more), i, sends);
      EffectAfterTouch(t, i, more, e);
      assert AfterEvent(Gets(l, side), side, e.table.streams[i], e.out, e.took, [])
          == AfterEvent(Popped(l, side), side, e.table.streams[i], e.out, e.took, []);
    }
  }

  /** A frame that is not an Open, or changes no table, leaves the tags alone. */
  lemma DeliverPlain(s: System, x: u32, y: u32, local: Option<nat>, sends: seq<SendResult>)
    requires y in s.nodes && Chan(s, x, y) != [] && Chan(s, x, y)[0].tag < |s.conns|
    requires
      var t, n := Chan(s, x, y)[0], s.nodes[y];
      ActsOn(n, x, t) == t.tag && (t.frame.kind != TUNNEL_OPEN || OnFrame(n.table, x, t.frame, local, sends).table == n.table)
    ensures
      var t, n := Chan(s, x, y)[0], s.nodes[y];
      NextDeliver(s, x, y, local, sends) == Absorb(Pop(s, x, y), y, OnFrame(n.table, x, t.frame, local, sends), t.tag, [])
  {
    var n, s1 := s.nodes[y], Pop(s, x, y);
    assert n.(tags := n.tags) == n;
    assert s.nodes[y := n] == s.nodes;
    assert s1.(nodes := s.nodes) == s1;
  }

  lemma SlotAfterPop(s: System, x: u32, y: u32, i: nat, e: Effect)
    requires Inv(s) && x in s.nodes && y in s.nodes && Chan(s, x, y) != []
    requires i < MAX_STREAMS && NodeOk(s, y) && Holds(s.nodes[y], Chan(s, x, y)[0].tag, i)
    requires SlotEffect(s.nodes[y].table, i, e)
    requires
      var c := Chan(s, x, y)[0].tag;
      && c < |s.conns| && ConnOk(s, c) && View(s, c).Outbox(!SideOf(s, y, c)) != []
      && LinkOk(AfterEvent(Popped(View(s, c), SideOf(s, y, c)), SideOf(s, y, c), e.table.streams[i], e.out, e.took, []))
    ensures
      var c := Chan(s, x, y)[0].tag;
      var t := Absorb(Pop(s, x, y), y, e, c, []);
      Structural(t) && ConnOk(t, c) && LinkOk(View(t, c))
  {
    PopStructural(s, x, y);
    PopView(s, x, y);
    var s1 := Pop(s, x, y);
    assert NodeOk(s1, y);
    AbsorbStructural(s1, y, i, e, []);
    AbsorbView(s1, y, i, e, []);
    assert ConnOk(Absorb(s1, y, e, Chan(s, x, y)[0].tag, []), Chan(s, x, y)[0].tag);
  }

  /** What there is to know about a frame that finds a slot. */
  lemma HeadSlot(s: System, x: u32, y: u32)
    requires Inv(s) && x in s.nodes && y in s.nodes && Chan(s, x, y) != []
    requires Target(s.nodes[y], x, Chan(s, x, y)[0].frame) < |s.nodes[y].table.streams|
    ensures
      var t, n := Chan(s, x, y)[0], s.nodes[y];
      var i := Target(n, x, t.frame);
      && t.tag < |s.conns| && ConnOk(s, t.tag) && FrameKeyed(s, x, y, t) && ActsOn(n, x, t) == t.tag
      && i < MAX_STREAMS && NodeOk(s, y) && Holds(n, t.tag, i) && Live(s, t.tag) && LinkOk(View(s, t.tag))
      && View(s, t.tag).EndAt(SideOf(s, y, t.tag)) == Up(n.table.streams[i].pending)
      && View(s, t.tag).Outbox(!SideOf(s, y, t.tag)) != []
      && View(s, t.tag).Outbox(!SideOf(s, y, t.tag))[0] == MsgOf(t.frame)
  {
    FramesActOnPairedSlot(s, x, y);
    HeadLink(s, x, y);
    SlotLink(s, y, Target(s.nodes[y], x, Chan(s, x, y)[0].frame));
    PopView(s, x, y);
  }

  /** The state and the link of the frame's connection after its effect on the slot it found. */
  lemma SlotFrameLink(s: System, x: u32, y: u32, local: Option<nat>, sends: seq<SendResult>)
    requires Inv(s) && x in s.nodes && y in s.nodes && Chan(s, x, y) != []
    requires Chan(s, x, y)[0].frame.kind != TUNNEL_OPEN
    requires Target(s.nodes[y], x, Chan(s, x, y)[0].frame) < |s.nodes[y].table.streams|
    ensures
      var head, n := Chan(s, x, y)[0], s.nodes[y];
      var e := OnFrame(n.table, x, head.frame, local, sends);
      && head.tag < |s.conns| && SlotEffect(n.table, Target(n, x, head.frame), e)
      && var t := Absorb(Pop(s, x, y), y, e, head.tag, []);
         Structural(t) && ConnOk(t, head.tag) && LinkOk(View(t, head.tag))
  {
    var head, n := Chan(s, x, y)[0], s.nodes[y];
    var i := Target(n, x, head.frame);
    HeadSlot(s, x, y);
    FrameKeepsLink(View(s, head.tag), SideOf(s, y, head.tag), n.table, i, x, head.frame, local, sends);
    SlotAfterPop(s, x, y, i, OnFrame(n.table, x, head.frame, local, sends));
  }

  /** A Data or Close frame keeps the invariant with its effect on the slot it found. */
  lemma SlotFrameKeeps(s: System, x: u32, y: u32, local: Option<nat>, sends: seq<SendResult>)
    requires Inv(s) && x in s.nodes && y in s.nodes && Chan(s, x, y) != []
    requires Chan(s, x, y)[0].frame.kind != TUNNEL_OPEN
    requires Target(s.nodes[y], x, Chan(s, x, y)[0].frame) < |s.nodes[y].table.streams|
    ensures Chan(s, x, y)[0].tag < |s.conns| && ActsOn(s.nodes[y], x, Chan(s, x, y)[0]) == Chan(s, x, y)[0].tag
    ensures
      var t := Chan(s, x, y)[0];
      Inv(Absorb(Pop(s, x, y), y, OnFrame(s.nodes[y].table, x, t.frame, local, sends), t.tag, []))
  {
    var t, n := Chan(s, x, y)[0], s.nodes[y];
    var i := Target(n, x, t.frame);
    HeadSlot(s, x, y);
    SlotFrameLink(s, x, y, local, sends);
    var e := OnFrame(n.table, x, t.frame, local, sends);
    DeliverOthers(s, x, y, i, e);
    OneLinkChanged(s, Absorb(Pop(s, x, y), y, e, t.tag, []), t.tag);
  }

  lemma DeliverToSlotKeeps(s: System, x: u32, y: u32, local: Option<nat>, sends: seq<SendResult>)
    requires Inv(s) && x in s.nodes && y in s.nodes && Chan(s, x, y) != []
    requires Chan(s, x, y)[0].frame.kind != TUNNEL_OPEN
    requires Target(s.nodes[y], x, Chan(s, x, y)[0].frame) < |s.nodes[y].table.streams|
    ensures ActsOn(s.nodes[y], x, Chan(s, x, y)[0]) < |s.conns| && Inv(NextDeliver(s, x, y, local, sends))
  {
    SlotFrameKeeps(s, x, y, local, sends);
    DeliverPlain(s, x, y, local, sends);
  }

  lemma DeliverOthers(s: System, x: u32, y: u32, i: nat, e: Effect)
    requires Inv(s) && x in s.nodes && y in s.nodes && Chan(s, x, y) != []
    requires i < MAX_STREAMS && NodeOk(s, y) && Holds(s.nodes[y], Chan(s, x, y)[0].tag, i)
    requires Chan(s, x, y)[0].tag < |s.conns| && SlotEffect(s.nodes[y].table, i, e)
    requires Structural(Absorb(Pop(s, x, y), y, e, Chan(s, x, y)[0].tag, []))
    ensures
      var c := Chan(s, x, y)[0].tag;
      var t := Absorb(Pop(s, x, y), y, e, c, []);
      forall d | 0 <= d < |s.conns| && d != c :: ConnOk(s, d) && ConnOk(t, d) && View(t, d) == View(s, d)
  {
    var c := Chan(s, x, y)[0].tag;
    var s1 := Pop(s, x, y);
    PopStructural(s, x, y);
    var t := Absorb(s1, y, e, c, []);
    forall d | 0 <= d < |s.conns| && d != c
      ensures ConnOk(s, d) && ConnOk(t, d) && View(t, d) == View(s, d)
    {
      assert ConnOk(s, d) && ConnOk(s1, d) && ConnOk(t, d) && NodeOk(s1, y);
      PopOthers(s, x, y, d);
      AbsorbOthers(s1, y, i, e, [], d);
    }
  }

  lemma DeliverNowhereKeeps(s: System, x: u32, y: u32, local: Option<nat>, sends: seq<SendResult>)
    requires Inv(s) && x in s.nodes && y in s.nodes && Chan(s, x, y) != []
    requires Chan(s, x, y)[0].tag < |s.conns| && ConnOk(s, Chan(s, x, y)[0].tag)
    requires View(s, Chan(s, x, y)[0].tag).EndAt(SideOf(s, y, Chan(s, x, y)[0].tag)).Absent?
    requires OnFrame(s.nodes[y].table, x, Chan(s, x, y)[0].frame, local, sends) == Effect(s.nodes[y].table, [], [])
    ensures ActsOn(s.nodes[y], x, Chan(s, x, y)[0]) < |s.conns| && Inv(NextDeliver(s, x, y, local, sends))
  {
    var t, n := Chan(s, x, y)[0], s.nodes[y];
    FramesActOnPairedSlot(s, x, y);
    HeadLink(s, x, y);
    PopStructural(s, x, y);
    var s1, l, side := Pop(s, x, y), View(s, t.tag), SideOf(s, y, t.tag);
    PopView(s, x, y);
    LosesOk(l, side);
    forall d | 0 <= d < |s.conns|
      ensures ConnOk(s, d) && ConnOk(s1, d) && (d != t.tag ==> View(s1, d) == View(s, d))
    {
      assert ConnOk(s, d) && ConnOk(s1, d);
      if d != t.tag {
        PopOthers(s, x, y, d);
      }
    }
    OneLinkChanged(s, s1, t.tag);
    NoEffect(s1, y, n, t.tag);
  }

  lemma NoEffect(s: System, y: u32, n: Node, c: nat)
    requires y in s.nodes && n == s.nodes[y] && c < |s.conns|
    ensures Absorb(s.(nodes := s.nodes[y := n.(tags := n.tags)]), y, Effect(n.table, [], []), c, []) == s
  {
    var k := s.conns[c];
    NoBytes(k.readO);
    NoBytes(k.readP);
    NoBytes(k.tookO);
    NoBytes(k.tookP);
    assert ReadAt(TookAt(k, y, []), y, []) == k;
  }

  // ---- Delivery of an Open ----

  /** Only the channel changes when a frame is sent and nothing else happens. */
  function Say(s: System, y: u32, o: Outgoing, c: nat): System {
    s.(chan := SendAll(s, y, [o], c))
  }

  lemma SayIs(s: System, y: u32, o: Outgoing, c: nat)
    requires y in s.nodes && c < |s.conns|
    ensures Absorb(s, y, Effect(s.nodes[y].table, [o], []), c, []) == Say(s, y, o, c)
  {
    var k, n := s.conns[c], s.nodes[y];
    AfterNothing(k, y);
    assert n.(table := n.table) == n;
    assert s.nodes[y := n] == s.nodes;
  }

  lemma AfterNothing(k: Conn, y: u32)
    ensures ReadAt(TookAt(k, y, []), y, []) == k
  {
    NoBytes(k.readO);
    NoBytes(k.readP);
    NoBytes(k.tookO);
    NoBytes(k.tookP);
  }

  lemma SayStructural(s: System, y: u32, o: Outgoing, c: nat)
    requires Structural(s) && FrameKeyed(s, y, o.peer, Tagged(o.frame, c))
    ensures Structural(Say(s, y, o, c))
  {
    var t := Say(s, y, o, c);
    forall a, b
      ensures ChanOk(t, a, b)
    {
      assert ChanOk(s, a, b);
      forall p | 0 <= p < |Chan(t, a, b)|
        ensures FrameKeyed(t, a, b, Chan(t, a, b)[p])
      {
        assert p < |Chan(s, a, b)| ==> FrameKeyed(s, a, b, Chan(s, a, b)[p]) && Chan(t, a, b)[p] == Chan(s, a, b)[p];
      }
    }
    forall z | z in t.nodes
      ensures NodeOk(t, z)
    {
      assert NodeOk(s, z);
      assert forall st, d :: SlotKeyed(s, z, st, d) ==> SlotKeyed(t, z, st, d);
    }
    forall d | 0 <= d < |t.conns|
      ensures ConnOk(t, d)
    {
      assert ConnOk(s, d);
    }
  }

  /** Connection c runs between consoles a and b. */
  predicate Between(s: System, c: nat, a: u32, b: u32)
    requires c < |s.conns|
  {
    var k := s.conns[c];
    (k.origin == a && k.peer == b) || (k.origin == b && k.peer == a)
  }

  lemma SayView(s: System, y: u32, o: Outgoing, c: nat, d: nat)
    requires d < |s.conns| && ConnOk(s, d)
    requires d == c ==> Between(s, c, y, o.peer)
    ensures
      var l, side := View(s, d), SideOf(s, y, d);
      && ConnOk(Say(s, y, o, c), d)
      && View(Say(s, y, o, c), d) == if d == c then l.WithOutbox(side, l.Outbox(side) + [MsgOf(o.frame)]) else l
  {
    var k := s.conns[d];
    MsgsAppend(Chan(s, y, o.peer), Tagged(o.frame, c), d);
    assert ConnOk(Say(s, y, o, c), d);
  }

  /** A stream for connection c takes a free slot. */
  function Seat(s: System, y: u32, i: nat, st: Stream, c: nat): System
    requires y in s.nodes && i < |s.nodes[y].table.streams| && i < |s.nodes[y].tags|
  {
    var n := s.nodes[y];
    s.(nodes := s.nodes[y := n.(table := WithStream(n.table, i, st), tags := n.tags[i := c])])
  }

  lemma SeatIs(s: System, y: u32, i: nat, st: Stream, c: nat)
    requires y in s.nodes && i < |s.nodes[y].table.streams| && i < |s.nodes[y].tags| && c < |s.conns|
    ensures
      var n := s.nodes[y];
      var tagged := s.(nodes := s.nodes[y := n.(tags := n.tags[i := c])]);
      Absorb(tagged, y, Effect(WithStream(n.table, i, st), [], []), c, []) == Seat(s, y, i, st, c)
  {
    var n := s.nodes[y];
    AfterNothing(s.conns[c], y);
    assert s.nodes[y := n.(tags := n.tags[i := c])][y := n.(table := WithStream(n.table, i, st), tags := n.tags[i := c])]
        == s.nodes[y := n.(table := WithStream(n.table, i, st), tags := n.tags[i := c])];
  }

  lemma SeatStructural(s: System, y: u32, i: nat, st: Stream, c: nat)
    requires Structural(s) && y in s.nodes && NodeOk(s, y) && i < MAX_STREAMS && !s.nodes[y].table.streams[i].used
    requires SlotKeyed(s, y, st, c) && forall j: nat :: !Holds(s.nodes[y], c, j)
    ensures Structural(Seat(s, y, i, st, c))
  {
    var t := Seat(s, y, i, st, c);
    forall z | z in t.nodes
      ensures NodeOk(t, z)
    {
      assert NodeOk(s, z);
      assert forall sz, d :: SlotKeyed(s, z, sz, d) ==> SlotKeyed(t, z, sz, d);
      if z == y {
        assert forall d, j :: Holds(t.nodes[y], d, j) ==> Holds(s.nodes[y], d, j) || (d == c && j == i);
      }
    }
    assert forall a, b, f :: FrameKeyed(s, a, b, f) ==> FrameKeyed(t, a, b, f);
    forall a, b
      ensures ChanOk(t, a, b)
    {
      assert ChanOk(s, a, b) && Chan(t, a, b) == Chan(s, a, b);
    }
    forall d | 0 <= d < |t.conns|
      ensures ConnOk(t, d)
    {
      assert ConnOk(s, d);
    }
  }

  lemma SeatView(s: System, y: u32, i: nat, st: Stream, c: nat)
    requires y in s.nodes && NodeOk(s, y) && i < MAX_STREAMS && !s.nodes[y].table.streams[i].used && st.used
    requires c < |s.conns| && ConnOk(s, c) && (s.conns[c].origin == y || s.conns[c].peer == y)
    requires forall j: nat :: !Holds(s.nodes[y], c, j)
    ensures ConnOk(Seat(s, y, i, st, c), c)
    ensures View(Seat(s, y, i, st, c), c) == View(s, c).WithEnd(SideOf(s, y, c), Up(st.pending))
  {
    var t := Seat(s, y, i, st, c);
    assert forall j :: Holds(t.nodes[y], c, j) ==> Holds(s.nodes[y], c, j) || j == i;
    assert Holds(t.nodes[y], c, i);
    EndFound(t.nodes[y], c, i, 0);
  }

  lemma SeatOthers(s: System, y: u32, i: nat, st: Stream, c: nat, d: nat)
    requires y in s.nodes && NodeOk(s, y) && i < MAX_STREAMS && !s.nodes[y].table.streams[i].used
    requires d < |s.conns| && d != c && ConnOk(s, d)
    ensures ConnOk(Seat(s, y, i, st, c), d) && View(Seat(s, y, i, st, c), d) == View(s, d)
  {
    var n, m := s.nodes[y], Seat(s, y, i, st, c).nodes[y];
    assert forall j: nat :: Holds(n, d, j) ==> j != i && m.table.streams[j] == n.table.streams[j] && m.tags[j] == n.tags[j];
    assert forall j: nat :: Holds(m, d, j) ==> j != i && m.table.streams[j] == n.table.streams[j] && m.tags[j] == n.tags[j];
    EndSame(n, m, d, 0);
  }

  /** The slot of an Open's connection does not exist yet: a repeat of a known stream cannot arrive on a loss-free channel. */
  lemma OpenIsNew(s: System, x: u32, y: u32)
    requires Inv(s) && x in s.nodes && y in s.nodes && Chan(s, x, y) != [] && Chan(s, x, y)[0].frame.kind == TUNNEL_OPEN
    ensures
      var t, n := Chan(s, x, y)[0], s.nodes[y];
      && t.tag < |s.conns| && ConnOk(s, t.tag) && s.conns[t.tag].origin == x && s.conns[t.tag].peer == y
      && !SideOf(s, y, t.tag) && ActsOn(n, x, t) == t.tag && LinkOk(View(s, t.tag)) && Live(s, t.tag)
      && View(s, t.tag).peer == Absent && View(s, t.tag).out != [] && View(s, t.tag).out[0] == Open
      && Find(n.table.streams, x, t.frame.stream, false) == |n.table.streams|
      && forall j: nat :: !Holds(n, t.tag, j)
  {
    HeadLink(s, x, y);
    PopView(s, x, y);
    FramesActOnPairedSlot(s, x, y);
    assert Opening(View(s, Chan(s, x, y)[0].tag));
  }

  lemma OpenRefusedKeeps(s: System, x: u32, y: u32)
    requires Inv(s) && x in s.nodes && y in s.nodes && Chan(s, x, y) != [] && Chan(s, x, y)[0].frame.kind == TUNNEL_OPEN
    ensures
      var t := Chan(s, x, y)[0];
      Inv(Say(Pop(s, x, y), y, Outgoing(x, TunnelFrame(TUNNEL_CLOSE, OWNER_RECEIVER, t.frame.stream, 0, [])), t.tag))
  {
    OpenIsNew(s, x, y);
    var t, s1 := Chan(s, x, y)[0], Pop(s, x, y);
    var c, o := t.tag, Outgoing(x, TunnelFrame(TUNNEL_CLOSE, OWNER_RECEIVER, t.frame.stream, 0, []));
    HeadLink(s, x, y);
    PopStructural(s, x, y);
    PopView(s, x, y);
    SayStructural(s1, y, o, c);
    RefusedOk(View(s, c));
    var s2 := Say(s1, y, o, c);
    forall d | 0 <= d < |s.conns|
      ensures ConnOk(s, d) && ConnOk(s2, d) && (d != c ==> View(s2, d) == View(s, d))
    {
      assert ConnOk(s, d) && ConnOk(s1, d);
      SayView(s1, y, o, c, d);
      if d != c {
        PopOthers(s, x, y, d);
      }
    }
    assert ConnOk(s1, c);
    SayView(s1, y, o, c, c);
    OneLinkChanged(s, s2, c);
  }

  lemma OpenTakenKeeps(s: System, x: u32, y: u32, i: nat, st: Stream)
    requires Inv(s) && x in s.nodes && y in s.nodes && Chan(s, x, y) != [] && Chan(s, x, y)[0].frame.kind == TUNNEL_OPEN
    requires NodeOk(s, y) && i < MAX_STREAMS && !s.nodes[y].table.streams[i].used
    requires st.used && !st.originator && st.id == Chan(s, x, y)[0].frame.stream && st.peer == x && st.pending == []
    ensures Inv(Seat(Pop(s, x, y), y, i, st, Chan(s, x, y)[0].tag))
  {
    OpenIsNew(s, x, y);
    var c, s1 := Chan(s, x, y)[0].tag, Pop(s, x, y);
    HeadLink(s, x, y);
    PopStructural(s, x, y);
    PopView(s, x, y);
    assert NodeOk(s1, y) && ConnOk(s1, c) && SlotKeyed(s1, y, st, c);
    SeatStructural(s1, y, i, st, c);
    OpensOk(View(s, c));
    SeatView(s1, y, i, st, c);
    var s2 := Seat(s1, y, i, st, c);
    forall d | 0 <= d < |s.conns| && d != c
      ensures ConnOk(s, d) && ConnOk(s2, d) && View(s2, d) == View(s, d)
    {
      assert ConnOk(s, d) && ConnOk(s1, d);
      SeatOthers(s1, y, i, st, c, d);
      PopOthers(s, x, y, d);
    }
    OneLinkChanged(s, s2, c);
  }

  lemma DeliverOpenKeeps(s: System, x: u32, y: u32, local: Option<nat>, sends: seq<SendResult>)
    requires Inv(s) && x in s.nodes && y in s.nodes && Chan(s, x, y) != [] && Chan(s, x, y)[0].frame.kind == TUNNEL_OPEN
    ensures ActsOn(s.nodes[y], x, Chan(s, x, y)[0]) < |s.conns| && Inv(NextDeliver(s, x, y, local, sends))
  {
    OpenIsNew(s, x, y);
    assert NodeOk(s, y);
    var t, n := Chan(s, x, y)[0], s.nodes[y];
    var free := FindFree(n.table.streams);
    if free == |n.table.streams| {
      DeliverNowhereKeeps(s, x, y, local, sends);
    } else if local.None? {
      OpenRefusedKeeps(s, x, y);
      DeliverPlain(s, x, y, local, sends);
      SayIs(Pop(s, x, y), y, Outgoing(x, TunnelFrame(TUNNEL_CLOSE, OWNER_RECEIVER, t.frame.stream, 0, [])), t.tag);
    } else {
      var st := Stream(true, false, t.frame.stream, x, -1, 0, -1, local.value, []);
      OpenTakenKeeps(s, x, y, free, st);
      assert WithStream(n.table, free, st).streams[free] != n.table.streams[free];
      SeatIs(Pop(s, x, y), y, free, st, t.tag);
    }
  }

  lemma DeliverKeeps(s: System, x: u32, y: u32, local: Option<nat>, sends: seq<SendResult>)
    requires Inv(s) && x in s.nodes && y in s.nodes && Chan(s, x, y) != []
    ensures ActsOn(s.nodes[y], x, Chan(s, x, y)[0]) < |s.conns| && Inv(NextDeliver(s, x, y, local, sends))
  {
    FramesActOnPairedSlot(s, x, y);
    HeadLink(s, x, y);
    var t, n := Chan(s, x, y)[0], s.nodes[y];
    if t.frame.kind == TUNNEL_OPEN {
      DeliverOpenKeeps(s, x, y, local, sends);
    } else if Target(n, x, t.frame) < |n.table.streams| {
      DeliverToSlotKeeps(s, x, y, local, sends);
    } else {
      DeliverNowhereKeeps(s, x, y, local, sends);
    }
  }

  // ---- Opening a connection, and stopping ----

  /** Console x draws its next id, for a connection (ks) or in vain. */
  function Draw(s: System, x: u32, ks: seq<Conn>): System
    requires x in s.nodes
  {
    var n := s.nodes[x];
    System(s.nodes[x := Node(n.table.(nextId := Low16(n.table.nextId + 1)), n.tags, n.drawn + 1)], s.chan, s.conns + ks)
  }

  ghost predicate Drawn(s: System, x: u32, k: Conn)
    requires x in s.nodes
  {
    && k.origin == x && k.peer in s.nodes && k.peer != x && k.id == s.nodes[x].table.nextId && k.serial == s.nodes[x].drawn
    && k.readO == [] && k.tookO == [] && k.readP == [] && k.tookP == []
  }

  lemma DrawStructural(s: System, x: u32, ks: seq<Conn>)
    requires Structural(s) && x in s.nodes && |ks| <= 1 && forall k | k in ks :: Drawn(s, x, k)
    ensures Structural(Draw(s, x, ks))
  {
    var t := Draw(s, x, ks);
    assert NodeOk(s, x);
    forall z | z in t.nodes
      ensures NodeOk(t, z)
    {
      assert NodeOk(s, z);
      assert forall sz, d :: SlotKeyed(s, z, sz, d) ==> SlotKeyed(t, z, sz, d);
      assert forall d, j :: Holds(t.nodes[z], d, j) ==> Holds(s.nodes[z], d, j);
    }
    assert forall a, b, f :: FrameKeyed(s, a, b, f) ==> FrameKeyed(t, a, b, f);
    forall a, b
      ensures ChanOk(t, a, b)
    {
      assert ChanOk(s, a, b) && Chan(t, a, b) == Chan(s, a, b);
    }
    forall d | 0 <= d < |t.conns|
      ensures ConnOk(t, d)
    {
      if d < |s.conns| {
        assert ConnOk(s, d);
      } else {
        assert t.conns[d] == ks[0] && ks[0] in ks;
      }
    }
  }

  lemma DrawView(s: System, x: u32, ks: seq<Conn>, d: nat)
    requires x in s.nodes && d < |s.conns| && ConnOk(s, d)
    ensures
      var t := Draw(s, x, ks);
      ConnOk(t, d) && View(t, d) == View(s, d) && SameKey(s.conns[d], t.conns[d])
  {
    var n, m := s.nodes[x], Draw(s, x, ks).nodes[x];
    assert forall j: nat :: Holds(n, d, j) <==> Holds(m, d, j);
    EndSame(n, m, d, 0);
  }

  lemma {:induction false} NoMsgs(ch: seq<Tagged>, c: nat)
    requires forall p | 0 <= p < |ch| :: ch[p].tag != c
    ensures Msgs(ch, c) == []
  {
    if ch != [] {
      assert forall p | 0 <= p < |ch[1..]| :: ch[1..][p] == ch[p + 1];
      NoMsgs(ch[1..], c);
    }
  }

  lemma HeldTags(s: System, z: u32)
    requires Structural(s) && z in s.nodes
    ensures forall c: nat, j: nat :: Holds(s.nodes[z], c, j) ==> c < |s.conns|
  {
    assert NodeOk(s, z);
    forall c: nat, j: nat | Holds(s.nodes[z], c, j)
      ensures c < |s.conns|
    {
      assert SlotKeyed(s, z, s.nodes[z].table.streams[j], s.nodes[z].tags[j]);
    }
  }

  lemma NewEmpty(s: System, x: u32, k: Conn)
    requires Structural(s) && x in s.nodes && Drawn(s, x, k)
    ensures
      var t, c := Draw(s, x, [k]), |s.conns|;
      && ConnOk(t, c) && (forall z, j: nat | z in s.nodes :: !Holds(t.nodes[z], c, j))
      && View(t, c) == Link(Absent, Absent, [], [], [], [], [], [])
  {
    var t, c := Draw(s, x, [k]), |s.conns|;
    assert NodeOk(s, x);
    forall z, j: nat | z in s.nodes
      ensures !Holds(t.nodes[z], c, j)
    {
      assert Holds(t.nodes[z], c, j) ==> Holds(s.nodes[z], c, j);
      HeldTags(s, z);
    }
    EndMissing(t.nodes[x], c, 0);
    EndMissing(t.nodes[k.peer], c, 0);
    NoTag(s, x, k.peer);
    NoTag(s, k.peer, x);
    NoMsgs(Chan(s, x, k.peer), c);
    NoMsgs(Chan(s, k.peer, x), c);
  }

  lemma NoTag(s: System, a: u32, b: u32)
    requires Structural(s)
    ensures forall p | 0 <= p < |Chan(s, a, b)| :: Chan(s, a, b)[p].tag < |s.conns|
  {
    assert ChanOk(s, a, b);
    forall p | 0 <= p < |Chan(s, a, b)|
      ensures Chan(s, a, b)[p].tag < |s.conns|
    {
      assert FrameKeyed(s, a, b, Chan(s, a, b)[p]);
    }
  }

  /** Nothing any link shows has changed. */
  lemma NoLinkChanged(s: System, t: System)
    requires Inv(s) && Structural(t) && |t.conns| == |s.conns|
    requires forall d | 0 <= d < |s.conns| :: SameKey(s.conns[d], t.conns[d]) && ConnOk(s, d) && ConnOk(t, d) && View(t, d) == View(s, d)
    ensures Inv(t)
  {
    forall d | 0 <= d < |t.conns|
      ensures ConnOk(t, d) && LinkOk(View(t, d)) && (Live(t, d) ==> Live(s, d))
    {
      assert ConnOk(s, d);
    }
  }

  /** The whole of a redirected connect: the draw, the slot, the Open. */
  function Opened(s: System, x: u32, i: nat, st: Stream, k: Conn, port: u16): System
    requires x in s.nodes && i < |s.nodes[x].table.streams| && i < |s.nodes[x].tags|
  {
    Say(Seat(Draw(s, x, [k]), x, i, st, |s.conns|), x,
        Outgoing(k.peer, TunnelFrame(TUNNEL_OPEN, OWNER_SENDER, k.id, port, [])), |s.conns|)
  }

  lemma OpenedStructural(s: System, x: u32, i: nat, st: Stream, k: Conn, port: u16)
    requires Structural(s) && x in s.nodes && NodeOk(s, x) && i < MAX_STREAMS && !s.nodes[x].table.streams[i].used
    requires Drawn(s, x, k) && st.used && st.originator && st.id == k.id && st.peer == k.peer && st.pending == []
    ensures Structural(Opened(s, x, i, st, k, port))
    ensures ConnOk(Opened(s, x, i, st, k, port), |s.conns|) && View(Opened(s, x, i, st, k, port), |s.conns|) == NEW
  {
    var c, s0 := |s.conns|, Draw(s, x, [k]);
    DrawStructural(s, x, [k]);
    NewEmpty(s, x, k);
    assert NodeOk(s0, x) && SlotKeyed(s0, x, st, c);
    SeatStructural(s0, x, i, st, c);
    SeatView(s0, x, i, st, c);
    var s1, o := Seat(s0, x, i, st, c), Outgoing(k.peer, TunnelFrame(TUNNEL_OPEN, OWNER_SENDER, k.id, port, []));
    SayStructural(s1, x, o, c);
    SayView(s1, x, o, c, c);
  }

  lemma OpenedOthers(s: System, x: u32, i: nat, st: Stream, k: Conn, port: u16, d: nat)
    requires Structural(s) && x in s.nodes && NodeOk(s, x) && i < MAX_STREAMS && !s.nodes[x].table.streams[i].used
    requires Drawn(s, x, k) && d < |s.conns|
    ensures
      var t := Opened(s, x, i, st, k, port);
      ConnOk(s, d) && ConnOk(t, d) && View(t, d) == View(s, d) && t.conns[d] == s.conns[d]
  {
    var c, s0 := |s.conns|, Draw(s, x, [k]);
    DrawStructural(s, x, [k]);
    assert ConnOk(s, d) && NodeOk(s0, x);
    DrawView(s, x, [k], d);
    SeatOthers(s0, x, i, st, c, d);
    SayView(Seat(s0, x, i, st, c), x, Outgoing(k.peer, TunnelFrame(TUNNEL_OPEN, OWNER_SENDER, k.id, port, [])), c, d);
  }

  /** A fresh connection beside the ones there are. */
  lemma OneLinkAdded(s: System, t: System, k: Conn, x: u32)
    requires Inv(s) && Structural(t) && x in s.nodes && t.conns == s.conns + [k] && Drawn(s, x, k) && FreshDraw(s, x, k.peer)
    requires forall d | 0 <= d < |s.conns| :: ConnOk(s, d) && ConnOk(t, d) && View(t, d) == View(s, d)
    requires ConnOk(t, |s.conns|) && LinkOk(View(t, |s.conns|))
    ensures Inv(t)
  {
    forall d | 0 <= d < |t.conns|
      ensures ConnOk(t, d) && LinkOk(View(t, d))
    {
      assert d < |s.conns| ==> ConnOk(s, d);
    }
    forall c, d | 0 <= c < |t.conns| && 0 <= d < |t.conns| && Live(t, c) && Live(t, d) && SameKey(t.conns[c], t.conns[d])
      ensures c == d
    {
      assert c < |s.conns| ==> Live(s, c);
      assert d < |s.conns| ==> Live(s, d);
    }
  }

  lemma OpenedKeeps(s: System, x: u32, i: nat, st: Stream, k: Conn, port: u16)
    requires Inv(s) && x in s.nodes && NodeOk(s, x) && i < MAX_STREAMS && !s.nodes[x].table.streams[i].used
    requires Drawn(s, x, k) && st.used && st.originator && st.id == k.id && st.peer == k.peer && st.pending == []
    requires FreshDraw(s, x, k.peer)
    ensures Inv(Opened(s, x, i, st, k, port))
  {
    var t := Opened(s, x, i, st, k, port);
    OpenedStructural(s, x, i, st, k, port);
    NewIsOk();
    forall d | 0 <= d < |s.conns|
      ensures ConnOk(s, d) && ConnOk(t, d) && View(t, d) == View(s, d)
    {
      OpenedOthers(s, x, i, st, k, port, d);
    }
    OneLinkAdded(s, t, k, x);
  }

  lemma ConnectKeeps(s: System, x: u32, y: u32, gameFd: int, port: u16, setup: Setup)
    requires Inv(s) && x in s.nodes && y in s.nodes && x != y && FreshDraw(s, x, y)
    ensures Inv(NextConnect(s, x, y, gameFd, port, setup))
  {
    assert NodeOk(s, x);
    var n := s.nodes[x];
    var t, free := NextConnect(s, x, y, gameFd, port, setup), FindFree(n.table.streams);
    if FindGame(n.table.streams, gameFd) < MAX_STREAMS || free == MAX_STREAMS || setup.NoListener? {
      assert s.nodes[x := Node(n.table, n.tags, n.drawn)] == s.nodes;
      assert t == s;
    } else if setup.DispatchFailed? {
      assert s.conns + [] == s.conns;
      assert t == Draw(s, x, []);
      DrawStructural(s, x, []);
      forall d | 0 <= d < |s.conns|
        ensures SameKey(s.conns[d], t.conns[d]) && ConnOk(s, d) && ConnOk(t, d) && View(t, d) == View(s, d)
      {
        assert ConnOk(s, d);
        DrawView(s, x, [], d);
      }
      NoLinkChanged(s, t);
    } else {
      var k := Conn(x, y, n.table.nextId, n.drawn, [], [], [], []);
      var st := Stream(true, true, n.table.nextId, y, gameFd, setup.lport, setup.lfd, -1, []);
      OpenedKeeps(s, x, free, st, k, port);
      ConnectIsOpened(s, x, y, gameFd, port, setup);
    }
  }

  lemma ConnectIsOpened(s: System, x: u32, y: u32, gameFd: int, port: u16, setup: Setup)
    requires x in s.nodes && |s.nodes[x].table.streams| == |s.nodes[x].tags| && setup.Ready?
    requires FindGame(s.nodes[x].table.streams, gameFd) == |s.nodes[x].table.streams|
    requires FindFree(s.nodes[x].table.streams) < |s.nodes[x].table.streams|
    ensures
      var n := s.nodes[x];
      NextConnect(s, x, y, gameFd, port, setup)
      == Opened(s, x, FindFree(n.table.streams), Stream(true, true, n.table.nextId, y, gameFd, setup.lport, setup.lfd, -1, []),
                Conn(x, y, n.table.nextId, n.drawn, [], [], [], []), port)
  {
    var n := s.nodes[x];
    var free, k := FindFree(n.table.streams), Conn(x, y, n.table.nextId, n.drawn, [], [], [], []);
    var st := Stream(true, true, n.table.nextId, y, gameFd, setup.lport, setup.lfd, -1, []);
    var m := Node(WithStream(n.table, free, st).(nextId := Low16(n.table.nextId + 1)), n.tags[free := |s.conns|], n.drawn + 1);
    assert s.nodes[x := Draw(s, x, [k]).nodes[x]][x := m] == s.nodes[x := m];
  }

  /** Stopping drops every end at the console, telling no one. */
  lemma StopKeeps(s: System, x: u32)
    requires Inv(s) && x in s.nodes
    ensures Inv(s.(nodes := s.nodes[x := s.nodes[x].(table := Stopped(s.nodes[x].table))]))
  {
    var t := s.(nodes := s.nodes[x := s.nodes[x].(table := Stopped(s.nodes[x].table))]);
    StopStructural(s, x);
    forall d | 0 <= d < |t.conns|
      ensures ConnOk(t, d) && LinkOk(View(t, d)) && (Live(t, d) ==> Live(s, d))
    {
      assert ConnOk(s, d) && ConnOk(t, d);
      EndMissing(t.nodes[x], d, 0);
      var l, side := View(s, d), SideOf(s, x, d);
      if (s.conns[d].origin == x || s.conns[d].peer == x) && l.EndAt(side).Up? {
        LeavesOk(l, side, false);
        assert View(t, d) == Leaves(l, side, false);
      } else {
        assert View(t, d) == l;
      }
    }
  }

  lemma StopStructural(s: System, x: u32)
    requires Structural(s) && x in s.nodes
    ensures Structural(s.(nodes := s.nodes[x := s.nodes[x].(table := Stopped(s.nodes[x].table))]))
  {
    var t := s.(nodes := s.nodes[x := s.nodes[x].(table := Stopped(s.nodes[x].table))]);
    forall z | z in t.nodes
      ensures NodeOk(t, z)
    {
      assert NodeOk(s, z);
      assert forall sz, d :: SlotKeyed(s, z, sz, d) ==> SlotKeyed(t, z, sz, d);
    }
    assert forall a, b, f :: FrameKeyed(s, a, b, f) ==> FrameKeyed(t, a, b, f);
    forall a, b
      ensures ChanOk(t, a, b)
    {
      assert ChanOk(s, a, b) && Chan(t, a, b) == Chan(s, a, b);
    }
    forall d | 0 <= d < |t.conns|
      ensures ConnOk(t, d)
    {
      assert ConnOk(s, d);
    }
  }

  /** Every step keeps the invariant, provided an id is not drawn while a connection still uses it. */
  lemma StepKeeps(s: System, step: Step)
    requires Inv(s) && Enabled(s, step) && Booked(s, step)
    requires step.Connect? ==> FreshDraw(s, step.x, step.y)
    ensures Inv(Next(s, step))
  {
    match step
    case Connect(x, y, gameFd, port, setup) => ConnectKeeps(s, x, y, gameFd, port, setup);
    case Deliver(x, y, local, sends) => DeliverKeeps(s, x, y, local, sends);
    case Stop(x) => StopKeeps(s, x);
    case _ => LocalStepKeeps(s, step);
  }

  /** The tags are bookkeeping: they never keep a step from happening. */
  lemma TagsNeverBlock(s: System, step: Step)
    requires Inv(s) && Enabled(s, step)
    ensures Booked(s, step)
  {
    match step
    case Connect(_, _, _, _, _) =>
    case Stop(_) =>
    case Deliver(x, y, _, _) =>
      HeadLink(s, x, y);
      FramesActOnPairedSlot(s, x, y);
    case _ =>
      assert NodeOk(s, step.x);
      assert SlotKeyed(s, step.x, s.nodes[step.x].table.streams[step.i], s.nodes[step.x].tags[step.i]);
  }
}
