// That tunnelled connections work: Opens bring the peer's end up, Closes take it
// down, only the events that should end a stream do, and from every reachable
// state everything read so far can still reach the other side's game.

module TunnelLive {
  import opened Bytes
  import opened TunnelTable
  import opened TunnelLink
  import opened TunnelSystem
  import opened TunnelSteps
  import opened TunnelRuns

  // ---- Slots and frames of every reachable state ----

  /** A used slot has a socket, or - at the originator - still the listener its game will connect to. */
  predicate SlotWired(st: Stream) {
    st.used ==> |st.pending| <= PENDING_MAX && (st.sock >= 0 || (st.originator && st.listener >= 0))
  }

  ghost predicate TableWired(t: Table) {
    forall i | 0 <= i < |t.streams| :: SlotWired(t.streams[i])
  }

  ghost predicate ChunksOk(ch: seq<Tagged>) {
    forall t | t in ch :: |t.frame.data| <= MAX_CHUNK
  }

  ghost predicate Wired(s: System) {
    && (forall x | x in s.nodes :: TableWired(s.nodes[x].table))
    && (forall p | p in s.chan :: ChunksOk(s.chan[p]))
  }

  ghost predicate EffectWired(e: Effect) {
    TableWired(e.table) && forall k | 0 <= k < |e.out| :: |e.out[k].frame.data| <= MAX_CHUNK
  }

  lemma FlushWired(t: Table, i: nat, sends: seq<SendResult>)
    requires TableWired(t) && i < |t.streams|
    ensures EffectWired(FlushSlot(t, i, sends))
  {
    FlushSplits(t.streams[i].pending, sends);
  }

  lemma FrameWired(t: Table, src: u32, f: TunnelFrame, fd: Option<nat>, sends: seq<SendResult>)
    requires TableWired(t)
    ensures EffectWired(OnFrame(t, src, f, fd, sends))
  {
    var i := Find(t.streams, src, f.stream, f.owner == OWNER_RECEIVER);
    if f.kind == TUNNEL_DATA && i < |t.streams| && f.data != [] && |t.streams[i].pending| + |f.data| <= PENDING_MAX {
      FlushWired(WithStream(t, i, t.streams[i].(pending := t.streams[i].pending + f.data)), i, sends);
    }
  }

  lemma AbsorbWired(s: System, x: u32, e: Effect, c: nat, read: seq<byte>)
    requires Wired(s) && x in s.nodes && c < |s.conns| && EffectWired(e)
    ensures Wired(Absorb(s, x, e, c, read))
  {
    var t := Absorb(s, x, e, c, read);
  }

  lemma PopWired(s: System, x: u32, y: u32)
    requires Wired(s) && Chan(s, x, y) != []
    ensures Wired(Pop(s, x, y))
  {
    var t := Pop(s, x, y);
  }

  lemma DeliverWired(s: System, x: u32, y: u32, fd: Option<nat>, sends: seq<SendResult>)
    requires Wired(s) && y in s.nodes && Chan(s, x, y) != [] && ActsOn(s.nodes[y], x, Chan(s, x, y)[0]) < |s.conns|
    ensures Wired(NextDeliver(s, x, y, fd, sends))
  {
    var head, n := Chan(s, x, y)[0], s.nodes[y];
    var e := OnFrame(n.table, x, head.frame, fd, sends);
    FrameWired(n.table, x, head.frame, fd, sends);
    PopWired(s, x, y);
    var opened_ := head.frame.kind == TUNNEL_OPEN && e.table != n.table;
    var tags := if opened_ && FindFree(n.table.streams) < |n.tags| then n.tags[FindFree(n.table.streams) := head.tag] else n.tags;
    var s1 := Pop(s, x, y).(nodes := s.nodes[y := n.(tags := tags)]);
    AbsorbWired(s1, y, e, ActsOn(n, x, head), []);
  }

  lemma ConnectWired(s: System, x: u32, y: u32, gameFd: int, port: u16, setup: Setup)
    requires Wired(s) && x in s.nodes
    ensures Wired(NextConnect(s, x, y, gameFd, port, setup))
  {
    var t, e := NextConnect(s, x, y, gameFd, port, setup), Redirect(s.nodes[x].table, gameFd, y, port, setup).0;
    assert EffectWired(e);
  }

  lemma StepKeepsWired(s: System, step: Step)
    requires Wired(s) && Enabled(s, step) && Booked(s, step)
    ensures Wired(Next(s, step))
  {
    match step
    case Connect(x, y, gameFd, port, setup) => ConnectWired(s, x, y, gameFd, port, setup);
    case Deliver(x, y, fd, sends) => DeliverWired(s, x, y, fd, sends);
    case Stop(x) =>
    case Accepted(x, i, fd, sends) =>
      var t := s.nodes[x].table;
      FlushWired(WithStream(t, i, t.streams[i].(listener := -1, sock := fd)), i, sends);
      AbsorbWired(s, x, AcceptSlot(t, i, fd, sends), s.nodes[x].tags[i], []);
    case Idled(x, i, sends) =>
      FlushWired(s.nodes[x].table, i, sends);
      AbsorbWired(s, x, FlushSlot(s.nodes[x].table, i, sends), s.nodes[x].tags[i], []);
    case Arrived(x, i, data) => AbsorbWired(s, x, ReadSlot(s.nodes[x].table, i, data), s.nodes[x].tags[i], data);
    case Ended(x, i) => AbsorbWired(s, x, ShutSlot(s.nodes[x].table, i), s.nodes[x].tags[i], []);
  }

  lemma StartWired(consoles: set<u32>)
    ensures Wired(Start(consoles))
  {
    var s := Start(consoles);
  }

  lemma {:induction false} RunsKeepWired(s: System, steps: seq<Step>, t: System)
    requires Wired(s) && Run(s, steps, t)
    ensures Wired(t)
    decreases |steps|
  {
    if steps != [] {
      StepKeepsWired(s, steps[0]);
      RunsKeepWired(Next(s, steps[0]), steps[1..], t);
    }
  }

  // ---- What a delivered frame does to its connection, and to no other ----

  ghost predicate Room(n: Node) {
    exists i :: 0 <= i < |n.table.streams| && !n.table.streams[i].used
  }

  lemma RoomIsFree(n: Node)
    ensures Room(n) <==> FindFree(n.table.streams) < |n.table.streams|
  {
  }

  /** The link after an Open reached a console with or without room, whose game could be reached or not. */
  ghost function Answered(l: Link, room: bool, reached: bool): Link
    requires l.out != []
  {
    var p := Popped(l, false);
    if !room then p else if reached then p.WithEnd(false, Up([])) else p.WithOutbox(false, p.back + [Close])
  }

  /**
   * An Open brings up the peer's end of its connection exactly if the peer has
   * a free slot and its game can be reached, on the socket that reached it; if
   * only the game cannot be reached, a Close goes back.
   */
  lemma OpenComesUp(s: System, x: u32, y: u32, local: Option<nat>, sends: seq<SendResult>)
    requires Inv(s) && x in s.nodes && y in s.nodes && Chan(s, x, y) != [] && Chan(s, x, y)[0].frame.kind == TUNNEL_OPEN
    ensures ActsOn(s.nodes[y], x, Chan(s, x, y)[0]) < |s.conns|
    ensures
      var c, t := Chan(s, x, y)[0].tag, NextDeliver(s, x, y, local, sends);
      && ConnOk(s, c) && ConnOk(t, c) && s.conns[c].origin == x && s.conns[c].peer == y
      && View(s, c).out != [] && View(t, c) == Answered(View(s, c), Room(s.nodes[y]), local.Some?)
      && (Room(s.nodes[y]) && local.Some? ==>
            exists i: nat :: Holds(t.nodes[y], c, i) && t.nodes[y].table.streams[i].sock == local.value)
  {
    OpenIsNew(s, x, y);
    assert NodeOk(s, y);
    var head, n, s1 := Chan(s, x, y)[0], s.nodes[y], Pop(s, x, y);
    var c, free := head.tag, FindFree(n.table.streams);
    RoomIsFree(n);
    PopView(s, x, y);
    PopStructural(s, x, y);
    assert ConnOk(s1, c) && NodeOk(s1, y);
    if free == |n.table.streams| {
      NoEffect(s1, y, n, c);
    } else if local.None? {
      var o := Outgoing(x, TunnelFrame(TUNNEL_CLOSE, OWNER_RECEIVER, head.frame.stream, 0, []));
      DeliverPlain(s, x, y, local, sends);
      SayIs(s1, y, o, c);
      SayView(s1, y, o, c, c);
    } else {
      var st := Stream(true, false, head.frame.stream, x, -1, 0, -1, local.value, []);
      assert WithStream(n.table, free, st).streams[free] != n.table.streams[free];
      SeatIs(s1, y, free, st, c);
      SeatView(s1, y, free, st, c);
      assert Holds(Seat(s1, y, free, st, c).nodes[y], c, free);
    }
  }

  /** An Open that comes again, as after a retransmission, changes nothing and is not answered. */
  lemma RepeatedOpenIgnored(t: Table, src: u32, f: TunnelFrame, fd: nat, again: Option<nat>, sends: seq<SendResult>)
    requires f.kind == TUNNEL_OPEN && exists st :: st in t.streams && !st.used
    ensures
      var opened_ := OnFrame(t, src, f, Some(fd), sends).table;
      && OnFrame(opened_, src, f, again, sends) == Effect(opened_, [], [])
      && exists st :: st in opened_.streams && Matches(st, src, f.stream, false)
  {
    var opened_, free := OnFrame(t, src, f, Some(fd), sends).table, FindFree(t.streams);
    var known := Find(t.streams, src, f.stream, false);
    if known < |t.streams| {
      assert opened_ == t && t.streams[known] in t.streams;
    } else {
      assert Matches(opened_.streams[free], src, f.stream, false) && opened_.streams[free] in opened_.streams;
    }
  }

  lemma OpenLeavesOthers(s: System, x: u32, y: u32, local: Option<nat>, sends: seq<SendResult>, d: nat)
    requires Inv(s) && x in s.nodes && y in s.nodes && Chan(s, x, y) != [] && Chan(s, x, y)[0].frame.kind == TUNNEL_OPEN
    requires d < |s.conns| && d != Chan(s, x, y)[0].tag
    ensures ActsOn(s.nodes[y], x, Chan(s, x, y)[0]) < |s.conns| && ConnOk(s, d)
    ensures ConnOk(NextDeliver(s, x, y, local, sends), d) && View(NextDeliver(s, x, y, local, sends), d) == View(s, d)
  {
    OpenIsNew(s, x, y);
    assert NodeOk(s, y) && ConnOk(s, d);
    var head, n, s1 := Chan(s, x, y)[0], s.nodes[y], Pop(s, x, y);
    var c, free := head.tag, FindFree(n.table.streams);
    PopOthers(s, x, y, d);
    PopStructural(s, x, y);
    assert ConnOk(s1, d) && NodeOk(s1, y);
    if free == |n.table.streams| {
      NoEffect(s1, y, n, c);
    } else if local.None? {
      var o := Outgoing(x, TunnelFrame(TUNNEL_CLOSE, OWNER_RECEIVER, head.frame.stream, 0, []));
      DeliverPlain(s, x, y, local, sends);
      SayIs(s1, y, o, c);
      SayView(s1, y, o, c, d);
    } else {
      var st := Stream(true, false, head.frame.stream, x, -1, 0, -1, local.value, []);
      assert WithStream(n.table, free, st).streams[free] != n.table.streams[free];
      SeatIs(s1, y, free, st, c);
      SeatOthers(s1, y, free, st, c, d);
    }
  }

  /** The link after a Data or Close frame that found slot i. */
  lemma SlotSeesFrame(s: System, x: u32, y: u32, local: Option<nat>, sends: seq<SendResult>)
    requires Inv(s) && x in s.nodes && y in s.nodes && Chan(s, x, y) != []
    requires Chan(s, x, y)[0].frame.kind != TUNNEL_OPEN
    requires Target(s.nodes[y], x, Chan(s, x, y)[0].frame) < |s.nodes[y].table.streams|
    ensures ActsOn(s.nodes[y], x, Chan(s, x, y)[0]) < |s.conns|
    ensures
      var head, n, t := Chan(s, x, y)[0], s.nodes[y], NextDeliver(s, x, y, local, sends);
      var c, i, e := head.tag, Target(n, x, head.frame), OnFrame(n.table, x, head.frame, local, sends);
      && c < |s.conns| && ConnOk(s, c) && ConnOk(t, c)
      && View(s, c).Outbox(!SideOf(s, y, c)) != [] && i < |e.table.streams|
      && View(t, c)
         == AfterEvent(Popped(View(s, c), SideOf(s, y, c)), SideOf(s, y, c), e.table.streams[i], e.out, e.took, [])
    ensures forall d | 0 <= d < |s.conns| && d != Chan(s, x, y)[0].tag ::
      var t := NextDeliver(s, x, y, local, sends);
      ConnOk(s, d) && ConnOk(t, d) && View(t, d) == View(s, d)
  {
    var head, n := Chan(s, x, y)[0], s.nodes[y];
    var i := Target(n, x, head.frame);
    HeadSlot(s, x, y);
    FrameKeepsLink(View(s, head.tag), SideOf(s, y, head.tag), n.table, i, x, head.frame, local, sends);
    var e := OnFrame(n.table, x, head.frame, local, sends);
    SlotAfterPop(s, x, y, i, e);
    DeliverOthers(s, x, y, i, e);
    DeliverPlain(s, x, y, local, sends);
    PopStructural(s, x, y);
    PopView(s, x, y);
    assert NodeOk(Pop(s, x, y), y);
    AbsorbView(Pop(s, x, y), y, i, e, []);
  }

  /** A Data or Close frame of a connection that has no slot here is lost. */
  lemma NobodyHome(s: System, x: u32, y: u32, local: Option<nat>, sends: seq<SendResult>, d: nat)
    requires Inv(s) && x in s.nodes && y in s.nodes && Chan(s, x, y) != [] && d < |s.conns|
    requires Chan(s, x, y)[0].frame.kind != TUNNEL_OPEN
    requires Target(s.nodes[y], x, Chan(s, x, y)[0].frame) == |s.nodes[y].table.streams|
    ensures ActsOn(s.nodes[y], x, Chan(s, x, y)[0]) < |s.conns|
    ensures NextDeliver(s, x, y, local, sends) == Pop(s, x, y)
    ensures ConnOk(s, d) && ConnOk(Pop(s, x, y), d)
    ensures d != Chan(s, x, y)[0].tag ==> View(Pop(s, x, y), d) == View(s, d)
  {
    FramesActOnPairedSlot(s, x, y);
    HeadLink(s, x, y);
    assert ConnOk(s, d) && ConnOk(Pop(s, x, y), d) && NodeOk(s, y);
    NoEffect(Pop(s, x, y), y, s.nodes[y], Chan(s, x, y)[0].tag);
    if d != Chan(s, x, y)[0].tag {
      PopOthers(s, x, y, d);
    }
  }

  /** Delivering a frame is invisible to every other connection. */
  lemma DeliverLeavesOthers(s: System, x: u32, y: u32, local: Option<nat>, sends: seq<SendResult>, d: nat)
    requires Inv(s) && x in s.nodes && y in s.nodes && Chan(s, x, y) != [] && d < |s.conns| && d != Chan(s, x, y)[0].tag
    ensures ActsOn(s.nodes[y], x, Chan(s, x, y)[0]) < |s.conns| && ConnOk(s, d)
    ensures ConnOk(NextDeliver(s, x, y, local, sends), d) && View(NextDeliver(s, x, y, local, sends), d) == View(s, d)
  {
    if Chan(s, x, y)[0].frame.kind == TUNNEL_OPEN {
      OpenLeavesOthers(s, x, y, local, sends, d);
    } else if Target(s.nodes[y], x, Chan(s, x, y)[0].frame) < |s.nodes[y].table.streams| {
      SlotSeesFrame(s, x, y, local, sends);
    } else {
      NobodyHome(s, x, y, local, sends, d);
    }
  }

  lemma HeldIsUp(s: System, y: u32, c: nat)
    requires y in s.nodes && NodeOk(s, y) && c < |s.conns| && ConnOk(s, c)
    requires if SideOf(s, y, c) then s.conns[c].origin == y else s.conns[c].peer == y
    ensures View(s, c).EndAt(SideOf(s, y, c)).Up? <==> exists i: nat :: Holds(s.nodes[y], c, i)
    ensures forall i: nat | Holds(s.nodes[y], c, i) ::
      View(s, c).EndAt(SideOf(s, y, c)) == Up(s.nodes[y].table.streams[i].pending)
  {
    if i: nat :| Holds(s.nodes[y], c, i) {
      EndFound(s.nodes[y], c, i, 0);
    } else {
      EndMissing(s.nodes[y], c, 0);
    }
  }

  lemma CloseAtSlot(s: System, x: u32, y: u32, local: Option<nat>, sends: seq<SendResult>)
    requires Inv(s) && x in s.nodes && y in s.nodes && Chan(s, x, y) != [] && Chan(s, x, y)[0].frame.kind == TUNNEL_CLOSE
    requires Target(s.nodes[y], x, Chan(s, x, y)[0].frame) < |s.nodes[y].table.streams|
    ensures ActsOn(s.nodes[y], x, Chan(s, x, y)[0]) < |s.conns|
    ensures
      var c, t := Chan(s, x, y)[0].tag, NextDeliver(s, x, y, local, sends);
      && c < |s.conns| && ConnOk(s, c) && ConnOk(t, c) && View(s, c).Outbox(!SideOf(s, y, c)) != []
      && View(t, c) == Popped(View(s, c), SideOf(s, y, c)).WithEnd(SideOf(s, y, c), Absent)
  {
    SlotSeesFrame(s, x, y, local, sends);
    var side := SideOf(s, y, Chan(s, x, y)[0].tag);
    var p := Popped(View(s, Chan(s, x, y)[0].tag), side);
    AfterShape(p, side, FREE, [], [], []);
    AfterShape(p.WithEnd(side, Absent), side, FREE, [], [], []);
  }

  /** A Close takes down the receiver's end of its connection, whatever it was, and nothing else. */
  lemma CloseTakesDown(s: System, x: u32, y: u32, local: Option<nat>, sends: seq<SendResult>)
    requires Inv(s) && x in s.nodes && y in s.nodes && Chan(s, x, y) != [] && Chan(s, x, y)[0].frame.kind == TUNNEL_CLOSE
    ensures ActsOn(s.nodes[y], x, Chan(s, x, y)[0]) < |s.conns|
    ensures
      var c, t := Chan(s, x, y)[0].tag, NextDeliver(s, x, y, local, sends);
      && c < |s.conns| && ConnOk(s, c) && ConnOk(t, c) && View(s, c).Outbox(!SideOf(s, y, c)) != []
      && View(t, c) == Popped(View(s, c), SideOf(s, y, c)).WithEnd(SideOf(s, y, c), Absent)
      && (forall i: nat :: !Holds(t.nodes[y], c, i))
  {
    var c := Chan(s, x, y)[0].tag;
    HeadLink(s, x, y);
    if Target(s.nodes[y], x, Chan(s, x, y)[0].frame) < |s.nodes[y].table.streams| {
      CloseAtSlot(s, x, y, local, sends);
    } else {
      FramesActOnPairedSlot(s, x, y);
      NobodyHome(s, x, y, local, sends, c);
      PopView(s, x, y);
      assert View(s, c).EndAt(SideOf(s, y, c)) == Absent;
    }
    DeliverKeeps(s, x, y, local, sends);
    var t := NextDeliver(s, x, y, local, sends);
    assert NodeOk(t, y);
    HeldIsUp(t, y, c);
  }

  // ---- Everything that was read arrives ----

  /** A local socket that takes whatever a slot can hold. */
  const ALL: seq<SendResult> := [Took(PENDING_MAX)]

  /** Steps that only let the tunnel work: frames are delivered, games accept, and local sockets take everything. */
  predicate Obliges(step: Step) {
    match step
    case Deliver(_, _, fd, sends) => fd.Some? && sends == ALL
    case Accepted(_, _, _, sends) => sends == ALL
    case Idled(_, _, sends) => sends == ALL
    case _ => false
  }

  ghost predicate AllOblige(steps: seq<Step>) {
    forall i | 0 <= i < |steps| :: Obliges(steps[i])
  }

  lemma FlushAll(pending: seq<byte>)
    requires |pending| <= PENDING_MAX
    ensures Flush(pending, ALL) == Flushed(pending, [], false)
  {
    if pending != [] {
      assert ALL[1..] == [] && pending[|pending|..] == [] && pending[..|pending|] == pending;
      assert Flush([], []) == Flushed([], [], false);
      assert pending + [] == pending;
    }
  }

  ghost predicate NoClose(ms: seq<Msg>) {
    Close !in ms
  }

  /** The game's socket is there in the slot of connection c. */
  ghost predicate Plugged(s: System, y: u32, c: nat)
    requires y in s.nodes
  {
    forall i: nat | Holds(s.nodes[y], c, i) :: s.nodes[y].table.streams[i].sock >= 0
  }

  /** Connection c from x to y: y's end is up with nothing waiting, and no Close is under way to it. */
  ghost predicate Flowing(s: System, x: u32, y: u32, c: nat) {
    && Inv(s) && Wired(s) && x in s.nodes && y in s.nodes && c < |s.conns| && ConnOk(s, c) && Between(s, c, x, y)
    && View(s, c).EndAt(SideOf(s, y, c)) == Up([]) && NoClose(View(s, c).Outbox(!SideOf(s, y, c))) && Plugged(s, y, c)
  }

  lemma FrameKeepsSocks(t: Table, src: u32, f: TunnelFrame, fd: Option<nat>, sends: seq<SendResult>, j: nat)
    requires j < |t.streams|
    ensures
      var e := OnFrame(t, src, f, fd, sends).table;
      && |e.streams| == |t.streams|
      && (t.streams[j].used && e.streams[j].used ==> e.streams[j].sock == t.streams[j].sock)
      && (!t.streams[j].used && e.streams[j].used ==> f.kind == TUNNEL_OPEN && j == FindFree(t.streams) && e != t)
  {
  }

  lemma DeliverNode(s: System, x: u32, y: u32, fd: Option<nat>, sends: seq<SendResult>)
    requires y in s.nodes && Chan(s, x, y) != [] && ActsOn(s.nodes[y], x, Chan(s, x, y)[0]) < |s.conns|
    ensures
      var head, n, m := Chan(s, x, y)[0], s.nodes[y], NextDeliver(s, x, y, fd, sends).nodes[y];
      var e := OnFrame(n.table, x, head.frame, fd, sends);
      && m.table == e.table
      && m.tags == if head.frame.kind == TUNNEL_OPEN && e.table != n.table && FindFree(n.table.streams) < |n.tags|
                   then n.tags[FindFree(n.table.streams) := head.tag] else n.tags
  {
  }

  lemma DeliverShape(s: System, x: u32, y: u32, fd: Option<nat>, sends: seq<SendResult>)
    requires Inv(s) && x in s.nodes && y in s.nodes && x != y && Chan(s, x, y) != []
    ensures ActsOn(s.nodes[y], x, Chan(s, x, y)[0]) < |s.conns|
    ensures
      var t := NextDeliver(s, x, y, fd, sends);
      && Inv(t) && t.nodes.Keys == s.nodes.Keys && |t.conns| == |s.conns| && Chan(t, x, y) == Chan(s, x, y)[1..]
      && forall d | 0 <= d < |s.conns| :: SameKey(s.conns[d], t.conns[d]) && ConnOk(s, d) && ConnOk(t, d)
  {
    DeliverKeeps(s, x, y, fd, sends);
    var t := NextDeliver(s, x, y, fd, sends);
    forall d | 0 <= d < |s.conns|
      ensures SameKey(s.conns[d], t.conns[d]) && ConnOk(s, d) && ConnOk(t, d)
    {
    }
  }

  lemma DeliverKeepsPlugs(s: System, x: u32, y: u32, fd: Option<nat>, sends: seq<SendResult>, c: nat)
    requires y in s.nodes && Chan(s, x, y) != [] && ActsOn(s.nodes[y], x, Chan(s, x, y)[0]) < |s.conns|
    requires |s.nodes[y].table.streams| == |s.nodes[y].tags| && Plugged(s, y, c)
    requires Chan(s, x, y)[0].tag == c ==> Chan(s, x, y)[0].frame.kind != TUNNEL_OPEN
    ensures Plugged(NextDeliver(s, x, y, fd, sends), y, c)
  {
    var n, head := s.nodes[y], Chan(s, x, y)[0];
    DeliverNode(s, x, y, fd, sends);
    var m := NextDeliver(s, x, y, fd, sends).nodes[y];
    forall i: nat | Holds(m, c, i)
      ensures m.table.streams[i].sock >= 0
    {
      FrameKeepsSocks(n.table, x, head.frame, fd, sends, 0);
      FrameKeepsSocks(n.table, x, head.frame, fd, sends, i);
      assert Holds(n, c, i);
    }
  }

  lemma DataEffect(t: Table, src: u32, f: TunnelFrame, fd: Option<nat>, i: nat)
    requires i == Find(t.streams, src, f.stream, f.owner == OWNER_RECEIVER) < |t.streams|
    requires f.kind == TUNNEL_DATA && 0 < |f.data| <= MAX_CHUNK && t.streams[i].pending == [] && t.streams[i].sock >= 0
    ensures OnFrame(t, src, f, fd, ALL) == Effect(t, [], f.data)
  {
    FlushAll(f.data);
    assert [] + f.data == f.data;
    assert WithStream(WithStream(t, i, t.streams[i].(pending := f.data)), i, t.streams[i]) == t;
  }

  /** A flowing connection has only Data under way to that end. */
  lemma HeadIsData(s: System, x: u32, y: u32, c: nat)
    requires Flowing(s, x, y, c) && Chan(s, x, y) != [] && Chan(s, x, y)[0].tag == c
    ensures
      var head, n, side := Chan(s, x, y)[0], s.nodes[y], SideOf(s, y, c);
      var i := Target(n, x, head.frame);
      && head.frame.kind == TUNNEL_DATA && 0 < |head.frame.data| <= MAX_CHUNK
      && i < |n.table.streams| && n.table.streams[i].pending == [] && n.table.streams[i].sock >= 0
      && View(s, c).Outbox(!side) != [] && View(s, c).Outbox(!side)[0] == Data(head.frame.data)
  {
    var head, n, side := Chan(s, x, y)[0], s.nodes[y], SideOf(s, y, c);
    FramesActOnPairedSlot(s, x, y);
    HeadLink(s, x, y);
    PopView(s, x, y);
    assert NodeOk(s, y) && Opening(View(s, c)) && ChunksOk(Chan(s, x, y));
    HeldIsUp(s, y, c);
    assert View(s, c).Outbox(!side)[0] in View(s, c).Outbox(!side);
  }

  /** Data for an end with nothing waiting goes straight to a socket that takes everything. */
  lemma DataTaken(s: System, x: u32, y: u32, fd: Option<nat>, c: nat)
    requires Flowing(s, x, y, c) && Chan(s, x, y) != [] && Chan(s, x, y)[0].tag == c
    ensures ActsOn(s.nodes[y], x, Chan(s, x, y)[0]) < |s.conns|
    ensures
      var t, side := NextDeliver(s, x, y, fd, ALL), SideOf(s, y, c);
      && ConnOk(t, c) && View(s, c).Outbox(!side) != []
      && View(t, c) == Popped(View(s, c), side).WithTook(side, Chan(s, x, y)[0].frame.data)
  {
    var head, n, side := Chan(s, x, y)[0], s.nodes[y], SideOf(s, y, c);
    HeadIsData(s, x, y, c);
    var i := Target(n, x, head.frame);
    DataEffect(n.table, x, head.frame, fd, i);
    SlotSeesFrame(s, x, y, fd, ALL);
    TookOnly(Popped(View(s, c), side), side, n.table.streams[i], head.frame.data);
  }

  lemma TookOnly(l: Link, side: bool, st: Stream, took: seq<byte>)
    requires st.used && l.EndAt(side) == Up(st.pending)
    ensures AfterEvent(l, side, st, [], took, []) == l.WithTook(side, took)
  {
    AfterShape(l.WithTook(side, took), side, st, [], [], []);
  }

  lemma OwnFlows(s: System, x: u32, y: u32, fd: Option<nat>, c: nat)
    requires Flowing(s, x, y, c) && Chan(s, x, y) != [] && Chan(s, x, y)[0].tag == c
    ensures ActsOn(s.nodes[y], x, Chan(s, x, y)[0]) < |s.conns|
    ensures
      var t, side := NextDeliver(s, x, y, fd, ALL), SideOf(s, y, c);
      && ConnOk(t, c) && SideOf(t, y, c) == side && View(t, c).EndAt(side) == Up([])
      && NoClose(View(t, c).Outbox(!side)) && View(t, c).Read(!side) == View(s, c).Read(!side)
  {
    DeliverShape(s, x, y, fd, ALL);
    HeadIsData(s, x, y, c);
    DataTaken(s, x, y, fd, c);
  }

  lemma FlowsOn(s: System, x: u32, y: u32, fd: Option<nat>, c: nat)
    requires Flowing(s, x, y, c) && Chan(s, x, y) != []
    ensures ActsOn(s.nodes[y], x, Chan(s, x, y)[0]) < |s.conns|
    ensures
      var t := NextDeliver(s, x, y, fd, ALL);
      && Flowing(t, x, y, c) && Chan(t, x, y) == Chan(s, x, y)[1..]
      && View(t, c).Read(!SideOf(s, y, c)) == View(s, c).Read(!SideOf(s, y, c))
  {
    DeliverShape(s, x, y, fd, ALL);
    DeliverWired(s, x, y, fd, ALL);
    assert NodeOk(s, y);
    if Chan(s, x, y)[0].tag == c {
      HeadIsData(s, x, y, c);
      OwnFlows(s, x, y, fd, c);
    } else {
      DeliverLeavesOthers(s, x, y, fd, ALL, c);
    }
    DeliverKeepsPlugs(s, x, y, fd, ALL, c);
  }

  lemma ObligesFirst(s: System, first: Step, u: System, rest: seq<Step>, t: System)
    requires Enabled(s, first) && Booked(s, first) && u == Next(s, first) && Run(u, rest, t) && Obliges(first) && AllOblige(rest)
    ensures Run(s, [first] + rest, t) && AllOblige([first] + rest)
  {
    RunFrom(s, first, u, rest, t);
  }

  lemma DeliverFlows(s: System, x: u32, y: u32, c: nat) returns (u: System)
    requires Flowing(s, x, y, c) && Chan(s, x, y) != []
    ensures
      var first := Deliver(x, y, Some(0), ALL);
      Enabled(s, first) && Booked(s, first) && Obliges(first) && u == Next(s, first)
    ensures Flowing(u, x, y, c) && |Chan(u, x, y)| == |Chan(s, x, y)| - 1 && SideOf(u, y, c) == SideOf(s, y, c)
    ensures View(u, c).Read(!SideOf(s, y, c)) == View(s, c).Read(!SideOf(s, y, c))
  {
    FlowsOn(s, x, y, Some(0), c);
    DeliverShape(s, x, y, Some(0), ALL);
    u := NextDeliver(s, x, y, Some(0), ALL);
  }

  /** Delivering all frames from x to y, in order, to sockets that take everything. */
  lemma {:induction false} FlowsToTheEnd(s: System, x: u32, y: u32, c: nat) returns (steps: seq<Step>, t: System)
    requires Flowing(s, x, y, c)
    ensures Run(s, steps, t) && AllOblige(steps) && Flowing(t, x, y, c) && Chan(t, x, y) == []
    ensures SideOf(t, y, c) == SideOf(s, y, c) && View(t, c).Read(!SideOf(s, y, c)) == View(s, c).Read(!SideOf(s, y, c))
    decreases |Chan(s, x, y)|
  {
    if Chan(s, x, y) == [] {
      steps, t := [], s;
    } else {
      var u := DeliverFlows(s, x, y, c);
      var rest;
      rest, t := FlowsToTheEnd(u, x, y, c);
      ObligesFirst(s, Deliver(x, y, Some(0), ALL), u, rest, t);
      steps := [Deliver(x, y, Some(0), ALL)] + rest;
    }
  }

  lemma FlushedDry(s: System, x: u32, y: u32, c: nat, i: nat, e: Effect)
    requires Inv(s) && Wired(s) && x in s.nodes && y in s.nodes && c < |s.conns| && ConnOk(s, c) && Between(s, c, x, y)
    requires Holds(s.nodes[y], c, i) && NoClose(View(s, c).Outbox(!SideOf(s, y, c))) && EffectWired(e)
    requires
      var n := s.nodes[y];
      && e.out == [] && e.took == n.table.streams[i].pending && SlotEffect(n.table, i, e)
      && e.table.streams[i].used && e.table.streams[i].pending == [] && e.table.streams[i].sock >= 0
    requires Inv(Absorb(s, y, e, c, []))
    ensures Flowing(Absorb(s, y, e, c, []), x, y, c)
    ensures View(Absorb(s, y, e, c, []), c).Read(!SideOf(s, y, c)) == View(s, c).Read(!SideOf(s, y, c))
  {
    var t, side := Absorb(s, y, e, c, []), SideOf(s, y, c);
    assert NodeOk(s, y) && NodeOk(t, y) && ConnOk(t, c);
    AbsorbView(s, y, i, e, []);
    AbsorbWired(s, y, e, c, []);
    assert Holds(t.nodes[y], c, i);
    AfterShape(View(s, c).WithEnd(side, Up([])).WithTook(side, e.took), side, FREE, [], [], []);
  }

  /** A slot of connection c at y, with no Close on its way there from x. */
  ghost predicate Awaits(s: System, x: u32, y: u32, c: nat, i: nat) {
    && Inv(s) && Wired(s) && x in s.nodes && y in s.nodes && c < |s.conns| && ConnOk(s, c) && Between(s, c, x, y)
    && Holds(s.nodes[y], c, i) && NoClose(View(s, c).Outbox(!SideOf(s, y, c)))
  }

  /** Its socket takes what waits in the slot. */
  lemma FlushesDry(s: System, x: u32, y: u32, c: nat, i: nat)
    requires Awaits(s, x, y, c, i) && s.nodes[y].table.streams[i].sock >= 0
    ensures Enabled(s, Idled(y, i, ALL)) && Booked(s, Idled(y, i, ALL))
    ensures
      var t := Next(s, Idled(y, i, ALL));
      && Flowing(t, x, y, c) && SideOf(t, y, c) == SideOf(s, y, c)
      && View(t, c).Read(!SideOf(s, y, c)) == View(s, c).Read(!SideOf(s, y, c))
  {
    var n := s.nodes[y];
    assert NodeOk(s, y);
    SlotLink(s, y, i);
    FlushAll(n.table.streams[i].pending);
    FlushWired(n.table, i, ALL);
    FlushKeepsLink(View(s, c), SideOf(s, y, c), n.table, i, ALL);
    LocalStepKeeps(s, Idled(y, i, ALL));
    FlushedDry(s, x, y, c, i, FlushSlot(n.table, i, ALL));
  }

  /** Or the game connects to the listener first. */
  lemma AcceptsDry(s: System, x: u32, y: u32, c: nat, i: nat)
    requires Awaits(s, x, y, c, i) && s.nodes[y].table.streams[i].sock < 0
    ensures Enabled(s, Accepted(y, i, 0, ALL)) && Booked(s, Accepted(y, i, 0, ALL))
    ensures
      var t := Next(s, Accepted(y, i, 0, ALL));
      && Flowing(t, x, y, c) && SideOf(t, y, c) == SideOf(s, y, c)
      && View(t, c).Read(!SideOf(s, y, c)) == View(s, c).Read(!SideOf(s, y, c))
  {
    var n := s.nodes[y];
    assert NodeOk(s, y);
    SlotLink(s, y, i);
    var plugged := n.table.streams[i].(listener := -1, sock := 0);
    FlushAll(n.table.streams[i].pending);
    FlushWired(WithStream(n.table, i, plugged), i, ALL);
    FlushKeepsLink(View(s, c), SideOf(s, y, c), WithStream(n.table, i, plugged), i, ALL);
    EffectAfterTouch(n.table, i, plugged, AcceptSlot(n.table, i, 0, ALL));
    LocalStepKeeps(s, Accepted(y, i, 0, ALL));
    FlushedDry(s, x, y, c, i, AcceptSlot(n.table, i, 0, ALL));
  }

  lemma Unclogs(s: System, x: u32, y: u32, c: nat, i: nat) returns (first: Step, t: System)
    requires Awaits(s, x, y, c, i)
    ensures Enabled(s, first) && Booked(s, first) && Obliges(first) && t == Next(s, first) && Flowing(t, x, y, c)
    ensures SideOf(t, y, c) == SideOf(s, y, c) && View(t, c).Read(!SideOf(s, y, c)) == View(s, c).Read(!SideOf(s, y, c))
  {
    if s.nodes[y].table.streams[i].sock >= 0 {
      FlushesDry(s, x, y, c, i);
      first := Idled(y, i, ALL);
    } else {
      AcceptsDry(s, x, y, c, i);
      first := Accepted(y, i, 0, ALL);
    }
    t := Next(s, first);
  }

  /** The console at one side of a connection. */
  function ConsoleAt(k: Conn, side: bool): u32 {
    if side then k.origin else k.peer
  }

  function TookBy(k: Conn, side: bool): seq<byte> {
    if side then k.tookO else k.tookP
  }

  function ReadBy(k: Conn, side: bool): seq<byte> {
    if side then k.readO else k.readP
  }

  lemma DrainedIsWhole(s: System, x: u32, y: u32, c: nat)
    requires Flowing(s, x, y, c) && Chan(s, x, y) == []
    ensures View(s, c).Took(SideOf(s, y, c)) == View(s, c).Read(!SideOf(s, y, c))
    ensures exists i: nat :: Holds(s.nodes[y], c, i)
  {
    assert NodeOk(s, y) && LinkOk(View(s, c));
    HeldIsUp(s, y, c);
    var l, side := View(s, c), SideOf(s, y, c);
    assert Faithful(l, side) && l.Outbox(!side) == [];
    assert l.Took(side) + [] + [] == l.Took(side);
  }

  /**
   * From every reachable state in which one side of a connection has its slot
   * and no Close is on its way there: if from now on frames only arrive, games
   * accept and local sockets take what they are given, the socket on that side
   * comes to have taken all that was ever read on the other side, and the slot
   * is still there.
   */
  lemma ReadBytesArrive(consoles: set<u32>, before: seq<Step>, s: System, c: nat, side: bool, i: nat)
    returns (steps: seq<Step>, t: System)
    requires Run(Start(consoles), before, s) && DrawsFresh(Start(consoles), before) && c < |s.conns|
    requires ConsoleAt(s.conns[c], side) in s.nodes && Holds(s.nodes[ConsoleAt(s.conns[c], side)], c, i)
    requires
      forall m | m in Chan(s, ConsoleAt(s.conns[c], !side), ConsoleAt(s.conns[c], side)) && m.tag == c :: m.frame.kind != TUNNEL_CLOSE
    ensures Run(s, steps, t) && AllOblige(steps) && c < |t.conns|
    ensures TookBy(t.conns[c], side) == ReadBy(t.conns[c], !side) == ReadBy(s.conns[c], !side)
    ensures ConsoleAt(s.conns[c], side) in t.nodes && exists j: nat :: Holds(t.nodes[ConsoleAt(s.conns[c], side)], c, j)
  {
    StartIsOk(consoles);
    RunsKeepInv(Start(consoles), before, s);
    StartWired(consoles);
    RunsKeepWired(Start(consoles), before, s);
    assert ConnOk(s, c);
    var x, y := ConsoleAt(s.conns[c], !side), ConsoleAt(s.conns[c], side);
    assert ChanOk(s, x, y);
    forall m | m in Chan(s, x, y)
      ensures m.frame.kind in {TUNNEL_OPEN, TUNNEL_DATA, TUNNEL_CLOSE}
    {
      var p :| 0 <= p < |Chan(s, x, y)| && Chan(s, x, y)[p] == m;
      assert FrameKeyed(s, x, y, Chan(s, x, y)[p]);
    }
    NoneCloses(Chan(s, x, y), c);
    var first, u := Unclogs(s, x, y, c, i);
    var rest;
    rest, t := FlowsToTheEnd(u, x, y, c);
    DrainedIsWhole(t, x, y, c);
    ObligesFirst(s, first, u, rest, t);
    steps := [first] + rest;
  }

  lemma {:induction false} NoneCloses(ch: seq<Tagged>, c: nat)
    requires forall m | m in ch && m.tag == c :: m.frame.kind != TUNNEL_CLOSE
    requires forall m | m in ch :: m.frame.kind in {TUNNEL_OPEN, TUNNEL_DATA, TUNNEL_CLOSE}
    ensures NoClose(Msgs(ch, c))
  {
    if ch != [] {
      assert ch[0] in ch && forall m | m in ch[1..] :: m in ch;
      NoneCloses(ch[1..], c);
    }
  }

  // ---- When a stream ends ----

  /** What ends the stream in slot i at y: its game, its socket, a stop, too much waiting, or the other side's Close. */
  predicate Ends(s: System, step: Step, y: u32, i: nat)
    requires InUse(s, y, i)
  {
    var st, c := s.nodes[y].table.streams[i], s.nodes[y].tags[i];
    match step
    case Connect(_, _, _, _, _) => false
    case Arrived(_, _, _) => false
    case Stop(x) => x == y
    case Ended(x, j) => x == y && j == i
    case Accepted(x, j, _, sends) => x == y && j == i && Flush(st.pending, sends).failed
    case Idled(x, j, sends) => x == y && j == i && st.sock >= 0 && Flush(st.pending, sends).failed
    case Deliver(x, z, _, sends) =>
      z == y && Chan(s, x, y) != [] && Chan(s, x, y)[0].tag == c &&
      var f := Chan(s, x, y)[0].frame;
      || f.kind == TUNNEL_CLOSE
      || |st.pending| + |f.data| > PENDING_MAX
      || (st.sock >= 0 && Flush(st.pending + f.data, sends).failed)
  }

  /** What a frame's table effect means for a slot in use. */
  lemma FrameEndsIff(t: Table, src: u32, f: TunnelFrame, fd: Option<nat>, sends: seq<SendResult>, i: nat)
    requires i < |t.streams| && t.streams[i].used
    requires f.kind in {TUNNEL_OPEN, TUNNEL_DATA, TUNNEL_CLOSE} && (f.kind == TUNNEL_DATA ==> f.data != [])
    ensures
      var e, st := OnFrame(t, src, f, fd, sends).table, t.streams[i];
      && |e.streams| == |t.streams|
      && (!e.streams[i].used <==>
            && f.kind != TUNNEL_OPEN && i == Find(t.streams, src, f.stream, f.owner == OWNER_RECEIVER)
            && (f.kind == TUNNEL_CLOSE || |st.pending| + |f.data| > PENDING_MAX
                || (st.sock >= 0 && Flush(st.pending + f.data, sends).failed)))
  {
  }

  lemma OpenEndsNone(s: System, x: u32, y: u32, fd: Option<nat>, sends: seq<SendResult>, i: nat)
    requires Inv(s) && x in s.nodes && InUse(s, y, i) && Chan(s, x, y) != [] && ActsOn(s.nodes[y], x, Chan(s, x, y)[0]) < |s.conns|
    requires Chan(s, x, y)[0].frame.kind == TUNNEL_OPEN
    ensures Chan(s, x, y)[0].tag != s.nodes[y].tags[i]
    ensures Holds(NextDeliver(s, x, y, fd, sends).nodes[y], s.nodes[y].tags[i], i)
  {
    OpenIsNew(s, x, y);
    assert NodeOk(s, y) && Holds(s.nodes[y], s.nodes[y].tags[i], i);
    DeliverNode(s, x, y, fd, sends);
    FrameEndsIff(s.nodes[y].table, x, Chan(s, x, y)[0].frame, fd, sends, i);
  }

  lemma SlotEndsIff(s: System, x: u32, y: u32, fd: Option<nat>, sends: seq<SendResult>, i: nat)
    requires InUse(s, y, i) && Chan(s, x, y) != [] && ActsOn(s.nodes[y], x, Chan(s, x, y)[0]) < |s.conns|
    requires
      var head, n := Chan(s, x, y)[0], s.nodes[y];
      && head.frame.kind in {TUNNEL_DATA, TUNNEL_CLOSE} && (head.frame.kind == TUNNEL_DATA ==> head.frame.data != [])
      && (head.tag == n.tags[i] <==> Target(n, x, head.frame) == i)
    ensures Holds(NextDeliver(s, x, y, fd, sends).nodes[y], s.nodes[y].tags[i], i) <==> !Ends(s, Deliver(x, y, fd, sends), y, i)
  {
    DeliverNode(s, x, y, fd, sends);
    FrameEndsIff(s.nodes[y].table, x, Chan(s, x, y)[0].frame, fd, sends, i);
  }

  lemma DeliverEndsIff(s: System, x: u32, y: u32, fd: Option<nat>, sends: seq<SendResult>, i: nat)
    requires Inv(s) && x in s.nodes && InUse(s, y, i) && Chan(s, x, y) != [] && ActsOn(s.nodes[y], x, Chan(s, x, y)[0]) < |s.conns|
    ensures Holds(NextDeliver(s, x, y, fd, sends).nodes[y], s.nodes[y].tags[i], i) <==> !Ends(s, Deliver(x, y, fd, sends), y, i)
  {
    if Chan(s, x, y)[0].frame.kind == TUNNEL_OPEN {
      OpenEndsNone(s, x, y, fd, sends, i);
    } else {
      HeadLink(s, x, y);
      TagTellsTarget(s, x, y, i);
      SlotEndsIff(s, x, y, fd, sends, i);
    }
  }

  /** Only the slot of a frame's own connection is its target. */
  lemma TagTellsTarget(s: System, x: u32, y: u32, i: nat)
    requires Inv(s) && x in s.nodes && InUse(s, y, i) && Chan(s, x, y) != []
    ensures Chan(s, x, y)[0].tag == s.nodes[y].tags[i] <==> Target(s.nodes[y], x, Chan(s, x, y)[0].frame) == i
  {
    var n := s.nodes[y];
    assert NodeOk(s, y) && Holds(n, n.tags[i], i);
    FramesActOnPairedSlot(s, x, y);
  }

  lemma ConnectEndsNone(s: System, x: u32, z: u32, gameFd: int, port: u16, setup: Setup, y: u32, i: nat)
    requires x in s.nodes && InUse(s, y, i) && |s.nodes[y].table.streams| == |s.nodes[y].tags|
    ensures y in NextConnect(s, x, z, gameFd, port, setup).nodes
    ensures Holds(NextConnect(s, x, z, gameFd, port, setup).nodes[y], s.nodes[y].tags[i], i)
  {
  }

  /** A stream keeps its slot until one of these things happens, and loses it when one does. */
  lemma StreamEndsIff(s: System, step: Step, y: u32, i: nat)
    requires Inv(s) && Enabled(s, step) && Booked(s, step) && InUse(s, y, i)
    ensures y in Next(s, step).nodes
    ensures Holds(Next(s, step).nodes[y], s.nodes[y].tags[i], i) <==> !Ends(s, step, y, i)
  {
    assert NodeOk(s, y);
    match step
    case Connect(x, z, gameFd, port, setup) => ConnectEndsNone(s, x, z, gameFd, port, setup, y, i);
    case Deliver(x, z, fd, sends) =>
      if z == y {
        DeliverEndsIff(s, x, y, fd, sends, i);
      }
    case Stop(x) =>
    case _ => LocalEndsIff(s, step, y, i);
  }

  lemma LocalEndsIff(s: System, step: Step, y: u32, i: nat)
    requires Enabled(s, step) && Booked(s, step) && InUse(s, y, i) && |s.nodes[y].table.streams| == |s.nodes[y].tags|
    requires step.Accepted? || step.Arrived? || step.Ended? || step.Idled?
    ensures y in Next(s, step).nodes
    ensures Holds(Next(s, step).nodes[y], s.nodes[y].tags[i], i) <==> !Ends(s, step, y, i)
  {
  }

  lemma FrameTells(t: Table, src: u32, f: TunnelFrame, fd: Option<nat>, sends: seq<SendResult>, i: nat)
    requires i < |t.streams| && i == Find(t.streams, src, f.stream, f.owner == OWNER_RECEIVER)
    requires f.kind == TUNNEL_DATA && f.data != []
    requires
      var st := t.streams[i];
      |st.pending| + |f.data| > PENDING_MAX || (st.sock >= 0 && Flush(st.pending + f.data, sends).failed)
    ensures OnFrame(t, src, f, fd, sends).out == [Outgoing(t.streams[i].peer, CloseOf(t.streams[i]))]
  {
  }

  /** The Close of the stream in slot i is the last frame on its way to its peer. */
  ghost predicate Told(s: System, t: System, y: u32, i: nat)
    requires InUse(s, y, i)
  {
    var st, c := s.nodes[y].table.streams[i], s.nodes[y].tags[i];
    Chan(t, y, st.peer) == Chan(s, y, st.peer) + [Tagged(CloseOf(st), c)]
  }

  lemma DeliverTells(s: System, x: u32, y: u32, fd: Option<nat>, sends: seq<SendResult>, i: nat)
    requires Inv(s) && x in s.nodes && InUse(s, y, i) && Chan(s, x, y) != [] && ActsOn(s.nodes[y], x, Chan(s, x, y)[0]) < |s.conns|
    requires Ends(s, Deliver(x, y, fd, sends), y, i) && Chan(s, x, y)[0].frame.kind != TUNNEL_CLOSE
    ensures Told(s, NextDeliver(s, x, y, fd, sends), y, i)
  {
    var n, head := s.nodes[y], Chan(s, x, y)[0];
    HeadLink(s, x, y);
    if head.frame.kind == TUNNEL_OPEN {
      OpenEndsNone(s, x, y, fd, sends, i);
    } else {
      TagTellsTarget(s, x, y, i);
      assert n.table.streams[i].peer == x;
      FrameTells(n.table, x, head.frame, fd, sends, i);
    }
  }

  /** Whenever a stream ends other than by a stop or by the other side's Close, the other side is told. */
  lemma EndsAreTold(s: System, step: Step, y: u32, i: nat)
    requires Inv(s) && Enabled(s, step) && Booked(s, step) && InUse(s, y, i) && Ends(s, step, y, i)
    requires !step.Stop? && !(step.Deliver? && Chan(s, step.x, y)[0].frame.kind == TUNNEL_CLOSE)
    ensures Told(s, Next(s, step), y, i)
  {
    SlotLink(s, y, i);
    match step
    case Deliver(x, _, fd, sends) => DeliverTells(s, x, y, fd, sends, i);
    case _ =>
  }

  // ---- Opening ----

  /**
   * A redirected connect to a peer, with a slot free, opens a connection: the
   * originator's end is up behind its listener and the Open is on its way.
   */
  lemma ConnectComesUp(s: System, x: u32, y: u32, gameFd: int, port: u16, lfd: nat, lport: u16)
    requires Inv(s) && x in s.nodes && y in s.nodes && x != y && FreshDraw(s, x, y)
    requires Room(s.nodes[x]) && forall st | st in s.nodes[x].table.streams :: !IsGame(st, gameFd)
    ensures
      var t, c := NextConnect(s, x, y, gameFd, port, Ready(lfd, lport)), |s.conns|;
      && |t.conns| == c + 1 && ConnOk(t, c) && t.conns[c].origin == x && t.conns[c].peer == y && View(t, c) == NEW
      && Chan(t, x, y) == Chan(s, x, y) + [Tagged(TunnelFrame(TUNNEL_OPEN, OWNER_SENDER, t.conns[c].id, port, []), c)]
      && exists i: nat :: Holds(t.nodes[x], c, i) && t.nodes[x].table.streams[i].listener == lfd
                          && IsGame(t.nodes[x].table.streams[i], gameFd)
  {
    assert NodeOk(s, x);
    var n := s.nodes[x];
    RoomIsFree(n);
    var free, k := FindFree(n.table.streams), Conn(x, y, n.table.nextId, n.drawn, [], [], [], []);
    var st := Stream(true, true, n.table.nextId, y, gameFd, lport, lfd, -1, []);
    ConnectIsOpened(s, x, y, gameFd, port, Ready(lfd, lport));
    OpenedStructural(s, x, free, st, k, port);
    assert Holds(Opened(s, x, free, st, k, port).nodes[x], |s.conns|, free);
  }

  /** A connect is taken over exactly if its setup works out and the game's socket has a stream afterwards. */
  lemma TakenOverIff(t: Table, gameFd: int, dst: u32, port: u16, setup: Setup)
    ensures
      var (e, taken) := Redirect(t, gameFd, dst, port, setup);
      taken <==> setup.Ready? && exists st :: st in e.table.streams && IsGame(st, gameFd)
  {
    var (e, taken) := Redirect(t, gameFd, dst, port, setup);
    var free, found := FindFree(t.streams), FindGame(t.streams, gameFd);
    if found < |t.streams| {
      assert t.streams[found] in e.table.streams;
    } else if free < |t.streams| && setup.Ready? {
      assert e.table.streams[free] in e.table.streams;
    }
  }
}
