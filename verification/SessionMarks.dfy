// The change marks of a whole session: which node tables its handlers look at,
// and that its marks say how each node flipped in them.

module SessionMarks {
  import opened Bytes
  import opened LdnState
  import opened LdnRuns
  import NodeChanges

  /** Whether handling the event replaces the node table and looks at the new one. */
  predicate Looks(d: Ldn, e: Event, now: int) {
    match e
    case Heard(SyncCame(info, stamp)) =>
      && (d.relay || stamp == 0) && (d.state.Browsing? || d.state.StationConnected?)
      && d.join.active && info.bssid == d.join.bssid && !Stale(d.join.syncSeqValid, d.join.syncSeq, stamp)
    case Heard(ConnectCame(node)) =>
      && d.relay && d.state.AccessPointCreated?
      && (HolderOf(d.stations, d.net.nodes[1..], node.ip) < STATION_COUNT
          || (CountBusy(d.stations) < STATION_COUNT && FirstFree(d.stations) < STATION_COUNT))
    case Heard(ByeCame(bssid, ip)) =>
      d.relay && d.state.AccessPointCreated? && bssid == d.net.bssid && Departed(d, ip) != d.stations
    case Called(Advertise(data)) => |data| <= ADVERTISE_DATA_MAX
    case TcpJoin(slot, _) => slot < STATION_COUNT && d.stations[slot].fd >= 0
    case TcpLost(slot) => slot < STATION_COUNT && d.stations[slot].fd >= 0
    case Ticked =>
      d.relay && now - d.lastBeacon >= BEACON_MS && d.state.AccessPointCreated? && Reaped(d.stations, now) != d.stations
    case _ => false
  }

  /** What an event means for the marks: a cleared table, a look, a hand-over. */
  function MarkEvents(d: Ldn, i: Input): seq<NodeChanges.TableEvent> {
    var after := React(d, i.e, i.now, i.addr).d;
    match i.e
    case Called(TakeMarks(n)) => if HandsOver(d, n) then [NodeChanges.Handed(n)] else []
    case Called(DirectUp) => [NodeChanges.Cleared]
    case Called(Join(_, _)) => if Waits(d, i) then [NodeChanges.Cleared] else []
    case Called(Create(_, _, again)) =>
      if d.state.AccessPoint? && i.addr.Some? && again then [NodeChanges.Cleared] + [NodeChanges.Looked(after.net.nodes)] else []
    case _ => if Looks(d, i.e, i.now) then [NodeChanges.Looked(after.net.nodes)] else []
  }

  predicate HandsOver(d: Ldn, n: int) {
    0 <= n <= NODE_COUNT && (d.state.AccessPointCreated? || d.state.StationConnected?)
  }

  /** A join that goes on to wait for its host over the relay. */
  predicate Waits(d: Ldn, i: Input)
    requires i.e.Called? && i.e.c.Join?
  {
    d.relay && i.addr.Some? && i.e.c.target.nodeCount != 0 && i.e.c.target.nodes[0].ip != i.addr.value.ip
  }

  function AllMarkEvents(ins: seq<Input>): seq<NodeChanges.TableEvent> {
    if ins == [] then []
    else AllMarkEvents(ins[..|ins| - 1]) + MarkEvents(Run(NewSession(), ins[..|ins| - 1]), ins[|ins| - 1])
  }

  function MarksOf(d: Ldn): NodeChanges.Table {
    NodeChanges.Table(d.marks, d.lasts)
  }

  lemma HearingMarks(d: Ldn, f: Frame, now: int, addr: Option<Address>)
    ensures
      var e := Hear(d, f, now, addr).d;
      MarksOf(e) == if Looks(d, Heard(f), now) then NodeChanges.After(MarksOf(d), NodeChanges.Looked(e.net.nodes)) else MarksOf(d)
  {
  }

  lemma CallingMarks(d: Ldn, c: Call, now: int, addr: Option<Address>)
    ensures
      var e := Obey(d, c, now, addr).d;
      MarksOf(e) == NodeChanges.Run(MarksOf(d), MarkEvents(d, Input(Called(c), now, addr)))
  {
    var es := MarkEvents(d, Input(Called(c), now, addr));
    if |es| == 1 {
      One(MarksOf(d), es[0]);
      assert es == [es[0]];
    } else if |es| == 2 {
      Two(MarksOf(d), es[0], es[1]);
      assert es == [es[0]] + [es[1]];
    }
  }

  lemma One(t: NodeChanges.Table, e: NodeChanges.TableEvent)
    ensures NodeChanges.Run(t, [e]) == NodeChanges.After(t, e)
  {
    assert [e][..0] == [];
  }

  lemma Two(t: NodeChanges.Table, e: NodeChanges.TableEvent, f: NodeChanges.TableEvent)
    ensures NodeChanges.Run(t, [e] + [f]) == NodeChanges.After(NodeChanges.After(t, e), f)
  {
    assert ([e] + [f])[..1] == [e];
    One(t, e);
  }

  lemma OtherMarks(d: Ldn, e: Event, now: int, addr: Option<Address>)
    requires !e.Heard? && !e.Called?
    ensures
      var after := React(d, e, now, addr).d;
      MarksOf(after) == if Looks(d, e, now) then NodeChanges.After(MarksOf(d), NodeChanges.Looked(after.net.nodes)) else MarksOf(d)
  {
  }

  lemma EventMarks(d: Ldn, i: Input)
    ensures MarksOf(React(d, i.e, i.now, i.addr).d) == NodeChanges.Run(MarksOf(d), MarkEvents(d, i))
  {
    match i.e
    case Called(c) => CallingMarks(d, c, i.now, i.addr);
    case Heard(f) =>
      HearingMarks(d, f, i.now, i.addr);
      One(MarksOf(d), NodeChanges.Looked(React(d, i.e, i.now, i.addr).d.net.nodes));
    case _ =>
      OtherMarks(d, i.e, i.now, i.addr);
      One(MarksOf(d), NodeChanges.Looked(React(d, i.e, i.now, i.addr).d.net.nodes));
  }

  lemma {:induction false} RunAppend(t: NodeChanges.Table, a: seq<NodeChanges.TableEvent>, b: seq<NodeChanges.TableEvent>)
    ensures NodeChanges.Run(t, a + b) == NodeChanges.Run(NodeChanges.Run(t, a), b)
    decreases |b|
  {
    if b == [] {
      assert a + b == a;
    } else {
      RunAppend(t, a, b[..|b| - 1]);
      assert (a + b)[..|a + b| - 1] == a + b[..|b| - 1];
    }
  }

  lemma {:induction false} SessionFollowsTable(ins: seq<Input>)
    ensures MarksOf(Run(NewSession(), ins)) == NodeChanges.Run(NodeChanges.NoMarks(), AllMarkEvents(ins))
    decreases |ins|
  {
    if ins != [] {
      var front, last := ins[..|ins| - 1], ins[|ins| - 1];
      SessionFollowsTable(front);
      EventMarks(Run(NewSession(), front), last);
      RunAppend(NodeChanges.NoMarks(), AllMarkEvents(front), MarkEvents(Run(NewSession(), front), last));
    }
  }

  /**
   * In every run of a session in which flags are 0 or 1, a node's mark is None
   * exactly if its flag did not flip since its mark was last handed over or
   * cleared, Connect exactly if it flipped once upward, Disconnect exactly if
   * once downward, and both exactly if it flipped at least twice.
   */
  lemma SessionMarksAreExact(ins: seq<Input>, i: nat)
    requires i < NODE_COUNT && NodeChanges.Binary(AllMarkEvents(ins))
    ensures
      var mark := Run(NewSession(), ins).marks[i];
      var flips := NodeChanges.Flips(false, NodeChanges.MomentsOf(AllMarkEvents(ins), i));
      && (mark == 0 <==> flips == []) && (mark == NODE_CONNECT <==> flips == [true])
      && (mark == NODE_DISCONNECT <==> flips == [false]) && (mark == 3 <==> |flips| >= 2)
  {
    SessionFollowsTable(ins);
    NodeChanges.MarksAreExact(AllMarkEvents(ins), i);
  }
}
