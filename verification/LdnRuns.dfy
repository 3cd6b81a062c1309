// Every run of one console's session: the host's station table, and how long a
// silent peer can stay in it.

module LdnRuns {
  import opened Bytes
  import opened LdnState

  // ---- Runs ----

  /** A message of another console, with whatever its sender put in it. */
  datatype Frame =
    | SyncCame(info: NetworkInfo, stamp: u16)
    | ConnectCame(node: NodeInfo)
    | HeartbeatCame(bssid: Mac, ip: u32)
    | ByeCame(bssid: Mac, ip: u32)
    | ScanCame
    | ScanRespCame(info: NetworkInfo)
    | LocalScanCame

  /** A request of the game. */
  datatype Call =
    | Start(useRelay: bool)
    | End
    | OpenAp
    | CloseAp
    | Create(session: seq<byte>, name: seq<byte>, again: bool)
    | Destroy
    | Advertise(data: seq<byte>)
    | OpenSta
    | CloseSta
    | Leave
    | Join(target: NetworkInfo, name: seq<byte>)
    | JoinSeen(myIp: u32)
    | JoinGivenUp
    | DirectUp
    | TakeMarks(n: int)

  /** Everything that can happen to a session. */
  datatype Event =
    | Heard(f: Frame)
    | Called(c: Call)
    | TcpAccepted(fd: nat)
    | TcpJoin(slot: nat, node: NodeInfo)
    | TcpLost(slot: nat)
    | HostLost(clean: bool)
    | UdpLost
    | Ticked

  /** Relay frames need a relay socket to arrive on; an unstamped sync may come over TCP, a scan from the local network. */
  function Hear(d: Ldn, f: Frame, now: int, addr: Option<Address>): After {
    if !d.relay && !(f.SyncCame? && f.stamp == 0) && !f.LocalScanCame? then After(d, [])
    else
      match f
      case SyncCame(info, stamp) => OnSyncFrame(d, info, stamp, now, addr)
      case ConnectCame(node) => OnConnectFrame(d, node, now, addr)
      case HeartbeatCame(bssid, ip) => After(OnHeartbeat(d, bssid, ip, now), [])
      case ByeCame(bssid, ip) => OnBye(d, bssid, ip, addr)
      case ScanCame => OnScan(d, now)
      case ScanRespCame(info) => After(OnScanResp(d, info, now), [])
      case LocalScanCame => After(d, OnLocalScan(d))
  }

  function Obey(d: Ldn, c: Call, now: int, addr: Option<Address>): After {
    match c
    case Start(useRelay) => After(Initialize(d, useRelay, now), [])
    case End => After(Finalize(d), [])
    case OpenAp => After(OpenAccessPoint(d), [])
    case CloseAp => CloseAccessPoint(d)
    case Create(session, name, again) => CreateNetwork(d, session, name, addr, again)
    case Destroy => DestroyNetwork(d)
    case Advertise(data) => SetAdvertiseData(d, data, addr)
    case OpenSta => After(OpenStation(d), [])
    case CloseSta => After(CloseStation(d), [])
    case Leave => Disconnect(d)
    case Join(target, name) => ConnectTo(d, target, name, addr)
    case JoinSeen(myIp) => After(if d.relay then ConnectJoined(d, myIp, now) else d, [])
    case JoinGivenUp => After(ConnectGaveUp(d), [])
    case DirectUp => After(ConnectedDirectly(d), [])
    case TakeMarks(n) => After(HandOver(d, n), [])
  }

  function React(d: Ldn, e: Event, now: int, addr: Option<Address>): After {
    match e
    case Heard(f) => Hear(d, f, now, addr)
    case Called(c) => Obey(d, c, now, addr)
    case TcpAccepted(fd) => After(OnAccept(d, fd), [])
    case TcpJoin(slot, node) => if slot < STATION_COUNT then OnStationJoin(d, slot, node, addr) else After(d, [])
    case TcpLost(slot) => if slot < STATION_COUNT then OnStationClose(d, slot, addr) else After(d, [])
    case HostLost(clean) => After(OnDisconnectFromHost(d, if clean then DestroyedByUser else SignalLost), [])
    case UdpLost => After(OnUdpClose(d), [])
    case Ticked => OnTick(d, now, addr)
  }

  /** An event, when it happened, and what the system said our address was. */
  datatype Input = Input(e: Event, now: int, addr: Option<Address>)

  function Run(d: Ldn, ins: seq<Input>): Ldn {
    if ins == [] then d
    else
      var last := ins[|ins| - 1];
      React(Run(d, ins[..|ins| - 1]), last.e, last.now, last.addr).d
  }

  lemma RunMore(d: Ldn, ins: seq<Input>, i: Input)
    ensures Run(d, ins + [i]) == React(Run(d, ins), i.e, i.now, i.addr).d
  {
    assert (ins + [i])[..|ins|] == ins;
  }

  /** A console starts over the relay and hosts. */
  function Opening(session: seq<byte>, name: seq<byte>, a: Address): seq<Input> {
    [Input(Called(Start(true)), 0, None)] + [Input(Called(OpenAp), 0, None)]
    + [Input(Called(Create(session, name, true)), 0, Some(a))]
  }

  /** A network just opened: nobody in it, nothing left over. */
  ghost predicate JustOpened(d: Ldn, ip: u32) {
    && d.state.AccessPointCreated? && d.relay && d.lastAdvert == 0 && d.join == NewSession().join
    && (forall i | 0 <= i < STATION_COUNT :: d.stations[i] == FREE)
    && d.net.bssid == FakeMac(ip) && d.net.nodes[0].ip == ip && d.net.nodeCount == 1 && OwnNode(d.net)
    && forall i | 1 <= i < NODE_COUNT :: d.net.nodes[i].ip == 0
  }

  lemma {:induction false} NoneUp(stations: seq<Station>)
    requires forall i | 0 <= i < |stations| :: !IsUp(stations[i])
    ensures CountUp(stations) == 0
    decreases |stations|
  {
    if stations != [] {
      NoneUp(stations[..|stations| - 1]);
    }
  }

  lemma OpensNetwork(session: seq<byte>, name: seq<byte>, a: Address)
    ensures JustOpened(Run(NewSession(), Opening(session, name, a)), a.ip)
    ensures Run(NewSession(), Opening(session, name, a)).published.peers == []
  {
    var start, open, create :=
      Input(Called(Start(true)), 0, None), Input(Called(OpenAp), 0, None), Input(Called(Create(session, name, true)), 0, Some(a));
    RunMore(NewSession(), [], start);
    assert [] + [start] == [start];
    RunMore(NewSession(), [start], open);
    RunMore(NewSession(), [start] + [open], create);
    var d := Run(NewSession(), [start] + [open]);
    assert d.state.AccessPoint? && d.relay && d.net == NO_NETWORK && d.lastAdvert == 0 && d.join == NewSession().join;
    CreateOpens(d, session, name, a);
  }

  lemma CreateOpens(d: Ldn, session: seq<byte>, name: seq<byte>, a: Address)
    requires d.state.AccessPoint? && d.relay && d.net == NO_NETWORK && d.lastAdvert == 0 && d.join == NewSession().join
    requires forall i | 0 <= i < STATION_COUNT :: d.stations[i] == FREE
    ensures
      var r := CreateNetwork(d, session, name, Some(a), true);
      JustOpened(r.d, a.ip) && r.d.published.peers == [] && Sync(r.d.net) in r.out
  {
    var d1 := Unmarked(d.(net := Founded(d.net, session, name, a.ip), state := AccessPointCreated));
    NoneUp(d.stations);
    UpdateSetsFlags(d1, Some(a));
    var e := UpdateNodes(d1, Some(a)).d;
    assert Listed(e.net) == [e.net.nodes[0]];
    assert [e.net.nodes[0]][..0] == [];
  }

  // ---- The host's table ----

  /** Every node but our own says what its station slot says, and the count is right. */
  ghost predicate FlagsOk(net: NetworkInfo, stations: Slots) {
    && net.nodeCount == CountUp(stations) + 1
    && forall i | 0 <= i < STATION_COUNT ::
         net.nodes[i + 1].nodeId == i + 1 && net.nodes[i + 1].connected == (if IsUp(stations[i]) then 1 else 0)
  }

  /** No address holds two relay-only slots. */
  ghost predicate Apart(net: NetworkInfo, stations: Slots) {
    forall i, j | 0 <= i < j < STATION_COUNT && RelayOnly(stations[i]) && RelayOnly(stations[j]) ::
      net.nodes[i + 1].ip != net.nodes[j + 1].ip
  }

  ghost predicate OwnNode(net: NetworkInfo) {
    net.nodes[0].connected == 1 && net.bssid == FakeMac(net.nodes[0].ip)
  }

  ghost predicate SocketsOk(stations: Slots) {
    forall i | 0 <= i < STATION_COUNT :: (stations[i].status.Disconnected? ==> stations[i].fd < 0)
                                         && (stations[i].status.Connecting? ==> stations[i].fd >= 0)
  }

  ghost predicate AllFree(stations: Slots) {
    forall i | 0 <= i < STATION_COUNT :: stations[i].status.Disconnected?
  }

  ghost predicate HostOk(d: Ldn) {
    && SocketsOk(d.stations)
    && (d.state.AccessPoint? ==> AllFree(d.stations))
    && (d.state.AccessPointCreated? ==> FlagsOk(d.net, d.stations) && Apart(d.net, d.stations) && OwnNode(d.net))
  }

  lemma {:induction false} CountUpSame(a: seq<Station>, b: seq<Station>)
    requires |a| == |b| && forall i | 0 <= i < |a| :: IsUp(a[i]) == IsUp(b[i])
    ensures CountUp(a) == CountUp(b)
    decreases |a|
  {
    if a != [] {
      var n := |a| - 1;
      assert IsUp(a[n]) == IsUp(b[n]);
      CountUpSame(a[..n], b[..n]);
    }
  }

  /** The "no free slot" branches after the capacity check are never taken. */
  lemma {:induction false} RoomMeansFreeSlot(stations: seq<Station>)
    requires CountBusy(stations) < |stations|
    ensures FirstFree(stations) < |stations|
    decreases |stations|
  {
    if FirstFree(stations) == |stations| {
      AllBusy(stations);
    }
  }

  lemma {:induction false} AllBusy(stations: seq<Station>)
    requires forall i | 0 <= i < |stations| :: !stations[i].status.Disconnected?
    ensures CountBusy(stations) == |stations|
    decreases |stations|
  {
    if stations != [] {
      AllBusy(stations[..|stations| - 1]);
    }
  }

  /** Synchronising the table sets flags and count, and nothing else in it. */
  lemma UpdateSetsFlags(d: Ldn, addr: Option<Address>)
    ensures
      var e := UpdateNodes(d, addr).d;
      && FlagsOk(e.net, d.stations) && e.net.nodes[0] == d.net.nodes[0] && e.net.bssid == d.net.bssid
      && (forall i | 0 <= i < NODE_COUNT :: e.net.nodes[i].ip == d.net.nodes[i].ip)
      && e == d.(net := e.net, marks := e.marks, lasts := e.lasts, published := e.published)
      && (Apart(d.net, d.stations) ==> Apart(e.net, d.stations)) && (OwnNode(d.net) ==> OwnNode(e.net))
  {
  }

  /** What synchronising the table needs to find to leave it in order. */
  ghost predicate Syncable(d: Ldn) {
    && SocketsOk(d.stations) && (d.state.AccessPoint? ==> AllFree(d.stations))
    && (d.state.AccessPointCreated? ==> Apart(d.net, d.stations) && OwnNode(d.net))
  }

  lemma UpdateKeeps(d: Ldn, addr: Option<Address>)
    requires Syncable(d)
    ensures HostOk(UpdateNodes(d, addr).d)
  {
    UpdateSetsFlags(d, addr);
  }

  lemma ReheardSyncable(d: Ldn, i: nat, now: int)
    requires HostOk(d) && d.state.AccessPointCreated? && i < STATION_COUNT
    ensures Syncable(Reheard(d, i, now))
  {
    var after := Reheard(d, i, now).stations;
    assert forall k | 0 <= k < STATION_COUNT :: RelayOnly(after[k]) == RelayOnly(d.stations[k]);
  }

  lemma EnrolledSyncable(d: Ldn, i: nat, node: NodeInfo, now: int)
    requires HostOk(d) && d.state.AccessPointCreated? && i < STATION_COUNT && d.stations[i].status.Disconnected?
    requires forall k | 0 <= k < STATION_COUNT && !d.stations[k].status.Disconnected? :: d.net.nodes[k + 1].ip != node.ip
    ensures Syncable(Enrolled(d, i, node, now))
  {
  }

  lemma RelayConnectKeeps(d: Ldn, node: NodeInfo, now: int, addr: Option<Address>)
    requires HostOk(d) && d.state.AccessPointCreated?
    ensures HostOk(OnRelayConnect(d, node, now, addr).d)
  {
    var holder, free := HolderOf(d.stations, d.net.nodes[1..], node.ip), FirstFree(d.stations);
    if holder < STATION_COUNT {
      ReheardSyncable(d, holder, now);
      UpdateKeeps(Reheard(d, holder, now), addr);
    } else if CountBusy(d.stations) < STATION_COUNT && free < STATION_COUNT {
      assert forall k | 0 <= k < STATION_COUNT :: d.net.nodes[1..][k] == d.net.nodes[k + 1];
      EnrolledSyncable(d, free, node, now);
      UpdateKeeps(Enrolled(d, free, node, now), addr);
    }
  }

  lemma BareIsFree(stations: Slots)
    ensures SocketsOk(Bare(stations)) && AllFree(Bare(stations))
  {
  }

  /** Slots that look the same from outside leave the table in order. */
  lemma SameUpsKeep(d: Ldn, after: Slots)
    requires HostOk(d) && SocketsOk(after) && (d.state.AccessPoint? ==> AllFree(after))
    requires forall i | 0 <= i < STATION_COUNT :: IsUp(after[i]) == IsUp(d.stations[i]) && RelayOnly(after[i]) == RelayOnly(d.stations[i])
    ensures HostOk(d.(stations := after))
  {
    CountUpSame(d.stations, after);
    if d.state.AccessPointCreated? {
      forall i | 0 <= i < STATION_COUNT
        ensures d.net.nodes[i + 1].nodeId == i + 1 && d.net.nodes[i + 1].connected == (if IsUp(after[i]) then 1 else 0)
      {
        assert IsUp(after[i]) == IsUp(d.stations[i]);
      }
      assert FlagsOk(d.net, after);
    }
  }

  lemma HeartbeatKeeps(d: Ldn, bssid: Mac, ip: u32, now: int)
    requires HostOk(d)
    ensures HostOk(OnHeartbeat(d, bssid, ip, now))
  {
    if d.state.AccessPointCreated? {
      SameUpsKeep(d, Refreshed(d, ip, now));
    }
  }

  lemma DepartedSyncable(d: Ldn, ip: u32)
    requires HostOk(d) && d.state.AccessPointCreated?
    ensures Syncable(d.(stations := Departed(d, ip)))
  {
    var after := Departed(d, ip);
    assert forall i | 0 <= i < STATION_COUNT :: after[i] == d.stations[i] || after[i] == Reset(d.stations[i]);
  }

  lemma ByeKeeps(d: Ldn, bssid: Mac, ip: u32, addr: Option<Address>)
    requires HostOk(d)
    ensures HostOk(OnBye(d, bssid, ip, addr).d)
  {
    if d.state.AccessPointCreated? {
      DepartedSyncable(d, ip);
      UpdateKeeps(d.(stations := Departed(d, ip)), addr);
    } else {
      assert OnBye(d, bssid, ip, addr).d.stations == d.stations;
    }
  }

  lemma AcceptKeeps(d: Ldn, fd: nat)
    requires HostOk(d)
    ensures HostOk(OnAccept(d, fd))
  {
    SameUpsKeep(d, OnAccept(d, fd).stations);
  }

  lemma TcpKeeps(d: Ldn, i: nat, node: NodeInfo, addr: Option<Address>)
    requires HostOk(d) && i < STATION_COUNT
    ensures HostOk(OnStationJoin(d, i, node, addr).d) && HostOk(OnStationClose(d, i, addr).d)
  {
    if d.stations[i].fd >= 0 {
      UpdateKeeps(d.(stations := d.stations[i := d.stations[i].(status := Connected)],
                     net := d.net.(nodes := d.net.nodes[i + 1 := node])), addr);
      UpdateKeeps(d.(stations := d.stations[i := Reset(d.stations[i])]), addr);
    }
  }

  lemma ReapedSyncable(d: Ldn, now: int)
    requires HostOk(d) && d.state.AccessPointCreated?
    ensures Syncable(d.(lastBeacon := now, lastAdvert := now, stations := Reaped(d.stations, now)))
  {
    var after := Reaped(d.stations, now);
    assert forall i | 0 <= i < STATION_COUNT :: after[i] == d.stations[i] || after[i] == Reset(d.stations[i]);
  }

  lemma TickKeeps(d: Ldn, now: int, addr: Option<Address>)
    requires HostOk(d)
    ensures HostOk(OnTick(d, now, addr).d)
  {
    if d.state.AccessPointCreated? {
      ReapedSyncable(d, now);
      UpdateKeeps(d.(lastBeacon := now, lastAdvert := now, stations := Reaped(d.stations, now)), addr);
    } else {
      assert OnTick(d, now, addr).d.stations == d.stations;
    }
  }

  lemma CreateKeeps(d: Ldn, session: seq<byte>, name: seq<byte>, addr: Option<Address>, again: bool)
    requires HostOk(d)
    ensures HostOk(CreateNetwork(d, session, name, addr, again).d)
  {
    if d.state.AccessPoint? && addr.Some? && again {
      UpdateKeeps(Unmarked(d.(net := Founded(d.net, session, name, addr.value.ip), state := AccessPointCreated)), addr);
    }
  }

  lemma SyncKeeps(d: Ldn, info: NetworkInfo, stamp: u16, now: int, addr: Option<Address>)
    requires HostOk(d)
    ensures HostOk(OnSyncFrame(d, info, stamp, now, addr).d)
  {
    assert OnSyncFrame(d, info, stamp, now, addr).d.stations == d.stations;
  }

  lemma HeardKeeps(d: Ldn, f: Frame, now: int, addr: Option<Address>)
    requires HostOk(d)
    ensures HostOk(Hear(d, f, now, addr).d)
  {
    match f
    case SyncCame(info, stamp) => SyncKeeps(d, info, stamp, now, addr);
    case ConnectCame(node) =>
      if d.state.AccessPointCreated? {
        RelayConnectKeeps(d, node, now, addr);
      }
    case HeartbeatCame(bssid, ip) => HeartbeatKeeps(d, bssid, ip, now);
    case ByeCame(bssid, ip) => ByeKeeps(d, bssid, ip, addr);
    case ScanCame =>
    case ScanRespCame(info) =>
    case LocalScanCame =>
  }

  lemma CalledKeeps(d: Ldn, c: Call, now: int, addr: Option<Address>)
    requires HostOk(d)
    ensures HostOk(Obey(d, c, now, addr).d)
  {
    match c
    case Create(session, name, again) => CreateKeeps(d, session, name, addr, again);
    case Advertise(data) => UpdateKeeps(d.(net := d.net.(advertised := data)), addr);
    case _ => BareIsFree(d.stations);
  }

  lemma EventKeepsHost(d: Ldn, e: Event, now: int, addr: Option<Address>)
    requires HostOk(d)
    ensures HostOk(React(d, e, now, addr).d)
  {
    match e
    case Heard(f) => HeardKeeps(d, f, now, addr);
    case Called(c) => CalledKeeps(d, c, now, addr);
    case TcpAccepted(fd) => AcceptKeeps(d, fd);
    case TcpJoin(slot, node) =>
      if slot < STATION_COUNT {
        TcpKeeps(d, slot, node, addr);
      }
    case TcpLost(slot) =>
      if slot < STATION_COUNT {
        TcpKeeps(d, slot, BLANK_NODE, addr);
      }
    case HostLost(clean) =>
    case UdpLost =>
    case Ticked => TickKeeps(d, now, addr);
  }

  lemma {:induction false} RunsKeepHost(d: Ldn, ins: seq<Input>)
    requires HostOk(d)
    ensures HostOk(Run(d, ins))
    decreases |ins|
  {
    if ins != [] {
      var last := ins[|ins| - 1];
      RunsKeepHost(d, ins[..|ins| - 1]);
      EventKeepsHost(Run(d, ins[..|ins| - 1]), last.e, last.now, last.addr);
    }
  }

  function CountFlags(nodes: seq<NodeInfo>): nat {
    if nodes == [] then 0 else CountFlags(nodes[..|nodes| - 1]) + (if nodes[|nodes| - 1].connected != 0 then 1 else 0)
  }

  lemma {:induction false} FlagsCount(nodes: seq<NodeInfo>, stations: seq<Station>)
    requires |nodes| == |stations| + 1 && nodes[0].connected != 0
    requires forall i | 0 <= i < |stations| :: (nodes[i + 1].connected != 0) == IsUp(stations[i])
    ensures CountFlags(nodes) == CountUp(stations) + 1
    decreases |stations|
  {
    if stations == [] {
      assert nodes[..0] == [];
    } else {
      var n := |stations| - 1;
      assert (nodes[n + 1].connected != 0) == IsUp(stations[n]);
      FlagsCount(nodes[..n + 1], stations[..n]);
    }
  }

  /**
   * After any run that leaves a network open: the node count is one more than
   * the connected slots, is the number of connected flags, is at most 8, and no
   * two relay-only slots hold the same address however often Connect came.
   */
  lemma HostTable(ins: seq<Input>)
    ensures
      var d := Run(NewSession(), ins);
      d.state.AccessPointCreated? ==>
        && d.net.nodeCount == CountUp(d.stations) + 1 == CountFlags(d.net.nodes) <= NODE_COUNT
        && Apart(d.net, d.stations) && d.net.bssid == FakeMac(d.net.nodes[0].ip)
        && forall i | 0 <= i < STATION_COUNT :: d.net.nodes[i + 1].connected == 1 <==> d.stations[i].status.Connected?
  {
    RunsKeepHost(NewSession(), ins);
    var d := Run(NewSession(), ins);
    if d.state.AccessPointCreated? {
      FlagsCount(d.net.nodes, d.stations);
    }
  }
}
