// Hosts and stations over a relay that loses, repeats and reorders frames: what
// a console that believes it has joined can be sure of.

module JoinSafety {
  import opened Bytes
  import opened LdnState
  import opened LdnRuns

  // ---- Any number of consoles ----

  /**
   * Every console's session, every snapshot ever synchronised and every one ever
   * advertised. Nothing is taken off the air, so what is on it may arrive late,
   * twice, in any order or never.
   */
  datatype World = World(consoles: map<nat, Ldn>, air: set<NetworkInfo>, ads: set<NetworkInfo>)

  datatype Move = Move(x: nat, i: Input)

  predicate IsSync(o: Out) {
    o.Sync? || o.TcpSync?
  }

  function InfoIn(o: Out): NetworkInfo {
    match o
    case Sync(info) => info
    case TcpSync(_, info) => info
    case Advert(info) => info
    case _ => NO_NETWORK
  }

  function SyncsIn(out: seq<Out>): set<NetworkInfo> {
    set o | o in out && IsSync(o) :: InfoIn(o)
  }

  function AdvertsIn(out: seq<Out>): set<NetworkInfo> {
    set o | o in out && o.Advert? :: InfoIn(o)
  }

  function Start(ips: map<nat, u32>): World {
    World(map x | x in ips :: NewSession(), {}, {})
  }

  /**
   * Consoles keep their address; a sync that arrives was sent, and a join's
   * target was advertised. All other frames may hold anything. A console that
   * cannot look up its address does not try to join the network it advertises.
   */
  predicate Permitted(ips: map<nat, u32>, w: World, m: Move) {
    && m.x in w.consoles && m.x in ips
    && (m.i.addr.Some? ==> m.i.addr.value.ip == ips[m.x])
    && (m.i.e.Called? && m.i.e.c.JoinSeen? ==> m.i.e.c.myIp == ips[m.x])
    && (m.i.e.Heard? && m.i.e.f.SyncCame? ==> m.i.e.f.info in w.air)
    && (m.i.e.Called? && m.i.e.c.Join? ==>
          m.i.e.c.target in w.ads && (m.i.addr.None? ==> m.i.e.c.target.nodes[0].ip != ips[m.x]))
  }

  function Outcome(w: World, m: Move): After
    requires m.x in w.consoles
  {
    React(w.consoles[m.x], m.i.e, m.i.now, m.i.addr)
  }

  function Next(w: World, m: Move): World
    requires m.x in w.consoles
  {
    var r := Outcome(w, m);
    World(w.consoles[m.x := r.d], w.air + SyncsIn(r.out), w.ads + AdvertsIn(r.out))
  }

  /** Move k was permitted and leads from world k to the next. */
  ghost predicate MadeAt(ips: map<nat, u32>, worlds: seq<World>, moves: seq<Move>, k: nat) {
    && k < |moves| && k + 1 < |worlds|
    && Permitted(ips, worlds[k], moves[k]) && worlds[k + 1] == Next(worlds[k], moves[k])
  }

  ghost predicate IsRun(ips: map<nat, u32>, worlds: seq<World>, moves: seq<Move>) {
    && |worlds| == |moves| + 1 && worlds[0] == Start(ips)
    && forall k | 0 <= k < |moves| :: MadeAt(ips, worlds, moves, k)
  }

  // ---- What a console sends ----

  lemma {:induction false} TcpSyncsAgree(stations: seq<Station>, info: NetworkInfo)
    ensures forall o | o in TcpSyncs(stations, info) :: o.TcpSync? && InfoIn(o) == info
    decreases |stations|
  {
    if stations != [] {
      TcpSyncsAgree(stations[..|stations| - 1], info);
    }
  }

  /** The snapshots in out are the console's node list, with flags that match its stations. */
  ghost predicate ShowsItself(a: After) {
    forall o | o in a.out && IsSync(o) :: InfoIn(o) == a.d.net && FlagsOk(a.d.net, a.d.stations)
  }

  /** Whatever is advertised is named after its host. */
  ghost predicate AdvertsOk(out: seq<Out>) {
    forall o | o in out && o.Advert? :: InfoIn(o).bssid == FakeMac(InfoIn(o).nodes[0].ip)
  }

  lemma UpdateShows(d: Ldn, addr: Option<Address>)
    ensures ShowsItself(UpdateNodes(d, addr)) && AdvertsOk(UpdateNodes(d, addr).out)
  {
    UpdateSetsFlags(d, addr);
    TcpSyncsAgree(d.stations, UpdateNodes(d, addr).d.net);
  }

  lemma CreateShows(d: Ldn, session: seq<byte>, name: seq<byte>, addr: Option<Address>, again: bool)
    ensures
      var r := CreateNetwork(d, session, name, addr, again);
      ShowsItself(r) && AdvertsOk(r.out)
  {
    if d.state.AccessPoint? && addr.Some? && again {
      UpdateShows(Unmarked(d.(net := Founded(d.net, session, name, addr.value.ip), state := AccessPointCreated)), addr);
    }
  }

  lemma TickShows(d: Ldn, now: int, addr: Option<Address>)
    requires HostOk(d)
    ensures ShowsItself(OnTick(d, now, addr)) && AdvertsOk(OnTick(d, now, addr).out)
  {
    if d.relay && now - d.lastBeacon >= BEACON_MS {
      var said := Announced(d.(lastBeacon := now), now);
      var checked := Checked(said.d, now, addr);
      assert forall o | o in said.out :: !IsSync(o) && (o.Advert? ==> d.state.AccessPointCreated? && InfoIn(o) == d.net);
      UpdateShows(said.d.(stations := Reaped(said.d.stations, now)), addr);
      assert ShowsItself(checked) && AdvertsOk(checked.out);
    }
  }

  lemma HearingShows(d: Ldn, f: Frame, now: int, addr: Option<Address>)
    requires HostOk(d)
    ensures ShowsItself(Hear(d, f, now, addr)) && AdvertsOk(Hear(d, f, now, addr).out)
  {
    match f
    case ConnectCame(node) =>
      var holder, free := HolderOf(d.stations, d.net.nodes[1..], node.ip), FirstFree(d.stations);
      if holder < STATION_COUNT {
        UpdateShows(Reheard(d, holder, now), addr);
      } else if free < STATION_COUNT {
        UpdateShows(Enrolled(d, free, node, now), addr);
      }
    case ByeCame(bssid, ip) => UpdateShows(d.(stations := Departed(d, ip)), addr);
    case _ =>
  }

  lemma CallsShow(d: Ldn, c: Call, now: int, addr: Option<Address>)
    ensures ShowsItself(Obey(d, c, now, addr)) && AdvertsOk(Obey(d, c, now, addr).out)
  {
    match c
    case Create(session, name, again) => CreateShows(d, session, name, addr, again);
    case Advertise(data) => UpdateShows(d.(net := d.net.(advertised := data)), addr);
    case _ =>
  }

  lemma TcpShows(d: Ldn, i: nat, node: NodeInfo, addr: Option<Address>)
    requires i < STATION_COUNT
    ensures ShowsItself(OnStationJoin(d, i, node, addr)) && AdvertsOk(OnStationJoin(d, i, node, addr).out)
    ensures ShowsItself(OnStationClose(d, i, addr)) && AdvertsOk(OnStationClose(d, i, addr).out)
  {
    UpdateShows(d.(stations := d.stations[i := d.stations[i].(status := Connected)],
                   net := d.net.(nodes := d.net.nodes[i + 1 := node])), addr);
    UpdateShows(d.(stations := d.stations[i := Reset(d.stations[i])]), addr);
  }

  lemma EventShows(d: Ldn, e: Event, now: int, addr: Option<Address>)
    requires HostOk(d)
    ensures ShowsItself(React(d, e, now, addr)) && AdvertsOk(React(d, e, now, addr).out)
  {
    match e
    case Heard(f) => HearingShows(d, f, now, addr);
    case Called(c) => CallsShow(d, c, now, addr);
    case TcpJoin(slot, node) =>
      if slot < STATION_COUNT {
        TcpShows(d, slot, node, addr);
      }
    case TcpLost(slot) =>
      if slot < STATION_COUNT {
        TcpShows(d, slot, BLANK_NODE, addr);
      }
    case Ticked => TickShows(d, now, addr);
    case _ =>
  }

  // ---- What identifies a network ----

  /** A network's identifier comes from its host's address, unless there never was a network or it has no host. */
  predicate Named(info: NetworkInfo) {
    info.bssid == FakeMac(info.nodes[0].ip) || info.bssid == NO_NETWORK.bssid || info.nodes[0].connected == 0
  }

  /** A join has a real target, which is not the network of the address waited for. */
  predicate Aimed(j: Join, self: u32) {
    && (j.awaitIp == 0 || j.awaitIp == self)
    && (j.active ==> j.bssid != NO_NETWORK.bssid && (j.awaitIp != 0 ==> j.bssid != FakeMac(self)))
  }

  lemma UpdateKeepsName(d: Ldn, addr: Option<Address>)
    requires Named(d.net)
    ensures
      var e := UpdateNodes(d, addr).d;
      Named(e.net) && e.join == d.join
  {
    UpdateSetsFlags(d, addr);
  }

  lemma SyncKeepsNames(d: Ldn, info: NetworkInfo, stamp: u16, now: int, addr: Option<Address>, self: u32)
    requires Named(d.net) && Aimed(d.join, self) && Named(info)
    ensures
      var e := OnSyncFrame(d, info, stamp, now, addr).d;
      Named(e.net) && Aimed(e.join, self)
  {
  }

  lemma HearingKeepsNames(d: Ldn, f: Frame, now: int, addr: Option<Address>, self: u32)
    requires Named(d.net) && Aimed(d.join, self) && (f.SyncCame? ==> Named(f.info))
    ensures
      var e := Hear(d, f, now, addr).d;
      Named(e.net) && Aimed(e.join, self)
  {
    match f
    case SyncCame(info, stamp) => SyncKeepsNames(d, info, stamp, now, addr, self);
    case ConnectCame(node) =>
      var holder, free := HolderOf(d.stations, d.net.nodes[1..], node.ip), FirstFree(d.stations);
      if holder < STATION_COUNT {
        UpdateKeepsName(Reheard(d, holder, now), addr);
      } else if free < STATION_COUNT {
        UpdateKeepsName(Enrolled(d, free, node, now), addr);
      }
    case ByeCame(bssid, ip) => UpdateKeepsName(d.(stations := Departed(d, ip)), addr);
    case _ =>
  }

  lemma JoinAims(d: Ldn, target: NetworkInfo, name: seq<byte>, addr: Option<Address>, self: u32)
    requires Aimed(d.join, self) && target.bssid == FakeMac(target.nodes[0].ip)
    requires if addr.Some? then addr.value.ip == self else target.nodes[0].ip != self
    ensures Aimed(ConnectTo(d, target, name, addr).d.join, self)
  {
    assert FakeMac(target.nodes[0].ip)[0] == 2;
    if target.nodes[0].ip != self && FakeMac(target.nodes[0].ip) == FakeMac(self) {
      FakeMacInjective(target.nodes[0].ip, self);
    }
  }

  lemma CallsKeepNames(d: Ldn, c: Call, now: int, addr: Option<Address>, self: u32)
    requires Named(d.net) && Aimed(d.join, self)
    requires addr.Some? ==> addr.value.ip == self
    requires c.Join? ==> c.target.bssid == FakeMac(c.target.nodes[0].ip) && (addr.None? ==> c.target.nodes[0].ip != self)
    ensures
      var r := Obey(d, c, now, addr).d;
      Named(r.net) && Aimed(r.join, self)
  {
    if c.Join? {
      JoinAims(d, c.target, c.name, addr, self);
    }
  }

  lemma OthersKeepNames(d: Ldn, e: Event, now: int, addr: Option<Address>, self: u32)
    requires Named(d.net) && Aimed(d.join, self) && !e.Heard? && !e.Called?
    ensures
      var r := React(d, e, now, addr).d;
      Named(r.net) && Aimed(r.join, self)
  {
  }

  // ---- What holds in every world of a run ----

  /** Some console showed exactly this node list, with these stations, in this world or an earlier one. */
  ghost predicate Explained(worlds: seq<World>, k: nat, info: NetworkInfo) {
    exists j: nat, h: nat :: j <= k < |worlds| && h in worlds[j].consoles && Shows(worlds[j].consoles[h], info)
  }

  ghost predicate Shows(d: Ldn, info: NetworkInfo) {
    d.net == info && FlagsOk(info, d.stations)
  }

  /** A host is node 0 of its own network. */
  ghost predicate HostsItself(d: Ldn, self: u32) {
    d.state.AccessPointCreated? ==> d.net.nodes[0].ip == self
  }

  ghost predicate ConsoleOk(d: Ldn, self: u32) {
    HostOk(d) && Named(d.net) && Aimed(d.join, self) && HostsItself(d, self)
  }

  ghost predicate WorldOk(ips: map<nat, u32>, w: World) {
    && (forall x | x in w.consoles :: x in ips && ConsoleOk(w.consoles[x], ips[x]))
    && (forall info | info in w.air :: Named(info))
    && (forall info | info in w.ads :: info.bssid == FakeMac(info.nodes[0].ip))
  }

  lemma HearingKeepsSelf(d: Ldn, f: Frame, now: int, addr: Option<Address>, self: u32)
    requires HostsItself(d, self)
    ensures HostsItself(Hear(d, f, now, addr).d, self)
  {
  }

  lemma CallsKeepSelf(d: Ldn, c: Call, now: int, addr: Option<Address>, self: u32)
    requires HostsItself(d, self) && (addr.Some? ==> addr.value.ip == self)
    ensures HostsItself(Obey(d, c, now, addr).d, self)
  {
  }

  lemma EventKeepsSelf(d: Ldn, e: Event, now: int, addr: Option<Address>, self: u32)
    requires HostsItself(d, self) && (addr.Some? ==> addr.value.ip == self)
    ensures HostsItself(React(d, e, now, addr).d, self)
  {
    match e
    case Heard(f) => HearingKeepsSelf(d, f, now, addr, self);
    case Called(c) => CallsKeepSelf(d, c, now, addr, self);
    case _ =>
  }

  lemma MoveKeepsWorld(ips: map<nat, u32>, w: World, m: Move)
    requires WorldOk(ips, w) && Permitted(ips, w, m)
    ensures WorldOk(ips, Next(w, m))
    ensures ShowsItself(Outcome(w, m))
  {
    var d, e := w.consoles[m.x], m.i.e;
    EventKeepsHost(d, e, m.i.now, m.i.addr);
    EventShows(d, e, m.i.now, m.i.addr);
    EventKeepsSelf(d, e, m.i.now, m.i.addr, ips[m.x]);
    if e.Heard? {
      HearingKeepsNames(d, e.f, m.i.now, m.i.addr, ips[m.x]);
    } else if e.Called? {
      CallsKeepNames(d, e.c, m.i.now, m.i.addr, ips[m.x]);
    } else {
      OthersKeepNames(d, e, m.i.now, m.i.addr, ips[m.x]);
    }
  }

  lemma {:induction false} RunsKeepWorld(ips: map<nat, u32>, worlds: seq<World>, moves: seq<Move>, k: nat)
    requires IsRun(ips, worlds, moves) && k < |worlds|
    ensures WorldOk(ips, worlds[k])
  {
    if k > 0 {
      RunsKeepWorld(ips, worlds, moves, k - 1);
      assert MadeAt(ips, worlds, moves, k - 1);
      MoveKeepsWorld(ips, worlds[k - 1], moves[k - 1]);
    }
  }

  /** A snapshot that was not on the air before is what the moving console now shows. */
  lemma NewOnAirIsShown(ips: map<nat, u32>, w: World, m: Move, info: NetworkInfo)
    requires WorldOk(ips, w) && Permitted(ips, w, m) && info in Next(w, m).air && info !in w.air
    ensures Shows(Next(w, m).consoles[m.x], info)
  {
    MoveKeepsWorld(ips, w, m);
    var o :| o in Outcome(w, m).out && IsSync(o) && InfoIn(o) == info;
  }

  lemma StaysExplained(worlds: seq<World>, k: nat, info: NetworkInfo)
    requires k + 1 < |worlds| && Explained(worlds, k, info)
    ensures Explained(worlds, k + 1, info)
  {
  }

  lemma {:induction false} ShownIsExplained(worlds: seq<World>, k: nat, h: nat, info: NetworkInfo)
    requires k < |worlds| && h in worlds[k].consoles && Shows(worlds[k].consoles[h], info)
    ensures Explained(worlds, k, info)
  {
  }

  lemma NewIsExplained(ips: map<nat, u32>, worlds: seq<World>, moves: seq<Move>, k: nat, info: NetworkInfo)
    requires IsRun(ips, worlds, moves) && 0 < k < |worlds| && info in worlds[k].air && info !in worlds[k - 1].air
    ensures Explained(worlds, k, info)
  {
    var m, w := moves[k - 1], worlds[k - 1];
    assert MadeAt(ips, worlds, moves, k - 1);
    RunsKeepWorld(ips, worlds, moves, k - 1);
    NewOnAirIsShown(ips, w, m, info);
    ShownIsExplained(worlds, k, m.x, info);
  }

  lemma {:induction false} AirIsExplained(ips: map<nat, u32>, worlds: seq<World>, moves: seq<Move>, k: nat, info: NetworkInfo)
    requires IsRun(ips, worlds, moves) && k < |worlds| && info in worlds[k].air
    ensures Explained(worlds, k, info)
  {
    if k > 0 {
      if info in worlds[k - 1].air {
        AirIsExplained(ips, worlds, moves, k - 1, info);
        StaysExplained(worlds, k - 1, info);
      } else {
        NewIsExplained(ips, worlds, moves, k, info);
      }
    }
  }

  // ---- Joining ----

  /** Only a sync of the target network that lists us, if we wait for that, makes us a station. */
  lemma OnlySyncsConnect(d: Ldn, e: Event, now: int, addr: Option<Address>)
    requires d.state.Browsing? && React(d, e, now, addr).d.state.StationConnected?
    ensures e.Heard? && e.f.SyncCame? && d.join.active && e.f.info.bssid == d.join.bssid
    ensures d.join.awaitIp == 0 || Lists(e.f.info.nodes, d.join.awaitIp)
    ensures React(d, e, now, addr).d.net == e.f.info
    ensures d.relay ==> React(d, e, now, addr).out == [Scope(ScopeToken(e.f.info.session))]
  {
  }

  /** The host has a station with that address in a connected slot. */
  ghost predicate HasStation(host: Ldn, ip: u32) {
    exists i :: 0 <= i < STATION_COUNT && IsUp(host.stations[i]) && host.net.nodes[i + 1].ip == ip
  }

  lemma ListedIsStation(host: Ldn, info: NetworkInfo, ip: u32)
    requires Shows(host, info) && Lists(info.nodes, ip) && Named(info)
    requires info.bssid != NO_NETWORK.bssid && info.bssid != FakeMac(ip)
    ensures HasStation(host, ip)
  {
    var i :| 0 <= i < NODE_COUNT && info.nodes[i].connected != 0 && info.nodes[i].ip == ip;
    assert i > 0;
    assert info.nodes[(i - 1) + 1].connected == if IsUp(host.stations[i - 1]) then 1 else 0;
  }

  /**
   * In every run: the list a waiting console joins on was shown before by a
   * console that had its address in a connected slot, under the identifier it
   * aims at. That this console hosted the network is not said: see StraySyncs.
   */
  lemma JoinsWereListed(ips: map<nat, u32>, worlds: seq<World>, moves: seq<Move>, k: nat)
    requires IsRun(ips, worlds, moves) && k < |moves| && WaitsAndJoins(worlds, moves, k)
    ensures
      var x := moves[k].x;
      var before, after := worlds[k].consoles[x], worlds[k + 1].consoles[x];
      && x in ips && before.join.awaitIp == ips[x]
      && (before.relay ==> Outcome(worlds[k], moves[k]).out == [Scope(ScopeToken(after.net.session))])
      && exists j: nat, h: nat :: j <= k && h in worlds[j].consoles &&
           var other := worlds[j].consoles[h];
           other.net.bssid == before.join.bssid && HasStation(other, ips[x]) && after.net == other.net
  {
    var m, w := moves[k], worlds[k];
    assert MadeAt(ips, worlds, moves, k);
    RunsKeepWorld(ips, worlds, moves, k);
    OnlySyncsConnect(w.consoles[m.x], m.i.e, m.i.now, m.i.addr);
    var info := m.i.e.f.info;
    AirIsExplained(ips, worlds, moves, k, info);
    var j: nat, h: nat :| j <= k && h in worlds[j].consoles && Shows(worlds[j].consoles[h], info);
    ListedIsStation(worlds[j].consoles[h], info, ips[m.x]);
  }

  /** At move k a console that waits to be listed becomes a station. */
  ghost predicate WaitsAndJoins(worlds: seq<World>, moves: seq<Move>, k: nat)
    requires k < |moves| && |worlds| == |moves| + 1
  {
    var x := moves[k].x;
    && x in worlds[k].consoles && x in worlds[k + 1].consoles
    && worlds[k].consoles[x].state.Browsing? && worlds[k + 1].consoles[x].state.StationConnected?
    && worlds[k].consoles[x].join.awaitIp != 0
  }

  /** Every node list a station takes over, on joining or later, was shown by a console under the network it aims at. */
  lemma StoredListsWerePublished(ips: map<nat, u32>, worlds: seq<World>, moves: seq<Move>, k: nat)
    requires IsRun(ips, worlds, moves) && k < |moves| && moves[k].i.e.Heard?
    requires
      var x := moves[k].x;
      x in worlds[k].consoles && x in worlds[k + 1].consoles &&
      var before := worlds[k].consoles[x];
      (before.state.Browsing? || before.state.StationConnected?) && worlds[k + 1].consoles[x].net != before.net
    ensures
      var x := moves[k].x;
      var after := worlds[k + 1].consoles[x].net;
      after.bssid == worlds[k].consoles[x].join.bssid && Explained(worlds, k, after)
  {
    var m, w := moves[k], worlds[k];
    assert MadeAt(ips, worlds, moves, k);
    assert m.i.e.f.SyncCame?;
    AirIsExplained(ips, worlds, moves, k, m.i.e.f.info);
  }

  /** The network a frame speaks of, if it speaks of one. */
  function Speaks(f: Frame): Option<Mac> {
    match f
    case SyncCame(info, _) => Some(info.bssid)
    case HeartbeatCame(bssid, _) => Some(bssid)
    case ByeCame(bssid, _) => Some(bssid)
    case ScanRespCame(info) => Some(info.bssid)
    case _ => None
  }

  /** A station's session is not touched by any frame about another network, nor by Connect or Scan. */
  lemma ForeignFramesIgnored(d: Ldn, f: Frame, now: int, addr: Option<Address>)
    requires d.state.Browsing? || d.state.StationConnected?
    requires Speaks(f) != Some(d.join.bssid)
    ensures Hear(d, f, now, addr) == After(d, [])
  {
  }

  // ---- Joins do succeed ----

  /**
   * After a Connect a host has the station in a connected slot if and only if
   * it had it before, or no slot in use holds that address and there is room.
   * An address left over in a slot whose TCP connection has not introduced
   * itself yet therefore keeps its owner out.
   */
  lemma ConnectRegistersIff(d: Ldn, node: NodeInfo, now: int, addr: Option<Address>)
    requires d.state.AccessPointCreated?
    ensures HasStation(OnConnectFrame(d, node, now, addr).d, node.ip)
       <==> HasStation(d, node.ip)
            || (HolderOf(d.stations, d.net.nodes[1..], node.ip) == STATION_COUNT && CountBusy(d.stations) < STATION_COUNT)
  {
    var holder := HolderOf(d.stations, d.net.nodes[1..], node.ip);
    if holder < STATION_COUNT {
      UpdateSetsFlags(Reheard(d, holder, now), addr);
      SameStations(d, OnConnectFrame(d, node, now, addr).d, node.ip);
    } else if CountBusy(d.stations) < STATION_COUNT {
      ConnectEnrols(d, node, now, addr);
    }
  }

  lemma ConnectEnrols(d: Ldn, node: NodeInfo, now: int, addr: Option<Address>)
    requires d.state.AccessPointCreated? && CountBusy(d.stations) < STATION_COUNT
    requires HolderOf(d.stations, d.net.nodes[1..], node.ip) == STATION_COUNT
    ensures HasStation(OnConnectFrame(d, node, now, addr).d, node.ip)
  {
    var free := FirstFree(d.stations);
    RoomMeansFreeSlot(d.stations);
    UpdateSetsFlags(Enrolled(d, free, node, now), addr);
    var e := OnConnectFrame(d, node, now, addr).d;
    assert IsUp(e.stations[free]) && e.net.nodes[free + 1].ip == node.ip;
  }

  lemma LeftOverKeepsOut(d: Ldn, node: NodeInfo, now: int, addr: Option<Address>)
    requires d.state.AccessPointCreated? && d.stations[0].status.Connecting? && d.net.nodes[1].ip == node.ip
    requires forall i | 1 <= i < STATION_COUNT :: d.stations[i] == FREE
    ensures !HasStation(OnConnectFrame(d, node, now, addr).d, node.ip)
  {
    assert d.net.nodes[1..][0] == d.net.nodes[1];
    ConnectRegistersIff(d, node, now, addr);
  }

  function Came(f: Frame, addr: Option<Address>): Input {
    Input(Heard(f), 0, addr)
  }

  /** The station joins a new network and leaves again, and a TCP connection is accepted. */
  function LeftOverRun(a: Address, node: NodeInfo, fd: nat): seq<Input> {
    Opening([], [], a) + [Came(ConnectCame(node), Some(a))] + [Came(ByeCame(FakeMac(a.ip), node.ip), Some(a))]
    + [Input(TcpAccepted(fd), 0, Some(a))]
  }

  /** It happens: the station joins and leaves, a new TCP connection takes its slot, and it asks to join again. */
  lemma LeftOverKeepsOwnerOut(a: Address, node: NodeInfo, fd: nat, now: int)
    ensures
      var d := Run(NewSession(), LeftOverRun(a, node, fd));
      && d.state.AccessPointCreated? && CountBusy(d.stations) == 1
      && !HasStation(OnConnectFrame(d, node, now, Some(a)).d, node.ip)
  {
    var opening, connect, bye, tcp := Opening([], [], a), Came(ConnectCame(node), Some(a)),
                                      Came(ByeCame(FakeMac(a.ip), node.ip), Some(a)), Input(TcpAccepted(fd), 0, Some(a));
    OpensNetwork([], [], a);
    RunMore(NewSession(), opening, connect);
    RunMore(NewSession(), opening + [connect], bye);
    RunMore(NewSession(), opening + [connect] + [bye], tcp);
    Comes(Run(NewSession(), opening), node, a);
    Goes(Run(NewSession(), opening + [connect]), node, a);
    var d := Run(NewSession(), opening + [connect] + [bye]);
    assert FirstFree(d.stations) == 0;
    AllFreeCount(d.stations);
    OneBusy(OnAccept(d, fd).stations);
    LeftOverKeepsOut(OnAccept(d, fd), node, now, Some(a));
  }

  lemma {:induction false} AllFreeCount(stations: seq<Station>)
    requires forall i | 0 <= i < |stations| :: stations[i].status.Disconnected?
    ensures CountBusy(stations) == 0
    decreases |stations|
  {
    if stations != [] {
      AllFreeCount(stations[..|stations| - 1]);
    }
  }

  lemma {:induction false} OneBusy(stations: seq<Station>)
    requires stations != [] && !stations[0].status.Disconnected?
    requires forall i | 1 <= i < |stations| :: stations[i].status.Disconnected?
    ensures CountBusy(stations) == 1
    decreases |stations|
  {
    if |stations| == 1 {
      AllFreeCount(stations[..0]);
    } else {
      OneBusy(stations[..|stations| - 1]);
    }
  }

  lemma Comes(d: Ldn, node: NodeInfo, a: Address)
    requires JustOpened(d, a.ip)
    ensures
      var e := React(d, Heard(ConnectCame(node)), 0, Some(a)).d;
      && e.state.AccessPointCreated? && e.relay && e.net.bssid == FakeMac(a.ip) && e.net.nodes[1].ip == node.ip
      && e.stations == d.stations[0 := Station(Connected, -1, 0)]
  {
    AllFreeCount(d.stations);
    assert forall k | 0 <= k < STATION_COUNT :: d.stations[k].status.Disconnected?;
    assert FirstFree(d.stations) == 0 && HolderOf(d.stations, d.net.nodes[1..], node.ip) == STATION_COUNT;
    UpdateSetsFlags(Enrolled(d, 0, node, 0), Some(a));
  }

  lemma Goes(d: Ldn, node: NodeInfo, a: Address)
    requires d.state.AccessPointCreated? && d.relay && d.net.bssid == FakeMac(a.ip) && d.net.nodes[1].ip == node.ip
    requires d.stations[0] == Station(Connected, -1, 0) && forall i | 1 <= i < STATION_COUNT :: d.stations[i] == FREE
    ensures
      var e := React(d, Heard(ByeCame(FakeMac(a.ip), node.ip)), 0, Some(a)).d;
      && e.state.AccessPointCreated? && e.net.nodes[1].ip == node.ip
      && forall i | 0 <= i < STATION_COUNT :: e.stations[i] == FREE
  {
    var gone := Departed(d, node.ip);
    assert gone[0] == Reset(d.stations[0]) && gone[0] != d.stations[0];
    var e := d.(stations := gone);
    assert OnBye(d, FakeMac(a.ip), node.ip, Some(a)) == UpdateNodes(e, Some(a));
    UpdateSetsFlags(e, Some(a));
  }

  lemma SameStations(d: Ldn, e: Ldn, ip: u32)
    requires forall i | 0 <= i < STATION_COUNT :: IsUp(e.stations[i]) == IsUp(d.stations[i])
    requires forall i | 0 <= i < NODE_COUNT :: e.net.nodes[i].ip == d.net.nodes[i].ip
    ensures HasStation(e, ip) <==> HasStation(d, ip)
  {
    if HasStation(d, ip) {
      var i :| 0 <= i < STATION_COUNT && IsUp(d.stations[i]) && d.net.nodes[i + 1].ip == ip;
      assert IsUp(e.stations[i]) && e.net.nodes[i + 1].ip == ip;
    }
    if HasStation(e, ip) {
      var i :| 0 <= i < STATION_COUNT && IsUp(e.stations[i]) && e.net.nodes[i + 1].ip == ip;
      assert IsUp(d.stations[i]) && d.net.nodes[i + 1].ip == ip;
    }
  }

  /** A host answers the Connect of a station it has, new or old, with a snapshot that lists it; a retransmission is answered again. */
  lemma ConnectIsAnswered(d: Ldn, node: NodeInfo, now: int, addr: Option<Address>)
    requires d.state.AccessPointCreated? && d.relay
    ensures
      var r := OnConnectFrame(d, node, now, addr);
      HasStation(r.d, node.ip) ==> Sync(r.d.net) in r.out && Shows(r.d, r.d.net)
  {
    var holder, free := HolderOf(d.stations, d.net.nodes[1..], node.ip), FirstFree(d.stations);
    if holder < STATION_COUNT {
      UpdateSetsFlags(Reheard(d, holder, now), addr);
    } else if CountBusy(d.stations) < STATION_COUNT && free < STATION_COUNT {
      UpdateSetsFlags(Enrolled(d, free, node, now), addr);
    } else {
      assert forall i | 0 <= i < STATION_COUNT :: d.net.nodes[1..][i] == d.net.nodes[i + 1];
    }
  }

  /**
   * And then the snapshot the host broadcasts on that very Connect, or any
   * later one that reaches the station fresh, makes the waiting station one.
   */
  lemma RegisteredThenSynced(host: Ldn, station: Ldn, info: NetworkInfo, stamp: u16, now: int, addr: Option<Address>)
    requires Shows(host, info) && HasStation(host, station.join.awaitIp)
    requires station.state.Browsing? && station.join.active && station.join.bssid == info.bssid
    requires !Stale(station.join.syncSeqValid, station.join.syncSeq, stamp)
    ensures
      var r := OnSyncFrame(station, info, stamp, now, addr);
      r.d.state.StationConnected? && r.d.net == info
  {
    var i :| 0 <= i < STATION_COUNT && IsUp(host.stations[i]) && host.net.nodes[i + 1].ip == station.join.awaitIp;
    assert info.nodes[i + 1].connected == 1 && info.nodes[i + 1].ip == station.join.awaitIp;
  }
}
