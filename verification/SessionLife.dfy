// Consoles serving each other: joining works, goodbyes are heard, scans are
// answered, data reaches the stations, and an ended session stays quiet.

module SessionLife {
  import opened Bytes
  import SessionRegistry
  import opened LdnState
  import opened LdnRuns
  import opened Heartbeats
  import opened JoinSafety

  /** How a relay broadcast arrives at another console; a sync comes with its sender's stamp. */
  function AsFrame(o: Out, stamp: u16): Option<Frame> {
    match o
    case Sync(info) => Some(SyncCame(info, stamp))
    case Advert(info) => Some(ScanRespCame(info))
    case JoinRequest(node) => Some(ConnectCame(node))
    case Heartbeat(bssid, ip) => Some(HeartbeatCame(bssid, ip))
    case Bye(bssid, ip) => Some(ByeCame(bssid, ip))
    case _ => None
  }

  function Heareds(d: Ldn, o: Out, stamp: u16, now: int, addr: Option<Address>): After {
    if AsFrame(o, stamp).None? then After(d, []) else Hear(d, AsFrame(o, stamp).value, now, addr)
  }

  // ---- Joining ----

  /** A host on the relay with room for a console whose address nobody in its table has. */
  ghost predicate Welcomes(host: Ldn, ip: u32) {
    && host.state.AccessPointCreated? && host.relay && HostOk(host)
    && CountBusy(host.stations) < STATION_COUNT
    && (forall i | 1 <= i < NODE_COUNT :: host.net.nodes[i].ip != ip)
  }

  /** A console that looks for networks over the relay. */
  ghost predicate Looks(d: Ldn) {
    d.state.Browsing? && d.relay
  }

  lemma HostEnrols(host: Ldn, name: seq<byte>, ip: u32, now: int, theirs: Option<Address>)
    requires Welcomes(host, ip)
    ensures
      var r := OnConnectFrame(host, MyNode(ip, name), now, theirs);
      && HasStation(r.d, ip) && Sync(r.d.net) in r.out && Shows(r.d, r.d.net) && r.d.net.bssid == host.net.bssid
      && exists i: nat :: HasGuest(r.d, i, host.net.bssid, ip) && r.d.stations[i].lastSeen == now
                     && host.stations[i].status.Disconnected?
  {
    var node, free := MyNode(ip, name), FirstFree(host.stations);
    assert forall i | 0 <= i < STATION_COUNT :: host.net.nodes[1..][i] == host.net.nodes[i + 1];
    RoomMeansFreeSlot(host.stations);
    UpdateSetsFlags(Enrolled(host, free, node, now), theirs);
    ConnectRegistersIff(host, node, now, theirs);
    ConnectIsAnswered(host, node, now, theirs);
    assert HasGuest(OnConnectFrame(host, node, now, theirs).d, free, host.net.bssid, ip);
  }

  /** Asking: the target is recorded before the request goes out, and the console waits to be listed under its address. */
  ghost predicate Waits(d: Ldn, bssid: Mac, ip: u32) {
    && d.state.Browsing? && d.relay && d.join.active && d.join.bssid == bssid && d.join.awaitIp == ip && !d.join.syncSeqValid
  }

  lemma Asks(station: Ldn, target: NetworkInfo, name: seq<byte>, mine: Address)
    requires Looks(station) && target.nodeCount > 0 && target.nodes[0].ip != mine.ip
    ensures
      var r := ConnectTo(station, target, name, Some(mine));
      Waits(r.d, target.bssid, mine.ip) && r.out == [JoinRequest(MyNode(mine.ip, name))]
  {
  }

  lemma Joins(host: Ldn, station: Ldn, mine: Address, stamp: u16, now: int)
    requires Waits(station, host.net.bssid, mine.ip) && Shows(host, host.net) && HasStation(host, mine.ip)
    ensures
      var r := Hear(station, SyncCame(host.net, stamp), now, Some(mine));
      && r.d.state.StationConnected? && r.d.net == host.net && r.out == [Scope(ScopeToken(host.net.session))]
      && r.d.relay && r.d.join.active && r.d.join.bssid == host.net.bssid
      && IsGuest(ConnectJoined(r.d, mine.ip, now), host.net.bssid) && Joined(ConnectJoined(r.d, mine.ip, now), host.net.bssid, mine.ip)
  {
    RegisteredThenSynced(host, station, host.net, stamp, now, Some(mine));
  }

  lemma BeatStamps(host: Ldn, i: nat, station: Ldn, ip: u32, now: int, addr: Option<Address>)
    requires HasGuest(host, i, host.net.bssid, ip) && Joined(station, host.net.bssid, ip)
    ensures Heareds(host, Saying(station), 0, now, addr).d.stations[i] == host.stations[i].(lastSeen := now)
  {
  }

  /**
   * A console asks to join a host that has room: the host enrols it and answers
   * with its list; the console becomes its station with that list and claims
   * its session's scope; and once the wait is over its heartbeats stamp the
   * slot the host has for it.
   */
  lemma HandshakeSucceeds(host: Ldn, station: Ldn, name: seq<byte>, mine: Address, stamp: u16, now: int, theirs: Option<Address>, later: int)
    returns (i: nat, asks: After, answers: After, joins: After, waits: Ldn)
    requires Welcomes(host, mine.ip) && Looks(station) && host.net.nodes[0].ip != mine.ip
    ensures asks == ConnectTo(station, host.net, name, Some(mine)) && asks.out == [JoinRequest(MyNode(mine.ip, name))]
    ensures answers == Heareds(host, asks.out[0], 0, now, theirs) && Sync(answers.d.net) in answers.out
    ensures HasGuest(answers.d, i, host.net.bssid, mine.ip) && answers.d.stations[i].lastSeen == now
    ensures joins == Heareds(asks.d, Sync(answers.d.net), stamp, now, Some(mine))
    ensures joins.d.state.StationConnected? && joins.d.net == answers.d.net
    ensures joins.out == [Scope(ScopeToken(answers.d.net.session))]
    ensures waits == ConnectJoined(joins.d, mine.ip, now)
    ensures IsGuest(waits, host.net.bssid) && Joined(waits, host.net.bssid, mine.ip)
    ensures Heareds(answers.d, Saying(waits), 0, later, theirs).d.stations[i] == answers.d.stations[i].(lastSeen := later)
  {
    Asks(station, host.net, name, mine);
    asks := ConnectTo(station, host.net, name, Some(mine));
    i, answers := Answers(host, name, mine.ip, now, theirs);
    Joins(answers.d, asks.d, mine, stamp, now);
    joins := Hear(asks.d, SyncCame(answers.d.net, stamp), now, Some(mine));
    waits := ConnectJoined(joins.d, mine.ip, now);
    BeatStamps(answers.d, i, waits, mine.ip, later, theirs);
  }

  lemma Answers(host: Ldn, name: seq<byte>, ip: u32, now: int, theirs: Option<Address>) returns (i: nat, r: After)
    requires Welcomes(host, ip)
    ensures r == Heareds(host, JoinRequest(MyNode(ip, name)), 0, now, theirs)
    ensures HasStation(r.d, ip) && Sync(r.d.net) in r.out && Shows(r.d, r.d.net)
    ensures HasGuest(r.d, i, host.net.bssid, ip) && r.d.stations[i].lastSeen == now && r.d.net.bssid == host.net.bssid
  {
    HostEnrols(host, name, ip, now, theirs);
    r := OnConnectFrame(host, MyNode(ip, name), now, theirs);
    var k: nat :| HasGuest(r.d, k, host.net.bssid, ip) && r.d.stations[k].lastSeen == now && host.stations[k].status.Disconnected?;
    i := k;
  }

  /** A network nobody is in, and one of our own address, are not joined. */
  lemma SelfConnectRefused(station: Ldn, target: NetworkInfo, name: seq<byte>, mine: Address)
    requires target.nodeCount == 0 || target.nodes[0].ip == mine.ip
    ensures ConnectTo(station, target, name, Some(mine)) == After(station, [])
  {
  }

  /** When the wait is given up for a direct connection, a list of the network is enough, whether we are on it or not. */
  lemma DirectJoinNeedsNoListing(station: Ldn, bssid: Mac, ip: u32, info: NetworkInfo, now: int, addr: Option<Address>)
    requires Waits(station, bssid, ip) && info.bssid == bssid && !Lists(info.nodes, ip) && ip != 0
    ensures !Hear(station, SyncCame(info, 0), now, addr).d.state.StationConnected?
    ensures Hear(ConnectGaveUp(station), SyncCame(info, 0), now, addr).d.state.StationConnected?
  {
  }

  /** A network is created as the game asked for it: named, with ourselves in it, advertised, and claimed as the scope. */
  lemma CreatedAsAsked(d: Ldn, session: seq<byte>, name: seq<byte>, a: Address)
    requires d.state.AccessPoint? && d.relay
    ensures
      var r := CreateNetwork(d, session, name, Some(a), true);
      && r.d.state.AccessPointCreated? && r.d.net.session == session && r.d.net.bssid == FakeMac(a.ip)
      && r.d.net.nodes[0].ip == a.ip && r.d.net.nodes[0].name == name && r.d.net.nodes[0].connected == 1
      && Scope(ScopeToken(session)) in r.out && Sync(r.d.net) in r.out && Saying(r.d) == Advert(r.d.net)
  {
    var d1 := d.(net := Founded(d.net, session, name, a.ip), state := AccessPointCreated);
    UpdateSetsFlags(Unmarked(d1), Some(a));
    assert ScopeOf(d1)[0] == Scope(ScopeToken(session));
  }

  // ---- Leaving ----

  /** However a session is left, no peers stay published, so game traffic from outside is dropped. */
  lemma LeavingUnpublishes(d: Ldn, c: Call, now: int, addr: Option<Address>)
    requires !d.state.Inactive? && (c.Destroy? || c.CloseAp? || c.CloseSta? || c.Leave? || c.End?)
    ensures Obey(d, c, now, addr).d.published == SessionRegistry.NO_SESSION
  {
  }

  /** Opening an access point or a station forgets why the last session ended, and a station also what it aimed at: no list moves it then. */
  lemma OpeningForgets(d: Ldn, info: NetworkInfo, stamp: u16, now: int, addr: Option<Address>)
    requires !d.state.Inactive?
    ensures OpenAccessPoint(d).reason == OpenStation(d).reason == NoReason
    ensures Hear(OpenStation(d), SyncCame(info, stamp), now, addr) == After(OpenStation(d), [])
  {
  }

  lemma ByeFrees(host: Ldn, i: nat, bssid: Mac, ip: u32, addr: Option<Address>)
    requires HasGuest(host, i, bssid, ip)
    ensures
      var r := OnBye(host, bssid, ip, addr);
      r.d.stations == Departed(host, ip) && Sync(r.d.net) in r.out && FlagsOk(r.d.net, r.d.stations)
  {
    var gone := Departed(host, ip);
    assert gone[i] == Reset(host.stations[i]) && gone[i] != host.stations[i];
    UpdateSetsFlags(host.(stations := gone), addr);
  }

  /**
   * When a joined console leaves, it says goodbye, and the host it aims at
   * frees exactly the slots its address has over the relay and tells the rest.
   */
  lemma GoodbyeFreesSlots(station: Ldn, host: Ldn, i: nat, bssid: Mac, ip: u32, now: int, addr: Option<Address>)
    requires station.relay && Joined(station, bssid, ip) && HasGuest(host, i, bssid, ip)
    ensures Disconnect(station).out == [Bye(bssid, ip)] && Disconnect(station).d.state.Browsing?
    ensures Disconnect(Disconnect(station).d).out == []
    ensures
      var r := Heareds(host, Bye(bssid, ip), 0, now, addr);
      && Sync(r.d.net) in r.out && FlagsOk(r.d.net, r.d.stations)
      && forall k | 0 <= k < STATION_COUNT ::
           r.d.stations[k] == if RelayOnly(host.stations[k]) && host.net.nodes[k + 1].ip == ip then Reset(host.stations[k])
                              else host.stations[k]
  {
    ByeFrees(host, i, bssid, ip, addr);
    assert Heareds(host, Bye(bssid, ip), 0, now, addr) == OnBye(host, bssid, ip, addr);
  }

  /** When a host closes its network it says goodbye, and its stations are back to browsing, told that it was the host's doing. */
  lemma HostGoodbyeEnds(host: Ldn, station: Ldn, now: int, addr: Option<Address>)
    requires host.state.AccessPointCreated? && host.relay
    requires IsGuest(station, host.net.bssid) && station.net.nodes[0].ip == host.net.nodes[0].ip
    ensures DestroyNetwork(host).out == CloseAccessPoint(host).out == [Bye(host.net.bssid, host.net.nodes[0].ip)]
    ensures
      var e := Heareds(station, Bye(host.net.bssid, host.net.nodes[0].ip), 0, now, addr).d;
      e.state.Browsing? && !e.join.joined && e.reason == DestroyedByUser
  {
  }

  /** A joined station gives its host up exactly if a beacon is due and it has heard nothing of it for 30000 ms. */
  lemma StationGivesUpIff(d: Ldn, now: int, addr: Option<Address>)
    requires d.state.StationConnected? && d.join.joined
    ensures
      var e := OnTick(d, now, addr).d;
      && (!e.state.StationConnected? <==> d.relay && now - d.lastBeacon >= BEACON_MS && now - d.join.hostSeen >= PEER_TIMEOUT_MS)
      && (!e.state.StationConnected? ==> e.state.Browsing? && !e.join.joined && e.reason == SignalLost)
  {
  }

  // ---- Scans ----

  /** Input k broadcasts an advertisement over the relay. */
  ghost predicate Advertises(ins: seq<Input>, k: nat) {
    k < |ins| && !(ins[k].e.Heard? && ins[k].e.f.LocalScanCame?) &&
    exists o :: o in React(Run(NewSession(), ins[..k]), ins[k].e, ins[k].now, ins[k].addr).out && o.Advert?
  }

  /** When the console last advertised over the relay, 0 if never. */
  ghost function LastAdvertised(ins: seq<Input>): int {
    if ins == [] then 0
    else if Advertises(ins, |ins| - 1) then ins[|ins| - 1].now
    else LastAdvertised(ins[..|ins| - 1])
  }

  lemma UpdateAdvertisesNot(d: Ldn, addr: Option<Address>)
    ensures UpdateNodes(d, addr).d.lastAdvert == d.lastAdvert && forall o | o in UpdateNodes(d, addr).out :: !o.Advert?
  {
    TcpSyncsAgree(d.stations, Synced(d.net, d.stations));
  }

  lemma HearingAdverts(d: Ldn, f: Frame, now: int, addr: Option<Address>)
    ensures
      var r := Hear(d, f, now, addr);
      && r.d.lastAdvert == (if f.ScanCame? && r.out != [] then now else d.lastAdvert)
      && (!f.LocalScanCame? ==> ((exists o :: o in r.out && o.Advert?) <==> f.ScanCame? && r.out != []))
  {
    match f
    case ConnectCame(node) =>
      var holder, free := HolderOf(d.stations, d.net.nodes[1..], node.ip), FirstFree(d.stations);
      if holder < STATION_COUNT {
        UpdateAdvertisesNot(Reheard(d, holder, now), addr);
      } else if free < STATION_COUNT {
        UpdateAdvertisesNot(Enrolled(d, free, node, now), addr);
      }
    case ByeCame(bssid, ip) => UpdateAdvertisesNot(d.(stations := Departed(d, ip)), addr);
    case ScanCame =>
      if d.relay && d.state.AccessPointCreated? && now - d.lastAdvert >= ADVERTISE_MS {
        assert Hear(d, f, now, addr).out[0] == Advert(d.net);
      }
    case _ =>
  }

  lemma CallsAdvertiseNot(d: Ldn, c: Call, now: int, addr: Option<Address>)
    ensures Obey(d, c, now, addr).d.lastAdvert == d.lastAdvert && forall o | o in Obey(d, c, now, addr).out :: !o.Advert?
  {
    match c
    case Create(session, name, again) =>
      if d.state.AccessPoint? && addr.Some? && again {
        UpdateAdvertisesNot(Unmarked(d.(net := Founded(d.net, session, name, addr.value.ip), state := AccessPointCreated)), addr);
      }
    case Advertise(data) => UpdateAdvertisesNot(d.(net := d.net.(advertised := data)), addr);
    case _ =>
  }

  lemma TickAdverts(d: Ldn, now: int, addr: Option<Address>)
    ensures
      var r := OnTick(d, now, addr);
      r.d.lastAdvert == if exists o :: o in r.out && o.Advert? then now else d.lastAdvert
  {
    if d.relay && now - d.lastBeacon >= BEACON_MS {
      var said := Announced(d.(lastBeacon := now), now);
      UpdateAdvertisesNot(said.d.(stations := Reaped(said.d.stations, now)), addr);
      if d.state.AccessPointCreated? {
        assert OnTick(d, now, addr).out[0] == Advert(d.net);
      }
    }
  }

  lemma TcpAdvertiseNot(d: Ldn, i: nat, node: NodeInfo, addr: Option<Address>)
    requires i < STATION_COUNT
    ensures OnStationJoin(d, i, node, addr).d.lastAdvert == OnStationClose(d, i, addr).d.lastAdvert == d.lastAdvert
    ensures forall o | o in OnStationJoin(d, i, node, addr).out + OnStationClose(d, i, addr).out :: !o.Advert?
  {
    UpdateAdvertisesNot(d.(stations := d.stations[i := d.stations[i].(status := Connected)],
                           net := d.net.(nodes := d.net.nodes[i + 1 := node])), addr);
    UpdateAdvertisesNot(d.(stations := d.stations[i := Reset(d.stations[i])]), addr);
  }

  lemma EventAdverts(d: Ldn, x: Input)
    ensures
      var r := React(d, x.e, x.now, x.addr);
      r.d.lastAdvert == if !(x.e.Heard? && x.e.f.LocalScanCame?) && exists o :: o in r.out && o.Advert? then x.now else d.lastAdvert
  {
    match x.e
    case Heard(f) => HearingAdverts(d, f, x.now, x.addr);
    case Called(c) => CallsAdvertiseNot(d, c, x.now, x.addr);
    case TcpJoin(slot, node) =>
      if slot < STATION_COUNT {
        TcpAdvertiseNot(d, slot, node, x.addr);
      }
    case TcpLost(slot) =>
      if slot < STATION_COUNT {
        TcpAdvertiseNot(d, slot, BLANK_NODE, x.addr);
      }
    case Ticked => TickAdverts(d, x.now, x.addr);
    case _ =>
  }

  lemma {:induction false} AdvertClock(ins: seq<Input>)
    ensures Run(NewSession(), ins).lastAdvert == LastAdvertised(ins)
    decreases |ins|
  {
    if ins != [] {
      AdvertClock(ins[..|ins| - 1]);
      EventAdverts(Run(NewSession(), ins[..|ins| - 1]), ins[|ins| - 1]);
    }
  }

  /**
   * After every run: a scan over the relay is answered, with the network as it
   * is, exactly by a host that has not advertised for 2000 ms; one on the local
   * network by every host.
   */
  lemma ScanAnsweredIff(ins: seq<Input>, now: int, addr: Option<Address>)
    ensures
      var d := Run(NewSession(), ins);
      && Hear(d, ScanCame, now, addr).out
         == (if d.state.AccessPointCreated? && d.relay && now - LastAdvertised(ins) >= ADVERTISE_MS then [Advert(d.net)] else [])
      && Hear(d, LocalScanCame, now, addr).out == (if d.state.AccessPointCreated? then [Advert(d.net)] else [])
  {
    AdvertClock(ins);
  }

  // ---- Stations with a TCP connection ----

  lemma {:induction false} TcpSyncsReach(stations: seq<Station>, info: NetworkInfo, o: Out)
    ensures o in TcpSyncs(stations, info) <==>
      exists i :: 0 <= i < |stations| && IsUp(stations[i]) && stations[i].fd >= 0 && o == TcpSync(stations[i].fd, info)
    decreases |stations|
  {
    if stations != [] {
      var n := |stations| - 1;
      TcpSyncsReach(stations[..n], info, o);
      if i :| 0 <= i < |stations[..n]| && IsUp(stations[..n][i]) && stations[..n][i].fd >= 0 && o == TcpSync(stations[..n][i].fd, info) {
        assert stations[i] == stations[..n][i];
      }
      if i :| 0 <= i < |stations| && IsUp(stations[i]) && stations[i].fd >= 0 && o == TcpSync(stations[i].fd, info) {
        assert i < n ==> stations[..n][i] == stations[i];
      }
    }
  }

  /** A snapshot goes out to everyone: over the relay if it is used, and to exactly the connected stations with a socket. */
  lemma SnapshotReachesIff(d: Ldn, addr: Option<Address>, o: Out)
    ensures
      var r := UpdateNodes(d, addr);
      o in r.out <==>
        || (d.relay && o == Sync(r.d.net))
        || exists i :: 0 <= i < STATION_COUNT && IsUp(r.d.stations[i]) && r.d.stations[i].fd >= 0 && o == TcpSync(r.d.stations[i].fd, r.d.net)
  {
    TcpSyncsReach(d.stations, Synced(d.net, d.stations), o);
  }

  lemma TcpStationJoins(d: Ldn, i: nat, node: NodeInfo, addr: Option<Address>)
    requires i < STATION_COUNT && d.stations[i].fd >= 0
    ensures
      var r := OnStationJoin(d, i, node, addr);
      && r.d.stations == d.stations[i := d.stations[i].(status := Connected)]
      && r.d.net.nodes[i + 1] == node.(nodeId := i + 1, connected := 1) && TcpSync(d.stations[i].fd, r.d.net) in r.out
  {
    var up := d.(stations := d.stations[i := d.stations[i].(status := Connected)], net := d.net.(nodes := d.net.nodes[i + 1 := node]));
    SnapshotReachesIff(up, addr, TcpSync(d.stations[i].fd, UpdateNodes(up, addr).d.net));
  }

  lemma TcpStationGoes(d: Ldn, i: nat, addr: Option<Address>)
    requires i < STATION_COUNT && d.stations[i].fd >= 0
    ensures
      var e := OnStationClose(d, i, addr).d;
      e.stations == d.stations[i := Reset(d.stations[i])] && e.net.nodes[i + 1].connected == 0
  {
    UpdateSetsFlags(d.(stations := d.stations[i := Reset(d.stations[i])]), addr);
  }

  /**
   * A host with room accepts a TCP connection into its first free slot; when
   * the station introduces itself it is connected, listed, and sent the table;
   * when its connection goes, its slot is free again and it is no longer listed.
   */
  lemma TcpStationServed(host: Ldn, fd: nat, node: NodeInfo, addr: Option<Address>)
    requires host.state.AccessPointCreated? && CountBusy(host.stations) < STATION_COUNT
    ensures FirstFree(host.stations) < STATION_COUNT
    ensures
      var i, accepted := FirstFree(host.stations), OnAccept(host, fd);
      var joined := OnStationJoin(accepted, i, node, addr);
      var lost := OnStationClose(joined.d, i, addr);
      && accepted.stations[i].status.Connecting? && accepted.stations[i].fd == fd
      && joined.d.stations[i].status.Connected? && joined.d.net.nodes[i + 1] == node.(nodeId := i + 1, connected := 1)
      && TcpSync(fd, joined.d.net) in joined.out
      && lost.d.stations[i].status.Disconnected? && lost.d.stations[i].fd < 0 && lost.d.net.nodes[i + 1].connected == 0
      && forall k | 0 <= k < STATION_COUNT && k != i :: lost.d.stations[k] == host.stations[k]
  {
    RoomMeansFreeSlot(host.stations);
    var i, accepted := FirstFree(host.stations), OnAccept(host, fd);
    TcpStationJoins(accepted, i, node, addr);
    TcpStationGoes(OnStationJoin(accepted, i, node, addr).d, i, addr);
  }

  // ---- Advertise data ----

  /**
   * Data of at most 384 bytes that the game of a host sets reaches its stations
   * with the snapshot that goes out at once, and whoever scans with the next
   * advertisement; longer data changes and sends nothing.
   */
  lemma DataReachesStations(host: Ldn, station: Ldn, data: seq<byte>, stamp: u16, now: int, theirs: Option<Address>, mine: Option<Address>)
    requires host.state.AccessPointCreated? && host.relay && IsGuest(station, host.net.bssid)
    requires !Stale(station.join.syncSeqValid, station.join.syncSeq, stamp)
    ensures
      var r := SetAdvertiseData(host, data, theirs);
      if |data| > ADVERTISE_DATA_MAX then r == After(host, [])
      else
        && Sync(r.d.net) in r.out && Heareds(station, Sync(r.d.net), stamp, now, mine).d.net == r.d.net
        && r.d.net.advertised == data && Saying(r.d) == Advert(r.d.net)
  {
    UpdateSetsFlags(host.(net := host.net.(advertised := data)), theirs);
  }

  // ---- The end ----

  /** A console without a session has no relay and no stations. */
  ghost predicate Bared(d: Ldn) {
    d.state.Inactive? ==> !d.relay && AllFree(d.stations) && SocketsOk(d.stations)
  }

  lemma HearingKeepsBared(d: Ldn, f: Frame, now: int, addr: Option<Address>)
    requires Bared(d)
    ensures Bared(Hear(d, f, now, addr).d)
  {
  }

  lemma CallsKeepBared(d: Ldn, c: Call, now: int, addr: Option<Address>)
    requires Bared(d)
    ensures Bared(Obey(d, c, now, addr).d)
  {
    match c
    case Advertise(data) => UpdateSetsFlags(d.(net := d.net.(advertised := data)), addr);
    case End => BareIsFree(d.stations);
    case _ =>
  }

  lemma TcpKeepsBared(d: Ldn, e: Event, now: int, addr: Option<Address>)
    requires Bared(d) && (e.TcpAccepted? || e.TcpJoin? || e.TcpLost?)
    ensures Bared(React(d, e, now, addr).d)
  {
  }

  lemma EventKeepsBared(d: Ldn, x: Input)
    requires Bared(d)
    ensures Bared(React(d, x.e, x.now, x.addr).d)
  {
    match x.e
    case Heard(f) => HearingKeepsBared(d, f, x.now, x.addr);
    case Called(c) => CallsKeepBared(d, c, x.now, x.addr);
    case Ticked => assert d.relay || OnTick(d, x.now, x.addr).d == d;
    case HostLost(_) =>
    case UdpLost =>
    case _ => TcpKeepsBared(d, x.e, x.now, x.addr);
  }

  lemma {:induction false} RunsKeepBared(ins: seq<Input>)
    ensures Bared(Run(NewSession(), ins))
    decreases |ins|
  {
    if ins != [] {
      RunsKeepBared(ins[..|ins| - 1]);
      EventKeepsBared(Run(NewSession(), ins[..|ins| - 1]), ins[|ins| - 1]);
    }
  }

  /**
   * Ending the session, after whatever run: no frame, connection or worker turn
   * then changes anything or makes the console speak, until the game's next
   * request.
   */
  lemma EndedIsQuiet(ins: seq<Input>, now: int, addr: Option<Address>, x: Input)
    requires !x.e.Called?
    ensures
      var e := Obey(Run(NewSession(), ins), End, now, addr).d;
      e.state.Inactive? && React(e, x.e, x.now, x.addr) == After(e, [])
  {
    RunsKeepBared(ins);
    BareIsFree(Run(NewSession(), ins).stations);
  }

  /** Losing the local network ends whatever was under way, with the reason that fits; no frame revives the session. */
  lemma UdpLossIsFinal(d: Ldn, f: Frame, now: int, addr: Option<Address>)
    requires !d.state.Inactive? && !d.state.Broken?
    ensures
      var e := OnUdpClose(d);
      && e.state.Broken? && e.reason == (if d.state.AccessPointCreated? then DestroyedBySystem else DisconnectedBySystem)
      && (!(f.ScanRespCame?) ==> Hear(e, f, now, addr) == After(e, []))
      && Hear(e, f, now, addr).d.state.Broken?
  {
  }
}
