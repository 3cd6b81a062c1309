// Which addresses a host hands to the game-traffic side, against the stations
// that are connected, over all runs of its session.

module PublishedPeers {
  import opened Bytes
  import opened LdnState
  import opened LdnRuns
  import SessionMarks
  import SessionRegistry

  /** The addresses game traffic should reach: connected nodes, not blank, not ours. */
  ghost predicate Wanted(net: NetworkInfo, self: u32, ip: u32) {
    ip != 0 && ip != self && exists i :: 0 <= i < NODE_COUNT && net.nodes[i].connected != 0 && net.nodes[i].ip == ip
  }

  ghost predicate ExactlyWanted(net: NetworkInfo, self: u32) {
    forall ip: u32 :: ip in PeersIn(Listed(net), self) <==> Wanted(net, self, ip)
  }

  /** The connected slots are the first ones. */
  ghost predicate NoGaps(stations: Slots) {
    forall i | 0 <= i < STATION_COUNT :: IsUp(stations[i]) <==> i < CountUp(stations)
  }

  lemma {:induction false} PeersInMembers(nodes: seq<NodeInfo>, self: u32, ip: u32)
    ensures ip in PeersIn(nodes, self) <==> ip != 0 && ip != self && exists i :: 0 <= i < |nodes| && nodes[i].ip == ip
    decreases |nodes|
  {
    if nodes != [] {
      var n := |nodes| - 1;
      PeersInMembers(nodes[..n], self, ip);
      assert forall i | 0 <= i < n :: nodes[..n][i] == nodes[i];
    }
  }

  lemma {:induction false} CountWithin(stations: seq<Station>, n: nat)
    requires n <= |stations| && forall i | n <= i < |stations| :: !IsUp(stations[i])
    ensures CountUp(stations) == CountUp(stations[..n])
    decreases |stations|
  {
    if n < |stations| {
      var m := |stations| - 1;
      CountWithin(stations[..m], n);
      assert stations[..m][..n] == stations[..n];
    } else {
      assert stations[..n] == stations;
    }
  }

  lemma {:induction false} FullCount(stations: seq<Station>, i: nat)
    requires CountUp(stations) == |stations| && i < |stations|
    ensures IsUp(stations[i])
    decreases |stations|
  {
    if i < |stations| - 1 {
      FullCount(stations[..|stations| - 1], i);
    }
  }

  /** If no connected slot lies beyond the count, the slots below it are all connected. */
  lemma PackedIsNoGaps(stations: Slots)
    requires forall i | 0 <= i < STATION_COUNT && IsUp(stations[i]) :: i < CountUp(stations)
    ensures NoGaps(stations)
  {
    var n := CountUp(stations);
    CountWithin(stations, n);
    forall i | 0 <= i < n
      ensures IsUp(stations[i])
    {
      FullCount(stations[..n], i);
    }
  }

  /** Without gaps the published peers are exactly the connected ones. */
  lemma NoGapsIsExact(net: NetworkInfo, stations: Slots, self: u32)
    requires FlagsOk(net, stations) && net.nodes[0].connected == 1 && NoGaps(stations)
    ensures ExactlyWanted(net, self)
  {
    var n := CountUp(stations) + 1;
    forall ip: u32
      ensures ip in PeersIn(Listed(net), self) <==> Wanted(net, self, ip)
    {
      PeersInMembers(Listed(net), self, ip);
      forall i | 0 <= i < NODE_COUNT
        ensures net.nodes[i].connected != 0 <==> i < n
      {
        if i > 0 {
          assert net.nodes[(i - 1) + 1].connected == if IsUp(stations[i - 1]) then 1 else 0;
        }
      }
      assert forall i | 0 <= i < n :: Listed(net)[i] == net.nodes[i];
    }
  }

  /** Connected stations have addresses of their own, shared with no other node, current or left over. */
  ghost predicate Distinct(net: NetworkInfo, stations: Slots, self: u32) {
    forall i | 0 <= i < STATION_COUNT && IsUp(stations[i]) ::
      && net.nodes[i + 1].ip != 0 && net.nodes[i + 1].ip != self
      && forall j | 0 <= j < NODE_COUNT && j != i + 1 :: net.nodes[j].ip != net.nodes[i + 1].ip
  }

  /**
   * With distinct addresses in the table, the published peers are exactly the
   * connected ones if and only if the connected slots have no gap before them.
   */
  lemma PublishedExactIff(net: NetworkInfo, stations: Slots, self: u32)
    requires FlagsOk(net, stations) && net.nodes[0].connected == 1 && Distinct(net, stations, self)
    ensures ExactlyWanted(net, self) <==> NoGaps(stations)
  {
    if NoGaps(stations) {
      NoGapsIsExact(net, stations, self);
    } else {
      if forall i | 0 <= i < STATION_COUNT && IsUp(stations[i]) :: i < CountUp(stations) {
        PackedIsNoGaps(stations);
      }
      var i :| 0 <= i < STATION_COUNT && IsUp(stations[i]) && i >= CountUp(stations);
      var ip := net.nodes[i + 1].ip;
      PeersInMembers(Listed(net), self, ip);
      assert forall j | 0 <= j < |Listed(net)| :: Listed(net)[j] == net.nodes[j] && j != i + 1;
      assert Wanted(net, self, ip);
    }
  }

  // ---- What a host has published ----

  /** Whether the input replaces the node table: a table update, or a network of our own. */
  predicate Updates(d: Ldn, i: Input) {
    SessionMarks.Looks(d, i.e, i.now) || (i.e.Called? && i.e.c.Create? && i.e.c.again && d.state.AccessPoint? && i.addr.Some?)
  }

  lemma HearingPublishes(d: Ldn, f: Frame, now: int, addr: Option<Address>)
    ensures
      var e := Hear(d, f, now, addr).d;
      if SessionMarks.Looks(d, Heard(f), now) then e.published == Published(e.net, addr, d.published)
      else e.published == d.published && e.net == d.net && (e.state.AccessPointCreated? ==> d.state.AccessPointCreated?)
  {
  }

  lemma CallingPublishes(d: Ldn, c: Call, now: int, addr: Option<Address>)
    ensures
      var e := Obey(d, c, now, addr).d;
      if Updates(d, Input(Called(c), now, addr)) then e.published == Published(e.net, addr, d.published)
      else e.state.AccessPointCreated? ==> d.state.AccessPointCreated? && e.published == d.published && e.net == d.net
  {
  }

  /** Every update of the table publishes its peers if the address is known; in a network nothing else changes table or peers. */
  lemma EventPublishes(d: Ldn, i: Input)
    ensures
      var e := React(d, i.e, i.now, i.addr).d;
      if Updates(d, i) then e.published == Published(e.net, i.addr, d.published)
      else e.state.AccessPointCreated? ==> d.state.AccessPointCreated? && e.published == d.published && e.net == d.net
  {
    match i.e
    case Heard(f) => HearingPublishes(d, f, i.now, i.addr);
    case Called(c) => CallingPublishes(d, c, i.now, i.addr);
    case _ =>
  }

  datatype Known = Known(net: NetworkInfo, addr: Address)

  /** The table after the last update at which our address could be looked up, and the address. */
  function LastKnown(ins: seq<Input>): Option<Known> {
    if ins == [] then None
    else
      var front, last := ins[..|ins| - 1], ins[|ins| - 1];
      var d := Run(NewSession(), front);
      if Updates(d, last) && last.addr.Some? then
        Some(Known(React(d, last.e, last.now, last.addr).d.net, last.addr.value))
      else LastKnown(front)
  }

  /** The table has not been updated without our address since. */
  predicate UpToDate(ins: seq<Input>) {
    if ins == [] then true
    else
      var front, last := ins[..|ins| - 1], ins[|ins| - 1];
      if Updates(Run(NewSession(), front), last) then last.addr.Some? else UpToDate(front)
  }

  /**
   * After every run that leaves a network open, what is published are the peers
   * of the table at its last update with a known address; that is the present
   * table unless one was updated without the address since.
   */
  lemma {:induction false} HostPublishes(ins: seq<Input>)
    requires Run(NewSession(), ins).state.AccessPointCreated?
    ensures LastKnown(ins).Some?
    ensures
      var d, k := Run(NewSession(), ins), LastKnown(ins).value;
      && d.published == SessionRegistry.Snapshot(true, k.addr.bcast, PeersIn(Listed(k.net), k.addr.ip))
      && (UpToDate(ins) ==> k.net == d.net)
    decreases |ins|
  {
    if ins != [] {
      var front, last := ins[..|ins| - 1], ins[|ins| - 1];
      var d := Run(NewSession(), front);
      EventPublishes(d, last);
      if d.state.AccessPointCreated? {
        HostPublishes(front);
      } else {
        OnlyCreateOpens(d, last);
      }
    }
  }

  lemma OnlyCreateOpens(d: Ldn, i: Input)
    requires !d.state.AccessPointCreated? && React(d, i.e, i.now, i.addr).d.state.AccessPointCreated?
    ensures i.e.Called? && i.e.c.Create? && Updates(d, i) && i.addr.Some?
  {
  }

  ghost predicate PublishesWanted(d: Ldn, self: u32) {
    forall ip: u32 :: ip in d.published.peers <==> Wanted(d.net, self, ip)
  }

  /**
   * For every run that leaves a network open and up to date: without gaps in
   * the connected slots, exactly the connected addresses are published; and if
   * the addresses in the table are distinct, only without gaps.
   */
  lemma PublishedIsExactIff(ins: seq<Input>)
    requires Run(NewSession(), ins).state.AccessPointCreated? && UpToDate(ins)
    ensures LastKnown(ins).Some?
    ensures
      var d, self := Run(NewSession(), ins), LastKnown(ins).value.addr.ip;
      && (NoGaps(d.stations) ==> PublishesWanted(d, self))
      && (Distinct(d.net, d.stations, self) ==> (PublishesWanted(d, self) <==> NoGaps(d.stations)))
  {
    HostPublishes(ins);
    RunsKeepHost(NewSession(), ins);
    var d, self := Run(NewSession(), ins), LastKnown(ins).value.addr.ip;
    assert PublishesWanted(d, self) <==> ExactlyWanted(d.net, self);
    if NoGaps(d.stations) {
      NoGapsIsExact(d.net, d.stations, self);
    }
    if Distinct(d.net, d.stations, self) {
      PublishedExactIff(d.net, d.stations, self);
    }
  }

  // ---- It does go wrong ----

  const HOST_IP: u32 := 0xC0A8_0001
  const FIRST_IP: u32 := 0xC0A8_0002
  const SECOND_IP: u32 := 0xC0A8_0003

  function Guest(ip: u32): NodeInfo {
    NodeInfo(ip, 0, 1, [])
  }

  const HERE := Some(Address(HOST_IP, 0xC0A8_00FF))

  lemma {:induction false} BusyPrefix(stations: seq<Station>, i: nat)
    requires i <= |stations| && forall k | i <= k < |stations| :: stations[k].status.Disconnected?
    ensures CountBusy(stations) <= i
    decreases |stations|
  {
    if i < |stations| {
      BusyPrefix(stations[..|stations| - 1], i);
    }
  }

  lemma SlotIsFound(stations: seq<Station>, nodes: seq<NodeInfo>, i: nat, ip: u32)
    requires |nodes| == |stations| && i < |stations|
    requires forall k | 0 <= k < i :: !stations[k].status.Disconnected? && nodes[k].ip != ip
    requires forall k | i <= k < |stations| :: stations[k].status.Disconnected?
    ensures FirstFree(stations) == i && CountBusy(stations) < |stations| && HolderOf(stations, nodes, ip) == |stations|
  {
    BusyPrefix(stations, i);
    RoomMeansFreeSlot(stations);
    assert stations[i].status.Disconnected?;
  }

  /** A new guest takes the first slot behind those in use. */
  lemma GuestTakesSlot(d: Ldn, i: nat, ip: u32, now: int, addr: Option<Address>)
    requires d.state.AccessPointCreated? && d.relay && i < STATION_COUNT
    requires forall k | 0 <= k < i :: !d.stations[k].status.Disconnected? && d.net.nodes[k + 1].ip != ip
    requires forall k | i <= k < STATION_COUNT :: d.stations[k].status.Disconnected?
    ensures
      var e := Hear(d, ConnectCame(Guest(ip)), now, addr).d;
      && FlagsOk(e.net, e.stations) && e.state.AccessPointCreated? && e.relay && e.net.bssid == d.net.bssid
      && e.stations == d.stations[i := d.stations[i].(status := Connected, lastSeen := now)]
      && forall k | 0 <= k < NODE_COUNT :: e.net.nodes[k].ip == if k == i + 1 then ip else d.net.nodes[k].ip
  {
    SlotIsFound(d.stations, d.net.nodes[1..], i, ip);
    UpdateSetsFlags(Enrolled(d, i, Guest(ip), now), addr);
  }

  lemma ByeLeavesGap(d: Ldn)
    requires d.state.AccessPointCreated? && d.relay && d.net.bssid == FakeMac(HOST_IP) && d.net.nodes[0].ip == HOST_IP
    requires RelayOnly(d.stations[0]) && RelayOnly(d.stations[1])
    requires forall k | 2 <= k < STATION_COUNT :: d.stations[k].status.Disconnected?
    requires d.net.nodes[1].ip == FIRST_IP && d.net.nodes[2].ip == SECOND_IP
    ensures
      var e := Hear(d, ByeCame(FakeMac(HOST_IP), FIRST_IP), 3, HERE).d;
      && e.published.peers == [FIRST_IP] && e.stations[1].status.Connected? && e.net.nodes[2].ip == SECOND_IP
      && e.net.nodes[2].connected == 1 && e.net.nodes[1].connected == 0
  {
    var left := Departed(d, FIRST_IP);
    assert left[0] == Reset(d.stations[0]) && left[0] != d.stations[0] && left[1] == d.stations[1];
    UpdateSetsFlags(d.(stations := left), HERE);
    OnlySecondUp(left);
    var net := Synced(d.net, left);
    TwoListed(net);
    assert net.nodes[0 + 1].connected == 0 && net.nodes[1 + 1].connected == 1;
  }

  lemma OnlySecondUp(stations: Slots)
    requires !IsUp(stations[0]) && IsUp(stations[1]) && forall k | 2 <= k < STATION_COUNT :: !IsUp(stations[k])
    ensures CountUp(stations) == 1
  {
    CountWithin(stations, 2);
    assert stations[..2] == [stations[0], stations[1]];
    assert [stations[0], stations[1]][..1] == [stations[0]] && [stations[0]][..0] == [];
  }

  lemma TwoListed(net: NetworkInfo)
    requires net.nodeCount == 2 && net.nodes[0].ip == HOST_IP && net.nodes[1].ip == FIRST_IP
    ensures PeersIn(Listed(net), HOST_IP) == [FIRST_IP]
  {
    assert Listed(net) == [net.nodes[0], net.nodes[1]];
    assert Listed(net)[..1] == [net.nodes[0]] && [net.nodes[0]][..0] == [];
    assert PeersIn([net.nodes[0]], HOST_IP) == [];
  }

  function Comes(f: Frame, now: int, addr: Option<Address>): Input {
    Input(Heard(f), now, addr)
  }

  /**
   * Two guests join a new network over the relay, and the first leaves: the one
   * who left is published, the one who stayed is not.
   */
  lemma GapsMislead()
    ensures
      var ins := Opening([], [], HERE.value) + [Comes(ConnectCame(Guest(FIRST_IP)), 1, HERE)]
                 + [Comes(ConnectCame(Guest(SECOND_IP)), 2, HERE)] + [Comes(ByeCame(FakeMac(HOST_IP), FIRST_IP), 3, HERE)];
      var e := Run(NewSession(), ins);
      && e.published.peers == [FIRST_IP] && e.stations[1].status.Connected? && e.net.nodes[2].ip == SECOND_IP
      && e.net.nodes[2].connected == 1 && e.net.nodes[1].connected == 0
  {
    var opening := Opening([], [], HERE.value);
    OpensNetwork([], [], HERE.value);
    var first, second, bye := Comes(ConnectCame(Guest(FIRST_IP)), 1, HERE), Comes(ConnectCame(Guest(SECOND_IP)), 2, HERE),
                              Comes(ByeCame(FakeMac(HOST_IP), FIRST_IP), 3, HERE);
    RunMore(NewSession(), opening, first);
    RunMore(NewSession(), opening + [first], second);
    RunMore(NewSession(), opening + [first] + [second], bye);
    var d := Run(NewSession(), opening);
    GuestTakesSlot(d, 0, FIRST_IP, 1, HERE);
    GuestTakesSlot(Hear(d, first.e.f, 1, HERE).d, 1, SECOND_IP, 2, HERE);
    ByeLeavesGap(Run(NewSession(), opening + [first] + [second]));
  }

  /** A guest joins while the host cannot look up its own address: nobody is published, though the guest is connected. */
  lemma StaleMisleads()
    ensures
      var ins := Opening([], [], HERE.value) + [Comes(ConnectCame(Guest(FIRST_IP)), 1, None)];
      var e := Run(NewSession(), ins);
      && e.state.AccessPointCreated? && !UpToDate(ins) && NoGaps(e.stations)
      && e.published.peers == [] && Wanted(e.net, HOST_IP, FIRST_IP)
  {
    var opening := Opening([], [], HERE.value);
    OpensNetwork([], [], HERE.value);
    var d, first := Run(NewSession(), opening), Comes(ConnectCame(Guest(FIRST_IP)), 1, None);
    RunMore(NewSession(), opening, first);
    GuestTakesSlot(d, 0, FIRST_IP, 1, None);
    SlotIsFound(d.stations, d.net.nodes[1..], 0, FIRST_IP);
    assert (opening + [first])[..|opening|] == opening;
    EventPublishes(d, first);
    var e := Run(NewSession(), opening + [first]);
    OnlyFirstUp(e.stations);
    assert e.net.nodes[1].connected != 0 && e.net.nodes[1].ip == FIRST_IP;
  }

  lemma OnlyFirstUp(stations: Slots)
    requires IsUp(stations[0]) && forall k | 1 <= k < STATION_COUNT :: !IsUp(stations[k])
    ensures CountUp(stations) == 1
  {
    CountWithin(stations, 1);
    assert stations[..1] == [stations[0]];
    assert [stations[0]][..0] == [];
  }
}
