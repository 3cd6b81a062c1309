// lan_discovery.hpp/.cpp: the state of one console's LDN session and what each
// handler does to it, as functions of that state. Every locked region is one step.

module LdnState {
  import opened Bytes
  import SessionRegistry

  const STATION_COUNT := 7
  const NODE_COUNT := 8

  const BEACON_MS := 5000
  const PEER_TIMEOUT_MS := 30000
  const ADVERTISE_MS := 2000
  const ADVERTISE_DATA_MAX := 384

  const NODE_CONNECT: bv8 := 1
  const NODE_DISCONNECT: bv8 := 2

  // ---- What consoles tell each other ----

  type int8 = x: int | -0x80 <= x < 0x80
  type Mac = seq<byte>

  datatype NodeInfo = NodeInfo(ip: u32, nodeId: int, connected: int8, name: seq<byte>)

  const BLANK_NODE := NodeInfo(0, 0, 0, [])

  type Nodes = s: seq<NodeInfo> | |s| == NODE_COUNT witness seq(NODE_COUNT, _ => BLANK_NODE)

  datatype NetworkInfo = NetworkInfo(bssid: Mac, session: seq<byte>, nodeCount: nat, nodes: Nodes, advertised: seq<byte>)

  const BLANK_NODES: Nodes :=
    [BLANK_NODE, BLANK_NODE, BLANK_NODE, BLANK_NODE, BLANK_NODE, BLANK_NODE, BLANK_NODE, BLANK_NODE]

  const NO_NETWORK := NetworkInfo([0, 0, 0, 0, 0, 0], [], 0, BLANK_NODES, [])

  /** The network identifier a console derives from its address. */
  function FakeMac(ip: u32): Mac {
    [2, 0] + Le32(ip)
  }

  lemma FakeMacInjective(a: u32, b: u32)
    requires FakeMac(a) == FakeMac(b)
    ensures a == b
  {
    var m, n := FakeMac(a), FakeMac(b);
    assert m[2] == a % 0x1_0000 % 0x100 && m[3] == a % 0x1_0000 / 0x100 && m[4] == a / 0x1_0000 % 0x100 && m[5] == a / 0x1_0000 / 0x100;
    assert n[2] == b % 0x1_0000 % 0x100 && n[3] == b % 0x1_0000 / 0x100 && n[4] == b / 0x1_0000 % 0x100 && n[5] == b / 0x1_0000 / 0x100;
  }

  // ---- The session ----

  // In the order of the source: None, Initialized, AccessPoint,
  // AccessPointCreated, Station, StationConnected, Error.
  datatype CommState = Inactive | Initialized | AccessPoint | AccessPointCreated | Browsing | StationConnected | Broken

  datatype Reason = NoReason | DestroyedByUser | DestroyedBySystem | DisconnectedBySystem | SignalLost

  datatype Status = Disconnected | Connecting | Connected

  /** A station slot; fd is negative when it has no TCP socket of its own. */
  datatype Station = Station(status: Status, fd: int, lastSeen: int)

  const FREE := Station(Disconnected, -1, 0)

  type Slots = s: seq<Station> | |s| == STATION_COUNT witness seq(STATION_COUNT, _ => FREE)

  /** The station's side of a join. */
  datatype Join = Join(bssid: Mac, active: bool, awaitIp: u32, syncSeq: u16, syncSeqValid: bool,
                       hostSeen: int, joined: bool, joinedIp: u32)

  type Marks = s: seq<bv8> | |s| == NODE_COUNT witness seq(NODE_COUNT, _ => 0)
  type Lasts = s: seq<byte> | |s| == NODE_COUNT witness seq(NODE_COUNT, _ => 0)

  datatype Ldn = Ldn(state: CommState, relay: bool, net: NetworkInfo, stations: Slots, marks: Marks, lasts: Lasts,
                     join: Join, reason: Reason, lastAdvert: int, lastBeacon: int, published: SessionRegistry.Snapshot)

  function NewSession(): Ldn {
    Ldn(Inactive, false, NO_NETWORK, seq(STATION_COUNT, _ => FREE), seq(NODE_COUNT, _ => 0), seq(NODE_COUNT, _ => 0),
        Join([0, 0, 0, 0, 0, 0], false, 0, 0, false, 0, false, 0), NoReason, 0, 0, SessionRegistry.NO_SESSION)
  }

  /** This console's address and the broadcast address of its subnet, when the system knows them. */
  datatype Address = Address(ip: u32, bcast: u32)

  /** What leaves the console. Sync and TcpSync carry one and the same snapshot. */
  datatype Out =
    | Sync(info: NetworkInfo)
    | TcpSync(fd: int, info: NetworkInfo)
    | Advert(info: NetworkInfo)
    | JoinRequest(node: NodeInfo)
    | Heartbeat(bssid: Mac, ip: u32)
    | Bye(bssid: Mac, ip: u32)
    | Scope(token: u32)
    | Keepalive

  datatype After = After(d: Ldn, out: seq<Out>)

  // ---- The node table ----

  predicate IsUp(s: Station) {
    s.status.Connected?
  }

  /** A connected station that joined over the relay. */
  predicate RelayOnly(s: Station) {
    s.status.Connected? && s.fd < 0
  }

  function CountUp(stations: seq<Station>): (n: nat)
    ensures n <= |stations|
  {
    if stations == [] then 0 else CountUp(stations[..|stations| - 1]) + (if IsUp(stations[|stations| - 1]) then 1 else 0)
  }

  function CountBusy(stations: seq<Station>): (n: nat)
    ensures n <= |stations|
  {
    if stations == [] then 0
    else CountBusy(stations[..|stations| - 1]) + (if stations[|stations| - 1].status.Disconnected? then 0 else 1)
  }

  function FirstFree(stations: seq<Station>): (i: nat)
    ensures i <= |stations|
    ensures i < |stations| ==> stations[i].status.Disconnected?
    ensures forall k | 0 <= k < i :: !stations[k].status.Disconnected?
  {
    if stations == [] || stations[0].status.Disconnected? then 0 else 1 + FirstFree(stations[1..])
  }

  function NodeFor(node: NodeInfo, i: nat, s: Station): NodeInfo {
    node.(nodeId := i, connected := if IsUp(s) then 1 else 0)
  }

  /** Station slot i writes its number and connectedness into node i + 1. */
  function Flagged(nodes: Nodes, stations: Slots): Nodes {
    seq(NODE_COUNT, i requires 0 <= i < NODE_COUNT => if i == 0 then nodes[0] else NodeFor(nodes[i], i, stations[i - 1]))
  }

  function Synced(net: NetworkInfo, stations: Slots): NetworkInfo {
    net.(nodes := Flagged(net.nodes, stations), nodeCount := CountUp(stations) + 1)
  }

  function TcpSyncs(stations: seq<Station>, info: NetworkInfo): seq<Out> {
    if stations == [] then []
    else
      var s := stations[|stations| - 1];
      TcpSyncs(stations[..|stations| - 1], info) + (if IsUp(s) && s.fd >= 0 then [TcpSync(s.fd, info)] else [])
  }

  /** The addresses worth sending game traffic to: not blank and not ours. */
  function PeersIn(nodes: seq<NodeInfo>, self: u32): (ps: seq<u32>)
    ensures |ps| <= |nodes|
  {
    if nodes == [] then []
    else
      var ip := nodes[|nodes| - 1].ip;
      PeersIn(nodes[..|nodes| - 1], self) + (if ip == 0 || ip == self then [] else [ip])
  }

  /** Only the first nodeCount nodes are looked at. */
  function Listed(net: NetworkInfo): seq<NodeInfo> {
    if net.nodeCount < NODE_COUNT then net.nodes[..net.nodeCount] else net.nodes
  }

  function Published(net: NetworkInfo, addr: Option<Address>, was: SessionRegistry.Snapshot): SessionRegistry.Snapshot {
    if addr.None? then was
    else SessionRegistry.Snapshot(true, addr.value.bcast, PeersIn(Listed(net), addr.value.ip))
  }

  // ---- Node change marks ----

  function FlagByte(c: int8): byte {
    if c < 0 then c + 0x100 else c
  }

  function Mark(was: bv8, last: byte, c: int8): bv8 {
    if c as int == last as int then was else was | (if c != 0 then NODE_CONNECT else NODE_DISCONNECT)
  }

  predicate Differs(lasts: Lasts, nodes: Nodes, i: nat)
    requires i < NODE_COUNT
  {
    nodes[i].connected as int != lasts[i] as int
  }

  function Marked(marks: Marks, lasts: Lasts, nodes: Nodes): Marks {
    seq(NODE_COUNT, i requires 0 <= i < NODE_COUNT => Mark(marks[i], lasts[i], nodes[i].connected))
  }

  function Noted(lasts: Lasts, nodes: Nodes): Lasts {
    seq(NODE_COUNT, i requires 0 <= i < NODE_COUNT => FlagByte(nodes[i].connected))
  }

  /** The marks handed to the game are cleared; the rest stay. */
  function Drained(marks: Marks, n: nat): Marks {
    seq(NODE_COUNT, i requires 0 <= i < NODE_COUNT => if i < n then 0 else marks[i])
  }

  function Unmarked(d: Ldn): Ldn {
    d.(marks := seq(NODE_COUNT, _ => 0), lasts := seq(NODE_COUNT, _ => 0))
  }

  /** Whatever replaced the node table: compare it with the last one seen, and publish the peers. */
  function Shown(d: Ldn, addr: Option<Address>): Ldn {
    d.(marks := Marked(d.marks, d.lasts, d.net.nodes), lasts := Noted(d.lasts, d.net.nodes),
       published := Published(d.net, addr, d.published))
  }

  function UpdateNodes(d: Ldn, addr: Option<Address>): After {
    var net := Synced(d.net, d.stations);
    After(Shown(d.(net := net), addr), (if d.relay then [Sync(net)] else []) + TcpSyncs(d.stations, net))
  }

  // ---- Session scope ----

  const FNV_BASIS: u32 := 0x811c9dc5
  const FNV_PRIME := 0x01000193

  function Xor(a: byte, b: byte): byte {
    ((a as bv8) ^ (b as bv8)) as byte
  }

  /** One round: mix a byte into the low byte of h, multiply, keep 32 bits. */
  function FnvStep(h: u32, b: byte): u32 {
    ((h - h % 0x100 + Xor(h % 0x100, b)) * FNV_PRIME) % 0x1_0000_0000
  }

  function Fnv(session: seq<byte>): u32 {
    if session == [] then FNV_BASIS else FnvStep(Fnv(session[..|session| - 1]), session[|session| - 1])
  }

  /** The scope token of a session; never 0, which means no session. */
  function ScopeToken(session: seq<byte>): (t: u32)
    ensures t != 0
  {
    var h := Fnv(session);
    if h != 0 then h else 1
  }

  function ScopeOf(d: Ldn): seq<Out> {
    if !d.relay then []
    else [Scope(if d.state.AccessPointCreated? || d.state.StationConnected? then ScopeToken(d.net.session) else 0)]
  }

  // ---- Frames from other consoles ----

  /** A stamped sync at most 255 counts behind the last applied one is a duplicate or a straggler. */
  predicate Stale(valid: bool, last: u16, stamp: u16) {
    stamp != 0 && valid && Low16(last - stamp) < 256
  }

  predicate Lists(nodes: seq<NodeInfo>, ip: u32) {
    exists i :: 0 <= i < |nodes| && nodes[i].connected != 0 && nodes[i].ip == ip
  }

  /** A sync that passed every check replaces the network, and ends the wait if it lists us. */
  function TakenOver(d: Ldn, info: NetworkInfo, now: int): After {
    var d1 := d.(join := d.join.(hostSeen := now), net := info);
    var joins := d.state.Browsing? && (d.join.awaitIp == 0 || Lists(info.nodes, d.join.awaitIp));
    var d2 := if joins then d1.(state := StationConnected) else d1;
    After(d2, if joins then ScopeOf(d2) else [])
  }

  function Applied(d: Ldn, info: NetworkInfo, now: int, addr: Option<Address>): After {
    var taken := TakenOver(d, info, now);
    After(Shown(taken.d, addr), taken.out)
  }

  function OnSync(d: Ldn, info: NetworkInfo, stamp: u16, now: int, addr: Option<Address>): After {
    if !d.join.active || info.bssid != d.join.bssid || Stale(d.join.syncSeqValid, d.join.syncSeq, stamp) then After(d, [])
    else
      Applied(if stamp != 0 then d.(join := d.join.(syncSeq := stamp, syncSeqValid := true)) else d, info, now, addr)
  }

  /** A relay sync, looked at only by a console that is, or is becoming, a station. */
  function OnSyncFrame(d: Ldn, info: NetworkInfo, stamp: u16, now: int, addr: Option<Address>): After {
    if d.state.Browsing? || d.state.StationConnected? then OnSync(d, info, stamp, now, addr) else After(d, [])
  }

  /** The first slot in use by the station with that address. */
  function HolderOf(stations: seq<Station>, nodes: seq<NodeInfo>, ip: u32): (i: nat)
    requires |nodes| == |stations|
    ensures i <= |stations|
    ensures i < |stations| ==> !stations[i].status.Disconnected? && nodes[i].ip == ip
    ensures forall k | 0 <= k < i :: stations[k].status.Disconnected? || nodes[k].ip != ip
  {
    if stations == [] || (!stations[0].status.Disconnected? && nodes[0].ip == ip) then 0
    else 1 + HolderOf(stations[1..], nodes[1..], ip)
  }

  function Reheard(d: Ldn, i: nat, now: int): Ldn
    requires i < STATION_COUNT
  {
    d.(stations := d.stations[i := d.stations[i].(lastSeen := now)])
  }

  /** A station joins over the relay: its record becomes the slot's node. */
  function Enrolled(d: Ldn, i: nat, node: NodeInfo, now: int): Ldn
    requires i < STATION_COUNT
  {
    d.(stations := d.stations[i := d.stations[i].(status := Connected, lastSeen := now)],
       net := d.net.(nodes := d.net.nodes[i + 1 := node]))
  }

  function OnRelayConnect(d: Ldn, node: NodeInfo, now: int, addr: Option<Address>): After {
    var holder, free := HolderOf(d.stations, d.net.nodes[1..], node.ip), FirstFree(d.stations);
    if holder < STATION_COUNT then UpdateNodes(Reheard(d, holder, now), addr)
    else if CountBusy(d.stations) >= STATION_COUNT || free == STATION_COUNT then After(d, [])
    else UpdateNodes(Enrolled(d, free, node, now), addr)
  }

  function OnConnectFrame(d: Ldn, node: NodeInfo, now: int, addr: Option<Address>): After {
    if d.state.AccessPointCreated? then OnRelayConnect(d, node, now, addr) else After(d, [])
  }

  predicate HeardFrom(s: Station, node: NodeInfo, ip: u32) {
    RelayOnly(s) && node.ip == ip
  }

  function Refreshed(d: Ldn, ip: u32, now: int): Slots {
    seq(STATION_COUNT, i requires 0 <= i < STATION_COUNT =>
      if HeardFrom(d.stations[i], d.net.nodes[i + 1], ip) then d.stations[i].(lastSeen := now) else d.stations[i])
  }

  function OnHeartbeat(d: Ldn, bssid: Mac, ip: u32, now: int): Ldn {
    if d.state.AccessPointCreated? && bssid == d.net.bssid then d.(stations := Refreshed(d, ip, now)) else d
  }

  function Reset(s: Station): Station {
    s.(status := Disconnected, fd := -1)
  }

  function Departed(d: Ldn, ip: u32): Slots {
    seq(STATION_COUNT, i requires 0 <= i < STATION_COUNT =>
      if HeardFrom(d.stations[i], d.net.nodes[i + 1], ip) then Reset(d.stations[i]) else d.stations[i])
  }

  function OnDisconnectFromHost(d: Ldn, reason: Reason): Ldn {
    if d.state.StationConnected? then d.(join := d.join.(joined := false), reason := reason, state := Browsing) else d
  }

  function OnBye(d: Ldn, bssid: Mac, ip: u32, addr: Option<Address>): After {
    if d.state.StationConnected? then
      After(if d.join.active && bssid == d.join.bssid && ip == d.net.nodes[0].ip then OnDisconnectFromHost(d, DestroyedByUser) else d, [])
    else if d.state.AccessPointCreated? && bssid == d.net.bssid && Departed(d, ip) != d.stations then
      UpdateNodes(d.(stations := Departed(d, ip)), addr)
    else After(d, [])
  }

  function OnScan(d: Ldn, now: int): After {
    if d.state.AccessPointCreated? && now - d.lastAdvert >= ADVERTISE_MS then After(d.(lastAdvert := now), [Advert(d.net)])
    else After(d, [])
  }

  /** A scan of the local network is always answered. */
  function OnLocalScan(d: Ldn): seq<Out> {
    if d.state.AccessPointCreated? then [Advert(d.net)] else []
  }

  function OnScanResp(d: Ldn, info: NetworkInfo, now: int): Ldn {
    if d.join.active && info.bssid == d.join.bssid then d.(join := d.join.(hostSeen := now)) else d
  }

  // ---- Stations with a TCP connection ----

  function OnAccept(d: Ldn, fd: nat): Ldn {
    var free := FirstFree(d.stations);
    if !d.state.AccessPointCreated? || CountBusy(d.stations) >= STATION_COUNT || free == STATION_COUNT then d
    else d.(stations := d.stations[free := d.stations[free].(status := Connecting, fd := fd)])
  }

  function OnStationJoin(d: Ldn, i: nat, node: NodeInfo, addr: Option<Address>): After
    requires i < STATION_COUNT
  {
    if d.stations[i].fd < 0 then After(d, [])
    else
      UpdateNodes(d.(stations := d.stations[i := d.stations[i].(status := Connected)],
                     net := d.net.(nodes := d.net.nodes[i + 1 := node])), addr)
  }

  function OnStationClose(d: Ldn, i: nat, addr: Option<Address>): After
    requires i < STATION_COUNT
  {
    if d.stations[i].fd < 0 then After(d, []) else UpdateNodes(d.(stations := d.stations[i := Reset(d.stations[i])]), addr)
  }

  // ---- The worker ----

  predicate Silent(s: Station, now: int) {
    RelayOnly(s) && now - s.lastSeen >= PEER_TIMEOUT_MS
  }

  function Reaped(stations: Slots, now: int): Slots {
    seq(STATION_COUNT, i requires 0 <= i < STATION_COUNT => if Silent(stations[i], now) then Reset(stations[i]) else stations[i])
  }

  /** What the console says on every beacon. */
  function Announced(d: Ldn, now: int): After {
    if d.state.AccessPointCreated? then After(d.(lastAdvert := now), [Advert(d.net)] + ScopeOf(d))
    else if d.state.StationConnected? && d.join.joined then After(d, [Heartbeat(d.join.bssid, d.join.joinedIp)] + ScopeOf(d))
    else After(d, [Keepalive] + ScopeOf(d))
  }

  /** Peers silent for too long are given up. */
  function Checked(d: Ldn, now: int, addr: Option<Address>): After {
    if d.state.AccessPointCreated? && Reaped(d.stations, now) != d.stations then
      UpdateNodes(d.(stations := Reaped(d.stations, now)), addr)
    else if d.state.StationConnected? && d.join.joined && now - d.join.hostSeen >= PEER_TIMEOUT_MS then
      After(OnDisconnectFromHost(d, SignalLost), [])
    else After(d, [])
  }

  function OnTick(d: Ldn, now: int, addr: Option<Address>): After {
    if !d.relay || now - d.lastBeacon < BEACON_MS then After(d, [])
    else
      var said := Announced(d.(lastBeacon := now), now);
      var checked := Checked(said.d, now, addr);
      After(checked.d, said.out + checked.out)
  }

  // ---- The game's requests ----

  function Bare(stations: Slots): Slots {
    seq(STATION_COUNT, i requires 0 <= i < STATION_COUNT => Reset(stations[i]))
  }

  /** Node numbers in place, nobody connected. */
  function Cleared(nodes: Nodes): Nodes {
    seq(NODE_COUNT, i requires 0 <= i < NODE_COUNT => nodes[i].(nodeId := i, connected := 0))
  }

  /** A new network of ours; what is left in the other nodes' addresses stays. */
  function Founded(net: NetworkInfo, session: seq<byte>, name: seq<byte>, ip: u32): NetworkInfo {
    var nodes := Cleared(net.nodes);
    net.(bssid := FakeMac(ip), session := session, nodes := nodes[0 := nodes[0].(connected := 1, name := name, ip := ip)])
  }

  /** The identifier is set and the flags are cleared, but our own node could not be filled in. */
  function HalfFounded(net: NetworkInfo, session: seq<byte>, ip: u32): NetworkInfo {
    net.(bssid := FakeMac(ip), session := session, nodes := Cleared(net.nodes))
  }

  /** The address is looked up once for the identifier and again for our node; the second time may fail. */
  function CreateNetwork(d: Ldn, session: seq<byte>, name: seq<byte>, addr: Option<Address>, again: bool): After {
    if !d.state.AccessPoint? || addr.None? then After(d, [])
    else if !again then After(d.(net := HalfFounded(d.net, session, addr.value.ip)), [])
    else
      var d1 := d.(net := Founded(d.net, session, name, addr.value.ip), state := AccessPointCreated);
      var up := UpdateNodes(Unmarked(d1), addr);
      After(up.d, ScopeOf(d1) + up.out)
  }

  /** The first n marks are handed to the game, in a session and if there are so many. */
  function HandOver(d: Ldn, n: int): Ldn {
    if 0 <= n <= NODE_COUNT && (d.state.AccessPointCreated? || d.state.StationConnected?) then d.(marks := Drained(d.marks, n)) else d
  }

  function ByeOf(d: Ldn): seq<Out> {
    if !d.relay then []
    else if d.state.AccessPointCreated? then [Bye(d.net.bssid, d.net.nodes[0].ip)]
    else if d.join.joined then [Bye(d.join.bssid, d.join.joinedIp)]
    else []
  }

  /** Leaving for state s with every station dropped. */
  function LeftFor(d: Ldn, s: CommState): Ldn {
    d.(stations := Bare(d.stations), published := SessionRegistry.NO_SESSION, state := s)
  }

  function DestroyNetwork(d: Ldn): After {
    After(LeftFor(d, AccessPoint), ByeOf(d))
  }

  function OpenAccessPoint(d: Ldn): Ldn {
    if d.state.Inactive? then d.(reason := NoReason)
    else d.(reason := NoReason, stations := Bare(d.stations), state := AccessPoint)
  }

  function CloseAccessPoint(d: Ldn): After {
    if d.state.Inactive? then After(d, []) else After(LeftFor(d, Initialized), ByeOf(d))
  }

  function Unjoined(j: Join): Join {
    j.(active := false, joined := false, awaitIp := 0)
  }

  function OpenStation(d: Ldn): Ldn {
    if d.state.Inactive? then d.(reason := NoReason)
    else d.(reason := NoReason, stations := Bare(d.stations), join := Unjoined(d.join), state := Browsing)
  }

  function CloseStation(d: Ldn): Ldn {
    if d.state.Inactive? then d else LeftFor(d, Initialized)
  }

  function Disconnect(d: Ldn): After {
    After(d.(published := SessionRegistry.NO_SESSION, join := Unjoined(d.join), state := Browsing), ByeOf(d))
  }

  function SetAdvertiseData(d: Ldn, data: seq<byte>, addr: Option<Address>): After {
    if |data| > ADVERTISE_DATA_MAX then After(d, []) else UpdateNodes(d.(net := d.net.(advertised := data)), addr)
  }

  function MyNode(ip: u32, name: seq<byte>): NodeInfo {
    NodeInfo(ip, 0, 1, name)
  }

  /** connect up to the point where it starts waiting; over the relay that is after the first Connect. */
  function ConnectTo(d: Ldn, target: NetworkInfo, name: seq<byte>, addr: Option<Address>): After {
    if target.nodeCount == 0 || (addr.Some? && target.nodes[0].ip == addr.value.ip) then After(d, [])
    else
      var d1 := d.(join := d.join.(bssid := target.bssid, active := true, syncSeqValid := false));
      if !d.relay || addr.None? then After(d1, [])
      else After(Unmarked(d1.(join := d1.join.(awaitIp := addr.value.ip))), [JoinRequest(MyNode(addr.value.ip, name))])
  }

  /** The waiting connect saw the state change: peer-loss detection is armed. */
  function ConnectJoined(d: Ldn, ip: u32, now: int): Ldn {
    if d.state.StationConnected? then d.(join := d.join.(joined := true, joinedIp := ip, hostSeen := now)) else d
  }

  /** Nothing came over the relay: a direct connection will not need to be listed. */
  function ConnectGaveUp(d: Ldn): Ldn {
    d.(join := d.join.(awaitIp := 0))
  }

  /** The direct connection is up and our node has been sent over it. */
  function ConnectedDirectly(d: Ldn): Ldn {
    Unmarked(d)
  }

  // ---- Start, end, loss of the local network ----

  function Initialize(d: Ldn, relay: bool, now: int): Ldn {
    if !d.state.Inactive? then d
    else d.(relay := relay, stations := Bare(d.stations), lastBeacon := now, state := Initialized)
  }

  function Finalize(d: Ldn): Ldn {
    if d.state.Inactive? then d else LeftFor(d, Inactive).(relay := false)
  }

  function OnUdpClose(d: Ldn): Ldn {
    if d.state.Inactive? || d.state.Broken? then d
    else d.(reason := if d.state.AccessPointCreated? then DestroyedBySystem else DisconnectedBySystem, state := Broken)
  }
}
