// lan_discovery.hpp/.cpp: the session object itself. Its methods update its
// fields in place; each is proved to do what the function of the same name in
// LdnState says. now is the system clock in milliseconds, addr what the system
// reports as this console's address, out what the method sends, in order.

module LanDiscovery {
  import opened Bytes
  import opened LdnState
  import L = LdnState
  import SessionRegistry

  class LANDiscovery {
    var state: CommState
    var relay: bool
    var net: NetworkInfo
    const stations: array<Station>
    const marks: array<bv8>
    const lasts: array<byte>

    var joinBssid: Mac
    var joinActive: bool
    var joinAwaitSelfIp: u32
    var relaySyncSeq: u16
    var relaySyncSeqValid: bool
    var hostLastSeen: int
    var relayJoined: bool
    var relayJoinedIp: u32

    var disconnectReason: Reason
    var lastRelayAdvertise: int
    var lastBeacon: int
    const registry: SessionRegistry.Registry

    ghost predicate Valid()
      reads this, registry
    {
      stations.Length == STATION_COUNT && marks.Length == NODE_COUNT && lasts.Length == NODE_COUNT
      && (marks as object) != lasts && registry.Valid()
    }

    ghost function View(): Ldn
      reads this, stations, marks, lasts, registry
      requires Valid()
    {
      Ldn(state, relay, net, stations[..], marks[..], lasts[..],
          Join(joinBssid, joinActive, joinAwaitSelfIp, relaySyncSeq, relaySyncSeqValid, hostLastSeen, relayJoined, relayJoinedIp),
          disconnectReason, lastRelayAdvertise, lastBeacon, registry.state)
    }

    constructor ()
      ensures Valid() && View() == NewSession()
      ensures fresh(stations) && fresh(marks) && fresh(lasts) && fresh(registry)
    {
      state, relay, net := Inactive, false, NO_NETWORK;
      stations := new Station[STATION_COUNT](_ => FREE);
      marks := new bv8[NODE_COUNT](_ => 0);
      lasts := new byte[NODE_COUNT](_ => 0);
      joinBssid, joinActive, joinAwaitSelfIp := [0, 0, 0, 0, 0, 0], false, 0;
      relaySyncSeq, relaySyncSeqValid := 0, false;
      hostLastSeen, relayJoined, relayJoinedIp := 0, false, 0;
      disconnectReason, lastRelayAdvertise, lastBeacon := NoReason, 0, 0;
      registry := new SessionRegistry.Registry();
      new;
      assert stations[..] == NewSession().stations;
      assert marks[..] == NewSession().marks;
      assert lasts[..] == NewSession().lasts;
    }

    // ---- Stations ----

    method StationCount() returns (count: nat)
      requires Valid()
      ensures count == CountBusy(stations[..])
    {
      count := 0;
      for i := 0 to STATION_COUNT
        invariant count == CountBusy(stations[..i])
      {
        assert stations[..i + 1][..i] == stations[..i];
        if !stations[i].status.Disconnected? {
          count := count + 1;
        }
      }
      assert stations[..STATION_COUNT] == stations[..];
    }

    /** Looks for a free slot the way both ways of joining do. */
    method FreeStation() returns (i: nat)
      requires Valid()
      ensures i == FirstFree(stations[..])
    {
      i := 0;
      assert stations[0..] == stations[..];
      while i < STATION_COUNT
        invariant i <= STATION_COUNT
        invariant FirstFree(stations[..]) == i + FirstFree(stations[i..])
      {
        if stations[i].status.Disconnected? {
          return;
        }
        assert stations[i..][1..] == stations[i + 1..];
        i := i + 1;
      }
    }

    method ResetStations()
      requires Valid()
      modifies stations
      ensures Valid() && View() == old(View()).(stations := Bare(old(View()).stations))
    {
      for i := 0 to STATION_COUNT
        invariant Valid()
        invariant forall k | 0 <= k < STATION_COUNT :: stations[k] == if k < i then Reset(old(stations[k])) else old(stations[k])
      {
        stations[i] := Reset(stations[i]);
      }
      assert stations[..] == Bare(old(stations[..]));
    }

    method OverrideInfo(i: nat)
      requires Valid() && i < STATION_COUNT
      modifies this`net
      ensures net == old(net).(nodes := old(net).nodes[i + 1 := NodeFor(old(net).nodes[i + 1], i + 1, stations[i])])
    {
      var node := net.nodes[i + 1].(nodeId := i + 1);
      if stations[i].status.Connected? {
        node := node.(connected := 1);
      } else {
        node := node.(connected := 0);
      }
      net := net.(nodes := net.nodes[i + 1 := node]);
    }

    // ---- The node table ----

    method UpdateNodes(addr: Option<Address>) returns (out: seq<Out>)
      requires Valid()
      modifies this`net, marks, lasts, registry
      ensures Valid() && After(View(), out) == L.UpdateNodes(old(View()), addr)
    {
      var count := OverrideNodes();
      net := net.(nodeCount := count + 1);
      out := SyncAll();
      OnNodesReplaced(addr);
    }

    /** The snapshot goes out over the relay, and to every station with its own socket. */
    method SyncAll() returns (out: seq<Out>)
      requires Valid()
      ensures out == (if relay then [Sync(net)] else []) + TcpSyncs(stations[..], net)
    {
      out := [];
      if relay {
        out := [Sync(net)];
      }
      var tcp := SyncSockets();
      out := out + tcp;
    }

    /** Every station writes its node; the result is how many are connected. */
    method OverrideNodes() returns (count: nat)
      requires Valid()
      modifies this`net
      ensures count == CountUp(stations[..]) && net == old(net).(nodes := Flagged(old(net).nodes, stations[..]))
    {
      count := 0;
      ghost var before := net;
      for i := 0 to STATION_COUNT
        invariant Valid() && count == CountUp(stations[..i])
        invariant net == before.(nodes := net.nodes)
        invariant forall k | 0 <= k < NODE_COUNT ::
          net.nodes[k] == if 0 < k <= i then NodeFor(before.nodes[k], k, stations[k - 1]) else before.nodes[k]
      {
        assert stations[..i + 1][..i] == stations[..i];
        if stations[i].status.Connected? {
          count := count + 1;
        }
        OverrideInfo(i);
      }
      assert stations[..STATION_COUNT] == stations[..];
      assert net.nodes == Flagged(before.nodes, stations[..]);
    }

    /** The node table is new: note what changed and publish the peers. */
    method OnNodesReplaced(addr: Option<Address>)
      requires Valid()
      modifies marks, lasts, registry
      ensures Valid() && View() == Shown(old(View()), addr)
    {
      var _ := IsNodeStateChanged();
      PublishSessionRegistry(addr);
    }

    /** Every connected station with its own socket gets the snapshot there. */
    method SyncSockets() returns (out: seq<Out>)
      requires Valid()
      ensures out == TcpSyncs(stations[..], net)
    {
      out := [];
      for i := 0 to STATION_COUNT
        invariant out == TcpSyncs(stations[..i], net)
      {
        assert stations[..i + 1][..i] == stations[..i];
        if stations[i].status.Connected? && stations[i].fd >= 0 {
          out := out + [TcpSync(stations[i].fd, net)];
        }
      }
      assert stations[..STATION_COUNT] == stations[..];
    }

    method IsNodeStateChanged() returns (changed: bool)
      requires Valid()
      modifies marks, lasts
      ensures Valid()
      ensures marks[..] == Marked(old(marks[..]), old(lasts[..]), net.nodes) && lasts[..] == Noted(old(lasts[..]), net.nodes)
      ensures changed <==> exists k | 0 <= k < NODE_COUNT :: Differs(old(lasts[..]), net.nodes, k)
    {
      changed := false;
      ghost var were, before := marks[..], lasts[..];
      for i := 0 to NODE_COUNT
        invariant Valid()
        invariant forall k | i <= k < NODE_COUNT :: marks[k] == were[k] && lasts[k] == before[k]
        invariant forall k | 0 <= k < i :: marks[k] == Mark(were[k], before[k], net.nodes[k].connected)
        invariant forall k | 0 <= k < i :: lasts[k] == FlagByte(net.nodes[k].connected)
        invariant changed <==> exists k | 0 <= k < i :: Differs(before, net.nodes, k)
      {
        assert Differs(before, net.nodes, i) <==> Differs(lasts[..], net.nodes, i);
        var differs := NoteNode(i);
        changed := changed || differs;
      }
      assert marks[..] == Marked(were, before, net.nodes);
      assert lasts[..] == Noted(before, net.nodes);
    }

    method NoteNode(i: nat) returns (differs: bool)
      requires Valid() && i < NODE_COUNT
      modifies marks, lasts
      ensures differs == Differs(old(lasts[..]), net.nodes, i)
      ensures marks[..] == old(marks[..])[i := Mark(old(marks[i]), old(lasts[i]), net.nodes[i].connected)]
      ensures lasts[..] == old(lasts[..])[i := FlagByte(net.nodes[i].connected)]
    {
      var c := net.nodes[i].connected;
      differs := c as int != lasts[i] as int;
      if differs {
        if c != 0 {
          marks[i] := marks[i] | NODE_CONNECT;
        } else {
          marks[i] := marks[i] | NODE_DISCONNECT;
        }
        lasts[i] := FlagByte(c);
      }
    }

    method InitNodeStateChange()
      requires Valid()
      modifies marks, lasts
      ensures Valid() && View() == Unmarked(old(View()))
    {
      for i := 0 to NODE_COUNT
        invariant Valid()
        invariant forall k | 0 <= k < i :: marks[k] == 0 && lasts[k] == 0
      {
        marks[i] := 0;
        lasts[i] := 0;
      }
      assert marks[..] == Unmarked(old(View())).marks;
      assert lasts[..] == Unmarked(old(View())).lasts;
    }

    method PublishSessionRegistry(addr: Option<Address>)
      requires Valid()
      modifies registry
      ensures Valid() && registry.state == Published(net, addr, old(registry.state))
    {
      if addr.None? {
        return;
      }
      var peers := [];
      var i := 0;
      ghost var listed := Listed(net);
      while i < net.nodeCount && i < NODE_COUNT
        invariant i <= |listed| && |listed| == (if net.nodeCount < NODE_COUNT then net.nodeCount else NODE_COUNT)
        invariant peers == PeersIn(listed[..i], addr.value.ip)
      {
        var ip := net.nodes[i].ip;
        assert listed[..i + 1][..i] == listed[..i];
        if ip != 0 && ip != addr.value.ip {
          if |peers| < SessionRegistry.MAX_PEERS {
            peers := peers + [ip];
          }
        }
        i := i + 1;
      }
      assert listed[..i] == listed;
      registry.Publish(addr.value.bcast, peers);
    }

    /** The node list for the game, with the changes since it last asked. */
    method GetNetworkInfo(bufferCount: int) returns (r: Option<(NetworkInfo, seq<bv8>)>)
      requires Valid()
      modifies marks
      ensures Valid()
      ensures !(0 <= bufferCount <= NODE_COUNT) || !(state.AccessPointCreated? || state.StationConnected?) ==>
        r == None && View() == old(View())
      ensures 0 <= bufferCount <= NODE_COUNT && (state.AccessPointCreated? || state.StationConnected?) ==>
        r == Some((net, old(marks[..bufferCount]))) && View() == HandOver(old(View()), bufferCount)
    {
      if bufferCount < 0 || bufferCount > NODE_COUNT {
        return None;
      }
      if !state.AccessPointCreated? && !state.StationConnected? {
        return None;
      }
      var updates := [];
      for i := 0 to bufferCount
        invariant Valid() && updates == old(marks[..i])
        invariant forall k | 0 <= k < NODE_COUNT :: marks[k] == if k < i then 0 else old(marks[k])
      {
        updates := updates + [marks[i]];
        marks[i] := 0;
      }
      assert marks[..] == Drained(old(View()).marks, bufferCount);
      return Some((net, updates));
    }

    // ---- Session scope and goodbye ----

    method SessionScopeToken() returns (t: u32)
      ensures t == ScopeToken(net.session)
    {
      var h := FNV_BASIS;
      for i := 0 to |net.session|
        invariant h == Fnv(net.session[..i])
      {
        assert net.session[..i + 1][..i] == net.session[..i];
        h := FnvStep(h, net.session[i]);
      }
      assert net.session[..|net.session|] == net.session;
      t := if h != 0 then h else 1;
    }

    method SendRelayScope() returns (out: seq<Out>)
      requires Valid()
      ensures out == ScopeOf(View())
    {
      if !relay {
        return [];
      }
      var scope: u32 := 0;
      if state.AccessPointCreated? || state.StationConnected? {
        scope := SessionScopeToken();
      }
      return [Scope(scope)];
    }

    method SendRelayBye() returns (out: seq<Out>)
      requires Valid()
      ensures out == ByeOf(View())
    {
      if !relay {
        return [];
      }
      if state.AccessPointCreated? {
        return [Bye(net.bssid, net.nodes[0].ip)];
      } else if relayJoined {
        return [Bye(joinBssid, relayJoinedIp)];
      }
      return [];
    }

    // ---- Frames from other consoles ----

    method OnSyncNetwork(info: NetworkInfo, relaySeq: u16, now: int, addr: Option<Address>) returns (out: seq<Out>)
      requires Valid()
      modifies this, marks, lasts, registry
      ensures Valid() && After(View(), out) == OnSync(old(View()), info, relaySeq, now, addr)
    {
      out := [];
      if !joinActive || info.bssid != joinBssid {
        return;
      }
      var accepted := AcceptStamp(relaySeq);
      if accepted {
        out := ApplySync(info, now, addr);
      }
    }

    method ApplySync(info: NetworkInfo, now: int, addr: Option<Address>) returns (out: seq<Out>)
      requires Valid()
      modifies this, marks, lasts, registry
      ensures Valid() && After(View(), out) == Applied(old(View()), info, now, addr)
    {
      out := TakeOver(info, now);
      OnNodesReplaced(addr);
    }

    method TakeOver(info: NetworkInfo, now: int) returns (out: seq<Out>)
      requires Valid()
      modifies this
      ensures Valid() && After(View(), out) == TakenOver(old(View()), info, now)
    {
      out := [];
      hostLastSeen := now;
      net := info;
      if state.Browsing? {
        var present := HostListsUs();
        if present {
          state := StationConnected;
          out := SendRelayScope();
        }
      }
    }

    /** The staleness check; a stamp that passes is the newest one seen. */
    method AcceptStamp(relaySeq: u16) returns (accepted: bool)
      modifies this`relaySyncSeq, this`relaySyncSeqValid
      ensures accepted == !Stale(old(relaySyncSeqValid), old(relaySyncSeq), relaySeq)
      ensures accepted && relaySeq != 0 ==> relaySyncSeq == relaySeq && relaySyncSeqValid
      ensures !accepted || relaySeq == 0 ==> relaySyncSeq == old(relaySyncSeq) && relaySyncSeqValid == old(relaySyncSeqValid)
    {
      if relaySeq != 0 {
        if relaySyncSeqValid && Low16(relaySyncSeq - relaySeq) < 256 {
          return false;
        }
        relaySyncSeq := relaySeq;
        relaySyncSeqValid := true;
      }
      return true;
    }

    /** Whether the node list in hand is enough to count as joined. */
    method HostListsUs() returns (present: bool)
      requires Valid()
      ensures present <==> joinAwaitSelfIp == 0 || Lists(net.nodes, joinAwaitSelfIp)
    {
      present := joinAwaitSelfIp == 0;
      var i := 0;
      while !present && i < NODE_COUNT
        invariant i <= NODE_COUNT
        invariant present ==> joinAwaitSelfIp == 0 || Lists(net.nodes, joinAwaitSelfIp)
        invariant !present ==> joinAwaitSelfIp != 0
        invariant !present ==> forall k | 0 <= k < i :: net.nodes[k].connected == 0 || net.nodes[k].ip != joinAwaitSelfIp
        decreases NODE_COUNT - i
      {
        if net.nodes[i].connected != 0 && net.nodes[i].ip == joinAwaitSelfIp {
          present := true;
        }
        i := i + 1;
      }
    }

    /** A SyncNetwork, over the relay (stamped) or from the host's socket (stamp 0). */
    method ReadSyncNetwork(info: NetworkInfo, stamp: u16, now: int, addr: Option<Address>) returns (out: seq<Out>)
      requires Valid()
      modifies this, marks, lasts, registry
      ensures Valid() && After(View(), out) == OnSyncFrame(old(View()), info, stamp, now, addr)
    {
      out := [];
      if state.Browsing? || state.StationConnected? {
        out := OnSyncNetwork(info, stamp, now, addr);
      }
    }

    method OnRelayConnect(node: NodeInfo, now: int, addr: Option<Address>) returns (out: seq<Out>)
      requires Valid()
      modifies this`net, stations, marks, lasts, registry
      ensures Valid() && After(View(), out) == L.OnRelayConnect(old(View()), node, now, addr)
    {
      out := [];
      var holder := FindHolder(node.ip);
      if holder < STATION_COUNT {
        stations[holder] := stations[holder].(lastSeen := now);
        assert View() == Reheard(old(View()), holder, now);
        out := UpdateNodes(addr);
        return;
      }
      var busy := StationCount();
      if busy >= STATION_COUNT {
        return;
      }
      var free := FreeStation();
      if free < STATION_COUNT {
        net := net.(nodes := net.nodes[free + 1 := node]);
        stations[free] := stations[free].(status := Connected, lastSeen := now);
        assert View() == Enrolled(old(View()), free, node, now);
        out := UpdateNodes(addr);
      }
    }

    /** The slot a station with this address already has, if any. */
    method FindHolder(ip: u32) returns (i: nat)
      requires Valid()
      ensures i == HolderOf(stations[..], net.nodes[1..], ip)
    {
      ghost var nodes := net.nodes[1..];
      i := 0;
      assert stations[0..] == stations[..] && nodes[0..] == nodes;
      while i < STATION_COUNT
        invariant i <= STATION_COUNT
        invariant HolderOf(stations[..], nodes, ip) == i + HolderOf(stations[i..], nodes[i..], ip)
      {
        if !stations[i].status.Disconnected? && net.nodes[i + 1].ip == ip {
          return;
        }
        assert stations[i..][1..] == stations[i + 1..] && nodes[i..][1..] == nodes[i + 1..];
        i := i + 1;
      }
    }

    method ReadConnect(node: NodeInfo, now: int, addr: Option<Address>) returns (out: seq<Out>)
      requires Valid()
      modifies this`net, stations, marks, lasts, registry
      ensures Valid() && After(View(), out) == OnConnectFrame(old(View()), node, now, addr)
    {
      out := [];
      if state.AccessPointCreated? {
        out := OnRelayConnect(node, now, addr);
      }
    }

    method ReadHeartbeat(bssid: Mac, ip: u32, now: int)
      requires Valid()
      modifies stations
      ensures Valid() && View() == OnHeartbeat(old(View()), bssid, ip, now)
    {
      if state.AccessPointCreated? && bssid == net.bssid {
        for i := 0 to STATION_COUNT
          invariant Valid()
          invariant forall k | 0 <= k < STATION_COUNT ::
            stations[k] == if k < i then Refreshed(old(View()), ip, now)[k] else old(stations[k])
        {
          if stations[i].status.Connected? && stations[i].fd < 0 && net.nodes[i + 1].ip == ip {
            stations[i] := stations[i].(lastSeen := now);
          }
        }
        assert stations[..] == Refreshed(old(View()), ip, now);
      }
    }

    method OnDisconnectFromHost(reason: Reason)
      requires Valid()
      modifies this
      ensures Valid() && View() == L.OnDisconnectFromHost(old(View()), reason)
    {
      if state.StationConnected? {
        relayJoined := false;
        disconnectReason := reason;
        state := Browsing;
      }
    }

    method ReadBye(bssid: Mac, ip: u32, addr: Option<Address>) returns (out: seq<Out>)
      requires Valid()
      modifies this, stations, marks, lasts, registry
      ensures Valid() && After(View(), out) == OnBye(old(View()), bssid, ip, addr)
    {
      out := [];
      if state.StationConnected? {
        var hostLeft := joinActive && bssid == joinBssid && ip == net.nodes[0].ip;
        if hostLeft {
          OnDisconnectFromHost(DestroyedByUser);
        }
      } else if state.AccessPointCreated? {
        if bssid == net.bssid {
          var changed := DropMatching(ip);
          if changed {
            out := UpdateNodes(addr);
          }
        }
      }
    }

    method DropMatching(ip: u32) returns (changed: bool)
      requires Valid()
      modifies stations
      ensures Valid() && View() == old(View()).(stations := Departed(old(View()), ip))
      ensures changed <==> Departed(old(View()), ip) != old(View()).stations
    {
      changed := false;
      ghost var gone := Departed(View(), ip);
      for i := 0 to STATION_COUNT
        invariant Valid()
        invariant forall k | 0 <= k < STATION_COUNT :: stations[k] == if k < i then gone[k] else old(stations[k])
        invariant changed <==> exists k | 0 <= k < i :: gone[k] != old(stations[k])
      {
        if stations[i].status.Connected? && stations[i].fd < 0 && net.nodes[i + 1].ip == ip {
          stations[i] := Reset(stations[i]);
          changed := true;
        }
      }
      assert stations[..] == gone;
    }

    method ReadScan(now: int) returns (out: seq<Out>)
      requires Valid()
      modifies this`lastRelayAdvertise
      ensures Valid() && After(View(), out) == OnScan(old(View()), now)
    {
      out := [];
      if state.AccessPointCreated? && now - lastRelayAdvertise >= ADVERTISE_MS {
        lastRelayAdvertise := now;
        out := [Advert(net)];
      }
    }

    /** The local discovery socket answers every scan while hosting. */
    method ReadLocalScan() returns (out: seq<Out>)
      requires Valid()
      ensures out == OnLocalScan(View())
    {
      out := if state.AccessPointCreated? then [Advert(net)] else [];
    }

    method ReadScanResp(info: NetworkInfo, now: int)
      requires Valid()
      modifies this`hostLastSeen
      ensures Valid() && View() == OnScanResp(old(View()), info, now)
    {
      if joinActive && info.bssid == joinBssid {
        hostLastSeen := now;
      }
    }

    // ---- Stations with a TCP connection ----

    /** A connection was accepted; false means it is closed again at once. */
    method OnConnect(fd: nat) returns (kept: bool)
      requires Valid() && state.AccessPointCreated?
      modifies stations
      ensures Valid() && View() == OnAccept(old(View()), fd)
      ensures kept <==> FirstFree(old(stations[..])) < STATION_COUNT && CountBusy(old(stations[..])) < STATION_COUNT
    {
      var busy := StationCount();
      if busy >= STATION_COUNT {
        return false;
      }
      var free := FreeStation();
      if free == STATION_COUNT {
        return false;
      }
      stations[free] := stations[free].(status := Connecting, fd := fd);
      assert stations[..] == old(stations[..])[free := stations[free]];
      return true;
    }

    method StationRead(i: nat, node: NodeInfo, addr: Option<Address>) returns (out: seq<Out>)
      requires Valid() && i < STATION_COUNT
      modifies this`net, stations, marks, lasts, registry
      ensures Valid() && After(View(), out) == OnStationJoin(old(View()), i, node, addr)
    {
      out := [];
      if stations[i].fd >= 0 {
        net := net.(nodes := net.nodes[i + 1 := node]);
        stations[i] := stations[i].(status := Connected);
        assert stations[..] == old(stations[..])[i := stations[i]];
        out := UpdateNodes(addr);
      }
    }

    method StationClose(i: nat, addr: Option<Address>) returns (out: seq<Out>)
      requires Valid() && i < STATION_COUNT && stations[i].fd >= 0
      modifies this`net, stations, marks, lasts, registry
      ensures Valid() && After(View(), out) == OnStationClose(old(View()), i, addr)
    {
      stations[i] := Reset(stations[i]);
      assert stations[..] == old(stations[..])[i := stations[i]];
      out := UpdateNodes(addr);
    }

    // ---- The worker ----

    /** One turn of the worker's loop after it has handled its sockets. */
    method WorkerTick(now: int, addr: Option<Address>) returns (out: seq<Out>)
      requires Valid()
      modifies this, stations, marks, lasts, registry
      ensures Valid() && After(View(), out) == OnTick(old(View()), now, addr)
    {
      out := [];
      if !relay || now - lastBeacon < BEACON_MS {
        return;
      }
      lastBeacon := now;
      if state.AccessPointCreated? {
        lastRelayAdvertise := now;
        out := [Advert(net)];
      } else if state.StationConnected? && relayJoined {
        out := [Heartbeat(joinBssid, relayJoinedIp)];
      } else {
        out := [Keepalive];
      }
      var scope := SendRelayScope();
      out := out + scope;
      var checked := CheckPeers(now, addr);
      out := out + checked;
    }

    method CheckPeers(now: int, addr: Option<Address>) returns (out: seq<Out>)
      requires Valid()
      modifies this, stations, marks, lasts, registry
      ensures Valid() && After(View(), out) == Checked(old(View()), now, addr)
    {
      out := [];
      if state.AccessPointCreated? {
        var changed := ReapSilent(now);
        if changed {
          out := UpdateNodes(addr);
        }
      } else if state.StationConnected? {
        if relayJoined && now - hostLastSeen >= PEER_TIMEOUT_MS {
          OnDisconnectFromHost(SignalLost);
        }
      }
    }

    method ReapSilent(now: int) returns (changed: bool)
      requires Valid()
      modifies stations
      ensures Valid() && View() == old(View()).(stations := Reaped(old(View()).stations, now))
      ensures changed <==> Reaped(old(View()).stations, now) != old(View()).stations
    {
      changed := false;
      ghost var left := Reaped(stations[..], now);
      for i := 0 to STATION_COUNT
        invariant Valid()
        invariant forall k | 0 <= k < STATION_COUNT :: stations[k] == if k < i then left[k] else old(stations[k])
        invariant changed <==> exists k | 0 <= k < i :: left[k] != old(stations[k])
      {
        if stations[i].status.Connected? && stations[i].fd < 0 && now - stations[i].lastSeen >= PEER_TIMEOUT_MS {
          stations[i] := Reset(stations[i]);
          changed := true;
        }
      }
      assert stations[..] == left;
    }

    // ---- The game's requests ----

    /** tcpOk: the listening socket could be opened; again: our address could be looked up a second time. */
    method CreateNetwork(session: seq<byte>, name: seq<byte>, tcpOk: bool, addr: Option<Address>, again: bool)
      returns (ok: bool, out: seq<Out>)
      requires Valid()
      modifies this, marks, lasts, registry
      ensures Valid() && ok == (old(state).AccessPoint? && tcpOk && addr.Some? && again)
      ensures After(View(), out) == if tcpOk then L.CreateNetwork(old(View()), session, name, addr, again) else After(old(View()), [])
    {
      out := [];
      if !state.AccessPoint? || !tcpOk || addr.None? {
        return false, [];
      }
      InitNetworkInfo(addr.value.ip);
      net := net.(session := session);
      if !again {
        return false, [];
      }
      FillOwnNode(name, addr.value.ip);
      state := AccessPointCreated;
      out := SendRelayScope();
      InitNodeStateChange();
      var synced := UpdateNodes(addr);
      return true, out + synced;
    }

    method FillOwnNode(name: seq<byte>, ip: u32)
      requires Valid()
      modifies this`net
      ensures net == old(net).(nodes := old(net).nodes[0 := old(net).nodes[0].(connected := 1, name := name, ip := ip)])
    {
      net := net.(nodes := net.nodes[0 := net.nodes[0].(connected := 1, name := name, ip := ip)]);
    }

    method InitNetworkInfo(ip: u32)
      requires Valid()
      modifies this`net
      ensures net == old(net).(bssid := FakeMac(ip), nodes := Cleared(old(net).nodes))
    {
      net := net.(bssid := FakeMac(ip));
      for i := 0 to NODE_COUNT
        invariant net == old(net).(bssid := FakeMac(ip), nodes := net.nodes)
        invariant forall k | 0 <= k < NODE_COUNT ::
          net.nodes[k] == if k < i then old(net).nodes[k].(nodeId := k, connected := 0) else old(net).nodes[k]
      {
        net := net.(nodes := net.nodes[i := net.nodes[i].(nodeId := i, connected := 0)]);
      }
      assert net.nodes == Cleared(old(net).nodes);
    }

    method DestroyNetwork(rx: SessionRegistry.GameRx) returns (out: seq<Out>)
      requires Valid() && rx.Valid()
      modifies this, stations, registry, rx
      ensures Valid() && After(View(), out) == L.DestroyNetwork(old(View())) && rx.Valid() && rx.Contents() == []
    {
      out := SendRelayBye();
      registry.Clear(rx);
      ResetStations();
      state := AccessPoint;
    }

    method OpenAccessPoint() returns (ok: bool)
      requires Valid()
      modifies this, stations
      ensures Valid() && View() == L.OpenAccessPoint(old(View())) && ok == !old(state).Inactive?
    {
      disconnectReason := NoReason;
      if state.Inactive? {
        return false;
      }
      ResetStations();
      state := AccessPoint;
      return true;
    }

    method CloseAccessPoint(rx: SessionRegistry.GameRx) returns (ok: bool, out: seq<Out>)
      requires Valid() && rx.Valid()
      modifies this, stations, registry, rx
      ensures Valid() && rx.Valid() && ok == !old(state).Inactive?
      ensures After(View(), out) == L.CloseAccessPoint(old(View()))
      ensures ok ==> rx.Contents() == []
    {
      out := [];
      if state.Inactive? {
        return false, [];
      }
      out := SendRelayBye();
      registry.Clear(rx);
      ResetStations();
      state := Initialized;
      ok := true;
    }

    method OpenStation() returns (ok: bool)
      requires Valid()
      modifies this, stations
      ensures Valid() && View() == L.OpenStation(old(View())) && ok == !old(state).Inactive?
    {
      disconnectReason := NoReason;
      if state.Inactive? {
        return false;
      }
      ResetStations();
      joinActive, relayJoined, joinAwaitSelfIp := false, false, 0;
      state := Browsing;
      return true;
    }

    method CloseStation(rx: SessionRegistry.GameRx) returns (ok: bool)
      requires Valid() && rx.Valid()
      modifies this, stations, registry, rx
      ensures Valid() && rx.Valid() && ok == !old(state).Inactive? && View() == L.CloseStation(old(View()))
      ensures ok ==> rx.Contents() == []
    {
      if state.Inactive? {
        return false;
      }
      registry.Clear(rx);
      ResetStations();
      state := Initialized;
      return true;
    }

    method Disconnect(rx: SessionRegistry.GameRx) returns (out: seq<Out>)
      requires Valid() && rx.Valid()
      modifies this, registry, rx
      ensures Valid() && After(View(), out) == L.Disconnect(old(View())) && rx.Valid() && rx.Contents() == []
    {
      out := SendRelayBye();
      registry.Clear(rx);
      joinActive, relayJoined, joinAwaitSelfIp := false, false, 0;
      state := Browsing;
    }

    method SetAdvertiseData(data: seq<byte>, addr: Option<Address>) returns (ok: bool, out: seq<Out>)
      requires Valid()
      modifies this`net, marks, lasts, registry
      ensures Valid() && After(View(), out) == L.SetAdvertiseData(old(View()), data, addr) && ok == (|data| <= ADVERTISE_DATA_MAX)
    {
      out := [];
      if |data| > ADVERTISE_DATA_MAX {
        return false, [];
      }
      net := net.(advertised := data);
      out := UpdateNodes(addr);
      ok := true;
    }

    /** connect up to where it waits for the host; false when it gives up before that. */
    method Connect(target: NetworkInfo, name: seq<byte>, addr: Option<Address>) returns (waiting: bool, out: seq<Out>)
      requires Valid()
      modifies this, marks, lasts
      ensures Valid() && After(View(), out) == ConnectTo(old(View()), target, name, addr)
      ensures waiting ==> joinActive && joinBssid == target.bssid && (addr.Some? ==> target.nodes[0].ip != addr.value.ip)
    {
      out := [];
      if target.nodeCount == 0 {
        return false, [];
      }
      var hostIp := target.nodes[0].ip;
      if addr.Some? && hostIp == addr.value.ip {
        return false, [];
      }
      joinBssid := target.bssid;
      joinActive := true;
      relaySyncSeqValid := false;
      if relay {
        if addr.None? {
          return false, [];
        }
        InitNodeStateChange();
        joinAwaitSelfIp := addr.value.ip;
        out := [JoinRequest(MyNode(addr.value.ip, name))];
      }
      waiting := true;
    }

    /** The waiting connect looks at the state; true ends its wait. */
    method ConnectPoll(ip: u32, now: int) returns (done: bool)
      requires Valid()
      modifies this
      ensures Valid() && View() == ConnectJoined(old(View()), ip, now) && done == old(state).StationConnected?
    {
      if state.StationConnected? {
        relayJoined := true;
        relayJoinedIp := ip;
        hostLastSeen := now;
        return true;
      }
      return false;
    }

    method ConnectFallBack()
      requires Valid()
      modifies this
      ensures Valid() && View() == ConnectGaveUp(old(View()))
    {
      joinAwaitSelfIp := 0;
    }

    // ---- Start, end, loss of the local network ----

    method Initialize(useRelay: bool, now: int)
      requires Valid()
      modifies this, stations
      ensures Valid() && View() == L.Initialize(old(View()), useRelay, now)
    {
      if !state.Inactive? {
        return;
      }
      ResetStations();
      relay := useRelay;
      lastBeacon := now;
      state := Initialized;
    }

    method Finalize(rx: SessionRegistry.GameRx)
      requires Valid() && rx.Valid()
      modifies this, stations, registry, rx
      ensures Valid() && rx.Valid() && View() == L.Finalize(old(View()))
    {
      if !state.Inactive? {
        registry.Clear(rx);
        relay := false;
        ResetStations();
      }
      state := Inactive;
    }

    method UdpClose()
      requires Valid() && !state.Inactive?
      modifies this
      ensures Valid() && View() == OnUdpClose(old(View()))
    {
      if !state.Broken? {
        disconnectReason := if state.AccessPointCreated? then DestroyedBySystem else DisconnectedBySystem;
        state := Broken;
      }
    }
  }
}
