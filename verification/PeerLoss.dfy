// How fast a silent peer is given up, over all timed runs of one console.

module PeerLoss {
  import opened Bytes
  import opened LdnState
  import opened LdnRuns

  // ---- One beacon ----

  /**
   * A turn of the worker drops a station exactly when this console hosts, a
   * beacon is due, and the station joined over the relay and was last heard
   * 30000 ms ago or longer.
   */
  lemma TickDropsExactlySilent(d: Ldn, now: int, addr: Option<Address>, i: nat)
    requires i < STATION_COUNT && !d.stations[i].status.Disconnected?
    ensures OnTick(d, now, addr).d.stations[i].status.Disconnected?
       <==> d.state.AccessPointCreated? && d.relay && now - d.lastBeacon >= BEACON_MS
            && RelayOnly(d.stations[i]) && now - d.stations[i].lastSeen >= PEER_TIMEOUT_MS
  {
  }

  // ---- Timed runs ----

  /** A session, the time of the last event, and when the worker last looked at the clock. */
  datatype Clocked = Clocked(d: Ldn, time: int, turn: int)

  function Tock(c: Clocked, i: Input): Clocked {
    Clocked(React(c.d, i.e, i.now, i.addr).d, i.now,
            if i.e.Ticked? || (c.d.state.Inactive? && i.e.Called? && i.e.c.Start?) then i.now else c.turn)
  }

  function TimedRun(c: Clocked, ins: seq<Input>): Clocked {
    if ins == [] then c else Tock(TimedRun(c, ins[..|ins| - 1]), ins[|ins| - 1])
  }

  /** Time does not run backwards, and a running worker's last turn is never more than pause ms ago. */
  ghost predicate Timely(c: Clocked, ins: seq<Input>, pause: nat) {
    ins == [] || (
      var before, last := TimedRun(c, ins[..|ins| - 1]), ins[|ins| - 1];
      && Timely(c, ins[..|ins| - 1], pause)
      && before.time <= last.now && (before.d.state.Inactive? || last.now <= before.turn + pause))
  }

  /** Every peer over the relay has been heard since a timeout before the last beacon. */
  ghost predicate Heeded(d: Ldn) {
    && (d.relay ==> !d.state.Inactive?)
    && (d.state.AccessPoint? ==> AllFree(d.stations))
    && (d.state.AccessPointCreated? ==>
          forall i | 0 <= i < STATION_COUNT && RelayOnly(d.stations[i]) ::
            d.relay && d.stations[i].lastSeen > d.lastBeacon - PEER_TIMEOUT_MS)
    && (d.state.Browsing? ==> !d.join.joined)
    && (d.state.StationConnected? && d.join.joined ==> d.relay && d.join.hostSeen > d.lastBeacon - PEER_TIMEOUT_MS)
  }

  lemma SyncKeepsHeeded(d: Ldn, info: NetworkInfo, stamp: u16, now: int, addr: Option<Address>)
    requires Heeded(d) && (d.relay ==> d.lastBeacon <= now)
    ensures Heeded(OnSyncFrame(d, info, stamp, now, addr).d)
  {
  }

  lemma ConnectKeepsHeeded(d: Ldn, node: NodeInfo, now: int, addr: Option<Address>)
    requires Heeded(d) && d.relay && d.lastBeacon <= now
    ensures Heeded(OnConnectFrame(d, node, now, addr).d)
  {
  }

  lemma ByeKeepsHeeded(d: Ldn, bssid: Mac, ip: u32, addr: Option<Address>)
    requires Heeded(d)
    ensures Heeded(OnBye(d, bssid, ip, addr).d)
  {
  }

  lemma HeardKeepsHeeded(d: Ldn, f: Frame, now: int, addr: Option<Address>)
    requires Heeded(d) && (d.relay ==> d.lastBeacon <= now)
    ensures Heeded(Hear(d, f, now, addr).d)
  {
    match f
    case SyncCame(info, stamp) => SyncKeepsHeeded(d, info, stamp, now, addr);
    case ConnectCame(node) =>
      if d.relay {
        ConnectKeepsHeeded(d, node, now, addr);
      }
    case ByeCame(bssid, ip) => ByeKeepsHeeded(d, bssid, ip, addr);
    case _ =>
  }

  lemma HearingChangesNoClock(d: Ldn, f: Frame, now: int, addr: Option<Address>)
    ensures
      var e := Hear(d, f, now, addr).d;
      e.relay == d.relay && e.lastBeacon == d.lastBeacon
  {
  }

  lemma CalledKeepsHeeded(d: Ldn, c: Call, now: int, addr: Option<Address>)
    requires Heeded(d) && (d.relay ==> d.lastBeacon <= now)
    ensures
      var e := Obey(d, c, now, addr).d;
      && Heeded(e)
      && (if d.state.Inactive? && c.Start? then e.lastBeacon == now
          else e.lastBeacon == d.lastBeacon && (e.relay ==> d.relay))
  {
  }

  lemma TickKeepsHeeded(d: Ldn, now: int, addr: Option<Address>)
    requires Heeded(d) && (d.relay ==> d.lastBeacon <= now)
    ensures
      var e := OnTick(d, now, addr).d;
      && Heeded(e) && e.relay == d.relay
      && (d.relay ==> e.lastBeacon <= now && now - e.lastBeacon < BEACON_MS)
  {
  }

  lemma OtherKeepsHeeded(d: Ldn, e: Event, now: int, addr: Option<Address>)
    requires Heeded(d) && HostOk(d) && !e.Heard? && !e.Called? && !e.Ticked?
    ensures
      var after := React(d, e, now, addr).d;
      Heeded(after) && after.relay == d.relay && after.lastBeacon == d.lastBeacon
  {
  }

  ghost predicate OnTime(c: Clocked, pause: nat) {
    && HostOk(c.d) && Heeded(c.d)
    && (c.d.relay ==> c.d.lastBeacon <= c.turn <= c.time <= c.turn + pause && c.turn - c.d.lastBeacon < BEACON_MS)
  }

  lemma TockKeeps(c: Clocked, i: Input, pause: nat)
    requires OnTime(c, pause) && c.time <= i.now && (c.d.state.Inactive? || i.now <= c.turn + pause)
    ensures OnTime(Tock(c, i), pause)
  {
    EventKeepsHost(c.d, i.e, i.now, i.addr);
    match i.e
    case Heard(f) =>
      HeardKeepsHeeded(c.d, f, i.now, i.addr);
      HearingChangesNoClock(c.d, f, i.now, i.addr);
    case Called(call) => CalledKeepsHeeded(c.d, call, i.now, i.addr);
    case Ticked => TickKeepsHeeded(c.d, i.now, i.addr);
    case _ => OtherKeepsHeeded(c.d, i.e, i.now, i.addr);
  }

  lemma {:induction false} TimedRunsKeep(c: Clocked, ins: seq<Input>, pause: nat)
    requires OnTime(c, pause) && Timely(c, ins, pause)
    ensures OnTime(TimedRun(c, ins), pause)
    decreases |ins|
  {
    if ins != [] {
      TimedRunsKeep(c, ins[..|ins| - 1], pause);
      TockKeeps(TimedRun(c, ins[..|ins| - 1]), ins[|ins| - 1], pause);
    }
  }

  /**
   * In every timed run in which the worker never pauses longer than pause ms: a
   * station still in a host's table over the relay was heard less than 35000 ms
   * plus one pause ago, and so was the host of a station joined over the relay.
   */
  lemma SilentPeersGo(from: int, ins: seq<Input>, pause: nat)
    requires Timely(Clocked(NewSession(), from, from), ins, pause)
    ensures
      var c := TimedRun(Clocked(NewSession(), from, from), ins);
      && (c.d.state.AccessPointCreated? ==>
            forall i | 0 <= i < STATION_COUNT && RelayOnly(c.d.stations[i]) ::
              c.time - c.d.stations[i].lastSeen < PEER_TIMEOUT_MS + BEACON_MS + pause)
      && (c.d.state.StationConnected? && c.d.join.joined ==>
            c.time - c.d.join.hostSeen < PEER_TIMEOUT_MS + BEACON_MS + pause)
  {
    TimedRunsKeep(Clocked(NewSession(), from, from), ins, pause);
  }

  // ---- Hearing is enough to stay ----

  /** A frame that counts as hearing the station in slot i: its heartbeat, or a Connect whose address it holds first. */
  predicate HearsFrom(d: Ldn, i: nat, f: Frame)
    requires i < STATION_COUNT
  {
    || (f.HeartbeatCame? && f.bssid == d.net.bssid && f.ip == d.net.nodes[i + 1].ip)
    || (f.ConnectCame? && HolderOf(d.stations, d.net.nodes[1..], f.node.ip) == i)
  }

  /** A Connect counts for the first slot in use that holds its address. */
  lemma ConnectCountsIff(d: Ldn, i: nat, node: NodeInfo)
    requires i < STATION_COUNT && !d.stations[i].status.Disconnected?
    ensures HearsFrom(d, i, ConnectCame(node)) <==>
      && node.ip == d.net.nodes[i + 1].ip
      && forall j | 0 <= j < i && !d.stations[j].status.Disconnected? :: d.net.nodes[j + 1].ip != node.ip
  {
    assert forall k | 0 <= k < STATION_COUNT :: d.net.nodes[1..][k] == d.net.nodes[k + 1];
  }

  lemma HearsConnect(d: Ldn, node: NodeInfo, now: int, addr: Option<Address>, i: nat)
    requires i < STATION_COUNT && d.state.AccessPointCreated? && RelayOnly(d.stations[i])
    ensures OnConnectFrame(d, node, now, addr).d.stations[i]
         == if HolderOf(d.stations, d.net.nodes[1..], node.ip) == i then d.stations[i].(lastSeen := now) else d.stations[i]
  {
  }

  lemma HearsBye(d: Ldn, bssid: Mac, ip: u32, addr: Option<Address>, i: nat)
    requires i < STATION_COUNT && d.state.AccessPointCreated?
    ensures
      var s := OnBye(d, bssid, ip, addr).d.stations[i];
      s == d.stations[i] || (bssid == d.net.bssid && ip == d.net.nodes[i + 1].ip)
  {
  }

  /** Hearing a relay-only station stamps its slot, and only a goodbye of its own can drop it. */
  lemma HearingStamps(d: Ldn, f: Frame, now: int, addr: Option<Address>, i: nat)
    requires i < STATION_COUNT && d.state.AccessPointCreated? && d.relay && RelayOnly(d.stations[i])
    ensures
      var e := Hear(d, f, now, addr).d;
      if HearsFrom(d, i, f) then e.stations[i] == d.stations[i].(lastSeen := now)
      else e.stations[i] == d.stations[i] || (f.ByeCame? && f.bssid == d.net.bssid && f.ip == d.net.nodes[i + 1].ip)
  {
    match f
    case ConnectCame(node) => HearsConnect(d, node, now, addr, i);
    case ByeCame(bssid, ip) => HearsBye(d, bssid, ip, addr, i);
    case _ =>
  }
}
