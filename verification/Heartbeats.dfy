// Staying in a session: consoles on the relay keep saying who they are, and
// whoever is heard often enough is not given up.

module Heartbeats {
  import opened Bytes
  import opened LdnState
  import opened LdnRuns
  import opened PeerLoss

  // ---- Speaking ----

  /** What a console says of itself on a beacon. */
  function Saying(d: Ldn): Out {
    if d.state.AccessPointCreated? then Advert(d.net)
    else if d.state.StationConnected? && d.join.joined then Heartbeat(d.join.bssid, d.join.joinedIp)
    else Keepalive
  }

  /** The scope it claims: its session's token while it is in one, 0 otherwise. */
  function Claiming(d: Ldn): Out {
    Scope(if d.state.AccessPointCreated? || d.state.StationConnected? then ScopeToken(d.net.session) else 0)
  }

  /** The session before input k of a run. */
  function Before(from: int, ins: seq<Input>, k: nat): Clocked
    requires k <= |ins|
  {
    TimedRun(Clocked(NewSession(), from, from), ins[..k])
  }

  /** At input k the worker speaks: what the console is, and its scope. */
  ghost predicate Spoke(from: int, ins: seq<Input>, k: nat) {
    k < |ins| && ins[k].e.Ticked? &&
    var d := Before(from, ins, k).d;
    [Saying(d), Claiming(d)] <= React(d, ins[k].e, ins[k].now, ins[k].addr).out
  }

  ghost predicate Started(from: int, ins: seq<Input>, k: nat) {
    k < |ins| && ins[k].e.Called? && ins[k].e.c.Start? && Before(from, ins, k).d.state.Inactive?
  }

  /** The beacon clock shows when the console last spoke, or started. */
  ghost predicate Beaconed(from: int, ins: seq<Input>, k: nat, at: int) {
    (Spoke(from, ins, k) || Started(from, ins, k)) && ins[k].now == at
  }

  lemma DueTurnSpeaks(d: Ldn, now: int, addr: Option<Address>)
    requires d.relay && now - d.lastBeacon >= BEACON_MS
    ensures OnTick(d, now, addr).d.lastBeacon == now && [Saying(d), Claiming(d)] <= OnTick(d, now, addr).out
  {
    var said := Announced(d.(lastBeacon := now), now);
    assert said.out == [Saying(d), Claiming(d)];
  }

  lemma CallsKeepClock(d: Ldn, c: Call, now: int, addr: Option<Address>)
    requires d.relay ==> !d.state.Inactive?
    ensures
      var e := Obey(d, c, now, addr).d;
      && (e.relay ==> !e.state.Inactive?)
      && (e.relay ==> (d.relay && e.lastBeacon == d.lastBeacon) || (c.Start? && d.state.Inactive? && e.lastBeacon == now))
  {
  }

  /** Only a due turn of the worker, and starting, move the beacon clock of a console on the relay. */
  lemma EventKeepsClock(d: Ldn, i: Input)
    requires d.relay ==> !d.state.Inactive?
    ensures
      var r := React(d, i.e, i.now, i.addr);
      && (r.d.relay ==> !r.d.state.Inactive?)
      && (r.d.relay ==>
            || (d.relay && r.d.lastBeacon == d.lastBeacon)
            || (r.d.lastBeacon == i.now && i.e.Ticked? && [Saying(d), Claiming(d)] <= r.out)
            || (r.d.lastBeacon == i.now && i.e.Called? && i.e.c.Start? && d.state.Inactive?))
  {
    match i.e
    case Heard(f) => HearingChangesNoClock(d, f, i.now, i.addr);
    case Called(c) => CallsKeepClock(d, c, i.now, i.addr);
    case Ticked =>
      if d.relay && i.now - d.lastBeacon >= BEACON_MS {
        DueTurnSpeaks(d, i.now, i.addr);
      }
    case _ =>
  }

  lemma BeaconedBefore(from: int, ins: seq<Input>, k: nat, at: int)
    requires ins != [] && Beaconed(from, ins[..|ins| - 1], k, at)
    ensures Beaconed(from, ins, k, at)
  {
    assert ins[..|ins| - 1][..k] == ins[..k];
  }

  lemma {:induction false} ClockTells(from: int, ins: seq<Input>)
    ensures
      var d := Before(from, ins, |ins|).d;
      && (d.relay ==> !d.state.Inactive?)
      && (d.relay ==> exists k: nat :: Beaconed(from, ins, k, d.lastBeacon))
    decreases |ins|
  {
    assert ins[..|ins|] == ins;
    if ins != [] {
      var n := |ins| - 1;
      ClockTells(from, ins[..n]);
      assert ins[..n][..n] == ins[..n];
      var d, e := Before(from, ins, n).d, Before(from, ins, |ins|).d;
      EventKeepsClock(d, ins[n]);
      if e.relay && d.relay && e.lastBeacon == d.lastBeacon {
        var k: nat :| Beaconed(from, ins[..n], k, d.lastBeacon);
        BeaconedBefore(from, ins, k, e.lastBeacon);
      } else if e.relay {
        assert Beaconed(from, ins, n, e.lastBeacon);
      }
    }
  }

  /**
   * In every timed run whose worker pauses at most pause ms: a console on the
   * relay started, or said what it is and claimed its scope, less than 5000 ms
   * and one pause ago.
   */
  lemma ConsolesKeepSpeaking(from: int, ins: seq<Input>, pause: nat) returns (k: nat)
    requires Timely(Clocked(NewSession(), from, from), ins, pause) && Before(from, ins, |ins|).d.relay
    ensures Spoke(from, ins, k) || Started(from, ins, k)
    ensures Before(from, ins, |ins|).time - ins[k].now < BEACON_MS + pause
  {
    assert ins[..|ins|] == ins;
    TimedRunsKeep(Clocked(NewSession(), from, from), ins, pause);
    ClockTells(from, ins);
    var at: nat :| Beaconed(from, ins, at, Before(from, ins, |ins|).d.lastBeacon);
    k := at;
  }

  ghost predicate Joined(d: Ldn, bssid: Mac, ip: u32) {
    d.state.StationConnected? && d.join.joined && d.join.bssid == bssid && d.join.joinedIp == ip
  }

  lemma {:induction false} TimesGrow(from: int, ins: seq<Input>, pause: nat, j: nat, k: nat)
    requires Timely(Clocked(NewSession(), from, from), ins, pause) && j <= k <= |ins|
    ensures Before(from, ins, j).time <= Before(from, ins, k).time
    decreases |ins|, k
  {
    assert ins[..|ins|] == ins;
    if k < |ins| {
      assert ins[..|ins| - 1][..j] == ins[..j] && ins[..|ins| - 1][..k] == ins[..k];
      TimesGrow(from, ins[..|ins| - 1], pause, j, k);
    } else if j < k {
      TimesGrow(from, ins, pause, j, k - 1);
      assert ins[..k][..k - 1] == ins[..k - 1];
    }
  }

  /**
   * A station that has been joined to a network for 5000 ms and one pause sent
   * a heartbeat in that time, with the identifier it aims at and the address it
   * joined with.
   */
  lemma JoinedStationBeats(from: int, ins: seq<Input>, pause: nat, since: nat, bssid: Mac, ip: u32) returns (k: nat)
    requires Timely(Clocked(NewSession(), from, from), ins, pause) && since <= |ins|
    requires forall j | since <= j <= |ins| :: Before(from, ins, j).d.relay && Joined(Before(from, ins, j).d, bssid, ip)
    requires Before(from, ins, |ins|).time - Before(from, ins, since).time >= BEACON_MS + pause
    ensures since <= k < |ins| && Before(from, ins, |ins|).time - ins[k].now < BEACON_MS + pause
    ensures Heartbeat(bssid, ip) in React(Before(from, ins, k).d, ins[k].e, ins[k].now, ins[k].addr).out
  {
    k := ConsolesKeepSpeaking(from, ins, pause);
    assert ins[..k + 1][..k] == ins[..k];
    if k < since {
      TimesGrow(from, ins, pause, k + 1, since);
      assert false;
    }
    assert Joined(Before(from, ins, k).d, bssid, ip) && Joined(Before(from, ins, k + 1).d, bssid, ip);
    assert [Saying(Before(from, ins, k).d), Claiming(Before(from, ins, k).d)][0] == Heartbeat(bssid, ip);
  }

  // ---- Being heard by the host ----

  /** A host on the relay with a station that joined over it in slot i. */
  ghost predicate HasGuest(d: Ldn, i: nat, bssid: Mac, ip: u32) {
    && d.state.AccessPointCreated? && d.relay && d.net.bssid == bssid
    && i < STATION_COUNT && RelayOnly(d.stations[i]) && d.net.nodes[i + 1].ip == ip
  }

  lemma EnrolKeepsNodes(d: Ldn, node: NodeInfo, now: int, addr: Option<Address>, i: nat)
    requires i < STATION_COUNT && RelayOnly(d.stations[i]) && FirstFree(d.stations) < STATION_COUNT
    ensures
      var e := UpdateNodes(Enrolled(d, FirstFree(d.stations), node, now), addr).d;
      && e.state == d.state && e.relay == d.relay && e.net.bssid == d.net.bssid
      && e.net.nodes[i + 1].ip == d.net.nodes[i + 1].ip && RelayOnly(e.stations[i])
  {
    assert FirstFree(d.stations) != i;
    UpdateSetsFlags(Enrolled(d, FirstFree(d.stations), node, now), addr);
  }

  lemma ReheardKeepsNodes(d: Ldn, holder: nat, now: int, addr: Option<Address>, i: nat)
    requires i < STATION_COUNT && RelayOnly(d.stations[i]) && holder < STATION_COUNT
    ensures
      var e := UpdateNodes(Reheard(d, holder, now), addr).d;
      && e.state == d.state && e.relay == d.relay && e.net.bssid == d.net.bssid
      && e.net.nodes[i + 1].ip == d.net.nodes[i + 1].ip && RelayOnly(e.stations[i])
  {
    UpdateSetsFlags(Reheard(d, holder, now), addr);
  }

  lemma ConnectKeepsNodes(d: Ldn, node: NodeInfo, now: int, addr: Option<Address>, i: nat)
    requires d.state.AccessPointCreated? && i < STATION_COUNT && RelayOnly(d.stations[i])
    ensures
      var e := OnConnectFrame(d, node, now, addr).d;
      && e.state == d.state && e.relay == d.relay && e.net.bssid == d.net.bssid
      && e.net.nodes[i + 1].ip == d.net.nodes[i + 1].ip && RelayOnly(e.stations[i])
  {
    var holder := HolderOf(d.stations, d.net.nodes[1..], node.ip);
    if holder < STATION_COUNT {
      ReheardKeepsNodes(d, holder, now, addr, i);
    } else if FirstFree(d.stations) < STATION_COUNT {
      EnrolKeepsNodes(d, node, now, addr, i);
    }
  }

  lemma ByeKeepsNodes(d: Ldn, bssid: Mac, ip: u32, addr: Option<Address>, i: nat)
    requires d.state.AccessPointCreated? && i < STATION_COUNT && RelayOnly(d.stations[i])
    requires bssid != d.net.bssid || ip != d.net.nodes[i + 1].ip
    ensures
      var e := OnBye(d, bssid, ip, addr).d;
      && e.state == d.state && e.relay == d.relay && e.net.bssid == d.net.bssid
      && e.net.nodes[i + 1].ip == d.net.nodes[i + 1].ip && e.stations[i] == d.stations[i]
  {
    UpdateSetsFlags(d.(stations := Departed(d, ip)), addr);
  }

  lemma HearingKeepsGuest(d: Ldn, f: Frame, now: int, addr: Option<Address>, i: nat, bssid: Mac, ip: u32)
    requires HasGuest(d, i, bssid, ip) && f != ByeCame(bssid, ip)
    ensures
      var e := Hear(d, f, now, addr).d;
      && HasGuest(e, i, bssid, ip)
      && e.stations[i].lastSeen == if HearsFrom(d, i, f) then now else d.stations[i].lastSeen
  {
    HearingStamps(d, f, now, addr, i);
    match f
    case ConnectCame(node) => ConnectKeepsNodes(d, node, now, addr, i);
    case ByeCame(b, a) => ByeKeepsNodes(d, b, a, addr, i);
    case _ =>
  }

  lemma OtherCalls(d: Ldn, c: Call, now: int, addr: Option<Address>)
    requires d.state.AccessPointCreated? && !c.Advertise?
    ensures
      var e := Obey(d, c, now, addr).d;
      e.state.AccessPointCreated? ==> e.relay == d.relay && e.net == d.net && e.stations == d.stations
  {
  }

  lemma AdvertiseKeepsGuest(d: Ldn, data: seq<byte>, addr: Option<Address>, i: nat, bssid: Mac, ip: u32)
    requires HasGuest(d, i, bssid, ip)
    ensures
      var e := SetAdvertiseData(d, data, addr).d;
      HasGuest(e, i, bssid, ip) && e.stations == d.stations
  {
    UpdateSetsFlags(d.(net := d.net.(advertised := data)), addr);
  }

  lemma CallsKeepGuest(d: Ldn, c: Call, now: int, addr: Option<Address>, i: nat, bssid: Mac, ip: u32)
    requires HasGuest(d, i, bssid, ip) && Obey(d, c, now, addr).d.state.AccessPointCreated?
    ensures
      var e := Obey(d, c, now, addr).d;
      HasGuest(e, i, bssid, ip) && e.stations[i].lastSeen == d.stations[i].lastSeen
  {
    if c.Advertise? {
      AdvertiseKeepsGuest(d, c.data, addr, i, bssid, ip);
    } else {
      OtherCalls(d, c, now, addr);
    }
  }

  lemma TickKeepsGuest(d: Ldn, now: int, addr: Option<Address>, i: nat, bssid: Mac, ip: u32)
    requires HasGuest(d, i, bssid, ip) && now - d.stations[i].lastSeen < PEER_TIMEOUT_MS
    ensures
      var e := OnTick(d, now, addr).d;
      HasGuest(e, i, bssid, ip) && e.stations[i] == d.stations[i]
  {
    var said := d.(lastBeacon := now, lastAdvert := now);
    UpdateSetsFlags(said.(stations := Reaped(d.stations, now)), addr);
  }

  lemma TcpJoinKeepsGuest(d: Ldn, slot: nat, node: NodeInfo, addr: Option<Address>, i: nat, bssid: Mac, ip: u32)
    requires HasGuest(d, i, bssid, ip) && slot < STATION_COUNT
    ensures HasGuest(OnStationJoin(d, slot, node, addr).d, i, bssid, ip)
    ensures OnStationJoin(d, slot, node, addr).d.stations[i] == d.stations[i]
  {
    UpdateSetsFlags(d.(stations := d.stations[slot := d.stations[slot].(status := Connected)],
                       net := d.net.(nodes := d.net.nodes[slot + 1 := node])), addr);
  }

  lemma TcpLostKeepsGuest(d: Ldn, slot: nat, addr: Option<Address>, i: nat, bssid: Mac, ip: u32)
    requires HasGuest(d, i, bssid, ip) && slot < STATION_COUNT
    ensures HasGuest(OnStationClose(d, slot, addr).d, i, bssid, ip)
    ensures OnStationClose(d, slot, addr).d.stations[i] == d.stations[i]
  {
    UpdateSetsFlags(d.(stations := d.stations[slot := Reset(d.stations[slot])]), addr);
  }

  /** While it hosts, a station that is not silent leaves the table only by its own goodbye. */
  lemma EventKeepsGuest(d: Ldn, x: Input, i: nat, bssid: Mac, ip: u32)
    requires HasGuest(d, i, bssid, ip) && React(d, x.e, x.now, x.addr).d.state.AccessPointCreated?
    requires x.e != Heard(ByeCame(bssid, ip)) && (x.e.Ticked? ==> x.now - d.stations[i].lastSeen < PEER_TIMEOUT_MS)
    ensures
      var e := React(d, x.e, x.now, x.addr).d;
      && HasGuest(e, i, bssid, ip)
      && e.stations[i].lastSeen == if x.e.Heard? && HearsFrom(d, i, x.e.f) then x.now else d.stations[i].lastSeen
  {
    match x.e
    case Heard(f) => HearingKeepsGuest(d, f, x.now, x.addr, i, bssid, ip);
    case Called(c) => CallsKeepGuest(d, c, x.now, x.addr, i, bssid, ip);
    case Ticked => TickKeepsGuest(d, x.now, x.addr, i, bssid, ip);
    case TcpJoin(slot, node) =>
      if slot < STATION_COUNT {
        TcpJoinKeepsGuest(d, slot, node, x.addr, i, bssid, ip);
      }
    case TcpLost(slot) =>
      if slot < STATION_COUNT {
        TcpLostKeepsGuest(d, slot, x.addr, i, bssid, ip);
      }
    case _ =>
  }

  /** When the frame last came. */
  function LastCame(since: int, ins: seq<Input>, f: Event -> bool): int {
    if ins == [] then since
    else if f(ins[|ins| - 1].e) then ins[|ins| - 1].now
    else LastCame(since, ins[..|ins| - 1], f)
  }

  /** Time does not run backwards, and nothing happens 30000 ms or more after the frame last came. */
  ghost predicate Often(since: int, ins: seq<Input>, f: Event -> bool) {
    && (forall j, k | 0 <= j <= k < |ins| :: ins[j].now <= ins[k].now)
    && forall k | 0 <= k < |ins| :: since <= ins[k].now && ins[k].now - LastCame(since, ins[..k], f) < PEER_TIMEOUT_MS
  }

  lemma OftenBefore(since: int, ins: seq<Input>, f: Event -> bool)
    requires Often(since, ins, f) && ins != []
    ensures Often(since, ins[..|ins| - 1], f)
  {
    var n := |ins| - 1;
    assert forall k | 0 <= k < n :: ins[..n][..k] == ins[..k];
  }

  /** The heartbeat of that station. */
  function BeatOf(bssid: Mac, ip: u32): Event -> bool {
    (e: Event) => e == Heard(HeartbeatCame(bssid, ip))
  }

  /** The console hosts all through the run, and the station never says goodbye. */
  ghost predicate HostsOn(d: Ldn, ins: seq<Input>, bssid: Mac, ip: u32) {
    && (forall k | 0 <= k <= |ins| :: Run(d, ins[..k]).state.AccessPointCreated?)
    && forall k | 0 <= k < |ins| :: ins[k].e != Heard(ByeCame(bssid, ip))
  }

  lemma HostsOnBefore(d: Ldn, ins: seq<Input>, bssid: Mac, ip: u32)
    requires HostsOn(d, ins, bssid, ip) && ins != []
    ensures HostsOn(d, ins[..|ins| - 1], bssid, ip) && Run(d, ins).state.AccessPointCreated?
  {
    var n := |ins| - 1;
    assert forall k | 0 <= k <= n :: ins[..n][..k] == ins[..k];
    assert ins[..|ins|] == ins;
  }

  /**
   * A host that keeps hosting and hears the heartbeats of a station less than
   * 30000 ms apart never gives it up, short of its goodbye.
   */
  lemma {:induction false} BeatingStationStays(d: Ldn, since: int, ins: seq<Input>, i: nat, bssid: Mac, ip: u32)
    requires HasGuest(d, i, bssid, ip) && d.stations[i].lastSeen >= since
    requires HostsOn(d, ins, bssid, ip) && Often(since, ins, BeatOf(bssid, ip))
    ensures HasGuest(Run(d, ins), i, bssid, ip)
    ensures Run(d, ins).stations[i].lastSeen >= LastCame(since, ins, BeatOf(bssid, ip))
    decreases |ins|
  {
    if ins != [] {
      var n := |ins| - 1;
      OftenBefore(since, ins, BeatOf(bssid, ip));
      HostsOnBefore(d, ins, bssid, ip);
      BeatingStationStays(d, since, ins[..n], i, bssid, ip);
      LastIsBefore(since, ins[..n], BeatOf(bssid, ip), ins[n].now);
      EventKeepsGuest(Run(d, ins[..n]), ins[n], i, bssid, ip);
    }
  }

  lemma {:induction false} LastIsBefore(since: int, ins: seq<Input>, f: Event -> bool, now: int)
    requires since <= now && forall k | 0 <= k < |ins| :: ins[k].now <= now
    ensures LastCame(since, ins, f) <= now
    decreases |ins|
  {
    if ins != [] {
      LastIsBefore(since, ins[..|ins| - 1], f, now);
    }
  }

  // ---- Hearing the host ----

  /** Joined over the relay to the network it aims at. */
  ghost predicate IsGuest(d: Ldn, bssid: Mac) {
    d.state.StationConnected? && d.relay && d.join.joined && d.join.active && d.join.bssid == bssid
  }

  /** Nothing that ends a session: no goodbye from that network, no lost socket, no request of the game to leave. */
  predicate Undisturbed(e: Event, bssid: Mac) {
    match e
    case Heard(f) => !(f.ByeCame? && f.bssid == bssid)
    case Called(c) => c.Advertise? || c.TakeMarks? || c.JoinSeen? || c.DirectUp?
    case HostLost(_) => false
    case UdpLost => false
    case _ => true
  }

  function AdvertOf(bssid: Mac): Event -> bool {
    (e: Event) => e.Heard? && e.f.ScanRespCame? && e.f.info.bssid == bssid
  }

  lemma TakenOverKeepsGuest(d: Ldn, info: NetworkInfo, stamp: u16, now: int, addr: Option<Address>, bssid: Mac)
    requires IsGuest(d, bssid)
    ensures
      var e := OnSyncFrame(d, info, stamp, now, addr).d;
      IsGuest(e, bssid) && (e.join.hostSeen == d.join.hostSeen || e.join.hostSeen == now)
  {
  }

  lemma EventKeepsMembership(d: Ldn, x: Input, bssid: Mac)
    requires IsGuest(d, bssid) && Undisturbed(x.e, bssid) && (x.e.Ticked? ==> x.now - d.join.hostSeen < PEER_TIMEOUT_MS)
    ensures
      var e := React(d, x.e, x.now, x.addr).d;
      && IsGuest(e, bssid) && (e.join.hostSeen == d.join.hostSeen || e.join.hostSeen == x.now)
      && (AdvertOf(bssid)(x.e) ==> e.join.hostSeen == x.now)
  {
    if x.e.Heard? && x.e.f.SyncCame? {
      TakenOverKeepsGuest(d, x.e.f.info, x.e.f.stamp, x.now, x.addr, bssid);
    }
  }

  /**
   * A joined station that hears its host's advertisements less than 30000 ms
   * apart stays in the session until it is told to leave, told goodbye, or
   * loses its socket.
   */
  lemma {:induction false} HeardHostKeeps(d: Ldn, since: int, ins: seq<Input>, bssid: Mac)
    requires IsGuest(d, bssid) && d.join.hostSeen >= since && Often(since, ins, AdvertOf(bssid))
    requires forall k | 0 <= k < |ins| :: Undisturbed(ins[k].e, bssid)
    ensures IsGuest(Run(d, ins), bssid) && Run(d, ins).join.hostSeen >= LastCame(since, ins, AdvertOf(bssid))
    decreases |ins|
  {
    if ins != [] {
      var n := |ins| - 1;
      OftenBefore(since, ins, AdvertOf(bssid));
      HeardHostKeeps(d, since, ins[..n], bssid);
      LastIsBefore(since, ins[..n], AdvertOf(bssid), ins[n].now);
      EventKeepsMembership(Run(d, ins[..n]), ins[n], bssid);
    }
  }
}
