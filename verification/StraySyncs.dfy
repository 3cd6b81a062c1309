// Who sends node lists: a console that no longer hosts can still broadcast one,
// under another console's identifier. When none does, a join is confirmed by a
// host at the address the identifier stands for.

module StraySyncs {
  import opened Bytes
  import opened LdnState
  import opened LdnRuns
  import opened JoinSafety

  // ---- Snapshots sent while not hosting ----

  /** The event makes a console that does not host synchronise its node table. */
  predicate Strays(d: Ldn, e: Event) {
    !d.state.AccessPointCreated? &&
    match e
    case Called(Advertise(data)) => |data| <= ADVERTISE_DATA_MAX
    case TcpJoin(slot, _) => slot < STATION_COUNT && d.stations[slot].fd >= 0
    case TcpLost(slot) => slot < STATION_COUNT && d.stations[slot].fd >= 0
    case _ => false
  }

  /** Somebody is listening: the relay, or a connected station with a socket. */
  ghost predicate Audible(d: Ldn) {
    d.relay || exists i :: 0 <= i < STATION_COUNT && IsUp(d.stations[i]) && d.stations[i].fd >= 0
  }

  lemma {:induction false} TcpSyncsExist(stations: seq<Station>, info: NetworkInfo)
    ensures TcpSyncs(stations, info) != [] <==> exists i :: 0 <= i < |stations| && IsUp(stations[i]) && stations[i].fd >= 0
    decreases |stations|
  {
    if stations != [] {
      var n := |stations| - 1;
      TcpSyncsExist(stations[..n], info);
      assert forall i | 0 <= i < n :: stations[..n][i] == stations[i];
    }
  }

  /** Synchronising sends a snapshot if and only if somebody is listening. */
  lemma UpdateSpeaks(d: Ldn, addr: Option<Address>)
    ensures SyncsIn(UpdateNodes(d, addr).out) != {} <==> Audible(d)
    ensures Audible(UpdateNodes(d, addr).d) <==> Audible(d)
  {
    var r := UpdateNodes(d, addr);
    TcpSyncsExist(d.stations, r.d.net);
    TcpSyncsAgree(d.stations, r.d.net);
    if d.relay {
      assert Sync(r.d.net) in r.out;
      assert InfoIn(Sync(r.d.net)) in SyncsIn(r.out);
    } else if TcpSyncs(d.stations, r.d.net) != [] {
      assert InfoIn(r.out[0]) in SyncsIn(r.out);
    }
  }

  /** A snapshot of a console that does not host, sent exactly if there is a reason and somebody listens. */
  ghost predicate SpeaksOnly(a: After, reason: bool) {
    SyncsIn(a.out) != {} && !a.d.state.AccessPointCreated? <==> reason && Audible(a.d)
  }

  lemma HearingSpeaksAsHost(d: Ldn, f: Frame, now: int, addr: Option<Address>)
    ensures SpeaksOnly(Hear(d, f, now, addr), false)
  {
    if SyncsIn(Hear(d, f, now, addr).out) != {} {
      var o :| o in Hear(d, f, now, addr).out && IsSync(o);
    }
  }

  lemma TickSpeaksAsHost(d: Ldn, now: int, addr: Option<Address>)
    ensures SpeaksOnly(OnTick(d, now, addr), false)
  {
    if SyncsIn(OnTick(d, now, addr).out) != {} {
      var o :| o in OnTick(d, now, addr).out && IsSync(o);
    }
  }

  lemma CallsSpeak(d: Ldn, c: Call, now: int, addr: Option<Address>)
    ensures SpeaksOnly(Obey(d, c, now, addr), Strays(d, Called(c)))
  {
    match c
    case Advertise(data) => UpdateSpeaks(d.(net := d.net.(advertised := data)), addr);
    case _ =>
      var r := Obey(d, c, now, addr);
      assert forall o | o in r.out && IsSync(o) :: c.Create? && r.d.state.AccessPointCreated?;
  }

  lemma TcpSpeaks(d: Ldn, i: nat, node: NodeInfo, addr: Option<Address>)
    requires i < STATION_COUNT && d.stations[i].fd >= 0
    ensures SyncsIn(OnStationJoin(d, i, node, addr).out) != {} <==> Audible(OnStationJoin(d, i, node, addr).d)
    ensures SyncsIn(OnStationClose(d, i, addr).out) != {} <==> Audible(OnStationClose(d, i, addr).d)
  {
    UpdateSpeaks(d.(stations := d.stations[i := d.stations[i].(status := Connected)],
                    net := d.net.(nodes := d.net.nodes[i + 1 := node])), addr);
    UpdateSpeaks(d.(stations := d.stations[i := Reset(d.stations[i])]), addr);
  }

  /** A snapshot leaves a console that does not host if and only if the event strays and somebody is listening. */
  lemma StraysIff(d: Ldn, e: Event, now: int, addr: Option<Address>)
    ensures SpeaksOnly(React(d, e, now, addr), Strays(d, e))
  {
    match e
    case Heard(f) => HearingSpeaksAsHost(d, f, now, addr);
    case Called(c) => CallsSpeak(d, c, now, addr);
    case TcpJoin(slot, node) =>
      if slot < STATION_COUNT && d.stations[slot].fd >= 0 {
        TcpSpeaks(d, slot, node, addr);
      }
    case TcpLost(slot) =>
      if slot < STATION_COUNT && d.stations[slot].fd >= 0 {
        TcpSpeaks(d, slot, BLANK_NODE, addr);
      }
    case Ticked => TickSpeaksAsHost(d, now, addr);
    case _ =>
  }

  // ---- Runs ----

  /** The console hosts a network, and it is its own. */
  ghost predicate Hosting(d: Ldn, self: u32) {
    d.state.AccessPointCreated? && d.net.bssid == FakeMac(self) && d.net.nodes[0].ip == self
  }

  ghost predicate MoveStrays(worlds: seq<World>, moves: seq<Move>, k: nat)
    requires k < |moves| && |worlds| == |moves| + 1
  {
    var x := moves[k].x;
    x in worlds[k].consoles && x in worlds[k + 1].consoles &&
    Strays(worlds[k].consoles[x], moves[k].i.e) && Audible(worlds[k + 1].consoles[x])
  }

  /** Nobody changed its table audibly in the first k moves while not hosting. */
  ghost predicate NoStrays(worlds: seq<World>, moves: seq<Move>, k: nat)
    requires k <= |moves| && |worlds| == |moves| + 1
  {
    forall j | 0 <= j < k :: !MoveStrays(worlds, moves, j)
  }

  /** Every move that put a snapshot on the air was a host's, showing its own network. */
  ghost predicate HostsSpeak(ips: map<nat, u32>, worlds: seq<World>, moves: seq<Move>, k: nat)
    requires k <= |moves| && |worlds| == |moves| + 1
  {
    forall j | 0 <= j < k :: HostSpeaks(ips, worlds, moves, j)
  }

  ghost predicate HostSpeaks(ips: map<nat, u32>, worlds: seq<World>, moves: seq<Move>, j: nat)
    requires j < |moves| && |worlds| == |moves| + 1
  {
    var x := moves[j].x;
    x in worlds[j].consoles && x in worlds[j + 1].consoles && x in ips
    && (SyncsIn(Outcome(worlds[j], moves[j]).out) != {} ==>
          && Hosting(worlds[j + 1].consoles[x], ips[x])
          && SyncsIn(Outcome(worlds[j], moves[j]).out) == {worlds[j + 1].consoles[x].net})
  }

  lemma MoveSpeaks(ips: map<nat, u32>, worlds: seq<World>, moves: seq<Move>, j: nat)
    requires IsRun(ips, worlds, moves) && j < |moves|
    ensures HostSpeaks(ips, worlds, moves, j) <==> !MoveStrays(worlds, moves, j)
  {
    var m, w := moves[j], worlds[j];
    assert MadeAt(ips, worlds, moves, j);
    RunsKeepWorld(ips, worlds, moves, j);
    RunsKeepWorld(ips, worlds, moves, j + 1);
    MoveKeepsWorld(ips, w, m);
    StraysIff(w.consoles[m.x], m.i.e, m.i.now, m.i.addr);
    var d, out := worlds[j + 1].consoles[m.x], Outcome(w, m).out;
    assert d.state.AccessPointCreated? ==> Hosting(d, ips[m.x]);
    if SyncsIn(out) != {} {
      assert forall info | info in SyncsIn(out) :: info == d.net;
      assert SyncsIn(out) == {d.net};
    }
  }

  /** In every run: whoever sends a snapshot hosts the network it shows, if and only if no move strays. */
  lemma HostsSpeakIff(ips: map<nat, u32>, worlds: seq<World>, moves: seq<Move>, k: nat)
    requires IsRun(ips, worlds, moves) && k <= |moves|
    ensures HostsSpeak(ips, worlds, moves, k) <==> NoStrays(worlds, moves, k)
  {
    forall j | 0 <= j < k
      ensures HostSpeaks(ips, worlds, moves, j) <==> !MoveStrays(worlds, moves, j)
    {
      MoveSpeaks(ips, worlds, moves, j);
    }
  }

  /** Some console hosted the network with exactly this node list and these stations, in this world or an earlier one. */
  ghost predicate HostShowed(ips: map<nat, u32>, worlds: seq<World>, k: nat, info: NetworkInfo) {
    exists j: nat, h: nat :: j <= k < |worlds| && HostShows(ips, worlds[j], h, info)
  }

  ghost predicate HostShows(ips: map<nat, u32>, w: World, h: nat, info: NetworkInfo) {
    h in w.consoles && h in ips && Hosting(w.consoles[h], ips[h]) && Shows(w.consoles[h], info)
  }

  /** A snapshot that was not on the air before is shown by a host, if its move did not stray. */
  lemma NewIsHosts(ips: map<nat, u32>, worlds: seq<World>, moves: seq<Move>, j: nat, info: NetworkInfo)
    requires IsRun(ips, worlds, moves) && j < |moves| && !MoveStrays(worlds, moves, j)
    requires info in worlds[j + 1].air && info !in worlds[j].air
    ensures HostShows(ips, worlds[j + 1], moves[j].x, info)
  {
    assert MadeAt(ips, worlds, moves, j);
    RunsKeepWorld(ips, worlds, moves, j);
    NewOnAirIsShown(ips, worlds[j], moves[j], info);
    MoveSpeaks(ips, worlds, moves, j);
  }

  lemma StaysShowed(ips: map<nat, u32>, worlds: seq<World>, k: nat, info: NetworkInfo)
    requires k + 1 < |worlds| && HostShowed(ips, worlds, k, info)
    ensures HostShowed(ips, worlds, k + 1, info)
  {
    var j: nat, h: nat :| j <= k && HostShows(ips, worlds[j], h, info);
    assert j <= k + 1 && HostShows(ips, worlds[j], h, info);
  }

  lemma {:induction false} AirIsHosts(ips: map<nat, u32>, worlds: seq<World>, moves: seq<Move>, k: nat, info: NetworkInfo)
    requires IsRun(ips, worlds, moves) && k < |worlds| && NoStrays(worlds, moves, k) && info in worlds[k].air
    ensures HostShowed(ips, worlds, k, info)
  {
    if k > 0 {
      if info in worlds[k - 1].air {
        AirIsHosts(ips, worlds, moves, k - 1, info);
        StaysShowed(ips, worlds, k - 1, info);
      } else {
        NewIsHosts(ips, worlds, moves, k - 1, info);
        assert k <= k && HostShows(ips, worlds[k], moves[k - 1].x, info);
      }
    }
  }

  /**
   * In every run in which no move strayed before: a console that waits to be
   * listed becomes a station only after another console, hosting at the address
   * it aims at, had its address in a connected slot; what it stores is that
   * host's node list, and the scope it claims that session's. JoinOwners says
   * when that host is the one whose network was advertised.
   */
  lemma JoinsAreConfirmed(ips: map<nat, u32>, worlds: seq<World>, moves: seq<Move>, k: nat)
    requires IsRun(ips, worlds, moves) && k < |moves| && WaitsAndJoins(worlds, moves, k)
    requires NoStrays(worlds, moves, k)
    ensures
      var x := moves[k].x;
      var before, after := worlds[k].consoles[x], worlds[k + 1].consoles[x];
      && x in ips && before.join.awaitIp == ips[x]
      && (before.relay ==> Outcome(worlds[k], moves[k]).out == [Scope(ScopeToken(after.net.session))])
      && exists j: nat, h: nat :: j <= k && h != x && HostShows(ips, worlds[j], h, after.net) &&
           before.join.bssid == FakeMac(ips[h]) && HasStation(worlds[j].consoles[h], ips[x])
  {
    var m, w := moves[k], worlds[k];
    assert MadeAt(ips, worlds, moves, k);
    RunsKeepWorld(ips, worlds, moves, k);
    OnlySyncsConnect(w.consoles[m.x], m.i.e, m.i.now, m.i.addr);
    var info := m.i.e.f.info;
    AirIsHosts(ips, worlds, moves, k, info);
    var j: nat, h: nat :| j <= k && HostShows(ips, worlds[j], h, info);
    ListedIsStation(worlds[j].consoles[h], info, ips[m.x]);
  }

  // ---- Who advertised ----

  /** Move j is one of console g in which it advertises a network of that identifier. */
  ghost predicate AdvertisesAt(worlds: seq<World>, moves: seq<Move>, j: nat, g: nat, bssid: Mac) {
    && j < |moves| && |worlds| == |moves| + 1 && moves[j].x == g && g in worlds[j].consoles
    && exists info :: info in AdvertsIn(Outcome(worlds[j], moves[j]).out) && info.bssid == bssid
  }

  /** Console g advertised a network of that identifier in the first k moves. */
  ghost predicate Advertised(worlds: seq<World>, moves: seq<Move>, k: nat, g: nat, bssid: Mac) {
    exists j: nat :: j < k && AdvertisesAt(worlds, moves, j, g, bssid)
  }

  lemma HearingAdvertisesAsHost(d: Ldn, f: Frame, now: int, addr: Option<Address>)
    ensures forall o | o in Hear(d, f, now, addr).out && o.Advert? :: d.state.AccessPointCreated? && InfoIn(o) == d.net
  {
    match f
    case ConnectCame(node) =>
      var holder, free := HolderOf(d.stations, d.net.nodes[1..], node.ip), FirstFree(d.stations);
      if holder < STATION_COUNT {
        UpdateSaysNoAdvert(Reheard(d, holder, now), addr);
      } else if free < STATION_COUNT {
        UpdateSaysNoAdvert(Enrolled(d, free, node, now), addr);
      }
    case ByeCame(bssid, ip) => UpdateSaysNoAdvert(d.(stations := Departed(d, ip)), addr);
    case _ =>
  }

  lemma CallsAdvertiseNothing(d: Ldn, c: Call, now: int, addr: Option<Address>)
    ensures forall o | o in Obey(d, c, now, addr).out :: !o.Advert?
  {
    match c
    case Create(session, name, again) =>
      if d.state.AccessPoint? && addr.Some? && again {
        UpdateSaysNoAdvert(Unmarked(d.(net := Founded(d.net, session, name, addr.value.ip), state := AccessPointCreated)), addr);
      }
    case Advertise(data) => UpdateSaysNoAdvert(d.(net := d.net.(advertised := data)), addr);
    case _ =>
  }

  lemma UpdateSaysNoAdvert(d: Ldn, addr: Option<Address>)
    ensures forall o | o in UpdateNodes(d, addr).out :: !o.Advert?
  {
    TcpSyncsAgree(d.stations, UpdateNodes(d, addr).d.net);
  }

  lemma TickAdvertisesAsHost(d: Ldn, now: int, addr: Option<Address>)
    ensures forall o | o in OnTick(d, now, addr).out && o.Advert? :: d.state.AccessPointCreated? && InfoIn(o) == d.net
  {
    if d.relay && now - d.lastBeacon >= BEACON_MS {
      var said := Announced(d.(lastBeacon := now), now);
      UpdateSaysNoAdvert(said.d.(stations := Reaped(said.d.stations, now)), addr);
    }
  }

  /** Only a host advertises, and only its own network. */
  lemma AdvertsAreOwn(d: Ldn, e: Event, now: int, addr: Option<Address>)
    ensures forall o | o in React(d, e, now, addr).out && o.Advert? :: d.state.AccessPointCreated? && InfoIn(o) == d.net
  {
    match e
    case Heard(f) => HearingAdvertisesAsHost(d, f, now, addr);
    case Called(c) => CallsAdvertiseNothing(d, c, now, addr);
    case TcpJoin(slot, node) =>
      if slot < STATION_COUNT {
        UpdateSaysNoAdvert(d.(stations := d.stations[slot := d.stations[slot].(status := Connected)],
                              net := d.net.(nodes := d.net.nodes[slot + 1 := node])), addr);
      }
    case TcpLost(slot) =>
      if slot < STATION_COUNT {
        UpdateSaysNoAdvert(d.(stations := d.stations[slot := Reset(d.stations[slot])]), addr);
      }
    case Ticked => TickAdvertisesAsHost(d, now, addr);
    case _ =>
  }

  /** Whoever advertised an identifier has the address it stands for. */
  lemma AdvertisersHaveAddress(ips: map<nat, u32>, worlds: seq<World>, moves: seq<Move>, k: nat, g: nat, bssid: Mac)
    requires IsRun(ips, worlds, moves) && Advertised(worlds, moves, k, g, bssid)
    ensures g in ips && bssid == FakeMac(ips[g])
  {
    var j: nat :| j < k && AdvertisesAt(worlds, moves, j, g, bssid);
    var m, w := moves[j], worlds[j];
    assert MadeAt(ips, worlds, moves, j);
    RunsKeepWorld(ips, worlds, moves, j);
    AdvertsAreOwn(w.consoles[g], m.i.e, m.i.now, m.i.addr);
  }

  /** Whatever is on offer was advertised by somebody. */
  lemma {:induction false} OffersWereAdvertised(ips: map<nat, u32>, worlds: seq<World>, moves: seq<Move>, k: nat, info: NetworkInfo)
    requires IsRun(ips, worlds, moves) && k < |worlds| && info in worlds[k].ads
    ensures exists g :: Advertised(worlds, moves, k, g, info.bssid)
  {
    if k > 0 {
      var m, w := moves[k - 1], worlds[k - 1];
      assert MadeAt(ips, worlds, moves, k - 1);
      if info in w.ads {
        OffersWereAdvertised(ips, worlds, moves, k - 1, info);
        AdvertisedLater(worlds, moves, k - 1, k, info.bssid);
      } else {
        assert AdvertisesAt(worlds, moves, k - 1, m.x, info.bssid);
        assert Advertised(worlds, moves, k, m.x, info.bssid);
      }
    }
  }

  lemma HearingNeverAims(d: Ldn, f: Frame, now: int, addr: Option<Address>)
    ensures
      var j := Hear(d, f, now, addr).d.join;
      j.active ==> d.join.active && j.bssid == d.join.bssid
  {
  }

  lemma OnlyCallsAim(d: Ldn, c: Call, now: int, addr: Option<Address>)
    ensures
      var j := Obey(d, c, now, addr).d.join;
      j.active ==> (d.join.active && j.bssid == d.join.bssid) || (c.Join? && j.bssid == c.target.bssid)
  {
  }

  lemma OnlyJoinsAim(d: Ldn, e: Event, now: int, addr: Option<Address>)
    ensures
      var j := React(d, e, now, addr).d.join;
      j.active ==> (d.join.active && j.bssid == d.join.bssid) || (e.Called? && e.c.Join? && j.bssid == e.c.target.bssid)
  {
    match e
    case Heard(f) => HearingNeverAims(d, f, now, addr);
    case Called(c) => OnlyCallsAim(d, c, now, addr);
    case _ =>
  }

  ghost predicate AimsAt(d: Ldn, bssid: Mac) {
    d.join.active && d.join.bssid == bssid
  }

  /** A move makes a console aim only at what was on offer. */
  lemma MoveOnlyJoinsAim(ips: map<nat, u32>, w: World, m: Move, x: nat, bssid: Mac)
    requires Permitted(ips, w, m) && x in w.consoles && AimsAt(Next(w, m).consoles[x], bssid) && !AimsAt(w.consoles[x], bssid)
    ensures m.i.e.Called? && m.i.e.c.Join? && m.i.e.c.target in w.ads && m.i.e.c.target.bssid == bssid
  {
    OnlyJoinsAim(w.consoles[m.x], m.i.e, m.i.now, m.i.addr);
  }

  lemma AdvertisedLater(worlds: seq<World>, moves: seq<Move>, k: nat, n: nat, bssid: Mac)
    requires k <= n && exists g :: Advertised(worlds, moves, k, g, bssid)
    ensures exists g :: Advertised(worlds, moves, n, g, bssid)
  {
    var g :| Advertised(worlds, moves, k, g, bssid);
    assert Advertised(worlds, moves, n, g, bssid);
  }

  /** Whatever a console aims at was advertised by somebody. */
  lemma {:induction false} TargetsWereAdvertised(ips: map<nat, u32>, worlds: seq<World>, moves: seq<Move>, k: nat, x: nat, bssid: Mac)
    requires IsRun(ips, worlds, moves) && k < |worlds| && x in worlds[k].consoles && AimsAt(worlds[k].consoles[x], bssid)
    ensures exists g :: Advertised(worlds, moves, k, g, bssid)
  {
    if k > 0 {
      var m, w := moves[k - 1], worlds[k - 1];
      assert MadeAt(ips, worlds, moves, k - 1);
      if AimsAt(w.consoles[x], bssid) {
        TargetsWereAdvertised(ips, worlds, moves, k - 1, x, bssid);
      } else {
        MoveOnlyJoinsAim(ips, w, m, x, bssid);
        OffersWereAdvertised(ips, worlds, moves, k - 1, m.i.e.c.target);
      }
      AdvertisedLater(worlds, moves, k - 1, k, bssid);
    }
  }
}
