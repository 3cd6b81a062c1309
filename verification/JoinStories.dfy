// Runs in which a join, or a host's table, means less than it seems to.

module JoinStories {
  import opened Bytes
  import opened LdnState
  import opened LdnRuns
  import opened JoinSafety
  import opened StraySyncs

  /**
   * A run so far, in which the quiet consoles have had no station while
   * hosting, and, if it is clean, nobody's table strayed.
   */
  datatype Story = Story(ips: map<nat, u32>, worlds: seq<World>, moves: seq<Move>, quiet: set<nat>, clean: bool)

  ghost predicate Lonely(w: World, quiet: set<nat>) {
    forall h | h in w.consoles && h in quiet && w.consoles[h].state.AccessPointCreated? :: NobodyUp(w.consoles[h].stations)
  }

  ghost predicate NobodyUp(stations: Slots) {
    forall i | 0 <= i < STATION_COUNT :: !IsUp(stations[i])
  }

  ghost predicate Told(t: Story) {
    && IsRun(t.ips, t.worlds, t.moves)
    && (forall j | 0 <= j < |t.worlds| :: Lonely(t.worlds[j], t.quiet))
    && (t.clean ==> NoStrays(t.worlds, t.moves, |t.moves|))
  }

  ghost function Last(t: Story): World
    requires Told(t)
  {
    t.worlds[|t.moves|]
  }

  ghost predicate Continues(t: Story, u: Story) {
    && u == t.(worlds := u.worlds, moves := u.moves)
    && t.worlds <= u.worlds && t.moves <= u.moves
  }

  /** Only console x has moved. */
  ghost predicate Only(w: World, v: World, x: nat) {
    x in w.consoles && x in v.consoles && v.consoles == w.consoles[x := v.consoles[x]]
  }

  /** The move may come next in the story. */
  ghost predicate Fits(t: Story, m: Move)
    requires Told(t)
  {
    && Permitted(t.ips, Last(t), m)
    && (m.x in t.quiet && Outcome(Last(t), m).d.state.AccessPointCreated? ==> NobodyUp(Outcome(Last(t), m).d.stations))
    && (t.clean ==> !Strays(Last(t).consoles[m.x], m.i.e))
  }

  lemma Acts(t: Story, m: Move) returns (u: Story)
    requires Told(t) && Fits(t, m)
    ensures Told(u) && Continues(t, u) && |u.moves| == |t.moves| + 1 && u.moves[|t.moves|] == m
    ensures Last(u) == Next(Last(t), m) && Only(Last(t), Last(u), m.x) && Last(u).consoles[m.x] == Outcome(Last(t), m).d
    ensures Last(t).ads <= Last(u).ads && Last(t).air <= Last(u).air
  {
    u := t.(worlds := t.worlds + [Next(Last(t), m)], moves := t.moves + [m]);
    StillRuns(t, m);
    if t.clean {
      StillClean(t, m);
    }
  }

  lemma StillRuns(t: Story, m: Move)
    requires Told(t) && Permitted(t.ips, Last(t), m)
    ensures IsRun(t.ips, t.worlds + [Next(Last(t), m)], t.moves + [m])
  {
    var ws, ms := t.worlds + [Next(Last(t), m)], t.moves + [m];
    forall k | 0 <= k < |ms|
      ensures MadeAt(t.ips, ws, ms, k)
    {
      assert k < |t.moves| ==> MadeAt(t.ips, t.worlds, t.moves, k);
    }
  }

  lemma StillClean(t: Story, m: Move)
    requires Told(t) && t.clean && Fits(t, m)
    ensures NoStrays(t.worlds + [Next(Last(t), m)], t.moves + [m], |t.moves| + 1)
  {
    var ws, ms := t.worlds + [Next(Last(t), m)], t.moves + [m];
    forall j | 0 <= j < |ms|
      ensures !MoveStrays(ws, ms, j)
    {
      assert j < |t.moves| ==> !MoveStrays(t.worlds, t.moves, j);
    }
  }

  lemma Begins(ips: map<nat, u32>, quiet: set<nat>, clean: bool) returns (t: Story)
    ensures t == Story(ips, [JoinSafety.Start(ips)], [], quiet, clean) && Told(t)
  {
    t := Story(ips, [JoinSafety.Start(ips)], [], quiet, clean);
  }

  function Here(ips: map<nat, u32>, x: nat): Address
    requires x in ips
  {
    Address(ips[x], 0)
  }

  // ---- Hosting ----

  ghost predicate New(t: Story, x: nat)
    requires Told(t)
  {
    x in t.ips && x in Last(t).consoles && Last(t).consoles[x] == NewSession()
  }

  ghost predicate Opened(t: Story, x: nat)
    requires Told(t)
  {
    x in t.ips && x in Last(t).consoles && JustOpened(Last(t).consoles[x], t.ips[x])
  }

  /** A new console starts over the relay and is about to host. */
  ghost predicate Ready(d: Ldn) {
    && d.state.AccessPoint? && d.relay && d.net == NO_NETWORK && d.lastAdvert == 0 && d.join == NewSession().join
    && forall i | 0 <= i < STATION_COUNT :: d.stations[i] == FREE
  }

  lemma OpeningIsReady(now: int)
    ensures Ready(OpenAccessPoint(Initialize(NewSession(), true, now)))
  {
  }

  lemma Readies(t: Story, x: nat) returns (u: Story)
    requires Told(t) && New(t, x)
    ensures Told(u) && Continues(t, u) && Only(Last(t), Last(u), x) && Ready(Last(u).consoles[x])
    ensures Last(t).ads <= Last(u).ads && Last(t).air <= Last(u).air
  {
    OpeningIsReady(0);
    u := Acts(t, Move(x, Input(Called(Call.Start(true)), 0, None)));
    u := Acts(u, Move(x, Input(Called(OpenAp), 0, None)));
  }

  /** A console starts over the relay and hosts a network. */
  lemma Hosts(t: Story, x: nat) returns (u: Story)
    requires Told(t) && New(t, x)
    ensures Told(u) && Continues(t, u) && Only(Last(t), Last(u), x) && Opened(u, x)
    ensures Last(t).ads <= Last(u).ads && Last(t).air <= Last(u).air && Last(u).consoles[x].net in Last(u).air
  {
    u := Readies(t, x);
    u := Opens(u, x);
  }

  lemma Opens(t: Story, x: nat) returns (u: Story)
    requires Told(t) && x in t.ips && x in Last(t).consoles && Ready(Last(t).consoles[x])
    ensures Told(u) && Continues(t, u) && Only(Last(t), Last(u), x) && Opened(u, x)
    ensures Last(t).ads <= Last(u).ads && Last(t).air <= Last(u).air && Last(u).consoles[x].net in Last(u).air
  {
    CreateOpens(Last(t).consoles[x], [], [], Here(t.ips, x));
    var m := Move(x, Input(Called(Create([], [], true)), 0, Some(Here(t.ips, x))));
    assert InfoIn(Sync(Outcome(Last(t), m).d.net)) in SyncsIn(Outcome(Last(t), m).out);
    u := Acts(t, m);
  }

  /** A host answers a scan: its network is advertised. */
  lemma Advertises(t: Story, x: nat) returns (u: Story)
    requires Told(t) && Opened(t, x)
    ensures Told(u) && Continues(t, u) && Only(Last(t), Last(u), x) && |u.moves| == |t.moves| + 1 && u.moves[|t.moves|].x == x
    ensures Last(t).consoles[x].net in AdvertsIn(Outcome(Last(t), u.moves[|t.moves|]).out)
    ensures Last(t).air <= Last(u).air && Last(t).consoles[x].net in Last(u).ads
  {
    var m := Move(x, Input(Heard(ScanCame), ADVERTISE_MS, None));
    assert Advert(Last(t).consoles[x].net) in Outcome(Last(t), m).out;
    assert InfoIn(Advert(Last(t).consoles[x].net)) in AdvertsIn(Outcome(Last(t), m).out);
    u := Acts(t, m);
  }

  // ---- Looking for networks ----

  ghost predicate Looking(t: Story, x: nat)
    requires Told(t)
  {
    x in t.ips && x in Last(t).consoles && Last(t).consoles[x].state.Browsing? && Last(t).consoles[x].relay
  }

  lemma Browses(t: Story, x: nat) returns (u: Story)
    requires Told(t) && New(t, x)
    ensures Told(u) && Continues(t, u) && Only(Last(t), Last(u), x) && Looking(u, x)
    ensures Last(t).ads <= Last(u).ads && Last(t).air <= Last(u).air
  {
    u := Acts(t, Move(x, Input(Called(Call.Start(true)), 0, None)));
    u := Acts(u, Move(x, Input(Called(OpenSta), 0, None)));
  }

  /** A network that was advertised by another console, just opened. */
  ghost predicate OnOffer(t: Story, x: nat, net: NetworkInfo)
    requires Told(t) && x in t.ips
  {
    net in Last(t).ads && net.nodeCount == 1 && net.nodes[0].ip != t.ips[x]
  }

  /** A console that aims at a network and waits for its list. */
  ghost predicate Aiming(t: Story, x: nat, bssid: Mac)
    requires Told(t)
  {
    && Looking(t, x)
    && var j := Last(t).consoles[x].join;
       j.active && j.bssid == bssid && j.awaitIp == t.ips[x] && !j.syncSeqValid
  }

  lemma Aims(t: Story, x: nat, net: NetworkInfo) returns (u: Story)
    requires Told(t) && Looking(t, x) && OnOffer(t, x, net)
    ensures Told(u) && Continues(t, u) && Only(Last(t), Last(u), x) && Aiming(u, x, net.bssid)
    ensures Last(t).ads <= Last(u).ads && Last(t).air <= Last(u).air
    ensures Last(u).consoles[x].stations == Last(t).consoles[x].stations
  {
    u := Acts(t, Move(x, Input(Called(Call.Join(net, [])), 0, Some(Here(t.ips, x)))));
  }

  lemma HearsList(d: Ldn, info: NetworkInfo, a: Address)
    requires d.state.Browsing? && d.join.active && info.bssid == d.join.bssid
    ensures
      var e := OnSyncFrame(d, info, 0, 0, Some(a)).d;
      && e.net == info && e.relay == d.relay && e.stations == d.stations
      && e.state == if d.join.awaitIp == 0 || Lists(info.nodes, d.join.awaitIp) then StationConnected else Browsing
  {
  }

  lemma Hears(t: Story, x: nat, info: NetworkInfo) returns (u: Story)
    requires Told(t) && Aiming(t, x, info.bssid) && info in Last(t).air
    ensures Told(u) && Continues(t, u) && Only(Last(t), Last(u), x) && |u.moves| == |t.moves| + 1
    ensures u.moves[|t.moves|].x == x && u.worlds[|t.moves|] == Last(t) && Last(t).ads <= Last(u).ads
    ensures
      var d := Last(u).consoles[x];
      && d.net == info && d.relay && d.stations == Last(t).consoles[x].stations && !d.state.AccessPointCreated?
    ensures t.ips[x] != 0 && Lists(info.nodes, t.ips[x]) ==> WaitsAndJoins(u.worlds, u.moves, |t.moves|)
  {
    HearsList(Last(t).consoles[x], info, Here(t.ips, x));
    u := Acts(t, Move(x, Input(Heard(SyncCame(info, 0)), 0, Some(Here(t.ips, x)))));
  }

  // ---- A stray list ----

  /** A console with a half-open TCP station, looking for networks. */
  ghost predicate Unsettled(t: Story, x: nat)
    requires Told(t)
  {
    Looking(t, x) && Last(t).consoles[x].stations[0].fd >= 0
  }

  /** A host takes a TCP connection and stops hosting; the slot stays. */
  lemma StopsHosting(t: Story, x: nat) returns (u: Story)
    requires Told(t) && Opened(t, x)
    ensures Told(u) && Continues(t, u) && Only(Last(t), Last(u), x) && Unsettled(u, x)
  {
    AllFreeCount(Last(t).consoles[x].stations);
    assert FirstFree(Last(t).consoles[x].stations) == 0;
    u := Acts(t, Move(x, Input(TcpAccepted(5), 0, None)));
    u := Acts(u, Move(x, Input(Called(Leave), 0, None)));
  }

  lemma Introduces(d: Ldn, node: NodeInfo, addr: Option<Address>)
    requires d.relay && d.stations[0].fd >= 0
    ensures
      var r := OnStationJoin(d, 0, node, addr);
      && r.d.state == d.state && r.d.net.bssid == d.net.bssid && Sync(r.d.net) in r.out
      && r.d.net.nodes[1].ip == node.ip && r.d.net.nodes[1].connected == 1
  {
    var d1 := d.(stations := d.stations[0 := d.stations[0].(status := Connected)],
                 net := d.net.(nodes := d.net.nodes[0 + 1 := node]));
    UpdateSetsFlags(d1, addr);
    assert UpdateNodes(d1, addr).d.net.nodes[0 + 1].connected == 1;
  }

  /** It aims at another network, hears its list, and then its TCP station introduces itself. */
  lemma StraysAway(t: Story, x: nat, net: NetworkInfo, node: NodeInfo) returns (u: Story, bad: NetworkInfo)
    requires Told(t) && !t.clean && Unsettled(t, x) && OnOffer(t, x, net) && net in Last(t).air
    ensures Told(u) && Continues(t, u) && Only(Last(t), Last(u), x) && Last(t).ads <= Last(u).ads
    ensures bad in Last(u).air && bad.bssid == net.bssid && bad.nodes[1].ip == node.ip && bad.nodes[1].connected == 1
  {
    u := Aims(t, x, net);
    u := Hears(u, x, net);
    var m, d := Move(x, Input(TcpJoin(0, node), 0, None)), Last(u).consoles[x];
    bad := Outcome(Last(u), m).d.net;
    Introduces(d, node, None);
    assert InfoIn(Sync(bad)) in SyncsIn(Outcome(Last(u), m).out);
    u := Acts(u, m);
  }

  /** The first console has stopped hosting, the second's network is advertised, and the third is new. */
  ghost predicate Staged(t: Story, first: nat, second: nat, third: nat, net: NetworkInfo)
    requires Told(t)
  {
    && Unsettled(t, first) && New(t, third) && second in t.ips && net.bssid == FakeMac(t.ips[second])
    && OnOffer(t, first, net) && OnOffer(t, third, net) && net in Last(t).air
  }

  lemma Stages(ips: map<nat, u32>, first: nat, second: nat, third: nat) returns (t: Story, net: NetworkInfo)
    requires first in ips && second in ips && third in ips
    requires ips[first] != ips[second] && ips[second] != ips[third] && ips[third] != ips[first]
    ensures Told(t) && t == Story(ips, t.worlds, t.moves, ips.Keys, false) && Staged(t, first, second, third, net)
  {
    t := Begins(ips, ips.Keys, false);
    t := Hosts(t, first);
    t := StopsHosting(t, first);
    t := Hosts(t, second);
    net := Last(t).consoles[second].net;
    t := Advertises(t, second);
  }

  /** A new console aims at the network and joins on the list that the wrong one sent. */
  lemma JoinsOn(t: Story, x: nat, net: NetworkInfo, bad: NetworkInfo) returns (u: Story)
    requires Told(t) && New(t, x) && t.ips[x] != 0 && OnOffer(t, x, net)
    requires bad in Last(t).air && bad.bssid == net.bssid && Lists(bad.nodes, t.ips[x])
    ensures Told(u) && Continues(t, u) && |u.moves| > 0 && u.moves[|u.moves| - 1].x == x
    ensures WaitsAndJoins(u.worlds, u.moves, |u.moves| - 1)
    ensures u.worlds[|u.moves| - 1].consoles[x].join.bssid == net.bssid
  {
    u := Browses(t, x);
    u := Aims(u, x, net);
    u := Hears(u, x, bad);
  }

  /**
   * A run with a false join. One console hosts, takes a TCP connection and
   * leaves; it looks at a second host's network, and then its TCP station
   * introduces itself. The list it broadcasts bears the second host's
   * identifier, and a third console with the station's address joins on it,
   * though in no world of the run any host has any station.
   */
  lemma StraysCanMislead(ips: map<nat, u32>, first: nat, second: nat, third: nat) returns (worlds: seq<World>, moves: seq<Move>)
    requires first in ips && second in ips && third in ips
    requires ips[first] != ips[second] && ips[second] != ips[third] && ips[third] != ips[first] && ips[third] != 0
    ensures IsRun(ips, worlds, moves) && |moves| > 0
    ensures moves[|moves| - 1].x == third && WaitsAndJoins(worlds, moves, |moves| - 1)
    ensures worlds[|moves| - 1].consoles[third].join.bssid == FakeMac(ips[second])
    ensures forall j, h | 0 <= j < |worlds| && h in worlds[j].consoles && worlds[j].consoles[h].state.AccessPointCreated? ::
              forall ip: u32 :: !HasStation(worlds[j].consoles[h], ip)
  {
    var t, net := Stages(ips, first, second, third);
    var bad;
    t, bad := StraysAway(t, first, net, NodeInfo(ips[third], 0, 1, []));
    assert Lists(bad.nodes, ips[third]);
    t := JoinsOn(t, third, net, bad);
    worlds, moves := t.worlds, t.moves;
    LonelyHasNone(t);
  }

  lemma LonelyHasNone(t: Story)
    requires Told(t)
    ensures forall j, h | 0 <= j < |t.worlds| && h in t.worlds[j].consoles && h in t.quiet && t.worlds[j].consoles[h].state.AccessPointCreated? ::
              forall ip: u32 :: !HasStation(t.worlds[j].consoles[h], ip)
    ensures forall j, h | 0 <= j < |t.worlds| && h in t.worlds[j].consoles :: h in t.ips
  {
    forall j | 0 <= j < |t.worlds|
      ensures forall h | h in t.worlds[j].consoles :: h in t.ips
    {
      RunsKeepWorld(t.ips, t.worlds, t.moves, j);
    }
  }

  // ---- A station at the wrong host ----

  /** Advertising is never taken back. */
  lemma AdvertisedStays(t: Story, u: Story, g: nat, bssid: Mac)
    requires Told(t) && Told(u) && Continues(t, u) && Advertised(t.worlds, t.moves, |t.moves|, g, bssid)
    ensures Advertised(u.worlds, u.moves, |t.moves|, g, bssid) && Advertised(u.worlds, u.moves, |u.moves|, g, bssid)
  {
    var j: nat :| j < |t.moves| && AdvertisesAt(t.worlds, t.moves, j, g, bssid);
    assert u.worlds[j] == t.worlds[j] && u.moves[j] == t.moves[j];
    assert AdvertisesAt(u.worlds, u.moves, j, g, bssid);
  }

  /** A console hosts and advertises. */
  lemma HostsOpenly(t: Story, x: nat) returns (u: Story, net: NetworkInfo)
    requires Told(t) && New(t, x)
    ensures Told(u) && Continues(t, u) && Only(Last(t), Last(u), x)
    ensures Advertised(u.worlds, u.moves, |u.moves|, x, net.bssid) && net.bssid == FakeMac(t.ips[x])
    ensures net in Last(u).ads && net in Last(u).air && net.nodeCount == 1 && net.nodes[0].ip == t.ips[x]
  {
    var v := Hosts(t, x);
    net := Last(v).consoles[x].net;
    u := Advertises(v, x);
    assert AdvertisesAt(u.worlds, u.moves, |v.moves|, x, net.bssid);
  }

  /** A console has a station of that address, in a network of its own. */
  ghost predicate TookIn(t: Story, h: nat, ip: u32)
    requires Told(t)
  {
    && h in t.ips && h in Last(t).consoles && Hosting(Last(t).consoles[h], t.ips[h]) && HasStation(Last(t).consoles[h], ip)
    && Last(t).consoles[h].net in Last(t).air && Lists(Last(t).consoles[h].net.nodes, ip)
  }

  /** A host that has just opened hears a Connect, whomever it was meant for. */
  lemma HearsConnect(t: Story, h: nat, node: NodeInfo) returns (u: Story)
    requires Told(t) && Opened(t, h) && h !in t.quiet
    ensures Told(u) && Continues(t, u) && Only(Last(t), Last(u), h) && TookIn(u, h, node.ip)
    ensures Last(t).ads <= Last(u).ads
  {
    var a := Here(t.ips, h);
    var m, d := Move(h, Input(Heard(ConnectCame(node)), 0, Some(a))), Last(t).consoles[h];
    Comes(d, node, a);
    var e := Outcome(Last(t), m).d;
    assert IsUp(e.stations[0]) && e.net.nodes[0 + 1].ip == node.ip;
    ConnectIsAnswered(d, node, 0, Some(a));
    assert InfoIn(Sync(e.net)) in SyncsIn(Outcome(Last(t), m).out);
    StaysOwn(d, node, a);
    assert e.net.nodes[0 + 1].connected == 1;
    u := Acts(t, m);
  }

  lemma StaysOwn(d: Ldn, node: NodeInfo, a: Address)
    requires JustOpened(d, a.ip)
    ensures Hosting(OnConnectFrame(d, node, 0, Some(a)).d, a.ip)
  {
    var free := FirstFree(d.stations);
    if free < STATION_COUNT {
      UpdateSetsFlags(Enrolled(d, free, node, 0), Some(a));
    }
    var holder := HolderOf(d.stations, d.net.nodes[1..], node.ip);
    if holder < STATION_COUNT {
      UpdateSetsFlags(Reheard(d, holder, 0), Some(a));
    }
  }

  /**
   * A run without strays: one console hosts and advertises, another hosts, and
   * a third aims at the first's network. Its Connect names no network, so the
   * other host enrols it; it aims at that host's network too only if the two
   * have one address. The first host never has a station.
   */
  lemma AsksAround(ips: map<nat, u32>, host: nat, other: nat, x: nat) returns (t: Story)
    requires host in ips && other in ips && x in ips && host != other && x != other && ips[x] != ips[host]
    ensures Told(t) && t == Story(ips, t.worlds, t.moves, {host}, true)
    ensures Advertised(t.worlds, t.moves, |t.moves|, host, FakeMac(ips[host]))
    ensures Aiming(t, x, FakeMac(ips[host])) && TookIn(t, other, ips[x])
  {
    t := Begins(ips, {host}, true);
    var net, before;
    t, net := HostsOpenly(t, host);
    before := t;
    t := Hosts(t, other);
    AdvertisedStays(before, t, host, net.bssid);
    before := t;
    t := Browses(t, x);
    AdvertisedStays(before, t, host, net.bssid);
    before := t;
    t := Aims(t, x, net);
    AdvertisedStays(before, t, host, net.bssid);
    before := t;
    t := HearsConnect(t, other, MyNode(ips[x], []));
    AdvertisedStays(before, t, host, net.bssid);
  }
}
