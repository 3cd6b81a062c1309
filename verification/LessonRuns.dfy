// What the control frames of whole runs teach about real and virtual addresses:
// who names an address that is not its own, and what a console comes to know.

module LessonRuns {
  import opened Bytes
  import opened LdnState
  import opened LdnRuns
  import opened JoinSafety
  import opened StraySyncs
  import opened JoinStories
  import RelayFrames
  import RelayTransport
  import T = TransportRuns

  // ---- What a frame names ----

  /** The real address a control frame gives for its sender; goodbyes teach none. */
  function Names(o: Out): Option<u32> {
    match o
    case Sync(info) => Some(info.nodes[0].ip)
    case Advert(info) => Some(info.nodes[0].ip)
    case JoinRequest(node) => Some(node.ip)
    case Heartbeat(_, ip) => Some(ip)
    case _ => None
  }

  /** Every address named is the console's own, or none. */
  ghost predicate NamesItself(out: seq<Out>, self: u32) {
    forall o | o in out && Names(o).Some? :: Names(o).value == 0 || Names(o).value == self
  }

  /** A console that does not host broadcasts a node list in which somebody else is the host. */
  predicate StraysForeign(d: Ldn, e: Event, self: u32) {
    Strays(d, e) && d.relay && d.net.nodes[0].ip != 0 && d.net.nodes[0].ip != self
  }

  /** A joined console says it joined with its own address. */
  ghost predicate JoinedAsItself(d: Ldn, self: u32) {
    d.join.joined ==> d.join.joinedIp == self
  }

  ghost predicate OwnInput(i: Input, self: u32) {
    && (i.addr.Some? ==> i.addr.value.ip == self)
    && (i.e.Called? && i.e.c.JoinSeen? ==> i.e.c.myIp == self)
  }

  lemma HearingKeepsJoined(d: Ldn, f: Frame, now: int, addr: Option<Address>, self: u32)
    requires JoinedAsItself(d, self)
    ensures JoinedAsItself(Hear(d, f, now, addr).d, self)
  {
  }

  lemma CallsKeepJoined(d: Ldn, c: Call, now: int, addr: Option<Address>, self: u32)
    requires JoinedAsItself(d, self) && (c.JoinSeen? ==> c.myIp == self)
    ensures JoinedAsItself(Obey(d, c, now, addr).d, self)
  {
  }

  lemma EventKeepsJoined(d: Ldn, i: Input, self: u32)
    requires JoinedAsItself(d, self) && OwnInput(i, self)
    ensures JoinedAsItself(React(d, i.e, i.now, i.addr).d, self)
  {
    match i.e
    case Heard(f) => HearingKeepsJoined(d, f, i.now, i.addr, self);
    case Called(c) => CallsKeepJoined(d, c, i.now, i.addr, self);
    case _ =>
  }

  /** Synchronising sends node lists only, each with the host it had before, and over the relay exactly if there is one. */
  lemma UpdateNames(d: Ldn, addr: Option<Address>)
    ensures
      var r := UpdateNodes(d, addr);
      && (forall o | o in r.out :: IsSync(o) && InfoIn(o) == r.d.net && (o.Sync? ==> d.relay))
      && (d.relay ==> Sync(r.d.net) in r.out) && r.d.net.nodes[0] == d.net.nodes[0]
  {
    TcpSyncsAgree(d.stations, UpdateNodes(d, addr).d.net);
    UpdateSetsFlags(d, addr);
  }

  lemma UpdateNamesItself(d: Ldn, addr: Option<Address>, self: u32)
    ensures NamesItself(UpdateNodes(d, addr).out, self) <==> !d.relay || d.net.nodes[0].ip == 0 || d.net.nodes[0].ip == self
  {
    UpdateNames(d, addr);
    var r := UpdateNodes(d, addr);
    if d.relay {
      assert Names(Sync(r.d.net)) == Some(d.net.nodes[0].ip);
    }
  }

  lemma NamesJoin(a: seq<Out>, b: seq<Out>, self: u32)
    requires NamesItself(a, self) && NamesItself(b, self)
    ensures NamesItself(a + b, self)
  {
  }

  lemma ConnectNamesItself(d: Ldn, node: NodeInfo, now: int, addr: Option<Address>, self: u32)
    requires HostsItself(d, self)
    ensures NamesItself(OnConnectFrame(d, node, now, addr).out, self)
  {
    var holder, free := HolderOf(d.stations, d.net.nodes[1..], node.ip), FirstFree(d.stations);
    if holder < STATION_COUNT {
      UpdateNamesItself(Reheard(d, holder, now), addr, self);
    } else if free < STATION_COUNT {
      UpdateNamesItself(Enrolled(d, free, node, now), addr, self);
    }
  }

  lemma ByeNamesItself(d: Ldn, bssid: Mac, ip: u32, addr: Option<Address>, self: u32)
    requires HostsItself(d, self)
    ensures NamesItself(OnBye(d, bssid, ip, addr).out, self)
  {
    UpdateNamesItself(d.(stations := Departed(d, ip)), addr, self);
  }

  lemma HearingNamesItself(d: Ldn, f: Frame, now: int, addr: Option<Address>, self: u32)
    requires HostsItself(d, self)
    ensures NamesItself(Hear(d, f, now, addr).out, self)
  {
    match f
    case ConnectCame(node) => ConnectNamesItself(d, node, now, addr, self);
    case ByeCame(bssid, ip) => ByeNamesItself(d, bssid, ip, addr, self);
    case _ =>
  }

  lemma TickNamesItself(d: Ldn, now: int, addr: Option<Address>, self: u32)
    requires HostsItself(d, self) && JoinedAsItself(d, self)
    ensures NamesItself(OnTick(d, now, addr).out, self)
  {
    if d.relay && now - d.lastBeacon >= BEACON_MS {
      var said := Announced(d.(lastBeacon := now), now);
      assert NamesItself(said.out, self);
      UpdateNamesItself(said.d.(stations := Reaped(said.d.stations, now)), addr, self);
      NamesJoin(said.out, Checked(said.d, now, addr).out, self);
    }
  }

  lemma CreateNamesItself(d: Ldn, session: seq<byte>, name: seq<byte>, addr: Option<Address>, again: bool, self: u32)
    requires addr.Some? ==> addr.value.ip == self
    ensures NamesItself(CreateNetwork(d, session, name, addr, again).out, self)
  {
    if d.state.AccessPoint? && addr.Some? && again {
      var d1 := d.(net := Founded(d.net, session, name, addr.value.ip), state := AccessPointCreated);
      UpdateNamesItself(Unmarked(d1), addr, self);
      NamesJoin(ScopeOf(d1), UpdateNodes(Unmarked(d1), addr).out, self);
    }
  }

  lemma CallsName(d: Ldn, c: Call, now: int, addr: Option<Address>, self: u32)
    requires HostsItself(d, self) && (addr.Some? ==> addr.value.ip == self)
    ensures NamesItself(Obey(d, c, now, addr).out, self) <==> !StraysForeign(d, Called(c), self)
  {
    match c
    case Create(session, name, again) => CreateNamesItself(d, session, name, addr, again, self);
    case Advertise(data) => UpdateNamesItself(d.(net := d.net.(advertised := data)), addr, self);
    case _ =>
  }

  lemma TcpJoinNames(d: Ldn, i: nat, node: NodeInfo, addr: Option<Address>, self: u32)
    requires HostsItself(d, self) && i < STATION_COUNT
    ensures NamesItself(OnStationJoin(d, i, node, addr).out, self) <==> !StraysForeign(d, TcpJoin(i, node), self)
  {
    var nodes := d.net.nodes[i + 1 := node];
    assert nodes[0] == d.net.nodes[0];
    UpdateNamesItself(d.(stations := d.stations[i := d.stations[i].(status := Connected)], net := d.net.(nodes := nodes)), addr, self);
  }

  lemma TcpLostNames(d: Ldn, i: nat, addr: Option<Address>, self: u32)
    requires HostsItself(d, self) && i < STATION_COUNT
    ensures NamesItself(OnStationClose(d, i, addr).out, self) <==> !StraysForeign(d, TcpLost(i), self)
  {
    UpdateNamesItself(d.(stations := d.stations[i := Reset(d.stations[i])]), addr, self);
  }

  /** A console names an address that is not its own if and only if it strays with somebody else's list. */
  lemma NamesItselfIff(d: Ldn, i: Input, self: u32)
    requires HostsItself(d, self) && JoinedAsItself(d, self) && OwnInput(i, self)
    ensures NamesItself(React(d, i.e, i.now, i.addr).out, self) <==> !StraysForeign(d, i.e, self)
  {
    match i.e
    case Heard(f) => HearingNamesItself(d, f, i.now, i.addr, self);
    case Called(c) => CallsName(d, c, i.now, i.addr, self);
    case TcpJoin(slot, node) =>
      if slot < STATION_COUNT {
        TcpJoinNames(d, slot, node, i.addr, self);
      }
    case TcpLost(slot) =>
      if slot < STATION_COUNT {
        TcpLostNames(d, slot, i.addr, self);
      }
    case Ticked => TickNamesItself(d, i.now, i.addr, self);
    case _ =>
  }

  // ---- Who names whom, over runs ----

  /** The move names that real address, from its console's virtual one. */
  ghost predicate Taught(vs: map<nat, u32>, worlds: seq<World>, moves: seq<Move>, j: nat, l: T.Lesson) {
    && j < |moves| && |worlds| == |moves| + 1 && moves[j].x in worlds[j].consoles && moves[j].x in vs
    && l.vsrc == vs[moves[j].x]
    && exists o :: o in Outcome(worlds[j], moves[j]).out && Names(o) == Some(l.realIp)
  }

  ghost predicate MoveStraysForeign(ips: map<nat, u32>, worlds: seq<World>, moves: seq<Move>, j: nat) {
    && j < |moves| && |worlds| == |moves| + 1 && moves[j].x in worlds[j].consoles && moves[j].x in ips
    && StraysForeign(worlds[j].consoles[moves[j].x], moves[j].i.e, ips[moves[j].x])
  }

  /** In no move of the run a console that does not host broadcasts a list with another host. */
  ghost predicate NoForeignStrays(ips: map<nat, u32>, worlds: seq<World>, moves: seq<Move>) {
    forall j: nat | j < |moves| :: !MoveStraysForeign(ips, worlds, moves, j)
  }

  /** Whatever the run teaches is an address of the console that names it. */
  ghost predicate TeachesOwn(ips: map<nat, u32>, vs: map<nat, u32>, worlds: seq<World>, moves: seq<Move>) {
    forall j: nat, l | Taught(vs, worlds, moves, j, l) && l.realIp != 0 :: moves[j].x in ips && l.realIp == ips[moves[j].x]
  }

  ghost predicate AllJoinedAsThemselves(ips: map<nat, u32>, w: World) {
    forall x | x in w.consoles :: x in ips && JoinedAsItself(w.consoles[x], ips[x])
  }

  lemma MoveKeepsJoined(ips: map<nat, u32>, w: World, m: Move)
    requires AllJoinedAsThemselves(ips, w) && Permitted(ips, w, m)
    ensures AllJoinedAsThemselves(ips, Next(w, m))
  {
    EventKeepsJoined(w.consoles[m.x], m.i, ips[m.x]);
  }

  lemma {:induction false} RunsKeepJoined(ips: map<nat, u32>, worlds: seq<World>, moves: seq<Move>, k: nat)
    requires IsRun(ips, worlds, moves) && k < |worlds|
    ensures AllJoinedAsThemselves(ips, worlds[k])
  {
    if k > 0 {
      RunsKeepJoined(ips, worlds, moves, k - 1);
      assert MadeAt(ips, worlds, moves, k - 1);
      MoveKeepsJoined(ips, worlds[k - 1], moves[k - 1]);
    }
  }

  /** A move names only its console's own address if and only if it does not stray with somebody else's list. */
  lemma MoveNamesItselfIff(ips: map<nat, u32>, worlds: seq<World>, moves: seq<Move>, j: nat)
    requires IsRun(ips, worlds, moves) && j < |moves|
    ensures moves[j].x in worlds[j].consoles && moves[j].x in ips
    ensures NamesItself(Outcome(worlds[j], moves[j]).out, ips[moves[j].x]) <==> !MoveStraysForeign(ips, worlds, moves, j)
  {
    assert MadeAt(ips, worlds, moves, j);
    RunsKeepWorld(ips, worlds, moves, j);
    RunsKeepJoined(ips, worlds, moves, j);
    NamesItselfIff(worlds[j].consoles[moves[j].x], moves[j].i, ips[moves[j].x]);
  }

  /**
   * In every run: whatever real address a control frame gives is its sender's
   * own, if and only if no console that does not host broadcasts a list with
   * somebody else as its host.
   */
  lemma TeachesOwnIff(ips: map<nat, u32>, vs: map<nat, u32>, worlds: seq<World>, moves: seq<Move>)
    requires IsRun(ips, worlds, moves) && ips.Keys <= vs.Keys
    ensures TeachesOwn(ips, vs, worlds, moves) <==> NoForeignStrays(ips, worlds, moves)
  {
    if NoForeignStrays(ips, worlds, moves) {
      forall j: nat, l | Taught(vs, worlds, moves, j, l) && l.realIp != 0
        ensures moves[j].x in ips && l.realIp == ips[moves[j].x]
      {
        MoveNamesItselfIff(ips, worlds, moves, j);
        assert !MoveStraysForeign(ips, worlds, moves, j);
      }
    } else {
      var j: nat :| j < |moves| && MoveStraysForeign(ips, worlds, moves, j);
      MoveNamesItselfIff(ips, worlds, moves, j);
      var o :| o in Outcome(worlds[j], moves[j]).out && Names(o).Some? && Names(o).value != 0 && Names(o).value != ips[moves[j].x];
      assert Taught(vs, worlds, moves, j, T.Lesson(Names(o).value, vs[moves[j].x]));
    }
  }

  // ---- What a console comes to know ----

  /** Lessons of the run, in any order, any number of times, any of them missing. */
  ghost predicate FromRun(vs: map<nat, u32>, worlds: seq<World>, moves: seq<Move>, lessons: seq<T.Lesson>) {
    forall i | 0 <= i < |lessons| :: exists j: nat :: Taught(vs, worlds, moves, j, lessons[i])
  }

  function Console(ips: map<nat, u32>, vs: map<nat, u32>, x: nat): RelayFrames.Self
    requires x in ips && x in vs
  {
    RelayFrames.Self(vs[x], ips[x])
  }

  ghost function Consoles(ips: map<nat, u32>, vs: map<nat, u32>): set<RelayFrames.Self>
    requires ips.Keys <= vs.Keys
  {
    set x | x in ips :: Console(ips, vs, x)
  }

  ghost predicate Lessons(ips: map<nat, u32>, vs: map<nat, u32>, worlds: seq<World>, moves: seq<Move>, lessons: seq<T.Lesson>,
                          clean: bool)
  {
    && IsRun(ips, worlds, moves) && FromRun(vs, worlds, moves, lessons)
    && (clean ==> NoForeignStrays(ips, worlds, moves))
  }

  /** In every run, clean or any, console y knows nothing but c's virtual address for c's real one. */
  ghost predicate KnowsRight(ips: map<nat, u32>, vs: map<nat, u32>, y: nat, c: nat, clean: bool)
    requires ips.Keys <= vs.Keys && y in ips && c in ips
  {
    forall worlds, moves, lessons | Lessons(ips, vs, worlds, moves, lessons, clean) ::
      KnowsNothingElse(ips, vs, y, c, lessons)
  }

  ghost predicate KnowsNothingElse(ips: map<nat, u32>, vs: map<nat, u32>, y: nat, c: nat, lessons: seq<T.Lesson>)
    requires ips.Keys <= vs.Keys && y in ips && c in ips
  {
    var known := T.Known(Console(ips, vs, y), lessons, ips[c]);
    known == 0 || known == vs[c]
  }

  /** Console y would learn d's virtual address, another than c's, for c's real one. */
  ghost predicate Misleads(ips: map<nat, u32>, vs: map<nat, u32>, y: nat, c: nat, d: nat)
    requires ips.Keys <= vs.Keys && y in ips && c in ips
  {
    d in ips && vs[d] != vs[c] && RelayTransport.Teaches(Console(ips, vs, y), ips[c], vs[d])
  }

  lemma OneLesson(ips: map<nat, u32>, vs: map<nat, u32>, worlds: seq<World>, moves: seq<Move>, j: nat, l: T.Lesson, clean: bool)
    requires IsRun(ips, worlds, moves) && Taught(vs, worlds, moves, j, l) && (clean ==> NoForeignStrays(ips, worlds, moves))
    ensures Lessons(ips, vs, worlds, moves, [l], clean)
  {
    assert Taught(vs, worlds, moves, j, [l][0]);
  }

  /** Whoever advertised has taught its own address. */
  lemma AdvertsTeach(ips: map<nat, u32>, vs: map<nat, u32>, worlds: seq<World>, moves: seq<Move>, x: nat, bssid: Mac)
    returns (j: nat)
    requires IsRun(ips, worlds, moves) && Advertised(worlds, moves, |moves|, x, bssid) && ips.Keys <= vs.Keys
    ensures x in ips && Taught(vs, worlds, moves, j, T.Lesson(ips[x], vs[x]))
  {
    j :| j < |moves| && AdvertisesAt(worlds, moves, j, x, bssid);
    var m, w := moves[j], worlds[j];
    assert MadeAt(ips, worlds, moves, j);
    RunsKeepWorld(ips, worlds, moves, j);
    AdvertsAreOwn(w.consoles[x], m.i.e, m.i.now, m.i.addr);
    var o :| o in Outcome(w, m).out && o.Advert?;
    assert Names(o) == Some(ips[x]);
  }

  /** A console hosts over the relay and advertises: everybody may learn its address. */
  lemma HostsTeach(ips: map<nat, u32>, vs: map<nat, u32>, x: nat) returns (worlds: seq<World>, moves: seq<Move>)
    requires x in ips && ips.Keys <= vs.Keys
    ensures Lessons(ips, vs, worlds, moves, [T.Lesson(ips[x], vs[x])], true)
  {
    var t := Begins(ips, {}, true);
    var net;
    t, net := HostsOpenly(t, x);
    worlds, moves := t.worlds, t.moves;
    CleanHasNoForeign(t);
    var j := AdvertsTeach(ips, vs, worlds, moves, x, net.bssid);
    OneLesson(ips, vs, worlds, moves, j, T.Lesson(ips[x], vs[x]), true);
  }

  lemma StrayIsHeard(d: Ldn, e: Event, now: int, addr: Option<Address>)
    requires Strays(d, e) && d.relay
    ensures Audible(React(d, e, now, addr).d)
  {
  }

  lemma CleanHasNoForeign(t: Story)
    requires Told(t) && t.clean
    ensures NoForeignStrays(t.ips, t.worlds, t.moves)
  {
    forall j: nat | j < |t.moves|
      ensures !MoveStraysForeign(t.ips, t.worlds, t.moves, j)
    {
      var m, w := t.moves[j], t.worlds[j];
      assert MadeAt(t.ips, t.worlds, t.moves, j);
      assert !MoveStrays(t.worlds, t.moves, j);
      if StraysForeign(w.consoles[m.x], m.i.e, t.ips[m.x]) {
        StrayIsHeard(w.consoles[m.x], m.i.e, m.i.now, m.i.addr);
      }
    }
  }

  /** A console that hosts nothing, over the relay, with the list of another host in its hands. */
  ghost predicate HoldsList(t: Story, x: nat, ip: u32)
    requires Told(t)
  {
    && x in t.ips && x in Last(t).consoles
    && var d := Last(t).consoles[x];
       d.relay && !d.state.AccessPointCreated? && d.net.nodes[0].ip == ip
  }

  lemma LooksOn(ips: map<nat, u32>, host: nat, other: nat) returns (t: Story)
    requires host in ips && other in ips && ips[host] != ips[other]
    ensures Told(t) && t == Story(ips, t.worlds, t.moves, {}, false) && HoldsList(t, other, ips[host])
  {
    t := Begins(ips, {}, false);
    var net;
    t, net := HostsOpenly(t, host);
    t := Browses(t, other);
    t := Aims(t, other, net);
    t := Hears(t, other, net);
  }

  /** Its game sets advertise data: it broadcasts the list. */
  lemma SetsData(t: Story, vs: map<nat, u32>, x: nat, ip: u32) returns (u: Story)
    requires Told(t) && !t.clean && t.quiet == {} && x in vs && HoldsList(t, x, ip)
    ensures Told(u) && Continues(t, u) && |u.moves| == |t.moves| + 1 && u.moves[|t.moves|].x == x
    ensures Taught(vs, u.worlds, u.moves, |t.moves|, T.Lesson(ip, vs[x]))
    ensures ip != 0 && ip != t.ips[x] ==> MoveStraysForeign(t.ips, u.worlds, u.moves, |t.moves|)
  {
    var m, d := Move(x, Input(Called(Advertise([])), 0, None)), Last(t).consoles[x];
    UpdateNames(d.(net := d.net.(advertised := [])), None);
    assert Names(Sync(Outcome(Last(t), m).d.net)) == Some(ip);
    u := Acts(t, m);
    assert u.worlds[|t.moves|] == Last(t);
  }

  /**
   * A run in which no two consoles need share an address: one console hosts and
   * advertises, another aims at its network and hears its list, and its game
   * sets advertise data. The list it then broadcasts names the host, from the
   * other's virtual address.
   */
  lemma StraysTeachWrong(ips: map<nat, u32>, vs: map<nat, u32>, host: nat, other: nat)
    returns (worlds: seq<World>, moves: seq<Move>)
    requires host in ips && other in ips && ips.Keys <= vs.Keys && ips[host] != ips[other] && ips[host] != 0
    ensures Lessons(ips, vs, worlds, moves, [T.Lesson(ips[host], vs[other])], false)
    ensures |moves| > 0 && moves[|moves| - 1].x == other && MoveStraysForeign(ips, worlds, moves, |moves| - 1)
  {
    var t := LooksOn(ips, host, other);
    var u := SetsData(t, vs, other, ips[host]);
    worlds, moves := u.worlds, u.moves;
    OneLesson(ips, vs, worlds, moves, |t.moves|, T.Lesson(ips[host], vs[other]), false);
  }

  lemma LessonsComeFromConsoles(ips: map<nat, u32>, vs: map<nat, u32>, worlds: seq<World>, moves: seq<Move>,
                                lessons: seq<T.Lesson>, l: T.Lesson)
    requires Lessons(ips, vs, worlds, moves, lessons, false) && l in lessons
    ensures exists d :: d in ips && d in vs && l.vsrc == vs[d]
  {
    var i :| 0 <= i < |lessons| && lessons[i] == l;
    var j: nat :| Taught(vs, worlds, moves, j, lessons[i]);
    assert MadeAt(ips, worlds, moves, j);
  }

  lemma CleanLessonsAreHonest(ips: map<nat, u32>, vs: map<nat, u32>, worlds: seq<World>, moves: seq<Move>, lessons: seq<T.Lesson>)
    requires ips.Keys <= vs.Keys && Lessons(ips, vs, worlds, moves, lessons, true)
    ensures T.AllHonest(Consoles(ips, vs), lessons)
  {
    TeachesOwnIff(ips, vs, worlds, moves);
    forall i | 0 <= i < |lessons|
      ensures T.Honest(Consoles(ips, vs), lessons[i])
    {
      var j: nat :| Taught(vs, worlds, moves, j, lessons[i]);
      var x := moves[j].x;
      if lessons[i].realIp != 0 {
        assert x in ips && lessons[i] == T.Lesson(ips[x], vs[x]);
        assert Console(ips, vs, x) in Consoles(ips, vs);
      }
    }
  }

  /**
   * In runs in which no console that does not host broadcasts a list with
   * another host, what y knows for c's real address is always right if and
   * only if no console with that address could mislead y.
   */
  lemma CleanRunsTeachRightIff(ips: map<nat, u32>, vs: map<nat, u32>, y: nat, c: nat)
    requires ips.Keys <= vs.Keys && y in ips && c in ips
    ensures KnowsRight(ips, vs, y, c, true) <==> forall d | d in ips && ips[d] == ips[c] :: !Misleads(ips, vs, y, c, d)
  {
    var self := Console(ips, vs, y);
    if forall d | d in ips && ips[d] == ips[c] :: !Misleads(ips, vs, y, c, d) {
      forall worlds, moves, lessons | Lessons(ips, vs, worlds, moves, lessons, true)
        ensures KnowsNothingElse(ips, vs, y, c, lessons)
      {
        CleanLessonsAreHonest(ips, vs, worlds, moves, lessons);
        assert T.Unrivalled(self, Consoles(ips, vs), Console(ips, vs, c));
        T.OnlyOneKnown(self, Consoles(ips, vs), Console(ips, vs, c), lessons);
      }
    } else {
      var d :| d in ips && ips[d] == ips[c] && Misleads(ips, vs, y, c, d);
      var worlds, moves := HostsTeach(ips, vs, d);
      T.TaughtIsKnown(self, Console(ips, vs, d));
      assert !KnowsNothingElse(ips, vs, y, c, [T.Lesson(ips[d], vs[d])]);
    }
  }

  /**
   * In all runs together it is right only if no other console at all could
   * mislead y, whatever its own address: such strays are enough.
   */
  lemma AllRunsTeachRightIff(ips: map<nat, u32>, vs: map<nat, u32>, y: nat, c: nat)
    requires ips.Keys <= vs.Keys && y in ips && c in ips
    ensures KnowsRight(ips, vs, y, c, false) <==> forall d | d in ips :: !Misleads(ips, vs, y, c, d)
  {
    var self := Console(ips, vs, y);
    if forall d | d in ips :: !Misleads(ips, vs, y, c, d) {
      forall worlds, moves, lessons | Lessons(ips, vs, worlds, moves, lessons, false)
        ensures KnowsNothingElse(ips, vs, y, c, lessons)
      {
        var known := T.Known(self, lessons, ips[c]);
        if known != 0 {
          T.KnownWasTaught(self, lessons, ips[c]);
          LessonsComeFromConsoles(ips, vs, worlds, moves, lessons, T.Lesson(ips[c], known));
        }
      }
    } else {
      var d :| d in ips && Misleads(ips, vs, y, c, d);
      var worlds, moves;
      if ips[d] == ips[c] {
        worlds, moves := HostsTeach(ips, vs, d);
      } else {
        worlds, moves := StraysTeachWrong(ips, vs, c, d);
      }
      T.TaughtIsKnown(self, RelayFrames.Self(vs[d], ips[c]));
      assert Lessons(ips, vs, worlds, moves, [T.Lesson(ips[c], vs[d])], false);
      assert !KnowsNothingElse(ips, vs, y, c, [T.Lesson(ips[c], vs[d])]);
    }
  }

  // ---- Whose heartbeat counts where ----

  lemma HearingSaysNoHeartbeat(d: Ldn, f: Frame, now: int, addr: Option<Address>)
    ensures forall o | o in Hear(d, f, now, addr).out :: !o.Heartbeat?
  {
    match f
    case ConnectCame(node) =>
      var holder, free := HolderOf(d.stations, d.net.nodes[1..], node.ip), FirstFree(d.stations);
      if holder < STATION_COUNT {
        UpdateNames(Reheard(d, holder, now), addr);
      } else if free < STATION_COUNT {
        UpdateNames(Enrolled(d, free, node, now), addr);
      }
    case ByeCame(bssid, ip) => UpdateNames(d.(stations := Departed(d, ip)), addr);
    case _ =>
  }

  lemma CallsSayNoHeartbeat(d: Ldn, c: Call, now: int, addr: Option<Address>)
    ensures forall o | o in Obey(d, c, now, addr).out :: !o.Heartbeat?
  {
    match c
    case Create(session, name, again) =>
      if d.state.AccessPoint? && addr.Some? && again {
        UpdateNames(Unmarked(d.(net := Founded(d.net, session, name, addr.value.ip), state := AccessPointCreated)), addr);
      }
    case Advertise(data) => UpdateNames(d.(net := d.net.(advertised := data)), addr);
    case _ =>
  }

  lemma TickHeartbeats(d: Ldn, now: int, addr: Option<Address>)
    ensures forall o | o in OnTick(d, now, addr).out && o.Heartbeat? ::
      d.state.StationConnected? && d.join.joined && o == Heartbeat(d.join.bssid, d.join.joinedIp)
  {
    if d.relay && now - d.lastBeacon >= BEACON_MS {
      var said := Announced(d.(lastBeacon := now), now);
      UpdateNames(said.d.(stations := Reaped(said.d.stations, now)), addr);
    }
  }

  /** Only a joined console sends heartbeats, for the network it aims at. */
  lemma HeartbeatsNameTarget(d: Ldn, e: Event, now: int, addr: Option<Address>)
    ensures forall o | o in React(d, e, now, addr).out && o.Heartbeat? ::
      d.state.StationConnected? && d.join.joined && o == Heartbeat(d.join.bssid, d.join.joinedIp)
  {
    match e
    case Heard(f) => HearingSaysNoHeartbeat(d, f, now, addr);
    case Called(c) => CallsSayNoHeartbeat(d, c, now, addr);
    case TcpJoin(slot, node) =>
      if slot < STATION_COUNT {
        UpdateNames(d.(stations := d.stations[slot := d.stations[slot].(status := Connected)],
                       net := d.net.(nodes := d.net.nodes[slot + 1 := node])), addr);
      }
    case TcpLost(slot) =>
      if slot < STATION_COUNT {
        UpdateNames(d.(stations := d.stations[slot := Reset(d.stations[slot])]), addr);
      }
    case Ticked => TickHeartbeats(d, now, addr);
    case _ =>
  }

  /**
   * In every run: a heartbeat stamps the slot that a host has for its sender
   * over the relay if and only if the sender aims at a network of the host's
   * address; to any other host, whoever enrolled it, it says nothing.
   */
  lemma HeartbeatStampsIff(ips: map<nat, u32>, worlds: seq<World>, moves: seq<Move>, k: nat, o: Out, host: Ldn, h: nat, i: nat,
                           now: int)
    requires IsRun(ips, worlds, moves) && k < |moves| && moves[k].x in worlds[k].consoles
    requires o in Outcome(worlds[k], moves[k]).out && o.Heartbeat?
    requires h in ips && Hosting(host, ips[h]) && i < STATION_COUNT && RelayOnly(host.stations[i])
    requires moves[k].x in ips && host.net.nodes[i + 1].ip == ips[moves[k].x]
    ensures
      var after := OnHeartbeat(host, o.bssid, o.ip, now);
      if worlds[k].consoles[moves[k].x].join.bssid == FakeMac(ips[h]) then after.stations[i] == host.stations[i].(lastSeen := now)
      else after == host
  {
    var m, w := moves[k], worlds[k];
    HeartbeatsNameTarget(w.consoles[m.x], m.i.e, m.i.now, m.i.addr);
    RunsKeepJoined(ips, worlds, moves, k);
  }
}
