// When the host that confirms a join is the one whose network was advertised:
// network identifiers come from real addresses, which consoles may share.

module JoinOwners {
  import opened Bytes
  import opened LdnState
  import opened JoinSafety
  import opened StraySyncs
  import opened JoinStories

  /** Console g hosted with exactly the list that the console joining at move k stores, and had its address in a connected slot. */
  ghost predicate HadStation(ips: map<nat, u32>, worlds: seq<World>, moves: seq<Move>, k: nat, g: nat)
    requires IsRun(ips, worlds, moves) && k < |moves| && WaitsAndJoins(worlds, moves, k)
  {
    var x := moves[k].x;
    x in ips && exists j: nat :: j <= k && HostShows(ips, worlds[j], g, worlds[k + 1].consoles[x].net)
                                 && HasStation(worlds[j].consoles[g], ips[x])
  }

  /** A join without strays before it, aimed at an identifier that console g advertised. */
  ghost predicate JoinsNetworkOf(ips: map<nat, u32>, worlds: seq<World>, moves: seq<Move>, k: nat, g: nat) {
    && IsRun(ips, worlds, moves) && k < |moves| && WaitsAndJoins(worlds, moves, k) && NoStrays(worlds, moves, k)
    && Advertised(worlds, moves, k, g, worlds[k].consoles[moves[k].x].join.bssid)
  }

  /** In every run, every such join was confirmed by g itself. */
  ghost predicate ConfirmsItself(ips: map<nat, u32>, g: nat) {
    forall worlds, moves, k: nat | JoinsNetworkOf(ips, worlds, moves, k, g) :: HadStation(ips, worlds, moves, k, g)
  }

  ghost predicate Alone(ips: map<nat, u32>, g: nat)
    requires g in ips
  {
    forall h | h in ips && ips[h] == ips[g] :: h == g
  }

  /** Some console has an address to wait with, and another than g's. */
  ghost predicate HasGuests(ips: map<nat, u32>, g: nat)
    requires g in ips
  {
    exists x :: x in ips && ips[x] != ips[g] && ips[x] != 0
  }

  /** Whoever joins has an address to wait with, and another than the advertiser's. */
  lemma JoinersAreGuests(ips: map<nat, u32>, worlds: seq<World>, moves: seq<Move>, k: nat, g: nat)
    requires JoinsNetworkOf(ips, worlds, moves, k, g)
    ensures
      var x := moves[k].x;
      && g in ips && x in ips && ips[x] != ips[g] && ips[x] != 0
      && worlds[k].consoles[x].join.bssid == FakeMac(ips[g])
  {
    var m, w := moves[k], worlds[k];
    assert MadeAt(ips, worlds, moves, k);
    RunsKeepWorld(ips, worlds, moves, k);
    OnlySyncsConnect(w.consoles[m.x], m.i.e, m.i.now, m.i.addr);
    AdvertisersHaveAddress(ips, worlds, moves, k, g, w.consoles[m.x].join.bssid);
  }

  /** A host with an address of its own confirms every join aimed at it. */
  lemma AloneConfirms(ips: map<nat, u32>, worlds: seq<World>, moves: seq<Move>, k: nat, g: nat)
    requires JoinsNetworkOf(ips, worlds, moves, k, g) && g in ips && Alone(ips, g)
    ensures HadStation(ips, worlds, moves, k, g)
  {
    JoinersAreGuests(ips, worlds, moves, k, g);
    JoinsAreConfirmed(ips, worlds, moves, k);
    var x := moves[k].x;
    var j: nat, h: nat :| j <= k && HostShows(ips, worlds[j], h, worlds[k + 1].consoles[x].net)
      && worlds[k].consoles[x].join.bssid == FakeMac(ips[h]) && HasStation(worlds[j].consoles[h], ips[x]);
    FakeMacInjective(ips[h], ips[g]);
  }

  /**
   * A run without strays: two hosts share an address, a third console aims at
   * the first's network, the other enrols it on its Connect, and it joins on
   * the other's list; the first never had it.
   */
  lemma SharedAddressMisleads(ips: map<nat, u32>, host: nat, other: nat, x: nat)
    returns (worlds: seq<World>, moves: seq<Move>, k: nat)
    requires host in ips && other in ips && x in ips && host != other && ips[other] == ips[host]
    requires ips[x] != ips[host] && ips[x] != 0
    ensures JoinsNetworkOf(ips, worlds, moves, k, host) && !HadStation(ips, worlds, moves, k, host)
  {
    var t := AsksAround(ips, host, other, x);
    var u := JoinsTwin(t, host, other, x);
    worlds, moves, k := u.worlds, u.moves, |t.moves|;
    QuietNeverHad(u, k, host);
  }

  lemma JoinsTwin(t: Story, host: nat, other: nat, x: nat) returns (u: Story)
    requires Told(t) && t.clean && host in t.ips && other in t.ips && x in t.ips && t.ips[other] == t.ips[host] && t.ips[x] != 0
    requires Advertised(t.worlds, t.moves, |t.moves|, host, FakeMac(t.ips[host]))
    requires Aiming(t, x, FakeMac(t.ips[host])) && TookIn(t, other, t.ips[x])
    ensures Told(u) && Continues(t, u) && |u.moves| == |t.moves| + 1
    ensures JoinsNetworkOf(u.ips, u.worlds, u.moves, |t.moves|, host)
  {
    u := Hears(t, x, Last(t).consoles[other].net);
    AdvertisedStays(t, u, host, FakeMac(t.ips[host]));
    ShorterNoStrays(u, |t.moves|);
  }

  lemma ShorterNoStrays(t: Story, k: nat)
    requires Told(t) && t.clean && k <= |t.moves|
    ensures NoStrays(t.worlds, t.moves, k)
  {
  }

  lemma QuietNeverHad(t: Story, k: nat, g: nat)
    requires Told(t) && g in t.quiet && k < |t.moves| && WaitsAndJoins(t.worlds, t.moves, k)
    ensures !HadStation(t.ips, t.worlds, t.moves, k, g)
  {
    LonelyHasNone(t);
    assert forall j: nat, info | j <= k && HostShows(t.ips, t.worlds[j], g, info) ::
        t.worlds[j].consoles[g].state.AccessPointCreated? && g in t.worlds[j].consoles;
  }

  /**
   * Without strays, every join aimed at a host's network is confirmed by that
   * host itself, in every run, if and only if no other console has its address
   * (or there is nobody who could join it).
   */
  lemma ConfirmsItselfIff(ips: map<nat, u32>, g: nat)
    requires g in ips
    ensures ConfirmsItself(ips, g) <==> Alone(ips, g) || !HasGuests(ips, g)
  {
    if Alone(ips, g) || !HasGuests(ips, g) {
      forall worlds, moves, k: nat | JoinsNetworkOf(ips, worlds, moves, k, g)
        ensures HadStation(ips, worlds, moves, k, g)
      {
        JoinersAreGuests(ips, worlds, moves, k, g);
        AloneConfirms(ips, worlds, moves, k, g);
      }
    } else {
      var other :| other in ips && ips[other] == ips[g] && other != g;
      var x :| x in ips && ips[x] != ips[g] && ips[x] != 0;
      var worlds, moves, k := SharedAddressMisleads(ips, g, other, x);
    }
  }

  /** And every network a console joins was advertised, by a host at the address its identifier stands for. */
  lemma JoinedNetworksWereAdvertised(ips: map<nat, u32>, worlds: seq<World>, moves: seq<Move>, k: nat)
    requires IsRun(ips, worlds, moves) && k < |moves| && WaitsAndJoins(worlds, moves, k)
    ensures
      var bssid := worlds[k].consoles[moves[k].x].join.bssid;
      exists g :: Advertised(worlds, moves, k, g, bssid) && g in ips && bssid == FakeMac(ips[g])
  {
    var m, w := moves[k], worlds[k];
    assert MadeAt(ips, worlds, moves, k);
    RunsKeepWorld(ips, worlds, moves, k);
    OnlySyncsConnect(w.consoles[m.x], m.i.e, m.i.now, m.i.addr);
    var bssid := w.consoles[m.x].join.bssid;
    TargetsWereAdvertised(ips, worlds, moves, k, m.x, bssid);
    var g :| Advertised(worlds, moves, k, g, bssid);
    AdvertisersHaveAddress(ips, worlds, moves, k, g, bssid);
  }

  /**
   * A station in a host's table need not aim at that host: in a run without
   * strays a console asks to join one host, another enrols it, and it aims at
   * the other's network exactly if the two have one address.
   */
  lemma EnrolledElsewhere(ips: map<nat, u32>, host: nat, other: nat, x: nat) returns (worlds: seq<World>, moves: seq<Move>)
    requires host in ips && other in ips && x in ips && host != other && x != other && ips[x] != ips[host]
    ensures IsRun(ips, worlds, moves) && NoStrays(worlds, moves, |moves|)
    ensures
      var w := worlds[|moves|];
      && x in w.consoles && other in w.consoles && w.consoles[x].state.Browsing? && w.consoles[x].join.active
      && Hosting(w.consoles[other], ips[other]) && HasStation(w.consoles[other], ips[x])
      && (w.consoles[x].join.bssid == w.consoles[other].net.bssid <==> ips[other] == ips[host])
  {
    var t := AsksAround(ips, host, other, x);
    worlds, moves := t.worlds, t.moves;
    if ips[other] != ips[host] && FakeMac(ips[other]) == FakeMac(ips[host]) {
      FakeMacInjective(ips[other], ips[host]);
    }
  }
}
