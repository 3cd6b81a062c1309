// That the relay server keeps the consoles it hears from and drops the others:
// who has spoken and keeps saying so is reached, who falls silent is forgotten,
// and probes come back.

module ServerLife {
  import opened Bytes
  import opened RelayFrames
  import opened RelayServer
  import opened ServerRuns
  import RelayTransport
  import TransportRuns

  // ---- Signs of life ----

  /** A datagram that keeps address v of an endpoint alive: a keepalive, or a frame from v. */
  predicate Touches(e: Event, ep: Endpoint, v: u32) {
    e.addr == ep && e.data != [] &&
    (e.data[0] == TYPE_KEEPALIVE || (RoutingOf(e.data).Some? && RoutingOf(e.data).value.src == v))
  }

  function LastTouch(last: real, es: seq<Event>, ep: Endpoint, v: u32): real
    decreases |es|
  {
    if es == [] then last else LastTouch(if Touches(es[0], ep, v) then es[0].now else last, es[1..], ep, v)
  }

  /** At no event was the last sign of life longer ago than the idle timeout. */
  ghost predicate Tended(last: real, es: seq<Event>, ep: Endpoint, v: u32)
    decreases |es|
  {
    es != [] ==>
      && es[0].arrived <= es[0].now && es[0].now - last <= 60.0
      && Tended(if Touches(es[0], ep, v) then es[0].now else last, es[1..], ep, v)
  }

  /** No other endpoint takes the address over. */
  ghost predicate Sole(es: seq<Event>, ep: Endpoint, v: u32) {
    forall i | 0 <= i < |es| && RoutingOf(es[i].data).Some? && RoutingOf(es[i].data).value.src == v :: es[i].addr == ep
  }

  ghost predicate HeldBy(clients: Clients, ep: Endpoint, v: u32) {
    forall k | k in clients && k.vsrc == v :: clients[k].ep == ep
  }

  /** The address is known, for that endpoint only, and was last refreshed at the given time. */
  ghost predicate Held(clients: Clients, ep: Endpoint, v: u32, last: real) {
    HeldBy(clients, ep, v) && exists k :: k in clients && k.vsrc == v && clients[k] == Client(ep, last)
  }

  // ---- One endpoint's keys follow its scope ----

  ghost predicate AgreesOf(s: State, ep: Endpoint, now: real) {
    forall k | k in s.clients && s.clients[k].ep == ep :: k.token == ScopeAt(s.scopes, ep, now)
  }

  /** The declaration behind the endpoint's scoped keys, if it has any, has not aged out. */
  ghost predicate Unlapsed(s: State, ep: Endpoint, now: real) {
    forall k | k in s.clients && s.clients[k].ep == ep && k.token != 0 :: ep in s.scopes ==> !Stale(s.scopes[ep], now)
  }

  /** A run in time order in which the endpoint's own declaration never lapses; others' may. */
  ghost predicate TimelyFor(s: State, from: real, es: seq<Event>, ep: Endpoint)
    decreases |es|
  {
    es != [] ==>
      && from <= es[0].now && Unlapsed(s, ep, es[0].now)
      && TimelyFor(Step(s, es[0]).0, es[0].now, es[1..], ep)
  }

  lemma WaitingAgreesOf(s: State, ep: Endpoint, then_: real, now: real)
    requires AgreesOf(s, ep, then_) && then_ <= now && Unlapsed(s, ep, now)
    ensures AgreesOf(s, ep, now)
  {
  }

  lemma DeclareAgreesOf(s: State, addr: Endpoint, token: u32, now: real, ep: Endpoint)
    requires AgreesOf(s, ep, now)
    ensures AgreesOf(Declare(s, addr, token, now), ep, now)
  {
    var prev := ScopeAt(s.scopes, addr, now);
    DeclareScopes(s, addr, token, now);
    if token != prev {
      MoveFrom(s.clients, Owned(s.clients, addr, prev), prev, token);
    }
  }

  lemma ForwardAgreesOf(s: State, addr: Endpoint, r: Routing, data: seq<byte>, now: real, ep: Endpoint)
    requires AgreesOf(s, ep, now)
    ensures AgreesOf(Forward(s, addr, r, data, now).0, ep, now)
  {
    var token := ScopeAt(s.scopes, addr, now);
    var learned := Learn(s, addr, r.src, now);
    ForgetKeepsScopes(s.scopes, {addr}, now);
    var asked := if Confined(r, token).None? then {} else Others(Live(learned.clients, now), Some(addr));
    ForgetKeepsScopes(learned.scopes, asked, now);
  }

  lemma StepAgreesOf(s: State, e: Event, ep: Endpoint)
    requires AgreesOf(s, ep, e.now)
    ensures AgreesOf(Step(s, e).0, ep, e.now)
  {
    if e.data == [] {
      return;
    }
    var greeted := Greet(s, e.addr, e.arrived);
    assert AgreesOf(greeted, ep, e.now);
    if e.data[0] == TYPE_SCOPE {
      if |e.data| >= 5 {
        DeclareAgreesOf(greeted, e.addr, ReadBe32(e.data[1..], 0), e.now, ep);
      }
    } else if e.data[0] != TYPE_KEEPALIVE && e.data[0] != TYPE_PING && RoutingOf(e.data).Some? {
      ForwardAgreesOf(greeted, e.addr, RoutingOf(e.data).value, e.data, e.now, ep);
    }
  }

  lemma {:induction false} RunsAgreeOf(s: State, from: real, es: seq<Event>, ep: Endpoint)
    requires AgreesOf(s, ep, from) && TimelyFor(s, from, es, ep)
    ensures AgreesOf(Run(s, es), ep, LastTime(from, es))
    decreases |es|
  {
    if es != [] {
      WaitingAgreesOf(s, ep, from, es[0].now);
      StepAgreesOf(s, es[0], ep);
      RunsAgreeOf(Step(s, es[0]).0, es[0].now, es[1..], ep);
    }
  }

  // ---- An address stays known ----

  lemma GreetHolds(s: State, e: Event, ep: Endpoint, v: u32, last: real)
    requires Held(s.clients, ep, v, last) && e.arrived - last <= 60.0
    ensures Held(Greet(s, e.addr, e.arrived).clients, ep, v, last)
  {
    var k :| k in s.clients && k.vsrc == v && s.clients[k] == Client(ep, last);
    assert k in Greet(s, e.addr, e.arrived).clients;
  }

  lemma KeepaliveHolds(clients: Clients, addr: Endpoint, now: real, ep: Endpoint, v: u32, last: real)
    requires Held(clients, ep, v, last)
    ensures Held(Keepalive(clients, addr, now), ep, v, if addr == ep then now else last)
  {
    var k :| k in clients && k.vsrc == v && clients[k] == Client(ep, last);
    assert k in Keepalive(clients, addr, now);
  }

  lemma DeclareHolds(s: State, addr: Endpoint, token: u32, now: real, ep: Endpoint, v: u32, last: real)
    requires AgreesOf(s, ep, now) && Held(s.clients, ep, v, last)
    ensures Held(Declare(s, addr, token, now).clients, ep, v, last)
  {
    var k :| k in s.clients && k.vsrc == v && s.clients[k] == Client(ep, last);
    var t, prev := Declare(s, addr, token, now).clients, ScopeAt(s.scopes, addr, now);
    if token != prev {
      DeclareHeldBy(s, addr, token, now, ep, v);
      var moved := Owned(s.clients, addr, prev);
      if addr == ep {
        assert k in moved && Key(token, v) in t && t[Key(token, v)] == s.clients[k];
      } else {
        assert k in t && t[k] == s.clients[k];
      }
    }
  }

  lemma ForwardHolds(s: State, e: Event, ep: Endpoint, v: u32, last: real)
    requires AgreesOf(s, ep, e.now) && Held(s.clients, ep, v, last) && e.now - last <= 60.0
    requires RoutingOf(e.data).Some? && (RoutingOf(e.data).value.src == v ==> e.addr == ep)
    ensures Held(Forward(s, e.addr, RoutingOf(e.data).value, e.data, e.now).0.clients, ep, v, if Touches(e, ep, v) then e.now else last)
  {
    var k :| k in s.clients && k.vsrc == v && s.clients[k] == Client(ep, last);
    var r, t := RoutingOf(e.data).value, Forward(s, e.addr, RoutingOf(e.data).value, e.data, e.now).0.clients;
    assert k.token == ScopeAt(s.scopes, ep, e.now);
    assert k in t && t[k] == if r.src == v then Client(ep, e.now) else s.clients[k];
  }

  /** Whatever happens, the address stays known as long as it is tended. */
  lemma StepHolds(s: State, e: Event, ep: Endpoint, v: u32, last: real)
    requires AgreesOf(s, ep, e.now) && Held(s.clients, ep, v, last) && Sole([e], ep, v)
    requires e.arrived <= e.now && e.now - last <= 60.0
    ensures Held(Step(s, e).0.clients, ep, v, if Touches(e, ep, v) then e.now else last)
  {
    assert RoutingOf([e][0].data) == RoutingOf(e.data);
    if e.data == [] {
      return;
    }
    var greeted := Greet(s, e.addr, e.arrived);
    GreetHolds(s, e, ep, v, last);
    assert AgreesOf(greeted, ep, e.now);
    if e.data[0] == TYPE_KEEPALIVE {
      KeepaliveHolds(greeted.clients, e.addr, e.now, ep, v, last);
    } else if e.data[0] == TYPE_SCOPE {
      if |e.data| >= 5 {
        DeclareHolds(greeted, e.addr, ReadBe32(e.data[1..], 0), e.now, ep, v, last);
      }
    } else if e.data[0] != TYPE_PING && RoutingOf(e.data).Some? {
      ForwardHolds(greeted, e, ep, v, last);
    }
  }

  lemma {:induction false} RunsHold(s: State, from: real, es: seq<Event>, ep: Endpoint, v: u32, last: real)
    requires AgreesOf(s, ep, from) && TimelyFor(s, from, es, ep)
    requires Held(s.clients, ep, v, last) && Sole(es, ep, v) && Tended(last, es, ep, v)
    ensures Held(Run(s, es).clients, ep, v, LastTouch(last, es, ep, v))
    decreases |es|
  {
    if es != [] {
      WaitingAgreesOf(s, ep, from, es[0].now);
      StepHolds(s, es[0], ep, v, last);
      StepAgreesOf(s, es[0], ep);
      RunsHold(Step(s, es[0]).0, es[0].now, es[1..], ep, v, if Touches(es[0], ep, v) then es[0].now else last);
    }
  }

  lemma DeclareHeldBy(s: State, addr: Endpoint, token: u32, now: real, ep: Endpoint, v: u32)
    requires HeldBy(s.clients, ep, v)
    ensures HeldBy(Declare(s, addr, token, now).clients, ep, v)
  {
    var prev := ScopeAt(s.scopes, addr, now);
    if token != prev {
      MoveFrom(s.clients, Owned(s.clients, addr, prev), prev, token);
    }
  }

  lemma StepHeldBy(s: State, e: Event, ep: Endpoint, v: u32)
    requires HeldBy(s.clients, ep, v) && Sole([e], ep, v)
    ensures HeldBy(Step(s, e).0.clients, ep, v)
  {
    assert RoutingOf([e][0].data) == RoutingOf(e.data);
    if e.data != [] && e.data[0] == TYPE_SCOPE && |e.data| >= 5 {
      DeclareHeldBy(Greet(s, e.addr, e.arrived), e.addr, ReadBe32(e.data[1..], 0), e.now, ep, v);
    }
  }

  lemma {:induction false} RunsHeldBy(s: State, es: seq<Event>, ep: Endpoint, v: u32)
    requires HeldBy(s.clients, ep, v) && Sole(es, ep, v)
    ensures HeldBy(Run(s, es).clients, ep, v)
    decreases |es|
  {
    if es != [] {
      StepHeldBy(s, es[0], ep, v);
      RunsHeldBy(Step(s, es[0]).0, es[1..], ep, v);
    }
  }

  ghost predicate Speaks(e: Event, ep: Endpoint, v: u32) {
    e.addr == ep && RoutingOf(e.data).Some? && RoutingOf(e.data).value.src == v
  }

  lemma SpeakingHolds(s: State, e: Event, ep: Endpoint, v: u32)
    requires HeldBy(s.clients, ep, v) && Speaks(e, ep, v) && e.arrived <= e.now
    ensures Held(Step(s, e).0.clients, ep, v, e.now)
  {
    var greeted, r := Greet(s, ep, e.arrived), RoutingOf(e.data).value;
    StepForwards(s, e);
    var k, t := Key(ScopeAt(greeted.scopes, ep, e.now), v), Step(s, e).0.clients;
    assert k in t && t[k] == Client(ep, e.now);
  }

  /** A run in which ep speaks for address v, which nobody else ever does, and then keeps it alive. */
  ghost predicate KeptAlive(from: real, before: seq<Event>, spoke: Event, after: seq<Event>, ep: Endpoint, v: u32) {
    && TimelyFor(START, from, before, ep) && TimelyFor(Run(START, before), LastTime(from, before), [spoke] + after, ep)
    && Sole(before, ep, v) && Speaks(spoke, ep, v) && spoke.arrived <= spoke.now
    && Sole(after, ep, v) && Tended(spoke.now, after, ep, v)
  }

  lemma KeptAliveHolds(from: real, before: seq<Event>, spoke: Event, after: seq<Event>, ep: Endpoint, v: u32)
    requires KeptAlive(from, before, spoke, after, ep, v)
    ensures
      var s := Run(Run(START, before), [spoke] + after);
      && Held(s.clients, ep, v, LastTouch(spoke.now, after, ep, v))
      && AgreesOf(s, ep, LastTime(spoke.now, after))
  {
    var s0 := Run(START, before);
    RunsHeldBy(START, before, ep, v);
    RunsAgreeOf(START, from, before, ep);
    assert ([spoke] + after)[0] == spoke && ([spoke] + after)[1..] == after;
    WaitingAgreesOf(s0, ep, LastTime(from, before), spoke.now);
    StepAgreesOf(s0, spoke, ep);
    SpeakingHolds(s0, spoke, ep, v);
    RunsHold(Step(s0, spoke).0, spoke.now, after, ep, v, spoke.now);
    RunsAgreeOf(Step(s0, spoke).0, spoke.now, after, ep);
  }

  /** Both are in one scope, or one of them in none. */
  ghost predicate ScopesMeet(a: u32, b: u32) {
    a == b || a == 0 || b == 0
  }

  /** A held, live address is reached by every broadcast its scope lets through. */
  lemma HeldIsAudience(s: State, e: Event, ep: Endpoint, v: u32, last: real)
    requires Held(s.clients, ep, v, last) && e.arrived <= e.now && e.now - last <= 60.0
    requires e.addr != ep && RoutingOf(e.data).Some? && RoutingOf(e.data).value.src != v && IsBroadcast(RoutingOf(e.data).value.dst)
    ensures ep in Step(s, e).1.targets <==>
      || RoutingOf(e.data).value.dport == Some(DISCOVERY_PORT)
      || ScopesMeet(ScopeAt(s.scopes, e.addr, e.now), ScopeAt(s.scopes, ep, e.now))
  {
    var greeted, r := Greet(s, e.addr, e.arrived), RoutingOf(e.data).value;
    StepForwards(s, e);
    GreetHolds(s, e, ep, v, last);
    var learned := Learn(greeted, e.addr, r.src, e.now);
    ForgetKeepsScopes(s.scopes, {e.addr}, e.now);
    var k :| k in greeted.clients && k.vsrc == v && greeted.clients[k] == Client(ep, last);
    var live := Live(learned.clients, e.now);
    assert k in live && live[k].ep == ep;
    assert ep in Others(live, Some(e.addr));
  }

  lemma HeldIsOwner(s: State, e: Event, ep: Endpoint, v: u32, last: real)
    requires AgreesOf(s, ep, e.now) && Held(s.clients, ep, v, last) && e.arrived <= e.now && e.now - last <= 60.0
    requires e.addr != ep && RoutingOf(e.data).Some? && RoutingOf(e.data).value.src != v
    requires RoutingOf(e.data).value.dst == v && !IsBroadcast(v)
    ensures Step(s, e).1.targets
         == (if ScopeAt(s.scopes, ep, e.now) in {0, ScopeAt(s.scopes, e.addr, e.now)} then {ep} else {})
  {
    var greeted := Greet(s, e.addr, e.arrived);
    StepForwards(s, e);
    GreetHolds(s, e, ep, v, last);
    var learned := Learn(greeted, e.addr, RoutingOf(e.data).value.src, e.now);
    var k :| k in greeted.clients && k.vsrc == v && greeted.clients[k] == Client(ep, last);
    assert k.token == ScopeAt(s.scopes, ep, e.now) && k in learned.clients && learned.clients[k] == Client(ep, last);
  }

  /**
   * In every timed run in which its own declaration does not lapse: an endpoint
   * that spoke for an address nobody else speaks for, and since then sent a
   * keepalive or a frame from it at least every sixty seconds, keeps it. Every broadcast of another endpoint
   * reaches it if and only if it is discovery traffic or their scopes meet, and
   * every unicast to the address goes to it if and only if it is in the
   * sender's scope or in none.
   */
  lemma KeptAliveIsReached(from: real, before: seq<Event>, spoke: Event, after: seq<Event>, ep: Endpoint, v: u32, e: Event)
    requires KeptAlive(from, before, spoke, after, ep, v)
    requires e.addr != ep && RoutingOf(e.data).Some? && RoutingOf(e.data).value.src != v
    requires e.arrived <= e.now && LastTime(spoke.now, after) <= e.now
    requires e.now - LastTouch(spoke.now, after, ep, v) <= 60.0
    requires Unlapsed(Run(Run(START, before), [spoke] + after), ep, e.now)
    ensures
      var s, dst := Run(Run(START, before), [spoke] + after), RoutingOf(e.data).value.dst;
      var mine, theirs := ScopeAt(s.scopes, ep, e.now), ScopeAt(s.scopes, e.addr, e.now);
      && (IsBroadcast(dst) ==>
            (ep in Step(s, e).1.targets <==>
               RoutingOf(e.data).value.dport == Some(DISCOVERY_PORT) || ScopesMeet(theirs, mine)))
      && (dst == v && !IsBroadcast(v) ==> Step(s, e).1.targets == if mine in {0, theirs} then {ep} else {})
  {
    var s, last := Run(Run(START, before), [spoke] + after), LastTouch(spoke.now, after, ep, v);
    KeptAliveHolds(from, before, spoke, after, ep, v);
    WaitingAgreesOf(s, ep, LastTime(spoke.now, after), e.now);
    if IsBroadcast(RoutingOf(e.data).value.dst) {
      HeldIsAudience(s, e, ep, v, last);
    } else if RoutingOf(e.data).value.dst == v {
      HeldIsOwner(s, e, ep, v, last);
    }
  }

  // ---- Silence ----

  /** The endpoint sends no keepalive and no frame. */
  ghost predicate Quiet(es: seq<Event>, ep: Endpoint) {
    forall i | 0 <= i < |es| && es[i].addr == ep && es[i].data != [] ::
      es[i].data[0] != TYPE_KEEPALIVE && RoutingOf(es[i].data).None?
  }

  ghost predicate SeenBy(clients: Clients, ep: Endpoint, t: real) {
    forall k | k in clients && clients[k].ep == ep :: clients[k].seen <= t
  }

  lemma DeclareSeenBy(s: State, addr: Endpoint, token: u32, now: real, ep: Endpoint, t: real)
    requires SeenBy(s.clients, ep, t)
    ensures SeenBy(Declare(s, addr, token, now).clients, ep, t)
  {
    var prev := ScopeAt(s.scopes, addr, now);
    if token != prev {
      MoveFrom(s.clients, Owned(s.clients, addr, prev), prev, token);
    }
  }

  lemma ForwardSeenBy(s: State, addr: Endpoint, r: Routing, data: seq<byte>, now: real, ep: Endpoint, t: real)
    requires SeenBy(s.clients, ep, t) && (now <= t || addr != ep)
    ensures SeenBy(Forward(s, addr, r, data, now).0.clients, ep, t)
  {
  }

  lemma KeepaliveSeenBy(clients: Clients, addr: Endpoint, now: real, ep: Endpoint, t: real)
    requires SeenBy(clients, ep, t) && (now <= t || addr != ep)
    ensures SeenBy(Keepalive(clients, addr, now), ep, t)
  {
  }

  lemma StepSeenBy(s: State, e: Event, ep: Endpoint, t: real)
    requires SeenBy(s.clients, ep, t) && (e.now <= t || Quiet([e], ep))
    ensures SeenBy(Step(s, e).0.clients, ep, t)
  {
    assert [e][0] == e;
    if e.data == [] {
      return;
    }
    var greeted := Greet(s, e.addr, e.arrived);
    assert SeenBy(greeted.clients, ep, t);
    if e.data[0] == TYPE_KEEPALIVE {
      KeepaliveSeenBy(greeted.clients, e.addr, e.now, ep, t);
    } else if e.data[0] == TYPE_SCOPE {
      if |e.data| >= 5 {
        DeclareSeenBy(greeted, e.addr, ReadBe32(e.data[1..], 0), e.now, ep, t);
      }
    } else if e.data[0] != TYPE_PING && RoutingOf(e.data).Some? {
      ForwardSeenBy(greeted, e.addr, RoutingOf(e.data).value, e.data, e.now, ep, t);
    }
  }

  lemma {:induction false} RunsSeenBy(s: State, es: seq<Event>, ep: Endpoint, t: real)
    requires SeenBy(s.clients, ep, t) && ((forall i | 0 <= i < |es| :: es[i].now <= t) || Quiet(es, ep))
    ensures SeenBy(Run(s, es).clients, ep, t)
    decreases |es|
  {
    if es != [] {
      StepSeenBy(s, es[0], ep, t);
      RunsSeenBy(Step(s, es[0]).0, es[1..], ep, t);
    }
  }

  /** In every run: no broadcast reaches an endpoint that has sent no keepalive and no frame for over sixty seconds. */
  lemma SilentIsForgotten(before: seq<Event>, t: real, after: seq<Event>, ep: Endpoint, e: Event)
    requires (forall i | 0 <= i < |before| :: before[i].now <= t) && Quiet(after, ep)
    requires e.now - t > 60.0 && RoutingOf(e.data).Some? && IsBroadcast(RoutingOf(e.data).value.dst)
    ensures ep !in Step(Run(Run(START, before), after), e).1.targets
  {
    RunsSeenBy(START, before, ep, t);
    RunsSeenBy(Run(START, before), after, ep, t);
    StepForwards(Run(Run(START, before), after), e);
  }

  // ---- Probes ----

  /**
   * A console's probe comes back to it, and counts as an echo: however many
   * probes went unanswered before, the path is alive again, and stays so
   * through three more unanswered ones.
   */
  lemma ProbeComesBack(s: State, addr: Endpoint, arrived: real, now: real, es: seq<TransportRuns.PathEvent>, more: nat)
    requires more <= 3
    ensures
      var out := Step(s, Event(RelayTransport.PING, addr, arrived, now)).1;
      && out == Sends(RelayTransport.PING, {addr}) && RelayTransport.IsEcho(out.data)
      && var path := TransportRuns.PathAfter(es + [TransportRuns.Probe] + [TransportRuns.Came(out.data)] + Probes(more));
         path.supported && !RelayTransport.IsDead(path)
  {
    var out := Step(s, Event(RelayTransport.PING, addr, arrived, now)).1;
    var run := es + [TransportRuns.Probe] + [TransportRuns.Came(out.data)];
    assert run[|run| - 1] == TransportRuns.Came(out.data);
    MoreProbes(run, more);
  }

  function Probes(n: nat): seq<TransportRuns.PathEvent> {
    seq(n, _ => TransportRuns.Probe)
  }

  lemma {:induction false} MoreProbes(run: seq<TransportRuns.PathEvent>, n: nat)
    ensures TransportRuns.PathAfter(run + Probes(n))
         == RelayTransport.Path(TransportRuns.PathAfter(run).misses + n, TransportRuns.PathAfter(run).supported)
  {
    if n == 0 {
      assert run + Probes(0) == run;
    } else {
      var all := run + Probes(n);
      assert all[..|all| - 1] == run + Probes(n - 1) && all[|all| - 1] == TransportRuns.Probe;
      MoreProbes(run, n - 1);
    }
  }
}
