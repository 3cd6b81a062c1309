// What the relay server guarantees over whole runs: virtual addresses are
// routed to their owner, and learned keys follow the scopes of their endpoints.

module ServerRuns {
  import opened Bytes
  import opened RelayFrames
  import opened RelayServer

  function Run(s: State, es: seq<Event>): State
    decreases |es|
  {
    if es == [] then s else Run(Step(s, es[0]).0, es[1..])
  }

  const START := State(map[], map[], {})

  /** A packet or fragment frame is learned from and forwarded. */
  lemma StepForwards(s: State, e: Event)
    requires e.data != [] && (e.data[0] == TYPE_IPV4 || e.data[0] == TYPE_IPV4_FRAG) && RoutingOf(e.data).Some?
    ensures Step(s, e) == Forward(Greet(s, e.addr, e.arrived), e.addr, RoutingOf(e.data).value, e.data, e.now)
  {
  }

  // ---- Virtual addresses belong to their console ----

  /**
   * Which console sits behind each endpoint. A console may use any number of
   * endpoints; consoles are told apart by their virtual address, and real
   * addresses may coincide but lie outside the virtual network.
   */
  type World = map<Endpoint, Self>

  /** A console sends frames under its own virtual or real address only. */
  ghost predicate Honest(w: World, e: Event) {
    var r := RoutingOf(e.data);
    r.Some? ==>
      && e.addr in w && !IsVirtual(w[e.addr].rsrc)
      && (r.value.src == w[e.addr].vsrc || r.value.src == w[e.addr].rsrc)
  }

  ghost predicate AllHonest(w: World, es: seq<Event>) {
    forall i | 0 <= i < |es| :: Honest(w, es[i])
  }

  ghost predicate OwnedBy(w: World, ep: Endpoint, v: u32) {
    ep in w && w[ep].vsrc == v
  }

  /** Every learned virtual address points to an endpoint of the console that owns it. */
  ghost predicate RoutesHome(w: World, clients: Clients) {
    forall k | k in clients && IsVirtual(k.vsrc) :: OwnedBy(w, clients[k].ep, k.vsrc)
  }

  /** Every learned address, virtual or real, is one of the console behind its endpoint. */
  ghost predicate Belongs(w: World, clients: Clients) {
    forall k | k in clients :: Speaks(w, clients[k].ep, k.vsrc)
  }

  ghost predicate Speaks(w: World, ep: Endpoint, a: u32) {
    ep in w && !IsVirtual(w[ep].rsrc) && (a == w[ep].vsrc || a == w[ep].rsrc)
  }

  lemma BelongsRoutesHome(w: World, clients: Clients)
    requires Belongs(w, clients)
    ensures RoutesHome(w, clients)
  {
  }

  lemma StepKeepsBelongs(w: World, s: State, e: Event)
    requires Honest(w, e) && Belongs(w, s.clients)
    ensures Belongs(w, Step(s, e).0.clients)
  {
    if e.data == [] {
      return;
    }
    var greeted := Greet(s, e.addr, e.arrived);
    assert Belongs(w, greeted.clients);
    if e.data[0] == TYPE_KEEPALIVE {
      assert Belongs(w, Keepalive(greeted.clients, e.addr, e.now));
    } else if e.data[0] == TYPE_SCOPE {
      if |e.data| >= 5 {
        DeclareKeepsBelongs(w, greeted, e.addr, ReadBe32(e.data[1..], 0), e.now);
      }
    } else if e.data[0] != TYPE_PING && RoutingOf(e.data).Some? {
      ForwardKeepsBelongs(w, greeted, e);
    }
  }

  lemma ForwardKeepsBelongs(w: World, s: State, e: Event)
    requires Honest(w, e) && Belongs(w, s.clients) && RoutingOf(e.data).Some?
    ensures Belongs(w, Forward(s, e.addr, RoutingOf(e.data).value, e.data, e.now).0.clients)
  {
    var learned := Learn(s, e.addr, RoutingOf(e.data).value.src, e.now);
    assert Belongs(w, learned.clients);
  }

  lemma DeclareKeepsBelongs(w: World, s: State, addr: Endpoint, token: u32, now: real)
    requires Belongs(w, s.clients)
    ensures Belongs(w, Declare(s, addr, token, now).clients)
  {
    var prev := ScopeAt(s.scopes, addr, now);
    if token != prev {
      MoveFrom(s.clients, Owned(s.clients, addr, prev), prev, token);
    }
  }

  /** Each entry after a move is an old entry, possibly under another token. */
  lemma MoveFrom(clients: Clients, moved: set<Key>, prev: u32, token: u32)
    requires moved <= clients.Keys && forall k :: k in moved ==> k.token == prev
    ensures forall k | k in Move(clients, moved, prev, token) ::
      var m := Move(clients, moved, prev, token);
      (k.token == token && Key(prev, k.vsrc) in moved && m[k] == clients[Key(prev, k.vsrc)])
      || (k in clients && k !in moved && m[k] == clients[k])
  {
  }

  /**
   * In every run of honest consoles, through learning, re-keying, keepalives
   * and expiry, an address is only ever mapped to a console that has it; a
   * virtual address therefore to its owner.
   */
  lemma {:induction false} RunsRouteHome(w: World, s: State, es: seq<Event>)
    requires AllHonest(w, es) && Belongs(w, s.clients)
    ensures Belongs(w, Run(s, es).clients) && RoutesHome(w, Run(s, es).clients)
    decreases |es|
  {
    if es == [] {
      BelongsRoutesHome(w, s.clients);
    } else {
      StepKeepsBelongs(w, s, es[0]);
      RunsRouteHome(w, Step(s, es[0]).0, es[1..]);
    }
  }

  /** A frame unicast to a virtual address goes to a console that owns it, or nowhere - never back to its sender. */
  lemma UnicastGoesHome(w: World, s: State, e: Event)
    requires Honest(w, e) && RoutesHome(w, s.clients)
    requires RoutingOf(e.data).Some? && !IsBroadcast(RoutingOf(e.data).value.dst)
    requires IsVirtual(RoutingOf(e.data).value.dst)
    ensures
      var out := Step(s, e).1;
      && out.data == e.data && |out.targets| <= 1 && e.addr !in out.targets
      && forall ep | ep in out.targets :: OwnedBy(w, ep, RoutingOf(e.data).value.dst)
  {
    var r := RoutingOf(e.data).value;
    var greeted := Greet(s, e.addr, e.arrived);
    assert RoutesHome(w, Learn(greeted, e.addr, r.src, e.now).clients);
  }

  /** The same over a whole run from the empty server. */
  lemma VirtualUnicastIsSafe(w: World, es: seq<Event>, e: Event)
    requires AllHonest(w, es) && Honest(w, e)
    requires RoutingOf(e.data).Some? && !IsBroadcast(RoutingOf(e.data).value.dst)
    requires IsVirtual(RoutingOf(e.data).value.dst)
    ensures
      var out := Step(Run(START, es), e).1;
      && out.data == e.data && |out.targets| <= 1 && e.addr !in out.targets
      && forall ep | ep in out.targets :: OwnedBy(w, ep, RoutingOf(e.data).value.dst)
  {
    RunsRouteHome(w, START, es);
    UnicastGoesHome(w, Run(START, es), e);
  }

  // ---- Real addresses ----

  /** A bare frame from one address to another. */
  function FrameOf(src: u32, dst: u32): seq<byte> {
    [TYPE_IPV4] + IpPacket(src, dst, 0, 0, 0, [])
  }

  function ScopeMessage(token: u32): seq<byte> {
    [TYPE_SCOPE] + Be32(token)
  }

  lemma FrameRoutes(src: u32, dst: u32)
    ensures RoutingOf(FrameOf(src, dst)) == Some(Routing(src, dst, Some(0)))
  {
    var p := IpPacket(src, dst, 0, 0, 0, []);
    PacketReads(src, dst, 0, 0, 0, []);
    assert FrameOf(src, dst)[1..] == p;
  }

  lemma RunOne(s: State, e: Event)
    ensures Run(s, [e]) == Step(s, e).0
  {
    var t := Step(s, e).0;
    assert [e][1..] == [] && Run(t, []) == t;
  }

  lemma StepFrame(s: State, ep: Endpoint, src: u32, dst: u32, now: real)
    ensures Step(s, Event(FrameOf(src, dst), ep, now, now))
         == Forward(Greet(s, ep, now), ep, Routing(src, dst, Some(0)), FrameOf(src, dst), now)
  {
    FrameRoutes(src, dst);
  }

  lemma StepScope(s: State, ep: Endpoint, token: u32, now: real)
    ensures Step(s, Event(ScopeMessage(token), ep, now, now)) == (Declare(Greet(s, ep, now), ep, token, now), NOTHING)
  {
    var data := ScopeMessage(token);
    assert data[1..] == Be32(token) && data[1..][0..4] == Be32(token);
    ReadsBackBe32(data[1..], 0, token);
  }

  /** Consoles have a virtual address of the relay's network and a real one outside it. */
  ghost predicate WellAddressed(w: World) {
    forall ep | ep in w :: IsVirtual(w[ep].vsrc) && !IsVirtual(w[ep].rsrc)
  }

  ghost predicate AimedAt(e: Event, a: u32) {
    RoutingOf(e.data).Some? && RoutingOf(e.data).value.dst == a
  }

  ghost predicate OnlyTo(w: World, targets: set<Endpoint>, c: Self) {
    forall ep | ep in targets :: ep in w && w[ep] == c
  }

  /** After every honest history, every honest frame to c's real address goes to c or to nobody. */
  ghost predicate RealAddressSafe(w: World, c: Self) {
    forall es: seq<Event>, e | AllHonest(w, es) && Honest(w, e) && AimedAt(e, c.rsrc) ::
      OnlyTo(w, Step(Run(START, es), e).1.targets, c)
  }

  ghost predicate Unshared(w: World, c: Self) {
    forall ep | ep in w && w[ep].rsrc == c.rsrc :: w[ep] == c
  }

  lemma UnsharedIsSafe(w: World, c: Self, es: seq<Event>, e: Event)
    requires WellAddressed(w) && c in w.Values && !IsBroadcast(c.rsrc) && Unshared(w, c)
    requires AllHonest(w, es) && Honest(w, e) && AimedAt(e, c.rsrc)
    ensures OnlyTo(w, Step(Run(START, es), e).1.targets, c)
  {
    RunsRouteHome(w, START, es);
    var s, r := Run(START, es), RoutingOf(e.data).value;
    var learned := Learn(Greet(s, e.addr, e.arrived), e.addr, r.src, e.now);
    assert Belongs(w, learned.clients);
  }

  lemma SharedIsStolen(w: World, c: Self, owner: Endpoint, thief: Endpoint)
    requires WellAddressed(w) && owner in w && thief in w && w[owner] == c && !IsBroadcast(c.rsrc)
    requires w[thief].rsrc == c.rsrc && w[thief] != c
    ensures !RealAddressSafe(w, c)
  {
    var first := Event(FrameOf(c.rsrc, c.rsrc), thief, 0.0, 0.0);
    var e := Event(FrameOf(c.vsrc, c.rsrc), owner, 0.0, 0.0);
    FrameRoutes(c.rsrc, c.rsrc);
    FrameRoutes(c.vsrc, c.rsrc);
    StepFrame(START, thief, c.rsrc, c.rsrc, 0.0);
    var s := Run(START, [first]);
    RunOne(START, first);
    StepFrame(s, owner, c.vsrc, c.rsrc, 0.0);
    assert s.clients[Key(0, c.rsrc)] == Client(thief, 0.0);
    assert Step(s, e).1.targets == {thief};
    assert AllHonest(w, [first]) && Honest(w, e) && AimedAt(e, c.rsrc);
  }

  /**
   * Frames to a real address reach only its owner, whatever honest history
   * went before, if and only if no other console has that address.
   */
  lemma RealUnicastSafeIff(w: World, c: Self)
    requires WellAddressed(w) && c in w.Values && !IsBroadcast(c.rsrc)
    ensures RealAddressSafe(w, c) <==> Unshared(w, c)
  {
    if Unshared(w, c) {
      forall es: seq<Event>, e | AllHonest(w, es) && Honest(w, e) && AimedAt(e, c.rsrc)
        ensures OnlyTo(w, Step(Run(START, es), e).1.targets, c)
      {
        UnsharedIsSafe(w, c, es, e);
      }
    } else {
      var thief :| thief in w && w[thief].rsrc == c.rsrc && w[thief] != c;
      var owner :| owner in w && w[owner] == c;
      SharedIsStolen(w, c, owner, thief);
    }
  }

  /** From the empty server: a third console's frames to a shared real address reach first one owner, then the other. */
  lemma RealAddressesCollide(victim: Endpoint, thief: Endpoint, sender: Endpoint, shared: u32, other: u32)
    requires victim != thief && victim != sender && thief != sender
    requires !IsBroadcast(shared) && !IsBroadcast(other) && shared != other
    ensures
      var from := (ep, src, dst) => Event(FrameOf(src, dst), ep, 0.0, 0.0);
      var ask := from(sender, other, shared);
      && Step(Run(START, [from(victim, shared, other)]), ask).1.targets == {victim}
      && Step(Run(START, [from(victim, shared, other)] + [from(thief, shared, other)]), ask).1.targets == {thief}
  {
    var v, t := Event(FrameOf(shared, other), victim, 0.0, 0.0), Event(FrameOf(shared, other), thief, 0.0, 0.0);
    StepFrame(START, victim, shared, other, 0.0);
    var s := Step(START, v).0;
    RunOne(START, v);
    StepFrame(s, thief, shared, other, 0.0);
    var u := Step(s, t).0;
    assert ([v] + [t])[1..] == [t];
    RunOne(s, t);
    StepFrame(s, sender, other, shared, 0.0);
    StepFrame(u, sender, other, shared, 0.0);
  }

  // ---- Keys follow scopes ----

  /** Every key's token is the current scope of the endpoint it points to. */
  ghost predicate Agrees(s: State, now: real) {
    forall k | k in s.clients :: k.token == ScopeAt(s.scopes, s.clients[k].ep, now)
  }

  lemma ForgetKeepsScopes(scopes: Scopes, eps: set<Endpoint>, now: real)
    ensures forall ep :: ScopeAt(Forget(scopes, eps, now), ep, now) == ScopeAt(scopes, ep, now)
  {
  }

  /** No message breaks the agreement at the time it is handled. */
  lemma StepKeepsAgreement(s: State, e: Event)
    requires Agrees(s, e.now)
    ensures Agrees(Step(s, e).0, e.now)
  {
    if e.data == [] {
      return;
    }
    var greeted := Greet(s, e.addr, e.arrived);
    assert Agrees(greeted, e.now);
    ForgetKeepsScopes(s.scopes, {e.addr}, e.now);
    if e.data[0] == TYPE_SCOPE {
      if |e.data| >= 5 {
        DeclareAgrees(greeted, e.addr, ReadBe32(e.data[1..], 0), e.now);
      }
    } else if e.data[0] != TYPE_KEEPALIVE && e.data[0] != TYPE_PING && RoutingOf(e.data).Some? {
      ForwardAgrees(greeted, e.addr, RoutingOf(e.data).value, e.data, e.now);
    }
  }

  lemma ForwardAgrees(s: State, addr: Endpoint, r: Routing, data: seq<byte>, now: real)
    requires Agrees(s, now)
    ensures Agrees(Forward(s, addr, r, data, now).0, now)
  {
    var token := ScopeAt(s.scopes, addr, now);
    var learned := Learn(s, addr, r.src, now);
    ForgetKeepsScopes(s.scopes, {addr}, now);
    var asked := if Confined(r, token).None? then {} else Others(Live(learned.clients, now), Some(addr));
    ForgetKeepsScopes(learned.scopes, asked, now);
  }

  /** The scopes after a declaration: the declarer's is new, every other is as before. */
  lemma DeclareScopes(s: State, addr: Endpoint, token: u32, now: real)
    ensures forall ep :: ScopeAt(Declare(s, addr, token, now).scopes, ep, now)
                      == if ep == addr then token else ScopeAt(s.scopes, ep, now)
  {
    ForgetKeepsScopes(s.scopes, {addr}, now);
    var scopes := Forget(s.scopes, {addr}, now)[addr := Declared(token, now)];
    ForgetKeepsScopes(scopes, scopes.Keys, now);
  }

  /**
   * Another endpoint's entry k gives way to a declaration: the declaring
   * endpoint holds the same address under its old token, and k is under the new.
   */
  predicate Displaced(s: State, addr: Endpoint, token: u32, now: real, k: Key) {
    var prev := ScopeAt(s.scopes, addr, now);
    && prev != token && k.token == token && Key(prev, k.vsrc) in s.clients && s.clients[Key(prev, k.vsrc)].ep == addr
  }

  /**
   * A declaration in an agreeing state moves every address of the endpoint:
   * afterwards each is under the new token, with its idle time, and nothing of
   * the endpoint is left under the old one. Another endpoint's entry is kept
   * unless it is displaced, and then the moved one is in its place.
   */
  lemma DeclareMovesAll(s: State, addr: Endpoint, token: u32, now: real)
    requires Agrees(s, now)
    ensures
      var t, prev := Declare(s, addr, token, now), ScopeAt(s.scopes, addr, now);
      && (forall k | k in s.clients && s.clients[k].ep == addr ::
            k.token == prev && Key(token, k.vsrc) in t.clients && t.clients[Key(token, k.vsrc)] == s.clients[k])
      && (forall k | k in t.clients && t.clients[k].ep == addr :: k.token == token && Key(prev, k.vsrc) in s.clients)
      && (forall k | k in s.clients && s.clients[k].ep != addr ::
            k in t.clients
            && t.clients[k] == if Displaced(s, addr, token, now, k) then s.clients[Key(prev, k.vsrc)] else s.clients[k])
  {
    var t, prev := Declare(s, addr, token, now), ScopeAt(s.scopes, addr, now);
    if token != prev {
      MoveFrom(s.clients, Owned(s.clients, addr, prev), prev, token);
    }
  }

  /** A virtual address is displaced only between two endpoints of the console that owns it. */
  lemma DisplacedIsSameConsole(w: World, s: State, addr: Endpoint, token: u32, now: real, k: Key)
    requires RoutesHome(w, s.clients) && k in s.clients && IsVirtual(k.vsrc) && Displaced(s, addr, token, now, k)
    ensures OwnedBy(w, addr, k.vsrc) && OwnedBy(w, s.clients[k].ep, k.vsrc)
  {
  }

  /**
   * In any state, agreeing or not, a declaration leaves all addresses of the
   * endpoint under the new token if and only if each was under its current
   * scope or under the new token already.
   */
  lemma DeclareMovesAllIff(s: State, addr: Endpoint, token: u32, now: real)
    ensures
      var t, prev := Declare(s, addr, token, now), ScopeAt(s.scopes, addr, now);
      (forall k | k in t.clients && t.clients[k].ep == addr :: k.token == token)
      <==> (forall k | k in s.clients && s.clients[k].ep == addr :: k.token == prev || k.token == token)
  {
    var t, prev := Declare(s, addr, token, now), ScopeAt(s.scopes, addr, now);
    if token != prev {
      MoveFrom(s.clients, Owned(s.clients, addr, prev), prev, token);
      forall k | k in s.clients && s.clients[k].ep == addr && k.token != prev && k.token != token
        ensures k in t.clients && t.clients[k].ep == addr
      {
      }
    }
  }

  lemma DeclareAgrees(s: State, addr: Endpoint, token: u32, now: real)
    requires Agrees(s, now)
    ensures Agrees(Declare(s, addr, token, now), now)
  {
    DeclareScopes(s, addr, token, now);
    DeclareMovesAll(s, addr, token, now);
    var t, prev := Declare(s, addr, token, now), ScopeAt(s.scopes, addr, now);
    if token != prev {
      MoveFrom(s.clients, Owned(s.clients, addr, prev), prev, token);
    }
  }

  /** No declaration behind a scoped key has aged out by the given time. */
  ghost predicate NoneLapsed(s: State, now: real) {
    forall k | k in s.clients && k.token != 0 ::
      s.clients[k].ep in s.scopes ==> !Stale(s.scopes[s.clients[k].ep], now)
  }

  /** Only the passing of time can break the agreement, and exactly when a declaration behind a scoped key ages out. */
  lemma WaitingKeepsAgreementIff(s: State, then_: real, now: real)
    requires Agrees(s, then_) && then_ <= now
    ensures Agrees(s, now) <==> NoneLapsed(s, now)
  {
  }

  /** An endpoint declares t and sends under address v; it declares another scope at a later time, and so does a peer. */
  function Redeclaring(ep: Endpoint, peer: Endpoint, t: u32, other: u32, v: u32, u: u32, later: real): seq<Event> {
    [Event(ScopeMessage(t), ep, 0.0, 0.0), Event(FrameOf(v, u), ep, 290.0, 290.0),
     Event(ScopeMessage(other), ep, later, later), Event(ScopeMessage(other), peer, later, later)]
  }

  lemma RunMore(s: State, e: Event, es: seq<Event>)
    ensures Run(s, [e] + es) == Run(Step(s, e).0, es)
  {
    assert ([e] + es)[1..] == es;
  }

  lemma RunFour(s: State, a: Event, b: Event, c: Event, d: Event)
    ensures Run(s, [a, b, c, d]) == Step(Step(Step(Step(s, a).0, b).0, c).0, d).0
  {
    RunMore(s, a, [b, c, d]);
    RunMore(Step(s, a).0, b, [c, d]);
    RunMore(Step(Step(s, a).0, b).0, c, [d]);
    RunOne(Step(Step(Step(s, a).0, b).0, c).0, d);
    assert [a, b, c, d] == [a] + [b, c, d] && [b, c, d] == [b] + [c, d] && [c, d] == [c] + [d];
  }

  /** What is known of ep after it declared t and sent a frame, or was last heard under k with the given scope. */
  function Only(k: Key, ep: Endpoint, declared: Declared): State {
    State(map[k := Client(ep, 290.0)], map[ep := declared], {ep})
  }

  lemma DeclaredAndHeard(ep: Endpoint, t: u32, v: u32, u: u32)
    requires t != 0 && u != v && !IsBroadcast(u)
    ensures Step(Step(START, Event(ScopeMessage(t), ep, 0.0, 0.0)).0, Event(FrameOf(v, u), ep, 290.0, 290.0)).0
         == Only(Key(t, v), ep, Declared(t, 0.0))
  {
    StepScope(START, ep, t, 0.0);
    var s := Step(START, Event(ScopeMessage(t), ep, 0.0, 0.0)).0;
    assert s == State(map[], map[ep := Declared(t, 0.0)], {ep});
    StepFrame(s, ep, v, u, 290.0);
  }

  /** A fresh declaration by the only endpoint that ever declared anything. */
  lemma DeclareAlone(s: State, addr: Endpoint, token: u32, now: real)
    requires s.scopes.Keys <= {addr}
    ensures Declare(s, addr, token, now).scopes == map[addr := Declared(token, now)]
  {
    var scopes := Forget(s.scopes, {addr}, now)[addr := Declared(token, now)];
    assert scopes == map[addr := Declared(token, now)];
    assert Forget(scopes, scopes.Keys, now) == scopes;
  }

  /** A declaration by an endpoint that holds nothing under its current scope moves nothing. */
  lemma DeclareNothingOwned(s: State, addr: Endpoint, token: u32, now: real)
    requires Owned(s.clients, addr, ScopeAt(s.scopes, addr, now)) == {}
    ensures Declare(s, addr, token, now).clients == s.clients
  {
    MoveNone(s.clients, ScopeAt(s.scopes, addr, now), token);
  }

  lemma DeclaredInTime(ep: Endpoint, t: u32, other: u32, v: u32, later: real)
    requires t != 0 && t != other && 290.0 <= later <= SCOPE_TIMEOUT
    ensures Declare(Only(Key(t, v), ep, Declared(t, 0.0)), ep, other, later) == Only(Key(other, v), ep, Declared(other, later))
  {
    var s := Only(Key(t, v), ep, Declared(t, 0.0));
    DeclareAlone(s, ep, other, later);
    assert Owned(s.clients, ep, t) == {Key(t, v)};
    assert Move(s.clients, {Key(t, v)}, t, other) == map[Key(other, v) := Client(ep, 290.0)];
  }

  lemma DeclaredTooLate(ep: Endpoint, t: u32, other: u32, v: u32, later: real)
    requires t != 0 && other != 0 && SCOPE_TIMEOUT < later <= 350.0
    ensures Declare(Only(Key(t, v), ep, Declared(t, 0.0)), ep, other, later) == Only(Key(t, v), ep, Declared(other, later))
  {
    var s := Only(Key(t, v), ep, Declared(t, 0.0));
    DeclareAlone(s, ep, other, later);
    assert Owned(s.clients, ep, 0) == {};
    DeclareNothingOwned(s, ep, other, later);
  }

  lemma DeclaredAgain(ep: Endpoint, t: u32, other: u32, v: u32, later: real)
    requires t != 0 && other != 0 && t != other && 290.0 <= later <= 350.0
    ensures Step(Only(Key(t, v), ep, Declared(t, 0.0)), Event(ScopeMessage(other), ep, later, later)).0
         == Only(Key(if later <= SCOPE_TIMEOUT then other else t, v), ep, Declared(other, later))
  {
    var s := Only(Key(t, v), ep, Declared(t, 0.0));
    StepScope(s, ep, other, later);
    assert Greet(s, ep, later) == s;
    if later <= SCOPE_TIMEOUT {
      DeclaredInTime(ep, t, other, v, later);
    } else {
      DeclaredTooLate(ep, t, other, v, later);
    }
  }

  lemma PeerDeclares(k: Key, ep: Endpoint, peer: Endpoint, other: u32, later: real)
    requires ep != peer && 290.0 <= later <= 350.0
    ensures
      var s := Step(Only(k, ep, Declared(other, later)), Event(ScopeMessage(other), peer, later, later)).0;
      && s.clients == map[k := Client(ep, 290.0)] && s.endpoints == {ep, peer} && ScopeAt(s.scopes, peer, later) == other
  {
    var was := Only(k, ep, Declared(other, later));
    StepScope(was, peer, other, later);
    var greeted := Greet(was, peer, later);
    assert greeted.clients == was.clients;
    assert Owned(greeted.clients, peer, ScopeAt(greeted.scopes, peer, later)) == {};
    DeclareNothingOwned(greeted, peer, other, later);
    DeclareScopes(greeted, peer, other, later);
  }

  lemma PeerAsks(s: State, k: Key, ep: Endpoint, peer: Endpoint, u: u32, now: real)
    requires s.clients == map[k := Client(ep, 290.0)] && peer in s.endpoints && ep != peer && u != k.vsrc && !IsBroadcast(k.vsrc)
    ensures Step(s, Event(FrameOf(u, k.vsrc), peer, now, now)).1.targets
         == (if k.token == ScopeAt(s.scopes, peer, now) || k.token == 0 then {ep} else {})
  {
    StepFrame(s, peer, u, k.vsrc, now);
  }

  /**
   * An endpoint whose declaration has aged out when it declares its next scope
   * leaves its addresses behind under the old token: a peer in the new scope
   * reaches it if and only if the declaration came in time.
   */
  lemma LapseStrandsKeys(ep: Endpoint, peer: Endpoint, t: u32, other: u32, v: u32, u: u32, later: real)
    requires ep != peer && t != 0 && other != 0 && t != other && u != v && !IsBroadcast(v) && !IsBroadcast(u)
    requires 290.0 <= later <= 350.0
    ensures
      var s := Run(START, Redeclaring(ep, peer, t, other, v, u, later));
      && Step(s, Event(FrameOf(u, v), peer, later, later)).1.targets == (if later <= SCOPE_TIMEOUT then {ep} else {})
      && (Key(t, v) in s.clients <==> later > SCOPE_TIMEOUT)
  {
    var es := Redeclaring(ep, peer, t, other, v, u, later);
    RunFour(START, es[0], es[1], es[2], es[3]);
    DeclaredAndHeard(ep, t, v, u);
    DeclaredAgain(ep, t, other, v, later);
    var key := Key(if later <= SCOPE_TIMEOUT then other else t, v);
    PeerDeclares(key, ep, peer, other, later);
    PeerAsks(Run(START, es), key, ep, peer, u, later);
  }

  /** A run whose events arrive in time order, none after a lapse. */
  ghost predicate Timely(s: State, from: real, es: seq<Event>)
    decreases |es|
  {
    es != [] ==>
      && from <= es[0].now && NoneLapsed(s, es[0].now)
      && Timely(Step(s, es[0]).0, es[0].now, es[1..])
  }

  /** When the last event was handled. */
  function LastTime(from: real, es: seq<Event>): real
    decreases |es|
  {
    if es == [] then from else LastTime(es[0].now, es[1..])
  }

  lemma {:induction false} RunsAgree(s: State, from: real, es: seq<Event>)
    requires Agrees(s, from) && Timely(s, from, es)
    ensures Agrees(Run(s, es), LastTime(from, es))
    decreases |es|
  {
    if es != [] {
      WaitingKeepsAgreementIff(s, from, es[0].now);
      StepKeepsAgreement(s, es[0]);
      RunsAgree(Step(s, es[0]).0, es[0].now, es[1..]);
    }
  }

  // ---- What agreement buys ----

  /** The endpoints with a live address under one of two tokens, the sender excepted. */
  ghost function Holders(clients: Clients, now: real, addr: Endpoint, t: u32): set<Endpoint> {
    set k | k in Live(clients, now) && clients[k].ep != addr && (k.token == t || k.token == 0) :: clients[k].ep
  }

  /** What the sender's own frame leaves of the entries: the one under its token and address becomes its own. */
  function Besides(s: State, addr: Endpoint, src: u32, now: real): Clients {
    s.clients - {Key(ScopeAt(s.scopes, addr, now), src)}
  }

  /**
   * A game broadcast from scope t reaches exactly the live other endpoints
   * with an address under t or unscoped; discovery and unscoped senders reach
   * every live other endpoint. An endpoint whose only entry is the one under
   * the sender's own token and address has just lost it to the sender.
   */
  lemma BroadcastAudience(s: State, addr: Endpoint, r: Routing, data: seq<byte>, now: real)
    requires Agrees(s, now) && IsBroadcast(r.dst)
    ensures
      var t, out := ScopeAt(s.scopes, addr, now), Forward(s, addr, r, data, now).1;
      var rest := Besides(s, addr, r.src, now);
      && out.data == data && addr !in out.targets
      && (r.dport == Some(DISCOVERY_PORT) || t == 0 ==> out.targets == Others(Live(rest, now), Some(addr)))
      && (r.dport != Some(DISCOVERY_PORT) && t != 0 ==> out.targets == Holders(rest, now, addr, t))
  {
    var t := ScopeAt(s.scopes, addr, now);
    var learned, rest := Learn(s, addr, r.src, now), Besides(s, addr, r.src, now);
    ForgetKeepsScopes(s.scopes, {addr}, now);
    LearnKeepsOthers(s, addr, r.src, now);
    HoldersAreInScope(s.(clients := rest), addr, now, t);
    assert forall ep :: InScope(learned.scopes, ep, now, Some(t)) <==> InScope(s.scopes, ep, now, Some(t));
  }

  /** Learning the sender's address leaves the other entries as they were. */
  lemma LearnKeepsOthers(s: State, addr: Endpoint, src: u32, now: real)
    ensures Others(Live(Learn(s, addr, src, now).clients, now), Some(addr)) == Others(Live(Besides(s, addr, src, now), now), Some(addr))
  {
    var before, after := Live(Besides(s, addr, src, now), now), Live(Learn(s, addr, src, now).clients, now);
    forall ep
      ensures ep in Others(after, Some(addr)) <==> ep in Others(before, Some(addr))
    {
      if ep in Others(after, Some(addr)) {
        var k :| k in after && Some(addr) != Some(after[k].ep) && after[k].ep == ep;
        assert before[k].ep == ep;
      }
      if ep in Others(before, Some(addr)) {
        var k :| k in before && Some(addr) != Some(before[k].ep) && before[k].ep == ep;
        assert after[k].ep == ep;
      }
    }
  }

  lemma HoldersAreInScope(s: State, addr: Endpoint, now: real, t: u32)
    requires Agrees(s, now)
    ensures Holders(s.clients, now, addr, t)
         == set ep | ep in Others(Live(s.clients, now), Some(addr)) && InScope(s.scopes, ep, now, Some(t))
  {
    var live := Live(s.clients, now);
    forall ep
      ensures ep in Holders(s.clients, now, addr, t)
         <==> ep in Others(live, Some(addr)) && InScope(s.scopes, ep, now, Some(t))
    {
      if ep in Others(live, Some(addr)) && InScope(s.scopes, ep, now, Some(t)) {
        var k :| k in live && Some(addr) != Some(live[k].ep) && live[k].ep == ep;
        assert live[k].ep != addr && (k.token == t || k.token == 0);
      }
    }
  }

  /**
   * A peer that is already in scope t reaches an unscoped endpoint's address
   * through the unscoped table, and still reaches it after the endpoint
   * declares t itself.
   */
  lemma UnicastSurvivesJoin(s: State, addr: Endpoint, t: u32, v: u32, now: real)
    requires Agrees(s, now) && ScopeAt(s.scopes, addr, now) == 0
    requires Key(0, v) in s.clients && s.clients[Key(0, v)].ep == addr
    requires Key(t, v) in s.clients ==> s.clients[Key(t, v)].ep == addr
    ensures Route(s.clients, t, v) == Some(addr)
    ensures Route(Declare(s, addr, t, now).clients, t, v) == Some(addr)
  {
    DeclareMovesAll(s, addr, t, now);
  }

  /** When the endpoint leaves its session again, peers still inside reach it through the unscoped table. */
  lemma UnicastSurvivesLeave(s: State, addr: Endpoint, t: u32, v: u32, now: real)
    requires Agrees(s, now) && ScopeAt(s.scopes, addr, now) == t
    requires Key(t, v) in s.clients && s.clients[Key(t, v)].ep == addr
    ensures Route(s.clients, t, v) == Some(addr)
    ensures Route(Declare(s, addr, 0, now).clients, t, v) == Some(addr)
  {
    DeclareMovesAll(s, addr, 0, now);
    var d := Declare(s, addr, 0, now);
    if t != 0 && Key(t, v) in d.clients {
      assert d.clients[Key(t, v)].ep != addr;
      MoveFrom(s.clients, Owned(s.clients, addr, t), t, 0);
    }
  }
}
