// tools/relay_server.py: the source-learning relay server.

module RelayServer {
  import opened Bytes
  import opened RelayFrames

  const IDLE_TIMEOUT: real := 60.0
  const SCOPE_TIMEOUT: real := 300.0
  const SCOPES_KEPT := 256

  datatype Endpoint = Endpoint(ip: u32, port: u16)

  /** A learned address, under the scope token its sender had. */
  datatype Key = Key(token: u32, vsrc: u32)
  datatype Client = Client(ep: Endpoint, seen: real)
  datatype Declared = Declared(token: u32, at: real)

  type Clients = map<Key, Client>
  type Scopes = map<Endpoint, Declared>

  datatype State = State(clients: Clients, scopes: Scopes, endpoints: set<Endpoint>)

  /** What one datagram makes the server send: the same bytes to each target. */
  datatype Sends = Sends(data: seq<byte>, targets: set<Endpoint>)

  const NOTHING := Sends([], {})

  // ---- Pure helpers of the script ----

  predicate IsBroadcast(dst: u32) {
    dst == BROADCAST || dst % 0x100 == 0xFF
  }

  function UdpDport(payload: seq<byte>): Option<u16> {
    if |payload| < 20 then None
    else
      var ihl := payload[0] % 16 * 4;
      if ihl < 20 || payload[9] != 17 || |payload| < ihl + 4 then None
      else Some(ReadBe16(payload, ihl + 2))
  }

  /** The addresses (and, for a whole packet, the UDP port) a datagram is routed by. */
  datatype Routing = Routing(src: u32, dst: u32, dport: Option<u16>)

  function RoutingOf(data: seq<byte>): Option<Routing> {
    if data == [] then None
    else
      var payload := data[1..];
      if data[0] == TYPE_IPV4 && |payload| >= 20 then
        Some(Routing(ReadBe32(payload, 12), ReadBe32(payload, 16), UdpDport(payload)))
      else if data[0] == TYPE_IPV4_FRAG && |payload| >= 16 then
        Some(Routing(ReadBe32(payload, 0), ReadBe32(payload, 4), None))
      else None
  }

  // ---- Scopes and liveness ----

  predicate Stale(d: Declared, now: real) {
    now - d.at > SCOPE_TIMEOUT
  }

  /** The token an endpoint counts under at a given time; 0 is "no session". */
  function ScopeAt(scopes: Scopes, ep: Endpoint, now: real): u32 {
    if ep in scopes && !Stale(scopes[ep], now) then scopes[ep].token else 0
  }

  function Forget(scopes: Scopes, eps: set<Endpoint>, now: real): Scopes {
    map ep | ep in scopes && !(ep in eps && Stale(scopes[ep], now)) :: scopes[ep]
  }

  function Live(clients: Clients, now: real): Clients {
    map k | k in clients && now - clients[k].seen <= IDLE_TIMEOUT :: clients[k]
  }

  function Others(clients: Clients, exclude: Option<Endpoint>): set<Endpoint> {
    set k | k in clients && exclude != Some(clients[k].ep) :: clients[k].ep
  }

  /** The endpoints a broadcast goes to: all others, or those in the scope and those in none. */
  function Audience(clients: Clients, scopes: Scopes, now: real, exclude: Option<Endpoint>, token: Option<u32>): set<Endpoint> {
    set ep | ep in Others(Live(clients, now), exclude) && InScope(scopes, ep, now, token)
  }

  predicate InScope(scopes: Scopes, ep: Endpoint, now: real, token: Option<u32>) {
    token.Some? ==> ScopeAt(scopes, ep, now) == token.value || ScopeAt(scopes, ep, now) == 0
  }

  // ---- Re-keying ----

  function Owned(clients: Clients, ep: Endpoint, token: u32): set<Key> {
    set k | k in clients && clients[k].ep == ep && k.token == token
  }

  /** Moves the given keys, all under one token, to another token. */
  function Move(clients: Clients, moved: set<Key>, prev: u32, token: u32): Clients
    requires moved <= clients.Keys && forall k :: k in moved ==> k.token == prev
  {
    (clients - moved) + (map k | k in moved :: Key(token, k.vsrc) := clients[k])
  }

  // ---- One datagram ----

  function Greet(s: State, addr: Endpoint, arrived: real): State {
    if addr in s.endpoints then s
    else s.(endpoints := s.endpoints + {addr}, clients := Live(s.clients, arrived))
  }

  function Keepalive(clients: Clients, addr: Endpoint, now: real): Clients {
    map k | k in clients :: if clients[k].ep == addr then Client(addr, now) else clients[k]
  }

  function Declare(s: State, addr: Endpoint, token: u32, now: real): State {
    var prev := ScopeAt(s.scopes, addr, now);
    var scopes := Forget(s.scopes, {addr}, now)[addr := Declared(token, now)];
    var clients := if token == prev then s.clients else Move(s.clients, Owned(s.clients, addr, prev), prev, token);
    s.(clients := clients, scopes := if |scopes| > SCOPES_KEPT then Forget(scopes, scopes.Keys, now) else scopes)
  }

  /** The owner of a unicast destination: under the sender's token first, then unscoped. */
  function Route(clients: Clients, token: u32, dst: u32): Option<Endpoint> {
    if Key(token, dst) in clients then Some(clients[Key(token, dst)].ep)
    else if Key(0, dst) in clients then Some(clients[Key(0, dst)].ep)
    else None
  }

  function Learn(s: State, addr: Endpoint, src: u32, now: real): State {
    s.(clients := s.clients[Key(ScopeAt(s.scopes, addr, now), src) := Client(addr, now)],
       scopes := Forget(s.scopes, {addr}, now))
  }

  /** Whether a broadcast is kept inside the sender's session. */
  function Confined(r: Routing, token: u32): Option<u32> {
    if r.dport == Some(DISCOVERY_PORT) || token == 0 then None else Some(token)
  }

  function Forward(s: State, addr: Endpoint, r: Routing, data: seq<byte>, now: real): (State, Sends) {
    var token := ScopeAt(s.scopes, addr, now);
    var learned := Learn(s, addr, r.src, now);
    if IsBroadcast(r.dst) then
      var scope := Confined(r, token);
      var asked := if scope.None? then {} else Others(Live(learned.clients, now), Some(addr));
      (learned.(clients := Live(learned.clients, now), scopes := Forget(learned.scopes, asked, now)),
       Sends(data, Audience(learned.clients, learned.scopes, now, Some(addr), scope)))
    else
      var owner := Route(learned.clients, token, r.dst);
      (learned, Sends(data, if owner.Some? && owner.value != addr then {owner.value} else {}))
  }

  /** A received datagram; arrived and now are the script's two clock readings. */
  datatype Event = Event(data: seq<byte>, addr: Endpoint, arrived: real, now: real)

  function Step(s: State, e: Event): (State, Sends) {
    if e.data == [] then (s, NOTHING)
    else
      var greeted := Greet(s, e.addr, e.arrived);
      var kind, payload := e.data[0], e.data[1..];
      if kind == TYPE_KEEPALIVE then
        (greeted.(clients := Keepalive(greeted.clients, e.addr, e.now)), NOTHING)
      else if kind == TYPE_PING then
        (greeted, Sends(if |e.data| <= 4 then e.data else e.data[..4], {e.addr}))
      else if kind == TYPE_SCOPE then
        if |payload| < 4 then (greeted, NOTHING)
        else (Declare(greeted, e.addr, ReadBe32(payload, 0), e.now), NOTHING)
      else
        var r := RoutingOf(e.data);
        if r.None? then (greeted, NOTHING)
        else Forward(greeted, e.addr, r.value, e.data, e.now)
  }

  // ---- The script's loops ----

  class Server {
    var clients: Clients
    var scopes: Scopes
    var endpoints: set<Endpoint>

    ghost function View(): State
      reads this
    {
      State(clients, scopes, endpoints)
    }

    constructor ()
      ensures View() == State(map[], map[], {})
    {
      clients, scopes, endpoints := map[], map[], {};
    }

    method ScopeOf(ep: Endpoint, now: real) returns (token: u32)
      modifies this`scopes
      ensures token == ScopeAt(old(scopes), ep, now)
      ensures scopes == Forget(old(scopes), {ep}, now)
    {
      if ep !in scopes {
        assert scopes == Forget(scopes, {ep}, now);
        return 0;
      }
      var entry := scopes[ep];
      if now - entry.at > SCOPE_TIMEOUT {
        scopes := scopes - {ep};
        return 0;
      }
      assert scopes == Forget(scopes, {ep}, now);
      token := entry.token;
    }

    /** Drops idle clients and collects the live endpoints asked for. */
    method ActiveEndpoints(now: real, exclude: Option<Endpoint>, token: Option<u32>) returns (eps: set<Endpoint>)
      modifies this`clients, this`scopes
      ensures clients == Live(old(clients), now)
      ensures eps == Audience(old(clients), old(scopes), now, exclude, token)
      ensures scopes == Forget(old(scopes), if token.None? then {} else Others(clients, exclude), now)
    {
      eps := {};
      var todo := clients.Keys;
      ghost var all, declared := clients, scopes;
      assert scopes == Forget(scopes, {}, now);
      while todo != {}
        invariant todo <= all.Keys
        invariant clients == LiveOr(all, todo, now)
        invariant scopes == Forget(declared, if token.None? then {} else Others(Live(all - todo, now), exclude), now)
        invariant eps == Audience(all - todo, declared, now, exclude, token)
        decreases todo
      {
        var key :| key in todo;
        VisitOne(all, todo, key, declared, now, exclude, token);
        ghost var asked := if token.None? then {} else Others(Live(all - todo, now), exclude);
        todo := todo - {key};
        var client := clients[key];
        if now - client.seen > IDLE_TIMEOUT {
          assert key in clients;
          clients := clients - {key};
          continue;
        }
        if exclude == Some(client.ep) {
          continue;
        }
        if token.Some? {
          ForgetMore(declared, asked, client.ep, now);
          var scope := ScopeOf(client.ep, now);
          if scope != token.value && scope != 0 {
            continue;
          }
        }
        eps := eps + {client.ep};
      }
      assert all - todo == all;
    }

    /** Moves every address this endpoint holds under prev to token; each key it deletes is there. */
    method Rekey(addr: Endpoint, prev: u32, token: u32)
      requires prev != token
      modifies this`clients
      ensures clients == Move(old(clients), Owned(old(clients), addr, prev), prev, token)
    {
      var snapshot := clients;
      var todo := snapshot.Keys;
      MoveNone(snapshot, prev, token);
      while todo != {}
        invariant todo <= snapshot.Keys
        invariant clients == Move(snapshot, Owned(snapshot - todo, addr, prev), prev, token)
        decreases todo
      {
        var key :| key in todo;
        MoveMore(snapshot, todo, key, addr, prev, token);
        todo := todo - {key};
        var client := snapshot[key];
        if client.ep == addr && key.token == prev {
          assert key in clients;
          clients := clients - {key};
          clients := clients[Key(token, key.vsrc) := client];
        }
      }
      assert snapshot - todo == snapshot;
    }

    method Refresh(addr: Endpoint, now: real)
      modifies this`clients
      ensures clients == Keepalive(old(clients), addr, now)
    {
      var snapshot := clients;
      var todo := snapshot.Keys;
      while todo != {}
        invariant todo <= snapshot.Keys
        invariant clients == map k | k in snapshot ::
                    if k !in todo && snapshot[k].ep == addr then Client(addr, now) else snapshot[k]
        decreases todo
      {
        var key :| key in todo;
        todo := todo - {key};
        if snapshot[key].ep == addr {
          clients := clients[key := Client(addr, now)];
        }
      }
    }

    /** Opportunistic cleanup once many declarations have piled up. */
    method DropStaleScopes(now: real)
      modifies this`scopes
      ensures scopes == Forget(old(scopes), old(scopes).Keys, now)
    {
      var todo := set ep | ep in scopes && now - scopes[ep].at > SCOPE_TIMEOUT;
      ghost var stale := todo;
      while todo != {}
        invariant todo <= stale && scopes == old(scopes) - (stale - todo)
        decreases todo
      {
        var ep :| ep in todo;
        todo := todo - {ep};
        assert ep in scopes;
        scopes := scopes - {ep};
      }
    }

    /** One turn of the script's receive loop. */
    method OnDatagram(e: Event) returns (out: Sends)
      modifies this
      ensures (View(), out) == Step(old(View()), e)
    {
      out := NOTHING;
      if e.data == [] {
        return;
      }
      if e.addr !in endpoints {
        endpoints := endpoints + {e.addr};
        var online := ActiveEndpoints(e.arrived, None, None);
        assert scopes == old(scopes);
      }
      var kind, payload := e.data[0], e.data[1..];
      if kind == TYPE_KEEPALIVE {
        Refresh(e.addr, e.now);
        return;
      }
      if kind == TYPE_PING {
        return Sends(if |e.data| <= 4 then e.data else e.data[..4], {e.addr});
      }
      if kind == TYPE_SCOPE {
        if |payload| >= 4 {
          OnScope(e.addr, ReadBe32(payload, 0), e.now);
        }
        return;
      }
      var r := RoutingOf(e.data);
      if r.Some? {
        out := OnFrame(e.addr, r.value, e.data, e.now);
      }
    }

    method OnScope(addr: Endpoint, token: u32, now: real)
      modifies this`clients, this`scopes
      ensures View() == Declare(old(View()), addr, token, now)
    {
      var prev := ScopeOf(addr, now);
      scopes := scopes[addr := Declared(token, now)];
      if token != prev {
        Rekey(addr, prev, token);
      }
      if |scopes| > SCOPES_KEPT {
        DropStaleScopes(now);
      }
    }

    method OnFrame(addr: Endpoint, r: Routing, data: seq<byte>, now: real) returns (out: Sends)
      modifies this`clients, this`scopes
      ensures (View(), out) == Forward(old(View()), addr, r, data, now)
    {
      var token := ScopeOf(addr, now);
      clients := clients[Key(token, r.src) := Client(addr, now)];
      if IsBroadcast(r.dst) {
        var targets;
        if r.dport == Some(DISCOVERY_PORT) || token == 0 {
          targets := ActiveEndpoints(now, Some(addr), None);
        } else {
          targets := ActiveEndpoints(now, Some(addr), Some(token));
        }
        out := Sends(data, targets);
      } else {
        var owner: Option<Client> := None;
        if Key(token, r.dst) in clients {
          owner := Some(clients[Key(token, r.dst)]);
        } else if Key(0, r.dst) in clients {
          owner := Some(clients[Key(0, r.dst)]);
        }
        if owner.Some? && owner.value.ep != addr {
          out := Sends(data, {owner.value.ep});
        } else {
          out := Sends(data, {});
        }
      }
    }
  }

  lemma OthersAdd(clients: Clients, key: Key, client: Client, exclude: Option<Endpoint>)
    requires key !in clients
    ensures Others(clients[key := client], exclude)
         == Others(clients, exclude) + (if exclude == Some(client.ep) then {} else {client.ep})
  {
    var more := clients[key := client];
    forall ep | ep in Others(clients, exclude)
      ensures ep in Others(more, exclude)
    {
      var k :| k in clients && exclude != Some(clients[k].ep) && clients[k].ep == ep;
      assert more[k].ep == ep;
    }
    assert more[key].ep == client.ep;
  }

  /** The clients kept while the keys in todo have not been looked at. */
  ghost function LiveOr(clients: Clients, todo: set<Key>, now: real): Clients {
    map k | k in clients && (k in todo || now - clients[k].seen <= IDLE_TIMEOUT) :: clients[k]
  }

  /** What looking at one more key changes. */
  lemma VisitOne(all: Clients, todo: set<Key>, key: Key, scopes: Scopes, now: real, exclude: Option<Endpoint>, token: Option<u32>)
    requires todo <= all.Keys && key in todo
    ensures
      var c, before, after := all[key], Live(all - todo, now), Live(all - (todo - {key}), now);
      var idle := now - c.seen > IDLE_TIMEOUT;
      && LiveOr(all, todo - {key}, now) == (if idle then LiveOr(all, todo, now) - {key} else LiveOr(all, todo, now))
      && Others(after, exclude) == (if idle || exclude == Some(c.ep) then Others(before, exclude)
                                    else Others(before, exclude) + {c.ep})
      && Audience(all - (todo - {key}), scopes, now, exclude, token)
         == (if idle || exclude == Some(c.ep) || !InScope(scopes, c.ep, now, token)
             then Audience(all - todo, scopes, now, exclude, token)
             else Audience(all - todo, scopes, now, exclude, token) + {c.ep})
  {
    var c, before, after := all[key], Live(all - todo, now), Live(all - (todo - {key}), now);
    if now - c.seen > IDLE_TIMEOUT {
      assert after == before;
    } else {
      assert after == before[key := c];
      OthersAdd(before, key, c, exclude);
    }
  }

  lemma ForgetMore(scopes: Scopes, eps: set<Endpoint>, ep: Endpoint, now: real)
    ensures Forget(Forget(scopes, eps, now), {ep}, now) == Forget(scopes, eps + {ep}, now)
    ensures forall x :: ScopeAt(Forget(scopes, eps, now), x, now) == ScopeAt(scopes, x, now)
  {
  }

  lemma MoveNone(clients: Clients, prev: u32, token: u32)
    ensures Move(clients, {}, prev, token) == clients
    ensures forall addr :: Owned(clients - clients.Keys, addr, prev) == {}
  {
  }

  /** One turn of the re-keying loop. */
  lemma MoveMore(clients: Clients, todo: set<Key>, key: Key, addr: Endpoint, prev: u32, token: u32)
    requires prev != token && todo <= clients.Keys && key in todo
    ensures
      var before, after := Owned(clients - todo, addr, prev), Owned(clients - (todo - {key}), addr, prev);
      if clients[key].ep == addr && key.token == prev then
        Move(clients, after, prev, token)
        == (Move(clients, before, prev, token) - {key})[Key(token, key.vsrc) := clients[key]]
      else after == before
  {
    var before, after := Owned(clients - todo, addr, prev), Owned(clients - (todo - {key}), addr, prev);
    if clients[key].ep == addr && key.token == prev {
      assert after == before + {key};
      MoveAdd(clients, before, key, prev, token);
    } else {
      assert after == before;
    }
  }

  lemma MoveAdd(clients: Clients, moved: set<Key>, key: Key, prev: u32, token: u32)
    requires prev != token && moved <= clients.Keys && forall k :: k in moved ==> k.token == prev
    requires key in clients && key !in moved && key.token == prev
    ensures Move(clients, moved + {key}, prev, token)
         == (Move(clients, moved, prev, token) - {key})[Key(token, key.vsrc) := clients[key]]
  {
  }
}
