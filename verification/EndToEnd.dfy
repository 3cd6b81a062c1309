// The relay path composed: a console's send path, the server, and the
// receiving console's path into its game or its discovery layer.

module EndToEnd {
  import opened Bytes
  import opened Fragments
  import opened SessionRegistry
  import opened RelayFrames
  import opened RelayTransport
  import opened RelayServer
  import opened ServerRuns
  import opened LanFraming
  import RelayConfig

  /** A console's virtual address: 10.13 and an acceptable client id. */
  predicate GoodVsrc(v: u32) {
    IsVirtual(v) && !RelayConfig.BadClientId(v % 0x1_0000)
  }

  /** The server never takes an honest console's virtual address for a broadcast. */
  lemma VsrcIsNotBroadcast(v: u32)
    requires GoodVsrc(v)
    ensures !IsBroadcast(v) && v != 0
  {
  }

  // ---- What the server sees of a frame ----

  /** The server routes every frame of a packet, whole or fragmented, by the packet's outer addresses. */
  lemma FrameRouting(src: u32, dst: u32, sport: u16, dport: u16, ipId: u16, payload: seq<byte>, fragId: u16, f: seq<byte>)
    requires |payload| <= MAX_WRAP_PAYLOAD + GAME_SHIM_LEN
    requires f in FramesFor(src, dst, IpPacket(src, dst, sport, dport, ipId, payload), fragId)
    ensures
      var whole := !Fragmented(IpPacket(src, dst, sport, dport, ipId, payload));
      RoutingOf(f) == Some(Routing(src, dst, if whole then Some(dport) else None))
  {
    var p := IpPacket(src, dst, sport, dport, ipId, payload);
    if Fragmented(p) {
      SendCuttingValid(p);
      var cut := SendCutting(p);
      var fs := FragmentFrames(src, dst, p, fragId, cut.parts);
      var k :| 0 <= k < |fs| && fs[k] == f;
      cut.Bounds(k);
      assert f[1..] == cut.Fragment(src, dst, fragId, k);
      FragReadsBack(FragHeader(src, dst, fragId, k, cut.parts, |cut.Part(k)|, cut.pmtu), cut.Part(k));
    } else {
      PacketReads(src, dst, sport, dport, ipId, payload);
      assert f[1..] == p;
    }
  }

  lemma FramesAreIpv4(a: Self, vdst: u32, dst: u32, dport: u16, payload: seq<byte>, fragId: u16, f: seq<byte>)
    requires 1 <= |payload| <= MAX_WRAP_PAYLOAD && f in GameFrames(a, vdst, dst, dport, payload, fragId)
    ensures f != [] && (f[0] == TYPE_IPV4 || f[0] == TYPE_IPV4_FRAG)
  {
    GamePacketSize(a, vdst, dst, dport, payload);
    var packet := GamePacket(a, vdst, dst, dport, payload);
    if Fragmented(packet) {
      SendCuttingValid(packet);
      var fs := FragmentFrames(OuterSource(a, vdst), OuterDestination(vdst, dst), packet, fragId, SendCutting(packet).parts);
      var k :| 0 <= k < |fs| && fs[k] == f;
    }
  }

  /** The frames of a game datagram to a peer whose virtual address is known carry only virtual outer addresses. */
  lemma GameFrameRouting(a: Self, vdst: u32, dst: u32, dport: u16, payload: seq<byte>, fragId: u16, f: seq<byte>)
    requires 1 <= |payload| <= MAX_WRAP_PAYLOAD
    requires f in GameFrames(a, vdst, dst, dport, payload, fragId)
    ensures RoutingOf(f).Some?
    ensures RoutingOf(f).value.src == OuterSource(a, vdst) && RoutingOf(f).value.dst == OuterDestination(vdst, dst)
    ensures RoutingOf(f).value.dport == Some(dport) || RoutingOf(f).value.dport == None
  {
    if vdst != 0 {
      FrameRouting(a.vsrc, vdst, dport, dport, IP_ID_GAME_V2, Shim(a.rsrc, dst) + payload, fragId, f);
    } else {
      FrameRouting(a.rsrc, dst, dport, dport, IP_ID_GAME, payload, fragId, f);
    }
  }

  /**
   * After any honest history, each frame of a game datagram sent to a peer by
   * its virtual address is forwarded unchanged to an endpoint of that peer or
   * to nobody, and to somebody whenever the server has the peer's address in
   * the sender's scope or unscoped, at another endpoint.
   */
  lemma GameFrameReachesPeerOnly(w: World, es: seq<Event>, a: Self, b: Self, ep: Endpoint,
                                 dport: u16, payload: seq<byte>, fragId: u16, f: seq<byte>, arrived: real, now: real)
    requires AllHonest(w, es) && ep in w && w[ep] == a && !IsVirtual(a.rsrc)
    requires GoodVsrc(b.vsrc) && 1 <= |payload| <= MAX_WRAP_PAYLOAD
    requires f in GameFrames(a, b.vsrc, b.rsrc, dport, payload, fragId)
    ensures
      var s := Run(START, es);
      var out := Step(s, Event(f, ep, arrived, now)).1;
      && out.data == f && ep !in out.targets && |out.targets| <= 1
      && (forall x | x in out.targets :: OwnedBy(w, x, b.vsrc))
      && (var token := ScopeAt(s.scopes, ep, now);
          var known := Route(Learn(Greet(s, ep, arrived), ep, a.vsrc, now).clients, token, b.vsrc);
          known.Some? && known.value != ep ==> out.targets == {known.value})
  {
    VsrcIsNotBroadcast(b.vsrc);
    GameFrameRouting(a, b.vsrc, b.rsrc, dport, payload, fragId, f);
    VirtualUnicastIsSafe(w, es, Event(f, ep, arrived, now));
    FramesAreIpv4(a, b.vsrc, b.rsrc, dport, payload, fragId, f);
    StepForwards(Run(START, es), Event(f, ep, arrived, now));
  }

  // ---- Control packets ----

  /** sizeof(NetworkInfo), the largest control payload. */
  const NETWORK_INFO_SIZE := 0x480

  /**
   * No control packet up to NetworkInfo size is ever fragmented, so the server
   * sees its discovery port and lets it cross scopes; the receiver's discovery
   * layer gets exactly the message, paired with the sender's virtual address.
   */
  lemma ControlCrossesScopes(a: Self, b: Self, snap: Snapshot, m: Message, stamp: u16, fragId: u16)
    requires |m.body| <= NETWORK_INFO_SIZE
    ensures
      var lan := Frame(m, stamp);
      && |lan| <= HEADER_SIZE + NETWORK_INFO_SIZE
      && FramesFor(a.vsrc, CONTROL_BROADCAST, ControlPacket(a, lan), fragId) == [[TYPE_IPV4] + ControlPacket(a, lan)]
      && RoutingOf([TYPE_IPV4] + ControlPacket(a, lan)) == Some(Routing(a.vsrc, CONTROL_BROADCAST, Some(DISCOVERY_PORT)))
      && (forall token: u32 :: Confined(Routing(a.vsrc, CONTROL_BROADCAST, Some(DISCOVERY_PORT)), token) == None)
      && Classify(b, snap, ControlPacket(a, lan), BUFFER_SIZE) == Discovery(lan, a.vsrc)
      && Open(lan) == Some(m)
  {
    var lan := Frame(m, stamp);
    FrameFits(m, stamp);
    OpenFrame(m, stamp);
    ControlPacketArrives(a, b, snap, lan, BUFFER_SIZE);
    FrameRouting(a.vsrc, CONTROL_BROADCAST, DISCOVERY_PORT, DISCOVERY_PORT, IP_ID_CONTROL, lan, fragId,
                 [TYPE_IPV4] + ControlPacket(a, lan));
  }

  /** Options in the IPv4 header of a frame make no difference to where the server sends it. */
  lemma OptionsRouteAlike(ip: seq<byte>)
    requires UdpReadable(ip)
    ensures RoutingOf([TYPE_IPV4] + WithoutOptions(ip)) == RoutingOf([TYPE_IPV4] + ip)
  {
    OptionsGone(ip);
    assert ([TYPE_IPV4] + WithoutOptions(ip))[1..] == WithoutOptions(ip) && ([TYPE_IPV4] + ip)[1..] == ip;
  }
}
