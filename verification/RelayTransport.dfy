// relay_client.cpp: RelayTransport - building and sending relay frames, the
// map from real to virtual addresses, and the receive path into the game ring.

module RelayTransport {
  import opened Bytes
  import opened Checksum
  import opened Fragments
  import opened SessionRegistry
  import opened RelayFrames

  const PEER_MAP_MAX := 16
  const PING_MAX_MISSES := 4
  const PING: seq<byte> := [TYPE_PING, 0x6C, 0x64, 0x6E]

  datatype PeerAddr = PeerAddr(realIp: u32, vsrc: u32)

  /** The virtual address recorded for a real one, 0 if none. */
  function Lookup(peers: seq<PeerAddr>, realIp: u32): u32 {
    if peers == [] then 0
    else if peers[0].realIp == realIp then peers[0].vsrc
    else Lookup(peers[1..], realIp)
  }

  ghost predicate DistinctReals(peers: seq<PeerAddr>) {
    forall i, j | 0 <= i < j < |peers| :: peers[i].realIp == peers[j].realIp ==> peers[i].realIp == 0
  }

  /** Unused entries are zero; used ones hold a virtual address. */
  ghost predicate WellFormed(peers: seq<PeerAddr>) {
    forall i | 0 <= i < |peers| ::
      if peers[i].realIp == 0 then peers[i].vsrc == 0 else IsVirtual(peers[i].vsrc)
  }

  lemma LookupAt(peers: seq<PeerAddr>, i: nat)
    requires i < |peers| && peers[i].realIp != 0 && DistinctReals(peers)
    ensures Lookup(peers, peers[i].realIp) == peers[i].vsrc
  {
    if i > 0 {
      assert peers[0].realIp != peers[i].realIp;
      assert forall j, k | 0 <= j < k < |peers[1..]| :: peers[1..][j] == peers[j + 1] && peers[1..][k] == peers[k + 1];
      LookupAt(peers[1..], i - 1);
    }
  }

  lemma LookupAbsent(peers: seq<PeerAddr>, realIp: u32)
    requires forall i | 0 <= i < |peers| :: peers[i].realIp != realIp
    ensures Lookup(peers, realIp) == 0
  {
    if peers != [] {
      LookupAbsent(peers[1..], realIp);
    }
  }

  /** Changing one entry is invisible to every other address. */
  lemma LookupElsewhere(peers: seq<PeerAddr>, at: nat, e: PeerAddr, realIp: u32)
    requires at < |peers| && realIp != e.realIp && realIp != peers[at].realIp
    ensures Lookup(peers[at := e], realIp) == Lookup(peers, realIp)
  {
    if at > 0 && peers[0].realIp != realIp {
      assert peers[at := e][1..] == peers[1..][at - 1 := e];
      LookupElsewhere(peers[1..], at - 1, e, realIp);
    } else if at == 0 {
      assert peers[at := e][1..] == peers[1..];
    }
  }

  /** Which frames may teach a console a peer's virtual address. */
  predicate Teaches(self: Self, realIp: u32, vsrc: u32) {
    realIp != 0 && realIp != self.rsrc && vsrc != 0 && vsrc != self.vsrc && IsVirtual(vsrc)
  }

  /** The first entry of a real address. */
  function EntryOf(peers: seq<PeerAddr>, realIp: u32): (i: nat)
    ensures i <= |peers|
    ensures i < |peers| ==> peers[i].realIp == realIp
    ensures forall k | 0 <= k < i :: peers[k].realIp != realIp
  {
    if peers == [] || peers[0].realIp == realIp then 0 else 1 + EntryOf(peers[1..], realIp)
  }

  /** The learned addresses, and the entry the next new one takes. */
  datatype PeerMap = PeerMap(peers: seq<PeerAddr>, next: nat)

  function Learned(self: Self, m: PeerMap, realIp: u32, vsrc: u32): PeerMap
    requires m.next < |m.peers|
  {
    var i := EntryOf(m.peers, realIp);
    if !Teaches(self, realIp, vsrc) then m
    else if i < |m.peers| then m.(peers := m.peers[i := PeerAddr(realIp, vsrc)])
    else PeerMap(m.peers[m.next := PeerAddr(realIp, vsrc)], (m.next + 1) % |m.peers|)
  }

  /** Probes of the server since it was last heard, and whether it ever answered one. */
  datatype Path = Path(misses: nat, supported: bool)

  function Probed(p: Path): Path {
    p.(misses := p.misses + 1)
  }

  predicate IsEcho(datagram: seq<byte>) {
    datagram != [] && datagram[0] % 0x80 == TYPE_PING
  }

  function HeardFrom(p: Path, datagram: seq<byte>): Path {
    Path(0, p.supported || IsEcho(datagram))
  }

  predicate IsDead(p: Path) {
    p.supported && p.misses >= PING_MAX_MISSES
  }

  class RelayTransport {
    const self: Self
    var isOpen: bool
    var fragSendId: u16
    var pingMisses: nat
    var pingSupported: bool
    const peers: array<PeerAddr>
    var peerNext: nat
    const frags: Reassembler

    ghost predicate Valid()
      reads this, peers, frags
    {
      && peers.Length == PEER_MAP_MAX && peerNext < PEER_MAP_MAX
      && DistinctReals(peers[..]) && WellFormed(peers[..])
      && frags.Valid() && frags.slots as object != peers
    }

    constructor (self: Self)
      ensures Valid() && fresh(frags) && fresh(peers) && fresh(frags.slots)
      ensures this.self == self && isOpen && PathState() == Path(0, false)
      ensures Map() == PeerMap(seq(PEER_MAP_MAX, _ => PeerAddr(0, 0)), 0)
    {
      this.self := self;
      pingMisses, pingSupported := 0, false;
      isOpen, fragSendId, peerNext := true, 0, 0;
      peers := new PeerAddr[PEER_MAP_MAX](_ => PeerAddr(0, 0));
      frags := new Reassembler();
    }

    method LookupVsrc(realIp: u32) returns (vsrc: u32)
      requires Valid()
      ensures vsrc == Lookup(peers[..], realIp)
    {
      assert peers[0..] == peers[..];
      for i := 0 to peers.Length
        invariant Lookup(peers[..], realIp) == Lookup(peers[i..], realIp)
      {
        if peers[i].realIp == realIp {
          return peers[i].vsrc;
        }
        assert peers[i..][1..] == peers[i + 1..];
      }
      vsrc := 0;
    }

    ghost function Map(): PeerMap
      reads this, peers
    {
      PeerMap(peers[..], peerNext)
    }

    function PathState(): Path
      reads this
    {
      Path(pingMisses, pingSupported)
    }

    method LearnPeer(realIp: u32, vsrc: u32)
      requires Valid()
      modifies peers, this`peerNext
      ensures Valid() && Map() == Learned(self, old(Map()), realIp, vsrc)
      ensures Teaches(self, realIp, vsrc) ==> Lookup(peers[..], realIp) == vsrc
      ensures Teaches(self, realIp, vsrc) ==> forall r: u32 :: r != realIp ==>
        Lookup(peers[..], r) == old(Lookup(peers[..], r)) ||
        (r == old(peers[peerNext].realIp) && old(Lookup(peers[..], realIp)) == 0 && Lookup(peers[..], r) == 0)
    {
      if realIp == 0 || realIp == self.rsrc || vsrc == 0 || vsrc == self.vsrc || !IsVirtual(vsrc) {
        return;
      }
      for i := 0 to peers.Length
        invariant peers[..] == old(peers[..])
        invariant forall j | 0 <= j < i :: peers[j].realIp != realIp
      {
        if peers[i].realIp == realIp {
          Replace(i, PeerAddr(realIp, vsrc));
          return;
        }
      }
      LookupAbsent(peers[..], realIp);
      Replace(peerNext, PeerAddr(realIp, vsrc));
      peerNext := (peerNext + 1) % PEER_MAP_MAX;
    }

    /** Overwrites one entry; its former address, if another, is forgotten. */
    method Replace(at: nat, e: PeerAddr)
      requires Valid() && at < PEER_MAP_MAX
      requires e.realIp != 0 && IsVirtual(e.vsrc)
      requires forall j | 0 <= j < PEER_MAP_MAX && j != at :: peers[j].realIp != e.realIp
      modifies peers
      ensures Valid() && peers[..] == old(peers[..])[at := e]
      ensures Lookup(peers[..], e.realIp) == e.vsrc
      ensures forall r: u32 :: r != e.realIp ==>
        Lookup(peers[..], r) == if r == old(peers[at].realIp) then 0 else old(Lookup(peers[..], r))
    {
      ghost var before := peers[..];
      peers[at] := e;
      assert peers[..] == before[at := e];
      LookupAt(peers[..], at);
      forall r: u32 | r != e.realIp
        ensures Lookup(peers[..], r) == if r == before[at].realIp then 0 else Lookup(before, r)
      {
        if r != before[at].realIp {
          LookupElsewhere(before, at, e, r);
        } else if r == 0 {
          LookupZero(peers[..]);
        } else {
          LookupAbsent(peers[..], r);
        }
      }
    }

    method SendFragmented(src: u32, dst: u32, packet: seq<byte>) returns (frames: seq<seq<byte>>)
      requires Valid() && 1 <= |packet| <= SLOT_BYTES && Fragmented(packet)
      modifies this`fragSendId
      ensures Valid() && fragSendId == Low16(old(fragSendId) + 1)
      ensures frames == FramesFor(src, dst, packet, old(fragSendId))
    {
      SendCuttingValid(packet);
      ghost var cut := SendCutting(packet);
      var parts := (|packet| + SEND_PMTU - 1) / SEND_PMTU;
      var id := fragSendId;
      fragSendId := Low16(fragSendId + 1);
      frames := [];
      for part := 0 to parts
        invariant frames == FragmentFrames(src, dst, packet, id, part)
        invariant fragSendId == Low16(id as int + 1)
      {
        var off := SEND_PMTU * part;
        var remaining := |packet| - off;
        var chunk := if remaining < SEND_PMTU then remaining else SEND_PMTU;
        cut.Bounds(part);
        assert packet[off..off + chunk] == cut.Part(part);
        var header := FragHeader(src, dst, id, part, parts, chunk, SEND_PMTU);
        frames := frames + [[TYPE_IPV4_FRAG] + (HeaderBytes(header) + packet[off..off + chunk])];
      }
    }

    /** The IPv4/UDP packet around a payload, checksum filled in. */
    method Wrap(src: u32, dst: u32, sport: u16, dport: u16, ipId: u16, payload: seq<byte>) returns (ip: seq<byte>)
      requires |payload| <= MAX_WRAP_PAYLOAD + GAME_SHIM_LEN
      ensures ip == IpPacket(src, dst, sport, dport, ipId, payload)
    {
      var udplen: u16 := 8 + |payload|;
      var total: u16 := 20 + udplen;
      var header := RawHeader(src, dst, ipId, total);
      var cs := IpChecksum(header);
      header := header[10 := cs / 0x100][11 := cs % 0x100];
      assert header == IpHeader(src, dst, ipId, total);
      ip := header + (Be16(sport) + Be16(dport) + Be16(udplen) + [0, 0]) + payload;
    }

    method SendWrapped(src: u32, dst: u32, sport: u16, dport: u16, ipId: u16, payload: seq<byte>)
      returns (frames: seq<seq<byte>>)
      requires Valid() && |payload| <= MAX_WRAP_PAYLOAD + GAME_SHIM_LEN
      modifies this`fragSendId
      ensures Valid()
      ensures frames == FramesFor(src, dst, IpPacket(src, dst, sport, dport, ipId, payload), old(fragSendId))
    {
      var ip := Wrap(src, dst, sport, dport, ipId, payload);
      if |ip| + 1 > SINGLE_FRAME_MAX {
        frames := SendFragmented(src, dst, ip);
      } else {
        frames := [[TYPE_IPV4] + ip];
      }
    }

    /** Announces a LAN packet to every console; None is the -1 of a closed transport or an oversized packet. */
    method SendBroadcast(lanPacket: seq<byte>) returns (frames: Option<seq<seq<byte>>>)
      requires Valid()
      modifies this`fragSendId
      ensures Valid()
      ensures frames.None? <==> !isOpen || |lanPacket| > MAX_WRAP_PAYLOAD
      ensures frames.Some? ==>
        frames.value == FramesFor(self.vsrc, CONTROL_BROADCAST, ControlPacket(self, lanPacket), old(fragSendId))
    {
      if !isOpen || |lanPacket| > MAX_WRAP_PAYLOAD {
        return None;
      }
      var fs := SendWrapped(self.vsrc, CONTROL_BROADCAST, DISCOVERY_PORT, DISCOVERY_PORT, IP_ID_CONTROL, lanPacket);
      frames := Some(fs);
    }

    /** The outer destination a game datagram to dst is routed by; 0 means the real address is used. */
    ghost function VirtualDestination(dst: u32): u32
      reads this, peers, frags
      requires Valid()
    {
      if dst == BROADCAST then BROADCAST else Lookup(peers[..], dst)
    }

    method SendGameUnicast(payload: seq<byte>, dport: u16, dst: u32) returns (frames: Option<seq<seq<byte>>>)
      requires Valid()
      modifies this`fragSendId
      ensures Valid()
      ensures frames.None? <==> !isOpen || self.rsrc == 0 || |payload| == 0 || |payload| > MAX_WRAP_PAYLOAD
      ensures frames.Some? ==>
        var vdst := old(VirtualDestination(dst));
        frames.value == GameFrames(self, vdst, dst, dport, payload, old(fragSendId))
    {
      if !isOpen || self.rsrc == 0 || |payload| == 0 || |payload| > MAX_WRAP_PAYLOAD {
        return None;
      }
      var vdst: u32 := BROADCAST;
      if dst != BROADCAST {
        vdst := LookupVsrc(dst);
      }
      var fs;
      if vdst != 0 {
        fs := SendWrapped(self.vsrc, vdst, dport, dport, IP_ID_GAME_V2, Be32(self.rsrc) + Be32(dst) + payload);
      } else {
        fs := SendWrapped(self.rsrc, dst, dport, dport, IP_ID_GAME, payload);
      }
      frames := Some(fs);
    }

    method SendGameBroadcast(payload: seq<byte>, dport: u16) returns (frames: Option<seq<seq<byte>>>)
      requires Valid()
      modifies this`fragSendId
      ensures Valid()
      ensures frames.None? <==> !isOpen || self.rsrc == 0 || |payload| == 0 || |payload| > MAX_WRAP_PAYLOAD
      ensures frames.Some? ==> frames.value == GameFrames(self, BROADCAST, BROADCAST, dport, payload, old(fragSendId))
    {
      frames := SendGameUnicast(payload, dport, BROADCAST);
    }

    method IsPeer(snap: Snapshot, src: u32) returns (found: bool)
      ensures found == FromPeer(snap, src)
    {
      found := false;
      if snap.active {
        for i := 0 to |snap.peers|
          invariant !found && src !in snap.peers[..i]
        {
          if snap.peers[i] == src {
            return true;
          }
        }
      }
    }

    /** The real source and the payload of a frame, behind the shim if it is virtually addressed. */
    method TakeShim(ipId: u16, outer: u32, body: seq<byte>) returns (ok: bool, src: u32, payload: seq<byte>)
      ensures ok <==> Unshim(self, ipId, outer, body).Some?
      ensures ok ==> Unshim(self, ipId, outer, body) == Some((src, payload))
    {
      ok, src, payload := true, outer, body;
      if ipId == IP_ID_GAME_V2 {
        if |payload| <= GAME_SHIM_LEN || src == self.vsrc {
          return false, 0, [];
        }
        src, payload := ReadBe32(payload, 0), payload[GAME_SHIM_LEN..];
      }
    }

    /** Hands a peer's game datagram to the receive ring; everything else is dropped. */
    method InjectGameFrame(ip: seq<byte>, registry: Registry, rx: GameRx) returns (v: Verdict)
      requires UdpReadable(ip) && rx.Valid()
      requires ReadBe16(ip, ip[0] % 16 * 4 + 2) != DISCOVERY_PORT && ReadBe16(ip, ip[0] % 16 * 4 + 2) != TUNNEL_PORT
      modifies rx, rx.ring
      ensures rx.Valid() && v == Classify(self, registry.state, ip, 0) && (v.Drop? || v.Game?)
      ensures rx.Contents() == if v.Game? then DropOldest(old(rx.Contents()), v.entry) else old(rx.Contents())
    {
      if self.rsrc == 0 {
        return Drop;
      }
      var ihl := ip[0] % 16 * 4;
      var sport, dport := ReadBe16(ip, ihl), ReadBe16(ip, ihl + 2);
      var ok, src, payload := TakeShim(ReadBe16(ip, 4), ReadBe32(ip, 12), ip[ihl + 8..]);
      if !ok {
        return Drop;
      }
      if |payload| == 0 || |payload| > MAX_WRAP_PAYLOAD || src == self.rsrc {
        return Drop;
      }
      var known := IsPeer(registry.state, src);
      if !known {
        return Drop;
      }
      var e := Entry(src, sport, dport, payload);
      rx.Push(e);
      v := Game(e);
    }

    /** Routes one bare IPv4 packet: tunnel frame, game frame, or discovery packet for the caller. */
    method ProcessIpv4(ip: seq<byte>, maxSize: nat, registry: Registry, rx: GameRx) returns (v: Verdict)
      requires rx.Valid()
      modifies rx, rx.ring
      ensures rx.Valid() && v == Classify(self, registry.state, ip, maxSize)
      ensures rx.Contents() == if v.Game? then DropOldest(old(rx.Contents()), v.entry) else old(rx.Contents())
    {
      if |ip| < 20 {
        return Drop;
      }
      var ihl := ip[0] % 16 * 4;
      if ihl < 20 || ihl > |ip| || ip[9] != 17 {
        return Drop;
      }
      if |ip| < ihl + 8 {
        return Drop;
      }
      var dport := ReadBe16(ip, ihl + 2);
      if dport == TUNNEL_PORT {
        var ok, src, payload := TakeShim(ReadBe16(ip, 4), ReadBe32(ip, 12), ip[ihl + 8..]);
        if ok && |payload| > 0 && src != self.rsrc {
          var known := IsPeer(registry.state, src);
          if known {
            return Tunnel(src, payload);
          }
        }
        return Drop;
      }
      if dport != DISCOVERY_PORT {
        v := InjectGameFrame(ip, registry, rx);
        return;
      }
      var payload := ip[ihl + 8..];
      v := if |payload| == 0 || |payload| > maxSize then Drop else Discovery(payload, ReadBe32(ip, 12));
    }

    /** Probes the server; None is the -1 of a closed transport. */
    method SendPing() returns (frame: Option<seq<byte>>)
      modifies this`pingMisses
      ensures frame == (if isOpen then Some(PING) else None)
      ensures PathState() == if isOpen then Probed(old(PathState())) else old(PathState())
    {
      if !isOpen {
        return None;
      }
      pingMisses := pingMisses + 1;
      return Some(PING);
    }

    /** The server once answered probes and has not for several. */
    method PathDead() returns (dead: bool)
      ensures dead <==> !isOpen || IsDead(PathState())
    {
      dead := !isOpen || (pingSupported && pingMisses >= PING_MAX_MISSES);
    }

    /** One recv from the server (None when it yields nothing): what it carries, after reassembly. */
    method RecvBroadcast(got: Option<seq<byte>>, maxSize: nat, registry: Registry, rx: GameRx) returns (v: Verdict)
      requires Valid() && rx.Valid() && (got.Some? ==> 1 <= |got.value| <= 2048)
      requires rx.ring as object != frags.slots && rx as object != frags && rx as object != this
      requires rx.ring as object != peers
      modifies this`pingMisses, this`pingSupported, rx, rx.ring, frags, frags.slots
      ensures Valid() && rx.Valid()
      ensures !isOpen || got.None? ==>
        && v == Drop && frags.State() == old(frags.State()) && rx.Contents() == old(rx.Contents())
        && PathState() == old(PathState())
      ensures isOpen && got.Some? ==>
        var a := Unwrap(old(frags.State()), got.value);
        && frags.State() == a.next
        && v == (if a.packet.Some? then Classify(self, old(registry.state), a.packet.value, maxSize) else Drop)
        && PathState() == HeardFrom(old(PathState()), got.value)
      ensures rx.Contents() == if v.Game? then DropOldest(old(rx.Contents()), v.entry) else old(rx.Contents())
    {
      if !isOpen || got.None? {
        return Drop;
      }
      pingMisses := 0;
      var datagram := got.value;
      var ftype := datagram[0] % 0x80;
      if ftype == TYPE_PING {
        pingSupported := true;
        return Drop;
      }
      if ftype == TYPE_IPV4_FRAG {
        var packet := frags.ReassembleFrag(datagram[1..]);
        if packet.None? {
          return Drop;
        }
        v := ProcessIpv4(packet.value, maxSize, registry, rx);
      } else if ftype != TYPE_IPV4 {
        return Drop;
      } else {
        v := ProcessIpv4(datagram[1..], maxSize, registry, rx);
      }
    }
  }

  lemma LookupZero(peers: seq<PeerAddr>)
    requires WellFormed(peers)
    ensures Lookup(peers, 0) == 0
  {
    if peers != [] {
      assert forall i | 0 <= i < |peers[1..]| :: peers[1..][i] == peers[i + 1];
      LookupZero(peers[1..]);
    }
  }

  lemma GamePacketSize(self: Self, vdst: u32, dst: u32, dport: u16, payload: seq<byte>)
    requires |payload| <= MAX_WRAP_PAYLOAD
    ensures 28 <= |GamePacket(self, vdst, dst, dport, payload)| <= 1508
  {
  }

  /** The outer addresses of a game datagram: virtual when the destination's is known, real otherwise. */
  function OuterSource(self: Self, vdst: u32): u32 {
    if vdst != 0 then self.vsrc else self.rsrc
  }

  function OuterDestination(vdst: u32, dst: u32): u32 {
    if vdst != 0 then vdst else dst
  }

  /** The relay datagrams of one game datagram. */
  ghost function GameFrames(self: Self, vdst: u32, dst: u32, dport: u16, payload: seq<byte>, fragId: u16): seq<seq<byte>>
    requires |payload| <= MAX_WRAP_PAYLOAD
  {
    GamePacketSize(self, vdst, dst, dport, payload);
    FramesFor(OuterSource(self, vdst), OuterDestination(vdst, dst), GamePacket(self, vdst, dst, dport, payload), fragId)
  }

  /** What the receive path makes of one datagram before looking at addresses. */
  function Unwrap(c: Collector, datagram: seq<byte>): (a: Arrival)
    requires |c.slots| == FRAG_SLOTS && datagram != []
    ensures |a.next.slots| == FRAG_SLOTS
  {
    var ftype := datagram[0] % 0x80;
    if ftype == TYPE_IPV4_FRAG then Arrive(c, datagram[1..])
    else if ftype == TYPE_IPV4 then Arrival(c, Some(datagram[1..]))
    else Arrival(c, None)
  }
}
