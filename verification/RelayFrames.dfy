// relay_client.cpp: what a relay frame means - the IPv4/UDP packets the send
// side builds and the way the receive side reads them back.

module RelayFrames {
  import opened Bytes
  import opened Checksum
  import opened Fragments
  import opened SessionRegistry

  const TYPE_KEEPALIVE: byte := 0x00
  const TYPE_IPV4: byte := 0x01
  const TYPE_PING: byte := 0x02
  const TYPE_IPV4_FRAG: byte := 0x03
  const TYPE_SCOPE: byte := 0x20

  const IP_ID_CONTROL: u16 := 0x4243
  const IP_ID_GAME: u16 := 0x474D
  const IP_ID_GAME_V2: u16 := 0x474E

  const DISCOVERY_PORT: u16 := 11452
  const TUNNEL_PORT: u16 := 11453

  const GAME_SHIM_LEN := 8
  const MAX_WRAP_PAYLOAD := 1472
  const SINGLE_FRAME_MAX := 1500

  const BROADCAST: u32 := 0xFFFF_FFFF
  const CONTROL_BROADCAST: u32 := 0x0A0D_FFFF

  /** An address in the relay's virtual network 10.13/16. */
  predicate IsVirtual(ip: u32) {
    ip / 0x1_0000 == 0x0A0D
  }

  /** A console's two addresses: its virtual relay address and its real one. */
  datatype Self = Self(vsrc: u32, rsrc: u32)

  // ---- Building ----

  function RawHeader(src: u32, dst: u32, ipId: u16, total: u16): (h: seq<byte>)
    ensures |h| == 20
  {
    [0x45, 0x00] + Be16(total) + Be16(ipId) + [0x40, 0x00, 64, 17, 0, 0] + Be32(src) + Be32(dst)
  }

  function IpHeader(src: u32, dst: u32, ipId: u16, total: u16): (h: seq<byte>)
    ensures |h| == 20
  {
    var raw := RawHeader(src, dst, ipId, total);
    WithChecksum(raw, 10, 0xFFFF - OnesComplement(WordSum(raw)))
  }

  /** A bare IPv4/UDP packet around payload. */
  function IpPacket(src: u32, dst: u32, sport: u16, dport: u16, ipId: u16, payload: seq<byte>): (p: seq<byte>)
    requires |payload| <= MAX_WRAP_PAYLOAD + GAME_SHIM_LEN
    ensures |p| == 28 + |payload|
  {
    IpHeader(src, dst, ipId, 28 + |payload|)
      + (Be16(sport) + Be16(dport) + Be16(8 + |payload|) + [0, 0]) + payload
  }

  /** The real addresses carried ahead of the payload of a virtually addressed game frame. */
  function Shim(src: u32, dst: u32): (s: seq<byte>)
    ensures |s| == GAME_SHIM_LEN
  {
    Be32(src) + Be32(dst)
  }

  /**
   * The packet a console sends for a game datagram to dst, given the virtual
   * address vdst it knows for the destination (0 = unknown, legacy frame).
   */
  function GamePacket(self: Self, vdst: u32, dst: u32, dport: u16, payload: seq<byte>): seq<byte>
    requires |payload| <= MAX_WRAP_PAYLOAD
  {
    if vdst != 0 then
      IpPacket(self.vsrc, vdst, dport, dport, IP_ID_GAME_V2, Shim(self.rsrc, dst) + payload)
    else
      IpPacket(self.rsrc, dst, dport, dport, IP_ID_GAME, payload)
  }

  function ControlPacket(self: Self, lanPacket: seq<byte>): seq<byte>
    requires |lanPacket| <= MAX_WRAP_PAYLOAD
  {
    IpPacket(self.vsrc, CONTROL_BROADCAST, DISCOVERY_PORT, DISCOVERY_PORT, IP_ID_CONTROL, lanPacket)
  }

  /** How a packet too long for one frame is cut: parts of SEND_PMTU bytes. */
  function SendCutting(packet: seq<byte>): Cutting {
    Cutting(packet, SEND_PMTU, (|packet| + SEND_PMTU - 1) / SEND_PMTU)
  }

  lemma SendCuttingValid(packet: seq<byte>)
    requires 1 <= |packet| <= SLOT_BYTES
    ensures SendCutting(packet).Valid()
  {
  }

  ghost predicate Fragmented(packet: seq<byte>) {
    |packet| + 1 > SINGLE_FRAME_MAX
  }

  /** The relay datagrams that carry a packet. */
  ghost function FramesFor(src: u32, dst: u32, packet: seq<byte>, fragId: u16): seq<seq<byte>>
    requires 1 <= |packet| <= SLOT_BYTES
  {
    if Fragmented(packet) then
      SendCuttingValid(packet);
      FragmentFrames(src, dst, packet, fragId, SendCutting(packet).parts)
    else [[TYPE_IPV4] + packet]
  }

  /** The first n fragment frames of a packet. */
  ghost function FragmentFrames(src: u32, dst: u32, packet: seq<byte>, fragId: u16, n: nat): (fs: seq<seq<byte>>)
    requires SendCutting(packet).Valid() && n <= SendCutting(packet).parts
    ensures |fs| == n
    ensures forall k | 0 <= k < n :: fs[k] == [TYPE_IPV4_FRAG] + SendCutting(packet).Fragment(src, dst, fragId, k)
  {
    if n == 0 then []
    else FragmentFrames(src, dst, packet, fragId, n - 1)
           + [[TYPE_IPV4_FRAG] + SendCutting(packet).Fragment(src, dst, fragId, n - 1)]
  }

  // ---- Reading ----

  /** What the receive path does with one IPv4 packet. */
  datatype Verdict =
    | Drop
    | Discovery(payload: seq<byte>, src: u32)
    | Tunnel(src: u32, payload: seq<byte>)
    | Game(entry: Entry)

  /** Source and payload of a game or tunnel frame; None when it must not be used. */
  function Unshim(self: Self, ipId: u16, src: u32, payload: seq<byte>): Option<(u32, seq<byte>)> {
    if ipId != IP_ID_GAME_V2 then Some((src, payload))
    else if |payload| <= GAME_SHIM_LEN || src == self.vsrc then None
    else Some((ReadBe32(payload, 0), payload[GAME_SHIM_LEN..]))
  }

  predicate FromPeer(snap: Snapshot, src: u32) {
    snap.active && src in snap.peers
  }

  /** ihl of the packet, once the header and the UDP header are known to fit. */
  predicate UdpReadable(ip: seq<byte>) {
    20 <= |ip| && 20 <= ip[0] % 16 * 4 && ip[9] == 17 && ip[0] % 16 * 4 + 8 <= |ip|
  }

  function Classify(self: Self, snap: Snapshot, ip: seq<byte>, maxSize: nat): Verdict {
    if !UdpReadable(ip) then Drop
    else
      var ihl := ip[0] % 16 * 4;
      var src, ipId := ReadBe32(ip, 12), ReadBe16(ip, 4);
      var sport, dport := ReadBe16(ip, ihl), ReadBe16(ip, ihl + 2);
      var payload := ip[ihl + 8..];
      if dport == TUNNEL_PORT then
        var u := Unshim(self, ipId, src, payload);
        if u.Some? && |u.value.1| > 0 && u.value.0 != self.rsrc && FromPeer(snap, u.value.0) then
          Tunnel(u.value.0, u.value.1)
        else Drop
      else if dport == DISCOVERY_PORT then
        if |payload| == 0 || |payload| > maxSize then Drop else Discovery(payload, src)
      else
        var u := Unshim(self, ipId, src, payload);
        if && self.rsrc != 0 && u.Some? && 0 < |u.value.1| <= MAX_WRAP_PAYLOAD
           && u.value.0 != self.rsrc && FromPeer(snap, u.value.0)
        then Game(Entry(u.value.0, sport, dport, u.value.1))
        else Drop
  }

  // ---- What is built is read back ----

  /** Every field of a built packet reads back, lengths included, and its header checksum verifies. */
  lemma PacketReads(src: u32, dst: u32, sport: u16, dport: u16, ipId: u16, payload: seq<byte>)
    requires |payload| <= MAX_WRAP_PAYLOAD + GAME_SHIM_LEN
    ensures
      var p := IpPacket(src, dst, sport, dport, ipId, payload);
      && UdpReadable(p) && p[0] % 16 * 4 == 20
      && ReadBe16(p, 4) == ipId && ReadBe32(p, 12) == src && ReadBe32(p, 16) == dst
      && ReadBe16(p, 20) == sport && ReadBe16(p, 22) == dport
      && ReadBe16(p, 2) == |p| && ReadBe16(p, 24) == |p| - 20
      && p[28..] == payload
      && OnesComplement(WordSum(p[..20])) == 0xFFFF
  {
    var p := IpPacket(src, dst, sport, dport, ipId, payload);
    HeaderReads(src, dst, ipId, 28 + |payload|);
    var h := IpHeader(src, dst, ipId, 28 + |payload|);
    assert p[..20] == h;
    assert p[4..6] == h[4..6] && p[12..16] == h[12..16] && p[16..20] == h[16..20];
    assert p[0] == h[0] && p[9] == h[9];
    ReadsBackBe16(p, 4, ipId);
    ReadsBackBe32(p, 12, src);
    ReadsBackBe32(p, 16, dst);
    assert p[20..22] == Be16(sport) && p[22..24] == Be16(dport) && p[24..26] == Be16(8 + |payload|);
    ReadsBackBe16(p, 20, sport);
    ReadsBackBe16(p, 22, dport);
    assert p[2..4] == h[2..4];
    ReadsBackBe16(p, 2, 28 + |payload|);
    ReadsBackBe16(p, 24, 8 + |payload|);
  }

  lemma HeaderReads(src: u32, dst: u32, ipId: u16, total: u16)
    ensures
      var h := IpHeader(src, dst, ipId, total);
      && h[0] == 0x45 && h[9] == 17 && h[2..4] == Be16(total) && h[4..6] == Be16(ipId)
      && h[12..16] == Be32(src) && h[16..20] == Be32(dst)
      && OnesComplement(WordSum(h)) == 0xFFFF
  {
    var raw := RawHeader(src, dst, ipId, total);
    assert raw[10] == 0 && raw[11] == 0;
    VerifiesIffChecksum(raw, 10, 0xFFFF - OnesComplement(WordSum(raw)));
    var h := IpHeader(src, dst, ipId, total);
    assert h[2..4] == raw[2..4] == Be16(total);
    assert h[4..6] == raw[4..6] && h[12..16] == raw[12..16] && h[16..20] == raw[16..20];
    assert raw[4..6] == Be16(ipId) && raw[12..16] == Be32(src) && raw[16..20] == Be32(dst);
  }

  /** A game datagram, shimmed or legacy, reaches the receiving game as sent, under the sender's real address. */
  lemma GamePacketArrives(from: Self, to: Self, snap: Snapshot, vdst: u32, dst: u32, dport: u16, payload: seq<byte>,
                          maxSize: nat)
    requires 1 <= |payload| <= MAX_WRAP_PAYLOAD && dport != DISCOVERY_PORT && dport != TUNNEL_PORT
    requires to.rsrc != 0 && from.rsrc != to.rsrc && from.vsrc != to.vsrc
    requires FromPeer(snap, from.rsrc)
    ensures Classify(to, snap, GamePacket(from, vdst, dst, dport, payload), maxSize)
         == Game(Entry(from.rsrc, dport, dport, payload))
  {
    if vdst != 0 {
      var shimmed := Shim(from.rsrc, dst) + payload;
      PacketReads(from.vsrc, vdst, dport, dport, IP_ID_GAME_V2, shimmed);
      assert shimmed[0..4] == Be32(from.rsrc);
      ReadsBackBe32(shimmed, 0, from.rsrc);
      assert shimmed[GAME_SHIM_LEN..] == payload;
    } else {
      PacketReads(from.rsrc, dst, dport, dport, IP_ID_GAME, payload);
    }
  }

  /** The same packet is dropped by a console whose session does not list the sender. */
  lemma ForeignPacketDropped(from: Self, to: Self, snap: Snapshot, vdst: u32, dst: u32, dport: u16, payload: seq<byte>,
                             maxSize: nat)
    requires 1 <= |payload| <= MAX_WRAP_PAYLOAD && dport != DISCOVERY_PORT
    requires !FromPeer(snap, from.rsrc)
    ensures Classify(to, snap, GamePacket(from, vdst, dst, dport, payload), maxSize) == Drop
  {
    if vdst != 0 {
      var shimmed := Shim(from.rsrc, dst) + payload;
      PacketReads(from.vsrc, vdst, dport, dport, IP_ID_GAME_V2, shimmed);
      assert shimmed[0..4] == Be32(from.rsrc);
      ReadsBackBe32(shimmed, 0, from.rsrc);
    } else {
      PacketReads(from.rsrc, dst, dport, dport, IP_ID_GAME, payload);
    }
  }

  // ---- Members only ----

  /** Consoles that b's session lists by their real address, b itself apart. */
  ghost predicate Listed(b: Self, snap: Snapshot, a: Self) {
    b.rsrc != 0 && a.rsrc != b.rsrc && FromPeer(snap, a.rsrc)
  }

  /** A game datagram of a can get into b's game, by either addressing. */
  ghost predicate GetsIn(b: Self, snap: Snapshot, a: Self) {
    exists vdst, dst, dport: u16, payload, maxSize ::
      && |payload| <= MAX_WRAP_PAYLOAD
      && Classify(b, snap, GamePacket(a, vdst, dst, dport, payload), maxSize).Game?
  }

  /** b's game gets datagrams of members only. */
  ghost predicate MembersOnly(b: Self, snap: Snapshot, world: set<Self>, members: set<Self>) {
    forall a | a in world && GetsIn(b, snap, a) :: a in members
  }

  lemma OnlyListedGetIn(b: Self, snap: Snapshot, a: Self, vdst: u32, dst: u32, dport: u16, payload: seq<byte>, maxSize: nat)
    requires |payload| <= MAX_WRAP_PAYLOAD && Classify(b, snap, GamePacket(a, vdst, dst, dport, payload), maxSize).Game?
    ensures Listed(b, snap, a)
  {
    if vdst != 0 {
      var shimmed := Shim(a.rsrc, dst) + payload;
      PacketReads(a.vsrc, vdst, dport, dport, IP_ID_GAME_V2, shimmed);
      assert shimmed[0..4] == Be32(a.rsrc);
      ReadsBackBe32(shimmed, 0, a.rsrc);
    } else {
      PacketReads(a.rsrc, dst, dport, dport, IP_ID_GAME, payload);
    }
  }

  /** Some datagram of every listed console gets in: one by real address. */
  lemma ListedGetIn(b: Self, snap: Snapshot, a: Self)
    requires Listed(b, snap, a)
    ensures GetsIn(b, snap, a)
  {
    PacketReads(a.rsrc, 1, 1, 1, IP_ID_GAME, [0]);
    assert Classify(b, snap, GamePacket(a, 0, 1, 1, [0]), 0).Game?;
  }

  /**
   * The filter goes by real address: a console's game gets datagrams of the
   * consoles in its session only, if and only if no outsider has the real
   * address of a listed peer.
   */
  lemma MembersOnlyIff(b: Self, snap: Snapshot, world: set<Self>, members: set<Self>)
    ensures MembersOnly(b, snap, world, members) <==> forall a | a in world && a !in members :: !Listed(b, snap, a)
  {
    forall a | a in world
      ensures GetsIn(b, snap, a) <==> Listed(b, snap, a)
    {
      if Listed(b, snap, a) {
        ListedGetIn(b, snap, a);
      }
      if GetsIn(b, snap, a) {
        var vdst, dst, dport: u16, payload, maxSize :|
          && |payload| <= MAX_WRAP_PAYLOAD
          && Classify(b, snap, GamePacket(a, vdst, dst, dport, payload), maxSize).Game?;
        OnlyListedGetIn(b, snap, a, vdst, dst, dport, payload, maxSize);
      }
    }
  }

  /** A tunnel frame sent as game traffic reaches the tunnel of the peer with its bytes unchanged. */
  lemma TunnelPacketArrives(from: Self, to: Self, snap: Snapshot, vdst: u32, dst: u32, payload: seq<byte>, maxSize: nat)
    requires 1 <= |payload| <= MAX_WRAP_PAYLOAD
    requires from.rsrc != to.rsrc && from.vsrc != to.vsrc && FromPeer(snap, from.rsrc)
    ensures Classify(to, snap, GamePacket(from, vdst, dst, TUNNEL_PORT, payload), maxSize) == Tunnel(from.rsrc, payload)
  {
    if vdst != 0 {
      var shimmed := Shim(from.rsrc, dst) + payload;
      PacketReads(from.vsrc, vdst, TUNNEL_PORT, TUNNEL_PORT, IP_ID_GAME_V2, shimmed);
      assert shimmed[0..4] == Be32(from.rsrc);
      ReadsBackBe32(shimmed, 0, from.rsrc);
      assert shimmed[GAME_SHIM_LEN..] == payload;
    } else {
      PacketReads(from.rsrc, dst, TUNNEL_PORT, TUNNEL_PORT, IP_ID_GAME, payload);
    }
  }

  /** A control packet reaches the discovery layer unchanged, paired with the sender's virtual address; an empty or too long one is dropped. */
  lemma ControlPacketArrives(from: Self, to: Self, snap: Snapshot, lanPacket: seq<byte>, maxSize: nat)
    requires |lanPacket| <= MAX_WRAP_PAYLOAD
    ensures Classify(to, snap, ControlPacket(from, lanPacket), maxSize)
         == if 1 <= |lanPacket| <= maxSize then Discovery(lanPacket, from.vsrc) else Drop
  {
    PacketReads(from.vsrc, CONTROL_BROADCAST, DISCOVERY_PORT, DISCOVERY_PORT, IP_ID_CONTROL, lanPacket);
  }

  /** A virtually addressed frame under our own virtual address is an echo, and dropped whatever real address it carries. */
  lemma OwnAddressDropped(from: Self, self: Self, snap: Snapshot, vdst: u32, dst: u32, dport: u16, payload: seq<byte>, maxSize: nat)
    requires |payload| <= MAX_WRAP_PAYLOAD && vdst != 0 && from.vsrc == self.vsrc && dport != DISCOVERY_PORT
    ensures Classify(self, snap, GamePacket(from, vdst, dst, dport, payload), maxSize) == Drop
  {
    PacketReads(from.vsrc, vdst, dport, dport, IP_ID_GAME_V2, Shim(from.rsrc, dst) + payload);
  }

  // ---- IP options ----

  /** A packet without the options in its header. */
  function WithoutOptions(ip: seq<byte>): seq<byte>
    requires UdpReadable(ip)
  {
    [ip[0] / 16 * 16 + 5] + ip[1..20] + ip[ip[0] % 16 * 4..]
  }

  lemma OptionsGone(ip: seq<byte>)
    requires UdpReadable(ip)
    ensures
      var p, ihl := WithoutOptions(ip), ip[0] % 16 * 4;
      && UdpReadable(p) && p[0] % 16 * 4 == 20 && p[28..] == ip[ihl + 8..]
      && (forall i | 1 <= i < 20 :: p[i] == ip[i]) && (forall i | 20 <= i < 28 :: p[i] == ip[ihl + i - 20])
  {
  }

  /** Options in the header of a received packet make no difference to what is done with it. */
  lemma OptionsIgnored(self: Self, snap: Snapshot, ip: seq<byte>, maxSize: nat)
    requires UdpReadable(ip)
    ensures Classify(self, snap, WithoutOptions(ip), maxSize) == Classify(self, snap, ip, maxSize)
  {
    OptionsGone(ip);
  }
}
