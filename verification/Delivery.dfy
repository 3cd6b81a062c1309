// A game datagram from one console's game to another's, through the server and
// whatever else arrives at the receiver.

module Delivery {
  import opened Bytes
  import opened Fragments
  import opened FragmentRuns
  import opened SessionRegistry
  import opened RelayFrames
  import opened RelayTransport
  import opened RelayServer
  import opened ServerRuns
  import opened EndToEnd

  // ---- What arrives at a console ----

  /** A whole packet, a genuine fragment of one, or a datagram that carries no packet. */
  datatype Arrived = Whole(packet: seq<byte>) | Part(p: Piece) | Other(datagram: seq<byte>)

  ghost predicate Proper(sent: map<FragKey, Cutting>, a: Arrived) {
    match a
    case Whole(_) => true
    case Part(p) => Genuine(sent, p)
    case Other(d) => d != [] && d[0] % 0x80 != TYPE_IPV4 && d[0] % 0x80 != TYPE_IPV4_FRAG
  }

  ghost predicate AllProper(sent: map<FragKey, Cutting>, arrivals: seq<Arrived>) {
    forall i | 0 <= i < |arrivals| :: Proper(sent, arrivals[i])
  }

  ghost function Datagram(sent: map<FragKey, Cutting>, a: Arrived): (d: seq<byte>)
    requires Proper(sent, a)
    ensures d != []
  {
    match a
    case Whole(packet) => [TYPE_IPV4] + packet
    case Part(p) => [TYPE_IPV4_FRAG] + FragmentRuns.Wire(sent, p)
    case Other(d) => d
  }

  /** The reassembly state after some arrivals. */
  ghost function Received(c: Collector, sent: map<FragKey, Cutting>, arrivals: seq<Arrived>): (r: Collector)
    requires |c.slots| == FRAG_SLOTS && AllProper(sent, arrivals)
    ensures |r.slots| == FRAG_SLOTS
  {
    if arrivals == [] then c
    else
      var n := |arrivals| - 1;
      Unwrap(Received(c, sent, arrivals[..n]), Datagram(sent, arrivals[n])).next
  }

  /** What the arrival at position k hands on. */
  ghost function HandedOn(c: Collector, sent: map<FragKey, Cutting>, arrivals: seq<Arrived>, k: nat): Option<seq<byte>>
    requires |c.slots| == FRAG_SLOTS && AllProper(sent, arrivals) && k < |arrivals|
  {
    Unwrap(Received(c, sent, arrivals[..k]), Datagram(sent, arrivals[k])).packet
  }

  ghost function Tracked(g: Progress, sent: map<FragKey, Cutting>, arrivals: seq<Arrived>): Progress
    requires AllProper(sent, arrivals)
  {
    if arrivals == [] then g
    else
      var n := |arrivals| - 1;
      TrackedOne(Tracked(g, sent, arrivals[..n]), sent, arrivals[n])
  }

  /** At every fragment at most four packets are in progress, its own included. */
  ghost predicate AtMostFour(g: Progress, sent: map<FragKey, Cutting>, arrivals: seq<Arrived>)
    requires AllProper(sent, arrivals)
  {
    if arrivals == [] then true
    else
      var n := |arrivals| - 1;
      AtMostFour(g, sent, arrivals[..n]) && HasRoom(Tracked(g, sent, arrivals[..n]), arrivals[n])
  }

  ghost predicate HasRoom(g: Progress, a: Arrived) {
    a.Part? ==> |g.Keys + {a.p.key}| <= FRAG_SLOTS
  }

  /** A whole frame is handed on as it is, whatever else is being reassembled. */
  lemma WholeFrameUnwraps(c: Collector, packet: seq<byte>)
    requires |c.slots| == FRAG_SLOTS
    ensures Unwrap(c, [TYPE_IPV4] + packet) == Arrival(c, Some(packet))
  {
    assert ([TYPE_IPV4] + packet)[1..] == packet;
  }

  /** The frame of one genuine fragment unwraps as its arrival. */
  lemma FragmentFrameUnwraps(c: Collector, sent: map<FragKey, Cutting>, p: Piece)
    requires |c.slots| == FRAG_SLOTS && Genuine(sent, p)
    ensures Unwrap(c, [TYPE_IPV4_FRAG] + FragmentRuns.Wire(sent, p)) == Arrive(c, FragmentRuns.Wire(sent, p))
  {
    assert ([TYPE_IPV4_FRAG] + FragmentRuns.Wire(sent, p))[1..] == FragmentRuns.Wire(sent, p);
  }

  ghost function TrackedOne(g: Progress, sent: map<FragKey, Cutting>, a: Arrived): Progress
    requires Proper(sent, a)
  {
    if a.Part? then Track(g, sent, a.p) else g
  }

  /** What an arrival should hand on. */
  ghost function Due(g: Progress, sent: map<FragKey, Cutting>, a: Arrived): Option<seq<byte>>
    requires Proper(sent, a)
  {
    match a
    case Whole(packet) => Some(packet)
    case Part(p) => Expected(g, sent, p)
    case Other(_) => None
  }

  lemma OneArrival(c: Collector, g: Progress, sent: map<FragKey, Cutting>, a: Arrived)
    requires AllCut(sent) && Proper(sent, a) && Consistent(c, sent) && Tracks(c.slots, g)
    requires HasRoom(g, a)
    ensures
      var r := Unwrap(c, Datagram(sent, a));
      Consistent(r.next, sent) && Tracks(r.next.slots, TrackedOne(g, sent, a)) && r.packet == Due(g, sent, a)
  {
    match a
    case Whole(packet) => WholeFrameUnwraps(c, packet);
    case Part(p) =>
      FragmentFrameUnwraps(c, sent, p);
      ReturnsWhenComplete(c, g, sent, p);
    case Other(_) =>
  }

  lemma {:induction false} FrontIsFine(g: Progress, sent: map<FragKey, Cutting>, arrivals: seq<Arrived>, n: nat)
    requires AllProper(sent, arrivals) && AtMostFour(g, sent, arrivals) && n <= |arrivals|
    ensures AtMostFour(g, sent, arrivals[..n])
    ensures n < |arrivals| ==> HasRoom(Tracked(g, sent, arrivals[..n]), arrivals[n])
    decreases |arrivals|
  {
    if n == |arrivals| {
      assert arrivals[..n] == arrivals;
    } else if n < |arrivals| - 1 {
      var front := arrivals[..|arrivals| - 1];
      FrontIsFine(g, sent, front, n);
      assert front[..n] == arrivals[..n];
    }
  }

  lemma {:induction false} ReceivingTracks(c: Collector, g: Progress, sent: map<FragKey, Cutting>, arrivals: seq<Arrived>)
    requires AllCut(sent) && AllProper(sent, arrivals) && AtMostFour(g, sent, arrivals)
    requires Consistent(c, sent) && Tracks(c.slots, g)
    ensures Consistent(Received(c, sent, arrivals), sent)
    ensures Tracks(Received(c, sent, arrivals).slots, Tracked(g, sent, arrivals))
    decreases |arrivals|
  {
    if arrivals != [] {
      var n := |arrivals| - 1;
      ReceivingTracks(c, g, sent, arrivals[..n]);
      var before, h := Received(c, sent, arrivals[..n]), Tracked(g, sent, arrivals[..n]);
      OneArrival(before, h, sent, arrivals[n]);
      assert Received(c, sent, arrivals) == Unwrap(before, Datagram(sent, arrivals[n])).next;
      assert Tracked(g, sent, arrivals) == TrackedOne(h, sent, arrivals[n]);
    }
  }

  /**
   * Whole packets, fragments of any packets and other datagrams may mix: every
   * whole packet is handed on at once, every fragmented one at exactly the
   * arrival that completes its parts, and nothing else ever is.
   */
  lemma EveryArrivalIsExact(c: Collector, g: Progress, sent: map<FragKey, Cutting>, arrivals: seq<Arrived>, k: nat)
    requires AllCut(sent) && AllProper(sent, arrivals) && AtMostFour(g, sent, arrivals) && k < |arrivals|
    requires Consistent(c, sent) && Tracks(c.slots, g)
    ensures HandedOn(c, sent, arrivals, k) == Due(Tracked(g, sent, arrivals[..k]), sent, arrivals[k])
  {
    FrontIsFine(g, sent, arrivals, k);
    ReceivingTracks(c, g, sent, arrivals[..k]);
    OneArrival(Received(c, sent, arrivals[..k]), Tracked(g, sent, arrivals[..k]), sent, arrivals[k]);
  }

  // ---- A packet in two parts ----

  lemma BelowTwo(k: nat)
    requires k < 2
    ensures Below(2) == {k, 1 - k} && {k} != {k, 1 - k}
  {
    assert 1 - k !in {k};
  }

  /** Of two parts, either alone is incomplete, again and again, and both together are complete. */
  lemma TrackTwo(g: Progress, sent: map<FragKey, Cutting>, p: Piece)
    requires Genuine(sent, p) && sent[p.key].parts == 2
    ensures p.key !in g || g[p.key] == {p.k} ==> !Completes(g, sent, p) && Track(g, sent, p) == g[p.key := {p.k}]
    ensures p.key in g && g[p.key] == {1 - p.k} ==> Completes(g, sent, p)
  {
    BelowTwo(p.k);
    if p.key !in g || g[p.key] == {p.k} {
      assert Got(g, p) == {p.k};
    } else if g[p.key] == {1 - p.k} {
      assert Got(g, p) == {p.k, 1 - p.k};
    }
  }

  /** No fragment of the packet among the first n arrivals. */
  ghost predicate NoneOf(arrivals: seq<Arrived>, key: FragKey, n: nat)
    requires n <= |arrivals|
  {
    forall k | 0 <= k < n && arrivals[k].Part? :: arrivals[k].p.key != key
  }

  lemma {:induction false} NotYet(g: Progress, sent: map<FragKey, Cutting>, arrivals: seq<Arrived>, key: FragKey, n: nat)
    requires AllProper(sent, arrivals) && n <= |arrivals| && key !in g && NoneOf(arrivals, key, n)
    ensures key !in Tracked(g, sent, arrivals[..n])
    decreases n
  {
    if n > 0 {
      NotYet(g, sent, arrivals, key, n - 1);
      assert arrivals[..n][..n - 1] == arrivals[..n - 1];
    }
  }

  /** Between the parts: fragments of the packet are repetitions of the first. */
  ghost predicate OnlyAgain(arrivals: seq<Arrived>, i: nat, j: nat)
    requires i <= j <= |arrivals| && i < |arrivals| && arrivals[i].Part?
  {
    forall k | i < k < j && arrivals[k].Part? && arrivals[k].p.key == arrivals[i].p.key :: arrivals[k].p.k == arrivals[i].p.k
  }

  lemma {:induction false} StillWaiting(g: Progress, sent: map<FragKey, Cutting>, arrivals: seq<Arrived>, i: nat, n: nat)
    requires AllProper(sent, arrivals) && i < n <= |arrivals| && arrivals[i].Part? && sent[arrivals[i].p.key].parts == 2
    requires arrivals[i].p.key !in g && NoneOf(arrivals, arrivals[i].p.key, i) && OnlyAgain(arrivals, i, n)
    ensures
      var key, after := arrivals[i].p.key, Tracked(g, sent, arrivals[..n]);
      key in after && after[key] == {arrivals[i].p.k}
    decreases n
  {
    var p := arrivals[i].p;
    assert arrivals[..n][..n - 1] == arrivals[..n - 1];
    var before := Tracked(g, sent, arrivals[..n - 1]);
    if n == i + 1 {
      NotYet(g, sent, arrivals, p.key, i);
      TrackTwo(before, sent, p);
    } else {
      StillWaiting(g, sent, arrivals, i, n - 1);
      var last := arrivals[n - 1];
      if last.Part? && last.p.key == p.key {
        TrackTwo(before, sent, last.p);
      }
    }
  }

  /**
   * A packet cut in two is handed on at the arrival of its other part, however
   * much else arrived before and in between, repetitions of the first included.
   */
  lemma OtherPartCompletes(c: Collector, sent: map<FragKey, Cutting>, arrivals: seq<Arrived>, i: nat, j: nat)
    requires AllCut(sent) && AllProper(sent, arrivals) && AtMostFour(map[], sent, arrivals)
    requires |c.slots| == FRAG_SLOTS && forall s :: s in c.slots ==> !s.used
    requires i < j < |arrivals| && arrivals[i].Part? && arrivals[j].Part?
    requires arrivals[j].p.key == arrivals[i].p.key && arrivals[j].p.k == 1 - arrivals[i].p.k
    requires sent[arrivals[i].p.key].parts == 2 && NoneOf(arrivals, arrivals[i].p.key, i) && OnlyAgain(arrivals, i, j)
    ensures HandedOn(c, sent, arrivals, j) == Some(sent[arrivals[i].p.key].packet)
  {
    FreeSlotsStart(c, sent);
    StillWaiting(map[], sent, arrivals, i, j);
    EveryArrivalIsExact(c, map[], sent, arrivals, j);
    TrackTwo(Tracked(map[], sent, arrivals[..j]), sent, arrivals[j].p);
  }

  // ---- From game to game ----

  /** What the server sends on for the k-th datagram it ever received. */
  ghost function Forwarded(es: seq<Event>, k: nat): Sends
    requires k < |es|
  {
    Step(Run(START, es[..k]), es[k]).1
  }

  /** A console sends its peer a game datagram by virtual address: here is one of its frames. */
  ghost predicate Carries(w: ServerRuns.World, e: Event, a: Self, b: Self, dport: u16, payload: seq<byte>, fragId: u16) {
    && e.addr in w && w[e.addr] == a && !IsVirtual(a.rsrc) && GoodVsrc(b.vsrc)
    && 1 <= |payload| <= MAX_WRAP_PAYLOAD
    && e.data in GameFrames(a, b.vsrc, b.rsrc, dport, payload, fragId)
  }

  lemma HonestPrefix(w: ServerRuns.World, es: seq<Event>, k: nat)
    requires AllHonest(w, es) && k <= |es|
    ensures AllHonest(w, es[..k])
  {
  }

  /** The server sends a frame of it on unchanged, to nobody but an endpoint of that peer. */
  lemma FrameGoesOn(w: ServerRuns.World, es: seq<Event>, k: nat, a: Self, b: Self, dport: u16, payload: seq<byte>, fragId: u16)
    requires AllHonest(w, es) && k < |es| && Carries(w, es[k], a, b, dport, payload, fragId)
    ensures Forwarded(es, k).data == es[k].data
    ensures forall x | x in Forwarded(es, k).targets :: OwnedBy(w, x, b.vsrc) && x != es[k].addr
  {
    HonestPrefix(w, es, k);
    GameFrameReachesPeerOnly(w, es[..k], a, b, es[k].addr, dport, payload, fragId, es[k].data, es[k].arrived, es[k].now);
  }

  /** What the receiver's game gets. */
  ghost predicate ReachesGame(a: Self, b: Self, snap: Snapshot, packet: Option<seq<byte>>, dport: u16, payload: seq<byte>) {
    packet.Some? && forall maxSize: nat :: Classify(b, snap, packet.value, maxSize) == Game(Entry(a.rsrc, dport, dport, payload))
  }

  /** The receiver takes game traffic from the sender: it knows its own address, and the sender is in its session. */
  ghost predicate Accepts(a: Self, b: Self, snap: Snapshot, dport: u16) {
    && dport != DISCOVERY_PORT && dport != TUNNEL_PORT
    && b.rsrc != 0 && a.rsrc != b.rsrc && a.vsrc != b.vsrc && FromPeer(snap, a.rsrc)
  }

  lemma PacketReachesGame(a: Self, b: Self, snap: Snapshot, vdst: u32, dst: u32, dport: u16, payload: seq<byte>)
    requires 1 <= |payload| <= MAX_WRAP_PAYLOAD && Accepts(a, b, snap, dport)
    ensures ReachesGame(a, b, snap, Some(GamePacket(a, vdst, dst, dport, payload)), dport, payload)
  {
    forall maxSize: nat
      ensures Classify(b, snap, GamePacket(a, vdst, dst, dport, payload), maxSize) == Game(Entry(a.rsrc, dport, dport, payload))
    {
      GamePacketArrives(a, b, snap, vdst, dst, dport, payload, maxSize);
    }
  }

  /**
   * At the receiver, for a datagram of either addressing that needs one frame:
   * it reaches the game, whatever is being reassembled.
   */
  lemma WholeDatagramReceived(a: Self, b: Self, snap: Snapshot, vdst: u32, dst: u32, dport: u16, payload: seq<byte>, fragId: u16,
                              c: Collector)
    requires 1 <= |payload| <= MAX_WRAP_PAYLOAD && !Fragmented(GamePacket(a, vdst, dst, dport, payload))
    requires Accepts(a, b, snap, dport) && |c.slots| == FRAG_SLOTS
    ensures
      var frames := GameFrames(a, vdst, dst, dport, payload, fragId);
      && |frames| == 1 && frames[0] != [] && Unwrap(c, frames[0]).next == c
      && ReachesGame(a, b, snap, Unwrap(c, frames[0]).packet, dport, payload)
  {
    WholeFrameUnwraps(c, GamePacket(a, vdst, dst, dport, payload));
    PacketReachesGame(a, b, snap, vdst, dst, dport, payload);
  }

  /**
   * A game datagram that needs one frame: after any honest history, whoever the
   * server sends it to is the peer, and as soon as it arrives there, whatever
   * else is being reassembled, the peer's game gets exactly that datagram.
   */
  lemma WholeDatagramDelivered(w: ServerRuns.World, es: seq<Event>, k: nat, a: Self, b: Self, x: Endpoint, snap: Snapshot,
                               dport: u16, payload: seq<byte>, fragId: u16, c: Collector)
    requires AllHonest(w, es) && k < |es| && Carries(w, es[k], a, b, dport, payload, fragId) && x in Forwarded(es, k).targets
    requires !Fragmented(GamePacket(a, b.vsrc, b.rsrc, dport, payload)) && Accepts(a, b, snap, dport)
    requires |c.slots| == FRAG_SLOTS
    ensures OwnedBy(w, x, b.vsrc) && Forwarded(es, k).data != []
    ensures ReachesGame(a, b, snap, Unwrap(c, Forwarded(es, k).data).packet, dport, payload)
  {
    FrameGoesOn(w, es, k, a, b, dport, payload, fragId);
    WholeDatagramReceived(a, b, snap, b.vsrc, b.rsrc, dport, payload, fragId, c);
  }

  lemma TwoParts(a: Self, vdst: u32, dst: u32, dport: u16, payload: seq<byte>)
    requires 1 <= |payload| <= MAX_WRAP_PAYLOAD && Fragmented(GamePacket(a, vdst, dst, dport, payload))
    ensures
      var cut := SendCutting(GamePacket(a, vdst, dst, dport, payload));
      cut.Valid() && cut.parts == 2 && cut.packet == GamePacket(a, vdst, dst, dport, payload)
  {
    GamePacketSize(a, vdst, dst, dport, payload);
    SendCuttingValid(GamePacket(a, vdst, dst, dport, payload));
  }

  /** The arrival that frame k of the datagram is at the receiver. */
  ghost function PieceOf(a: Self, vdst: u32, dst: u32, fragId: u16, k: nat): Arrived {
    Part(Piece(FragKey(OuterSource(a, vdst), fragId), OuterDestination(vdst, dst), k))
  }

  /** The datagram is under way in fragments, as the packet of its source and id. */
  ghost predicate UnderWay(sent: map<FragKey, Cutting>, a: Self, vdst: u32, dst: u32, dport: u16, payload: seq<byte>,
                           fragId: u16)
  {
    var key := FragKey(OuterSource(a, vdst), fragId);
    && 1 <= |payload| <= MAX_WRAP_PAYLOAD && Fragmented(GamePacket(a, vdst, dst, dport, payload))
    && key in sent && sent[key] == SendCutting(GamePacket(a, vdst, dst, dport, payload))
  }

  /**
   * At the receiver, for a datagram of either addressing: once both fragments
   * have arrived, in either order, with any other packets, fragments and
   * datagrams around them, the game gets exactly that datagram at the arrival
   * of the later one.
   */
  lemma CutDatagramReceived(a: Self, b: Self, snap: Snapshot, vdst: u32, dst: u32, dport: u16, payload: seq<byte>, fragId: u16,
                            first: nat, c: Collector, sent: map<FragKey, Cutting>, arrivals: seq<Arrived>, i: nat, j: nat)
    requires UnderWay(sent, a, vdst, dst, dport, payload, fragId) && Accepts(a, b, snap, dport) && first < 2
    requires AllCut(sent) && AllProper(sent, arrivals) && AtMostFour(map[], sent, arrivals)
    requires |c.slots| == FRAG_SLOTS && forall s :: s in c.slots ==> !s.used
    requires i < j < |arrivals|
    requires arrivals[i] == PieceOf(a, vdst, dst, fragId, first) && arrivals[j] == PieceOf(a, vdst, dst, fragId, 1 - first)
    requires NoneOf(arrivals, arrivals[i].p.key, i) && OnlyAgain(arrivals, i, j)
    ensures ReachesGame(a, b, snap, HandedOn(c, sent, arrivals, j), dport, payload)
  {
    TwoParts(a, vdst, dst, dport, payload);
    OtherPartCompletes(c, sent, arrivals, i, j);
    PacketReachesGame(a, b, snap, vdst, dst, dport, payload);
  }

  /**
   * A game datagram that needs two frames, sent by virtual address: the server
   * sends each frame on unchanged and only to the peer, and what arrives there
   * reaches its game as above.
   */
  lemma CutDatagramDelivered(w: ServerRuns.World, es: seq<Event>, m: nat, n: nat, a: Self, b: Self, x: Endpoint, snap: Snapshot,
                             dport: u16, payload: seq<byte>, fragId: u16, first: nat,
                             c: Collector, sent: map<FragKey, Cutting>, arrivals: seq<Arrived>, i: nat, j: nat)
    requires AllHonest(w, es) && m < |es| && n < |es| && first < 2
    requires Carries(w, es[m], a, b, dport, payload, fragId) && Carries(w, es[n], a, b, dport, payload, fragId)
    requires x in Forwarded(es, m).targets && x in Forwarded(es, n).targets
    requires UnderWay(sent, a, b.vsrc, b.rsrc, dport, payload, fragId) && Accepts(a, b, snap, dport)
    requires AllCut(sent) && AllProper(sent, arrivals) && AtMostFour(map[], sent, arrivals)
    requires |c.slots| == FRAG_SLOTS && forall s :: s in c.slots ==> !s.used
    requires es[m].data == FrameAt(a, b, dport, payload, fragId, first)
    requires es[n].data == FrameAt(a, b, dport, payload, fragId, 1 - first)
    requires i < j < |arrivals| && arrivals[i].Part? && arrivals[j].Part?
    requires arrivals[i] == PieceOf(a, b.vsrc, b.rsrc, fragId, first)
    requires arrivals[j] == PieceOf(a, b.vsrc, b.rsrc, fragId, 1 - first)
    requires NoneOf(arrivals, arrivals[i].p.key, i) && OnlyAgain(arrivals, i, j)
    ensures OwnedBy(w, x, b.vsrc)
    ensures Forwarded(es, m).data == Datagram(sent, arrivals[i]) && Forwarded(es, n).data == Datagram(sent, arrivals[j])
    ensures ReachesGame(a, b, snap, HandedOn(c, sent, arrivals, j), dport, payload)
  {
    FrameGoesOn(w, es, m, a, b, dport, payload, fragId);
    FrameGoesOn(w, es, n, a, b, dport, payload, fragId);
    FramesArePieces(sent, a, b.vsrc, b.rsrc, dport, payload, fragId);
    CutDatagramReceived(a, b, snap, b.vsrc, b.rsrc, dport, payload, fragId, first, c, sent, arrivals, i, j);
  }

  /** Frame k of a datagram sent by virtual address. */
  ghost function FrameAt(a: Self, b: Self, dport: u16, payload: seq<byte>, fragId: u16, k: nat): seq<byte>
    requires |payload| <= MAX_WRAP_PAYLOAD
  {
    var frames := GameFrames(a, b.vsrc, b.rsrc, dport, payload, fragId);
    if k < |frames| then frames[k] else []
  }

  /** The frames of a datagram cut in two are the arrivals of its two pieces. */
  lemma FramesArePieces(sent: map<FragKey, Cutting>, a: Self, vdst: u32, dst: u32, dport: u16, payload: seq<byte>, fragId: u16)
    requires UnderWay(sent, a, vdst, dst, dport, payload, fragId)
    ensures Proper(sent, PieceOf(a, vdst, dst, fragId, 0)) && Proper(sent, PieceOf(a, vdst, dst, fragId, 1))
    ensures GameFrames(a, vdst, dst, dport, payload, fragId)
         == [Datagram(sent, PieceOf(a, vdst, dst, fragId, 0)), Datagram(sent, PieceOf(a, vdst, dst, fragId, 1))]
  {
    TwoParts(a, vdst, dst, dport, payload);
  }

  // ---- From one game to all ----

  /** A console sends everyone a game datagram: here is one of its frames. */
  ghost predicate CarriesToAll(w: ServerRuns.World, e: Event, a: Self, dport: u16, payload: seq<byte>, fragId: u16) {
    && e.addr in w && w[e.addr] == a && !IsVirtual(a.rsrc)
    && 1 <= |payload| <= MAX_WRAP_PAYLOAD && dport != DISCOVERY_PORT
    && e.data in GameFrames(a, BROADCAST, BROADCAST, dport, payload, fragId)
  }

  /** The server when it has noted that datagram k came, before it looks at it. */
  ghost function Greeted(es: seq<Event>, k: nat): State
    requires k < |es|
  {
    Greet(Run(START, es[..k]), es[k].addr, es[k].arrived)
  }

  /** The live endpoints besides the sender that share its scope or have none; all of them if the sender has none. */
  ghost function Audience(s: State, addr: Endpoint, src: u32, now: real): set<Endpoint> {
    var t, rest := ScopeAt(s.scopes, addr, now), Besides(s, addr, src, now);
    if t == 0 then Others(Live(rest, now), Some(addr)) else Holders(rest, now, addr, t)
  }

  lemma {:induction false} AgreesAt(s: State, from: real, es: seq<Event>, k: nat)
    requires Agrees(s, from) && ServerRuns.Timely(s, from, es) && k < |es|
    ensures Agrees(Run(s, es[..k]), es[k].now)
    decreases k
  {
    WaitingKeepsAgreementIff(s, from, es[0].now);
    if k > 0 {
      StepKeepsAgreement(s, es[0]);
      AgreesAt(Step(s, es[0]).0, es[0].now, es[1..], k - 1);
      assert es[..k][0] == es[0] && es[..k][1..] == es[1..][..k - 1];
    }
  }

  lemma GreetKeepsAgreement(s: State, addr: Endpoint, arrived: real, now: real)
    requires Agrees(s, now)
    ensures Agrees(Greet(s, addr, arrived), now)
  {
  }

  /** In every timed run without a lapse the server sends a frame of it on unchanged, to exactly the audience. */
  lemma FrameGoesToAll(w: ServerRuns.World, from: real, es: seq<Event>, k: nat, a: Self, dport: u16, payload: seq<byte>, fragId: u16)
    requires ServerRuns.Timely(START, from, es) && k < |es| && CarriesToAll(w, es[k], a, dport, payload, fragId)
    ensures Forwarded(es, k).data == es[k].data
    ensures Forwarded(es, k).targets == Audience(Greeted(es, k), es[k].addr, a.vsrc, es[k].now)
  {
    var e, s := es[k], Greeted(es, k);
    AgreesAt(START, from, es, k);
    GreetKeepsAgreement(Run(START, es[..k]), e.addr, e.arrived, e.now);
    GameFrameRouting(a, BROADCAST, BROADCAST, dport, payload, fragId, e.data);
    var r := RoutingOf(e.data).value;
    FramesAreIpv4(a, BROADCAST, BROADCAST, dport, payload, fragId, e.data);
    StepForwards(Run(START, es[..k]), e);
    BroadcastAudience(s, e.addr, r, e.data, e.now);
  }

  /**
   * A game broadcast that needs one frame: in every timed run without a lapse
   * it goes to exactly the audience, and the game of every console there that
   * takes traffic from the sender gets exactly that datagram.
   */
  lemma WholeBroadcastDelivered(w: ServerRuns.World, from: real, es: seq<Event>, k: nat, a: Self, b: Self, snap: Snapshot,
                                dport: u16, payload: seq<byte>, fragId: u16, c: Collector)
    requires ServerRuns.Timely(START, from, es) && k < |es| && CarriesToAll(w, es[k], a, dport, payload, fragId)
    requires !Fragmented(GamePacket(a, BROADCAST, BROADCAST, dport, payload)) && Accepts(a, b, snap, dport)
    requires |c.slots| == FRAG_SLOTS
    ensures Forwarded(es, k).targets == Audience(Greeted(es, k), es[k].addr, a.vsrc, es[k].now) && Forwarded(es, k).data != []
    ensures ReachesGame(a, b, snap, Unwrap(c, Forwarded(es, k).data).packet, dport, payload)
  {
    FrameGoesToAll(w, from, es, k, a, dport, payload, fragId);
    WholeDatagramReceived(a, b, snap, BROADCAST, BROADCAST, dport, payload, fragId, c);
  }

  /** And for two frames: each goes to exactly its audience, and whoever gets both gets exactly that datagram. */
  lemma CutBroadcastDelivered(w: ServerRuns.World, from: real, es: seq<Event>, m: nat, n: nat, a: Self, b: Self, snap: Snapshot,
                              dport: u16, payload: seq<byte>, fragId: u16, first: nat,
                              c: Collector, sent: map<FragKey, Cutting>, arrivals: seq<Arrived>, i: nat, j: nat)
    requires ServerRuns.Timely(START, from, es) && m < |es| && n < |es| && first < 2
    requires CarriesToAll(w, es[m], a, dport, payload, fragId) && CarriesToAll(w, es[n], a, dport, payload, fragId)
    requires UnderWay(sent, a, BROADCAST, BROADCAST, dport, payload, fragId) && Accepts(a, b, snap, dport)
    requires AllCut(sent) && AllProper(sent, arrivals) && AtMostFour(map[], sent, arrivals)
    requires |c.slots| == FRAG_SLOTS && forall s :: s in c.slots ==> !s.used
    requires i < j < |arrivals| && arrivals[i].Part? && arrivals[j].Part?
    requires arrivals[i] == PieceOf(a, BROADCAST, BROADCAST, fragId, first)
    requires arrivals[j] == PieceOf(a, BROADCAST, BROADCAST, fragId, 1 - first)
    requires es[m].data == Datagram(sent, arrivals[i]) && es[n].data == Datagram(sent, arrivals[j])
    requires NoneOf(arrivals, arrivals[i].p.key, i) && OnlyAgain(arrivals, i, j)
    ensures Forwarded(es, m).targets == Audience(Greeted(es, m), es[m].addr, a.vsrc, es[m].now)
    ensures Forwarded(es, n).targets == Audience(Greeted(es, n), es[n].addr, a.vsrc, es[n].now)
    ensures Forwarded(es, m).data == Datagram(sent, arrivals[i]) && Forwarded(es, n).data == Datagram(sent, arrivals[j])
    ensures ReachesGame(a, b, snap, HandedOn(c, sent, arrivals, j), dport, payload)
  {
    FrameGoesToAll(w, from, es, m, a, dport, payload, fragId);
    FrameGoesToAll(w, from, es, n, a, dport, payload, fragId);
    CutDatagramReceived(a, b, snap, BROADCAST, BROADCAST, dport, payload, fragId, first, c, sent, arrivals, i, j);
  }

  // ---- An outsider with a member's address ----

  lemma SpokeOnce(ep: Endpoint, src: u32, dst: u32)
    ensures
      var e := Event(FrameOf(src, dst), ep, 0.0, 0.0);
      && Step(START, e).0.clients == map[Key(0, src) := Client(ep, 0.0)]
      && Step(START, e).0.scopes == map[] && Step(START, e).0.endpoints == {ep}
  {
    StepFrame(START, ep, src, dst, 0.0);
  }

  /** The second to speak reaches the first. */
  lemma FirstHearsSecond(s: State, first: Endpoint, second: Endpoint, a: u32, src: u32)
    requires s.clients == map[Key(0, a) := Client(first, 0.0)] && s.scopes == map[] && first != second && a != src
    ensures first in Audience(Greet(s, second, 0.0), second, src, 0.0)
  {
    var greeted := Greet(s, second, 0.0);
    assert Key(0, a) in Live(Besides(greeted, second, src, 0.0), 0.0);
  }

  /**
   * It happens: from the empty server b speaks, and then an outsider with the
   * real address of a listed peer p broadcasts one byte. The server sends it to
   * b, and b's game gets it as if it came from p.
   */
  lemma OutsiderGetsIn(b: Self, p: Self, outsider: Self, snap: Snapshot, at: Endpoint, from: Endpoint, dport: u16, fragId: u16)
    returns (es: seq<Event>)
    requires Accepts(p, b, snap, dport) && outsider.rsrc == p.rsrc && outsider.vsrc != b.vsrc && !IsVirtual(outsider.rsrc)
    requires at != from
    ensures |es| == 2 && es[1].addr == from && es[1].data in GameFrames(outsider, BROADCAST, BROADCAST, dport, [0], fragId)
    ensures at in Forwarded(es, 1).targets && Forwarded(es, 1).data != []
    ensures forall c: Collector | |c.slots| == FRAG_SLOTS ::
              ReachesGame(p, b, snap, Unwrap(c, Forwarded(es, 1).data).packet, dport, [0])
  {
    var frames := GameFrames(outsider, BROADCAST, BROADCAST, dport, [0], fragId);
    assert !Fragmented(GamePacket(outsider, BROADCAST, BROADCAST, dport, [0]));
    var e1, e2 := Event(FrameOf(b.vsrc, BROADCAST), at, 0.0, 0.0), Event(frames[0], from, 0.0, 0.0);
    es := [e1, e2];
    SpokeOnce(at, b.vsrc, BROADCAST);
    RunOne(START, e1);
    assert es[..1] == [e1] && es[1..] == [e2] && [e2][1..] == [];
    var w: ServerRuns.World := map[from := outsider];
    assert CarriesToAll(w, e2, outsider, dport, [0], fragId);
    assert ServerRuns.Timely(START, 0.0, es);
    FrameGoesToAll(w, 0.0, es, 1, outsider, dport, [0], fragId);
    FirstHearsSecond(Step(START, e1).0, at, from, b.vsrc, outsider.vsrc);
    forall c: Collector | |c.slots| == FRAG_SLOTS
      ensures ReachesGame(p, b, snap, Unwrap(c, Forwarded(es, 1).data).packet, dport, [0])
    {
      WholeDatagramReceived(outsider, b, snap, BROADCAST, BROADCAST, dport, [0], fragId, c);
    }
  }
}
