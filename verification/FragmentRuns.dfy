// What reassembly guarantees over whole runs of fragments: any order, loss,
// duplication, interleaving of packets, and slot eviction.

module FragmentRuns {
  import opened Bytes
  import opened Fragments

  datatype FragKey = FragKey(src: u32, id: u16)

  /** The packets in flight: ids are not reused, so a key names one packet and one way of cutting it. */
  ghost predicate AllCut(sent: map<FragKey, Cutting>) {
    forall key :: key in sent ==> sent[key].Valid()
  }

  /** One arriving fragment: part k of the packet sent under key. */
  datatype Piece = Piece(key: FragKey, dst: u32, k: nat)

  ghost predicate Genuine(sent: map<FragKey, Cutting>, p: Piece) {
    p.key in sent && sent[p.key].Valid() && p.k < sent[p.key].parts
  }

  ghost function Wire(sent: map<FragKey, Cutting>, p: Piece): seq<byte>
    requires Genuine(sent, p)
  {
    sent[p.key].Fragment(p.key.src, p.dst, p.key.id, p.k)
  }

  // ---- One slot ----

  ghost predicate Held(buffer: seq<byte>, c: Cutting, k: nat)
    requires c.Valid() && k < c.parts && |buffer| == SLOT_BYTES
  {
    c.Bounds(k);
    buffer[c.Start(k)..c.End(k)] == c.Part(k)
  }

  /** Every part the mask claims is in the buffer, and the length is known with the last part. */
  ghost predicate Holds(s: Slot, c: Cutting)
    requires c.Valid()
  {
    && Parts(s.mask) <= Below(c.parts)
    && (forall k: nat | k in Parts(s.mask) && k < c.parts :: Held(s.buffer, c, k))
    && (c.parts - 1 in Parts(s.mask) ==> s.totalLen == |c.packet|)
  }

  /** Writing part k leaves every other part's bytes alone. */
  lemma OtherPartsKept(buffer: seq<byte>, c: Cutting, k: nat, j: nat)
    requires c.Valid() && k < c.parts && j < c.parts && j != k
    requires |buffer| == SLOT_BYTES && Held(buffer, c, j)
    ensures c.Start(k) + |c.Part(k)| <= SLOT_BYTES && Held(Splice(buffer, c.Start(k), c.Part(k)), c, j)
  {
    c.Bounds(k);
    c.Bounds(j);
    if j < k {
      c.Apart(j, k);
    } else {
      c.Apart(k, j);
    }
    var spliced := Splice(buffer, c.Start(k), c.Part(k));
    assert spliced[c.Start(j)..c.End(j)] == buffer[c.Start(j)..c.End(j)];
  }

  lemma PartWritten(buffer: seq<byte>, c: Cutting, k: nat)
    requires c.Valid() && k < c.parts && |buffer| == SLOT_BYTES
    ensures c.Start(k) + |c.Part(k)| <= SLOT_BYTES && Held(Splice(buffer, c.Start(k), c.Part(k)), c, k)
  {
    c.Bounds(k);
    var spliced := Splice(buffer, c.Start(k), c.Part(k));
    assert spliced[c.Start(k)..c.End(k)] == c.Part(k);
  }

  lemma StoredHolds(s: Slot, c: Cutting, k: nat)
    requires c.Valid() && k < c.parts && Holds(s, c)
    ensures c.Start(k) + |c.Part(k)| <= SLOT_BYTES
    ensures
      var t := Stored(s, k, k == c.parts - 1, c.Start(k), c.Part(k));
      Holds(t, c) && Parts(t.mask) == Parts(s.mask) + {k}
  {
    c.Bounds(k);
    AddsBit(s.mask, k);
    PartWritten(s.buffer, c, k);
    forall j: nat | j in Parts(s.mask) && j < c.parts && j != k
      ensures Held(Splice(s.buffer, c.Start(k), c.Part(k)), c, j)
    {
      OtherPartsKept(s.buffer, c, k, j);
    }
  }

  /** A slot holding all parts holds the packet itself. */
  lemma AllPartsMakePacket(s: Slot, c: Cutting)
    requires c.Valid() && Holds(s, c) && Parts(s.mask) == Below(c.parts)
    ensures s.totalLen == |c.packet| && s.buffer[..s.totalLen] == c.packet
  {
    PrefixHeld(s, c, c.parts);
    c.Bounds(c.parts - 1);
  }

  lemma {:induction false} PrefixHeld(s: Slot, c: Cutting, n: nat)
    requires c.Valid() && Holds(s, c) && Parts(s.mask) == Below(c.parts)
    requires 1 <= n <= c.parts
    ensures c.End(n - 1) <= |c.packet| && s.buffer[..c.End(n - 1)] == c.packet[..c.End(n - 1)]
  {
    c.Bounds(n - 1);
    assert Held(s.buffer, c, n - 1);
    if n > 1 {
      PrefixHeld(s, c, n - 1);
      c.Bounds(n - 2);
      ExtendPrefix(s.buffer, c.packet, c.Start(n - 1), c.End(n - 1));
    }
  }

  lemma ExtendPrefix(x: seq<byte>, y: seq<byte>, a: nat, b: nat)
    requires a <= b <= |x| && b <= |y| && x[..a] == y[..a] && x[a..b] == y[a..b]
    ensures x[..b] == y[..b]
  {
    assert x[..b] == x[..a] + x[a..b];
    assert y[..b] == y[..a] + y[a..b];
  }

  // ---- The four slots ----

  ghost function KeyOf(s: Slot): FragKey {
    FragKey(s.src, s.id)
  }

  /** Every busy slot belongs to a packet in flight and holds what its mask says. */
  ghost predicate Consistent(c: Collector, sent: map<FragKey, Cutting>)
    requires AllCut(sent)
  {
    && |c.slots| == FRAG_SLOTS
    && forall i | 0 <= i < FRAG_SLOTS && c.slots[i].used ::
         KeyOf(c.slots[i]) in sent && Holds(c.slots[i], sent[KeyOf(c.slots[i])])
  }

  /** What arrives is read back as it was cut. */
  lemma WireReads(sent: map<FragKey, Cutting>, p: Piece)
    requires AllCut(sent) && Genuine(sent, p)
    ensures
      var c, w := sent[p.key], Wire(sent, p);
      && Acceptable(w)
      && ReadFrag(w).src == p.key.src && ReadFrag(w).id == p.key.id
      && ReadFrag(w).part == p.k && ReadFrag(w).total == c.parts
      && ReadFrag(w).pmtu * ReadFrag(w).part == c.Start(p.k)
      && w[FRAG_HEADER..FRAG_HEADER + ReadFrag(w).len] == c.Part(p.k)
  {
    var c := sent[p.key];
    c.Bounds(p.k);
    var h := FragHeader(p.key.src, p.dst, p.key.id, p.k, c.parts, |c.Part(p.k)|, c.pmtu);
    FragReadsBack(h, c.Part(p.k));
    assert (HeaderBytes(h) + c.Part(p.k))[FRAG_HEADER..] == c.Part(p.k);
  }

  /** The arrival of a genuine piece, in terms of the slot it is stored in. */
  ghost function Filled(c: Collector, sent: map<FragKey, Cutting>, p: Piece): (r: (Collector, nat, Slot))
    requires AllCut(sent) && Genuine(sent, p) && Consistent(c, sent)
    ensures |r.0.slots| == FRAG_SLOTS && r.1 < FRAG_SLOTS
  {
    var (claimed, at) := Claim(c, p.key.src, p.key.id);
    ClaimHolds(c, sent, p);
    StoredHolds(claimed.slots[at], sent[p.key], p.k);
    (claimed, at, Stored(claimed.slots[at], p.k, p.k == sent[p.key].parts - 1, sent[p.key].Start(p.k), sent[p.key].Part(p.k)))
  }

  lemma ClaimHolds(c: Collector, sent: map<FragKey, Cutting>, p: Piece)
    requires AllCut(sent) && Genuine(sent, p) && Consistent(c, sent)
    ensures
      var (claimed, at) := Claim(c, p.key.src, p.key.id);
      Consistent(claimed, sent) && KeyOf(claimed.slots[at]) == p.key
  {
    NoBits();
  }

  /**
   * Soundness: whatever the history, a packet that reassembly returns is byte
   * for byte the packet cut under that source and id.
   */
  lemma ReturnsTheSentPacket(c: Collector, sent: map<FragKey, Cutting>, p: Piece)
    requires AllCut(sent) && Genuine(sent, p) && Consistent(c, sent)
    ensures
      var a := Arrive(c, Wire(sent, p));
      && Consistent(a.next, sent)
      && (a.packet.Some? ==> a.packet.value == sent[p.key].packet)
      && (a.packet.Some? <==> Parts(Filled(c, sent, p).2.mask) == Below(sent[p.key].parts))
  {
    WireReads(sent, p);
    ClaimHolds(c, sent, p);
    var (claimed, at, s) := Filled(c, sent, p);
    StoredHolds(claimed.slots[at], sent[p.key], p.k);
    FullMeansAll(s.mask, sent[p.key].parts);
    if Parts(s.mask) == Below(sent[p.key].parts) {
      AllPartsMakePacket(s, sent[p.key]);
    }
  }

  // ---- Completeness with at most four packets in progress ----

  /** For each packet in progress, the parts that arrived since it was last completed. */
  type Progress = map<FragKey, set<nat>>

  ghost function Got(g: Progress, p: Piece): set<nat> {
    (if p.key in g then g[p.key] else {}) + {p.k}
  }

  ghost predicate Completes(g: Progress, sent: map<FragKey, Cutting>, p: Piece)
    requires Genuine(sent, p)
  {
    Got(g, p) == Below(sent[p.key].parts)
  }

  ghost function Track(g: Progress, sent: map<FragKey, Cutting>, p: Piece): Progress
    requires Genuine(sent, p)
  {
    if Completes(g, sent, p) then g - {p.key} else g[p.key := Got(g, p)]
  }

  ghost predicate InSlot(s: Slot, key: FragKey) {
    s.used && KeyOf(s) == key
  }

  ghost predicate Covers(slots: seq<Slot>, key: FragKey) {
    exists i :: 0 <= i < |slots| && InSlot(slots[i], key)
  }

  ghost predicate Distinct(slots: seq<Slot>) {
    forall i, j | 0 <= i < j < |slots| && slots[i].used && slots[j].used :: KeyOf(slots[i]) != KeyOf(slots[j])
  }

  ghost predicate Matching(slots: seq<Slot>, g: Progress) {
    forall i | 0 <= i < |slots| && slots[i].used ::
      KeyOf(slots[i]) in g && g[KeyOf(slots[i])] == Parts(slots[i].mask)
  }

  /** The slots hold exactly the packets in progress, each once. */
  ghost predicate Tracks(slots: seq<Slot>, g: Progress) {
    Distinct(slots) && Matching(slots, g) && forall key :: key in g ==> Covers(slots, key)
  }

  lemma FiveKeys(k0: FragKey, k1: FragKey, k2: FragKey, k3: FragKey, k4: FragKey, keys: set<FragKey>)
    requires k0 != k1 && k0 != k2 && k0 != k3 && k0 != k4 && k1 != k2 && k1 != k3 && k1 != k4
    requires k2 != k3 && k2 != k4 && k3 != k4
    requires {k0, k1, k2, k3, k4} <= keys
    ensures |keys| >= 5
  {
    var r0 := keys - {k0};
    var r1 := r0 - {k1};
    var r2 := r1 - {k2};
    var r3 := r2 - {k3};
    assert k1 in r0 && k2 in r1 && k3 in r2 && k4 in r3;
    assert |keys| == |r0| + 1 && |r0| == |r1| + 1 && |r1| == |r2| + 1 && |r2| == |r3| + 1;
  }

  lemma SlotFree(slots: seq<Slot>, g: Progress, key: FragKey)
    requires |slots| == FRAG_SLOTS && Distinct(slots) && Matching(slots, g)
    requires key !in g && |g.Keys + {key}| <= FRAG_SLOTS
    ensures FirstFree(slots) < FRAG_SLOTS
  {
    if FirstFree(slots) == FRAG_SLOTS {
      assert slots[0].used && slots[1].used && slots[2].used && slots[3].used;
      FiveKeys(KeyOf(slots[0]), KeyOf(slots[1]), KeyOf(slots[2]), KeyOf(slots[3]), key, g.Keys + {key});
    }
  }

  /** Storing into a slot of the key, or claiming a free slot for a new key. */
  lemma KeepsTracking(slots: seq<Slot>, g: Progress, at: nat, s: Slot)
    requires at < |slots| && Tracks(slots, g)
    requires s.used && (if slots[at].used then KeyOf(s) == KeyOf(slots[at]) else KeyOf(s) !in g)
    ensures Tracks(slots[at := s], g[KeyOf(s) := Parts(s.mask)])
  {
    var stored := slots[at := s];
    var g' := g[KeyOf(s) := Parts(s.mask)];
    forall key: FragKey | key in g'
      ensures Covers(stored, key)
    {
      if key == KeyOf(s) {
        assert InSlot(stored[at], key);
      } else {
        assert Covers(slots, key);
        var i :| 0 <= i < |slots| && InSlot(slots[i], key);
        assert InSlot(stored[i], key);
      }
    }
  }

  lemma FreesTracking(slots: seq<Slot>, g: Progress, at: nat, s: Slot)
    requires at < |slots| && Tracks(slots, g)
    requires slots[at].used && !s.used
    ensures Tracks(slots[at := s], g - {KeyOf(slots[at])})
  {
    var freed := slots[at := s];
    forall key: FragKey | key in g - {KeyOf(slots[at])}
      ensures Covers(freed, key)
    {
      assert Covers(slots, key);
      var i :| 0 <= i < |slots| && InSlot(slots[i], key);
      assert InSlot(freed[i], key);
    }
  }

  lemma FoundIfCovered(slots: seq<Slot>, key: FragKey)
    requires Covers(slots, key)
    ensures FirstFor(slots, key.src, key.id) < |slots|
  {
    var i :| 0 <= i < |slots| && InSlot(slots[i], key);
    assert SlotFor(slots[i], key.src, key.id);
  }

  ghost function Opened(g: Progress, key: FragKey): Progress {
    if key in g then g else g[key := {}]
  }

  /** The slot a tracked fragment goes to: its packet's own, or a free one. No packet is evicted. */
  lemma ClaimTracks(c: Collector, g: Progress, key: FragKey)
    requires |c.slots| == FRAG_SLOTS && Tracks(c.slots, g) && |g.Keys + {key}| <= FRAG_SLOTS
    ensures
      var (claimed, at) := Claim(c, key.src, key.id);
      && InSlot(claimed.slots[at], key)
      && Parts(claimed.slots[at].mask) == Opened(g, key)[key]
      && Tracks(claimed.slots, Opened(g, key))
  {
    NoBits();
    var found := FirstFor(c.slots, key.src, key.id);
    if found < FRAG_SLOTS {
      assert KeyOf(c.slots[found]) == key;
    } else {
      if Covers(c.slots, key) {
        FoundIfCovered(c.slots, key);
        assert false;
      }
      SlotFree(c.slots, g, key);
      var free := FirstFree(c.slots);
      KeepsTracking(c.slots, g, free, RawSlot.Slot(true, key.id, key.src, 0, 0, c.slots[free].buffer));
    }
  }

  /** The slots after a genuine piece, in terms of the slot it went to. */
  lemma ArriveStores(c: Collector, sent: map<FragKey, Cutting>, p: Piece)
    requires AllCut(sent) && Genuine(sent, p) && Consistent(c, sent)
    ensures
      var (claimed, at, s) := Filled(c, sent, p);
      var a := Arrive(c, Wire(sent, p));
      && InSlot(claimed.slots[at], p.key) && InSlot(s, p.key)
      && Parts(s.mask) == Parts(claimed.slots[at].mask) + {p.k}
      && a.next.slots == (if a.packet.Some? then claimed.slots[at := s.(used := false)] else claimed.slots[at := s])
  {
    WireReads(sent, p);
    ClaimHolds(c, sent, p);
    var (claimed, at, s) := Filled(c, sent, p);
    StoredHolds(claimed.slots[at], sent[p.key], p.k);
  }

  /** What the arrival should return: the packet exactly when its parts are now complete. */
  ghost function Expected(g: Progress, sent: map<FragKey, Cutting>, p: Piece): Option<seq<byte>>
    requires Genuine(sent, p)
  {
    if Completes(g, sent, p) then Some(sent[p.key].packet) else None
  }

  /**
   * Completeness: with at most four packets in progress nothing is evicted,
   * and a packet is returned at exactly the arrival that completes its parts.
   */
  lemma ReturnsWhenComplete(c: Collector, g: Progress, sent: map<FragKey, Cutting>, p: Piece)
    requires AllCut(sent) && Genuine(sent, p) && Consistent(c, sent)
    requires Tracks(c.slots, g) && |g.Keys + {p.key}| <= FRAG_SLOTS
    ensures
      var a := Arrive(c, Wire(sent, p));
      && Consistent(a.next, sent) && Tracks(a.next.slots, Track(g, sent, p))
      && a.packet == Expected(g, sent, p)
  {
    ReturnsTheSentPacket(c, sent, p);
    ArriveStores(c, sent, p);
    ClaimTracks(c, g, p.key);
    var (claimed, at, s) := Filled(c, sent, p);
    assert Parts(s.mask) == Got(g, p);
    NextTracks(claimed.slots, g, sent, p, at, s);
  }

  lemma NextTracks(slots: seq<Slot>, g: Progress, sent: map<FragKey, Cutting>, p: Piece, at: nat, s: Slot)
    requires Genuine(sent, p)
    requires at < |slots| && Tracks(slots, Opened(g, p.key))
    requires InSlot(slots[at], p.key) && InSlot(s, p.key) && Parts(s.mask) == Got(g, p)
    ensures Completes(g, sent, p) ==> Tracks(slots[at := s.(used := false)], Track(g, sent, p))
    ensures !Completes(g, sent, p) ==> Tracks(slots[at := s], Track(g, sent, p))
  {
    var start := Opened(g, p.key);
    KeepsTracking(slots, start, at, s);
    FreesTracking(slots, start, at, s.(used := false));
    assert start[p.key := Got(g, p)] == g[p.key := Got(g, p)];
    assert start - {p.key} == g - {p.key};
  }

  // ---- Whole runs ----

  ghost predicate AllGenuine(sent: map<FragKey, Cutting>, ps: seq<Piece>) {
    forall i | 0 <= i < |ps| :: Genuine(sent, ps[i])
  }

  /** What each arrival of a run returns. */
  ghost function Returned(c: Collector, sent: map<FragKey, Cutting>, ps: seq<Piece>): (r: seq<Option<seq<byte>>>)
    requires |c.slots| == FRAG_SLOTS && AllGenuine(sent, ps)
    ensures |r| == |ps|
    decreases |ps|
  {
    if ps == [] then []
    else
      var a := Arrive(c, Wire(sent, ps[0]));
      [a.packet] + Returned(a.next, sent, ps[1..])
  }

  /** In every run, every returned packet is the one sent under the key of the piece that completed it. */
  lemma {:induction false} RunsReturnSentPackets(c: Collector, sent: map<FragKey, Cutting>, ps: seq<Piece>)
    requires AllCut(sent) && AllGenuine(sent, ps) && Consistent(c, sent)
    ensures forall i | 0 <= i < |ps| ::
      Returned(c, sent, ps)[i].Some? ==> Returned(c, sent, ps)[i].value == sent[ps[i].key].packet
    decreases |ps|
  {
    if ps != [] {
      ReturnsTheSentPacket(c, sent, ps[0]);
      RunsReturnSentPackets(Arrive(c, Wire(sent, ps[0])).next, sent, ps[1..]);
    }
  }

  /** What each arrival of a run should return. */
  ghost function ExpectedRun(g: Progress, sent: map<FragKey, Cutting>, ps: seq<Piece>): seq<Option<seq<byte>>>
    requires AllGenuine(sent, ps)
    decreases |ps|
  {
    if ps == [] then []
    else [Expected(g, sent, ps[0])] + ExpectedRun(Track(g, sent, ps[0]), sent, ps[1..])
  }

  /** At every arrival at most four packets are in progress, the arriving one included. */
  ghost predicate FourAtMost(g: Progress, sent: map<FragKey, Cutting>, ps: seq<Piece>)
    requires AllGenuine(sent, ps)
    decreases |ps|
  {
    ps != [] ==>
      |g.Keys + {ps[0].key}| <= FRAG_SLOTS && FourAtMost(Track(g, sent, ps[0]), sent, ps[1..])
  }

  /**
   * In every run with at most four packets in progress, each arrival returns
   * its packet exactly when it completes the set of parts, and nothing else.
   */
  lemma {:induction false} RunsReturnExactly(c: Collector, g: Progress, sent: map<FragKey, Cutting>, ps: seq<Piece>)
    requires AllCut(sent) && AllGenuine(sent, ps) && Consistent(c, sent) && Tracks(c.slots, g)
    requires FourAtMost(g, sent, ps)
    ensures Returned(c, sent, ps) == ExpectedRun(g, sent, ps)
    decreases |ps|
  {
    if ps != [] {
      ReturnsWhenComplete(c, g, sent, ps[0]);
      RunsReturnExactly(Arrive(c, Wire(sent, ps[0])).next, Track(g, sent, ps[0]), sent, ps[1..]);
    }
  }

  /** Free slots are consistent with anything in flight and track no packet. */
  lemma FreeSlotsStart(c: Collector, sent: map<FragKey, Cutting>)
    requires |c.slots| == FRAG_SLOTS && AllCut(sent) && forall s :: s in c.slots ==> !s.used
    ensures Consistent(c, sent) && Tracks(c.slots, map[])
  {
  }
}
