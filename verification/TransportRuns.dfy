// Runs of one relay transport: which peers' virtual addresses it comes to know,
// and when it takes the path to the server for dead.

module TransportRuns {
  import opened Bytes
  import opened Fragments
  import opened RelayFrames
  import opened RelayTransport

  // ---- What is learned ----

  /** A control packet that names a real address, and the virtual address it came from. */
  datatype Lesson = Lesson(realIp: u32, vsrc: u32)

  ghost predicate Sized(m: PeerMap) {
    |m.peers| == PEER_MAP_MAX && m.next < PEER_MAP_MAX
  }

  ghost function Ignorant(): (m: PeerMap)
    ensures Sized(m) && forall i | 0 <= i < PEER_MAP_MAX :: m.peers[i] == PeerAddr(0, 0)
  {
    PeerMap(seq(PEER_MAP_MAX, _ => PeerAddr(0, 0)), 0)
  }

  ghost function After(self: Self, lessons: seq<Lesson>): (m: PeerMap)
    ensures Sized(m)
  {
    if lessons == [] then Ignorant()
    else
      var last := lessons[|lessons| - 1];
      Learned(self, After(self, lessons[..|lessons| - 1]), last.realIp, last.vsrc)
  }

  ghost function Known(self: Self, lessons: seq<Lesson>, realIp: u32): u32 {
    Lookup(After(self, lessons).peers, realIp)
  }

  /** Consoles name their own real address, or none, from their own virtual one. */
  ghost predicate Honest(world: set<Self>, l: Lesson) {
    l.realIp == 0 || Self(l.vsrc, l.realIp) in world
  }

  ghost predicate AllHonest(world: set<Self>, lessons: seq<Lesson>) {
    forall i | 0 <= i < |lessons| :: Honest(world, lessons[i])
  }

  /** Every used entry is a console of the world, and could be taught. */
  ghost predicate Truthful(self: Self, world: set<Self>, m: PeerMap) {
    forall i | 0 <= i < |m.peers| && m.peers[i].realIp != 0 ::
      Teaches(self, m.peers[i].realIp, m.peers[i].vsrc) && Self(m.peers[i].vsrc, m.peers[i].realIp) in world
  }

  lemma {:induction false} StaysTruthful(self: Self, world: set<Self>, lessons: seq<Lesson>)
    requires AllHonest(world, lessons)
    ensures Truthful(self, world, After(self, lessons))
    decreases |lessons|
  {
    if lessons != [] {
      var n := |lessons| - 1;
      StaysTruthful(self, world, lessons[..n]);
      assert Honest(world, lessons[n]);
    }
  }

  lemma {:induction false} LookupFinds(peers: seq<PeerAddr>, realIp: u32)
    ensures Lookup(peers, realIp) == 0 || exists i :: 0 <= i < |peers| && peers[i] == PeerAddr(realIp, Lookup(peers, realIp))
    decreases |peers|
  {
    if peers != [] {
      if peers[0].realIp == realIp {
        assert peers[0] == PeerAddr(realIp, Lookup(peers, realIp));
      } else {
        LookupFinds(peers[1..], realIp);
        if i :| 0 <= i < |peers[1..]| && peers[1..][i] == PeerAddr(realIp, Lookup(peers, realIp)) {
          assert peers[i + 1] == PeerAddr(realIp, Lookup(peers, realIp));
        }
      }
    }
  }

  /** The entry repeats a lesson that counted. */
  ghost predicate Repeats(self: Self, lessons: seq<Lesson>, p: PeerAddr) {
    Teaches(self, p.realIp, p.vsrc) && Lesson(p.realIp, p.vsrc) in lessons
  }

  lemma {:induction false} EntryRepeats(self: Self, lessons: seq<Lesson>, i: nat)
    requires i < PEER_MAP_MAX && After(self, lessons).peers[i].realIp != 0
    ensures Repeats(self, lessons, After(self, lessons).peers[i])
    decreases |lessons|
  {
    if lessons != [] {
      var n := |lessons| - 1;
      var before, after := After(self, lessons[..n]), After(self, lessons);
      if after.peers[i] == before.peers[i] {
        EntryRepeats(self, lessons[..n], i);
      } else {
        assert after.peers[i] == PeerAddr(lessons[n].realIp, lessons[n].vsrc) && lessons[n] in lessons;
      }
    }
  }

  /** Whatever is known was taught. */
  lemma KnownWasTaught(self: Self, lessons: seq<Lesson>, realIp: u32)
    requires Known(self, lessons, realIp) != 0
    ensures Lesson(realIp, Known(self, lessons, realIp)) in lessons && Teaches(self, realIp, Known(self, lessons, realIp))
  {
    var m, v := After(self, lessons), Known(self, lessons, realIp);
    StaysWellFormed(self, lessons);
    LookupZero(m.peers);
    LookupFinds(m.peers, realIp);
    var i :| 0 <= i < |m.peers| && m.peers[i] == PeerAddr(realIp, v);
    EntryRepeats(self, lessons, i);
  }

  /** After honest lessons only, what is known for a real address is the virtual address of a console that has it. */
  lemma KnownIsOwners(self: Self, world: set<Self>, lessons: seq<Lesson>, realIp: u32)
    requires AllHonest(world, lessons) && realIp != 0 && Known(self, lessons, realIp) != 0
    ensures Self(Known(self, lessons, realIp), realIp) in world
  {
    StaysTruthful(self, world, lessons);
    LookupFinds(After(self, lessons).peers, realIp);
  }

  /** After honest lessons only, nothing but c's virtual address is known for c's real one. */
  ghost predicate KnownRight(self: Self, world: set<Self>, c: Self) {
    forall lessons | AllHonest(world, lessons) :: Known(self, lessons, c.rsrc) == 0 || Known(self, lessons, c.rsrc) == c.vsrc
  }

  /** No other console that could be learned has c's real address. */
  ghost predicate Unrivalled(self: Self, world: set<Self>, c: Self) {
    forall d | d in world && d.rsrc == c.rsrc && Teaches(self, d.rsrc, d.vsrc) :: d == c
  }

  lemma TaughtIsKnown(self: Self, d: Self)
    requires Teaches(self, d.rsrc, d.vsrc)
    ensures Known(self, [Lesson(d.rsrc, d.vsrc)], d.rsrc) == d.vsrc
  {
    var m := Ignorant();
    var lessons := [Lesson(d.rsrc, d.vsrc)];
    assert lessons[..0] == [];
    assert EntryOf(m.peers, d.rsrc) == |m.peers|;
    assert After(self, lessons).peers[0] == PeerAddr(d.rsrc, d.vsrc);
  }

  /**
   * What a console learns for c from honest lessons is always right if and only
   * if no other console it could learn has c's real address. LessonRuns says
   * when the lessons of a run are honest.
   */
  lemma KnownRightIff(self: Self, world: set<Self>, c: Self)
    requires c in world
    ensures KnownRight(self, world, c) <==> Unrivalled(self, world, c)
  {
    if Unrivalled(self, world, c) {
      forall lessons | AllHonest(world, lessons)
        ensures Known(self, lessons, c.rsrc) == 0 || Known(self, lessons, c.rsrc) == c.vsrc
      {
        OnlyOneKnown(self, world, c, lessons);
      }
    } else {
      var d :| d in world && d.rsrc == c.rsrc && Teaches(self, d.rsrc, d.vsrc) && d != c;
      TaughtIsKnown(self, d);
      var lessons := [Lesson(d.rsrc, d.vsrc)];
      assert Honest(world, lessons[0]) && AllHonest(world, lessons);
    }
  }

  lemma OnlyOneKnown(self: Self, world: set<Self>, c: Self, lessons: seq<Lesson>)
    requires AllHonest(world, lessons) && Unrivalled(self, world, c)
    ensures Known(self, lessons, c.rsrc) == 0 || Known(self, lessons, c.rsrc) == c.vsrc
  {
    var m := After(self, lessons);
    StaysTruthful(self, world, lessons);
    LookupFinds(m.peers, c.rsrc);
    if c.rsrc == 0 {
      StaysWellFormed(self, lessons);
      LookupZero(m.peers);
    }
  }

  lemma {:induction false} StaysWellFormed(self: Self, lessons: seq<Lesson>)
    ensures WellFormed(After(self, lessons).peers)
    decreases |lessons|
  {
    if lessons != [] {
      var n := |lessons| - 1;
      StaysWellFormed(self, lessons[..n]);
      LearnedWellFormed(self, After(self, lessons[..n]), lessons[n]);
    }
  }

  lemma LearnedWellFormed(self: Self, m: PeerMap, l: Lesson)
    requires Sized(m) && WellFormed(m.peers)
    ensures WellFormed(Learned(self, m, l.realIp, l.vsrc).peers)
  {
  }

  // ---- Nothing is forgotten among few ----

  /** What the last lesson that counted said of a real address. */
  function LastTaught(self: Self, lessons: seq<Lesson>, realIp: u32): u32 {
    if lessons == [] then 0
    else
      var last := lessons[|lessons| - 1];
      if last.realIp == realIp && Teaches(self, last.realIp, last.vsrc) then last.vsrc
      else LastTaught(self, lessons[..|lessons| - 1], realIp)
  }

  /** The first n entries hold different addresses of reals, the others nothing, and the next new one takes entry n. */
  ghost predicate Filled(m: PeerMap, reals: set<u32>, n: nat) {
    && Sized(m) && n <= PEER_MAP_MAX && m.next == n % PEER_MAP_MAX
    && (forall i | 0 <= i < n :: m.peers[i].realIp != 0 && m.peers[i].realIp in reals)
    && (forall i | n <= i < PEER_MAP_MAX :: m.peers[i] == PeerAddr(0, 0))
    && forall i, j | 0 <= i < j < n :: m.peers[i].realIp != m.peers[j].realIp
  }

  lemma {:induction false} FewFit(peers: seq<PeerAddr>, reals: set<u32>)
    requires forall i | 0 <= i < |peers| :: peers[i].realIp in reals
    requires forall i, j | 0 <= i < j < |peers| :: peers[i].realIp != peers[j].realIp
    ensures |peers| <= |reals|
    decreases |peers|
  {
    if peers != [] {
      var n := |peers| - 1;
      FewFit(peers[..n], reals - {peers[n].realIp});
    }
  }

  /** A new address among few finds an unused entry. */
  lemma HasEntry(m: PeerMap, reals: set<u32>, n: nat, realIp: u32)
    requires Filled(m, reals, n) && |reals| <= PEER_MAP_MAX && realIp in reals && EntryOf(m.peers, realIp) == |m.peers|
    ensures n < PEER_MAP_MAX
  {
    FewFit(m.peers[..n], reals - {realIp});
  }

  /** Entry i, used or the next unused one, is written. */
  lemma Puts(m: PeerMap, reals: set<u32>, n: nat, i: nat, e: PeerAddr)
    requires Filled(m, reals, n) && i <= n && i < PEER_MAP_MAX && e.realIp != 0 && e.realIp in reals
    requires forall k | 0 <= k < n && k != i :: m.peers[k].realIp != e.realIp
    ensures
      var k := if i == n then n + 1 else n;
      Filled(PeerMap(m.peers[i := e], k % PEER_MAP_MAX), reals, k)
  {
  }

  lemma PutsKnown(peers: seq<PeerAddr>, i: nat, e: PeerAddr, q: u32)
    requires i < |peers| && q != 0 && (peers[i].realIp == 0 || peers[i].realIp == e.realIp)
    requires forall k | 0 <= k < i :: peers[k].realIp != e.realIp
    ensures Lookup(peers[i := e], q) == if q == e.realIp then e.vsrc else Lookup(peers, q)
  {
    if q == e.realIp {
      FirstIsFound(peers[i := e], i);
    } else {
      LookupElsewhere(peers, i, e, q);
    }
  }

  lemma LearnsOne(self: Self, m: PeerMap, reals: set<u32>, n: nat, l: Lesson, q: u32) returns (k: nat)
    requires Filled(m, reals, n) && |reals| <= PEER_MAP_MAX && q != 0
    requires Teaches(self, l.realIp, l.vsrc) ==> l.realIp in reals
    ensures Filled(Learned(self, m, l.realIp, l.vsrc), reals, k)
    ensures Lookup(Learned(self, m, l.realIp, l.vsrc).peers, q)
         == if Teaches(self, l.realIp, l.vsrc) && q == l.realIp then l.vsrc else Lookup(m.peers, q)
  {
    k := n;
    if Teaches(self, l.realIp, l.vsrc) {
      var i, e := EntryOf(m.peers, l.realIp), PeerAddr(l.realIp, l.vsrc);
      if i == |m.peers| {
        HasEntry(m, reals, n, l.realIp);
        i, k := n, n + 1;
      }
      Puts(m, reals, n, i, e);
      PutsKnown(m.peers, i, e, q);
    }
  }

  lemma {:induction false} FirstIsFound(peers: seq<PeerAddr>, i: nat)
    requires i < |peers| && forall k | 0 <= k < i :: peers[k].realIp != peers[i].realIp
    ensures Lookup(peers, peers[i].realIp) == peers[i].vsrc
    decreases i
  {
    if i > 0 {
      FirstIsFound(peers[1..], i - 1);
    }
  }

  lemma {:induction false} FilledRun(self: Self, reals: set<u32>, lessons: seq<Lesson>, q: u32) returns (n: nat)
    requires |reals| <= PEER_MAP_MAX && q != 0
    requires forall i | 0 <= i < |lessons| && Teaches(self, lessons[i].realIp, lessons[i].vsrc) :: lessons[i].realIp in reals
    ensures Filled(After(self, lessons), reals, n) && Known(self, lessons, q) == LastTaught(self, lessons, q)
    decreases |lessons|
  {
    if lessons == [] {
      n := 0;
      LookupAbsent(Ignorant().peers, q);
    } else {
      var k := |lessons| - 1;
      n := FilledRun(self, reals, lessons[..k], q);
      n := LearnsOne(self, After(self, lessons[..k]), reals, n, lessons[k], q);
    }
  }

  /**
   * As long as at most sixteen real addresses are ever learned, none is
   * forgotten: what is known is what the last lesson about it said.
   */
  lemma FewAreRemembered(self: Self, reals: set<u32>, lessons: seq<Lesson>, realIp: u32)
    requires |reals| <= PEER_MAP_MAX && realIp != 0
    requires forall i | 0 <= i < |lessons| && Teaches(self, lessons[i].realIp, lessons[i].vsrc) :: lessons[i].realIp in reals
    ensures Known(self, lessons, realIp) == LastTaught(self, lessons, realIp)
  {
    var n := FilledRun(self, reals, lessons, realIp);
  }

  // ---- What is forgotten among many ----

  /** A queue of at most sixteen addresses: a known one is corrected in place, a new one displaces the oldest. */
  function Enqueued(self: Self, q: seq<PeerAddr>, l: Lesson): seq<PeerAddr> {
    var i, e := EntryOf(q, l.realIp), PeerAddr(l.realIp, l.vsrc);
    if !Teaches(self, l.realIp, l.vsrc) then q
    else if i < |q| then q[i := e]
    else (if |q| == PEER_MAP_MAX then q[1..] else q) + [e]
  }

  function Queue(self: Self, lessons: seq<Lesson>): seq<PeerAddr> {
    if lessons == [] then []
    else Enqueued(self, Queue(self, lessons[..|lessons| - 1]), lessons[|lessons| - 1])
  }

  /** The ring from its oldest entry on. */
  ghost function Unrolled(m: PeerMap): (r: seq<PeerAddr>)
    requires Sized(m)
    ensures |r| == PEER_MAP_MAX
    ensures forall i | 0 <= i < PEER_MAP_MAX :: r[i] == m.peers[Around(m.next + i)]
  {
    m.peers[m.next..] + m.peers[..m.next]
  }

  function Around(x: nat): (i: nat)
    requires x < 2 * PEER_MAP_MAX
    ensures i < PEER_MAP_MAX && i == x % PEER_MAP_MAX
  {
    if x < PEER_MAP_MAX then x else x - PEER_MAP_MAX
  }

  /** Behind unused entries, the queue. */
  ghost predicate Backs(u: seq<PeerAddr>, q: seq<PeerAddr>) {
    && |q| <= |u| == PEER_MAP_MAX && DistinctReals(q) && (forall i | 0 <= i < |q| :: q[i].realIp != 0)
    && (forall i | 0 <= i < PEER_MAP_MAX - |q| :: u[i] == PeerAddr(0, 0))
    && u[PEER_MAP_MAX - |q|..] == q
  }

  /** The ring holds the queue, newest last. */
  ghost predicate Rings(m: PeerMap, q: seq<PeerAddr>) {
    Sized(m) && Backs(Unrolled(m), q)
  }

  /** Entry i of the queue, in the ring. */
  lemma RingAt(m: PeerMap, q: seq<PeerAddr>, i: nat)
    requires Rings(m, q) && i < |q|
    ensures m.peers[Around(m.next + PEER_MAP_MAX - |q| + i)] == q[i]
  {
    assert Unrolled(m)[PEER_MAP_MAX - |q| + i] == Unrolled(m)[PEER_MAP_MAX - |q|..][i];
  }

  /** Every entry of the ring is unused or in the queue. */
  lemma RingFrom(m: PeerMap, q: seq<PeerAddr>, j: nat) returns (i: nat)
    requires Rings(m, q) && j < PEER_MAP_MAX && m.peers[j].realIp != 0
    ensures i < |q| && q[i] == m.peers[j] && j == Around(m.next + PEER_MAP_MAX - |q| + i)
  {
    var u := if j >= m.next then j - m.next else j + PEER_MAP_MAX - m.next;
    assert Unrolled(m)[u] == m.peers[j];
    i := u - (PEER_MAP_MAX - |q|);
    assert Unrolled(m)[PEER_MAP_MAX - |q|..][i] == Unrolled(m)[u];
  }

  /** A position of the ring, seen from the oldest entry. */
  lemma UnrolledSet(m: PeerMap, u: nat, e: PeerAddr)
    requires Sized(m) && u < PEER_MAP_MAX
    ensures Unrolled(PeerMap(m.peers[Around(m.next + u) := e], m.next)) == Unrolled(m)[u := e]
  {
  }

  lemma UnrolledStep(m: PeerMap, e: PeerAddr)
    requires Sized(m)
    ensures Unrolled(PeerMap(m.peers[m.next := e], (m.next + 1) % PEER_MAP_MAX)) == Unrolled(m)[1..] + [e]
  {
    var n := PeerMap(m.peers[m.next := e], (m.next + 1) % PEER_MAP_MAX);
    assert n.next == Around(m.next + 1);
    forall i | 0 <= i < PEER_MAP_MAX
      ensures Unrolled(n)[i] == (Unrolled(m)[1..] + [e])[i]
    {
      assert Around(n.next + i) == if i == PEER_MAP_MAX - 1 then m.next else Around(m.next + (i + 1));
    }
  }

  lemma BacksSet(u: seq<PeerAddr>, q: seq<PeerAddr>, i: nat, e: PeerAddr)
    requires Backs(u, q) && i < |q| && q[i].realIp == e.realIp
    ensures Backs(u[PEER_MAP_MAX - |q| + i := e], q[i := e])
  {
    assert u[PEER_MAP_MAX - |q| + i := e][PEER_MAP_MAX - |q|..] == u[PEER_MAP_MAX - |q|..][i := e];
  }

  lemma BacksStep(u: seq<PeerAddr>, q: seq<PeerAddr>, e: PeerAddr)
    requires Backs(u, q) && e.realIp != 0 && forall i | 0 <= i < |q| :: q[i].realIp != e.realIp
    ensures Backs(u[1..] + [e], (if |q| == PEER_MAP_MAX then q[1..] else q) + [e])
  {
    var kept := if |q| == PEER_MAP_MAX then q[1..] else q;
    assert u[PEER_MAP_MAX - |kept|..] == kept;
    assert (u[1..] + [e])[PEER_MAP_MAX - |kept| - 1..] == u[PEER_MAP_MAX - |kept|..] + [e];
  }

  lemma EntryIs(q: seq<PeerAddr>, realIp: u32, i: nat)
    requires DistinctReals(q) && i < |q| && q[i].realIp == realIp && realIp != 0
    ensures EntryOf(q, realIp) == i
  {
  }

  lemma CorrectsAt(m: PeerMap, q: seq<PeerAddr>, i: nat, e: PeerAddr)
    requires Rings(m, q) && i < |q| && q[i].realIp == e.realIp
    ensures Rings(PeerMap(m.peers[Around(m.next + PEER_MAP_MAX - |q| + i) := e], m.next), q[i := e])
  {
    UnrolledSet(m, PEER_MAP_MAX - |q| + i, e);
    BacksSet(Unrolled(m), q, i, e);
  }

  /** Correcting a known address. */
  lemma CorrectsRing(m: PeerMap, q: seq<PeerAddr>, j: nat, e: PeerAddr)
    requires Rings(m, q) && j == EntryOf(m.peers, e.realIp) < |m.peers| && e.realIp != 0
    ensures EntryOf(q, e.realIp) < |q|
    ensures Rings(PeerMap(m.peers[j := e], m.next), q[EntryOf(q, e.realIp) := e])
  {
    var i := RingFrom(m, q, j);
    EntryIs(q, e.realIp, i);
    CorrectsAt(m, q, i, e);
  }

  lemma NotQueued(m: PeerMap, q: seq<PeerAddr>, realIp: u32)
    requires Rings(m, q) && EntryOf(m.peers, realIp) == |m.peers|
    ensures EntryOf(q, realIp) == |q| && forall i | 0 <= i < |q| :: q[i].realIp != realIp
  {
    if EntryOf(q, realIp) < |q| {
      RingAt(m, q, EntryOf(q, realIp));
    }
  }

  /** Adding a new one: the entry in turn is unused, or the oldest. */
  lemma AddsToRing(m: PeerMap, q: seq<PeerAddr>, e: PeerAddr)
    requires Rings(m, q) && EntryOf(m.peers, e.realIp) == |m.peers| && e.realIp != 0
    ensures EntryOf(q, e.realIp) == |q|
    ensures Rings(PeerMap(m.peers[m.next := e], (m.next + 1) % PEER_MAP_MAX), (if |q| == PEER_MAP_MAX then q[1..] else q) + [e])
  {
    NotQueued(m, q, e.realIp);
    UnrolledStep(m, e);
    BacksStep(Unrolled(m), q, e);
  }

  lemma RingLearns(self: Self, m: PeerMap, q: seq<PeerAddr>, l: Lesson)
    requires Rings(m, q)
    ensures Rings(Learned(self, m, l.realIp, l.vsrc), Enqueued(self, q, l))
  {
    if Teaches(self, l.realIp, l.vsrc) {
      var j, e := EntryOf(m.peers, l.realIp), PeerAddr(l.realIp, l.vsrc);
      if j < |m.peers| {
        CorrectsRing(m, q, j, e);
      } else {
        AddsToRing(m, q, e);
      }
    }
  }

  lemma {:induction false} RingRuns(self: Self, lessons: seq<Lesson>)
    ensures Rings(After(self, lessons), Queue(self, lessons))
    decreases |lessons|
  {
    if lessons != [] {
      var n := |lessons| - 1;
      RingRuns(self, lessons[..n]);
      RingLearns(self, After(self, lessons[..n]), Queue(self, lessons[..n]), lessons[n]);
    }
  }

  /**
   * After any lessons, however many addresses they name: what is known is what
   * a queue of the sixteen addresses added last knows, each with the virtual
   * address of its last lesson.
   */
  lemma KnownIsQueued(self: Self, lessons: seq<Lesson>, realIp: u32)
    requires realIp != 0
    ensures Known(self, lessons, realIp) == Lookup(Queue(self, lessons), realIp)
  {
    RingRuns(self, lessons);
    var m, q := After(self, lessons), Queue(self, lessons);
    var j, i := EntryOf(m.peers, realIp), EntryOf(q, realIp);
    if j < |m.peers| {
      i := RingFrom(m, q, j);
      LookupAt(q, i);
      FirstIsFound(m.peers, j);
    } else {
      LookupAbsent(m.peers, realIp);
      if i < |q| {
        RingAt(m, q, i);
      }
      LookupAbsent(q, realIp);
    }
  }

  // ---- The path to the server ----

  /** A probe goes out, or a datagram comes in. */
  datatype PathEvent = Probe | Came(datagram: seq<byte>)

  function PathAfter(es: seq<PathEvent>): Path {
    if es == [] then Path(0, false)
    else
      var before := PathAfter(es[..|es| - 1]);
      match es[|es| - 1]
      case Probe => Probed(before)
      case Came(datagram) => HeardFrom(before, datagram)
  }

  predicate EchoCame(e: PathEvent) {
    e.Came? && IsEcho(e.datagram)
  }

  lemma {:induction false} SupportedIff(es: seq<PathEvent>)
    ensures PathAfter(es).supported <==> exists i :: 0 <= i < |es| && EchoCame(es[i])
    decreases |es|
  {
    if es != [] {
      var n := |es| - 1;
      SupportedIff(es[..n]);
      assert forall i | 0 <= i < n :: es[..n][i] == es[i];
    }
  }

  lemma {:induction false} MissesIff(es: seq<PathEvent>, n: nat)
    ensures PathAfter(es).misses >= n <==> |es| >= n && forall i | |es| - n <= i < |es| :: es[i].Probe?
    decreases |es|
  {
    if es != [] && n > 0 {
      var k := |es| - 1;
      MissesIff(es[..k], n - 1);
      assert forall i | 0 <= i < k :: es[..k][i] == es[i];
    }
  }

  /** The top bit of a datagram's type means nothing, for probes and for packets. */
  lemma TopBitIgnored(c: Collector, kind: byte, rest: seq<byte>)
    requires |c.slots| == FRAG_SLOTS && kind < 0x80
    ensures Unwrap(c, [kind + 0x80] + rest) == Unwrap(c, [kind] + rest)
    ensures IsEcho([kind + 0x80] + rest) == IsEcho([kind] + rest)
  {
    assert ([kind + 0x80] + rest)[1..] == ([kind] + rest)[1..] == rest;
  }

  /** Over every run of an open transport the path is dead exactly if an echo ever came and the last four events were probes. */
  lemma PathDeadIff(es: seq<PathEvent>)
    ensures IsDead(PathAfter(es)) <==>
      && (exists i :: 0 <= i < |es| && EchoCame(es[i]))
      && |es| >= PING_MAX_MISSES && forall i | |es| - PING_MAX_MISSES <= i < |es| :: es[i].Probe?
  {
    SupportedIff(es);
    MissesIff(es, PING_MAX_MISSES);
  }
}
