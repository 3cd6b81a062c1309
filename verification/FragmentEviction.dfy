// Reassembly when all four slots are busy: which packet a newcomer displaces,
// and exactly when a packet in progress survives until its last part.

module FragmentEviction {
  import opened Bytes
  import opened Fragments
  import opened FragmentRuns

  /** A fragment of this packet finds no slot of its own and none free. */
  ghost predicate Evicts(c: Collector, key: FragKey) {
    !Covers(c.slots, key) && forall i | 0 <= i < |c.slots| :: c.slots[i].used
  }

  ghost function AfterRun(c: Collector, sent: map<FragKey, Cutting>, ps: seq<Piece>): (r: Collector)
    requires |c.slots| == FRAG_SLOTS && AllGenuine(sent, ps)
    ensures |r.slots| == FRAG_SLOTS
    decreases |ps|
  {
    if ps == [] then c else AfterRun(Arrive(c, Wire(sent, ps[0])).next, sent, ps[1..])
  }

  /** How many arrivals of a run displace a packet. */
  ghost function Evictions(c: Collector, sent: map<FragKey, Cutting>, ps: seq<Piece>): nat
    requires |c.slots| == FRAG_SLOTS && AllGenuine(sent, ps)
    decreases |ps|
  {
    if ps == [] then 0
    else (if Evicts(c, ps[0].key) then 1 else 0) + Evictions(Arrive(c, Wire(sent, ps[0])).next, sent, ps[1..])
  }

  /** How many evictions a slot has ahead of its own. */
  function Turn(c: Collector, at: nat): nat {
    (at - c.evict) % FRAG_SLOTS
  }

  /** The parts of one packet that arrive in a run. */
  ghost function PartsIn(ps: seq<Piece>, key: FragKey): set<nat> {
    if ps == [] then {} else (if ps[0].key == key then {ps[0].k} else {}) + PartsIn(ps[1..], key)
  }

  ghost predicate Sane(c: Collector, sent: map<FragKey, Cutting>) {
    AllCut(sent) && Consistent(c, sent) && Distinct(c.slots)
  }

  /** Slot at holds these parts of the packet. */
  ghost predicate Holding(c: Collector, sent: map<FragKey, Cutting>, key: FragKey, at: nat, got: set<nat>) {
    Sane(c, sent) && at < FRAG_SLOTS && InSlot(c.slots[at], key) && Parts(c.slots[at].mask) == got
  }

  // ---- One arrival ----

  lemma FoundIff(slots: seq<Slot>, key: FragKey)
    ensures FirstFor(slots, key.src, key.id) < |slots| <==> Covers(slots, key)
  {
    if Covers(slots, key) {
      FoundIfCovered(slots, key);
    } else if FirstFor(slots, key.src, key.id) < |slots| {
      assert InSlot(slots[FirstFor(slots, key.src, key.id)], key);
    }
  }

  /** Where a fragment goes and what it leaves alone. */
  lemma ClaimSpares(c: Collector, key: FragKey)
    requires |c.slots| == FRAG_SLOTS && Distinct(c.slots)
    ensures
      var (claimed, at) := Claim(c, key.src, key.id);
      && InSlot(claimed.slots[at], key) && Distinct(claimed.slots)
      && (forall i | 0 <= i < FRAG_SLOTS && i != at :: claimed.slots[i] == c.slots[i])
      && (Covers(c.slots, key) ==> claimed == c)
      && (!Covers(c.slots, key) ==> Parts(claimed.slots[at].mask) == {} && (Evicts(c, key) || !c.slots[at].used))
      && (if Evicts(c, key) then at == c.evict % FRAG_SLOTS && claimed.evict == (c.evict + 1) % 0x100 else claimed.evict == c.evict)
  {
    NoBits();
    FoundIff(c.slots, key);
  }

  /** An eviction brings every slot one nearer to its own, and sends the slot in turn to the back. */
  lemma TurnSteps(evict: byte, i: nat)
    requires i < FRAG_SLOTS
    ensures (i - evict) % FRAG_SLOTS == 0 <==> i == evict % FRAG_SLOTS
    ensures (i - (evict as int + 1) % 0x100) % FRAG_SLOTS
         == if i == evict % FRAG_SLOTS then FRAG_SLOTS - 1 else (i - evict) % FRAG_SLOTS - 1
  {
  }

  lemma ArriveSane(c: Collector, sent: map<FragKey, Cutting>, p: Piece)
    requires Sane(c, sent) && Genuine(sent, p)
    ensures Sane(Arrive(c, Wire(sent, p)).next, sent)
    ensures
      var (claimed, at) := Claim(c, p.key.src, p.key.id);
      var a := Arrive(c, Wire(sent, p));
      && a.next.evict == claimed.evict
      && (forall i | 0 <= i < FRAG_SLOTS && i != at :: a.next.slots[i] == c.slots[i])
      && KeyOf(a.next.slots[at]) == p.key && Parts(a.next.slots[at].mask) == Parts(claimed.slots[at].mask) + {p.k}
      && (a.next.slots[at].used <==> a.packet.None?)
      && (a.packet.Some? <==> Parts(claimed.slots[at].mask) + {p.k} == Below(sent[p.key].parts))
      && (a.packet.Some? ==> a.packet.value == sent[p.key].packet)
  {
    ReturnsTheSentPacket(c, sent, p);
    ArriveStores(c, sent, p);
    ClaimSpares(c, p.key);
    WireReads(sent, p);
  }

  /** Where a fragment goes, and with which parts it is then together. */
  ghost predicate GoesTo(c: Collector, key: FragKey, at: nat, was: set<nat>, evict: byte)
    requires |c.slots| == FRAG_SLOTS
  {
    && at < FRAG_SLOTS
    && (if Covers(c.slots, key) then InSlot(c.slots[at], key) && was == Parts(c.slots[at].mask) && evict == c.evict
        else if Evicts(c, key) then was == {} && at == c.evict % FRAG_SLOTS && evict == (c.evict + 1) % 0x100
        else was == {} && at == FirstFree(c.slots) && !c.slots[at].used && evict == c.evict)
  }

  lemma ArrivesAt(c: Collector, sent: map<FragKey, Cutting>, p: Piece) returns (at: nat, was: set<nat>)
    requires Sane(c, sent) && Genuine(sent, p)
    ensures Sane(Arrive(c, Wire(sent, p)).next, sent) && GoesTo(c, p.key, at, was, Arrive(c, Wire(sent, p)).next.evict)
    ensures
      var a := Arrive(c, Wire(sent, p));
      && (forall i | 0 <= i < FRAG_SLOTS && i != at :: a.next.slots[i] == c.slots[i])
      && KeyOf(a.next.slots[at]) == p.key && Parts(a.next.slots[at].mask) == was + {p.k}
      && (a.next.slots[at].used <==> a.packet.None?)
      && a.packet == if was + {p.k} == Below(sent[p.key].parts) then Some(sent[p.key].packet) else None
  {
    ArriveSane(c, sent, p);
    ClaimSpares(c, p.key);
    FoundIff(c.slots, p.key);
    var (claimed, i) := Claim(c, p.key.src, p.key.id);
    at, was := i, Parts(claimed.slots[i].mask);
  }

  /** A packet that is in no slot before, and not in the one that changed, is in none after. */
  lemma StaysOut(before: seq<Slot>, after: seq<Slot>, at: nat, key: FragKey)
    requires at < |before| == |after| && !InSlot(after[at], key)
    requires forall i | 0 <= i < |before| && i != at :: after[i] == before[i] && !InSlot(before[i], key)
    ensures !Covers(after, key)
  {
  }

  lemma OnlyHere(c: Collector, sent: map<FragKey, Cutting>, key: FragKey, at: nat, got: set<nat>)
    requires Holding(c, sent, key, at, got)
    ensures Covers(c.slots, key) && forall i | 0 <= i < FRAG_SLOTS && i != at :: !InSlot(c.slots[i], key)
  {
    assert InSlot(c.slots[at], key);
  }

  /** One slot changed, as a fragment of the packet under key going there changes it. */
  ghost predicate Went(c: Collector, next: Collector, sent: map<FragKey, Cutting>, key: FragKey, at: nat, was: set<nat>) {
    && Sane(c, sent) && Sane(next, sent) && GoesTo(c, key, at, was, next.evict)
    && (forall i | 0 <= i < FRAG_SLOTS && i != at :: next.slots[i] == c.slots[i])
    && KeyOf(next.slots[at]) == key
  }

  lemma TurnAfter(c: Collector, next: Collector, sent: map<FragKey, Cutting>, key: FragKey, i: nat, was: set<nat>, at: nat)
    requires Went(c, next, sent, key, i, was) && at < FRAG_SLOTS
    ensures Turn(next, at) == if !Evicts(c, key) then Turn(c, at) else if Turn(c, at) == 0 then FRAG_SLOTS - 1 else Turn(c, at) - 1
    ensures Evicts(c, key) ==> (Turn(c, at) == 0 <==> at == i)
  {
    TurnSteps(c.evict, at);
  }

  lemma OtherWent(c: Collector, next: Collector, sent: map<FragKey, Cutting>, key: FragKey, at: nat, got: set<nat>,
                  other: FragKey, i: nat, was: set<nat>)
    requires Holding(c, sent, key, at, got) && Went(c, next, sent, other, i, was) && other != key
    ensures i == at ==> Evicts(c, other) && !Covers(next.slots, key)
    ensures i != at ==> Holding(next, sent, key, at, got)
  {
    OnlyHere(c, sent, key, at, got);
    if i == at {
      StaysOut(c.slots, next.slots, at, key);
    }
  }

  /** A fragment of another packet leaves the slot alone, unless it displaces it. */
  lemma OtherArrives(c: Collector, sent: map<FragKey, Cutting>, key: FragKey, at: nat, got: set<nat>, p: Piece)
    requires Holding(c, sent, key, at, got) && Genuine(sent, p) && p.key != key
    ensures
      var next := Arrive(c, Wire(sent, p)).next;
      if Evicts(c, p.key) && Turn(c, at) == 0 then Sane(next, sent) && !Covers(next.slots, key)
      else Holding(next, sent, key, at, got) && Turn(next, at) == Turn(c, at) - (if Evicts(c, p.key) then 1 else 0)
  {
    var i, was := ArrivesAt(c, sent, p);
    var next := Arrive(c, Wire(sent, p)).next;
    OtherWent(c, next, sent, key, at, got, p.key, i, was);
    TurnAfter(c, next, sent, p.key, i, was, at);
  }

  lemma OwnWent(c: Collector, next: Collector, sent: map<FragKey, Cutting>, key: FragKey, at: nat, got: set<nat>, i: nat, was: set<nat>)
    requires Holding(c, sent, key, at, got) && Went(c, next, sent, key, i, was)
    ensures i == at && was == got && !Evicts(c, key) && Turn(next, at) == Turn(c, at)
    ensures if next.slots[at].used then Holding(next, sent, key, at, Parts(next.slots[at].mask)) else !Covers(next.slots, key)
  {
    OnlyHere(c, sent, key, at, got);
    if !next.slots[at].used {
      StaysOut(c.slots, next.slots, at, key);
    }
  }

  /** A fragment of the packet itself goes to its slot. */
  lemma OwnArrives(c: Collector, sent: map<FragKey, Cutting>, key: FragKey, at: nat, got: set<nat>, p: Piece)
    requires Holding(c, sent, key, at, got) && Genuine(sent, p) && p.key == key
    ensures !Evicts(c, key)
    ensures
      var a := Arrive(c, Wire(sent, p));
      if got + {p.k} == Below(sent[key].parts) then
        a.packet == Some(sent[key].packet) && Sane(a.next, sent) && !Covers(a.next.slots, key)
      else a.packet == None && Holding(a.next, sent, key, at, got + {p.k}) && Turn(a.next, at) == Turn(c, at)
  {
    var i, was := ArrivesAt(c, sent, p);
    OwnWent(c, Arrive(c, Wire(sent, p)).next, sent, key, at, got, i, was);
  }

  lemma SetShift(a: set<nat>, more: set<nat>, b: set<nat>)
    ensures (a + more) + b == a + (more + b)
  {
  }

  lemma StepSurvives(c: Collector, sent: map<FragKey, Cutting>, key: FragKey, at: nat, got: set<nat>, p: Piece, m: nat)
    returns (next: Collector)
    requires Holding(c, sent, key, at, got) && Genuine(sent, p) && m < sent[key].parts && m !in got && (p.key == key ==> p.k != m)
    requires !(Evicts(c, p.key) && Turn(c, at) == 0)
    ensures next == Arrive(c, Wire(sent, p)).next
    ensures Holding(next, sent, key, at, got + if p.key == key then {p.k} else {})
    ensures Turn(next, at) == Turn(c, at) - (if Evicts(c, p.key) then 1 else 0)
  {
    next := Arrive(c, Wire(sent, p)).next;
    if p.key == key {
      assert m in Below(sent[key].parts) && m !in got + {p.k};
      OwnArrives(c, sent, key, at, got, p);
    } else {
      OtherArrives(c, sent, key, at, got, p);
      assert got + {} == got;
    }
  }

  lemma {:induction false} Survives(c: Collector, sent: map<FragKey, Cutting>, key: FragKey, at: nat, got: set<nat>, ps: seq<Piece>, m: nat)
    requires Holding(c, sent, key, at, got) && AllGenuine(sent, ps) && Evictions(c, sent, ps) <= Turn(c, at)
    requires m < sent[key].parts && m !in got + PartsIn(ps, key)
    ensures Holding(AfterRun(c, sent, ps), sent, key, at, got + PartsIn(ps, key))
    decreases |ps|
  {
    if ps == [] {
      assert got + {} == got;
    } else {
      var more := if ps[0].key == key then {ps[0].k} else {};
      var next := StepSurvives(c, sent, key, at, got, ps[0], m);
      SetShift(got, more, PartsIn(ps[1..], key));
      Survives(next, sent, key, at, got + more, ps[1..], m);
    }
  }

  /** Wherever the packet is collected, part g is missing. */
  ghost predicate Lacks(c: Collector, sent: map<FragKey, Cutting>, key: FragKey, g: nat) {
    Sane(c, sent) && forall i | 0 <= i < FRAG_SLOTS && InSlot(c.slots[i], key) :: g !in Parts(c.slots[i].mask)
  }

  lemma StillLacks(c: Collector, sent: map<FragKey, Cutting>, key: FragKey, g: nat, p: Piece)
    requires Lacks(c, sent, key, g) && Genuine(sent, p) && (p.key == key ==> p.k != g)
    ensures Lacks(Arrive(c, Wire(sent, p)).next, sent, key, g)
    ensures p.key == key && g < sent[key].parts ==> Arrive(c, Wire(sent, p)).packet == None
  {
    var at, was := ArrivesAt(c, sent, p);
  }

  lemma {:induction false} Lost(c: Collector, sent: map<FragKey, Cutting>, key: FragKey, g: nat, ps: seq<Piece>)
    requires Lacks(c, sent, key, g) && AllGenuine(sent, ps) && g !in PartsIn(ps, key)
    ensures Lacks(AfterRun(c, sent, ps), sent, key, g)
    decreases |ps|
  {
    if ps != [] {
      StillLacks(c, sent, key, g, ps[0]);
      Lost(Arrive(c, Wire(sent, ps[0])).next, sent, key, g, ps[1..]);
    }
  }

  lemma StepDisplaces(c: Collector, sent: map<FragKey, Cutting>, key: FragKey, at: nat, got: set<nat>, p: Piece, g: nat)
    returns (next: Collector, now: set<nat>)
    requires Holding(c, sent, key, at, got) && Genuine(sent, p) && g in got && (p.key == key ==> p.k != g)
    ensures next == Arrive(c, Wire(sent, p)).next && g in now
    ensures
      || Lacks(next, sent, key, g)
      || (Holding(next, sent, key, at, now) && Turn(next, at) == Turn(c, at) - (if Evicts(c, p.key) then 1 else 0))
  {
    next, now := Arrive(c, Wire(sent, p)).next, got;
    if p.key == key {
      OwnArrives(c, sent, key, at, got, p);
      now := got + {p.k};
    } else {
      OtherArrives(c, sent, key, at, got, p);
    }
  }

  lemma {:induction false} Displaced(c: Collector, sent: map<FragKey, Cutting>, key: FragKey, at: nat, got: set<nat>, ps: seq<Piece>, g: nat)
    requires Holding(c, sent, key, at, got) && AllGenuine(sent, ps) && Evictions(c, sent, ps) > Turn(c, at)
    requires g in got && g !in PartsIn(ps, key)
    ensures Lacks(AfterRun(c, sent, ps), sent, key, g)
    decreases |ps|
  {
    var next, now := StepDisplaces(c, sent, key, at, got, ps[0], g);
    if Lacks(next, sent, key, g) {
      Lost(next, sent, key, g, ps[1..]);
    } else {
      Displaced(next, sent, key, at, now, ps[1..], g);
    }
  }

  // ---- When a packet in progress is returned ----

  /** The last part of a packet arrives after ps; the parts slot at held before are not sent again. */
  ghost predicate LastPart(sent: map<FragKey, Cutting>, key: FragKey, got: set<nat>, ps: seq<Piece>, last: Piece) {
    && AllGenuine(sent, ps) && Genuine(sent, last) && last.key == key
    && last.k !in got + PartsIn(ps, key) && got + PartsIn(ps, key) + {last.k} == Below(sent[key].parts)
  }

  /**
   * Whatever stale parts fill the other slots, and whatever arrives in between:
   * a packet in progress is returned at its last missing part, provided its
   * slot's turn has not come, that is if at most Turn packets were displaced
   * meanwhile; and if its first parts are not sent again, only then.
   */
  lemma ReturnedIffInTime(c: Collector, sent: map<FragKey, Cutting>, key: FragKey, at: nat, got: set<nat>, ps: seq<Piece>, last: Piece)
    requires Holding(c, sent, key, at, got) && got != {} && LastPart(sent, key, got, ps, last)
    ensures
      var packet := Arrive(AfterRun(c, sent, ps), Wire(sent, last)).packet;
      && (Evictions(c, sent, ps) <= Turn(c, at) ==> packet == Some(sent[key].packet))
      && (Evictions(c, sent, ps) > Turn(c, at) && got !! PartsIn(ps, key) ==> packet == None)
  {
    if Evictions(c, sent, ps) <= Turn(c, at) {
      Survives(c, sent, key, at, got, ps, last.k);
      OwnArrives(AfterRun(c, sent, ps), sent, key, at, got + PartsIn(ps, key), last);
    } else if got !! PartsIn(ps, key) {
      var g :| g in got;
      assert g in Below(sent[key].parts);
      Displaced(c, sent, key, at, got, ps, g);
      StillLacks(AfterRun(c, sent, ps), sent, key, g, last);
    }
  }

  /** Where the first part goes: into a free slot if there is one, whatever its turn; else to the slot in turn, then last in turn. */
  lemma FirstPartTurn(c: Collector, sent: map<FragKey, Cutting>, first: Piece) returns (at: nat)
    requires Sane(c, sent) && Genuine(sent, first) && !Covers(c.slots, first.key) && sent[first.key].parts > 1
    ensures
      var next := Arrive(c, Wire(sent, first)).next;
      && Holding(next, sent, first.key, at, {first.k})
      && (if Evicts(c, first.key) then Turn(next, at) == FRAG_SLOTS - 1
          else at == FirstFree(c.slots) && Turn(next, at) == Turn(c, at))
  {
    var was;
    at, was := ArrivesAt(c, sent, first);
    TurnAfter(c, Arrive(c, Wire(sent, first)).next, sent, first.key, at, was, at);
    OneIsNotAll(first.k, sent[first.key].parts);
  }

  lemma OneIsNotAll(k: nat, n: nat)
    requires n > 1
    ensures {} + {k} == {k} && {k} != Below(n)
  {
    assert 0 in Below(n) && 1 in Below(n);
  }

  /**
   * A packet that found all four slots busy is returned at its last missing
   * part if fewer than four packets were displaced since its first.
   */
  lemma LatecomerIsReturned(c: Collector, sent: map<FragKey, Cutting>, first: Piece, ps: seq<Piece>, last: Piece)
    requires Sane(c, sent) && Genuine(sent, first) && Evicts(c, first.key) && sent[first.key].parts > 1
    requires LastPart(sent, first.key, {first.k}, ps, last)
    requires Evictions(Arrive(c, Wire(sent, first)).next, sent, ps) < FRAG_SLOTS
    ensures Arrive(AfterRun(c, sent, [first] + ps), Wire(sent, last)).packet == Some(sent[first.key].packet)
  {
    var at := FirstPartTurn(c, sent, first);
    assert ([first] + ps)[1..] == ps;
    ReturnedIffInTime(Arrive(c, Wire(sent, first)).next, sent, first.key, at, {first.k}, ps, last);
  }

  /** However full of stale parts the slots are, two peers' packets of two fragments each get through interleaved. */
  lemma PeersInterleave(c: Collector, sent: map<FragKey, Cutting>, e0: Piece, f0: Piece, e1: Piece, f1: Piece)
    requires Sane(c, sent) && Evicts(c, e0.key) && Evicts(c, f0.key) && e0.key != f0.key
    requires Genuine(sent, e0) && Genuine(sent, f0) && Genuine(sent, e1) && Genuine(sent, f1)
    requires e1.key == e0.key && f1.key == f0.key && e0.k != e1.k && f0.k != f1.k && sent[e0.key].parts == sent[f0.key].parts == 2
    ensures
      var a1 := Arrive(c, Wire(sent, e0));
      var a2 := Arrive(a1.next, Wire(sent, f0));
      var a3 := Arrive(a2.next, Wire(sent, e1));
      var a4 := Arrive(a3.next, Wire(sent, f1));
      && a1.packet == a2.packet == None
      && a3.packet == Some(sent[e0.key].packet) && a4.packet == Some(sent[f0.key].packet)
  {
    var a := FirstPartTurn(c, sent, e0);
    var c1 := Arrive(c, Wire(sent, e0)).next;
    NoneYet(c, sent, e0);
    StillFull(c, sent, e0, f0.key);
    var b := FirstPartTurn(c1, sent, f0);
    NoneYet(c1, sent, f0);
    OtherArrives(c1, sent, e0.key, a, {e0.k}, f0);
    var c2 := Arrive(c1, Wire(sent, f0)).next;
    BothParts(e0.k, e1.k);
    OwnArrives(c2, sent, e0.key, a, {e0.k}, e1);
    OtherArrives(c2, sent, f0.key, b, {f0.k}, e1);
    var c3 := Arrive(c2, Wire(sent, e1)).next;
    BothParts(f0.k, f1.k);
    OwnArrives(c3, sent, f0.key, b, {f0.k}, f1);
  }

  lemma BothParts(j: nat, k: nat)
    requires j < 2 && k < 2 && j != k
    ensures {j} + {k} == Below(2)
  {
    assert forall i: nat :: i in Below(2) <==> i < 2;
  }

  lemma NoneYet(c: Collector, sent: map<FragKey, Cutting>, p: Piece)
    requires Sane(c, sent) && Genuine(sent, p) && !Covers(c.slots, p.key) && sent[p.key].parts > 1
    ensures Arrive(c, Wire(sent, p)).packet == None
  {
    var at, was := ArrivesAt(c, sent, p);
    OneIsNotAll(p.k, sent[p.key].parts);
  }

  /** After a packet took the place of another all slots are busy still, with the newcomer among them. */
  lemma StillFull(c: Collector, sent: map<FragKey, Cutting>, p: Piece, other: FragKey)
    requires Sane(c, sent) && Genuine(sent, p) && Evicts(c, p.key) && Evicts(c, other) && other != p.key && sent[p.key].parts > 1
    ensures Evicts(Arrive(c, Wire(sent, p)).next, other)
  {
    NoneYet(c, sent, p);
    var at, was := ArrivesAt(c, sent, p);
    assert forall i | 0 <= i < |c.slots| :: !InSlot(c.slots[i], other);
    StaysOut(c.slots, Arrive(c, Wire(sent, p)).next.slots, at, other);
  }

  /**
   * A free slot can be next in turn: a packet that took it is displaced by the
   * very next packet that finds none, and is not returned.
   */
  lemma FreeSlotIsNext(c: Collector, sent: map<FragKey, Cutting>, p0: Piece, q: Piece, p1: Piece)
    requires Sane(c, sent) && FirstFree(c.slots) == c.evict % FRAG_SLOTS
    requires forall i | 0 <= i < FRAG_SLOTS && i != FirstFree(c.slots) :: c.slots[i].used
    requires !Covers(c.slots, p0.key) && !Covers(c.slots, q.key) && p0.key != q.key && p1.key == p0.key && p0.k != p1.k
    requires Genuine(sent, p0) && Genuine(sent, q) && Genuine(sent, p1) && sent[p0.key].parts == sent[q.key].parts == 2
    ensures AllGenuine(sent, [q])
    ensures Arrive(AfterRun(Arrive(c, Wire(sent, p0)).next, sent, [q]), Wire(sent, p1)).packet == None
  {
    assert Genuine(sent, [q][0]) && [q][1..] == [];
    var at := FirstPartTurn(c, sent, p0);
    var next := NewcomerInTurn(c, sent, p0, q, at);
    OneSent(sent, p0, q, p1);
    ReturnedIffInTime(next, sent, p0.key, at, {p0.k}, [q], p1);
  }

  lemma OneSent(sent: map<FragKey, Cutting>, p0: Piece, q: Piece, p1: Piece)
    requires Genuine(sent, p0) && Genuine(sent, p1) && Genuine(sent, q) && p1.key == p0.key && q.key != p0.key && p0.k != p1.k
    requires sent[p0.key].parts == 2
    ensures PartsIn([q], p0.key) == {} && LastPart(sent, p0.key, {p0.k}, [q], p1)
  {
    assert [q][1..] == [];
    BothParts(p0.k, p1.k);
    assert {p0.k} + {} == {p0.k};
  }

  lemma NewcomerInTurn(c: Collector, sent: map<FragKey, Cutting>, p: Piece, q: Piece, at: nat) returns (next: Collector)
    requires Sane(c, sent) && at == FirstFree(c.slots) == c.evict % FRAG_SLOTS && Genuine(sent, q)
    requires forall i | 0 <= i < FRAG_SLOTS && i != at :: c.slots[i].used
    requires Genuine(sent, p) && !Covers(c.slots, p.key) && !Covers(c.slots, q.key) && p.key != q.key && sent[p.key].parts > 1
    ensures next == Arrive(c, Wire(sent, p)).next && AllGenuine(sent, [q])
    ensures Turn(next, at) == 0 && Evictions(next, sent, [q]) == 1
  {
    NoneYet(c, sent, p);
    var i, was := ArrivesAt(c, sent, p);
    next := Arrive(c, Wire(sent, p)).next;
    NewcomerFinds(c, next, sent, p.key, q.key, i, was);
    assert Genuine(sent, [q][0]) && [q][1..] == [];
  }

  /** The slots are full, and the one last filled is next in turn. */
  lemma NewcomerFinds(c: Collector, next: Collector, sent: map<FragKey, Cutting>, key: FragKey, other: FragKey, at: nat, was: set<nat>)
    requires Went(c, next, sent, key, at, was) && FirstFree(c.slots) == c.evict % FRAG_SLOTS
    requires next.slots[at].used && forall i | 0 <= i < FRAG_SLOTS && i != FirstFree(c.slots) :: c.slots[i].used
    requires !Covers(c.slots, key) && !Covers(c.slots, other) && key != other
    ensures at == FirstFree(c.slots) && Evicts(next, other) && Turn(next, at) == 0
  {
    TurnAfter(c, next, sent, key, at, was, at);
    TurnSteps(c.evict, at);
    assert forall j | 0 <= j < |c.slots| :: !InSlot(c.slots[j], other);
    StaysOut(c.slots, next.slots, at, other);
  }

  // ---- How that comes about ----

  /** The first slots collect these packets, one each; the others are free, and nothing was displaced yet. */
  ghost predicate Lined(c: Collector, sent: map<FragKey, Cutting>, keys: seq<FragKey>) {
    && Sane(c, sent) && c.evict == 0 && |keys| <= FRAG_SLOTS
    && (forall i | 0 <= i < |keys| :: InSlot(c.slots[i], keys[i]))
    && (forall i | |keys| <= i < FRAG_SLOTS :: !c.slots[i].used)
  }

  lemma LinedNext(c: Collector, next: Collector, sent: map<FragKey, Cutting>, keys: seq<FragKey>, key: FragKey, at: nat, was: set<nat>)
    requires Lined(c, sent, keys) && |keys| < FRAG_SLOTS && key !in keys
    requires Went(c, next, sent, key, at, was) && next.slots[at].used
    ensures Lined(next, sent, keys + [key])
  {
    assert forall i | 0 <= i < FRAG_SLOTS :: !InSlot(c.slots[i], key);
    assert !c.slots[|keys|].used;
    assert FirstFree(c.slots) == |keys|;
  }

  lemma LinesUp(c: Collector, sent: map<FragKey, Cutting>, keys: seq<FragKey>, p: Piece) returns (next: Collector)
    requires Lined(c, sent, keys) && |keys| < FRAG_SLOTS && Genuine(sent, p) && p.key !in keys && sent[p.key].parts > 1
    ensures next == Arrive(c, Wire(sent, p)).next && Lined(next, sent, keys + [p.key])
    ensures Holding(next, sent, p.key, |keys|, {p.k})
  {
    next := Arrive(c, Wire(sent, p)).next;
    assert forall i | 0 <= i < FRAG_SLOTS :: !InSlot(c.slots[i], p.key);
    var at := FirstPartTurn(c, sent, p);
    var i, was := ArrivesAt(c, sent, p);
    OnlyHere(next, sent, p.key, at, {p.k});
    LinedNext(c, next, sent, keys, p.key, i, was);
  }

  /** The first of four packets in progress completes: its slot, the one in turn, is the only free one. */
  lemma FirstCompletes(c: Collector, sent: map<FragKey, Cutting>, keys: seq<FragKey>, got: set<nat>, p: Piece) returns (next: Collector)
    requires Lined(c, sent, keys) && |keys| == FRAG_SLOTS && Genuine(sent, p) && p.key == keys[0]
    requires Holding(c, sent, p.key, 0, got) && got + {p.k} == Below(sent[p.key].parts)
    ensures next == Arrive(c, Wire(sent, p)).next && Sane(next, sent) && FirstFree(next.slots) == next.evict % FRAG_SLOTS == 0
    ensures forall i | 1 <= i < FRAG_SLOTS :: InSlot(next.slots[i], keys[i])
  {
    next := Arrive(c, Wire(sent, p)).next;
    var at, was := ArrivesAt(c, sent, p);
    OwnWent(c, next, sent, p.key, 0, got, at, was);
  }

  ghost function KeysOf(ps: seq<Piece>): (r: seq<FragKey>)
    ensures |r| == |ps| && forall i | 0 <= i < |ps| :: r[i] == ps[i].key
  {
    seq(|ps|, i requires 0 <= i < |ps| => ps[i].key)
  }

  /** First fragments of packets nobody collects yet, no more than there are free slots. */
  ghost predicate Newcomers(sent: map<FragKey, Cutting>, keys: seq<FragKey>, ps: seq<Piece>) {
    && |keys| + |ps| <= FRAG_SLOTS && AllGenuine(sent, ps)
    && (forall i | 0 <= i < |ps| :: ps[i].key in sent && sent[ps[i].key].parts > 1 && ps[i].key !in keys)
    && (forall i, j | 0 <= i < j < |ps| :: ps[i].key != ps[j].key)
  }

  lemma NewcomersNext(sent: map<FragKey, Cutting>, keys: seq<FragKey>, ps: seq<Piece>)
    requires Newcomers(sent, keys, ps) && ps != []
    ensures Newcomers(sent, keys + [ps[0].key], ps[1..])
    ensures (keys + [ps[0].key]) + KeysOf(ps[1..]) == keys + KeysOf(ps)
  {
  }

  lemma OneLinesUp(c: Collector, sent: map<FragKey, Cutting>, keys: seq<FragKey>, p: Piece, got: set<nat>) returns (next: Collector)
    requires Lined(c, sent, keys) && 0 < |keys| < FRAG_SLOTS && Holding(c, sent, keys[0], 0, got)
    requires Genuine(sent, p) && p.key !in keys && sent[p.key].parts > 1
    ensures next == Arrive(c, Wire(sent, p)).next && Lined(next, sent, keys + [p.key]) && Holding(next, sent, keys[0], 0, got)
  {
    assert !c.slots[|keys|].used && !Evicts(c, p.key);
    next := LinesUp(c, sent, keys, p);
    OtherArrives(c, sent, keys[0], 0, got, p);
  }

  lemma {:induction false} AllLineUp(c: Collector, sent: map<FragKey, Cutting>, keys: seq<FragKey>, ps: seq<Piece>, got: set<nat>)
    requires Lined(c, sent, keys) && keys != [] && Newcomers(sent, keys, ps) && Holding(c, sent, keys[0], 0, got)
    ensures Lined(AfterRun(c, sent, ps), sent, keys + KeysOf(ps)) && Holding(AfterRun(c, sent, ps), sent, keys[0], 0, got)
    decreases |ps|
  {
    if ps == [] {
      assert keys + KeysOf(ps) == keys;
    } else {
      var next := OneLinesUp(c, sent, keys, ps[0], got);
      NewcomersNext(sent, keys, ps);
      AllLineUp(next, sent, keys + [ps[0].key], ps[1..], got);
    }
  }

  /** From free slots: four packets begin, and then the first completes. */
  lemma FreeSlotArises(c: Collector, sent: map<FragKey, Cutting>, first: Piece, others: seq<Piece>, second: Piece) returns (d: Collector)
    requires Sane(c, sent) && c.evict == 0 && (forall s | s in c.slots :: !s.used) && |others| == FRAG_SLOTS - 1
    requires Genuine(sent, first) && Genuine(sent, second) && Newcomers(sent, [first.key], others)
    requires second.key == first.key && second.k != first.k && sent[first.key].parts == 2
    ensures d == Arrive(AfterRun(Arrive(c, Wire(sent, first)).next, sent, others), Wire(sent, second)).next
    ensures Sane(d, sent) && FirstFree(d.slots) == d.evict % FRAG_SLOTS
    ensures forall i | 0 <= i < FRAG_SLOTS && i != FirstFree(d.slots) :: d.slots[i].used && KeyOf(d.slots[i]) in KeysOf(others)
  {
    assert c.slots[0] in c.slots && c.slots[1] in c.slots && c.slots[2] in c.slots && c.slots[3] in c.slots;
    var c1 := LinesUp(c, sent, [], first);
    assert [] + [first.key] == [first.key];
    AllLineUp(c1, sent, [first.key], others, {first.k});
    BothParts(first.k, second.k);
    d := FirstCompletes(AfterRun(c1, sent, others), sent, [first.key] + KeysOf(others), {first.k}, second);
  }

  // ---- What fragments are accepted ----

  /** Any packet of 1 to 1600 bytes may be cut into parts of any size from 200 bytes up. */
  lemma AnyCuttingValid(packet: seq<byte>, pmtu: nat)
    requires 1 <= |packet| <= 1600 && 200 <= pmtu < 0x1_0000
    ensures Cutting(packet, pmtu, (|packet| + pmtu - 1) / pmtu).Valid()
  {
    var parts := (|packet| + pmtu - 1) / pmtu;
    Quotient(|packet| + pmtu - 1, pmtu, parts);
    MulMono(200, 1, pmtu);
    if parts > 8 {
      MulMono(pmtu, 8, parts - 1);
    }
  }

  lemma Quotient(x: nat, m: nat, q: nat)
    requires m > 0 && q == x / m
    ensures m * q <= x < m * q + m && m * (q - 1) == m * q - m
  {
  }

  /** Bytes behind a fragment's data are ignored. */
  lemma TrailingIgnored(c: Collector, sent: map<FragKey, Cutting>, p: Piece, junk: seq<byte>)
    requires |c.slots| == FRAG_SLOTS && AllCut(sent) && Genuine(sent, p)
    ensures Arrive(c, Wire(sent, p) + junk) == Arrive(c, Wire(sent, p))
  {
    WireReads(sent, p);
    var c := sent[p.key];
    c.Bounds(p.k);
    var h := FragHeader(p.key.src, p.dst, p.key.id, p.k, c.parts, |c.Part(p.k)|, c.pmtu);
    var w := HeaderBytes(h) + c.Part(p.k);
    assert w + junk == HeaderBytes(h) + (c.Part(p.k) + junk);
    FragReadsBack(h, c.Part(p.k) + junk);
    FragReadsBack(h, c.Part(p.k));
    assert (w + junk)[FRAG_HEADER..FRAG_HEADER + h.len] == w[FRAG_HEADER..FRAG_HEADER + h.len];
  }
}
