// relay_client.cpp: RelayTransport::SendFragmented and ReassembleFrag.
//
// A packet too long for one relay frame is cut into parts of pmtu bytes; the
// receiver collects them in four slots, overwriting one round-robin when all
// four are busy.

module Fragments {
  import opened Bytes

  const FRAG_SLOTS := 4
  const SLOT_BYTES := 1600
  const MAX_PARTS := 8
  const FRAG_HEADER := 16
  const SEND_PMTU := 1024

  datatype FragHeader =
    FragHeader(src: u32, dst: u32, id: u16, part: byte, total: byte, len: u16, pmtu: u16)

  function HeaderBytes(h: FragHeader): (b: seq<byte>)
    ensures |b| == FRAG_HEADER
  {
    Be32(h.src) + Be32(h.dst) + Be16(h.id) + [h.part, h.total] + Be16(h.len) + Be16(h.pmtu)
  }

  function ReadFrag(p: seq<byte>): FragHeader
    requires FRAG_HEADER <= |p|
  {
    FragHeader(ReadBe32(p, 0), ReadBe32(p, 4), ReadBe16(p, 8), p[10], p[11], ReadBe16(p, 12), ReadBe16(p, 14))
  }

  lemma FragReadsBack(h: FragHeader, rest: seq<byte>)
    ensures ReadFrag(HeaderBytes(h) + rest) == h
  {
    var p := HeaderBytes(h) + rest;
    assert p[0..4] == Be32(h.src) && p[4..8] == Be32(h.dst) && p[8..10] == Be16(h.id);
    assert p[12..14] == Be16(h.len) && p[14..16] == Be16(h.pmtu);
    ReadsBackBe32(p, 0, h.src);
    ReadsBackBe32(p, 4, h.dst);
    ReadsBackBe16(p, 8, h.id);
    ReadsBackBe16(p, 12, h.len);
    ReadsBackBe16(p, 14, h.pmtu);
  }

  // ---- Cutting ----

  /** A packet and how it is cut: parts pieces of pmtu bytes, the last one possibly shorter. */
  datatype Cutting = Cutting(packet: seq<byte>, pmtu: nat, parts: nat) {
    ghost predicate Valid() {
      && 1 <= parts <= MAX_PARTS
      && pmtu < 0x1_0000
      && |packet| <= SLOT_BYTES
      && pmtu * (parts - 1) < |packet| <= pmtu * parts
    }

    ghost function Start(k: nat): nat {
      pmtu * k
    }

    ghost function End(k: nat): nat {
      if k == parts - 1 then |packet| else pmtu * k + pmtu
    }

    lemma Bounds(k: nat)
      requires Valid() && k < parts
      ensures Start(k) < End(k) <= |packet|
      ensures k + 1 < parts ==> End(k) == Start(k + 1)
    {
      assert pmtu * (k + 1) == pmtu * k + pmtu;
      if k + 1 < parts {
        MulMono(pmtu, k + 1, parts - 1);
      }
    }

    /** Different parts cover disjoint stretches of the packet. */
    lemma Apart(j: nat, k: nat)
      requires Valid() && j < k < parts
      ensures End(j) <= Start(k)
    {
      assert pmtu * (j + 1) == pmtu * j + pmtu;
      MulMono(pmtu, j + 1, k);
    }

    ghost function Part(k: nat): seq<byte>
      requires Valid() && k < parts
    {
      Bounds(k);
      packet[Start(k)..End(k)]
    }

    /** The frame payload (fragment header and bytes) that carries part k. */
    ghost function Fragment(src: u32, dst: u32, id: u16, k: nat): seq<byte>
      requires Valid() && k < parts
    {
      Bounds(k);
      HeaderBytes(FragHeader(src, dst, id, k, parts, |Part(k)|, pmtu)) + Part(k)
    }
  }

  lemma MulMono(m: nat, a: nat, b: nat)
    requires a <= b
    ensures m * a <= m * b
  {
  }

  // ---- Completion masks ----

  function Bit(k: nat): bv8
    requires k < 8
  {
    (1 as bv8) << k
  }

  ghost predicate Has(mask: bv8, k: nat)
    requires k < 8
  {
    mask & Bit(k) != 0
  }

  function FullMask(total: nat): bv8
    requires total <= 8
  {
    !((0xFF as bv8) << total)
  }

  ghost function Parts(mask: bv8): set<nat> {
    set k: nat | k < 8 && Has(mask, k)
  }

  lemma AddsBit(mask: bv8, k: nat)
    requires k < 8
    ensures Parts(mask | Bit(k)) == Parts(mask) + {k}
  {
    forall j: nat | j < 8
      ensures Has(mask | Bit(k), j) <==> Has(mask, j) || j == k
    {
      BitOfOr(mask, k, j);
    }
  }

  lemma BitOfOr(mask: bv8, k: nat, j: nat)
    requires k < 8 && j < 8
    ensures Has(mask | Bit(k), j) <==> Has(mask, j) || j == k
  {
    BitValues(k);
    BitValues(j);
  }

  lemma BitValues(k: nat)
    requires k < 8
    ensures Bit(k) == if k == 0 then 1 else if k == 1 then 2 else if k == 2 then 4 else if k == 3 then 8
                      else if k == 4 then 16 else if k == 5 then 32 else if k == 6 then 64 else 128
  {
  }

  ghost function Below(n: nat): (s: set<nat>)
    ensures forall k: nat :: k in s <==> k < n
  {
    if n == 0 then {} else Below(n - 1) + {n - 1}
  }

  lemma NoBits()
    ensures Parts(0) == {}
  {
  }

  lemma FullMeansAll(mask: bv8, total: nat)
    requires 1 <= total <= 8
    ensures mask == FullMask(total) <==> Parts(mask) == Below(total)
  {
    BitwiseFull(mask, total);
    if Parts(mask) == Below(total) {
      forall k: nat | k < 8
        ensures Has(mask, k) <==> k < total
      {
        assert k in Parts(mask) <==> k in Below(total);
      }
    } else {
      assert mask == FullMask(total) ==> Parts(mask) == Below(total);
    }
  }

  lemma BitwiseFull(mask: bv8, total: nat)
    requires 1 <= total <= 8
    ensures mask == FullMask(total) <==> forall k: nat | k < 8 :: Has(mask, k) <==> k < total
  {
    FullValues(total);
    forall k: nat | k < 8
      ensures Has(FullMask(total), k) <==> k < total
    {
      BitValues(k);
    }
    if forall k: nat | k < 8 :: Has(mask, k) <==> k < total {
      SameBits(mask, FullMask(total));
    }
  }

  lemma FullValues(total: nat)
    requires 1 <= total <= 8
    ensures FullMask(total) == if total == 1 then 1 else if total == 2 then 3 else if total == 3 then 7
                               else if total == 4 then 15 else if total == 5 then 31 else if total == 6 then 63
                               else if total == 7 then 127 else 255
  {
  }

  lemma SameBits(a: bv8, b: bv8)
    requires forall k: nat | k < 8 :: Has(a, k) <==> Has(b, k)
    ensures a == b
  {
    BitAgrees(a, b, 0, 1);
    BitAgrees(a, b, 1, 2);
    BitAgrees(a, b, 2, 4);
    BitAgrees(a, b, 3, 8);
    BitAgrees(a, b, 4, 16);
    BitAgrees(a, b, 5, 32);
    BitAgrees(a, b, 6, 64);
    BitAgrees(a, b, 7, 128);
  }

  lemma BitAgrees(a: bv8, b: bv8, k: nat, m: bv8)
    requires k < 8 && m == Bit(k) && (Has(a, k) <==> Has(b, k))
    ensures a & m != 0 <==> b & m != 0
  {
  }

  // ---- Reassembly slots ----

  datatype RawSlot = Slot(used: bool, id: u16, src: u32, mask: bv8, totalLen: u16, buffer: seq<byte>)

  type Slot = s: RawSlot | |s.buffer| == SLOT_BYTES && s.totalLen <= SLOT_BYTES
    witness RawSlot.Slot(false, 0, 0, 0, 0, seq(SLOT_BYTES, _ => 0))

  predicate SlotFor(s: Slot, src: u32, id: u16) {
    s.used && s.id == id && s.src == src
  }

  function FirstFor(slots: seq<Slot>, src: u32, id: u16): (i: nat)
    ensures i <= |slots|
    ensures i < |slots| ==> SlotFor(slots[i], src, id)
    ensures forall k :: 0 <= k < i ==> !SlotFor(slots[k], src, id)
  {
    if slots == [] || SlotFor(slots[0], src, id) then 0 else 1 + FirstFor(slots[1..], src, id)
  }

  function FirstFree(slots: seq<Slot>): (i: nat)
    ensures i <= |slots|
    ensures i < |slots| ==> !slots[i].used
    ensures forall k :: 0 <= k < i ==> slots[k].used
  {
    if slots == [] || !slots[0].used then 0 else 1 + FirstFree(slots[1..])
  }

  function Splice(buffer: seq<byte>, off: nat, data: seq<byte>): (r: seq<byte>)
    requires off + |data| <= |buffer|
    ensures |r| == |buffer|
  {
    buffer[..off] + data + buffer[off + |data|..]
  }

  /** The bounds every header field must meet before it becomes a buffer offset. */
  predicate Acceptable(p: seq<byte>) {
    FRAG_HEADER <= |p| &&
    var h := ReadFrag(p);
    && 1 <= h.total <= MAX_PARTS && h.part < h.total
    && h.len <= |p| - FRAG_HEADER
    && h.pmtu * h.part + h.len <= SLOT_BYTES
  }

  /** The reassembly state: four slots and the round-robin eviction counter. */
  datatype Collector = Collector(slots: seq<Slot>, evict: byte)

  /** The slot an acceptable fragment goes to, before its bytes are stored. */
  function Claim(c: Collector, src: u32, id: u16): (r: (Collector, nat))
    requires |c.slots| == FRAG_SLOTS
    ensures |r.0.slots| == FRAG_SLOTS && r.1 < FRAG_SLOTS && SlotFor(r.0.slots[r.1], src, id)
  {
    var found := FirstFor(c.slots, src, id);
    if found < FRAG_SLOTS then (c, found)
    else
      var free := FirstFree(c.slots);
      var at := if free < FRAG_SLOTS then free else c.evict % FRAG_SLOTS;
      var evict := if free < FRAG_SLOTS then c.evict else (c.evict + 1) % 0x100;
      (Collector(c.slots[at := RawSlot.Slot(true, id, src, 0, 0, c.slots[at].buffer)], evict), at)
  }

  /** A slot after the bytes of a part went in at offset off; the last part fixes the length. */
  function Stored(s: Slot, part: nat, last: bool, off: nat, data: seq<byte>): Slot
    requires part < 8 && off + |data| <= SLOT_BYTES
  {
    s.(mask := s.mask | Bit(part),
       buffer := Splice(s.buffer, off, data),
       totalLen := if last then off + |data| else s.totalLen)
  }

  /** The outcome of one fragment: the new state and the packet it completed, if any. */
  datatype Arrival = Arrival(next: Collector, packet: Option<seq<byte>>)

  function Arrive(c: Collector, p: seq<byte>): (a: Arrival)
    requires |c.slots| == FRAG_SLOTS
    ensures |a.next.slots| == FRAG_SLOTS
  {
    if !Acceptable(p) then Arrival(c, None)
    else
      var h := ReadFrag(p);
      var (claimed, at) := Claim(c, h.src, h.id);
      var s := Stored(claimed.slots[at], h.part, h.part == h.total - 1, h.pmtu * h.part, p[FRAG_HEADER..FRAG_HEADER + h.len]);
      if s.mask == FullMask(h.total) then
        Arrival(claimed.(slots := claimed.slots[at := s.(used := false)]), Some(s.buffer[..s.totalLen]))
      else
        Arrival(claimed.(slots := claimed.slots[at := s]), None)
  }

  class Reassembler {
    const slots: array<Slot>
    var evict: byte

    ghost predicate Valid()
      reads this
    {
      slots.Length == FRAG_SLOTS
    }

    ghost function State(): Collector
      reads this, slots
    {
      Collector(slots[..], evict)
    }

    constructor ()
      ensures Valid() && fresh(slots)
      ensures forall s :: s in State().slots ==> !s.used
    {
      slots := new Slot[FRAG_SLOTS](_ => RawSlot.Slot(false, 0, 0, 0, 0, seq(SLOT_BYTES, _ => 0)));
      evict := 0;
    }

    method FindSlot(src: u32, id: u16) returns (i: nat)
      requires Valid()
      ensures i == FirstFor(slots[..], src, id)
    {
      i := 0;
      assert slots[0..] == slots[..];
      while i < slots.Length
        invariant i <= slots.Length
        invariant FirstFor(slots[..], src, id) == i + FirstFor(slots[i..], src, id)
      {
        if slots[i].used && slots[i].id == id && slots[i].src == src {
          return;
        }
        assert slots[i..][1..] == slots[i + 1..];
        i := i + 1;
      }
    }

    method FindFree() returns (i: nat)
      requires Valid()
      ensures i == FirstFree(slots[..])
    {
      i := 0;
      assert slots[0..] == slots[..];
      while i < slots.Length
        invariant i <= slots.Length
        invariant FirstFree(slots[..]) == i + FirstFree(slots[i..])
      {
        if !slots[i].used {
          return;
        }
        assert slots[i..][1..] == slots[i + 1..];
        i := i + 1;
      }
    }

    /** The slot already collecting (src, id), or a newly claimed one. */
    method ClaimSlot(src: u32, id: u16) returns (at: nat)
      requires Valid()
      modifies this, slots
      ensures Valid() && (State(), at) == Claim(old(State()), src, id)
    {
      at := FindSlot(src, id);
      if at == slots.Length {
        at := FindFree();
        if at == slots.Length {
          at := evict % FRAG_SLOTS;
          evict := (evict + 1) % 0x100;
        }
        slots[at] := RawSlot.Slot(true, id, src, 0, 0, slots[at].buffer);
        assert slots[..] == old(slots[..])[at := slots[at]];
      }
    }

    method Store(at: nat, part: nat, last: bool, off: nat, data: seq<byte>)
      requires Valid() && at < FRAG_SLOTS
      requires part < 8 && off + |data| <= SLOT_BYTES
      modifies slots
      ensures slots[..] == old(slots[..])[at := Stored(old(slots[at]), part, last, off, data)]
    {
      var s: Slot := slots[at];
      s := s.(mask := s.mask | Bit(part), buffer := Splice(s.buffer, off, data));
      if last {
        s := s.(totalLen := off + |data|);
      }
      slots[at] := s;
    }

    method ReassembleFrag(p: seq<byte>) returns (packet: Option<seq<byte>>)
      requires Valid()
      modifies this, slots
      ensures Valid()
      ensures Arrival(State(), packet) == Arrive(old(State()), p)
    {
      if |p| < FRAG_HEADER {
        return None;
      }
      var h := ReadFrag(p);
      if h.total == 0 || h.total > MAX_PARTS || h.part >= h.total ||
         h.len > |p| - FRAG_HEADER || h.pmtu * h.part + h.len > SLOT_BYTES {
        return None;
      }
      var at := ClaimSlot(h.src, h.id);
      ghost var claimed := State();
      Store(at, h.part, h.part == h.total - 1, h.pmtu * h.part, p[FRAG_HEADER..FRAG_HEADER + h.len]);
      packet := None;
      if slots[at].mask == FullMask(h.total) {
        packet := Some(slots[at].buffer[..slots[at].totalLen]);
        slots[at] := slots[at].(used := false);
        assert slots[..] == claimed.slots[at := slots[at]];
      }
    }
  }
}
