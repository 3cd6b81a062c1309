// session_registry.cpp: the published peer set and the game receive ring.

module SessionRegistry {
  import opened Bytes

  const MAX_PEERS := 8
  const MAX_ENTRIES := 32
  const MAX_PAYLOAD := 1472

  /** What the registry tells the bsd handler and the relay receive path. */
  datatype Snapshot = Snapshot(active: bool, bcastIp: u32, peers: seq<u32>)

  const NO_SESSION := Snapshot(false, 0, [])

  class Registry {
    var state: Snapshot

    ghost predicate Valid()
      reads this
    {
      |state.peers| <= MAX_PEERS
    }

    constructor ()
      ensures Valid() && state == NO_SESSION
    {
      state := NO_SESSION;
    }

    method Publish(bcastIp: u32, peers: seq<u32>)
      modifies this
      ensures Valid()
      ensures state.active && state.bcastIp == bcastIp
      ensures state.peers <= peers && (|peers| <= MAX_PEERS ==> state.peers == peers)
    {
      var count := if |peers| > MAX_PEERS then MAX_PEERS else |peers|;
      state := Snapshot(true, bcastIp, peers[..count]);
    }

    /** Ending the session also empties the receive ring. */
    method Clear(rx: GameRx)
      requires rx.Valid()
      modifies this, rx
      ensures Valid() && state == NO_SESSION
      ensures rx.Valid() && rx.Contents() == []
    {
      state := NO_SESSION;
      rx.Clear();
    }
  }

  /** A game datagram as the receiving game will see it. */
  datatype Entry = Entry(src: u32, sport: u16, dport: u16, data: seq<byte>)

  /** A queue of bounded length whose oldest element makes room for a new one. */
  function DropOldest(q: seq<Entry>, e: Entry): seq<Entry> {
    (if |q| >= MAX_ENTRIES then q[|q| - MAX_ENTRIES + 1..] else q) + [e]
  }

  /** x modulo the ring size, for x less than twice that size. */
  function Wrap(x: nat): nat {
    if x < MAX_ENTRIES then x else x - MAX_ENTRIES
  }

  lemma WrapIsMod(x: nat)
    requires x < 2 * MAX_ENTRIES
    ensures x % MAX_ENTRIES == Wrap(x)
  {
  }

  /** The queue a ring stores: count entries from head on, oldest first. */
  ghost function QueueOf(ring: seq<Entry>, head: nat, count: nat): (q: seq<Entry>)
    requires |ring| == MAX_ENTRIES && head < MAX_ENTRIES && count <= MAX_ENTRIES
    ensures |q| == count
    ensures forall i | 0 <= i < count :: q[i] == ring[Wrap(head + i)]
  {
    seq(count, i requires 0 <= i < count => ring[Wrap(head + i)])
  }

  lemma EnqueueFree(ring: seq<Entry>, head: nat, count: nat, e: Entry)
    requires |ring| == MAX_ENTRIES && head < MAX_ENTRIES && count < MAX_ENTRIES
    ensures QueueOf(ring[Wrap(head + count) := e], head, count + 1) == QueueOf(ring, head, count) + [e]
  {
  }

  lemma EnqueueFull(ring: seq<Entry>, head: nat, e: Entry)
    requires |ring| == MAX_ENTRIES && head < MAX_ENTRIES
    ensures QueueOf(ring[head := e], Wrap(head + 1), MAX_ENTRIES) == QueueOf(ring, head, MAX_ENTRIES)[1..] + [e]
  {
    var q, r := QueueOf(ring[head := e], Wrap(head + 1), MAX_ENTRIES), QueueOf(ring, head, MAX_ENTRIES);
    forall i | 0 <= i < MAX_ENTRIES - 1
      ensures q[i] == r[i + 1]
    {
      assert Wrap(Wrap(head + 1) + i) == Wrap(head + (i + 1));
    }
  }

  lemma Dequeue(ring: seq<Entry>, head: nat, count: nat)
    requires |ring| == MAX_ENTRIES && head < MAX_ENTRIES && 0 < count <= MAX_ENTRIES
    ensures QueueOf(ring, head, count)[0] == ring[head]
    ensures QueueOf(ring, Wrap(head + 1), count - 1) == QueueOf(ring, head, count)[1..]
  {
    assert ring[head] == ring[Wrap(head + 0)];
    var q, r := QueueOf(ring, Wrap(head + 1), count - 1), QueueOf(ring, head, count);
    forall i | 0 <= i < count - 1
      ensures q[i] == r[i + 1]
    {
      assert Wrap(Wrap(head + 1) + i) == Wrap(head + (i + 1));
    }
  }

  class GameRx {
    const ring: array<Entry>
    var head: nat
    var count: nat
    var sessionDport: u16
    var gameFd: int

    ghost predicate Valid()
      reads this
    {
      ring.Length == MAX_ENTRIES && head < MAX_ENTRIES && count <= MAX_ENTRIES
    }

    /** The queued datagrams, oldest first. */
    ghost function Contents(): seq<Entry>
      reads this, ring
      requires Valid()
    {
      QueueOf(ring[..], head, count)
    }

    constructor ()
      ensures Valid() && fresh(ring) && Contents() == [] && sessionDport == 0 && gameFd == -1
    {
      ring := new Entry[MAX_ENTRIES](_ => Entry(0, 0, 0, []));
      head, count, sessionDport, gameFd := 0, 0, 0, -1;
    }

    method Push(e: Entry)
      requires Valid()
      modifies this, ring
      ensures Valid()
      ensures Contents() == if 0 < |e.data| <= MAX_PAYLOAD then DropOldest(old(Contents()), e) else old(Contents())
      ensures sessionDport == if 0 < |e.data| <= MAX_PAYLOAD then e.dport else old(sessionDport)
    {
      if |e.data| == 0 || |e.data| > MAX_PAYLOAD {
        return;
      }
      ghost var stored, before := ring[..], Contents();
      var slot := Place();
      ring[slot] := e;
      sessionDport := e.dport;
      assert ring[..] == stored[slot := e];
      if |before| == MAX_ENTRIES {
        EnqueueFull(stored, slot, e);
      } else {
        EnqueueFree(stored, head, |before|, e);
      }
    }

    /** Picks the slot a new datagram goes to: behind the newest, or the oldest one's when full. */
    method Place() returns (slot: nat)
      requires Valid()
      modifies this`head, this`count
      ensures Valid() && slot < MAX_ENTRIES
      ensures old(count) == MAX_ENTRIES ==> slot == old(head) && head == Wrap(slot + 1) && count == MAX_ENTRIES
      ensures old(count) < MAX_ENTRIES ==> slot == Wrap(head + old(count)) && head == old(head) && count == old(count) + 1
    {
      WrapIsMod(head + 1);
      WrapIsMod(head + count);
      if count == MAX_ENTRIES {
        slot := head;
        head := (head + 1) % MAX_ENTRIES;
      } else {
        slot := (head + count) % MAX_ENTRIES;
        count := count + 1;
      }
    }

    /** Hands out the oldest datagram, cut to the caller's buffer. */
    method Pop(maxLen: nat) returns (r: Option<(u32, u16, seq<byte>)>)
      requires Valid()
      modifies this
      ensures Valid()
      ensures old(Contents()) == [] ==> r == None && Contents() == []
      ensures old(Contents()) != [] ==>
        var e := old(Contents())[0];
        && Contents() == old(Contents())[1..]
        && r == Some((e.src, e.sport, if |e.data| < maxLen then e.data else e.data[..maxLen]))
    {
      if count == 0 {
        return None;
      }
      Dequeue(ring[..], head, count);
      WrapIsMod(head + 1);
      var e := ring[head];
      var n := if |e.data| < maxLen then |e.data| else maxLen;
      assert e.data[..|e.data|] == e.data;
      r := Some((e.src, e.sport, e.data[..n]));
      head := (head + 1) % MAX_ENTRIES;
      count := count - 1;
    }

    /** The socket the game receives on, once it is known. */
    method SetGameFd(fd: int)
      modifies this`gameFd
      ensures gameFd == fd
    {
      gameFd := fd;
    }

    method Clear()
      requires Valid()
      modifies this
      ensures Valid() && Contents() == [] && sessionDport == 0 && gameFd == -1
    {
      head, count, sessionDport, gameFd := 0, 0, 0, -1;
    }
  }

  // ---- The queue the ring implements ----

  /** The last n elements. */
  function Newest(q: seq<Entry>, n: nat): seq<Entry> {
    if |q| <= n then q else q[|q| - n..]
  }

  ghost function PushAll(q: seq<Entry>, es: seq<Entry>): seq<Entry> {
    if es == [] then q else DropOldest(PushAll(q, es[..|es| - 1]), es[|es| - 1])
  }

  /** After any number of pushes the ring holds exactly the newest datagrams, in order. */
  lemma {:induction false} KeepsNewest(q: seq<Entry>, es: seq<Entry>)
    requires |q| <= MAX_ENTRIES
    ensures PushAll(q, es) == Newest(q + es, MAX_ENTRIES)
  {
    if es == [] {
      assert q + es == q;
    } else {
      var front := es[..|es| - 1];
      KeepsNewest(q, front);
      assert es == front + [es[|es| - 1]];
      assert q + es == (q + front) + [es[|es| - 1]];
    }
  }
}
