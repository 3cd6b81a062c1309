// tcp_relay.cpp: the stream table of one console and what each event does to it.

module TunnelTable {
  import opened Bytes

  const MAX_STREAMS := 8
  const MAX_CHUNK := 1024
  const PENDING_MAX := 8 * 1024
  const TUNNEL_HEADER := 8

  const TUNNEL_OPEN: byte := 1
  const TUNNEL_DATA: byte := 2
  const TUNNEL_CLOSE: byte := 3

  // Whose id a frame's stream number is, from the receiver's point of view.
  const OWNER_SENDER: byte := 0
  const OWNER_RECEIVER: byte := 1

  // ---- Frames ----

  datatype TunnelFrame = TunnelFrame(kind: byte, owner: byte, stream: u16, port: u16, data: seq<byte>)

  function WireFrame(f: TunnelFrame): seq<byte>
    requires |f.data| <= MAX_CHUNK
  {
    [f.kind, f.owner] + Le16(f.stream) + Le16(f.port) + Le16(|f.data|) + f.data
  }

  /** A received payload; data is cut to what actually arrived. */
  function ReadTunnelFrame(p: seq<byte>): Option<TunnelFrame> {
    if |p| < TUNNEL_HEADER then None
    else
      var avail, len := |p| - TUNNEL_HEADER, ReadLe16(p, 6);
      var n: nat := if avail < len then avail else len;
      Some(TunnelFrame(p[0], p[1], ReadLe16(p, 2), ReadLe16(p, 4), p[TUNNEL_HEADER..TUNNEL_HEADER + n]))
  }

  lemma FrameSurvivesWire(f: TunnelFrame)
    requires |f.data| <= MAX_CHUNK
    ensures ReadTunnelFrame(WireFrame(f)) == Some(f)
  {
    var p := WireFrame(f);
    assert p[TUNNEL_HEADER..TUNNEL_HEADER + |f.data|] == f.data && p[0] == f.kind && p[1] == f.owner;
    assert p[2] == f.stream % 0x100 && p[3] == f.stream / 0x100;
    assert p[4] == f.port % 0x100 && p[5] == f.port / 0x100;
    assert p[6] == |f.data| % 0x100 && p[7] == |f.data| / 0x100;
  }

  /** Bytes behind a frame are ignored, and one that was torn off behind its header holds the data that is there. */
  lemma TornFrameReads(f: TunnelFrame, k: nat, junk: seq<byte>)
    requires |f.data| <= MAX_CHUNK && k <= |WireFrame(f)|
    ensures ReadTunnelFrame(WireFrame(f) + junk) == Some(f)
    ensures ReadTunnelFrame(WireFrame(f)[..k]) == if k < TUNNEL_HEADER then None else Some(f.(data := f.data[..k - TUNNEL_HEADER]))
  {
    HeaderStays(f, WireFrame(f) + junk);
    var p, n := WireFrame(f) + junk, |f.data|;
    assert p[TUNNEL_HEADER..TUNNEL_HEADER + n] == f.data;
    if k >= TUNNEL_HEADER {
      HeaderStays(f, WireFrame(f)[..k]);
      assert WireFrame(f)[..k][TUNNEL_HEADER..k] == f.data[..k - TUNNEL_HEADER];
    }
  }

  lemma HeaderStays(f: TunnelFrame, p: seq<byte>)
    requires |f.data| <= MAX_CHUNK && TUNNEL_HEADER <= |p| && forall i | 0 <= i < TUNNEL_HEADER :: p[i] == WireFrame(f)[i]
    ensures p[0] == f.kind && p[1] == f.owner && ReadLe16(p, 2) == f.stream && ReadLe16(p, 4) == f.port && ReadLe16(p, 6) == |f.data|
  {
    var w := WireFrame(f);
    assert w[2] == f.stream % 0x100 && w[3] == f.stream / 0x100;
    assert w[4] == f.port % 0x100 && w[5] == f.port / 0x100;
    assert w[6] == |f.data| % 0x100 && w[7] == |f.data| / 0x100;
  }

  // ---- The table ----

  datatype Stream = Stream(used: bool, originator: bool, id: u16, peer: u32, gameFd: int, localPort: u16,
                           listener: int, sock: int, pending: seq<byte>)

  const FREE := Stream(false, false, 0, 0, -1, 0, -1, -1, [])

  datatype Table = Table(streams: seq<Stream>, nextId: u16)

  /** A slot not in use holds nothing, and no slot holds more than its buffer. */
  ghost predicate Tidy(streams: seq<Stream>) {
    forall i | 0 <= i < |streams| :: (!streams[i].used ==> streams[i] == FREE) && |streams[i].pending| <= PENDING_MAX
  }

  predicate Matches(s: Stream, peer: u32, id: u16, originator: bool) {
    s.used && s.id == id && s.peer == peer && s.originator == originator
  }

  function Find(streams: seq<Stream>, peer: u32, id: u16, originator: bool): (i: nat)
    ensures i <= |streams|
    ensures i < |streams| ==> Matches(streams[i], peer, id, originator)
    ensures forall k :: 0 <= k < i ==> !Matches(streams[k], peer, id, originator)
  {
    if streams == [] || Matches(streams[0], peer, id, originator) then 0
    else 1 + Find(streams[1..], peer, id, originator)
  }

  predicate IsGame(s: Stream, fd: int) {
    s.used && s.originator && s.gameFd == fd
  }

  function FindGame(streams: seq<Stream>, fd: int): (i: nat)
    ensures i <= |streams|
    ensures i < |streams| ==> IsGame(streams[i], fd)
    ensures forall k :: 0 <= k < i ==> !IsGame(streams[k], fd)
  {
    if streams == [] || IsGame(streams[0], fd) then 0 else 1 + FindGame(streams[1..], fd)
  }

  function FindFree(streams: seq<Stream>): (i: nat)
    ensures i <= |streams|
    ensures i < |streams| ==> !streams[i].used
    ensures forall k :: 0 <= k < i ==> streams[k].used
  {
    if streams == [] || !streams[0].used then 0 else 1 + FindFree(streams[1..])
  }

  function OwnerOf(s: Stream): byte {
    if s.originator then OWNER_SENDER else OWNER_RECEIVER
  }

  function CloseOf(s: Stream): TunnelFrame {
    TunnelFrame(TUNNEL_CLOSE, OwnerOf(s), s.id, 0, [])
  }

  function DataOf(s: Stream, data: seq<byte>): TunnelFrame {
    TunnelFrame(TUNNEL_DATA, OwnerOf(s), s.id, 0, data)
  }

  // ---- Events ----

  /** One send() on a local socket: some bytes taken, none for now, or an error. */
  datatype SendResult = Took(n: nat) | WouldBlock | Failed

  datatype Flushed = Flushed(took: seq<byte>, left: seq<byte>, failed: bool)

  /** Pushing pending bytes into a local socket that answers with sends (and then would block). */
  function Flush(pending: seq<byte>, sends: seq<SendResult>): Flushed
    decreases |sends|
  {
    if pending == [] || sends == [] || sends[0].WouldBlock? then Flushed([], pending, false)
    else if sends[0].Failed? || sends[0].n == 0 then Flushed([], pending, true)
    else
      var n := if sends[0].n < |pending| then sends[0].n else |pending|;
      var rest := Flush(pending[n..], sends[1..]);
      Flushed(pending[..n] + rest.took, rest.left, rest.failed)
  }

  /** Nothing is lost or reordered between the bytes taken and the bytes left. */
  lemma {:induction false} FlushSplits(pending: seq<byte>, sends: seq<SendResult>)
    ensures Flush(pending, sends).took + Flush(pending, sends).left == pending
    decreases |sends|
  {
    if pending != [] && sends != [] && sends[0].Took? && sends[0].n > 0 {
      var n := if sends[0].n < |pending| then sends[0].n else |pending|;
      var rest := Flush(pending[n..], sends[1..]);
      FlushSplits(pending[n..], sends[1..]);
      SplitOff(pending, n, rest.took, rest.left);
    }
  }

  lemma SplitOff(whole: seq<byte>, n: nat, a: seq<byte>, b: seq<byte>)
    requires n <= |whole| && a + b == whole[n..]
    ensures (whole[..n] + a) + b == whole
  {
    assert (whole[..n] + a) + b == whole[..n] + (a + b);
  }

  /** How much the socket takes before it blocks or fails, if there is that much. */
  function Granted(sends: seq<SendResult>): nat {
    if sends == [] || !sends[0].Took? || sends[0].n == 0 then 0 else sends[0].n + Granted(sends[1..])
  }

  /** Whether it then fails: an error, or an empty send. */
  predicate Breaks(sends: seq<SendResult>) {
    sends != [] && if sends[0].Took? && sends[0].n > 0 then Breaks(sends[1..]) else !sends[0].WouldBlock?
  }

  /** A flush pushes all the socket takes, and fails only if the socket does while bytes are left; blocking is no failure. */
  lemma {:induction false} FlushFailsIff(pending: seq<byte>, sends: seq<SendResult>)
    ensures |Flush(pending, sends).took| == if Granted(sends) < |pending| then Granted(sends) else |pending|
    ensures Flush(pending, sends).failed <==> Granted(sends) < |pending| && Breaks(sends)
    decreases |sends|
  {
    if pending != [] && sends != [] && sends[0].Took? && sends[0].n > 0 {
      FlushFailsIff(pending[if sends[0].n < |pending| then sends[0].n else |pending|..], sends[1..]);
    }
  }

  datatype Outgoing = Outgoing(peer: u32, frame: TunnelFrame)

  /** What an event did: the new table, the frames sent, the bytes a local socket took. */
  datatype Effect = Effect(table: Table, out: seq<Outgoing>, took: seq<byte>)

  function WithStream(t: Table, i: nat, s: Stream): Table
    requires i < |t.streams|
  {
    t.(streams := t.streams[i := s])
  }

  function FlushSlot(t: Table, i: nat, sends: seq<SendResult>): Effect
    requires i < |t.streams|
  {
    var s := t.streams[i];
    var f := Flush(s.pending, sends);
    if s.sock < 0 then Effect(t, [], [])
    else if f.failed then Effect(WithStream(t, i, FREE), [Outgoing(s.peer, CloseOf(s))], f.took)
    else Effect(WithStream(t, i, s.(pending := f.left)), [], f.took)
  }

  /** The game connected to our listener: its socket takes over, and what waited is flushed. */
  function AcceptSlot(t: Table, i: nat, fd: nat, sends: seq<SendResult>): Effect
    requires i < |t.streams|
  {
    FlushSlot(WithStream(t, i, t.streams[i].(listener := -1, sock := fd)), i, sends)
  }

  function ReadSlot(t: Table, i: nat, data: seq<byte>): Effect
    requires i < |t.streams|
  {
    Effect(t, [Outgoing(t.streams[i].peer, DataOf(t.streams[i], data))], [])
  }

  /** The local socket closed or failed: tell the peer and forget the stream. */
  function ShutSlot(t: Table, i: nat): Effect
    requires i < |t.streams|
  {
    Effect(WithStream(t, i, FREE), [Outgoing(t.streams[i].peer, CloseOf(t.streams[i]))], [])
  }

  /** An Open: connect to our game's listener; fd is that socket, None if it cannot be reached. */
  function OnOpen(t: Table, src: u32, f: TunnelFrame, fd: Option<nat>): Effect {
    var free := FindFree(t.streams);
    if Find(t.streams, src, f.stream, false) < |t.streams| || free == |t.streams| then Effect(t, [], [])
    else if fd.None? then
      Effect(t, [Outgoing(src, TunnelFrame(TUNNEL_CLOSE, OWNER_RECEIVER, f.stream, 0, []))], [])
    else
      Effect(WithStream(t, free, Stream(true, false, f.stream, src, -1, 0, -1, fd.value, [])), [], [])
  }

  function OnData(t: Table, src: u32, f: TunnelFrame, sends: seq<SendResult>): Effect {
    var i := Find(t.streams, src, f.stream, f.owner == OWNER_RECEIVER);
    if i == |t.streams| || f.data == [] then Effect(t, [], [])
    else
      var s := t.streams[i];
      if |s.pending| + |f.data| > PENDING_MAX then ShutSlot(t, i)
      else FlushSlot(WithStream(t, i, s.(pending := s.pending + f.data)), i, sends)
  }

  function OnClose(t: Table, src: u32, f: TunnelFrame): Effect {
    var i := Find(t.streams, src, f.stream, f.owner == OWNER_RECEIVER);
    Effect(if i == |t.streams| then t else WithStream(t, i, FREE), [], [])
  }

  function OnFrame(t: Table, src: u32, f: TunnelFrame, fd: Option<nat>, sends: seq<SendResult>): Effect {
    if f.kind == TUNNEL_OPEN then OnOpen(t, src, f, fd)
    else if f.kind == TUNNEL_DATA then OnData(t, src, f, sends)
    else if f.kind == TUNNEL_CLOSE then OnClose(t, src, f)
    else Effect(t, [], [])
  }

  /** How far setting up a redirected connect gets. */
  datatype Setup = NoListener | DispatchFailed(lfd: nat, lport: u16) | Ready(lfd: nat, lport: u16)

  /** The game's connect to a known peer; the result says whether it was taken over. */
  function Redirect(t: Table, gameFd: int, dst: u32, port: u16, setup: Setup): (Effect, bool) {
    var free := FindFree(t.streams);
    if FindGame(t.streams, gameFd) < |t.streams| then (Effect(t, [], []), setup.Ready?)
    else if free == |t.streams| || setup.NoListener? then (Effect(t, [], []), false)
    else
      var next := Low16(t.nextId + 1);
      if setup.DispatchFailed? then (Effect(t.(nextId := next), [], []), false)
      else
        var s := Stream(true, true, t.nextId, dst, gameFd, setup.lport, setup.lfd, -1, []);
        (Effect(WithStream(t, free, s).(nextId := next),
                [Outgoing(dst, TunnelFrame(TUNNEL_OPEN, OWNER_SENDER, t.nextId, port, []))], []), true)
  }

  /** Stopping the pump forgets every stream without telling the peers. */
  function Stopped(t: Table): Table {
    t.(streams := seq(|t.streams|, _ => FREE))
  }

  // ---- The table in memory ----

  class TcpRelay {
    const streams: array<Stream>
    var nextId: u16

    ghost predicate Valid()
      reads this, streams
    {
      streams.Length == MAX_STREAMS && Tidy(streams[..])
    }

    ghost function View(): Table
      reads this, streams
    {
      Table(streams[..], nextId)
    }

    constructor ()
      ensures Valid() && fresh(streams) && nextId == 1
      ensures forall i | 0 <= i < MAX_STREAMS :: streams[i] == FREE
    {
      streams := new Stream[MAX_STREAMS](_ => FREE);
      nextId := 1;
    }

    method FindById(peer: u32, id: u16, originator: bool) returns (i: nat)
      requires Valid()
      ensures i == Find(streams[..], peer, id, originator)
    {
      i := 0;
      assert streams[0..] == streams[..];
      while i < streams.Length
        invariant i <= streams.Length
        invariant Find(streams[..], peer, id, originator) == i + Find(streams[i..], peer, id, originator)
      {
        if streams[i].used && streams[i].id == id && streams[i].peer == peer && streams[i].originator == originator {
          return;
        }
        assert streams[i..][1..] == streams[i + 1..];
        i := i + 1;
      }
    }

    method FindByGameFd(fd: int) returns (i: nat)
      requires Valid()
      ensures i == FindGame(streams[..], fd)
    {
      i := 0;
      assert streams[0..] == streams[..];
      while i < streams.Length
        invariant i <= streams.Length
        invariant FindGame(streams[..], fd) == i + FindGame(streams[i..], fd)
      {
        if streams[i].used && streams[i].originator && streams[i].gameFd == fd {
          return;
        }
        assert streams[i..][1..] == streams[i + 1..];
        i := i + 1;
      }
    }

    /** The first unused slot, cleared for its new owner. */
    method Alloc() returns (i: nat)
      requires Valid()
      modifies streams
      ensures streams.Length == MAX_STREAMS && i == FindFree(old(streams[..]))
      ensures streams[..] == if i < MAX_STREAMS then old(streams[..])[i := FREE.(used := true)] else old(streams[..])
    {
      i := 0;
      assert streams[0..] == streams[..];
      while i < streams.Length
        invariant i <= streams.Length && streams[..] == old(streams[..])
        invariant FindFree(streams[..]) == i + FindFree(streams[i..])
      {
        if !streams[i].used {
          streams[i] := FREE.(used := true);
          return;
        }
        assert streams[i..][1..] == streams[i + 1..];
        i := i + 1;
      }
    }

    method Release(i: nat)
      requires streams.Length == MAX_STREAMS && i < MAX_STREAMS
      modifies streams
      ensures streams[..] == old(streams[..])[i := FREE]
    {
      streams[i] := FREE;
    }

    method FlushPending(i: nat, sends: seq<SendResult>) returns (out: seq<Outgoing>, took: seq<byte>)
      requires Valid() && i < MAX_STREAMS && streams[i].used
      modifies streams
      ensures Valid()
      ensures Effect(View(), out, took) == FlushSlot(old(View()), i, sends)
    {
      out, took := [], [];
      if streams[i].sock < 0 {
        return;
      }
      ghost var before := streams[..];
      var failed: bool;
      failed, took := PushOut(i, sends);
      if failed {
        out := [Outgoing(streams[i].peer, CloseOf(streams[i]))];
        Release(i);
      }
      assert streams[..] == before[i := streams[i]];
    }

    /** Sends until the local socket takes no more; true when it is broken. */
    method PushOut(i: nat, sends: seq<SendResult>) returns (failed: bool, took: seq<byte>)
      requires Valid() && i < MAX_STREAMS && streams[i].used && streams[i].sock >= 0
      modifies streams
      ensures Valid()
      ensures streams[..] == old(streams[..])[i := old(streams[i]).(pending := streams[i].pending)]
      ensures Flushed(took, streams[i].pending, failed) == Flush(old(streams[i].pending), sends)
    {
      failed, took := false, [];
      ghost var s0, all := streams[i], Flush(streams[i].pending, sends);
      var k := 0;
      assert sends[0..] == sends;
      while |streams[i].pending| > 0
        invariant Valid() && k <= |sends|
        invariant streams[i] == s0.(pending := streams[i].pending)
        invariant streams[..] == old(streams[..])[i := streams[i]]
        invariant all == Prefixed(took, Flush(streams[i].pending, sends[k..]))
        decreases |sends| - k
      {
        if k == |sends| || sends[k].WouldBlock? {
          return;
        }
        if sends[k].Failed? || sends[k].n == 0 {
          failed := true;
          return;
        }
        var n := if sends[k].n < |streams[i].pending| then sends[k].n else |streams[i].pending|;
        FlushTakes(took, streams[i].pending, sends, k);
        took := took + streams[i].pending[..n];
        Drop(i, n);
        k := k + 1;
      }
    }

    /** The first n pending bytes have been taken. */
    method Drop(i: nat, n: nat)
      requires Valid() && i < MAX_STREAMS && streams[i].used && n <= |streams[i].pending|
      modifies streams
      ensures Valid() && streams[..] == old(streams[..])[i := old(streams[i]).(pending := old(streams[i]).pending[n..])]
    {
      streams[i] := streams[i].(pending := streams[i].pending[n..]);
    }

    /** Our listener became readable. */
    method PumpAccept(i: nat, fd: nat, sends: seq<SendResult>) returns (out: seq<Outgoing>, took: seq<byte>)
      requires Valid() && i < MAX_STREAMS && streams[i].used && streams[i].listener >= 0
      modifies streams
      ensures Valid()
      ensures Effect(View(), out, took) == AcceptSlot(old(View()), i, fd, sends)
    {
      streams[i] := streams[i].(listener := -1, sock := fd);
      assert streams[..] == old(streams[..])[i := streams[i]];
      out, took := FlushPending(i, sends);
    }

    /** A local socket is readable: data (never more than MAX_CHUNK), or None for an end or an error. */
    method PumpRead(i: nat, got: Option<seq<byte>>) returns (out: seq<Outgoing>)
      requires Valid() && i < MAX_STREAMS && streams[i].used && streams[i].sock >= 0
      requires got.Some? ==> 0 < |got.value| <= MAX_CHUNK
      modifies streams
      ensures Valid()
      ensures Effect(View(), out, [])
           == if got.Some? then ReadSlot(old(View()), i, got.value) else ShutSlot(old(View()), i)
    {
      if got.Some? {
        out := [Outgoing(streams[i].peer, DataOf(streams[i], got.value))];
      } else {
        out := [Outgoing(streams[i].peer, CloseOf(streams[i]))];
        Release(i);
      }
    }

    method RedirectConnect(enabled: bool, isPeer: bool, gameFd: int, dst: u32, port: u16, setup: Setup)
      returns (handled: bool, out: seq<Outgoing>)
      requires Valid()
      modifies this`nextId, streams
      ensures Valid()
      ensures !(enabled && isPeer) ==> !handled && out == [] && View() == old(View())
      ensures enabled && isPeer ==> (Effect(View(), out, []), handled) == Redirect(old(View()), gameFd, dst, port, setup)
    {
      out := [];
      if !enabled || !isPeer {
        return false, [];
      }
      var existing := FindByGameFd(gameFd);
      if existing < MAX_STREAMS {
        return setup.Ready?, [];
      }
      var i := Alloc();
      if i == MAX_STREAMS {
        return false, [];
      }
      if setup.NoListener? {
        Release(i);
        assert streams[..] == old(streams[..]);
        return false, [];
      }
      var id := nextId;
      nextId := Low16(nextId + 1);
      streams[i] := Stream(true, true, id, dst, gameFd, setup.lport, setup.lfd, -1, []);
      if setup.DispatchFailed? {
        Release(i);
        assert streams[..] == old(streams[..]);
        return false, [];
      }
      assert streams[..] == old(streams[..])[i := streams[i]];
      return true, [Outgoing(dst, TunnelFrame(TUNNEL_OPEN, OWNER_SENDER, id, port, []))];
    }

    method OnTunnelFrame(src: u32, payload: seq<byte>, fd: Option<nat>, sends: seq<SendResult>)
      returns (out: seq<Outgoing>, took: seq<byte>)
      requires Valid()
      modifies streams
      ensures Valid()
      ensures
        var f := ReadTunnelFrame(payload);
        Effect(View(), out, took) == if f.None? then Effect(old(View()), [], []) else OnFrame(old(View()), src, f.value, fd, sends)
    {
      out, took := [], [];
      if |payload| < TUNNEL_HEADER {
        return;
      }
      var frame := ReadTunnelFrame(payload);
      var f := frame.value;
      if f.kind == TUNNEL_OPEN {
        out := HandleOpen(src, f, fd);
      } else if f.kind == TUNNEL_DATA {
        out, took := HandleData(src, f, sends);
      } else if f.kind == TUNNEL_CLOSE {
        var i := FindById(src, f.stream, f.owner == OWNER_RECEIVER);
        if i < MAX_STREAMS {
          Release(i);
        }
      }
    }

    method HandleOpen(src: u32, f: TunnelFrame, fd: Option<nat>) returns (out: seq<Outgoing>)
      requires Valid()
      modifies streams
      ensures Valid()
      ensures Effect(View(), out, []) == OnOpen(old(View()), src, f, fd)
    {
      out := [];
      var known := FindById(src, f.stream, false);
      if known < MAX_STREAMS {
        return;
      }
      var i := Alloc();
      if i == MAX_STREAMS {
        return;
      }
      streams[i] := Stream(true, false, f.stream, src, -1, 0, -1, if fd.Some? then fd.value else -1, []);
      if fd.None? {
        out := [Outgoing(src, TunnelFrame(TUNNEL_CLOSE, OWNER_RECEIVER, f.stream, 0, []))];
        Release(i);
        assert streams[..] == old(streams[..]);
        return;
      }
      assert streams[..] == old(streams[..])[i := streams[i]];
    }

    method HandleData(src: u32, f: TunnelFrame, sends: seq<SendResult>) returns (out: seq<Outgoing>, took: seq<byte>)
      requires Valid()
      modifies streams
      ensures Valid()
      ensures Effect(View(), out, took) == OnData(old(View()), src, f, sends)
    {
      out, took := [], [];
      var i := FindById(src, f.stream, f.owner == OWNER_RECEIVER);
      if i == MAX_STREAMS || |f.data| == 0 {
        return;
      }
      if |streams[i].pending| + |f.data| > PENDING_MAX {
        out := [Outgoing(streams[i].peer, CloseOf(streams[i]))];
        Release(i);
        return;
      }
      streams[i] := streams[i].(pending := streams[i].pending + f.data);
      assert streams[..] == old(streams[..])[i := streams[i]];
      out, took := FlushPending(i, sends);
    }

    method Stop()
      requires Valid()
      modifies streams
      ensures Valid()
      ensures View() == Stopped(old(View()))
    {
      for i := 0 to streams.Length
        invariant streams.Length == MAX_STREAMS && Tidy(streams[..])
        invariant forall k | 0 <= k < i :: streams[k] == FREE
      {
        Release(i);
      }
    }
  }

  function Prefixed(head: seq<byte>, f: Flushed): Flushed {
    f.(took := head + f.took)
  }

  lemma {:induction false} FlushTakes(took: seq<byte>, pending: seq<byte>, sends: seq<SendResult>, k: nat)
    requires pending != [] && k < |sends| && sends[k].Took? && sends[k].n > 0
    ensures
      var n := if sends[k].n < |pending| then sends[k].n else |pending|;
      Prefixed(took, Flush(pending, sends[k..])) == Prefixed(took + pending[..n], Flush(pending[n..], sends[k + 1..]))
  {
    var n := if sends[k].n < |pending| then sends[k].n else |pending|;
    assert sends[k..][1..] == sends[k + 1..];
    var rest := Flush(pending[n..], sends[k + 1..]);
    assert took + (pending[..n] + rest.took) == (took + pending[..n]) + rest.took;
  }
}
