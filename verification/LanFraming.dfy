// lan_protocol.cpp: packet headers, LanSocket::sendPacket and the byte-stream
// deframer behind LanSocket::recvPacket.

module LanFraming {
  import opened Bytes
  import opened ZeroRunCodec

  const BUFFER_SIZE := 2048
  const HEADER_SIZE := 12
  const LAN_MAGIC: u32 := 0x1145_1400

  datatype Header = Header(magic: u32, ptype: byte, compressed: byte, length: u16, decompressLength: u16, stamp: u16)

  function HeaderBytes(h: Header): (b: seq<byte>)
    ensures |b| == HEADER_SIZE
  {
    Le32(h.magic) + [h.ptype, h.compressed] + Le16(h.length) + Le16(h.decompressLength) + Le16(h.stamp)
  }

  function ReadHeader(s: seq<byte>): Header
    requires HEADER_SIZE <= |s|
  {
    Header(ReadLe32(s, 0), s[4], s[5], ReadLe16(s, 6), ReadLe16(s, 8), ReadLe16(s, 10))
  }

  lemma HeaderReadsBack(h: Header, rest: seq<byte>)
    ensures ReadHeader(HeaderBytes(h) + rest) == h
  {
    var s := HeaderBytes(h) + rest;
    assert s[0] == h.magic % 0x1_0000 % 0x100 && s[1] == h.magic % 0x1_0000 / 0x100;
    assert s[2] == h.magic / 0x1_0000 % 0x100 && s[3] == h.magic / 0x1_0000 / 0x100;
  }

  /** What the two ends exchange: a packet type and its payload. */
  datatype Message = Message(ptype: byte, body: seq<byte>)

  /** The stamp after t: the counter steps by one and skips 0, which means "not stamped". */
  function NextStamp(t: u16): (n: u16)
    ensures n != 0
  {
    if Low16(t + 1) == 0 then 1 else t + 1
  }

  /** The frame sendPacket hands to the transport for a message stamped t. */
  function Frame(m: Message, t: u16): (frame: seq<byte>)
    requires |m.body| < 0x1_0000
  {
    var code := Encode(m.body);
    if m.body != [] && |code| <= |m.body| then
      HeaderBytes(Header(LAN_MAGIC, m.ptype, 1, |code|, |m.body|, t)) + code
    else
      HeaderBytes(Header(LAN_MAGIC, m.ptype, 0, |m.body|, 0, t)) + m.body
  }

  /** Compression never makes a frame longer than header plus body, and is used whenever it does not. */
  lemma FrameFits(m: Message, t: u16)
    requires |m.body| < 0x1_0000
    ensures HEADER_SIZE <= |Frame(m, t)| <= HEADER_SIZE + |m.body|
    ensures |Frame(m, t)| == HEADER_SIZE + Min(|m.body|, |Encode(m.body)|)
  {
  }

  /** Why a read hands nothing to the caller, or the whole frame it cut off. */
  datatype Part = Incomplete | Reset | Packet(frame: seq<byte>)

  /** What one read leaves behind: its outcome and the bytes still buffered. */
  datatype Cut = Cut(part: Part, rest: seq<byte>)

  /** The effect of a read that brought the buffered bytes to s. */
  function Deframe(s: seq<byte>): (c: Cut)
    ensures |s| <= BUFFER_SIZE ==> |c.rest| < BUFFER_SIZE
  {
    if |s| < HEADER_SIZE then Cut(Incomplete, s)
    else
      var h := ReadHeader(s);
      var total := HEADER_SIZE + h.length;
      if h.magic != LAN_MAGIC then Cut(Reset, [])
      else if total > BUFFER_SIZE then Cut(Reset, [])
      else if |s| < total then Cut(Incomplete, s)
      else Cut(Packet(s[..total]), s[total..])
  }

  /** recvPacket's view of a whole frame; None is its -1. */
  function Open(frame: seq<byte>): Option<Message>
    requires HEADER_SIZE <= |frame|
  {
    var h := ReadHeader(frame);
    var body := frame[HEADER_SIZE..];
    if h.compressed == 0 then Some(Message(h.ptype, body))
    else
      var e := Expand(body, BUFFER_SIZE);
      if e.Some? && |e.value| == h.decompressLength then Some(Message(h.ptype, e.value)) else None
  }

  /** Opening a sent frame gives back the message, whatever its stamp and contents. */
  lemma OpenFrame(m: Message, t: u16)
    requires |m.body| <= BUFFER_SIZE
    ensures Open(Frame(m, t)) == Some(m)
    ensures ReadHeader(Frame(m, t)).stamp == t
  {
    var code := Encode(m.body);
    RoundTrip(m.body, BUFFER_SIZE);
    if m.body != [] && |code| <= |m.body| {
      var h := Header(LAN_MAGIC, m.ptype, 1, |code|, |m.body|, t);
      HeaderReadsBack(h, code);
      assert (HeaderBytes(h) + code)[HEADER_SIZE..] == code;
    } else {
      var h := Header(LAN_MAGIC, m.ptype, 0, |m.body|, 0, t);
      HeaderReadsBack(h, m.body);
      assert (HeaderBytes(h) + m.body)[HEADER_SIZE..] == m.body;
    }
  }

  /** A buffer that starts with a whole sent frame is cut exactly after it. */
  lemma CutsWholeFrame(m: Message, t: u16, s: seq<byte>)
    requires |m.body| <= BUFFER_SIZE && |Frame(m, t)| <= BUFFER_SIZE
    requires Frame(m, t) <= s
    ensures Deframe(s) == Cut(Packet(Frame(m, t)), s[|Frame(m, t)|..])
  {
    FrameHeader(m, t, s);
    assert s[..|Frame(m, t)|] == Frame(m, t);
  }

  /** A proper prefix of a sent frame is kept whole and yields nothing. */
  lemma KeepsPartFrame(m: Message, t: u16, s: seq<byte>)
    requires |m.body| <= BUFFER_SIZE && |Frame(m, t)| <= BUFFER_SIZE
    requires s < Frame(m, t)
    ensures Deframe(s) == Cut(Incomplete, s)
  {
    if HEADER_SIZE <= |s| {
      FrameHeader(m, t, s);
    }
  }

  lemma FrameHeader(m: Message, t: u16, s: seq<byte>)
    requires |m.body| < 0x1_0000
    requires HEADER_SIZE <= |s| && (s <= Frame(m, t) || Frame(m, t) <= s)
    ensures ReadHeader(s).magic == LAN_MAGIC
    ensures HEADER_SIZE + ReadHeader(s).length == |Frame(m, t)|
  {
    var code := Encode(m.body);
    var h := if m.body != [] && |code| <= |m.body|
      then Header(LAN_MAGIC, m.ptype, 1, |code|, |m.body|, t)
      else Header(LAN_MAGIC, m.ptype, 0, |m.body|, 0, t);
    assert s[..HEADER_SIZE] == Frame(m, t)[..HEADER_SIZE] == HeaderBytes(h);
    assert s == HeaderBytes(h) + s[HEADER_SIZE..];
    HeaderReadsBack(h, s[HEADER_SIZE..]);
  }

  /** What the socket layer hands to a read: bytes, or a status that is not positive. */
  datatype Io = Data(bytes: seq<byte>) | Status(code: int)

  datatype ReadResult = Nothing(code: int) | Frame1(frame: seq<byte>)
  datatype RecvResult = NoPacket(code: int) | Delivered(message: Message)

  class LanSocket {
    const buffer: array<byte>
    var recvSize: nat
    var txStamp: u16
    var rxStamp: u16

    /** Between calls there is always room for at least one more byte. */
    ghost predicate Valid()
      reads this
    {
      buffer.Length == BUFFER_SIZE && recvSize < BUFFER_SIZE
    }

    /** The bytes received and not yet cut into frames. */
    ghost function Pending(): seq<byte>
      reads this, buffer
      requires Valid()
    {
      buffer[..recvSize]
    }

    constructor ()
      ensures Valid() && fresh(buffer) && Pending() == [] && txStamp == 0
    {
      buffer := new byte[BUFFER_SIZE](_ => 0);
      recvSize, txStamp, rxStamp := 0, 0, 0;
    }

    method PrepareHeader(ptype: byte) returns (h: Header)
      modifies this`txStamp
      ensures txStamp == NextStamp(old(txStamp))
      ensures h == Header(LAN_MAGIC, ptype, 0, 0, 0, txStamp)
    {
      txStamp := Low16(txStamp + 1);
      if txStamp == 0 {
        txStamp := txStamp + 1;
      }
      h := Header(LAN_MAGIC, ptype, 0, 0, 0, txStamp);
    }

    method SendPacket(m: Message) returns (frame: seq<byte>)
      requires |m.body| < 0x1_0000
      modifies this`txStamp
      ensures txStamp == NextStamp(old(txStamp))
      ensures frame == Frame(m, txStamp)
    {
      var h := PrepareHeader(m.ptype);
      h := h.(length := |m.body|);
      var payload := m.body;
      if |m.body| > 0 {
        var ok, code := Compress(m.body, |m.body|);
        if ok {
          payload := code;
          h := h.(decompressLength := h.length, length := |code|, compressed := 1);
        }
      }
      frame := HeaderBytes(h) + payload;
    }

    /** The part of a recv that puts bytes behind those already buffered. */
    method Append(bytes: seq<byte>)
      requires Valid() && recvSize + |bytes| <= BUFFER_SIZE
      modifies this`recvSize, buffer
      ensures recvSize == old(recvSize) + |bytes| && buffer[..recvSize] == old(Pending()) + bytes
    {
      forall i | 0 <= i < |bytes| {
        buffer[recvSize + i] := bytes[i];
      }
      recvSize := recvSize + |bytes|;
      assert buffer[..old(recvSize)] == old(buffer[..recvSize]);
      assert buffer[old(recvSize)..recvSize] == bytes;
      assert buffer[..recvSize] == buffer[..old(recvSize)] + buffer[old(recvSize)..recvSize];
    }

    /** Hands out the first total bytes and moves the rest to the front. */
    method CutFront(total: nat) returns (frame: seq<byte>)
      requires buffer.Length == BUFFER_SIZE && total <= recvSize <= BUFFER_SIZE
      modifies this`recvSize, buffer
      ensures frame == old(buffer[..total]) && recvSize == old(recvSize) - total
      ensures buffer[..recvSize] == old(buffer[total..recvSize])
    {
      frame := buffer[..total];
      recvSize := recvSize - total;
      forall i | 0 <= i < recvSize {
        buffer[i] := buffer[total + i];
      }
    }

    /** One recv and at most one frame out of the buffer. */
    method RecvPartPacket(io: Io) returns (r: ReadResult)
      requires Valid()
      requires io.Data? ==> 0 < |io.bytes| <= BUFFER_SIZE - recvSize
      requires io.Status? ==> io.code <= 0
      modifies this`recvSize, buffer
      ensures Valid()
      ensures io.Status? ==> r == Nothing(io.code) && Pending() == old(Pending())
      ensures io.Data? ==>
        var c := Deframe(old(Pending()) + io.bytes);
        Pending() == c.rest && r == (if c.part.Packet? then Frame1(c.part.frame) else Nothing(0))
    {
      if io.Status? {
        return Nothing(io.code);
      }
      Append(io.bytes);
      ghost var whole := buffer[..recvSize];
      r := Nothing(0);
      if recvSize < HEADER_SIZE {
        return;
      }
      var h := ReadHeader(buffer[..recvSize]);
      if h.magic != LAN_MAGIC {
        recvSize := 0;
        return;
      }
      var total := HEADER_SIZE + h.length;
      if total > BUFFER_SIZE {
        recvSize := 0;
        return;
      }
      if recvSize < total {
        return;
      }
      var frame := CutFront(total);
      assert frame == whole[..total] && buffer[..recvSize] == whole[total..];
      r := Frame1(frame);
    }

    method RecvPacket(io: Io) returns (r: RecvResult)
      requires Valid()
      requires io.Data? ==> 0 < |io.bytes| <= BUFFER_SIZE - recvSize
      requires io.Status? ==> io.code <= 0
      modifies this`recvSize, this`rxStamp, buffer
      ensures Valid()
      ensures io.Status? ==> r == NoPacket(io.code) && Pending() == old(Pending()) && rxStamp == old(rxStamp)
      ensures io.Data? ==>
        var c := Deframe(old(Pending()) + io.bytes);
        && Pending() == c.rest
        && (!c.part.Packet? ==> r == NoPacket(0) && rxStamp == old(rxStamp))
        && (c.part.Packet? ==>
              && rxStamp == ReadHeader(c.part.frame).stamp
              && r == (var m := Open(c.part.frame); if m.Some? then Delivered(m.value) else NoPacket(-1)))
    {
      var part := RecvPartPacket(io);
      if part.Nothing? {
        return NoPacket(part.code);
      }
      var h := ReadHeader(part.frame);
      rxStamp := h.stamp;
      var body := part.frame[HEADER_SIZE..];
      if h.compressed != 0 {
        var e := Decompress(body, BUFFER_SIZE);
        if e.None? || |e.value| != h.decompressLength {
          return NoPacket(-1);
        }
        body := e.value;
      }
      r := Delivered(Message(h.ptype, body));
    }
  }

  // ---- A whole TCP stream: any packets, any chunking ----

  /** A packet with the stamp its sender's counter gave it. */
  datatype Stamped = Stamped(m: Message, stamp: u16) {
    ghost predicate Fits() {
      |m.body| <= BUFFER_SIZE && |Frame(m, stamp)| <= BUFFER_SIZE
    }
  }

  /** A packet small enough for the receiver's buffers. */
  type Sent = p: Stamped | p.Fits() witness Stamped(Message(0, []), 1)

  ghost function Wire(p: Sent): (w: seq<byte>)
    ensures HEADER_SIZE <= |w| <= BUFFER_SIZE
  {
    Frame(p.m, p.stamp)
  }

  /** The bytes a sender puts on the stream. */
  ghost function Stream(ps: seq<Sent>): seq<byte> {
    if ps == [] then [] else Wire(ps[0]) + Stream(ps[1..])
  }

  ghost function Messages(ps: seq<Sent>): seq<Message> {
    if ps == [] then [] else [ps[0].m] + Messages(ps[1..])
  }

  /** The receiving end over a run of recv calls. */
  datatype Reception = Reception(delivered: seq<Message>, failed: bool, pending: seq<byte>)

  ghost function Receive(pending: seq<byte>, chunks: seq<seq<byte>>): Reception
    decreases |chunks|
  {
    if chunks == [] then Reception([], false, pending)
    else
      var c := Deframe(pending + chunks[0]);
      var later := Receive(c.rest, chunks[1..]);
      match c.part
      case Incomplete => later
      case Reset => later.(failed := true)
      case Packet(frame) =>
        var m := Open(frame);
        if m.Some? then later.(delivered := [m.value] + later.delivered) else later.(failed := true)
  }

  /** Each recv is given between one byte and the room the buffer had left. */
  ghost predicate Chunked(pending: seq<byte>, chunks: seq<seq<byte>>)
    decreases |chunks|
  {
    chunks != [] ==>
      && 0 < |chunks[0]| <= BUFFER_SIZE - |pending|
      && Chunked(Deframe(pending + chunks[0]).rest, chunks[1..])
  }

  /** The run so far: the first k packets delivered, the bytes after them buffered. */
  ghost predicate InOrder(ps: seq<Sent>, received: seq<byte>, run: Reception) {
    && !run.failed
    && |run.pending| < BUFFER_SIZE
    && |run.delivered| <= |ps|
    && run.delivered == Messages(ps[..|run.delivered|])
    && received == Stream(ps[..|run.delivered|]) + run.pending
  }

  /**
   * However the stream is chunked, the receiver delivers the sent messages in
   * order and unchanged, never resets or fails, keeps exactly the bytes behind
   * the last delivered frame, and always leaves room for the next recv.
   */
  lemma StreamDeframes(ps: seq<Sent>, chunks: seq<seq<byte>>)
    requires Chunked([], chunks) && Flatten(chunks) <= Stream(ps)
    ensures InOrder(ps, Flatten(chunks), Receive([], chunks))
  {
    var tail := Stream(ps)[|Flatten(chunks)|..];
    assert [] + Flatten(chunks) == Flatten(chunks);
    DeframesFrom(ps, [], chunks, tail);
  }

  /**
   * Bytes that are no frame header are thrown away with all that is buffered,
   * and a stream that starts afresh behind them is received like any other.
   */
  lemma ResetRecovers(s: seq<byte>, ps: seq<Sent>, chunks: seq<seq<byte>>)
    requires HEADER_SIZE <= |s| && (ReadHeader(s).magic != LAN_MAGIC || HEADER_SIZE + ReadHeader(s).length > BUFFER_SIZE)
    requires Chunked(Deframe(s).rest, chunks) && Flatten(chunks) <= Stream(ps)
    ensures Deframe(s).part == Reset && InOrder(ps, Flatten(chunks), Receive(Deframe(s).rest, chunks))
  {
    StreamDeframes(ps, chunks);
  }

  /** What is delivered from a compressed frame is of the length its header states, and is what the body decodes to. */
  lemma DeliveredIsStated(frame: seq<byte>)
    requires HEADER_SIZE <= |frame| && ReadHeader(frame).compressed != 0
    ensures Open(frame).Some? <==>
      exists body :: |body| == ReadHeader(frame).decompressLength && Expand(frame[HEADER_SIZE..], BUFFER_SIZE) == Some(body)
    ensures Open(frame).Some? ==> |Open(frame).value.body| == ReadHeader(frame).decompressLength
  {
  }

  lemma {:induction false} DeframesFrom(ps: seq<Sent>, pending: seq<byte>, chunks: seq<seq<byte>>, tail: seq<byte>)
    requires |pending| < BUFFER_SIZE && Chunked(pending, chunks)
    requires Stream(ps) == (pending + Flatten(chunks)) + tail
    ensures InOrder(ps, pending + Flatten(chunks), Receive(pending, chunks))
    decreases |chunks|
  {
    if chunks == [] {
      assert ps[..0] == [] && pending + Flatten(chunks) == pending;
    } else {
      var s, later := pending + chunks[0], Flatten(chunks[1..]);
      FlattenStep(pending, chunks);
      NextFrame(ps, s, later + tail);
      if |s| < |Wire(ps[0])| {
        DeframesFrom(ps, s, chunks[1..], tail);
      } else {
        var rest := Deframe(s).rest;
        Cancel(Wire(ps[0]), Stream(ps[1..]), rest, later, tail);
        DeframesFrom(ps[1..], rest, chunks[1..], tail);
        AfterPacket(ps, pending, chunks, rest);
      }
    }
  }

  /** Delivering one packet and then the later ones delivers them all. */
  lemma {:induction false} AfterPacket(ps: seq<Sent>, pending: seq<byte>, chunks: seq<seq<byte>>, rest: seq<byte>)
    requires ps != [] && chunks != [] && pending + chunks[0] == Wire(ps[0]) + rest
    requires Deframe(pending + chunks[0]) == Cut(Packet(Wire(ps[0])), rest) && Open(Wire(ps[0])) == Some(ps[0].m)
    requires InOrder(ps[1..], rest + Flatten(chunks[1..]), Receive(rest, chunks[1..]))
    ensures InOrder(ps, pending + Flatten(chunks), Receive(pending, chunks))
  {
    ReceivesPacket(pending, chunks, Wire(ps[0]), rest, ps[0].m);
    OneMore(ps, pending + chunks[0], rest, Flatten(chunks[1..]), Receive(rest, chunks[1..]));
    FlattenStep(pending, chunks);
  }

  lemma {:induction false} FlattenStep(pending: seq<byte>, chunks: seq<seq<byte>>)
    requires chunks != []
    ensures (pending + chunks[0]) + Flatten(chunks[1..]) == pending + Flatten(chunks)
  {
    assert (pending + chunks[0]) + Flatten(chunks[1..]) == pending + (chunks[0] + Flatten(chunks[1..]));
  }

  lemma {:induction false} ReceivesPacket(pending: seq<byte>, chunks: seq<seq<byte>>, frame: seq<byte>, rest: seq<byte>, m: Message)
    requires chunks != [] && HEADER_SIZE <= |frame|
    requires Deframe(pending + chunks[0]) == Cut(Packet(frame), rest) && Open(frame) == Some(m)
    ensures
      var later := Receive(rest, chunks[1..]);
      Receive(pending, chunks) == later.(delivered := [m] + later.delivered)
  {
  }

  /** A read cuts off the next packet exactly when the buffer holds all of it, and otherwise waits. */
  lemma NextFrame(ps: seq<Sent>, s: seq<byte>, more: seq<byte>)
    requires s != [] && Stream(ps) == s + more
    ensures ps != []
    ensures |s| < |Wire(ps[0])| ==> Deframe(s) == Cut(Incomplete, s)
    ensures |Wire(ps[0])| <= |s| ==>
      && s == Wire(ps[0]) + Deframe(s).rest
      && Deframe(s).part == Packet(Wire(ps[0])) && Open(Wire(ps[0])) == Some(ps[0].m)
  {
    var first := Wire(ps[0]);
    OpenFrame(ps[0].m, ps[0].stamp);
    Overlap(first, Stream(ps[1..]), s, more);
    if |first| <= |s| {
      CutsWholeFrame(ps[0].m, ps[0].stamp, s);
    } else {
      KeepsPartFrame(ps[0].m, ps[0].stamp, s);
    }
  }

  /** Two ways of splitting the same bytes: the shorter head is a prefix of the longer. */
  lemma {:induction false} Overlap(a: seq<byte>, b: seq<byte>, c: seq<byte>, d: seq<byte>)
    requires a + b == c + d
    ensures if |a| <= |c| then a <= c else c < a
  {
    assert a == (a + b)[..|a|] && c == (c + d)[..|c|];
  }

  lemma {:induction false} Cancel(head: seq<byte>, stream: seq<byte>, rest: seq<byte>, later: seq<byte>, tail: seq<byte>)
    requires head + stream == ((head + rest) + later) + tail
    ensures stream == (rest + later) + tail
  {
    assert ((head + rest) + later) + tail == head + ((rest + later) + tail);
    assert stream == (head + stream)[|head|..];
    assert (rest + later) + tail == (head + ((rest + later) + tail))[|head|..];
  }

  lemma {:induction false} OneMore(ps: seq<Sent>, s: seq<byte>, rest: seq<byte>, later: seq<byte>, run: Reception)
    requires ps != [] && s == Wire(ps[0]) + rest
    requires InOrder(ps[1..], rest + later, run)
    ensures InOrder(ps, s + later, run.(delivered := [ps[0].m] + run.delivered))
  {
    var k := |run.delivered|;
    assert ps[..k + 1][1..] == ps[1..][..k];
    assert s + later == Wire(ps[0]) + (rest + later);
    assert Wire(ps[0]) + (Stream(ps[1..][..k]) + run.pending) == Stream(ps[..k + 1]) + run.pending;
  }
}
