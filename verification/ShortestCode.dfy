// The frames sent are as short as any that would open to the same message.

module ShortestCode {
  import opened Bytes
  import opened ZeroRunCodec
  import opened LanFraming

  /** How many zeros a string begins with. */
  function ZeroCount(s: seq<byte>): (n: nat)
    ensures n <= |s| && (forall k | 0 <= k < n :: s[k] == 0) && (n < |s| ==> s[n] != 0)
  {
    if s == [] || s[0] != 0 then 0 else 1 + ZeroCount(s[1..])
  }

  /** A pair of bytes stands for up to 256 zeros. */
  function Pairs(zeros: nat): nat {
    (zeros + MAX_RUN) / 256
  }

  lemma {:induction false} LeadingIsMin(s: seq<byte>, limit: nat)
    ensures LeadingZeros(s, limit) == Min(ZeroCount(s), limit)
    decreases |s|
  {
    if s != [] && s[0] == 0 && limit > 0 {
      LeadingIsMin(s[1..], limit - 1);
    }
  }

  lemma {:induction false} SkipsZeros(s: seq<byte>, n: nat)
    requires n <= ZeroCount(s)
    ensures ZeroCount(s[n..]) == ZeroCount(s) - n && s[n..][ZeroCount(s) - n..] == s[ZeroCount(s)..]
    decreases n
  {
    if n > 0 {
      SkipsZeros(s[1..], n - 1);
      assert s[1..][n - 1..] == s[n..];
      assert s[1..][ZeroCount(s) - 1..] == s[ZeroCount(s)..];
    } else {
      assert s[0..] == s;
    }
  }

  /** What the zeros at the front cost, and what the rest does. */
  lemma {:induction false} CodeLength(s: seq<byte>)
    ensures |Encode(s)| == 2 * Pairs(ZeroCount(s)) + |Encode(s[ZeroCount(s)..])|
    decreases |s|
  {
    var z := ZeroCount(s);
    if z == 0 {
      assert s[0..] == s;
    } else {
      var n := LeadingZeros(s[1..], MAX_RUN);
      LeadingIsMin(s[1..], MAX_RUN);
      SkipsZeros(s, 1);
      SkipsZeros(s, 1 + n);
      CodeLength(s[1 + n..]);
      assert Pairs(z) == 1 + Pairs(z - 1 - n);
    }
  }

  lemma {:induction false} ZerosInFront(n: nat, tail: seq<byte>)
    ensures ZeroCount(Zeros(n) + tail) == n + ZeroCount(tail)
    ensures (Zeros(n) + tail)[n + ZeroCount(tail)..] == tail[ZeroCount(tail)..]
    decreases n
  {
    if n == 0 {
      assert Zeros(0) + tail == tail;
    } else {
      assert (Zeros(n) + tail)[1..] == Zeros(n - 1) + tail;
      ZerosInFront(n - 1, tail);
    }
  }

  lemma PairMore(n: nat, z: nat)
    requires n <= 256
    ensures Pairs(n + z) <= 1 + Pairs(z)
  {
  }

  /** Up to 256 zeros in front never cost more than a pair. */
  lemma RunCosts(n: nat, tail: seq<byte>)
    requires 1 <= n <= 256
    ensures |Encode(Zeros(n) + tail)| <= 2 + |Encode(tail)|
  {
    ZerosInFront(n, tail);
    CodeLength(Zeros(n) + tail);
    CodeLength(tail);
    PairMore(n, ZeroCount(tail));
  }

  /** No code that a decoder expands to the data is shorter than the one the sender uses. */
  lemma {:induction false} EncodeIsShortest(code: seq<byte>, cap: nat, data: seq<byte>)
    requires Expand(code, cap) == Some(data)
    ensures |Encode(data)| <= |code|
    decreases |code|
  {
    if code != [] {
      if code[0] != 0 {
        var tail := Expand(code[1..], cap - 1).value;
        EncodeIsShortest(code[1..], cap - 1, tail);
        assert data == [code[0]] + tail && data[1..] == tail;
      } else {
        var n := Min(code[1], cap - 1);
        var tail := Expand(code[2..], cap - 1 - n).value;
        EncodeIsShortest(code[2..], cap - 1 - n, tail);
        assert data == Zeros(1 + n) + tail;
        RunCosts(1 + n, tail);
      }
    }
  }

  /** No frame that opens to the message is shorter than the one that is sent. */
  lemma FrameIsShortest(m: Message, t: u16, frame: seq<byte>)
    requires |m.body| < 0x1_0000 && HEADER_SIZE <= |frame| && Open(frame) == Some(m)
    ensures |Frame(m, t)| <= |frame|
  {
    FrameFits(m, t);
    if ReadHeader(frame).compressed != 0 {
      EncodeIsShortest(frame[HEADER_SIZE..], BUFFER_SIZE, m.body);
    }
  }
}
