// relay_client.cpp: IpChecksum, the Internet checksum of section 3.1 of RFC 791.

module Checksum {
  import opened Bytes

  /** Longest input whose word sum is sure to fit the u32 accumulator. */
  const MAX_SUMMED := 0x2_0002

  /** Sum of the big-endian words of d; an odd last byte is a high byte. */
  function WordSum(d: seq<byte>): nat
    decreases |d|
  {
    if d == [] then 0
    else if |d| == 1 then d[0] * 0x100
    else (d[0] as int) * 0x100 + d[1] + WordSum(d[2..])
  }

  /** The sixteen-bit one's-complement value of a sum of words. */
  function OnesComplement(sum: nat): u16 {
    if sum == 0 then 0 else (sum - 1) % 0xFFFF + 1
  }

  lemma {:induction false} WordSumBound(d: seq<byte>)
    ensures WordSum(d) <= (|d| + 1) / 2 * 0xFFFF
    decreases |d|
  {
    if |d| >= 2 {
      WordSumBound(d[2..]);
    }
  }

  lemma {:induction false} WordSumAppend(a: seq<byte>, b: seq<byte>)
    requires |a| % 2 == 0
    ensures WordSum(a + b) == WordSum(a) + WordSum(b)
    decreases |a|
  {
    if a == [] {
      assert a + b == b;
    } else {
      WordSumAppend(a[2..], b);
      assert (a + b)[2..] == a[2..] + b;
    }
  }

  /** Folding the carries in keeps the one's-complement value. */
  lemma FoldKeeps(s: nat)
    ensures OnesComplement(s % 0x1_0000 + s / 0x1_0000) == OnesComplement(s)
    ensures s >= 0x1_0000 ==> s % 0x1_0000 + s / 0x1_0000 < s
  {
    var q, r := s / 0x1_0000, s % 0x1_0000;
    if s > 0 {
      assert s - 1 == q * 0xFFFF + (q + r - 1);
      ModShift(q, q + r - 1);
    }
  }

  lemma ModShift(q: nat, x: nat)
    ensures (q * 0xFFFF + x) % 0xFFFF == x % 0xFFFF
  {
  }

  /** Folds the carries of the accumulator into its low sixteen bits. */
  method FoldCarries(sum: u32) returns (s: u16)
    ensures s == OnesComplement(sum)
  {
    var x := sum;
    while x >= 0x1_0000
      invariant OnesComplement(x) == OnesComplement(sum)
      decreases x
    {
      FoldKeeps(x);
      x := x % 0x1_0000 + x / 0x1_0000;
    }
    s := x;
  }

  method IpChecksum(d: seq<byte>) returns (c: u16)
    requires |d| <= MAX_SUMMED
    ensures c == 0xFFFF - OnesComplement(WordSum(d))
  {
    WordSumBound(d);
    var s: u32 := 0;
    var i := 0;
    assert d[0..] == d;
    while i + 1 < |d|
      invariant i <= |d| && i % 2 == 0
      invariant s + WordSum(d[i..]) == WordSum(d)
    {
      assert d[i..][2..] == d[i + 2..];
      s := s + (d[i] as int) * 0x100 + d[i + 1];
      i := i + 2;
    }
    if |d| % 2 == 1 {
      s := s + (d[|d| - 1] as int) * 0x100;
    }
    var folded := FoldCarries(s);
    c := 0xFFFF - folded;
  }

  /** The header with a checksum written at byte at. */
  function WithChecksum(d: seq<byte>, at: nat, c: u16): (r: seq<byte>)
    requires at + 2 <= |d|
    ensures |r| == |d|
  {
    d[..at] + Be16(c) + d[at + 2..]
  }

  lemma {:induction false} WordSumField(c: u16, tail: seq<byte>)
    ensures WordSum(Be16(c) + tail) == c + WordSum(tail)
  {
    assert (Be16(c) + tail)[2..] == tail;
  }

  lemma {:induction false} SumAround(head: seq<byte>, c: u16, tail: seq<byte>)
    requires |head| % 2 == 0
    ensures WordSum(head + Be16(c) + tail) == WordSum(head) + c + WordSum(tail)
  {
    WordSumAppend(head, Be16(c) + tail);
    WordSumField(c, tail);
    assert head + Be16(c) + tail == head + (Be16(c) + tail);
  }

  lemma {:induction false} SplitAtField(d: seq<byte>, at: nat)
    requires at + 2 <= |d| && d[at] == 0 && d[at + 1] == 0
    ensures d == d[..at] + Be16(0) + d[at + 2..]
  {
    assert d[at..at + 2] == Be16(0);
    assert d == d[..at] + d[at..at + 2] + d[at + 2..];
  }

  lemma {:induction false} SumWithField(d: seq<byte>, at: nat, c: u16)
    requires at % 2 == 0 && at + 2 <= |d| && d[at] == 0 && d[at + 1] == 0
    ensures WordSum(WithChecksum(d, at, c)) == WordSum(d) + c
  {
    var head, tail := d[..at], d[at + 2..];
    SplitAtField(d, at);
    SumAround(head, 0, tail);
    SumAround(head, c, tail);
  }

  lemma CompletesToOnes(sum: nat, c: u16)
    ensures
      var check := 0xFFFF - OnesComplement(sum);
      OnesComplement(sum + c) == 0xFFFF <==> c == check || (check == 0 && c == 0xFFFF)
  {
    if sum > 0 {
      var q, r := (sum - 1) / 0xFFFF, (sum - 1) % 0xFFFF;
      assert sum + c - 1 == q * 0xFFFF + (r + c);
      ModShift(q, r + c);
      assert (r + c) % 0xFFFF == 0xFFFE <==> r + c == 0xFFFE || r + c == 0x1_FFFD;
    }
  }

  /**
   * A receiver summing the whole header gets all ones exactly when the field
   * holds the computed checksum (or its other one's-complement zero).
   */
  lemma {:induction false} VerifiesIffChecksum(d: seq<byte>, at: nat, c: u16)
    requires at % 2 == 0 && at + 2 <= |d| && d[at] == 0 && d[at + 1] == 0
    ensures
      var check := 0xFFFF - OnesComplement(WordSum(d));
      OnesComplement(WordSum(WithChecksum(d, at, c))) == 0xFFFF <==> c == check || (check == 0 && c == 0xFFFF)
  {
    SumWithField(d, at, c);
    CompletesToOnes(WordSum(d), c);
  }
}
