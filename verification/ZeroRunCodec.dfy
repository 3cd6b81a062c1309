// lan_protocol.cpp: LanSocket::compress and LanSocket::decompress.
//
// A zero byte is written as a zero followed by the number (0..255) of further
// zeros it stands for; every other byte is copied.

module ZeroRunCodec {
  import opened Bytes

  const MAX_RUN := 0xFF

  /** How many leading bytes of s are zero, counting at most limit of them. */
  function LeadingZeros(s: seq<byte>, limit: nat): (n: nat)
    ensures n <= limit && n <= |s|
    ensures forall k :: 0 <= k < n ==> s[k] == 0
    ensures n < limit && n < |s| ==> s[n] != 0
  {
    if limit == 0 || s == [] || s[0] != 0 then 0 else 1 + LeadingZeros(s[1..], limit - 1)
  }

  /** The code of data, with no bound on the output. */
  function Encode(data: seq<byte>): (code: seq<byte>)
    ensures data != [] ==> code != []
    decreases |data|
  {
    if data == [] then []
    else if data[0] != 0 then [data[0]] + Encode(data[1..])
    else
      var n := LeadingZeros(data[1..], MAX_RUN);
      [0, n] + Encode(data[1 + n..])
  }

  function Zeros(n: nat): (z: seq<byte>)
    ensures |z| == n && forall k :: 0 <= k < n ==> z[k] == 0
  {
    seq(n, _ => 0)
  }

  function Min(a: nat, b: nat): nat {
    if a < b then a else b
  }

  /** What a decoder with room for cap bytes makes of code; None is its -1. */
  function Expand(code: seq<byte>, cap: nat): (r: Option<seq<byte>>)
    ensures r.Some? ==> |r.value| <= cap
  {
    if code == [] then Some([])
    else if cap == 0 then None
    else if code[0] != 0 then Prepend([code[0]], Expand(code[1..], cap - 1))
    else if |code| == 1 then None
    else
      var n := Min(code[1], cap - 1);
      Prepend(Zeros(1 + n), Expand(code[2..], cap - 1 - n))
  }

  function Prepend(head: seq<byte>, tail: Option<seq<byte>>): Option<seq<byte>> {
    if tail.None? then None else Some(head + tail.value)
  }

  /** One step of the code, in terms of positions in the whole input. */
  lemma {:induction false} EncodeFrom(input: seq<byte>, i: nat)
    requires i < |input|
    ensures input[i] != 0 ==> Encode(input[i..]) == [input[i]] + Encode(input[i + 1..])
    ensures input[i] == 0 ==>
      var n := LeadingZeros(input[i + 1..], MAX_RUN);
      Encode(input[i..]) == [0, n] + Encode(input[i + 1 + n..])
  {
    assert input[i..][1..] == input[i + 1..];
    var n := LeadingZeros(input[i + 1..], MAX_RUN);
    assert input[i..][1 + n..] == input[i + 1 + n..];
  }

  /** Scans the zeros that follow the one at position from - 1. */
  method ScanRun(input: seq<byte>, from: nat) returns (count: nat)
    requires from <= |input|
    ensures count == LeadingZeros(input[from..], MAX_RUN)
  {
    count := 0;
    while from + count < |input| && input[from + count] == 0 && count < MAX_RUN
      invariant from + count <= |input| && count <= MAX_RUN
      invariant LeadingZeros(input[from..], MAX_RUN) == count + LeadingZeros(input[from + count..], MAX_RUN - count)
    {
      assert input[from + count..][1..] == input[from + count + 1..];
      count := count + 1;
    }
  }

  method Compress(input: seq<byte>, cap: nat) returns (ok: bool, output: seq<byte>)
    ensures ok <==> |Encode(input)| <= cap
    ensures ok ==> output == Encode(input)
  {
    var i := 0;
    output := [];
    assert input[i..] == input;
    while |output| < cap && i < |input|
      invariant i <= |input| && |output| <= cap
      invariant Encode(input) == output + Encode(input[i..])
      decreases |input| - i
    {
      EncodeFrom(input, i);
      var c := input[i];
      i := i + 1;
      if c == 0 {
        var count := ScanRun(input, i);
        i := i + count;
        AppendStep(output, [0, count], Encode(input[i..]));
        output := output + [0];
        if |output| == cap {
          return false, [];
        }
        output := output + [count];
      } else {
        AppendStep(output, [c], Encode(input[i..]));
        output := output + [c];
      }
    }
    ok := i == |input|;
    assert ok ==> input[i..] == [];
  }

  lemma AppendStep(done: seq<byte>, step: seq<byte>, rest: seq<byte>)
    ensures done + (step + rest) == (done + step) + rest
    ensures |step| == 2 ==> done + step == done + [step[0]] + [step[1]]
  {
  }

  method Decompress(input: seq<byte>, cap: nat) returns (r: Option<seq<byte>>)
    ensures r == Expand(input, cap)
  {
    var i := 0;
    var output: seq<byte> := [];
    PrependNothing(Expand(input, cap));
    assert input[i..] == input;
    while i < |input| && |output| < cap
      invariant i <= |input| && |output| <= cap
      invariant Expand(input, cap) == Prepend(output, Expand(input[i..], cap - |output|))
      decreases |input| - i
    {
      ghost var before, start := output, i;
      assert input[start..][1..] == input[start + 1..];
      var c := input[i];
      i := i + 1;
      output := output + [c];
      if c == 0 {
        if i == |input| {
          return None;
        }
        assert input[start..][2..] == input[start + 2..];
        var count := input[i];
        i := i + 1;
        var k: nat := 0;
        while k < count && |output| < cap
          invariant k <= count && |output| <= cap
          invariant output == before + Zeros(1 + k)
        {
          output := output + [c];
          k := k + 1;
        }
        PrependTwice(before, Zeros(1 + k), Expand(input[i..], cap - |output|));
      } else {
        PrependTwice(before, [c], Expand(input[i..], cap - |output|));
      }
    }
    if i == |input| {
      assert input[i..] == [] && output + [] == output;
      r := Some(output);
    } else {
      r := None;
    }
  }

  lemma PrependTwice(a: seq<byte>, b: seq<byte>, tail: Option<seq<byte>>)
    ensures Prepend(a, Prepend(b, tail)) == Prepend(a + b, tail)
  {
    if tail.Some? {
      assert a + (b + tail.value) == (a + b) + tail.value;
    }
  }

  lemma PrependNothing(tail: Option<seq<byte>>)
    ensures Prepend([], tail) == tail
  {
    if tail.Some? {
      assert [] + tail.value == tail.value;
    }
  }

  lemma {:induction false} ExpandCopy(c: byte, rest: seq<byte>, cap: nat)
    requires c != 0 && cap > 0
    ensures Expand([c] + rest, cap) == Prepend([c], Expand(rest, cap - 1))
  {
    assert ([c] + rest)[1..] == rest;
  }

  lemma {:induction false} ExpandRun(n: byte, rest: seq<byte>, cap: nat)
    requires n < cap
    ensures Expand([0, n] + rest, cap) == Prepend(Zeros(1 + n as int), Expand(rest, cap - 1 - n))
  {
    assert ([0, n] + rest)[2..] == rest;
  }

  /** Decoding undoes encoding whenever the decoder has room for the data. */
  lemma {:induction false} RoundTrip(data: seq<byte>, cap: nat)
    requires |data| <= cap
    ensures Expand(Encode(data), cap) == Some(data)
    decreases |data|
  {
    if data == [] {
    } else if data[0] != 0 {
      RoundTrip(data[1..], cap - 1);
      ExpandCopy(data[0], Encode(data[1..]), cap);
      assert data == [data[0]] + data[1..];
    } else {
      var n := LeadingZeros(data[1..], MAX_RUN);
      RoundTrip(data[1 + n..], cap - 1 - n);
      ExpandRun(n, Encode(data[1 + n..]), cap);
      RunOfZeros(data, n);
    }
  }

  lemma {:induction false} RunOfZeros(data: seq<byte>, n: nat)
    requires n < |data| && data[0] == 0 && forall k | 0 <= k < n :: data[1..][k] == 0
    ensures data == Zeros(1 + n) + data[1 + n..]
  {
    forall k | 0 <= k < 1 + n
      ensures data[k] == 0
    {
      assert k > 0 ==> data[k] == data[1..][k - 1];
    }
    assert data[..1 + n] == Zeros(1 + n);
    assert data == data[..1 + n] + data[1 + n..];
  }
}
