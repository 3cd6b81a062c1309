// The hash behind scope tokens: sessions that differ in one byte get different
// tokens, so their game broadcasts are kept apart.

module ByteBits {
  import opened Bytes

  lemma BitsTwice(x: bv8, y: bv8)
    ensures x ^ (x ^ y) == y && x ^ y == y ^ x
  {
  }

  lemma ByteOfBits(x: bv8)
    ensures (x as byte) as bv8 == x
  {
  }

  lemma Successor(x: bv8)
    requires x != 0xFF
    ensures (x + 1) as int == x as int + 1
  {
  }

  lemma NotLast(x: bv8)
    requires x as int < 0xFF
    ensures x != 0xFF
  {
  }

  /** Every byte is the value of some bits. */
  lemma {:induction false} BitsFor(a: byte) returns (x: bv8)
    ensures x as int == a
    decreases a
  {
    if a == 0 {
      x := 0;
    } else {
      var y := BitsFor(a - 1);
      NotLast(y);
      Successor(y);
      x := y + 1;
    }
  }

  lemma BitsOfByte(a: byte)
    ensures (a as bv8) as int == a
  {
    var x := BitsFor(a);
    ByteOfBits(x);
  }
}

module ScopeTokens {
  import opened Bytes
  import opened ByteBits
  import opened LdnState

  /** Multiplying by FNV_PRIME modulo 2^32 is undone by multiplying by this number. */
  const INVERSE := 0x359C_449B

  function Undone(h: u32): u32 {
    (h * INVERSE) % 0x1_0000_0000
  }

  lemma PrimeUndone(x: u32)
    ensures Undone((x * FNV_PRIME) % 0x1_0000_0000) == x
  {
    var k := (x * FNV_PRIME) / 0x1_0000_0000;
    var r := (x * FNV_PRIME) % 0x1_0000_0000;
    assert r == x * FNV_PRIME - k * 0x1_0000_0000;
    assert r * INVERSE == x + 0x1_0000_0000 * (x * 3513497 - k * INVERSE);
    ModOf(x, x * 3513497 - k * INVERSE, r * INVERSE);
  }

  lemma ModOf(x: u32, t: int, whole: int)
    requires whole == x + 0x1_0000_0000 * t
    ensures whole % 0x1_0000_0000 == x
  {
  }

  lemma XorSwap(a: byte, b: byte)
    ensures Xor(a, b) == Xor(b, a)
  {
    BitsTwice(a as bv8, b as bv8);
  }

  lemma XorBits(a: byte, b: byte)
    ensures Xor(a, b) as bv8 == (a as bv8) ^ (b as bv8)
  {
    ByteOfBits((a as bv8) ^ (b as bv8));
  }

  lemma XorTwice(a: byte, b: byte)
    ensures Xor(a, Xor(a, b)) == b
  {
    XorBits(a, b);
    BitsTwice(a as bv8, b as bv8);
    BitsOfByte(b);
  }

  /** What a round makes of the state before it is multiplied. */
  function Mixed(h: u32, b: byte): u32 {
    Joined(h / 0x100, Xor(h % 0x100, b))
  }

  function Joined(p: nat, x: byte): u32
    requires p < 0x100_0000
  {
    p * 0x100 + x
  }

  lemma SplitByte(p: nat, x: byte)
    requires p < 0x100_0000
    ensures Joined(p, x) / 0x100 == p && Joined(p, x) % 0x100 == x
  {
  }

  /** The mixed state gives back the state before, and the byte. */
  lemma Unmixed(h: u32, b: byte)
    ensures Mixed(h, b) / 0x100 == h / 0x100 && Xor(h % 0x100, Mixed(h, b) % 0x100) == b && Xor(b, Mixed(h, b) % 0x100) == h % 0x100
  {
    SplitByte(h / 0x100, Xor(h % 0x100, b));
    XorTwice(h % 0x100, b);
    XorSwap(h % 0x100, b);
    XorTwice(b, h % 0x100);
  }

  lemma MixedApart(h: u32, g: u32, b: byte, c: byte)
    requires (h == g && b != c) || (h != g && b == c)
    ensures Mixed(h, b) != Mixed(g, c)
  {
    Unmixed(h, b);
    Unmixed(g, c);
    assert h == h / 0x100 * 0x100 + h % 0x100 && g == g / 0x100 * 0x100 + g % 0x100;
  }

  /** A round keeps different states apart, and different bytes in one state. */
  lemma StepApart(h: u32, g: u32, b: byte, c: byte)
    requires (h == g && b != c) || (h != g && b == c)
    ensures FnvStep(h, b) != FnvStep(g, c)
  {
    MixedApart(h, g, b, c);
    assert h - h % 0x100 == h / 0x100 * 0x100 && g - g % 0x100 == g / 0x100 * 0x100;
    PrimeUndone(Mixed(h, b));
    PrimeUndone(Mixed(g, c));
  }

  lemma {:induction false} FnvApart(s: seq<byte>, i: nat, b: byte)
    requires i < |s| && s[i] != b
    ensures Fnv(s[i := b]) != Fnv(s)
    decreases |s|
  {
    var n, t := |s| - 1, s[i := b];
    if i < n {
      FnvApart(s[..n], i, b);
      assert t[..n] == s[..n][i := b];
      StepApart(Fnv(t[..n]), Fnv(s[..n]), t[n], s[n]);
    } else {
      assert t[..n] == s[..n];
      StepApart(Fnv(t[..n]), Fnv(s[..n]), t[n], s[n]);
    }
  }

  /** Sessions that differ in one byte have different tokens, unless one of the hashes is 0 and stands for 1. */
  lemma TokensApart(s: seq<byte>, i: nat, b: byte)
    requires i < |s| && s[i] != b
    ensures ScopeToken(s[i := b]) == ScopeToken(s) ==> {Fnv(s), Fnv(s[i := b])} == {0, 1}
  {
    FnvApart(s, i, b);
  }

  /** The published test value of 32-bit FNV-1a for the single byte "a". */
  lemma FnvVector()
    ensures Fnv([0x61]) == 0xE40C_292C
  {
    assert [0x61][..0] == [];
    XorVector();
    assert FNV_BASIS % 0x100 == 0xC5;
  }

  lemma XorVector()
    ensures Xor(0xC5, 0x61) == 0xA4
  {
    assert (0xC5 as bv8) ^ (0x61 as bv8) == 0xA4;
  }
}
