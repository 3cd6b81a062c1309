// Fixed-width unsigned integers and the byte orders the wire formats use.

module Bytes {

  type byte = x: int | 0 <= x < 0x100
  type u16 = x: int | 0 <= x < 0x1_0000
  type u32 = x: int | 0 <= x < 0x1_0000_0000

  datatype Option<+T> = None | Some(value: T)

  /** Truncation of a C integer expression to sixteen bits. */
  function Low16(x: int): u16 {
    x % 0x1_0000
  }

  /** Big-endian bytes of a sixteen-bit value. */
  function Be16(x: u16): (b: seq<byte>)
    ensures |b| == 2
  {
    [x / 0x100, x % 0x100]
  }

  /** Big-endian bytes of a thirty-two-bit value. */
  function Be32(x: u32): (b: seq<byte>)
    ensures |b| == 4
  {
    Be16(x / 0x1_0000) + Be16(x % 0x1_0000)
  }

  function ReadBe16(s: seq<byte>, at: nat): u16
    requires at + 2 <= |s|
  {
    (s[at] as int) * 0x100 + s[at + 1]
  }

  function ReadBe32(s: seq<byte>, at: nat): u32
    requires at + 4 <= |s|
  {
    (ReadBe16(s, at) as int) * 0x1_0000 + ReadBe16(s, at + 2)
  }

  /** Little-endian bytes of a sixteen-bit value (the console's native order). */
  function Le16(x: u16): (b: seq<byte>)
    ensures |b| == 2
  {
    [x % 0x100, x / 0x100]
  }

  function Le32(x: u32): (b: seq<byte>)
    ensures |b| == 4
  {
    Le16(x % 0x1_0000) + Le16(x / 0x1_0000)
  }

  function ReadLe16(s: seq<byte>, at: nat): u16
    requires at + 2 <= |s|
  {
    (s[at] as int) + (s[at + 1] as int) * 0x100
  }

  function ReadLe32(s: seq<byte>, at: nat): u32
    requires at + 4 <= |s|
  {
    (ReadLe16(s, at) as int) + (ReadLe16(s, at + 2) as int) * 0x1_0000
  }

  lemma ReadsBackBe16(s: seq<byte>, at: nat, x: u16)
    requires at + 2 <= |s| && s[at..at + 2] == Be16(x)
    ensures ReadBe16(s, at) == x
  {
    assert s[at] == s[at..at + 2][0] && s[at + 1] == s[at..at + 2][1];
  }

  lemma ReadsBackBe32(s: seq<byte>, at: nat, x: u32)
    requires at + 4 <= |s| && s[at..at + 4] == Be32(x)
    ensures ReadBe32(s, at) == x
  {
    assert s[at..at + 2] == s[at..at + 4][..2] == Be16(x / 0x1_0000);
    assert s[at + 2..at + 4] == s[at..at + 4][2..] == Be16(x % 0x1_0000);
    ReadsBackBe16(s, at, x / 0x1_0000);
    ReadsBackBe16(s, at + 2, x % 0x1_0000);
  }

  /** The concatenation of a list of byte strings. */
  function Flatten(parts: seq<seq<byte>>): seq<byte> {
    if parts == [] then [] else parts[0] + Flatten(parts[1..])
  }
}
