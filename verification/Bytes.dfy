/** Bytes, little-endian words and the option and result types every module shares. */
module Bytes {
  /** An 8-bit value. Masks and shifts on bytes are written with `/`, `%` and `*` on
      these non-negative integers. */
  type byte = b: int | 0 <= b < 256

  type Word32 = w: int | 0 <= w < 0x1_0000_0000

  datatype Option<+T> = None | Some(value: T)

  datatype Result<+T, +E> = Ok(value: T) | Err(error: E)

  function Zeros(n: nat): (s: seq<byte>)
    ensures |s| == n
  {
    seq(n, _ => 0)
  }

  function Le8(v: nat): (s: seq<byte>)
    ensures |s| == 1
  {
    [v % 256]
  }

  function Le16(v: nat): (s: seq<byte>)
    ensures |s| == 2
  {
    [v % 256, v / 256 % 256]
  }

  function Le32(v: nat): (s: seq<byte>)
    ensures |s| == 4
  {
    [v % 256, v / 256 % 256, v / 65536 % 256, v / 16777216 % 256]
  }

  function Read16(s: seq<byte>, i: nat): (r: nat)
    requires i + 2 <= |s|
    ensures r < 0x1_0000
  {
    s[i] as int + 256 * (s[i + 1] as int)
  }

  function Read32(s: seq<byte>, i: nat): (r: nat)
    requires i + 4 <= |s|
    ensures r < 0x1_0000_0000
  {
    s[i] as int + 256 * (s[i + 1] as int) + 65536 * (s[i + 2] as int) + 16777216 * (s[i + 3] as int)
  }

  /** A byte read as two's complement. */
  function SignedByte(b: nat): (r: int)
    ensures b < 256 ==> -128 <= r < 128 && (r - b) % 256 == 0
  {
    if b >= 128 then b - 256 else b
  }

  /** The low byte of a word comes first. */
  lemma LowByteFirst(a: byte, b: byte, c: byte, d: byte)
    ensures Le16(a as int + 256 * b as int) == [a, b]
    ensures Le32(a as int + 256 * (b as int + 256 * (c as int + 256 * d as int))) == [a, b, c, d]
    ensures Read16([a, b], 0) == a as int + 256 * b as int
    ensures Read32([a, b, c, d], 0) == a as int + 256 * (b as int + 256 * (c as int + 256 * d as int))
  {
    var h := c as int + 256 * d as int;
    var t := b as int + 256 * h;
    var v := a as int + 256 * t;
    assert v / 256 == t && v / 65536 == t / 256 == h && v / 16777216 == h / 256 == d as int;
  }

  /** The low bytes of a number make up its residue. */
  lemma HalfSplits(v: nat)
    ensures v % 256 + 256 * (v / 256 % 256) == v % 0x1_0000
  {
    var q, r := v / 0x1_0000, v % 0x1_0000;
    assert v == 0x1_0000 * q + r;
    assert v / 256 == 256 * q + r / 256;
    assert v / 256 % 256 == r / 256;
  }

  lemma WordSplits(v: nat)
    requires v < 0x1_0000_0000
    ensures v % 256 + 256 * (v / 256 % 256) + 65536 * (v / 65536 % 256) + 16777216 * (v / 16777216 % 256) == v
  {
    var q := v / 256;
    assert v / 65536 == q / 256 && v / 16777216 == q / 65536 && q / 65536 == q / 256 / 256;
  }

  /** Fields written with `Le16` and `Le32` read back. */
  lemma HalfRead(s: seq<byte>, i: nat, v: nat)
    requires i + 2 <= |s| && s[i..i + 2] == Le16(v) && v < 0x1_0000
    ensures Read16(s, i) == v
  {
    assert s[i] == s[i..i + 2][0] && s[i + 1] == s[i..i + 2][1];
    HalfSplits(v);
  }

  lemma WordRead(s: seq<byte>, i: nat, v: nat)
    requires i + 4 <= |s| && s[i..i + 4] == Le32(v) && v < 0x1_0000_0000
    ensures Read32(s, i) == v
  {
    var e := s[i..i + 4];
    assert s[i] == e[0] && s[i + 1] == e[1] && s[i + 2] == e[2] && s[i + 3] == e[3];
    WordSplits(v);
  }

  function CeilDiv(value: nat, divisor: nat): nat
    requires divisor > 0
  {
    (value + divisor - 1) / divisor
  }
}
