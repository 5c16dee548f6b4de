/**
 * Fixed-width integers as the codec uses them: bytes, `u32` values, and
 * the big-endian framing of a `u32` (`u32::to_be_bytes` and
 * `u32::from_be_bytes`).
 */
module FixedWidth {

  type byte = bv8

  const UINT32_LIMIT: int := 0x1_0000_0000

  /** A Rust `u32`. */
  type uint32 = x: int | 0 <= x < UINT32_LIMIT

  function Pow2(n: nat): nat {
    if n == 0 then 1 else 2 * Pow2(n - 1)
  }

  /** The `n` low bits of `d` as a byte, built one bit at a time. */
  function Bits(d: nat, n: nat): byte
    requires n <= 8
    decreases n
  {
    if n == 0 then 0 else (Bits(d / 2, n - 1) << 1) | (if d % 2 == 1 then 1 else 0)
  }

  /** The byte whose value is `d`. */
  function ToByte(d: nat): byte
    requires d < 0x100
  {
    Bits(d, 8)
  }

  /** `x.to_be_bytes()`: the most significant byte first. */
  function Be32(x: uint32): (r: seq<byte>)
    ensures |r| == 4
  {
    [ ToByte(x / 0x100_0000), ToByte((x / 0x1_0000) % 0x100),
      ToByte((x / 0x100) % 0x100), ToByte(x % 0x100) ]
  }

  /** `u32::from_be_bytes(b)`. */
  function FromBe32(b: seq<byte>): uint32
    requires |b| == 4
  {
    (b[0] as int) * 0x100_0000 + (b[1] as int) * 0x1_0000 + (b[2] as int) * 0x100 + b[3] as int
  }

  lemma {:induction false} Pow2Monotone(m: nat, n: nat)
    requires m <= n
    ensures Pow2(m) <= Pow2(n)
    decreases n
  {
    if m < n {
      Pow2Monotone(m, n - 1);
    }
  }

  lemma Pow2Small(n: nat)
    requires n <= 7
    ensures Pow2(n) <= 0x80
  {
    Pow2Monotone(n, 7);
    assert Pow2(7) == 0x80;
  }

  /** Shifting a byte below 128 left and setting the low bit doubles and adds. */
  lemma Widen(m: byte, bit: byte)
    requires m as int < 0x80 && bit <= 1
    ensures ((m << 1) | bit) as int == 2 * (m as int) + bit as int
  {
  }

  /** The low `n` bits of a number below `2^n` spell that number. */
  lemma {:induction false} BitsValue(d: nat, n: nat)
    requires n <= 8 && d < Pow2(n)
    ensures Bits(d, n) as int == d
    decreases n
  {
    if n > 0 {
      BitsValue(d / 2, n - 1);
      Pow2Small(n - 1);
      Widen(Bits(d / 2, n - 1), if d % 2 == 1 then 1 else 0);
    }
  }

  /** A value below 256 survives the trip through a byte. */
  lemma ByteRoundTrip(v: nat)
    requires v < 0x100
    ensures ToByte(v) as int == v
  {
    assert Pow2(8) == 0x100;
    BitsValue(v, 8);
  }

  /** Bytes with the same value are the same byte. */
  lemma ValueInjective(a: byte, c: byte)
    requires a as int == c as int
    ensures a == c
  {
  }

  /** A byte survives the trip through its integer value. */
  lemma ByteInverse(b: byte)
    ensures ToByte(b as int) == b
  {
    ByteRoundTrip(b as int);
    ValueInjective(ToByte(b as int), b);
  }

  /** The four base-256 digits of `x`, most significant first, rebuild `x`. */
  lemma Digits(x: uint32)
    ensures x == (x / 0x100_0000) * 0x100_0000 + ((x / 0x1_0000) % 0x100) * 0x1_0000
                 + ((x / 0x100) % 0x100) * 0x100 + x % 0x100
  {
    var q1, q2, q3 := x / 0x100, x / 0x1_0000, x / 0x100_0000;
    assert q2 == q1 / 0x100;
    assert q3 == q2 / 0x100;
    assert x == q1 * 0x100 + x % 0x100;
    assert q1 == q2 * 0x100 + q1 % 0x100;
    assert q2 == q3 * 0x100 + q2 % 0x100;
  }

  /** Reading back the four bytes written for `x` gives `x`. */
  lemma FromBe32Be32(x: uint32)
    ensures FromBe32(Be32(x)) == x
  {
    var b := Be32(x);
    var d0, d1, d2, d3 := x / 0x100_0000, (x / 0x1_0000) % 0x100, (x / 0x100) % 0x100, x % 0x100;
    assert b[0] as int == d0 by { ByteRoundTrip(d0); }
    assert b[1] as int == d1 by { ByteRoundTrip(d1); }
    assert b[2] as int == d2 by { ByteRoundTrip(d2); }
    assert b[3] as int == d3 by { ByteRoundTrip(d3); }
    Digits(x);
  }

  /** Splitting off the last base-256 digit. */
  lemma ShiftDigit(a: nat, d: int)
    requires 0 <= d < 0x100
    ensures (a * 0x100 + d) / 0x100 == a && (a * 0x100 + d) % 0x100 == d
  {
  }

  /** Dividing by 256 twice is dividing by 65536, and once more by 16777216. */
  lemma DivTwice(x: nat)
    ensures x / 0x1_0000 == (x / 0x100) / 0x100
    ensures x / 0x100_0000 == (x / 0x1_0000) / 0x100
  {
  }

  /** Four base-256 digits are recovered from the number they spell. */
  lemma DigitsOf(d0: int, d1: int, d2: int, d3: int)
    requires 0 <= d0 < 0x100 && 0 <= d1 < 0x100 && 0 <= d2 < 0x100 && 0 <= d3 < 0x100
    ensures var x := d0 * 0x100_0000 + d1 * 0x1_0000 + d2 * 0x100 + d3;
      && x / 0x100_0000 == d0 && (x / 0x1_0000) % 0x100 == d1
      && (x / 0x100) % 0x100 == d2 && x % 0x100 == d3
  {
    var x := d0 * 0x100_0000 + d1 * 0x1_0000 + d2 * 0x100 + d3;
    var h1 := d0 * 0x100 + d1;
    var h2 := h1 * 0x100 + d2;
    assert x == h2 * 0x100 + d3;
    ShiftDigit(h2, d3);
    ShiftDigit(h1, d2);
    ShiftDigit(d0, d1);
    DivTwice(x);
  }

  /** The base-256 digits of `FromBe32(b)` are the bytes of `b`. */
  lemma DigitsOfFromBe32(b: seq<byte>)
    requires |b| == 4
    ensures FromBe32(b) / 0x100_0000 == b[0] as int
    ensures (FromBe32(b) / 0x1_0000) % 0x100 == b[1] as int
    ensures (FromBe32(b) / 0x100) % 0x100 == b[2] as int
    ensures FromBe32(b) % 0x100 == b[3] as int
  {
    DigitsOf(b[0] as int, b[1] as int, b[2] as int, b[3] as int);
  }

  /** Writing the value read from four bytes gives those bytes back. */
  lemma Be32FromBe32(b: seq<byte>)
    requires |b| == 4
    ensures Be32(FromBe32(b)) == b
  {
    DigitsOfFromBe32(b);
    var e := Be32(FromBe32(b));
    assert e[0] == b[0] by { ByteInverse(b[0]); }
    assert e[1] == b[1] by { ByteInverse(b[1]); }
    assert e[2] == b[2] by { ByteInverse(b[2]); }
    assert e[3] == b[3] by { ByteInverse(b[3]); }
  }

  /** Different `u32` values are written as different byte strings. */
  lemma Be32Injective(x: uint32, y: uint32)
    requires x != y
    ensures Be32(x) != Be32(y)
  {
    FromBe32Be32(x);
    FromBe32Be32(y);
  }
}
