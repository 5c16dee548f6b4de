/**
 * CRC-32 as section 5.5 of the PNG specification (ISO/IEC 15948:2003)
 * defines it, the algorithm the `crc` crate calls `CRC_32_ISO_HDLC`:
 * reflected polynomial 0xEDB88320, register preset to all ones, and the
 * final register complemented. Each byte is xored into the low end of the
 * register, which then shifts right eight times.
 */
module Crc32 {
  import opened FixedWidth

  const POLY: bv32 := 0xEDB8_8320
  const INIT: bv32 := 0xFFFF_FFFF
  const BITS_PER_BYTE: nat := 8

  /** One shift of the register: the polynomial is xored in when a one falls out. */
  function Step(r: bv32): bv32 {
    if r & 1 == 1 then (r >> 1) ^ POLY else r >> 1
  }

  /** `n` shifts. */
  function Steps(r: bv32, n: nat): bv32
    decreases n
  {
    if n == 0 then r else Steps(Step(r), n - 1)
  }

  /** The register after one input byte. */
  function ByteStep(reg: bv32, b: byte): bv32 {
    Steps(reg ^ (b as bv32), BITS_PER_BYTE)
  }

  /** One byte is eight shifts after the byte is xored in. */
  lemma ByteStepUnrolled(reg: bv32, b: byte)
    ensures ByteStep(reg, b)
      == Step(Step(Step(Step(Step(Step(Step(Step(reg ^ (b as bv32)))))))))
  {
    var r := reg ^ (b as bv32);
    assert Steps(r, 8) == Steps(Step(r), 7) == Steps(Step(Step(r)), 6);
    assert Steps(Step(Step(r)), 6) == Steps(Step(Step(Step(Step(r)))), 4);
    assert Steps(Step(Step(Step(Step(r)))), 4) == Step(Step(Step(Step(Step(Step(Step(Step(r))))))));
  }

  /** The register after consuming `s`, starting from `reg`. */
  function Register(reg: bv32, s: seq<byte>): bv32
    decreases |s|
  {
    if |s| == 0 then reg else Register(ByteStep(reg, s[0]), s[1..])
  }

  /** The bytes of a register, most significant first. */
  function RegisterBytes(r: bv32): (b: seq<byte>)
    ensures |b| == 4
  {
    [ ((r >> 24) & 0xFF) as byte, ((r >> 16) & 0xFF) as byte,
      ((r >> 8) & 0xFF) as byte, (r & 0xFF) as byte ]
  }

  /** The numeric value of a register. */
  function RegisterValue(r: bv32): uint32 {
    FromBe32(RegisterBytes(r))
  }

  /**
   * The checksum of `s`, the `u32` that `Crc::checksum` returns. The final
   * complement undoes the initial one, so the empty input has checksum 0.
   */
  function Checksum(s: seq<byte>): (r: uint32)
    ensures |s| == 0 ==> r == 0
  {
    RegisterValue(Register(INIT, s) ^ INIT)
  }

  // A shift can be undone: POLY has its top bit set and `r >> 1` has not,
  // so the top bit of the result tells whether the polynomial went in.

  /** The inverse of `Step`. */
  function Unstep(r: bv32): bv32 {
    if r & 0x8000_0000 != 0 then ((r ^ POLY) << 1) | 1 else r << 1
  }

  /** The inverse of `Steps`. */
  function Unsteps(r: bv32, n: nat): bv32
    decreases n
  {
    if n == 0 then r else Unstep(Unsteps(r, n - 1))
  }

  lemma UnstepOdd(r: bv32)
    requires r & 1 == 1
    ensures Unstep(Step(r)) == r
  {
  }

  lemma UnstepEven(r: bv32)
    requires r & 1 == 0
    ensures Unstep(Step(r)) == r
  {
  }

  /** `Unstep` undoes `Step`. */
  lemma UnstepStep(r: bv32)
    ensures Unstep(Step(r)) == r
  {
    if r & 1 == 1 {
      UnstepOdd(r);
    } else {
      UnstepEven(r);
    }
  }

  lemma {:induction false} UnstepsLast(r: bv32, n: nat)
    requires n > 0
    ensures Unsteps(r, n) == Unstep(Unsteps(r, n - 1))
  {
  }

  /** `Unsteps` undoes `Steps`. */
  lemma {:induction false} UnstepsSteps(r: bv32, n: nat)
    ensures Unsteps(Steps(r, n), n) == r
    decreases n
  {
    if n > 0 {
      UnstepsSteps(Step(r), n - 1);
      UnstepsLast(Steps(Step(r), n - 1), n);
      UnstepStep(r);
    }
  }

  /** Different registers stay different through any number of shifts. */
  lemma StepsInjective(a: bv32, c: bv32, n: nat)
    requires a != c
    ensures Steps(a, n) != Steps(c, n)
  {
    UnstepsSteps(a, n);
    UnstepsSteps(c, n);
  }

  /** From the same register, different bytes give different registers. */
  lemma ByteStepInjective(reg: bv32, x: byte, y: byte)
    requires x != y
    ensures ByteStep(reg, x) != ByteStep(reg, y)
  {
    assert reg ^ (x as bv32) != reg ^ (y as bv32);
    StepsInjective(reg ^ (x as bv32), reg ^ (y as bv32), 8);
  }

  /** The same byte takes different registers to different registers. */
  lemma ByteStepRegisterInjective(a: bv32, c: bv32, b: byte)
    requires a != c
    ensures ByteStep(a, b) != ByteStep(c, b)
  {
    assert a ^ (b as bv32) != c ^ (b as bv32);
    StepsInjective(a ^ (b as bv32), c ^ (b as bv32), 8);
  }

  /** The same input takes different registers to different registers. */
  lemma {:induction false} RegisterInjective(a: bv32, c: bv32, s: seq<byte>)
    requires a != c
    ensures Register(a, s) != Register(c, s)
    decreases |s|
  {
    if |s| > 0 {
      ByteStepRegisterInjective(a, c, s[0]);
      RegisterInjective(ByteStep(a, s[0]), ByteStep(c, s[0]), s[1..]);
    }
  }

  /** Consuming `s + t` is consuming `s`, then `t`. */
  lemma {:induction false} RegisterAppend(reg: bv32, s: seq<byte>, t: seq<byte>)
    ensures Register(reg, s + t) == Register(Register(reg, s), t)
    decreases |s|
  {
    if |s| > 0 {
      assert (s + t)[0] == s[0];
      assert (s + t)[1..] == s[1..] + t;
      RegisterAppend(ByteStep(reg, s[0]), s[1..], t);
    } else {
      assert s + t == t;
    }
  }

  /** Consuming one byte and then `s`. */
  lemma RegisterCons(reg: bv32, b: byte, s: seq<byte>)
    ensures Register(reg, [b] + s) == Register(ByteStep(reg, b), s)
  {
    assert ([b] + s)[1..] == s;
  }

  /** Different registers have different numeric values. */
  lemma RegisterValueInjective(a: bv32, c: bv32)
    requires a != c
    ensures RegisterValue(a) != RegisterValue(c)
  {
    var x, y := RegisterBytes(a), RegisterBytes(c);
    assert x != y by {
      assert x[0] != y[0] || x[1] != y[1] || x[2] != y[2] || x[3] != y[3];
    }
    Be32FromBe32(x);
    Be32FromBe32(y);
  }

  /** From the same register, inputs that differ only in their first byte end differently. */
  lemma RegisterDetectsByteChange(reg: bv32, x: byte, y: byte, q: seq<byte>)
    requires x != y
    ensures Register(reg, [x] + q) != Register(reg, [y] + q)
  {
    RegisterCons(reg, x, q);
    RegisterCons(reg, y, q);
    ByteStepInjective(reg, x, y);
    RegisterInjective(ByteStep(reg, x), ByteStep(reg, y), q);
  }

  /** Different final registers give different checksums. */
  lemma FinalValueInjective(a: bv32, c: bv32)
    requires a != c
    ensures RegisterValue(a ^ INIT) != RegisterValue(c ^ INIT)
  {
    assert a ^ INIT != c ^ INIT;
    RegisterValueInjective(a ^ INIT, c ^ INIT);
  }

  /**
   * Changing any one byte of the input changes the checksum: a chunk whose
   * bytes were altered in one place no longer matches its stored CRC.
   */
  lemma ChecksumDetectsByteChange(p: seq<byte>, x: byte, y: byte, q: seq<byte>)
    requires x != y
    ensures Checksum(p + [x] + q) != Checksum(p + [y] + q)
  {
    assert p + [x] + q == p + ([x] + q);
    assert p + [y] + q == p + ([y] + q);
    RegisterAppend(INIT, p, [x] + q);
    RegisterAppend(INIT, p, [y] + q);
    RegisterDetectsByteChange(Register(INIT, p), x, y, q);
    FinalValueInjective(Register(INIT, p + [x] + q), Register(INIT, p + [y] + q));
  }

  /** The CRC-32 check value: the checksum of the ASCII digits "123456789". */
  lemma CheckValue()
    ensures Checksum([0x31, 0x32, 0x33, 0x34, 0x35, 0x36, 0x37, 0x38, 0x39]) == 0xCBF4_3926
  {
    CheckRegister();
    assert RegisterValue(0xCBF4_3926) == 0xCBF4_3926;
  }

  lemma CheckRegister()
    ensures Register(INIT, [0x31, 0x32, 0x33, 0x34, 0x35, 0x36, 0x37, 0x38, 0x39]) ^ INIT == 0xCBF4_3926
  {
    var s: seq<byte> := [0x31, 0x32, 0x33, 0x34, 0x35, 0x36, 0x37, 0x38, 0x39];
    assert ByteStep(0xFFFF_FFFF, 0x31) == 0x7C23_1048 by { ByteStepUnrolled(0xFFFF_FFFF, 0x31); }
    assert ByteStep(0x7C23_1048, 0x32) == 0xB0AC_BB32 by { ByteStepUnrolled(0x7C23_1048, 0x32); }
    assert ByteStep(0xB0AC_BB32, 0x33) == 0x77B7_9C2D by { ByteStepUnrolled(0xB0AC_BB32, 0x33); }
    assert ByteStep(0x77B7_9C2D, 0x34) == 0x641C_1F5C by { ByteStepUnrolled(0x77B7_9C2D, 0x34); }
    assert ByteStep(0x641C_1F5C, 0x35) == 0x340A_C5E3 by { ByteStepUnrolled(0x641C_1F5C, 0x35); }
    assert ByteStep(0x340A_C5E3, 0x36) == 0xF68D_2C9E by { ByteStepUnrolled(0x340A_C5E3, 0x36); }
    assert ByteStep(0xF68D_2C9E, 0x37) == 0xAFFC_9660 by { ByteStepUnrolled(0xF68D_2C9E, 0x37); }
    assert ByteStep(0xAFFC_9660, 0x38) == 0x651F_2550 by { ByteStepUnrolled(0xAFFC_9660, 0x38); }
    assert ByteStep(0x651F_2550, 0x39) == 0x340B_C6D9 by { ByteStepUnrolled(0x651F_2550, 0x39); }
    assert Register(0xFFFF_FFFF, s) == Register(0x7C23_1048, s[1..]);
    assert Register(0x7C23_1048, s[1..]) == Register(0xB0AC_BB32, s[2..]);
    assert Register(0xB0AC_BB32, s[2..]) == Register(0x77B7_9C2D, s[3..]);
    assert Register(0x77B7_9C2D, s[3..]) == Register(0x641C_1F5C, s[4..]);
    assert Register(0x641C_1F5C, s[4..]) == Register(0x340A_C5E3, s[5..]);
    assert Register(0x340A_C5E3, s[5..]) == Register(0xF68D_2C9E, s[6..]);
    assert Register(0xF68D_2C9E, s[6..]) == Register(0xAFFC_9660, s[7..]);
    assert Register(0xAFFC_9660, s[7..]) == Register(0x651F_2550, s[8..]);
    assert Register(0x651F_2550, s[8..]) == Register(0x340B_C6D9, s[9..]);
    assert Register(INIT, s) ^ INIT == 0xCBF4_3926;
  }
}
