/**
 * The four-byte chunk type of a PNG chunk (section 5.4 of the PNG
 * specification, ISO/IEC 15948:2003): four ASCII letters, where bit 5 of
 * each byte (the lowercase bit) carries a property of the chunk.
 *
 * The current and the older revision of the codec implement this type
 * identically; this module serves both.
 */
module ChunkTypes {
  import opened FixedWidth
  import opened Results
  import Utf8

  predicate IsUppercase(c: byte) {
    0x41 <= c <= 0x5A
  }

  predicate IsLowercase(c: byte) {
    0x61 <= c <= 0x7A
  }

  predicate IsAsciiLetter(c: byte) {
    IsUppercase(c) || IsLowercase(c)
  }

  predicate AllLetters(s: seq<byte>) {
    forall i :: 0 <= i < |s| ==> IsAsciiLetter(s[i])
  }

  /** The byte ranges the parser rejects: 0..=64, 91..=96 and 123..=255. */
  predicate IsRejectedByte(c: byte) {
    c <= 64 || (91 <= c <= 96) || 123 <= c
  }

  /** A `[u8; 4]`. */
  type Array4 = s: seq<byte> | |s| == 4 witness [0, 0, 0, 0]

  /** The code of a chunk type: four letters, which every constructor checks. */
  type Code = s: seq<byte> | |s| == 4 && AllLetters(s) witness [0x41, 0x41, 0x41, 0x41]

  datatype ChunkType = ChunkType(code: Code)

  datatype ChunkTypeError =
    | InvalidLength(length: nat)
    | InvalidByte(value: byte)

  /** `bytes()`: the code the type was built from. */
  function Bytes(t: ChunkType): (r: Array4)
    ensures AllLetters(r)
  {
    t.code
  }

  /** The scan of `try_from`: the first rejected byte from index `i` on, if any. */
  function FirstRejected(value: seq<byte>, i: nat): (r: Option<byte>)
    requires i <= |value|
    ensures r.None? <==> forall j :: i <= j < |value| ==> IsAsciiLetter(value[j])
    ensures r.Some? ==> exists k :: (i <= k < |value| && r.value == value[k]
      && !IsAsciiLetter(value[k]) && forall j :: i <= j < k ==> IsAsciiLetter(value[j]))
    decreases |value| - i
  {
    if i == |value| then None
    else if IsRejectedByte(value[i]) then Some(value[i])
    else FirstRejected(value, i + 1)
  }

  /**
   * `ChunkType::try_from`: accepts exactly the codes made of four ASCII
   * letters, and otherwise names the first byte that is not one.
   */
  function TryFrom(value: Array4): (r: Result<ChunkType, ChunkTypeError>)
    ensures r.Ok? <==> AllLetters(value)
    ensures r.Ok? ==> Bytes(r.value) == value
    ensures r.Err? ==> exists k :: (0 <= k < 4 && r.error == InvalidByte(value[k])
      && !IsAsciiLetter(value[k]) && forall j :: 0 <= j < k ==> IsAsciiLetter(value[j]))
  {
    match FirstRejected(value, 0)
    case None => Ok(ChunkType(value))
    case Some(c) => Err(InvalidByte(c))
  }

  /**
   * `ChunkType::from_str`: the string's UTF-8 bytes must number exactly four,
   * and are then checked as `try_from` does.
   */
  function FromStr(s: string): (r: Result<ChunkType, ChunkTypeError>)
    ensures |Utf8.Encode(s)| != 4 ==> r == Err(InvalidLength(|Utf8.Encode(s)|))
    ensures |Utf8.Encode(s)| == 4 ==> r == TryFrom(Utf8.Encode(s))
  {
    var bytes := Utf8.Encode(s);
    if |bytes| != 4 then Err(InvalidLength(|bytes|)) else TryFrom(bytes)
  }

  /** `to_string()`: each code byte read as the character of the same value. */
  function ToString(t: ChunkType): (r: string)
    ensures |r| == 4
    ensures forall i :: 0 <= i < 4 ==> r[i] as int == t.code[i] as int
  {
    [ (t.code[0] as int) as char, (t.code[1] as int) as char,
      (t.code[2] as int) as char, (t.code[3] as int) as char ]
  }

  /** `is_property_bit_on(i)`: bit 5 of byte `i`, counting from one. */
  function IsPropertyBitOn(t: ChunkType, i: nat): (r: bool)
    requires 1 <= i <= 4
    ensures r <==> IsLowercase(t.code[i - 1])
  {
    t.code[i - 1] & 0x20 != 0
  }

  /** Ancillary bit clear: the first letter is uppercase. */
  function IsCritical(t: ChunkType): (r: bool)
    ensures r <==> IsUppercase(t.code[0])
  {
    !IsPropertyBitOn(t, 1)
  }

  /** Private bit clear: the second letter is uppercase. */
  function IsPublic(t: ChunkType): (r: bool)
    ensures r <==> IsUppercase(t.code[1])
  {
    !IsPropertyBitOn(t, 2)
  }

  /** Reserved bit clear: the third letter is uppercase. */
  function IsReservedBitValid(t: ChunkType): (r: bool)
    ensures r <==> IsUppercase(t.code[2])
  {
    !IsPropertyBitOn(t, 3)
  }

  /** Safe-to-copy bit set: the fourth letter is lowercase. */
  function IsSafeToCopy(t: ChunkType): (r: bool)
    ensures r <==> IsLowercase(t.code[3])
  {
    IsPropertyBitOn(t, 4)
  }

  /** `is_valid`: only the reserved bit decides. */
  function IsValid(t: ChunkType): (r: bool)
    ensures r <==> IsUppercase(t.code[2])
  {
    IsReservedBitValid(t)
  }

  /** The ranges the parser rejects are exactly the non-letters. */
  lemma RejectedIffNotLetter(c: byte)
    ensures IsRejectedByte(c) <==> !IsAsciiLetter(c)
  {
  }

  /** Validity ignores the critical, public and safe-to-copy bits. */
  lemma IsValidOnlyReservedBit(t: ChunkType, u: ChunkType)
    requires t.code[2] == u.code[2]
    ensures IsValid(t) == IsValid(u)
  {
  }

  /** An accepted string is exactly what `to_string` renders. */
  lemma FromStrToString(s: string, t: ChunkType)
    requires FromStr(s) == Ok(t)
    ensures ToString(t) == s
  {
    var bytes := Utf8.Encode(s);
    assert |bytes| == 4 && bytes == t.code;
    Utf8.AsciiOnly(s);
    var r := ToString(t);
    assert forall i :: 0 <= i < 4 ==> r[i] as int == s[i] as int;
  }

  /** `to_string` renders a type that `from_str` reads back. */
  lemma ToStringFromStr(t: ChunkType)
    ensures FromStr(ToString(t)) == Ok(t)
  {
    var s := ToString(t);
    Utf8.AsciiEncode(s);
    var bytes := Utf8.Encode(s);
    assert forall i :: 0 <= i < 4 ==> bytes[i] == t.code[i] by {
      forall i | 0 <= i < 4 {
        ValueInjective(bytes[i], t.code[i]);
      }
    }
    assert bytes == t.code;
  }

  /** Chunk types are equal exactly when their codes are. */
  lemma EqualIffSameCode(t: ChunkType, u: ChunkType)
    ensures t == u <==> Bytes(t) == Bytes(u)
  {
  }
}
