/**
 * The chunk type examples the codec's own unit tests check, proved for the
 * model: the type `RuSt` and its variants in each property bit.
 */
module ChunkTypeExamples {
  import opened Results
  import Utf8
  import opened ChunkTypes

  /** A four-letter ASCII string parses to the type of its bytes. */
  lemma ParsesTo(s: string, b: Code)
    requires |s| == 4
    requires forall i :: 0 <= i < 4 ==> s[i] as int == b[i] as int
    ensures FromStr(s) == Ok(ChunkType(b))
  {
    Utf8.AsciiBytes(s, b);
  }

  /** `try_from([82, 117, 83, 116])` succeeds and `bytes()` gives those bytes back. */
  lemma FromBytesExample()
    ensures TryFrom([82, 117, 83, 116]) == Ok(ChunkType([82, 117, 83, 116]))
    ensures Bytes(ChunkType([82, 117, 83, 116])) == [82, 117, 83, 116]
  {
  }

  /** `from_str("RuSt")` is the type `try_from` builds from the same bytes. */
  lemma FromStrExample()
    ensures FromStr("RuSt") == TryFrom([82, 117, 83, 116])
  {
    ParsesTo("RuSt", [82, 117, 83, 116]);
  }

  /** `RuSt` is critical; `ruSt` is not. */
  lemma CriticalExamples()
    ensures FromStr("RuSt").Ok? && IsCritical(FromStr("RuSt").value)
    ensures FromStr("ruSt").Ok? && !IsCritical(FromStr("ruSt").value)
  {
    ParsesTo("RuSt", [82, 117, 83, 116]);
    ParsesTo("ruSt", [114, 117, 83, 116]);
  }

  /** `RUSt` is public; `RuSt` is not. */
  lemma PublicExamples()
    ensures FromStr("RUSt").Ok? && IsPublic(FromStr("RUSt").value)
    ensures FromStr("RuSt").Ok? && !IsPublic(FromStr("RuSt").value)
  {
    ParsesTo("RUSt", [82, 85, 83, 116]);
    ParsesTo("RuSt", [82, 117, 83, 116]);
  }

  /** `RuSt` has a valid reserved bit and is valid; `Rust` has neither. */
  lemma ReservedBitExamples()
    ensures FromStr("RuSt").Ok? && IsReservedBitValid(FromStr("RuSt").value)
    ensures FromStr("Rust").Ok? && !IsReservedBitValid(FromStr("Rust").value)
    ensures IsValid(FromStr("RuSt").value) && !IsValid(FromStr("Rust").value)
  {
    ParsesTo("RuSt", [82, 117, 83, 116]);
    ParsesTo("Rust", [82, 117, 115, 116]);
  }

  /** `RuSt` is safe to copy; `RuST` is not. */
  lemma SafeToCopyExamples()
    ensures FromStr("RuSt").Ok? && IsSafeToCopy(FromStr("RuSt").value)
    ensures FromStr("RuST").Ok? && !IsSafeToCopy(FromStr("RuST").value)
  {
    ParsesTo("RuSt", [82, 117, 83, 116]);
    ParsesTo("RuST", [82, 117, 83, 84]);
  }

  /** `from_str("Ru1t")` fails on the digit. */
  lemma InvalidByteExample()
    ensures FromStr("Ru1t") == Err(InvalidByte(49))
  {
    Utf8.AsciiBytes("Ru1t", [82, 117, 49, 116]);
    assert FirstRejected([82, 117, 49, 116], 0) == Some(49);
  }

  /** `to_string()` of `RuSt` is "RuSt". */
  lemma ToStringExample()
    ensures FromStr("RuSt").Ok? && ToString(FromStr("RuSt").value) == "RuSt"
  {
    ParsesTo("RuSt", [82, 117, 83, 116]);
  }
}
