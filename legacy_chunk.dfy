/**
 * The older revision of the chunk codec. Its record, `new`, `as_bytes` and
 * CRC are the same as the current revision's and are shared from `Chunks`;
 * its parser differs: the input must end exactly after the CRC, and there
 * is no separate "no CRC" error.
 */
module LegacyChunks {
  import opened FixedWidth
  import opened Results
  import ChunkTypes
  import Chunks
  import Sequences

  /** `usize` on a 64-bit target: slice lengths and their differences live here. */
  const USIZE_LIMIT: int := 0x1_0000_0000_0000_0000

  datatype ChunkError =
    | InvalidCrc(provided: uint32, actual: uint32)
    | NoDataLengthProvided
    | NoChunkTypeProvided
    | NonMatchingDataLength(expected: nat, available: nat)

  datatype Error =
    | ChunkTypeErr(typeError: ChunkTypes.ChunkTypeError)
    | ChunkErr(chunkError: ChunkError)

  /** `a - b` on `usize` in a build without overflow checks: modulo 2^64. */
  function WrappingSub(a: nat, b: nat): (r: nat)
    ensures r < USIZE_LIMIT
    ensures 0 <= a - b < USIZE_LIMIT ==> r == a - b
    ensures -USIZE_LIMIT <= a - b < 0 ==> r == USIZE_LIMIT + (a - b)
  {
    (a - b) % USIZE_LIMIT
  }

  /** `a - b`, or zero when `b` is the larger. */
  function SaturatingSub(a: nat, b: nat): (r: nat)
    ensures r <= a
    ensures a >= b ==> r + b == a
  {
    if a >= b then a - b else 0
  }

  /** How the data length available is computed from what follows the type. */
  datatype Subtraction = Wrapping | Saturating

  /** The data length reported for `k` bytes after the type: `k` less the CRC. */
  function Available(k: nat, sub: Subtraction): (r: nat)
    ensures k >= 4 && k - 4 < USIZE_LIMIT ==> r == k - 4
  {
    match sub
    case Wrapping => WrappingSub(k, 4)
    case Saturating => SaturatingSub(k, 4)
  }

  /**
   * The stages of the older `try_from`. When the sizes disagree it reports
   * the data length `Available(k, sub)`, where `k` is the number of bytes
   * after the type; the two parsers below differ only there.
   */
  function Parse(value: seq<byte>, sub: Subtraction): (r: Result<Chunks.Chunk, Error>)
    ensures r.Ok? ==> Chunks.WellFormed(r.value)
  {
    if |value| < 4 then Err(ChunkErr(NoDataLengthProvided))
    else
      var length := FromBe32(value[..4]);
      if |value| < 8 then Err(ChunkErr(NoChunkTypeProvided))
      else
        match ChunkTypes.TryFrom(value[4..8])
        case Err(e) => Err(ChunkTypeErr(e))
        case Ok(chunkType) =>
          if |value| - 8 != length + 4 then
            Err(ChunkErr(NonMatchingDataLength(length, Available(|value| - 8, sub))))
          else
            var data := value[8..8 + length];
            var crc := FromBe32(value[8 + length..]);
            var actualCrc := Chunks.CalculateCrc(chunkType, data);
            if crc != actualCrc then Err(ChunkErr(InvalidCrc(crc, actualCrc)))
            else Ok(Chunks.Chunk(length, chunkType, data, crc))
  }

  /**
   * `Chunk::try_from` as written: the available data length is computed as
   * the remaining length minus four, which wraps around when fewer than
   * four bytes remain.
   */
  function TryFromAsWritten(value: seq<byte>): (r: Result<Chunks.Chunk, Error>)
    ensures r.Ok? ==> Chunks.WellFormed(r.value)
  {
    Parse(value, Wrapping)
  }

  /**
   * `Chunk::try_from` with the available data length computed without
   * underflow; the length it reports never exceeds what the input holds.
   */
  function TryFrom(value: seq<byte>): (r: Result<Chunks.Chunk, Error>)
    ensures r.Ok? ==> Chunks.WellFormed(r.value)
    ensures r.Err? && r.error.ChunkErr? && r.error.chunkError.NonMatchingDataLength?
      ==> 8 + r.error.chunkError.available <= |value|
  {
    Parse(value, Saturating)
  }

  /** The first three stages, which the older parser shares with the current one. */
  lemma EarlyStages(v: seq<byte>)
    ensures |v| < 4 ==> TryFrom(v) == Err(ChunkErr(NoDataLengthProvided))
    ensures 4 <= |v| < 8 ==> TryFrom(v) == Err(ChunkErr(NoChunkTypeProvided))
    ensures 8 <= |v| && !ChunkTypes.AllLetters(v[4..8])
      ==> TryFrom(v) == Err(ChunkTypeErr(ChunkTypes.TryFrom(v[4..8]).error))
  {
  }

  /** The stage that compares the stored CRC, when the sizes agree. */
  lemma ParseComplete(v: seq<byte>, sub: Subtraction)
    requires 8 <= |v| && ChunkTypes.AllLetters(v[4..8]) && |v| == FromBe32(v[..4]) + 12
    ensures var n := FromBe32(v[..4]);
      var t := ChunkTypes.ChunkType(v[4..8]);
      var stored := FromBe32(v[8 + n..]);
      var actual := Chunks.CalculateCrc(t, v[8..8 + n]);
      Parse(v, sub) == if stored != actual then Err(ChunkErr(InvalidCrc(stored, actual)))
                             else Ok(Chunks.Chunk(n, t, v[8..8 + n], stored))
  {
  }

  /** The stage that compares the sizes, when they disagree. */
  lemma ParseSizeMismatch(v: seq<byte>, sub: Subtraction)
    requires 8 <= |v| && ChunkTypes.AllLetters(v[4..8]) && |v| != FromBe32(v[..4]) + 12
    ensures Parse(v, sub)
      == Err(ChunkErr(NonMatchingDataLength(FromBe32(v[..4]), Available(|v| - 8, sub))))
  {
  }

  /** What an accepted input holds, part by part. */
  lemma ParseOkParts(v: seq<byte>, sub: Subtraction, c: Chunks.Chunk)
    requires Parse(v, sub) == Ok(c)
    ensures |v| == 12 + |c.data|
    ensures FromBe32(v[..4]) == c.length
    ensures v[4..8] == ChunkTypes.Bytes(c.chunkType)
    ensures v[8..8 + |c.data|] == c.data
    ensures FromBe32(v[8 + |c.data|..]) == c.crc
  {
  }

  /** Sizes that disagree: the corrected parser reports the data the input holds. */
  lemma TryFromSizeMismatch(v: seq<byte>)
    requires 8 <= |v| && ChunkTypes.AllLetters(v[4..8]) && |v| != FromBe32(v[..4]) + 12
    ensures TryFrom(v)
      == Err(ChunkErr(NonMatchingDataLength(FromBe32(v[..4]), SaturatingSub(|v| - 8, 4))))
  {
    ParseSizeMismatch(v, Saturating);
  }

  /** The bytes of a chunk whose length field is right parse as the current parser reads them. */
  lemma ParseAsBytes(c: Chunks.Chunk, sub: Subtraction)
    requires c.length == |c.data|
    ensures var actual := Chunks.CalculateCrc(c.chunkType, c.data);
      Parse(Chunks.AsBytes(c), sub)
        == if c.crc == actual then Ok(c) else Err(ChunkErr(InvalidCrc(c.crc, actual)))
  {
    Chunks.AsBytesFields(c);
    ParseComplete(Chunks.AsBytes(c), sub);
  }

  /**
   * The older parser succeeds exactly on the bytes of a well-formed chunk,
   * with nothing before or after them.
   */
  lemma TryFromOkIff(v: seq<byte>, c: Chunks.Chunk)
    ensures TryFrom(v) == Ok(c) <==> Chunks.WellFormed(c) && Chunks.AsBytes(c) == v
  {
    if TryFrom(v) == Ok(c) {
      var n := |c.data|;
      ParseOkParts(v, Saturating, c);
      Sequences.SliceToEnd(v, 8 + n, 12 + n);
      Chunks.PrefixFromParts(c, v);
    }
    if Chunks.WellFormed(c) && Chunks.AsBytes(c) == v {
      ParseAsBytes(c, Saturating);
    }
  }

  /** A chunk built by `new` survives `as_bytes` followed by the older `try_from`. */
  lemma NewRoundTrip(t: ChunkTypes.ChunkType, data: seq<byte>)
    requires |data| < UINT32_LIMIT
    ensures TryFrom(Chunks.AsBytes(Chunks.New(t, data))) == Ok(Chunks.New(t, data))
  {
    TryFromOkIff(Chunks.AsBytes(Chunks.New(t, data)), Chunks.New(t, data));
  }

  /**
   * Bytes after a chunk are refused: the announced length is reported
   * against the data length the extra bytes would imply.
   */
  lemma TrailingBytesRejected(c: Chunks.Chunk, rest: seq<byte>)
    requires Chunks.WellFormed(c) && |rest| > 0
    ensures TryFrom(Chunks.AsBytes(c) + rest)
      == Err(ChunkErr(NonMatchingDataLength(c.length, c.length + |rest|)))
  {
    var b := Chunks.AsBytes(c);
    var v := b + rest;
    Chunks.AsBytesFields(c);
    Sequences.SliceOfPrefix(b, v, 0, 4);
    Sequences.SliceOfPrefix(b, v, 4, 8);
    assert FromBe32(v[..4]) == c.length;
    assert |v| - 12 == c.length + |rest|;
    assert SaturatingSub(|v| - 8, 4) == c.length + |rest|;
    TryFromSizeMismatch(v);
  }

  /**
   * As written, an input that ends fewer than four bytes after a valid type
   * reports an available data length just below 2^64: the subtraction wraps.
   */
  lemma AsWrittenUnderflow(v: seq<byte>)
    requires 8 <= |v| < 12 && ChunkTypes.AllLetters(v[4..8])
    ensures TryFromAsWritten(v)
      == Err(ChunkErr(NonMatchingDataLength(FromBe32(v[..4]), USIZE_LIMIT - (12 - |v|))))
    ensures TryFromAsWritten(v).error.chunkError.available > |v|
  {
  }

  /**
   * The smallest such input: a zero length and the type `RuSt`. The length
   * reported is 2^64 - 4 where the input has no data at all; the corrected
   * parser reports 0.
   */
  lemma UnderflowExample()
    ensures var v: seq<byte> := [0, 0, 0, 0, 0x52, 0x75, 0x53, 0x74];
      && TryFromAsWritten(v) == Err(ChunkErr(NonMatchingDataLength(0, 0xFFFF_FFFF_FFFF_FFFC)))
      && TryFrom(v) == Err(ChunkErr(NonMatchingDataLength(0, 0)))
  {
    var v: seq<byte> := [0, 0, 0, 0, 0x52, 0x75, 0x53, 0x74];
    assert v[..4] == [0, 0, 0, 0];
    assert v[4..8] == [0x52, 0x75, 0x53, 0x74];
    assert FromBe32(v[..4]) == 0;
    AsWrittenUnderflow(v);
  }

  /** Once four bytes follow the type, the corrected parser is the one as written. */
  lemma CorrectionAgrees(v: seq<byte>)
    requires 12 <= |v| < USIZE_LIMIT
    ensures TryFrom(v) == TryFromAsWritten(v)
  {
    var k := |v| - 8;
    assert WrappingSub(k, 4) == SaturatingSub(k, 4);
    if ChunkTypes.AllLetters(v[4..8]) && |v| != FromBe32(v[..4]) + 12 {
      ParseSizeMismatch(v, Wrapping);
      ParseSizeMismatch(v, Saturating);
    }
  }

  /**
   * Across revisions: the older parser accepts an input exactly when the
   * current one accepts it and the chunk spans the whole input.
   */
  lemma OlderAcceptsWholeChunks(v: seq<byte>, c: Chunks.Chunk)
    ensures TryFrom(v) == Ok(c) <==> Chunks.TryFrom(v) == Ok(c) && |Chunks.AsBytes(c)| == |v|
  {
    TryFromOkIff(v, c);
    Chunks.TryFromOkIff(v, c);
    Sequences.PrefixOfSameLength(Chunks.AsBytes(c), v);
  }
}
