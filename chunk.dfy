/**
 * A PNG chunk (section 5.3 of the PNG specification, ISO/IEC 15948:2003):
 * a big-endian `u32` data length, the four-byte chunk type, the data, and
 * a big-endian CRC-32 over the type and the data.
 *
 * This is the current revision of the codec. Its parser reads one chunk
 * from the front of its input and ignores whatever follows the CRC.
 */
module Chunks {
  import opened FixedWidth
  import opened Results
  import opened Crc32
  import ChunkTypes
  import opened Sequences

  const LENGTH_LENGTH: nat := 4
  const TYPE_LENGTH: nat := 4
  const CRC_LENGTH: nat := 4
  const METADATA_LENGTH: nat := CRC_LENGTH + LENGTH_LENGTH + TYPE_LENGTH

  /** The record; its four fields are what the accessors return. */
  datatype Chunk = Chunk(length: uint32, chunkType: ChunkTypes.ChunkType, data: seq<byte>, crc: uint32)

  datatype ChunkError =
    | InvalidCrc(provided: uint32, actual: uint32)
    | NoDataLengthProvided
    | NoChunkTypeProvided
    | NonMatchingDataLength(expected: nat, available: nat)
    | NoCrcProvided

  /** What `try_from` can fail with: a chunk type error or a chunk error. */
  datatype Error =
    | ChunkTypeErr(typeError: ChunkTypes.ChunkTypeError)
    | ChunkErr(chunkError: ChunkError)

  /** `calculate_crc`: the CRC-32 of the type bytes followed by the data. */
  function CalculateCrc(t: ChunkTypes.ChunkType, data: seq<byte>): uint32 {
    Checksum(ChunkTypes.Bytes(t) + data)
  }

  /** The invariant every chunk the codec builds satisfies. */
  predicate WellFormed(c: Chunk) {
    c.length == |c.data| && c.crc == CalculateCrc(c.chunkType, c.data)
  }

  /**
   * `Chunk::new`: the length is the data size, which must fit in a `u32`
   * (the source panics otherwise), and the CRC covers type and data.
   */
  function New(t: ChunkTypes.ChunkType, data: seq<byte>): (c: Chunk)
    requires |data| < UINT32_LIMIT
    ensures WellFormed(c)
    ensures c.chunkType == t && c.data == data
  {
    Chunk(|data|, t, data, CalculateCrc(t, data))
  }

  /** `as_bytes`: length, type, data and CRC, back to back. */
  function AsBytes(c: Chunk): (r: seq<byte>)
    ensures |r| == METADATA_LENGTH + |c.data|
    ensures WellFormed(c) ==> |r| == METADATA_LENGTH + c.length
  {
    Be32(c.length) + ChunkTypes.Bytes(c.chunkType) + c.data + Be32(c.crc)
  }

  /**
   * `Chunk::try_from`: reads the length, the type, `length` data bytes and
   * the CRC, in that order, failing at the first part that is missing or
   * wrong; bytes after the CRC are not looked at.
   */
  function TryFrom(value: seq<byte>): (r: Result<Chunk, Error>)
    ensures r.Ok? ==> WellFormed(r.value)
  {
    if |value| < LENGTH_LENGTH then Err(ChunkErr(NoDataLengthProvided))
    else
      var length := FromBe32(value[..4]);
      if |value| < 8 then Err(ChunkErr(NoChunkTypeProvided))
      else
        match ChunkTypes.TryFrom(value[4..8])
        case Err(e) => Err(ChunkTypeErr(e))
        case Ok(chunkType) =>
          // `|value| - 8` bytes remain after the type
          if |value| - 8 < length then Err(ChunkErr(NonMatchingDataLength(length, |value| - 8)))
          else if |value| - 8 - length < CRC_LENGTH then Err(ChunkErr(NoCrcProvided))
          else CheckCrc(length, chunkType, value[8..8 + length], FromBe32(value[8 + length..12 + length]))
  }

  /** The last stage of `try_from`: the stored CRC must be the CRC of type and data. */
  function CheckCrc(length: uint32, chunkType: ChunkTypes.ChunkType, data: seq<byte>, crc: uint32)
    : (r: Result<Chunk, Error>)
    ensures r.Ok? <==> crc == CalculateCrc(chunkType, data)
    ensures r.Ok? ==> r.value == Chunk(length, chunkType, data, crc)
    ensures r.Err? ==> r.error == ChunkErr(InvalidCrc(crc, CalculateCrc(chunkType, data)))
  {
    var actualCrc := CalculateCrc(chunkType, data);
    if crc != actualCrc then Err(ChunkErr(InvalidCrc(crc, actualCrc)))
    else Ok(Chunk(length, chunkType, data, crc))
  }

  /** Where the four parts of a chunk sit in its bytes. */
  lemma AsBytesParts(c: Chunk)
    ensures AsBytes(c)[..4] == Be32(c.length)
    ensures AsBytes(c)[4..8] == ChunkTypes.Bytes(c.chunkType)
    ensures AsBytes(c)[8..8 + |c.data|] == c.data
    ensures AsBytes(c)[8 + |c.data|..] == Be32(c.crc)
  {
    SliceParts(Be32(c.length), ChunkTypes.Bytes(c.chunkType), c.data, Be32(c.crc));
  }

  /** Fewer than four bytes: no length. */
  lemma TryFromNoLength(v: seq<byte>)
    requires |v| < 4
    ensures TryFrom(v) == Err(ChunkErr(NoDataLengthProvided))
  {
  }

  /** A length but fewer than four bytes after it: no chunk type. */
  lemma TryFromNoType(v: seq<byte>)
    requires 4 <= |v| < 8
    ensures TryFrom(v) == Err(ChunkErr(NoChunkTypeProvided))
  {
  }

  /** A type that is not four letters: the chunk type error. */
  lemma TryFromBadType(v: seq<byte>)
    requires 8 <= |v| && !ChunkTypes.AllLetters(v[4..8])
    ensures TryFrom(v) == Err(ChunkTypeErr(ChunkTypes.TryFrom(v[4..8]).error))
  {
  }

  /** Fewer data bytes than the length announces. */
  lemma TryFromShortData(v: seq<byte>)
    requires 8 <= |v| && ChunkTypes.AllLetters(v[4..8]) && |v| - 8 < FromBe32(v[..4])
    ensures TryFrom(v) == Err(ChunkErr(NonMatchingDataLength(FromBe32(v[..4]), |v| - 8)))
  {
  }

  /** The data is all there but fewer than four bytes follow it. */
  lemma TryFromNoCrc(v: seq<byte>)
    requires 8 <= |v| && ChunkTypes.AllLetters(v[4..8])
    requires FromBe32(v[..4]) <= |v| - 8 < FromBe32(v[..4]) + 4
    ensures TryFrom(v) == Err(ChunkErr(NoCrcProvided))
  {
  }

  /**
   * Every part present: the stored CRC, read at offset `8 + length`, is
   * compared with the CRC of the type and the data.
   */
  lemma TryFromComplete(v: seq<byte>)
    requires 8 <= |v| && ChunkTypes.AllLetters(v[4..8]) && FromBe32(v[..4]) + 12 <= |v|
    ensures var n := FromBe32(v[..4]);
      TryFrom(v) == CheckCrc(n, ChunkTypes.ChunkType(v[4..8]), v[8..8 + n], FromBe32(v[8 + n..12 + n]))
  {
    assert ChunkTypes.TryFrom(v[4..8]) == Ok(ChunkTypes.ChunkType(v[4..8]));
  }

  /** What an accepted input holds, part by part. */
  lemma TryFromOkParts(v: seq<byte>, c: Chunk)
    requires TryFrom(v) == Ok(c)
    ensures 12 + |c.data| <= |v|
    ensures FromBe32(v[..4]) == c.length
    ensures v[4..8] == ChunkTypes.Bytes(c.chunkType)
    ensures v[8..8 + |c.data|] == c.data
    ensures FromBe32(v[8 + |c.data|..12 + |c.data|]) == c.crc
  {
  }

  /** The chunk the parser returns is laid out at the front of its input. */
  lemma TryFromPrefix(v: seq<byte>)
    requires TryFrom(v).Ok?
    ensures AsBytes(TryFrom(v).value) <= v
  {
    var c := TryFrom(v).value;
    TryFromOkParts(v, c);
    PrefixFromParts(c, v);
  }

  /** Bytes from which the parser reads a chunk's four parts begin with that chunk's bytes. */
  lemma PrefixFromParts(c: Chunk, v: seq<byte>)
    requires 12 + |c.data| <= |v|
    requires FromBe32(v[..4]) == c.length
    requires v[4..8] == ChunkTypes.Bytes(c.chunkType)
    requires v[8..8 + |c.data|] == c.data
    requires FromBe32(v[8 + |c.data|..12 + |c.data|]) == c.crc
    ensures AsBytes(c) <= v
  {
    var n := |c.data|;
    Be32FromBe32(v[..4]);
    Be32FromBe32(v[8 + n..12 + n]);
    JoinParts(v, 4, 8, 8 + n, 12 + n);
  }

  /** The four parts of a chunk whose bytes begin `v`, read from `v`. */
  lemma PartsFromPrefix(c: Chunk, v: seq<byte>)
    requires AsBytes(c) <= v
    ensures 12 + |c.data| <= |v|
    ensures v[..4] == Be32(c.length)
    ensures v[4..8] == ChunkTypes.Bytes(c.chunkType)
    ensures v[8..8 + |c.data|] == c.data
    ensures v[8 + |c.data|..12 + |c.data|] == Be32(c.crc)
  {
    var b := AsBytes(c);
    var n := |c.data|;
    AsBytesParts(c);
    SliceOfPrefix(b, v, 0, 4);
    SliceOfPrefix(b, v, 4, 8);
    SliceOfPrefix(b, v, 8, 8 + n);
    SliceOfPrefix(b, v, 8 + n, 12 + n);
    assert b[8 + n..12 + n] == b[8 + n..];
  }

  /** A well-formed chunk at the front of the input is what the parser returns. */
  lemma ParsesPrefix(c: Chunk, v: seq<byte>)
    requires WellFormed(c) && AsBytes(c) <= v
    ensures TryFrom(v) == Ok(c)
  {
    PartsFromPrefix(c, v);
    FromBe32Be32(c.length);
    FromBe32Be32(c.crc);
    TryFromAccepts(v, c);
  }

  /** An input holding a well-formed chunk's four parts at their offsets parses to that chunk. */
  lemma TryFromAccepts(v: seq<byte>, c: Chunk)
    requires WellFormed(c) && 12 + |c.data| <= |v|
    requires FromBe32(v[..4]) == c.length
    requires v[4..8] == ChunkTypes.Bytes(c.chunkType)
    requires v[8..8 + |c.data|] == c.data
    requires FromBe32(v[8 + |c.data|..12 + |c.data|]) == c.crc
    ensures TryFrom(v) == Ok(c)
  {
    TryFromComplete(v);
  }

  /**
   * The parser succeeds exactly on inputs that begin with the bytes of a
   * well-formed chunk, and returns that chunk.
   */
  lemma TryFromOkIff(v: seq<byte>, c: Chunk)
    ensures TryFrom(v) == Ok(c) <==> WellFormed(c) && AsBytes(c) <= v
  {
    if TryFrom(v) == Ok(c) {
      TryFromPrefix(v);
    }
    if WellFormed(c) && AsBytes(c) <= v {
      ParsesPrefix(c, v);
    }
  }

  /** Whatever follows a chunk is ignored. */
  lemma TrailingBytesIgnored(c: Chunk, rest: seq<byte>)
    requires WellFormed(c)
    ensures TryFrom(AsBytes(c) + rest) == Ok(c)
  {
    ParsesPrefix(c, AsBytes(c) + rest);
  }

  /** Appending bytes to an input the parser accepts does not change what it returns. */
  lemma ExtraBytesIgnored(v: seq<byte>, extra: seq<byte>)
    requires TryFrom(v).Ok?
    ensures TryFrom(v + extra) == TryFrom(v)
  {
    var c := TryFrom(v).value;
    TryFromPrefix(v);
    assert v <= v + extra;
    ParsesPrefix(c, v + extra);
  }

  /** A chunk built by `new` survives `as_bytes` followed by `try_from`. */
  lemma NewRoundTrip(t: ChunkTypes.ChunkType, data: seq<byte>)
    requires |data| < UINT32_LIMIT
    ensures TryFrom(AsBytes(New(t, data))) == Ok(New(t, data))
  {
    ParsesPrefix(New(t, data), AsBytes(New(t, data)));
  }

  /** Different well-formed chunks have different bytes. */
  lemma AsBytesInjective(c: Chunk, d: Chunk)
    requires WellFormed(c) && WellFormed(d) && c != d
    ensures AsBytes(c) != AsBytes(d)
  {
    ParsesPrefix(c, AsBytes(c));
    ParsesPrefix(d, AsBytes(d));
  }

  /**
   * The bytes of a chunk whose length field is right parse back to it when
   * its stored CRC is right, and give the CRC mismatch otherwise.
   */
  lemma TryFromAsBytes(c: Chunk)
    requires c.length == |c.data|
    ensures var actual := CalculateCrc(c.chunkType, c.data);
      TryFrom(AsBytes(c)) == if c.crc == actual then Ok(c) else Err(ChunkErr(InvalidCrc(c.crc, actual)))
  {
    AsBytesFields(c);
    TryFromComplete(AsBytes(c));
  }

  /** The values the parser reads back from the bytes of a chunk. */
  lemma AsBytesFields(c: Chunk)
    ensures |AsBytes(c)| == 12 + |c.data|
    ensures FromBe32(AsBytes(c)[..4]) == c.length
    ensures AsBytes(c)[4..8] == ChunkTypes.Bytes(c.chunkType)
    ensures ChunkTypes.ChunkType(AsBytes(c)[4..8]) == c.chunkType
    ensures AsBytes(c)[8..8 + |c.data|] == c.data
    ensures FromBe32(AsBytes(c)[8 + |c.data|..12 + |c.data|]) == c.crc
    ensures FromBe32(AsBytes(c)[8 + |c.data|..]) == c.crc
  {
    var w := AsBytes(c);
    var n := |c.data|;
    AsBytesParts(c);
    FromBe32Be32(c.length);
    assert w[8 + n..12 + n] == w[8 + n..];
    FromBe32Be32(c.crc);
  }

  /**
   * Changing one data byte of a chunk's bytes makes the parser report a
   * CRC mismatch: the stored CRC against the CRC of the altered data.
   */
  lemma DataCorruptionDetected(c: Chunk, i: nat, y: byte)
    requires WellFormed(c) && i < |c.data| && y != c.data[i]
    ensures CalculateCrc(c.chunkType, c.data[i := y]) != c.crc
    ensures TryFrom(AsBytes(c)[8 + i := y])
      == Err(ChunkErr(InvalidCrc(c.crc, CalculateCrc(c.chunkType, c.data[i := y]))))
  {
    var d := Chunk(c.length, c.chunkType, c.data[i := y], c.crc);
    AlteredDataCrc(ChunkTypes.Bytes(c.chunkType), c.data, i, y);
    UpdateThird(Be32(c.length), ChunkTypes.Bytes(c.chunkType), c.data, Be32(c.crc), i, y);
    TryFromAsBytes(d);
  }

  /** Changing one data byte changes the CRC of type and data. */
  lemma AlteredDataCrc(code: seq<byte>, data: seq<byte>, i: nat, y: byte)
    requires i < |data| && y != data[i]
    ensures Checksum(code + data[i := y]) != Checksum(code + data)
  {
    var p := code + data[..i];
    var q := data[i + 1..];
    assert code + data == p + [data[i]] + q;
    assert code + data[i := y] == p + [y] + q;
    ChecksumDetectsByteChange(p, data[i], y, q);
  }

  /** Changing one type byte changes the CRC of type and data. */
  lemma AlteredTypeCrc(code: seq<byte>, data: seq<byte>, i: nat, y: byte)
    requires i < |code| && y != code[i]
    ensures Checksum(code[i := y] + data) != Checksum(code + data)
  {
    var p := code[..i];
    var q := code[i + 1..] + data;
    assert code + data == p + [code[i]] + q;
    assert code[i := y] + data == p + [y] + q;
    ChecksumDetectsByteChange(p, code[i], y, q);
  }

  /**
   * Changing one type byte of a chunk's bytes is always rejected: by the
   * chunk type check when the new byte is not a letter, and otherwise by
   * the CRC, as the stored CRC against the CRC of the altered type.
   */
  lemma TypeCorruptionDetected(c: Chunk, i: nat, y: byte)
    requires WellFormed(c) && i < 4 && y != c.chunkType.code[i]
    ensures !ChunkTypes.IsAsciiLetter(y)
      ==> TryFrom(AsBytes(c)[4 + i := y]) == Err(ChunkTypeErr(ChunkTypes.InvalidByte(y)))
    ensures ChunkTypes.IsAsciiLetter(y) ==>
      var t := ChunkTypes.ChunkType(c.chunkType.code[i := y]);
      CalculateCrc(t, c.data) != c.crc
      && TryFrom(AsBytes(c)[4 + i := y]) == Err(ChunkErr(InvalidCrc(c.crc, CalculateCrc(t, c.data))))
  {
    if ChunkTypes.IsAsciiLetter(y) {
      TypeLetterChanged(c, i, y);
    } else {
      TypeNonLetter(c, i, y);
    }
  }

  /** A type byte replaced by another letter: the CRC mismatch. */
  lemma TypeLetterChanged(c: Chunk, i: nat, y: byte)
    requires WellFormed(c) && i < 4 && y != c.chunkType.code[i] && ChunkTypes.IsAsciiLetter(y)
    ensures var t := ChunkTypes.ChunkType(c.chunkType.code[i := y]);
      CalculateCrc(t, c.data) != c.crc
      && TryFrom(AsBytes(c)[4 + i := y]) == Err(ChunkErr(InvalidCrc(c.crc, CalculateCrc(t, c.data))))
  {
    var code := c.chunkType.code;
    var t := ChunkTypes.ChunkType(code[i := y]);
    UpdateSecond(Be32(c.length), code, c.data, Be32(c.crc), i, y);
    assert AsBytes(c)[4 + i := y] == AsBytes(Chunk(c.length, t, c.data, c.crc));
    AlteredTypeCrc(code, c.data, i, y);
    TryFromAsBytes(Chunk(c.length, t, c.data, c.crc));
  }

  /** A type byte replaced by a byte that is not a letter: the chunk type error. */
  lemma TypeNonLetter(c: Chunk, i: nat, y: byte)
    requires i < 4 && !ChunkTypes.IsAsciiLetter(y)
    ensures TryFrom(AsBytes(c)[4 + i := y]) == Err(ChunkTypeErr(ChunkTypes.InvalidByte(y)))
  {
    var altered := c.chunkType.code[i := y];
    UpdateSecond(Be32(c.length), c.chunkType.code, c.data, Be32(c.crc), i, y);
    SliceParts(Be32(c.length), altered, c.data, Be32(c.crc));
    RejectsAlteredType(AsBytes(c)[4 + i := y], c.chunkType.code, i, y);
  }

  /** Input whose type is four letters with one replaced by a non-letter fails on that byte. */
  lemma RejectsAlteredType(v: seq<byte>, code: ChunkTypes.Code, i: nat, y: byte)
    requires 8 <= |v| && i < 4 && v[4..8] == code[i := y] && !ChunkTypes.IsAsciiLetter(y)
    ensures TryFrom(v) == Err(ChunkTypeErr(ChunkTypes.InvalidByte(y)))
  {
    var t := v[4..8];
    assert t[i] == y;
    assert forall j :: 0 <= j < 4 && j != i ==> ChunkTypes.IsAsciiLetter(t[j]);
    TryFromBadType(v);
  }

  /** Changing the stored CRC makes the parser report the mismatch. */
  lemma CrcCorruptionDetected(c: Chunk, stored: uint32)
    requires WellFormed(c) && stored != c.crc
    ensures TryFrom(AsBytes(Chunk(c.length, c.chunkType, c.data, stored)))
      == Err(ChunkErr(InvalidCrc(stored, c.crc)))
  {
    TryFromAsBytes(Chunk(c.length, c.chunkType, c.data, stored));
  }
}
