/**
 * The chunk examples the codec's own unit tests check, proved for the
 * model: a chunk of type `RuSt` holding the 42-byte message
 * "This is where your secret message will be!", whose CRC is 2882656334.
 */
module ChunkExamples {
  import opened FixedWidth
  import opened Results
  import opened Crc32
  import Utf8
  import ChunkTypes
  import opened Chunks
  import LegacyChunks

  const RUST: ChunkTypes.ChunkType := ChunkTypes.ChunkType([82, 117, 83, 116])
  const RUST_CODE: seq<byte> := [82, 117, 83, 116]

  // The message, in six pieces of seven bytes.
  const MESSAGE_1: seq<byte> := [84, 104, 105, 115, 32, 105, 115]
  const MESSAGE_2: seq<byte> := [32, 119, 104, 101, 114, 101, 32]
  const MESSAGE_3: seq<byte> := [121, 111, 117, 114, 32, 115, 101]
  const MESSAGE_4: seq<byte> := [99, 114, 101, 116, 32, 109, 101]
  const MESSAGE_5: seq<byte> := [115, 115, 97, 103, 101, 32, 119]
  const MESSAGE_6: seq<byte> := [105, 108, 108, 32, 98, 101, 33]
  const MESSAGE: seq<byte> := MESSAGE_1 + MESSAGE_2 + MESSAGE_3 + MESSAGE_4 + MESSAGE_5 + MESSAGE_6

  /** The message as the tests write it. */
  const MESSAGE_TEXT: string := "This is where your secret message will be!"

  /** The CRC the tests expect, and the one they use to provoke a mismatch. */
  const EXAMPLE_CRC: uint32 := 2882656334
  const WRONG_CRC: uint32 := 2882656333

  lemma CodeRegister()
    ensures Register(0xFFFF_FFFF, RUST_CODE) == 0x2B7B_F6C3
  {
    var s := RUST_CODE;
    assert ByteStep(0xFFFF_FFFF, 0x52) == 0xA898_20AA by { ByteStepUnrolled(0xFFFF_FFFF, 0x52); }
    assert ByteStep(0xA898_20AA, 0x75) == 0x16C4_5765 by { ByteStepUnrolled(0xA898_20AA, 0x75); }
    assert ByteStep(0x16C4_5765, 0x53) == 0xCFAC_51CE by { ByteStepUnrolled(0x16C4_5765, 0x53); }
    assert ByteStep(0xCFAC_51CE, 0x74) == 0x2B7B_F6C3 by { ByteStepUnrolled(0xCFAC_51CE, 0x74); }
    assert Register(0xFFFF_FFFF, s) == Register(0xA898_20AA, s[1..]);
    assert Register(0xA898_20AA, s[1..]) == Register(0x16C4_5765, s[2..]);
    assert Register(0x16C4_5765, s[2..]) == Register(0xCFAC_51CE, s[3..]);
    assert Register(0xCFAC_51CE, s[3..]) == Register(0x2B7B_F6C3, s[4..]);
  }

  lemma Piece1Register()
    ensures Register(0x2B7B_F6C3, MESSAGE_1) == 0x5CE4_6AA6
  {
    var s := MESSAGE_1;
    assert ByteStep(0x2B7B_F6C3, 0x54) == 0x6E40_7D11 by { ByteStepUnrolled(0x2B7B_F6C3, 0x54); }
    assert ByteStep(0x6E40_7D11, 0x68) == 0x29B7_89E5 by { ByteStepUnrolled(0x6E40_7D11, 0x68); }
    assert ByteStep(0x29B7_89E5, 0x69) == 0xE427_7882 by { ByteStepUnrolled(0x29B7_89E5, 0x69); }
    assert ByteStep(0xE427_7882, 0x73) == 0xCA5E_E5F2 by { ByteStepUnrolled(0xE427_7882, 0x73); }
    assert ByteStep(0xCA5E_E5F2, 0x20) == 0x6817_ED1D by { ByteStepUnrolled(0xCA5E_E5F2, 0x20); }
    assert ByteStep(0x6817_ED1D, 0x69) == 0x5700_A2C8 by { ByteStepUnrolled(0x6817_ED1D, 0x69); }
    assert ByteStep(0x5700_A2C8, 0x73) == 0x5CE4_6AA6 by { ByteStepUnrolled(0x5700_A2C8, 0x73); }
    assert Register(0x2B7B_F6C3, s) == Register(0x6E40_7D11, s[1..]);
    assert Register(0x6E40_7D11, s[1..]) == Register(0x29B7_89E5, s[2..]);
    assert Register(0x29B7_89E5, s[2..]) == Register(0xE427_7882, s[3..]);
    assert Register(0xE427_7882, s[3..]) == Register(0xCA5E_E5F2, s[4..]);
    assert Register(0xCA5E_E5F2, s[4..]) == Register(0x6817_ED1D, s[5..]);
    assert Register(0x6817_ED1D, s[5..]) == Register(0x5700_A2C8, s[6..]);
    assert Register(0x5700_A2C8, s[6..]) == Register(0x5CE4_6AA6, s[7..]);
  }

  lemma Piece2Register()
    ensures Register(0x5CE4_6AA6, MESSAGE_2) == 0xD92A_2721
  {
    var s := MESSAGE_2;
    assert ByteStep(0x5CE4_6AA6, 0x20) == 0x0487_C27F by { ByteStepUnrolled(0x5CE4_6AA6, 0x20); }
    assert ByteStep(0x0487_C27F, 0x77) == 0x0EDF_0FF0 by { ByteStepUnrolled(0x0487_C27F, 0x77); }
    assert ByteStep(0x0EDF_0FF0, 0x68) == 0xFEDA_C479 by { ByteStepUnrolled(0x0EDF_0FF0, 0x68); }
    assert ByteStep(0xFEDA_C479, 0x65) == 0x14FF_868B by { ByteStepUnrolled(0xFEDA_C479, 0x65); }
    assert ByteStep(0x14FF_868B, 0x72) == 0xC475_B53E by { ByteStepUnrolled(0x14FF_868B, 0x72); }
    assert ByteStep(0xC475_B53E, 0x65) == 0xFC7D_FDC9 by { ByteStepUnrolled(0xC475_B53E, 0x65); }
    assert ByteStep(0xFC7D_FDC9, 0x20) == 0xD92A_2721 by { ByteStepUnrolled(0xFC7D_FDC9, 0x20); }
    assert Register(0x5CE4_6AA6, s) == Register(0x0487_C27F, s[1..]);
    assert Register(0x0487_C27F, s[1..]) == Register(0x0EDF_0FF0, s[2..]);
    assert Register(0x0EDF_0FF0, s[2..]) == Register(0xFEDA_C479, s[3..]);
    assert Register(0xFEDA_C479, s[3..]) == Register(0x14FF_868B, s[4..]);
    assert Register(0x14FF_868B, s[4..]) == Register(0xC475_B53E, s[5..]);
    assert Register(0xC475_B53E, s[5..]) == Register(0xFC7D_FDC9, s[6..]);
    assert Register(0xFC7D_FDC9, s[6..]) == Register(0xD92A_2721, s[7..]);
  }

  lemma Piece3Register()
    ensures Register(0xD92A_2721, MESSAGE_3) == 0xD29F_10CD
  {
    var s := MESSAGE_3;
    assert ByteStep(0xD92A_2721, 0x79) == 0x6569_F3E1 by { ByteStepUnrolled(0xD92A_2721, 0x79); }
    assert ByteStep(0x6569_F3E1, 0x6F) == 0x0A65_C7D4 by { ByteStepUnrolled(0x6569_F3E1, 0x6F); }
    assert ByteStep(0x0A65_C7D4, 0x75) == 0xA1DB_F6B9 by { ByteStepUnrolled(0x0A65_C7D4, 0x75); }
    assert ByteStep(0xA1DB_F6B9, 0x72) == 0x0C17_C0CE by { ByteStepUnrolled(0xA1DB_F6B9, 0x72); }
    assert ByteStep(0x0C17_C0CE, 0x20) == 0x47BE_D8BF by { ByteStepUnrolled(0x0C17_C0CE, 0x20); }
    assert ByteStep(0x47BE_D8BF, 0x73) == 0x9295_3043 by { ByteStepUnrolled(0x47BE_D8BF, 0x73); }
    assert ByteStep(0x9295_3043, 0x65) == 0xD29F_10CD by { ByteStepUnrolled(0x9295_3043, 0x65); }
    assert Register(0xD92A_2721, s) == Register(0x6569_F3E1, s[1..]);
    assert Register(0x6569_F3E1, s[1..]) == Register(0x0A65_C7D4, s[2..]);
    assert Register(0x0A65_C7D4, s[2..]) == Register(0xA1DB_F6B9, s[3..]);
    assert Register(0xA1DB_F6B9, s[3..]) == Register(0x0C17_C0CE, s[4..]);
    assert Register(0x0C17_C0CE, s[4..]) == Register(0x47BE_D8BF, s[5..]);
    assert Register(0x47BE_D8BF, s[5..]) == Register(0x9295_3043, s[6..]);
    assert Register(0x9295_3043, s[6..]) == Register(0xD29F_10CD, s[7..]);
  }

  lemma Piece4Register()
    ensures Register(0xD29F_10CD, MESSAGE_4) == 0xEDEA_CE9A
  {
    var s := MESSAGE_4;
    assert ByteStep(0xD29F_10CD, 0x63) == 0x31BC_11FF by { ByteStepUnrolled(0xD29F_10CD, 0x63); }
    assert ByteStep(0x31BC_11FF, 0x72) == 0x9338_438C by { ByteStepUnrolled(0x31BC_11FF, 0x72); }
    assert ByteStep(0x9338_438C, 0x65) == 0xD945_629F by { ByteStepUnrolled(0x9338_438C, 0x65); }
    assert ByteStep(0xD945_629F, 0x74) == 0x3701_7E92 by { ByteStepUnrolled(0xD945_629F, 0x74); }
    assert ByteStep(0x3701_7E92, 0x20) == 0x2558_D3DE by { ByteStepUnrolled(0x3701_7E92, 0x20); }
    assert ByteStep(0x2558_D3DE, 0x6D) == 0x524D_BAE5 by { ByteStepUnrolled(0x2558_D3DE, 0x6D); }
    assert ByteStep(0x524D_BAE5, 0x65) == 0xEDEA_CE9A by { ByteStepUnrolled(0x524D_BAE5, 0x65); }
    assert Register(0xD29F_10CD, s) == Register(0x31BC_11FF, s[1..]);
    assert Register(0x31BC_11FF, s[1..]) == Register(0x9338_438C, s[2..]);
    assert Register(0x9338_438C, s[2..]) == Register(0xD945_629F, s[3..]);
    assert Register(0xD945_629F, s[3..]) == Register(0x3701_7E92, s[4..]);
    assert Register(0x3701_7E92, s[4..]) == Register(0x2558_D3DE, s[5..]);
    assert Register(0x2558_D3DE, s[5..]) == Register(0x524D_BAE5, s[6..]);
    assert Register(0x524D_BAE5, s[6..]) == Register(0xEDEA_CE9A, s[7..]);
  }

  lemma Piece5Register()
    ensures Register(0xEDEA_CE9A, MESSAGE_5) == 0x6147_FD45
  {
    var s := MESSAGE_5;
    assert ByteStep(0xEDEA_CE9A, 0x73) == 0xD93B_B012 by { ByteStepUnrolled(0xEDEA_CE9A, 0x73); }
    assert ByteStep(0xD93B_B012, 0x73) == 0x3A6C_6A7E by { ByteStepUnrolled(0xD93B_B012, 0x73); }
    assert ByteStep(0x3A6C_6A7E, 0x61) == 0x8D32_619F by { ByteStepUnrolled(0x3A6C_6A7E, 0x61); }
    assert ByteStep(0x8D32_619F, 0x67) == 0xB3EB_484F by { ByteStepUnrolled(0x8D32_619F, 0x67); }
    assert ByteStep(0xB3EB_484F, 0x65) == 0xDB08_229E by { ByteStepUnrolled(0xB3EB_484F, 0x65); }
    assert ByteStep(0xDB08_229E, 0x20) == 0x2C02_96A9 by { ByteStepUnrolled(0xDB08_229E, 0x20); }
    assert ByteStep(0x2C02_96A9, 0x77) == 0x6147_FD45 by { ByteStepUnrolled(0x2C02_96A9, 0x77); }
    assert Register(0xEDEA_CE9A, s) == Register(0xD93B_B012, s[1..]);
    assert Register(0xD93B_B012, s[1..]) == Register(0x3A6C_6A7E, s[2..]);
    assert Register(0x3A6C_6A7E, s[2..]) == Register(0x8D32_619F, s[3..]);
    assert Register(0x8D32_619F, s[3..]) == Register(0xB3EB_484F, s[4..]);
    assert Register(0xB3EB_484F, s[4..]) == Register(0xDB08_229E, s[5..]);
    assert Register(0xDB08_229E, s[5..]) == Register(0x2C02_96A9, s[6..]);
    assert Register(0x2C02_96A9, s[6..]) == Register(0x6147_FD45, s[7..]);
  }

  lemma Piece6Register()
    ensures Register(0x6147_FD45, MESSAGE_6) == 0x542E_27B1
  {
    var s := MESSAGE_6;
    assert ByteStep(0x6147_FD45, 0x69) == 0x32B9_2B1E by { ByteStepUnrolled(0x6147_FD45, 0x69); }
    assert ByteStep(0x32B9_2B1E, 0x6C) == 0xBE39_A93B by { ByteStepUnrolled(0x32B9_2B1E, 0x6C); }
    assert ByteStep(0xBE39_A93B, 0x6C) == 0xF5B1_FDFE by { ByteStepUnrolled(0xBE39_A93B, 0x6C); }
    assert ByteStep(0xF5B1_FDFE, 0x20) == 0x619E_4E2E by { ByteStepUnrolled(0xF5B1_FDFE, 0x20); }
    assert ByteStep(0x619E_4E2E, 0x62) == 0x7F0B_93F5 by { ByteStepUnrolled(0x619E_4E2E, 0x62); }
    assert ByteStep(0x7F0B_93F5, 0x65) == 0xF070_98D7 by { ByteStepUnrolled(0x7F0B_93F5, 0x65); }
    assert ByteStep(0xF070_98D7, 0x21) == 0x542E_27B1 by { ByteStepUnrolled(0xF070_98D7, 0x21); }
    assert Register(0x6147_FD45, s) == Register(0x32B9_2B1E, s[1..]);
    assert Register(0x32B9_2B1E, s[1..]) == Register(0xBE39_A93B, s[2..]);
    assert Register(0xBE39_A93B, s[2..]) == Register(0xF5B1_FDFE, s[3..]);
    assert Register(0xF5B1_FDFE, s[3..]) == Register(0x619E_4E2E, s[4..]);
    assert Register(0x619E_4E2E, s[4..]) == Register(0x7F0B_93F5, s[5..]);
    assert Register(0x7F0B_93F5, s[5..]) == Register(0xF070_98D7, s[6..]);
    assert Register(0xF070_98D7, s[6..]) == Register(0x542E_27B1, s[7..]);
  }
  /** Two inputs consumed one after the other. */
  lemma RegisterJoin(r0: bv32, a: seq<byte>, r1: bv32, b: seq<byte>, r2: bv32)
    requires Register(r0, a) == r1 && Register(r1, b) == r2
    ensures Register(r0, a + b) == r2
  {
    RegisterAppend(r0, a, b);
  }

  /** The register after the type and the whole message. */
  lemma ExampleRegister()
    ensures Register(INIT, RUST_CODE + MESSAGE) == 0x542E_27B1
  {
    CodeRegister();
    Piece1Register();
    Piece2Register();
    Piece3Register();
    Piece4Register();
    Piece5Register();
    Piece6Register();
    RegisterJoin(0x2B7B_F6C3, MESSAGE_1, 0x5CE4_6AA6, MESSAGE_2, 0xD92A_2721);
    RegisterJoin(0x2B7B_F6C3, MESSAGE_1 + MESSAGE_2, 0xD92A_2721, MESSAGE_3, 0xD29F_10CD);
    RegisterJoin(0x2B7B_F6C3, MESSAGE_1 + MESSAGE_2 + MESSAGE_3, 0xD29F_10CD, MESSAGE_4, 0xEDEA_CE9A);
    RegisterJoin(0x2B7B_F6C3, MESSAGE_1 + MESSAGE_2 + MESSAGE_3 + MESSAGE_4, 0xEDEA_CE9A,
                 MESSAGE_5, 0x6147_FD45);
    RegisterJoin(0x2B7B_F6C3, MESSAGE_1 + MESSAGE_2 + MESSAGE_3 + MESSAGE_4 + MESSAGE_5, 0x6147_FD45,
                 MESSAGE_6, 0x542E_27B1);
    RegisterJoin(INIT, RUST_CODE, 0x2B7B_F6C3, MESSAGE, 0x542E_27B1);
  }

  /** The CRC of type `RuSt` and the message is 2882656334. */
  lemma ExampleCrc()
    ensures CalculateCrc(RUST, MESSAGE) == EXAMPLE_CRC
  {
    ExampleRegister();
    assert RegisterValue(0xABD1_D84E) == 2882656334;
  }

  lemma Piece1Text()
    ensures Utf8.Encode("This is") == MESSAGE_1
  {
    Utf8.AsciiBytes("This is", MESSAGE_1);
  }

  lemma Piece2Text()
    ensures Utf8.Encode(" where ") == MESSAGE_2
  {
    Utf8.AsciiBytes(" where ", MESSAGE_2);
  }

  lemma Piece3Text()
    ensures Utf8.Encode("your se") == MESSAGE_3
  {
    Utf8.AsciiBytes("your se", MESSAGE_3);
  }

  lemma Piece4Text()
    ensures Utf8.Encode("cret me") == MESSAGE_4
  {
    Utf8.AsciiBytes("cret me", MESSAGE_4);
  }

  lemma Piece5Text()
    ensures Utf8.Encode("ssage w") == MESSAGE_5
  {
    Utf8.AsciiBytes("ssage w", MESSAGE_5);
  }

  lemma Piece6Text()
    ensures Utf8.Encode("ill be!") == MESSAGE_6
  {
    Utf8.AsciiBytes("ill be!", MESSAGE_6);
  }

  lemma TextPieces()
    ensures "This is where your secret message will be!"
      == "This is" + " where " + "your se" + "cret me" + "ssage w" + "ill be!"
  {
  }

  /** Six strings with known encodings, encoded together. */
  lemma EncodeSix(t1: string, t2: string, t3: string, t4: string, t5: string, t6: string,
                  b1: seq<byte>, b2: seq<byte>, b3: seq<byte>, b4: seq<byte>, b5: seq<byte>, b6: seq<byte>)
    requires Utf8.Encode(t1) == b1 && Utf8.Encode(t2) == b2 && Utf8.Encode(t3) == b3
    requires Utf8.Encode(t4) == b4 && Utf8.Encode(t5) == b5 && Utf8.Encode(t6) == b6
    ensures Utf8.Encode(t1 + t2 + t3 + t4 + t5 + t6) == b1 + b2 + b3 + b4 + b5 + b6
  {
    Utf8.EncodeAppend(t1, t2);
    Utf8.EncodeAppend(t1 + t2, t3);
    Utf8.EncodeAppend(t1 + t2 + t3, t4);
    Utf8.EncodeAppend(t1 + t2 + t3 + t4, t5);
    Utf8.EncodeAppend(t1 + t2 + t3 + t4 + t5, t6);
  }

  /** The message is 42 bytes long. */
  lemma MessageLength()
    ensures |MESSAGE| == 42
  {
  }

  /** The message bytes are those of the message text. */
  lemma MessageBytes()
    ensures Utf8.Encode(MESSAGE_TEXT) == MESSAGE
  {
    TextPieces();
    Piece1Text();
    Piece2Text();
    Piece3Text();
    Piece4Text();
    Piece5Text();
    Piece6Text();
    EncodeSix("This is", " where ", "your se", "cret me", "ssage w", "ill be!",
              MESSAGE_1, MESSAGE_2, MESSAGE_3, MESSAGE_4, MESSAGE_5, MESSAGE_6);
  }

  /** `Chunk::new` on `RuSt` and the message bytes: length 42, CRC 2882656334. */
  lemma NewExample()
    ensures New(RUST, MESSAGE) == Chunk(42, RUST, MESSAGE, EXAMPLE_CRC)
  {
    MessageLength();
    ExampleCrc();
  }

  /** The same chunk, with type and data given as the test gives them: as strings. */
  lemma NewFromTextExample()
    ensures ChunkTypes.FromStr("RuSt") == Ok(RUST)
    ensures var data := Utf8.Encode(MESSAGE_TEXT);
      data == MESSAGE && New(RUST, data) == Chunk(42, RUST, MESSAGE, EXAMPLE_CRC)
  {
    Utf8.AsciiBytes("RuSt", RUST_CODE);
    MessageBytes();
    NewExample();
  }

  /** The test's chunk bytes parse to that chunk, whose type reads `RuSt`. */
  lemma ValidChunkExample()
    ensures TryFrom(Be32(42) + RUST_CODE + MESSAGE + Be32(EXAMPLE_CRC))
      == Ok(Chunk(42, RUST, MESSAGE, EXAMPLE_CRC))
    ensures ChunkTypes.ToString(RUST) == "RuSt"
  {
    NewExample();
    NewRoundTrip(RUST, MESSAGE);
  }

  /** The same bytes with the CRC one less: the parser reports the mismatch. */
  lemma InvalidChunkExample()
    ensures TryFrom(Be32(42) + RUST_CODE + MESSAGE + Be32(WRONG_CRC))
      == Err(ChunkErr(InvalidCrc(WRONG_CRC, EXAMPLE_CRC)))
  {
    NewExample();
    CrcCorruptionDetected(New(RUST, MESSAGE), WRONG_CRC);
  }

  /** The older parser accepts the test's chunk bytes as well. */
  lemma LegacyValidChunkExample()
    ensures LegacyChunks.TryFrom(Be32(42) + RUST_CODE + MESSAGE + Be32(EXAMPLE_CRC))
      == Ok(Chunk(42, RUST, MESSAGE, EXAMPLE_CRC))
  {
    NewExample();
    LegacyChunks.NewRoundTrip(RUST, MESSAGE);
  }

  /** The older parser reports the same mismatch. */
  lemma LegacyInvalidChunkExample()
    ensures LegacyChunks.TryFrom(Be32(42) + RUST_CODE + MESSAGE + Be32(WRONG_CRC))
      == Err(LegacyChunks.ChunkErr(LegacyChunks.InvalidCrc(WRONG_CRC, EXAMPLE_CRC)))
  {
    NewExample();
    LegacyChunks.ParseAsBytes(Chunk(42, RUST, MESSAGE, WRONG_CRC), LegacyChunks.Saturating);
  }
}
