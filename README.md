# PNG chunk codec, modelled in Dafny

This project models the chunk codec of PNGrs, a Rust tool that hides messages
in PNG files as extra chunks. A PNG chunk is laid out as follows (section 5.3
of ISO/IEC 15948:2003):

1. a big-endian `u32` data length;
2. a four-byte chunk type;
3. the data;
4. a big-endian CRC-32 over the type and the data.

The chunk type is four ASCII letters. Bit 5 of each letter is a property flag
(section 5.4): ancillary, private, reserved and safe-to-copy. The CRC is the
one defined in section 5.5.

The repository holds two revisions of the codec, and both are modelled.

* **Current revision** (`src/png/chunk/chunk_type.rs`, `src/png/chunk.rs`).
  Its parser reads one chunk from the front of its input. It ignores whatever
  follows the CRC, and it reports a missing CRC as `NoCrcProvided`.
* **Older revision** (`src/chunk_type.rs`, `src/chunk.rs`). Its parser demands
  that the input end exactly after the CRC.

The two `ChunkType` implementations are the same line for line, apart from
`const fn` and how errors are boxed. One module serves both revisions.

## Files

| file | module | contents |
|---|---|---|
| results.dfy | `Results` | `Option` and `Result` |
| sequences.dfy | `Sequences` | slicing and updating a sequence made of four consecutive parts, the shape of a chunk |
| fixed_width.dfy | `FixedWidth` | bytes (`bv8`), `u32` (`uint32`), `to_be_bytes`/`from_be_bytes` as `Be32`/`FromBe32`, with both round trips |
| crc32.dfy | `Crc32` | a bitwise CRC-32, proved to detect any one-byte change and to give the standard check value |
| utf8.dfy | `Utf8` | `str::as_bytes`, i.e. UTF-8 encoding, and how it treats ASCII |
| chunk_type.dfy | `ChunkTypes` | `ChunkType`, its flags, `try_from`, `from_str`, `to_string` |
| chunk.dfy | `Chunks` | `Chunk`, `new`, `calculate_crc`, `as_bytes` and the tolerant `try_from` of the current revision |
| legacy_chunk.dfy | `LegacyChunks` | the exact-length `try_from` of the older revision, as written and corrected |
| chunk_type_examples.dfy | `ChunkTypeExamples` | the chunk type unit tests, as lemmas |
| chunk_examples.dfy | `ChunkExamples` | the chunk unit tests, as lemmas, including the CRC 2882656334 of the test chunk |

Everything in the codec is a pure function of its arguments. It becomes
datatypes and functions here:

* A chunk is never mutated after construction, so `Chunk` is a datatype.
* The accessors `length()`, `chunk_type()`, `data()` and `crc()` are its
  fields.
* The early-return scan in `ChunkType::try_from` is the recursive function
  `FirstRejected`.
* The `split_at` rebindings of `Chunk::try_from` become slices at absolute
  offsets: the length at `[0, 4)`, the type at `[4, 8)`, the data at
  `[8, 8 + length)` and the CRC after the data.

The CRC is written out bit by bit, with the parameters that the `crc` crate's
`CRC_32_ISO_HDLC` and section 5.5 of the PNG standard share:

* the reflected polynomial 0xEDB88320;
* an initial register of all ones;
* a final complement.

The lemma `Crc32.CheckValue` ties this definition to that algorithm: it proves
the standard check value, `0xCBF43926` for `"123456789"`.
`ChunkExamples.ExampleCrc` proves that the test chunk's CRC is 2882656334.

The message "This is where your secret message will be!" is 42 bytes long,
as the tests assert (src/png/chunk.rs:172, 196); `ChunkExamples.MessageLength`
proves it.

## Model

| member | source | states |
|---|---|---|
| FixedWidth.Be32 | src/png/chunk.rs:84-85 | `u32::to_be_bytes` gives exactly four bytes, most significant first |
| FixedWidth.FromBe32 | src/png/chunk.rs:114 | `u32::from_be_bytes` of four bytes, most significant first; its partner lemmas `FixedWidth.DigitsOfFromBe32`, `FixedWidth.FromBe32Be32` and `FixedWidth.Be32FromBe32` make it the inverse of `Be32` |
| FixedWidth.DigitsOfFromBe32 | src/png/chunk.rs:114 | `u32::from_be_bytes`: the base-256 digits of the value read, most significant first, are the four bytes it was read from; so reading preserves each byte in its place |
| FixedWidth.FromBe32Be32 | src/png/chunk.rs:114 | `from_be_bytes` reads back the value that `to_be_bytes` wrote, so the length and the CRC survive framing |
| FixedWidth.Be32FromBe32 | src/png/chunk.rs:138 | writing the value read from any four bytes gives those bytes back |
| FixedWidth.Be32Injective | src/png/chunk.rs:89 | different `u32` values are framed as different bytes |
| Crc32.Checksum | src/png/chunk.rs:55-64 | `Crc::<u32>::new(&CRC_32_ISO_HDLC).checksum`: the empty input has checksum 0, because the final complement undoes the initial one; `Crc32.CheckValue` gives the standard check value, and `Crc32.ChecksumDetectsByteChange` shows that any one-byte change alters the checksum |
| Crc32.CheckValue | src/png/chunk.rs:55 | the bitwise CRC gives the CRC-32/ISO-HDLC check value 0xCBF43926 for the digits "123456789" |
| Crc32.RegisterInjective | src/png/chunk.rs:64 | from different registers, the same input leads to different registers, because every shift step can be undone |
| Crc32.ChecksumDetectsByteChange | src/png/chunk.rs:54-65 | inputs that differ in exactly one byte have different checksums |
| Utf8.Encode | src/png/chunk/chunk_type.rs:73 | `str::as_bytes`: one to four bytes per character, so at least as many bytes as characters and at most four times as many; `Utf8.AsciiEncode` and `Utf8.AsciiOnly` show that an ASCII string is encoded one byte per character and that an encoding made only of bytes below 0x80 comes from an ASCII string |
| Utf8.AsciiOnly | src/png/chunk/chunk_type.rs:73 | if all of a string's UTF-8 bytes are below 0x80, it has one byte per character, each byte the character's value |
| Utf8.AsciiEncode | src/png/chunk/chunk_type.rs:73 | an ASCII string is encoded one byte per character, byte value = character value |
| Utf8.EncodeAppend | src/png/chunk.rs:174 | `as_bytes` of a concatenation is the concatenation of the encodings |
| ChunkTypes.Bytes | src/png/chunk/chunk_type.rs:22-24 | `bytes()` returns the code the type was built from, four letters (older revision: src/chunk_type.rs:36-38) |
| ChunkTypes.FirstRejected | src/png/chunk/chunk_type.rs:59-63 | the scan finds nothing exactly when every byte from `i` on is a letter; otherwise it returns a non-letter whose predecessors from `i` are all letters |
| ChunkTypes.RejectedIffNotLetter | src/png/chunk/chunk_type.rs:60 | the rejected ranges `0..=64`, `91..=96` and `123..=255` are exactly the bytes that are not ASCII letters |
| ChunkTypes.TryFrom | src/png/chunk/chunk_type.rs:55-67 | succeeds iff all four bytes are ASCII letters, and then keeps the array unchanged; otherwise fails with `InvalidByte` of the first non-letter in index order (older revision: src/chunk_type.rs:69-81) |
| ChunkTypes.FromStr | src/png/chunk/chunk_type.rs:69-80 | fails with `InvalidLength` of the UTF-8 byte length unless that length is 4, and otherwise equals `try_from` of those bytes (older revision: src/chunk_type.rs:83-94) |
| ChunkTypes.ToString | src/png/chunk/chunk_type.rs:82-87 | four characters whose values are the four code bytes (older revision: src/chunk_type.rs:96-101) |
| ChunkTypes.IsPropertyBitOn | src/png/chunk/chunk_type.rs:26-32 | for `1 <= i <= 4`, bit 5 of byte `i - 1` is set iff that letter is lowercase (older revision: src/chunk_type.rs:40-46) |
| ChunkTypes.IsCritical | src/png/chunk/chunk_type.rs:34-36 | critical iff the first letter is uppercase |
| ChunkTypes.IsPublic | src/png/chunk/chunk_type.rs:38-40 | public iff the second letter is uppercase |
| ChunkTypes.IsReservedBitValid | src/png/chunk/chunk_type.rs:42-44 | reserved bit valid iff the third letter is uppercase |
| ChunkTypes.IsSafeToCopy | src/png/chunk/chunk_type.rs:46-48 | safe to copy iff the fourth letter is lowercase (older revision of these four flags: src/chunk_type.rs:48-62) |
| ChunkTypes.IsValid | src/png/chunk/chunk_type.rs:50-52 | valid iff the third letter is uppercase (older revision: src/chunk_type.rs:64-66) |
| ChunkTypes.IsValidOnlyReservedBit | src/png/chunk/chunk_type.rs:50-52 | two types with the same third letter are equally valid, whatever their other three bits |
| ChunkTypes.FromStrToString | src/png/chunk/chunk_type.rs:82-87 | a string that `from_str` accepts is exactly what `to_string` renders for the result |
| ChunkTypes.ToStringFromStr | src/png/chunk/chunk_type.rs:69-80 | `from_str(t.to_string())` gives back `t` for every chunk type |
| ChunkTypes.EqualIffSameCode | src/png/chunk/chunk_type.rs:5-8 | two chunk types are equal exactly when their four code bytes are |
| ChunkTypeExamples.ParsesTo | src/png/chunk/chunk_type.rs:72-79 | a four-character ASCII string parses to the type of its character values |
| ChunkTypeExamples.FromBytesExample | src/png/chunk/chunk_type.rs:95-101 | `try_from([82, 117, 83, 116])` succeeds and `bytes()` returns that array (older revision: src/chunk_type.rs:109-115) |
| ChunkTypeExamples.FromStrExample | src/png/chunk/chunk_type.rs:103-108 | `from_str("RuSt")` equals `try_from([82, 117, 83, 116])` |
| ChunkTypeExamples.CriticalExamples | src/png/chunk/chunk_type.rs:110-120 | `RuSt` is critical, `ruSt` is not |
| ChunkTypeExamples.PublicExamples | src/png/chunk/chunk_type.rs:122-132 | `RUSt` is public, `RuSt` is not |
| ChunkTypeExamples.ReservedBitExamples | src/png/chunk/chunk_type.rs:134-144 | `RuSt` has a valid reserved bit and is valid, `Rust` has neither (validity tests at 158-167) |
| ChunkTypeExamples.SafeToCopyExamples | src/png/chunk/chunk_type.rs:146-156 | `RuSt` is safe to copy, `RuST` is not |
| ChunkTypeExamples.InvalidByteExample | src/png/chunk/chunk_type.rs:169-170 | `from_str("Ru1t")` fails with `InvalidByte(49)`, the digit |
| ChunkTypeExamples.ToStringExample | src/png/chunk/chunk_type.rs:173-177 | `from_str("RuSt").to_string()` is `"RuSt"` |
| Chunks.New | src/png/chunk.rs:39-52 | for data shorter than 2^32 bytes, the chunk keeps type and data, its length is the data size and its CRC is `calculate_crc` of type and data (older revision: src/chunk.rs:50-63) |
| Chunks.CalculateCrc | src/png/chunk.rs:54-65 | the CRC-32 of the type bytes followed by the data; `Chunks.AlteredDataCrc` and `Chunks.AlteredTypeCrc` prove that changing any one data or type byte changes it, and `ChunkExamples.ExampleCrc` gives the tests' value (older revision: src/chunk.rs:65-76) |
| Chunks.AsBytes | src/png/chunk.rs:83-92 | the serialisation is `METEDATA_LENGTH` (12) bytes longer than the data, i.e. 12 + length for a chunk built by `new` (older revision: src/chunk.rs:94-103) |
| Chunks.AsBytesParts | src/png/chunk.rs:83-92 | the length bytes, the type, the data and the CRC bytes sit at offsets 0, 4, 8 and 8 + data size |
| Chunks.AsBytesFields | src/png/chunk.rs:83-92 | the values read back at those offsets are the chunk's length, type, data and CRC |
| Chunks.AsBytesInjective | src/png/chunk.rs:83-92 | different well-formed chunks serialise to different bytes |
| Chunks.TryFrom | src/png/chunk.rs:99-152 | every chunk the parser returns has `length` equal to the data size and a CRC equal to `calculate_crc` of type and data |
| Chunks.TryFromNoLength | src/png/chunk.rs:110-112 | fewer than 4 bytes: `NoDataLengthProvided` |
| Chunks.TryFromNoType | src/png/chunk.rs:116-118 | 4 to 7 bytes: `NoChunkTypeProvided` |
| Chunks.TryFromBadType | src/png/chunk.rs:119-121 | a type that is not four letters: the chunk type's own `InvalidByte` error |
| Chunks.TryFromShortData | src/png/chunk.rs:123-128 | fewer bytes after the type than the announced length: `NonMatchingDataLength(length, bytes after the type)` |
| Chunks.TryFromNoCrc | src/png/chunk.rs:133-135 | the data present but fewer than 4 bytes after it: `NoCrcProvided` |
| Chunks.TryFromComplete | src/png/chunk.rs:130-138 | with the length, a valid type and 4 bytes after the data present, the parser ends in the CRC stage on the data at offset 8 and the CRC stored at offset 8 + length |
| Chunks.CheckCrc | src/png/chunk.rs:140-150 | the CRC stage accepts iff the stored CRC equals `calculate_crc` of type and data, returning exactly the four fields; otherwise it fails with `InvalidCrc(stored, computed)` |
| Chunks.TryFromOkParts | src/png/chunk.rs:113-150 | an accepted input holds the chunk's length, type, data and CRC at their offsets |
| Chunks.TryFromPrefix | src/png/chunk.rs:99-152 | the bytes of the returned chunk are a prefix of the input |
| Chunks.ParsesPrefix | src/png/chunk.rs:99-152 | an input that starts with the bytes of a well-formed chunk parses to that chunk |
| Chunks.TryFromAccepts | src/png/chunk.rs:110-150 | an input holding a well-formed chunk's length, type, data and CRC at offsets 0, 4, 8 and 8 + length passes every stage and yields that chunk |
| Chunks.TryFromOkIff | src/png/chunk.rs:99-152 | the parser returns `c` iff `c` is well formed and the input starts with `as_bytes(c)` |
| Chunks.TrailingBytesIgnored | src/png/chunk.rs:137 | bytes after a chunk's CRC do not change the result |
| Chunks.ExtraBytesIgnored | src/png/chunk.rs:137 | whenever `try_from(b)` succeeds, `try_from(b ++ extra)` gives the same result |
| Chunks.NewRoundTrip | src/png/chunk.rs:39-52 | `try_from(new(t, d).as_bytes())` gives back `new(t, d)`: length, type, data and CRC |
| Chunks.TryFromAsBytes | src/png/chunk.rs:137-150 | the bytes of a chunk with a correct length field parse back to it when its CRC is right, and give `InvalidCrc(stored, computed)` otherwise |
| Chunks.AlteredDataCrc | src/png/chunk.rs:54-65 | changing one data byte changes `calculate_crc` |
| Chunks.DataCorruptionDetected | src/png/chunk.rs:140-143 | changing one data byte in a chunk's bytes makes the parser fail with `InvalidCrc(stored, CRC of the altered data)` |
| Chunks.CrcCorruptionDetected | src/png/chunk.rs:140-143 | a wrong stored CRC makes the parser fail with `InvalidCrc(stored, computed)` |
| Chunks.AlteredTypeCrc | src/png/chunk.rs:54-65 | changing one type byte changes `calculate_crc` |
| Chunks.TypeCorruptionDetected | src/png/chunk.rs:119-143 | changing one type byte of a chunk's bytes is always rejected: with `InvalidByte` of the new byte when it is not a letter (the type check comes first, line 121), and otherwise with `InvalidCrc(stored, CRC under the altered type)` |
| Chunks.TypeLetterChanged | src/png/chunk.rs:140-143 | a type byte replaced by a different letter passes the type check and fails the CRC check |
| Chunks.TypeNonLetter | src/png/chunk.rs:119-121 | a type byte replaced by a byte that is not a letter fails at the chunk type stage with `InvalidByte` of that byte |
| ChunkExamples.MessageLength | src/png/chunk.rs:172 | the test message is 42 bytes long |
| ChunkExamples.MessageBytes | src/png/chunk.rs:174 | the message bytes are the UTF-8 encoding of "This is where your secret message will be!" |
| ChunkExamples.ExampleCrc | src/png/chunk.rs:175 | the CRC of `RuSt` followed by the message is 2882656334 |
| ChunkExamples.NewExample | src/png/chunk.rs:189-198 | `new(RuSt, message)` has length 42 and CRC 2882656334 |
| ChunkExamples.NewFromTextExample | src/png/chunk.rs:190-197 | the same, with the type from `from_str("RuSt")` and the data from the message text, as the test writes them (older revision: src/chunk.rs:191-200) |
| ChunkExamples.ValidChunkExample | src/png/chunk.rs:226-251 | the test's bytes parse to length 42, type `RuSt` (rendered "RuSt") and CRC 2882656334 |
| ChunkExamples.InvalidChunkExample | src/png/chunk.rs:253-272 | with the stored CRC 2882656333 the parser fails with `InvalidCrc(2882656333, 2882656334)` |
| ChunkExamples.LegacyValidChunkExample | src/chunk.rs:228-253 | the older parser accepts the test's bytes with the same fields |
| ChunkExamples.LegacyInvalidChunkExample | src/chunk.rs:255-274 | the older parser rejects the CRC 2882656333 with `InvalidCrc(2882656333, 2882656334)` |
| LegacyChunks.WrappingSub | src/chunk.rs:133 | `usize` subtraction without overflow checks: the difference modulo 2^64 |
| LegacyChunks.SaturatingSub | src/chunk.rs:133 | the difference when it is not negative, and zero otherwise |
| LegacyChunks.Available | src/chunk.rs:133 | with at least 4 bytes after the type, the reported data length is those bytes minus the CRC's 4 |
| LegacyChunks.Parse | src/chunk.rs:116-152 | every chunk the older parser returns is well formed |
| LegacyChunks.TryFromAsWritten | src/chunk.rs:113-153 | the older `try_from` exactly as written, with the wrapping subtraction; its accepted chunks are well formed |
| LegacyChunks.TryFrom | src/chunk.rs:113-153 | the corrected older `try_from`: accepted chunks are well formed, and a `NonMatchingDataLength` never reports more data than the input holds |
| LegacyChunks.EarlyStages | src/chunk.rs:117-128 | `NoDataLengthProvided` below 4 bytes, `NoChunkTypeProvided` below 8, then the chunk type error |
| LegacyChunks.ParseSizeMismatch | src/chunk.rs:130-135 | unless exactly `length + 4` bytes follow the type, the parser fails with `NonMatchingDataLength(length, …)` |
| LegacyChunks.TryFromSizeMismatch | src/chunk.rs:130-135 | the corrected parser reports the bytes after the type minus 4, or 0 |
| LegacyChunks.ParseComplete | src/chunk.rs:137-151 | sizes in agreement: the stored CRC is compared with the CRC of type and data |
| LegacyChunks.ParseOkParts | src/chunk.rs:137-151 | an accepted input is exactly 12 + length bytes and holds the chunk's four fields |
| LegacyChunks.ParseAsBytes | src/chunk.rs:137-151 | the bytes of a chunk with a correct length field parse back to it, or fail with `InvalidCrc` |
| LegacyChunks.TryFromOkIff | src/chunk.rs:113-153 | the older parser returns `c` iff `c` is well formed and the input is exactly `as_bytes(c)` |
| LegacyChunks.NewRoundTrip | src/chunk.rs:94-103 | `try_from(new(t, d).as_bytes())` gives back `new(t, d)` in the older revision |
| LegacyChunks.TrailingBytesRejected | src/chunk.rs:130-135 | bytes after a chunk make the older parser fail with `NonMatchingDataLength(length, length + extra)` |
| LegacyChunks.AsWrittenUnderflow | src/chunk.rs:133 | as written, 0 to 3 bytes after a valid type report an available length of 2^64 - (4 - those bytes), more than the input holds |
| LegacyChunks.UnderflowExample | src/chunk.rs:133 | for `00 00 00 00 52 75 53 74` the code as written reports `NonMatchingDataLength(0, 2^64 - 4)`, the corrected parser `(0, 0)` |
| LegacyChunks.CorrectionAgrees | src/chunk.rs:130-135 | with at least 4 bytes after the type, the corrected parser is the one as written |
| LegacyChunks.OlderAcceptsWholeChunks | src/chunk.rs:130 | the older parser accepts an input iff the current one accepts it and the chunk spans the whole input |

## Left out

- The `Png` container (signature, `append_chunk`, `chunk_by_type`, `remove_chunk`, `as_bytes`) is not part of this model: its implementation is not among the files modelled, only its call sites.
- `src/commands.rs`, `src/args.rs` and `src/main.rs` are not modelled. They are file I/O, console output and argument parsing with no invariants of their own.
- `data_as_string` (src/png/chunk.rs:94-96, src/chunk.rs:105-110) is not modelled. It calls the library's UTF-8 decoder, whose validation rules are not modelled; the model has only the encoder.
- The `Display` impls of `Chunk` and the error types are left out. The `thiserror` messages and the `anyhow`/`Box<dyn Error>` wrapping are left out too. Errors are a plain datatype: a chunk type error or a chunk error.
- The `try_into()?` conversions inside both parsers are not modelled as failures: they convert slices whose lengths the parser has already checked, so they cannot fail.
- The `crc` crate is replaced by the bitwise CRC of section 5.5 of the PNG standard. The two are tied only by the check value and by the CRC of the test chunk.
- `Chunks.New`: the `expect` panic for data of 2^32 bytes or more is a precondition (`|data| < 2^32`), not a modelled failure.
- `ChunkTypes.IsPropertyBitOn`: the `assert!` panic for an index outside 1..=4 is a precondition.
- `usize` is taken as 64 bits wide. `length as usize` and `length as usize + 4` are therefore exact.
- `LegacyChunks.TryFromAsWritten`: the subtraction wraps modulo 2^64, as in a build without overflow checks. A build with overflow checks panics there instead, and that panic is not modelled.
- Ownership, copying (`to_vec`) and `const fn` have no counterpart in a value model.

## Findings

| source | as written | input that shows it | evidently intended | confidence | as-written member | corrected member |
|---|---|---|---|---|---|---|
| src/chunk.rs:133 | the `NonMatchingDataLength` payload is `value.len() - 4`, computed on `usize` for whatever follows the type, even when fewer than 4 bytes follow; the subtraction underflows (a panic with overflow checks, 2^64 - 4 + k without them) | the 8 bytes `00 00 00 00 52 75 53 74` (length 0, type `RuSt`, nothing after it) | report a length no larger than the input holds (0 here) instead of underflowing; the current revision avoids the subtraction altogether and reports `NoCrcProvided` for this input | not executed | `LegacyChunks.TryFromAsWritten`, `LegacyChunks.UnderflowExample` | `LegacyChunks.TryFrom` |
