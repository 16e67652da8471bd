# STDF V4 record codec, modelled in Dafny

This project models the core of Lava-Data.Parse.Stdf, a C# reader and writer for the Standard Test Data Format, version 4 (STDF V4). STDF V4 is the binary record stream written by semiconductor test equipment. Each record is a two-byte REC_LEN, a type byte, a subtype byte and a body. The byte order of multi-byte fields comes from the CPU type byte of the first record, the FAR.

The model covers:

- **The value converter** (`ValueConverter`). `StdfValueConverter` is a class. It holds the CPU type, the read and write reversal flags and the `TwoBytes`/`FourBytes` scratch arrays. Its readers are methods that overwrite the scratch arrays. Each reader is proved equal to a pure reader function, which the record parsers use. Its writers store into an `array<byte>` and are proved equal to pure step functions. A failed write keeps the bytes already stored before the exception.
- **The type-code table** (`RecordTypes`) and the abstract record contract (`RecordBase`, `Records`): `Length`, `LengthNoHeader`, `SetBytes` and `ToBytes`.
- **Every record class**: FAR, MIR, MRR, PCR, HBR, SBR, PIR, PRR, PTR, WIR, WRR, WCR, SDR, TSR and DTR.
  - A record is a datatype.
  - `Parse` is a function from the body bytes to the record or to the exception it throws.
  - `Length()` is a function.
  - `SetBytes` is a method on an `array<byte>`, proved equal to an `Encode` step function.
  - Lemmas relate each writer to the STDF V4 layout and to `Parse`.
  - HBR and SBR share their layout in `BinRecord`.
- **`Stdf4Parser.ReadStdf4(BinaryReader)`** (`Parser`, `ParserFacts`). This is the parser loop over a `ByteReader` cursor.
  - It is proved to return what the pure function `Run` gives over the unread bytes.
  - `ParserFacts` proves what `Run` does: the list only grows at its end, the debug level does not matter, a FAR sets the byte order, and some codes are skipped while others stop the loop.
  - A stream of correctly framed records reads back as exactly those records.
- **`HexDump`** (`Debug`). The debug formatter keeps its loops. It is proved against definitions built row by row and line by line.

The host is taken to be little-endian (`Primitives.HostLittleEndian`), so CPU type 2 reads and writes in file order and CPU type 1 reverses. R*4 values are kept as raw 32-bit patterns.

Where the format's documentation and the code disagree, the model follows the code:

- **The parser has no validity flag, no counter of ignored record kinds and no option to stop after a given kind.**
- **PMR, PGR and RDR throw an exception.** This ends the loop with the records read so far, rather than being skipped.
- **Codes outside the type table are skipped without any error state.** The same goes for TSR, GDR and the kinds the switch has no case for.
- **End of stream inside a header is a normal end.** A body cut short is handed to the record parser as it is.
- **Most record writers store the header-inclusive index as REC_LEN**, not the body size the format defines. These are PCR, MRR, PIR, HBR, SBR, WIR, WRR and TSR; FAR, MIR and DTR store the body size.
- **WRR declares subtype 10** rather than the table's 20.

## Model

| member | source | states |
|---|---|---|
| Primitives.AsciiDecode | src/Lava-Data.Parse.Stdf/StdfValueConverter.cs:353 | decoding keeps the length; each byte below 0x80 becomes that character and every other byte becomes '?' |
| Primitives.AsciiEncode | src/Lava-Data.Parse.Stdf/StdfValueConverter.cs:412 | encoding keeps the length; each character below 0x80 becomes its code and every other character becomes '?' (0x3F) |
| Primitives.AsciiRoundTrip | src/Lava-Data.Parse.Stdf/StdfValueConverter.cs:412 | encoding a string and then decoding it gives it back if and only if every character is 7-bit ASCII |
| Primitives.OrderedTwice | src/Lava-Data.Parse.Stdf/StdfValueConverter.cs:110-117 | reversing the byte order twice restores the original bytes |
| ValueConverter.UInt16At | src/Lava-Data.Parse.Stdf/StdfValueConverter.cs:103-151 | reading a U*2 succeeds exactly when two bytes remain at the offset and then advances it by 2; otherwise it fails with the out-of-range error |
| ValueConverter.Int16At | src/Lava-Data.Parse.Stdf/StdfValueConverter.cs:139-144 | reading an I*2 succeeds exactly when two bytes remain and advances the offset by 2; otherwise it fails with the out-of-range error |
| ValueConverter.UInt32At | src/Lava-Data.Parse.Stdf/StdfValueConverter.cs:200-210 | a U*4 with fewer than four bytes left reads as 0 and leaves the offset alone; otherwise the offset advances by 4 |
| ValueConverter.SingleAt | src/Lava-Data.Parse.Stdf/StdfValueConverter.cs:212-223 | the success flag is true exactly when four bytes remain; then the value is the 32-bit pattern at the offset and the offset advances by 4; otherwise (0, false) and the offset stays |
| ValueConverter.GetStringAndUpdateOffset | src/Lava-Data.Parse.Stdf/StdfValueConverter.cs:333-356 | past the end it reads null without moving; a zero length byte reads "" and moves 1; it fails exactly when the length byte promises more bytes than remain; otherwise it reads the decoded characters and moves past them |
| ValueConverter.GetNullableCharAndUpdateOffset | src/Lava-Data.Parse.Stdf/StdfValueConverter.cs:359-369 | null exactly when no byte is left, with the offset unchanged; otherwise the ASCII-decoded byte and the offset moved by 1 |
| ValueConverter.UInt16ByteOrder | src/Lava-Data.Parse.Stdf/StdfValueConverter.cs:125-151 | without reversal a U*2 is little-endian (b0 + 256·b1); with reversal it is big-endian (256·b0 + b1), on a little-endian host |
| ValueConverter.UInt32ByteOrder | src/Lava-Data.Parse.Stdf/StdfValueConverter.cs:177-210 | without reversal a U*4 is little-endian; with reversal it is big-endian |
| ValueConverter.U16RoundTrip | src/Lava-Data.Parse.Stdf/StdfValueConverter.cs:247-261 | a U*2 written with a reversal flag reads back as the same value with the same flag, and the write reports 2 bytes |
| ValueConverter.U32RoundTrip | src/Lava-Data.Parse.Stdf/StdfValueConverter.cs:297-317 | a U*4 written with a reversal flag reads back as the same value with the same flag, and the write reports 4 bytes |
| ValueConverter.ReadI16Wire | src/Lava-Data.Parse.Stdf/StdfValueConverter.cs:139-144 | the two's-complement wire image of an I*2 reads back as the same signed value |
| ValueConverter.StringRoundTrip | src/Lava-Data.Parse.Stdf/StdfValueConverter.cs:389-419 | writing an ASCII string of at most 255 characters stores a length byte and the characters, touches nothing outside that window, and reads back as the same string with the offset past it |
| ValueConverter.NullThenValue | src/Lava-Data.Parse.Stdf/StdfValueConverter.cs:389-399 | a null field writes nothing and sets the seen-null flag; any non-null string written after it fails with the non-null-after-null error |
| ValueConverter.NullableCharRoundTrip | src/Lava-Data.Parse.Stdf/StdfValueConverter.cs:421-441 | an ASCII char written as a C*1 takes one byte and reads back as the same char |
| ValueConverter.RawStringHasNoPrefix | src/Lava-Data.Parse.Stdf/StdfValueConverter.cs:478-498 | the three-argument WriteAsciiString stores only the ASCII bytes (no length byte) and reports their count; null stores a single 0 byte |
| ValueConverter.StoreBytes | src/Lava-Data.Parse.Stdf/StdfValueConverter.cs:413-416 | the array afterwards holds the bytes at the offset, writing in increasing index order up to the end of the array; success exactly when they fit |
| ValueConverter.StdfValueConverter.constructor | src/Lava-Data.Parse.Stdf/StdfValueConverter.cs:29-97 | a fresh converter has CPU type 2 (little-endian host), fresh scratch arrays and both reversal flags false |
| ValueConverter.StdfValueConverter.SetCpuType | src/Lava-Data.Parse.Stdf/StdfValueConverter.cs:55-76 | the CPU type is stored first; 0 fails with the DEC error and above 2 with the unsupported error, leaving the flags; 1 sets both flags, 2 clears both |
| ValueConverter.StdfValueConverter.GetTwoBytes | src/Lava-Data.Parse.Stdf/StdfValueConverter.cs:103-119 | fails exactly when offset + 1 is past the data, leaving the scratch array; otherwise returns the shared scratch array holding the two bytes in read order |
| ValueConverter.StdfValueConverter.GetFourBytes | src/Lava-Data.Parse.Stdf/StdfValueConverter.cs:158-171 | fails with an index error exactly when four bytes are not there; otherwise returns the shared scratch array holding the four bytes in read order |
| ValueConverter.StdfValueConverter.GetInt16AndUpdateOffset | src/Lava-Data.Parse.Stdf/StdfValueConverter.cs:139-144 | gives exactly Int16At under the current read reversal |
| ValueConverter.StdfValueConverter.GetUInt16AndUpdateOffset | src/Lava-Data.Parse.Stdf/StdfValueConverter.cs:146-151 | gives exactly UInt16At under the current read reversal |
| ValueConverter.StdfValueConverter.GetUInt32AndUpdateOffset | src/Lava-Data.Parse.Stdf/StdfValueConverter.cs:200-210 | gives exactly UInt32At; a short read leaves the scratch array untouched |
| ValueConverter.StdfValueConverter.GetSingleAndUpdateOffset | src/Lava-Data.Parse.Stdf/StdfValueConverter.cs:212-223 | gives exactly SingleAt; a short read leaves the scratch array untouched |
| ValueConverter.StdfValueConverter.SetByte | src/Lava-Data.Parse.Stdf/StdfValueConverter.cs:226-230 | the array and result afterwards are those of storing the one byte: 1 on success, an index error past the end |
| ValueConverter.StdfValueConverter.SetAsciiChar | src/Lava-Data.Parse.Stdf/StdfValueConverter.cs:232-241 | a char above 0xFF fails before anything is written; otherwise its low byte is stored and 1 returned |
| ValueConverter.StdfValueConverter.SetUint16 | src/Lava-Data.Parse.Stdf/StdfValueConverter.cs:247-261 | the array afterwards holds the value's two bytes in write order at the offset, and 2 is returned when they fit |
| ValueConverter.StdfValueConverter.SetUint16Int | src/Lava-Data.Parse.Stdf/StdfValueConverter.cs:271-290 | a value outside 0..65535 fails before anything is written; otherwise as SetUint16 |
| ValueConverter.StdfValueConverter.SetUint32 | src/Lava-Data.Parse.Stdf/StdfValueConverter.cs:297-317 | the array afterwards holds the value's four bytes in write order at the offset, and 4 is returned when they fit |
| ValueConverter.StdfValueConverter.WriteAsciiString | src/Lava-Data.Parse.Stdf/StdfValueConverter.cs:389-419 | array and result are those of the checks in source order: null, non-null after null, "", over 255 characters, then length byte plus ASCII bytes |
| ValueConverter.StdfValueConverter.WriteNullableChar | src/Lava-Data.Parse.Stdf/StdfValueConverter.cs:421-441 | null sets the flag and writes nothing; after a null it fails; a char above 0xFF fails; otherwise one byte is written |
| ValueConverter.StdfValueConverter.WriteRawString | src/Lava-Data.Parse.Stdf/StdfValueConverter.cs:478-498 | null writes one 0 byte; over 255 characters fails; otherwise the ASCII bytes without a length byte |
| ValueConverter.StdfValueConverter.UshortToBytes | src/Lava-Data.Parse.Stdf/StdfValueConverter.cs:444-457 | the pair is the value's wire image under the write reversal flag |
| ValueConverter.StdfValueConverter.UintToBytes | src/Lava-Data.Parse.Stdf/StdfValueConverter.cs:465-476 | the four bytes are the value's wire image under the write reversal flag, whatever the reverseBytes argument says |
| ValueConverter.TwoBytes | src/Lava-Data.Parse.Stdf/StdfValueConverter.cs:103-119 | the two bytes GetTwoBytes hands back are always exactly two |
| ValueConverter.FourBytes | src/Lava-Data.Parse.Stdf/StdfValueConverter.cs:158-171 | the four bytes GetFourBytes hands back are always exactly four |
| ValueConverter.NullableSingleAt | src/Lava-Data.Parse.Stdf/Stdf4Tsr.cs:97 | the nullable R*4 read is present exactly when four bytes remain, and an absent value consumes nothing |
| ValueConverter.PutRawString | src/Lava-Data.Parse.Stdf/StdfValueConverter.cs:478-498 | the unprefixed string writer reports at most 255 bytes written |
| RecordTypes.TypeCode | src/Lava-Data.Parse.Stdf/Stdf4RecordTypeEnum.cs:18 | `(major << 8) + minor` (the "or" of the source) splits back into the major and minor header bytes |
| RecordTypes.FromCodeInverts | src/Lava-Data.Parse.Stdf/Stdf4RecordTypeEnum.cs:13-82 | the table of enum values and `(major << 8) + minor` (the "or" of the source) agree in both directions: each kind's code looks up that kind, and a code that looks up a kind is that kind's code |
| RecordTypes.CodeSplits | src/Lava-Data.Parse.Stdf/Stdf4RecordTypeEnum.cs:18-82 | every kind's enum value splits into its own major and minor bytes |
| RecordTypes.CodesDistinct | src/Lava-Data.Parse.Stdf/Stdf4RecordTypeEnum.cs:8-83 | no two record kinds share an enum value |
| RecordTypes.NulIsReserved | src/Lava-Data.Parse.Stdf/Stdf4RecordTypeEnum.cs:13 | NUL is the only kind whose value is 0 |
| RecordBase.LengthNoHeader | src/Lava-Data.Parse.Stdf/Stdf4Record.cs:35 | the body length is Length() - 4, wrapping to 16 bits for a length below 4 |
| RecordBase.CharAt | src/Lava-Data.Parse.Stdf/Stdf4Mir.cs:100-101 | a `(char)data[i]` field succeeds exactly when the index is inside the body, giving the char with the byte's value; otherwise an index error |
| RecordBase.ReadStringsAtEnd | src/Lava-Data.Parse.Stdf/Stdf4Mir.cs:114-143 | C*n fields read past the end of the body are all null and the offset stays |
| RecordBase.ReadStringsNullsLast | src/Lava-Data.Parse.Stdf/Stdf4Mir.cs:114-143 | in a successful run of C*n reads, once a field is null every later field is null |
| RecordBase.StringsImageLength | src/Lava-Data.Parse.Stdf/Stdf4Mir.cs:162-191 | Length()'s per-field count (nothing for null, else length plus one) is exactly the number of bytes the fields occupy, at most 256 each |
| RecordBase.PutStringsImage | src/Lava-Data.Parse.Stdf/Stdf4Mir.cs:217-247 | a successful run of WriteAsciiString calls stores exactly the fields' C*n images side by side and reports their total size |
| RecordBase.PutStringsValid | src/Lava-Data.Parse.Stdf/Stdf4Mir.cs:217-247 | a successful run implies every field is at most 255 characters and no field follows a null; after a null every field was null |
| RecordBase.PutStringsOk | src/Lava-Data.Parse.Stdf/Stdf4Mir.cs:217-247 | conversely, valid fields whose image fits in the buffer are written without error |
| RecordBase.NullsWriteNothing | src/Lava-Data.Parse.Stdf/Stdf4Mir.cs:217-247 | all-null fields write nothing and keep the seen-null flag |
| RecordBase.StringsRoundTrip | src/Lava-Data.Parse.Stdf/Stdf4Mir.cs:114-143 | valid ASCII fields with nulls last, written as C*n images after any prefix, read back as the same fields, ending at the end of the data |
| RecordBase.FieldRoundTrip | src/Lava-Data.Parse.Stdf/StdfValueConverter.cs:333-356 | one optional C*n field at the end of the data reads back as itself, null included |
| RecordBase.LaidRoundTrip | src/Lava-Data.Parse.Stdf/Stdf4Mir.cs:114-143 | fields laid out one after another up to the end of the data read back as themselves |
| RecordBase.WriteStrings | src/Lava-Data.Parse.Stdf/Stdf4Mir.cs:217-247 | the loop of WriteAsciiString calls leaves the array and result of PutStrings: each field in turn with one shared seen-null flag, stopping at the first error |
| RecordBase.StoreConverted | src/Lava-Data.Parse.Stdf/Stdf4Hbr.cs:113 | `Convert.ToByte` of a char above 0xFF fails before the store; otherwise its value is stored |
| RecordBase.AddUshortExact | src/Lava-Data.Parse.Stdf/Stdf4Mrr.cs:62-66 | `length += (ushort)x` adds exactly when the sum stays below 65536 |
| RecordBase.WriteStringsTail | src/Lava-Data.Parse.Stdf/Stdf4Mrr.cs:83-87 | the trailing C*n fields and then the index as REC_LEN at the offset, as StringsTail gives them |
| RecordBase.StringsTailImage | src/Lava-Data.Parse.Stdf/Stdf4Mrr.cs:83-87 | a successful tail leaves the index in front of the stored front and fields, reports that index, and implies the fields were valid |
| RecordBase.StringsTailOk | src/Lava-Data.Parse.Stdf/Stdf4Mrr.cs:83-87 | valid fields whose image fits are written without error |
| RecordBase.WriteRawName | src/Lava-Data.Parse.Stdf/Stdf4Hbr.cs:115-118 | a null name writes nothing; otherwise the characters without a length byte, as RawName gives them |
| RecordBase.RawNameWritten | src/Lava-Data.Parse.Stdf/Stdf4Hbr.cs:115-118 | the unprefixed name write succeeds exactly for a name of at most 255 whose bytes fit, and then stores its ASCII bytes and reports their number |
| RecordBase.CnTailFits | src/Lava-Data.Parse.Stdf/Stdf4Mir.cs:247-252 | the corrected record end (one C*n field, then idx - 4 as REC_LEN) succeeds exactly when the field is at most 255 and its bytes fit |
| RecordBase.CnTailWritten | src/Lava-Data.Parse.Stdf/Stdf4Mir.cs:247-252 | the corrected record end leaves REC_LEN = idx - 4 in front of the front part and the field, and reports idx |
| BinRecord.Fixed | src/Lava-Data.Parse.Stdf/Stdf4Hbr.cs:49-62 | the fixed part of a bin summary body is 9 bytes |
| BinRecord.Fields | src/Lava-Data.Parse.Stdf/Stdf4Hbr.cs:49-64 | the STDF V4 body is the fixed part plus the name's C*n size |
| BinRecord.LengthCountsFields | src/Lava-Data.Parse.Stdf/Stdf4Hbr.cs:70-89 | Length() of a writable bin summary is 4 plus the size of its STDF V4 body |
| BinRecord.LengthThrows | src/Lava-Data.Parse.Stdf/Stdf4Hbr.cs:79-82 | Length() fails exactly for a name over 255 characters, with the too-long error |
| BinRecord.FieldsRoundTrip | src/Lava-Data.Parse.Stdf/Stdf4Hbr.cs:49-67 | the STDF V4 body of an ASCII bin summary parses back to the same value |
| BinRecord.NoNameAtEnd | src/Lava-Data.Parse.Stdf/Stdf4Hbr.cs:64 | a body that ends after the pass/fail byte parses with a null name |
| BinRecord.IntendedFront | src/Lava-Data.Parse.Stdf/Stdf4Hbr.cs:95-113 | the corrected writer's header pair and fixed fields are 11 bytes |
| BinRecord.IntendedImage | src/Lava-Data.Parse.Stdf/Stdf4Hbr.cs:93-123 | the corrected record is 4 plus the body size long |
| BinRecord.IntendedValid | src/Lava-Data.Parse.Stdf/Stdf4Hbr.cs:93-123 | the corrected SetBytes succeeds exactly for writable values whose image fits |
| BinRecord.IntendedWritten | src/Lava-Data.Parse.Stdf/Stdf4Hbr.cs:93-123 | the corrected SetBytes stores the intended image at the offset, changes no other byte, and reports its size, which equals Length() |
| BinRecord.FrontWritten | src/Lava-Data.Parse.Stdf/Stdf4Hbr.cs:95-113 | the corrected fixed stores leave the front from offset + 2 and stop before the name |
| BinRecord.IntendedRoundTrip | src/Lava-Data.Parse.Stdf/Stdf4Hbr.cs:93-123 | past its header the corrected image is the STDF V4 body, and it parses back to the value |
| BinRecord.Over | src/Lava-Data.Parse.Stdf/Stdf4Hbr.cs:113-118 | what a raw name leaves over the pass/fail byte has the name's length, or 1 when there is no name |
| BinRecord.RawNameStored | src/Lava-Data.Parse.Stdf/Stdf4Hbr.cs:113-118 | a raw name written at the pass/fail byte's index replaces that byte with the name's characters |
| BinRecord.OverPassFail | src/Lava-Data.Parse.Stdf/Stdf4Hbr.cs:113-117 | a store starting where the one-byte pass/fail store went overwrites it |
| Hbr.WriteFixed | src/Lava-Data.Parse.Stdf/Stdf4Hbr.cs:95-113 | the stores up to the pass/fail byte leave the array and index (12) of EncodeFixed |
| Hbr.WriteName | src/Lava-Data.Parse.Stdf/Stdf4Hbr.cs:115-122 | the raw name, then the index as REC_LEN, as EncodeName gives them |
| Hbr.SetBytes | src/Lava-Data.Parse.Stdf/Stdf4Hbr.cs:93-123 | the array and result afterwards are those of Encode, errors included |
| Hbr.Last | src/Lava-Data.Parse.Stdf/Stdf4Hbr.cs:113-118 | the byte after the count holds the name's characters, or the pass/fail byte without a name |
| Hbr.Front | src/Lava-Data.Parse.Stdf/Stdf4Hbr.cs:97-110 | header pair, head, site, bin number and count are 10 bytes |
| Hbr.Image | src/Lava-Data.Parse.Stdf/Stdf4Hbr.cs:93-123 | what SetBytes leaves is 12 bytes plus the name's characters (or the pass/fail byte) |
| Hbr.EncodeValid | src/Lava-Data.Parse.Stdf/Stdf4Hbr.cs:93-123 | SetBytes succeeds exactly for a writable value whose image fits |
| Hbr.FixedFits | src/Lava-Data.Parse.Stdf/Stdf4Hbr.cs:95-113 | the fixed stores succeed exactly for a byte-sized pass/fail char when 13 bytes fit |
| Hbr.NameFits | src/Lava-Data.Parse.Stdf/Stdf4Hbr.cs:115-121 | the name part succeeds exactly when the name is at most 255 and its bytes fit |
| Hbr.EncodeWritten | src/Lava-Data.Parse.Stdf/Stdf4Hbr.cs:93-123 | a successful SetBytes stores the image, changes no other byte and reports 12 plus the name's length |
| Hbr.FixedWritten | src/Lava-Data.Parse.Stdf/Stdf4Hbr.cs:95-113 | the fixed stores leave the front and the pass/fail byte from offset + 2, and the index 12 |
| Hbr.NameWritten | src/Lava-Data.Parse.Stdf/Stdf4Hbr.cs:115-122 | the name goes over the pass/fail byte and the index goes in front |
| Hbr.IndexWritten | src/Lava-Data.Parse.Stdf/Stdf4Hbr.cs:121-122 | once the name reported w bytes, REC_LEN is 12 + w and that is reported |
| Hbr.NullNameRoundTrip | src/Lava-Data.Parse.Stdf/Stdf4Hbr.cs:93-123 | without a name the bytes after the header are the STDF V4 body and parse back to the value |
| Hbr.NamedNeverRoundTrips | src/Lava-Data.Parse.Stdf/Stdf4Hbr.cs:113-117 | with a non-empty name the written record never parses back to the value |
| Hbr.LengthDisagrees | src/Lava-Data.Parse.Stdf/Stdf4Hbr.cs:70-123 | Length() equals the bytes written only without a name, and the reported index is always below Length() |
| Sbr.WriteFixed | src/Lava-Data.Parse.Stdf/Stdf4Sbr.cs:95-111 | the stores up to the pass/fail byte leave the array and index (10) of EncodeFixed, the bin number skipped |
| Sbr.WriteName | src/Lava-Data.Parse.Stdf/Stdf4Sbr.cs:113-120 | the raw name, then the index as REC_LEN, and the index plus 2 reported |
| Sbr.SetBytes | src/Lava-Data.Parse.Stdf/Stdf4Sbr.cs:93-121 | the array and result afterwards are those of Encode, errors included |
| Sbr.Front | src/Lava-Data.Parse.Stdf/Stdf4Sbr.cs:97-109 | header pair, head, site and count are 8 bytes |
| Sbr.Last | src/Lava-Data.Parse.Stdf/Stdf4Sbr.cs:111-116 | the byte after the count holds the name's characters, or the pass/fail byte |
| Sbr.Image | src/Lava-Data.Parse.Stdf/Stdf4Sbr.cs:93-121 | what SetBytes leaves is 10 bytes plus the name's characters (or the pass/fail byte) |
| Sbr.EncodeValid | src/Lava-Data.Parse.Stdf/Stdf4Sbr.cs:93-121 | SetBytes succeeds exactly for a writable value whose image fits |
| Sbr.FixedFits | src/Lava-Data.Parse.Stdf/Stdf4Sbr.cs:95-111 | the fixed stores succeed exactly for a byte-sized pass/fail char when 11 bytes fit |
| Sbr.NameFits | src/Lava-Data.Parse.Stdf/Stdf4Sbr.cs:113-119 | the name part succeeds exactly when the name is at most 255 and its bytes fit |
| Sbr.EncodeWritten | src/Lava-Data.Parse.Stdf/Stdf4Sbr.cs:93-121 | a successful SetBytes stores the image, changes no other byte and reports two more than the REC_LEN it stored |
| Sbr.FixedWritten | src/Lava-Data.Parse.Stdf/Stdf4Sbr.cs:95-111 | the fixed stores leave the front and the pass/fail byte from offset + 2, and the index 10 |
| Sbr.NameWritten | src/Lava-Data.Parse.Stdf/Stdf4Sbr.cs:113-120 | the name goes over the pass/fail byte and the index goes in front |
| Sbr.IndexWritten | src/Lava-Data.Parse.Stdf/Stdf4Sbr.cs:119-120 | once the name reported w bytes, REC_LEN is 10 + w and 12 + w is reported |
| Sbr.BinNumberLost | src/Lava-Data.Parse.Stdf/Stdf4Sbr.cs:109 | two values that differ only in the bin number are written identically, so at most one of the two reads back |
| Sbr.SizesDisagree | src/Lava-Data.Parse.Stdf/Stdf4Sbr.cs:70-121 | REC_LEN exceeds the body after the header, the reported count exceeds the bytes written, and Length() exceeds both |
| Far.Default | src/Lava-Data.Parse.Stdf/Stdf4Far.cs:21-23 | a new FAR has CPU type 2 on a little-endian host (1 otherwise) and STDF version 4 |
| Far.Image | src/Lava-Data.Parse.Stdf/Stdf4Far.cs:66-78 | the written FAR is always Length() = 6 bytes |
| Far.SetBytes | src/Lava-Data.Parse.Stdf/Stdf4Far.cs:70-79 | the array and result afterwards are those of Encode: REC_LEN 2, header pair, CPU type and version stored in order, 6 reported |
| Far.RoundTrip | src/Lava-Data.Parse.Stdf/Stdf4Far.cs:46-78 | the body of a written FAR parses back to it, both from offset 4 and from the slice after the header |
| Far.ParseNeedsTwo | src/Lava-Data.Parse.Stdf/Stdf4Far.cs:46-58 | parsing fails exactly when fewer than two bytes follow the offset, with the FAR-too-short error; otherwise the two bytes are CPU type and version |
| Far.Fixture | test/Lava-Data.Parse.Stdf.Test/FarTest.cs:15-41 | a default FAR writes 02 00 00 0A 02 04 and those bytes read back as CPU type 2, version 4 |
| Pir.Image | src/Lava-Data.Parse.Stdf/Stdf4Pir.cs:59-82 | the written PIR is Length() = 6 bytes |
| Pir.SetBytes | src/Lava-Data.Parse.Stdf/Stdf4Pir.cs:63-82 | the array and result afterwards are those of Encode: header pair, head and site from offset + 2, then REC_LEN = 6 at the offset |
| Pir.EncodeImage | src/Lava-Data.Parse.Stdf/Stdf4Pir.cs:63-82 | SetBytes succeeds exactly when six bytes fit, and then stores the image, changes no other byte and reports Length() |
| Pir.RoundTrip | src/Lava-Data.Parse.Stdf/Stdf4Pir.cs:45-82 | the body of a written PIR parses back to it |
| Pir.ParseNeedsTwo | src/Lava-Data.Parse.Stdf/Stdf4Pir.cs:45-56 | parsing fails exactly when fewer than two bytes follow the offset; otherwise they are head and site |
| Pcr.Body | src/Lava-Data.Parse.Stdf/Stdf4Pcr.cs:82-100 | header pair, head, site and five U*4 counts are 24 bytes |
| Pcr.Image | src/Lava-Data.Parse.Stdf/Stdf4Pcr.cs:76-105 | the written PCR is Length() = 26 bytes |
| Pcr.SetBytes | src/Lava-Data.Parse.Stdf/Stdf4Pcr.cs:80-105 | the array and result afterwards are those of Encode, the running index advancing by each writer's count |
| Pcr.EncodeImage | src/Lava-Data.Parse.Stdf/Stdf4Pcr.cs:80-105 | SetBytes succeeds exactly when 26 bytes fit, and then stores the image, changes no other byte and reports Length() |
| Pcr.RoundTrip | src/Lava-Data.Parse.Stdf/Stdf4Pcr.cs:56-105 | the body of a written PCR parses back to it in either byte order |
| Pcr.FieldsAfterHeader | src/Lava-Data.Parse.Stdf/Stdf4Pcr.cs:90-100 | after the four header bytes come head, site and the five counts in order |
| Pcr.ShortBodyCountsZero | src/Lava-Data.Parse.Stdf/Stdf4Pcr.cs:60-70 | a body of only head and site parses with every count 0 |
| Mrr.Front | src/Lava-Data.Parse.Stdf/Stdf4Mrr.cs:77-82 | the bytes before the descriptions are 6 plus the disposition code's byte |
| Mrr.WriteHead | src/Lava-Data.Parse.Stdf/Stdf4Mrr.cs:75-82 | the stores up to the disposition code leave the array and result of EncodeHead |
| Mrr.SetBytes | src/Lava-Data.Parse.Stdf/Stdf4Mrr.cs:73-89 | the array and result afterwards are those of Encode, errors included |
| Mrr.HeadWritten | src/Lava-Data.Parse.Stdf/Stdf4Mrr.cs:75-82 | the head is written exactly when its bytes fit and the code is at most 0xFF; it stores the front and reports the code's byte and whether the code was missing |
| Mrr.EncodeImage | src/Lava-Data.Parse.Stdf/Stdf4Mrr.cs:73-89 | a successful SetBytes implies a writable value, stores the image, changes no other byte and reports Length() |
| Mrr.EncodeIsTail | src/Lava-Data.Parse.Stdf/Stdf4Mrr.cs:81-88 | after the head, SetBytes is the descriptions sharing the code's null flag and then the index as REC_LEN |
| Mrr.ImageIsTail | src/Lava-Data.Parse.Stdf/Stdf4Mrr.cs:81-88 | the image is REC_LEN followed by the front and the descriptions, and fits in 16 bits |
| Mrr.WritableFromSteps | src/Lava-Data.Parse.Stdf/Stdf4Mrr.cs:81-84 | a code in range and accepted descriptions make the value writable |
| Mrr.BodySize | src/Lava-Data.Parse.Stdf/Stdf4Mrr.cs:73-89 | the body is 6 plus the code's byte plus each description's count, and stays below 65536 |
| Mrr.LengthIsImageSize | src/Lava-Data.Parse.Stdf/Stdf4Mrr.cs:58-89 | for a writable value Length() is exactly the size of what SetBytes writes |
| Mrr.LengthCounts | src/Lava-Data.Parse.Stdf/Stdf4Mrr.cs:58-69 | Length() is 8 plus the code's byte plus each description's length and one, with no 16-bit wrap |
| Mrr.EncodeSucceeds | src/Lava-Data.Parse.Stdf/Stdf4Mrr.cs:73-89 | a writable value whose image fits is written without error |
| Mrr.MissingCodeThenText | src/Lava-Data.Parse.Stdf/Stdf4Mrr.cs:81-83 | a missing disposition code followed by a user description makes SetBytes fail with the non-null-after-null error |
| Mrr.AfterHeader | src/Lava-Data.Parse.Stdf/Stdf4Mrr.cs:73-89 | past the four header bytes lie the fields |
| Mrr.RoundTrip | src/Lava-Data.Parse.Stdf/Stdf4Mrr.cs:47-89 | a writable ASCII MRR written and read with the same byte order parses back to itself |
| Mrr.ReadFields | src/Lava-Data.Parse.Stdf/Stdf4Mrr.cs:47-55 | the fields of a writable ASCII MRR parse back to it |
| Mrr.TimeFirst | src/Lava-Data.Parse.Stdf/Stdf4Mrr.cs:49 | the finish time stamp is the first U*4 of the fields |
| Mrr.LengthFieldCountsHeader | src/Lava-Data.Parse.Stdf/Stdf4Mrr.cs:87 | REC_LEN as written equals the whole image's size, header included |
| Mir.Stamps | src/Lava-Data.Parse.Stdf/Stdf4Mir.cs:205-209 | header pair and the two time stamps are 10 bytes |
| Mir.Codes | src/Lava-Data.Parse.Stdf/Stdf4Mir.cs:210-215 | station, three mode chars, burn-in time and command mode are 7 bytes |
| Mir.Front | src/Lava-Data.Parse.Stdf/Stdf4Mir.cs:205-215 | everything stored before the C*n fields is 17 bytes |
| Mir.Fixed | src/Lava-Data.Parse.Stdf/Stdf4Mir.cs:94-112 | the fixed-size fields after the header are 15 bytes |
| Mir.WriteHead | src/Lava-Data.Parse.Stdf/Stdf4Mir.cs:204-215 | the stores up to the C*n fields leave the array and result of EncodeHead |
| Mir.WriteTail | src/Lava-Data.Parse.Stdf/Stdf4Mir.cs:217-252 | the thirty fields with a fresh seen-null flag, then idx - 4 at the offset, as EncodeTail gives them |
| Mir.SetBytes | src/Lava-Data.Parse.Stdf/Stdf4Mir.cs:202-253 | the array and result afterwards are those of Encode, errors included |
| Mir.StampsFit | src/Lava-Data.Parse.Stdf/Stdf4Mir.cs:205-209 | the stamps are written exactly when their bytes fit |
| Mir.StampsWritten | src/Lava-Data.Parse.Stdf/Stdf4Mir.cs:205-209 | written, the stamps lie from offset + 2 and the index is 10 |
| Mir.CodesFit | src/Lava-Data.Parse.Stdf/Stdf4Mir.cs:210-215 | the codes are written exactly when the four chars are at most 0xFF and their bytes fit |
| Mir.CodesWritten | src/Lava-Data.Parse.Stdf/Stdf4Mir.cs:210-215 | written, the codes lie from offset + 12 and the index is 19 |
| Mir.HeadWritten | src/Lava-Data.Parse.Stdf/Stdf4Mir.cs:204-215 | the head is written exactly when its bytes fit and the chars are byte-sized; it stores the front and reports 19 |
| Mir.TailValid | src/Lava-Data.Parse.Stdf/Stdf4Mir.cs:217-247 | fields written without error after the front were valid (at most 255, nulls last) and their image fit |
| Mir.TailImage | src/Lava-Data.Parse.Stdf/Stdf4Mir.cs:217-252 | on success the buffer holds idx - 4, the front and the fields, and idx (the whole size) is reported |
| Mir.LengthBeforeBody | src/Lava-Data.Parse.Stdf/Stdf4Mir.cs:251 | idx - 4 written in front of the stored front and fields completes the image |
| Mir.EncodeIsTail | src/Lava-Data.Parse.Stdf/Stdf4Mir.cs:202-252 | once the head is written, SetBytes is the tail after the stored front |
| Mir.ImageSize | src/Lava-Data.Parse.Stdf/Stdf4Mir.cs:157-199 | a writable MIR's image is 19 plus Length()'s count of the fields, below 65536 |
| Mir.EncodeValid | src/Lava-Data.Parse.Stdf/Stdf4Mir.cs:202-253 | SetBytes succeeds only for writable values whose image fits |
| Mir.EncodeImage | src/Lava-Data.Parse.Stdf/Stdf4Mir.cs:202-253 | a successful SetBytes stores the image at the offset, changes no other byte and reports the image's size |
| Mir.LengthIsImageSize | src/Lava-Data.Parse.Stdf/Stdf4Mir.cs:157-199 | for a writable MIR Length() is exactly the size of what SetBytes writes |
| Mir.ImageIsTail | src/Lava-Data.Parse.Stdf/Stdf4Mir.cs:202-252 | the image is REC_LEN (size - 4) followed by the front and the fields |
| Mir.EncodeSucceeds | src/Lava-Data.Parse.Stdf/Stdf4Mir.cs:202-253 | a writable MIR whose image fits is written without error |
| Mir.TailOk | src/Lava-Data.Parse.Stdf/Stdf4Mir.cs:217-251 | valid fields whose image fits after the 19 head bytes are written, and so is idx - 4 |
| Mir.AfterHeader | src/Lava-Data.Parse.Stdf/Stdf4Mir.cs:202-253 | past the four header bytes lie the fields |
| Mir.ReadFixed | src/Lava-Data.Parse.Stdf/Stdf4Mir.cs:94-112 | the fixed fields read back from the front of any data that starts with them, at their offsets |
| Mir.RoundTrip | src/Lava-Data.Parse.Stdf/Stdf4Mir.cs:91-253 | a writable MIR with ASCII fields written and read with the same byte order parses back to itself |
| Mir.LengthFieldIsBodySize | src/Lava-Data.Parse.Stdf/Stdf4Mir.cs:249-251 | REC_LEN holds the record's size without its four header bytes |
| Mir.DecodedNullsLast | src/Lava-Data.Parse.Stdf/Stdf4Mir.cs:114-143 | whatever the data, the C*n fields Parse returns hold no value after a null |
| Mir.LengthLimit | src/Lava-Data.Parse.Stdf/Stdf4Mir.cs:193-196 | Length() fails exactly when the fields take the total past 65535, with the too-long error |
| Dtr.WriteText | src/Lava-Data.Parse.Stdf/Stdf4Dtr.cs:78-87 | the copy loop leaves the count byte at offset + 4 and the ASCII bytes from offset + 5, as PutText gives them, stopping at the array's end |
| Dtr.SetBytes | src/Lava-Data.Parse.Stdf/Stdf4Dtr.cs:71-91 | the array and result afterwards are those of Encode: Length()'s throw first, then REC_LEN, header pair and text, and the 16-bit length + 4 reported |
| Dtr.LengthCounts | src/Lava-Data.Parse.Stdf/Stdf4Dtr.cs:50-67 | Length() succeeds exactly for a text of at most 255 characters (too-long error otherwise) and then counts the image's bytes, at most 260 |
| Dtr.HeadWritten | src/Lava-Data.Parse.Stdf/Stdf4Dtr.cs:73-76 | the head is written exactly when its four bytes fit, and then holds the length and the header pair |
| Dtr.TextWritten | src/Lava-Data.Parse.Stdf/Stdf4Dtr.cs:78-87 | the text part stores the text's C*n bytes exactly when they fit |
| Dtr.EncodeImage | src/Lava-Data.Parse.Stdf/Stdf4Dtr.cs:71-91 | an over-long text throws before anything is written; otherwise SetBytes succeeds exactly when the image fits, stores it, changes no other byte and reports Length() |
| Dtr.LengthFieldIsBody | src/Lava-Data.Parse.Stdf/Stdf4Dtr.cs:73-74 | REC_LEN holds the image's size less the four header bytes |
| Dtr.RoundTrip | src/Lava-Data.Parse.Stdf/Stdf4Dtr.cs:43-91 | the body of a written DTR with ASCII text parses back to it, null and empty text included |
| Dtr.ShortBodies | src/Lava-Data.Parse.Stdf/Stdf4Dtr.cs:43-47 | an empty body reads as no text, a zero count byte as the empty text, and a count byte that overruns the body fails |
| Wir.WriteFixed | src/Lava-Data.Parse.Stdf/Stdf4Wir.cs:92-107 | the stores up to the id leave the array and index (10) of EncodeFixed |
| Wir.WriteId | src/Lava-Data.Parse.Stdf/Stdf4Wir.cs:110-117 | a present id through the unprefixed writer, then the index as REC_LEN, as EncodeId gives them |
| Wir.SetBytes | src/Lava-Data.Parse.Stdf/Stdf4Wir.cs:89-118 | the array and result afterwards are those of Encode, errors included |
| Wir.Front | src/Lava-Data.Parse.Stdf/Stdf4Wir.cs:94-107 | header pair, head, site group and time are 8 bytes |
| Wir.Image | src/Lava-Data.Parse.Stdf/Stdf4Wir.cs:89-118 | what SetBytes leaves is as long as the index it reports |
| Wir.Fields | src/Lava-Data.Parse.Stdf/Stdf4Wir.cs:53-65 | the STDF V4 body is 6 bytes plus the id's C*n size |
| Wir.EncodeValid | src/Lava-Data.Parse.Stdf/Stdf4Wir.cs:89-118 | SetBytes succeeds exactly for a writable value whose image fits |
| Wir.FixedWritten | src/Lava-Data.Parse.Stdf/Stdf4Wir.cs:92-107 | the fixed part is stored whole when its ten bytes fit, and the index is 10 |
| Wir.EncodeWritten | src/Lava-Data.Parse.Stdf/Stdf4Wir.cs:89-118 | a successful SetBytes stores the image, changes no other byte and reports its size |
| Wir.IdWritten | src/Lava-Data.Parse.Stdf/Stdf4Wir.cs:110-117 | the id goes after the stored front, then the index goes in front of both |
| Wir.IndexWritten | src/Lava-Data.Parse.Stdf/Stdf4Wir.cs:116-117 | once the id reported n bytes, REC_LEN is 10 + n and that is reported |
| Wir.IndexAgainstLength | src/Lava-Data.Parse.Stdf/Stdf4Wir.cs:68-118 | the reported index (also REC_LEN) is Length() without an id and one less than Length() with one |
| Wir.LengthFieldCountsHeader | src/Lava-Data.Parse.Stdf/Stdf4Wir.cs:116 | REC_LEN holds the whole image's size, header included |
| Wir.FieldsRoundTrip | src/Lava-Data.Parse.Stdf/Stdf4Wir.cs:53-65 | the STDF V4 body of a WIR with an ASCII id parses back to it |
| Wir.NullIdRoundTrip | src/Lava-Data.Parse.Stdf/Stdf4Wir.cs:89-118 | without an id the bytes after the header are the STDF V4 body and parse back to the value |
| Wir.IdNeverRoundTrips | src/Lava-Data.Parse.Stdf/Stdf4Wir.cs:110-113 | with an id, even an empty one, the written record never parses back to the value |
| Wir.IntendedImage | src/Lava-Data.Parse.Stdf/Stdf4Wir.cs:89-118 | the corrected record is 4 plus the body size long |
| Wir.IntendedValid | src/Lava-Data.Parse.Stdf/Stdf4Wir.cs:89-118 | the corrected SetBytes succeeds exactly for writable values whose image fits |
| Wir.IntendedWritten | src/Lava-Data.Parse.Stdf/Stdf4Wir.cs:89-118 | the corrected SetBytes stores the intended image, reports its size, and that size is Length() |
| Wir.IntendedRoundTrip | src/Lava-Data.Parse.Stdf/Stdf4Wir.cs:89-118 | past the header the corrected image is the STDF V4 body, and it parses back to the value |
| Wcr.Fields | src/Lava-Data.Parse.Stdf/Stdf4Wcr.cs:80-105 | the STDF V4 body of a WCR (three R*4, U*1, C*1, two I*2, two C*1) is 20 bytes |
| Wcr.UnitsNames | src/Lava-Data.Parse.Stdf/Stdf4Wcr.cs:29-49 | the units name is "Invalid Code" exactly for codes above 4, and the five defined codes have distinct names |
| Wcr.RoundTrip | src/Lava-Data.Parse.Stdf/Stdf4Wcr.cs:80-106 | a full body in the STDF layout parses back to the record in either byte order |
| Wcr.EndsAfterFlat | src/Lava-Data.Parse.Stdf/Stdf4Wcr.cs:92-95 | a body that ends after the flat char leaves the centre die at 0 and the directions at '\0' |
| Wcr.ShortSizes | src/Lava-Data.Parse.Stdf/Stdf4Wcr.cs:82-98 | a missing R*4 reads 0 without moving the offset, so the units and flat bytes come from where the first size should be; one byte more and the centre die's I*2 read fails |
| Wcr.EmptyBody | src/Lava-Data.Parse.Stdf/Stdf4Wcr.cs:86 | with no byte for the units code Parse fails with an index error |
| Wrr.Texts | src/Lava-Data.Parse.Stdf/Stdf4Wrr.cs:71-76 | the six C*n fields, in file order |
| Wrr.Assemble | src/Lava-Data.Parse.Stdf/Stdf4Wrr.cs:57-79 | the value built from head, site group, counts and fields holds the fields in file order |
| Wrr.CountsAt | src/Lava-Data.Parse.Stdf/Stdf4Wrr.cs:65-70 | the six GetUInt32AndUpdateOffset calls read six values |
| Wrr.Tested | src/Lava-Data.Parse.Stdf/Stdf4Wrr.cs:121-123 | time and tested and retested counts are 12 bytes |
| Wrr.Outcomes | src/Lava-Data.Parse.Stdf/Stdf4Wrr.cs:124-126 | abort, good and functional counts are 12 bytes |
| Wrr.Fixed | src/Lava-Data.Parse.Stdf/Stdf4Wrr.cs:115-126 | head, site group, time and counts are 26 bytes |
| Wrr.Front | src/Lava-Data.Parse.Stdf/Stdf4Wrr.cs:107-126 | the header pair and fixed fields are 28 bytes from offset + 2 |
| Wrr.WriteTested | src/Lava-Data.Parse.Stdf/Stdf4Wrr.cs:107-123 | the four direct stores and the first three U*4 leave the array and index (18) of EncodeTested |
| Wrr.WriteOutcomes | src/Lava-Data.Parse.Stdf/Stdf4Wrr.cs:124-126 | the last three counts from offset + 18 leave the array and index (30) of EncodeOutcomes |
| Wrr.SetBytes | src/Lava-Data.Parse.Stdf/Stdf4Wrr.cs:105-139 | the array and result afterwards are those of Encode with the declared subtype 10, errors included |
| Wrr.HeadFits | src/Lava-Data.Parse.Stdf/Stdf4Wrr.cs:107-126 | the head is written exactly when its 30 bytes fit |
| Wrr.HeadWritten | src/Lava-Data.Parse.Stdf/Stdf4Wrr.cs:107-126 | written, the head leaves the front from offset + 2 and the index 30 |
| Wrr.TestedWritten | src/Lava-Data.Parse.Stdf/Stdf4Wrr.cs:107-123 | written, the first part leaves the header pair, head, site group, time and two counts and the index 18 |
| Wrr.OutcomesWritten | src/Lava-Data.Parse.Stdf/Stdf4Wrr.cs:124-126 | written, the last three counts lie from offset + 18 and the index is 30 |
| Wrr.EncodeIsTail | src/Lava-Data.Parse.Stdf/Stdf4Wrr.cs:128-138 | after the head, SetBytes is the six fields with one shared flag and then the index as REC_LEN |
| Wrr.EncodeImage | src/Lava-Data.Parse.Stdf/Stdf4Wrr.cs:105-139 | a successful SetBytes implies a writable value whose image fits, stores the image, changes no other byte and reports its size |
| Wrr.EncodeSucceeds | src/Lava-Data.Parse.Stdf/Stdf4Wrr.cs:105-139 | a writable value whose image fits is written without error |
| Wrr.ImageSize | src/Lava-Data.Parse.Stdf/Stdf4Wrr.cs:105-139 | the image is 30 bytes plus each field's count, below 65536 |
| Wrr.LengthIgnoresLaterFields | src/Lava-Data.Parse.Stdf/Stdf4Wrr.cs:82-101 | Length() counts the wafer id alone: it equals the bytes written exactly when the five later fields are null |
| Wrr.LengthFieldCountsHeader | src/Lava-Data.Parse.Stdf/Stdf4Wrr.cs:137 | REC_LEN holds the whole image's size, header included |
| Wrr.ReadCounts | src/Lava-Data.Parse.Stdf/Stdf4Wrr.cs:65-70 | the time and counts read back from the front of any data that starts with them |
| Wrr.FieldsRoundTrip | src/Lava-Data.Parse.Stdf/Stdf4Wrr.cs:57-79 | the STDF V4 body of a writable WRR with ASCII fields parses back to it |
| Wrr.RoundTrip | src/Lava-Data.Parse.Stdf/Stdf4Wrr.cs:57-139 | past the header lies the STDF V4 body, so what SetBytes writes parses back, whatever the subtype |
| Wrr.AfterHeader | src/Lava-Data.Parse.Stdf/Stdf4Wrr.cs:105-139 | past the four header bytes lie the fields |
| Wrr.DecodedNullsLast | src/Lava-Data.Parse.Stdf/Stdf4Wrr.cs:71-76 | whatever the data, the fields Parse returns hold no value after a null |
| Wrr.HeaderIsWirs | src/Lava-Data.Parse.Stdf/Stdf4Wrr.cs:18-19 | as written, the header pair is (2, 10), WIR's code |
| Wrr.IntendedHeader | src/Lava-Data.Parse.Stdf/Stdf4Wrr.cs:18-19 | with the record type table's subtype 20 the header pair carries WRR's own code |
| Prr.PartFlags.constructor | src/Lava-Data.Parse.Stdf/Stdf4Prr.cs:21-24 | a PRR object starts with the given part information flag byte |
| Prr.PartFlags.SetDataSupersedes | src/Lava-Data.Parse.Stdf/Stdf4Prr.cs:26-33 | the flag byte becomes bit 0 set when true, cleared when false, and the getter then reads the value set |
| Prr.PartFlags.SetTestingCompleted | src/Lava-Data.Parse.Stdf/Stdf4Prr.cs:35-42 | the flag byte gets bit 0 cleared for true, set for false, and the getter then reads the value set |
| Prr.PartFlags.SetPassed | src/Lava-Data.Parse.Stdf/Stdf4Prr.cs:44-51 | the flag byte gets bit 0 cleared for a pass, set for a failure, and the getter then reads the value set |
| Prr.PartFlags.SetFailFlagValid | src/Lava-Data.Parse.Stdf/Stdf4Prr.cs:53-60 | the flag byte gets bit 0 set for true, cleared for false, and the getter then reads the value set |
| Prr.SetThenGet | src/Lava-Data.Parse.Stdf/Stdf4Prr.cs:26-60 | each of the four setters followed by its own getter gives back the value set |
| Prr.BitZeroSet | src/Lava-Data.Parse.Stdf/Stdf4Prr.cs:26-60 | the OR with 1 and the AND with 0xFE make bit 0 the requested value and keep bits 1 to 7 |
| Prr.SettersKeepOtherBits | src/Lava-Data.Parse.Stdf/Stdf4Prr.cs:26-60 | none of the four setters changes bits 1 to 7 of the flag byte |
| Prr.AccessorsShareBitZero | src/Lava-Data.Parse.Stdf/Stdf4Prr.cs:26-60 | as written, completed-normally always equals passed, supersedes and fail-flag-valid equal not passed, and setting passed to false also reports abnormal end and a valid fail flag |
| Prr.IntendedPassedIndependent | src/Lava-Data.Parse.Stdf/Stdf4Prr.cs:44-51 | with passed on its own PART_FLG bit 3, setting it reads back and leaves the other three accessors unchanged |
| Prr.CopyRepair | src/Lava-Data.Parse.Stdf/Stdf4Prr.cs:113-121 | the repair copy loop returns exactly RepairAt: null at the end of data, the count byte and the bytes after it, or IndexOutOfRange when the count runs past the end |
| Prr.SetBytes | src/Lava-Data.Parse.Stdf/Stdf4Prr.cs:134-154 | the array and result afterwards are those of Encode: a partial write of the first six bytes, then the thrown error |
| Prr.EncodeThrows | src/Lava-Data.Parse.Stdf/Stdf4Prr.cs:134-154 | SetBytes never succeeds: when six bytes fit it stores REC_LEN 6, the header pair, head and site, changes nothing else and throws Not Implemented, else IndexOutOfRange |
| Prr.FixedImage | src/Lava-Data.Parse.Stdf/Stdf4Prr.cs:95-109 | the fixed fields take exactly seventeen bytes |
| Prr.FixedFront | src/Lava-Data.Parse.Stdf/Stdf4Prr.cs:95-109 | the seventeen fixed-field bytes read back as the same head, site, flag, counts, bins, coordinates and time, whatever follows |
| Prr.FieldBefore | src/Lava-Data.Parse.Stdf/Stdf4Prr.cs:110-111 | a present ASCII C*n field reads back and the offset moves past its count and text, whatever surrounds it |
| Prr.TextsFront | src/Lava-Data.Parse.Stdf/Stdf4Prr.cs:110-113 | the part id and description read back in order, ending where the data ends unless the description is present |
| Prr.IntendedRepairBack | src/Lava-Data.Parse.Stdf/Stdf4Prr.cs:113-121 | B*n bytes at the end of the data read back through the count-then-bytes reader |
| Prr.RoundTrip | src/Lava-Data.Parse.Stdf/Stdf4Prr.cs:93-124 | a well-formed PRR body without repair bytes parses back to the same record as written |
| Prr.IntendedRoundTrip | src/Lava-Data.Parse.Stdf/Stdf4Prr.cs:93-124 | every well-formed PRR body, repair bytes included, parses back to the same record when the copy starts after the count |
| Prr.IntendedParseSteps | src/Lava-Data.Parse.Stdf/Stdf4Prr.cs:93-124 | the intended parse is the fixed fields, then the two strings, then the repair bytes read where the strings stop |
| Prr.RepairKeepsCount | src/Lava-Data.Parse.Stdf/Stdf4Prr.cs:116-121 | as written, repair bytes r come back as the count byte followed by r without its last byte |
| Ptr.SByte | src/Lava-Data.Parse.Stdf/Stdf4Ptr.cs:149-155 | the signed cast keeps the byte's value modulo 256 |
| Ptr.ParseFast | src/Lava-Data.Parse.Stdf/Stdf4Ptr.cs:65-168 | the fast-path reader returns exactly Parse: the fixed bytes, then description, alarm name and tail, each behind an end-of-data check |
| Ptr.ReadRest | src/Lava-Data.Parse.Stdf/Stdf4Ptr.cs:105-165 | the part after the fixed bytes returns exactly Rest, stopping early wherever the data ends |
| Ptr.ReadFixed | src/Lava-Data.Parse.Stdf/Stdf4Ptr.cs:76-103 | reading the fixed bytes through the converter's four-byte scratch array gives exactly Fixed, in either byte order |
| Ptr.ScratchOrder | src/Lava-Data.Parse.Stdf/Stdf4Ptr.cs:76-103 | four bytes copied in file order, or reversed when the converter reverses, convert to the same U*4 the converter's reader returns |
| Ptr.ReadTail | src/Lava-Data.Parse.Stdf/Stdf4Ptr.cs:146-165 | the optional tail read through the converter returns exactly Tail |
| Ptr.SetBytes | src/Lava-Data.Parse.Stdf/Stdf4Ptr.cs:178-199 | the array and result afterwards are those of Encode: a partial write of six bytes, then the thrown error |
| Ptr.EncodeThrows | src/Lava-Data.Parse.Stdf/Stdf4Ptr.cs:171-199 | SetBytes never succeeds: when six bytes fit it leaves header pair, head, site and then the length 2 at offset, changes nothing else and throws Not Implemented, else IndexOutOfRange |
| Ptr.FixedFields | src/Lava-Data.Parse.Stdf/Stdf4Ptr.cs:76-103 | a body shorter than twelve bytes or than offset + 8 throws; otherwise the test number is the U*4 at 0, the result the R*4 at 8, and head, site and both flags the four bytes at offset + 4 |
| Ptr.ParseKeepsFixed | src/Lava-Data.Parse.Stdf/Stdf4Ptr.cs:76-168 | whatever follows, a successful parse keeps the fields the fixed bytes gave |
| Ptr.RestKeepsFront | src/Lava-Data.Parse.Stdf/Stdf4Ptr.cs:105-165 | the description, alarm name and tail leave the fixed fields as they were |
| Ptr.TailKeepsFront | src/Lava-Data.Parse.Stdf/Stdf4Ptr.cs:146-165 | the tail changes only the fields after the alarm name |
| Ptr.TestNumberAtZero | src/Lava-Data.Parse.Stdf/Stdf4Ptr.cs:76-103 | at offset 0 the fast path's test number equals what GetUInt32AndUpdateOffset reads at 0 |
| Ptr.NumberIgnoresOffset | src/Lava-Data.Parse.Stdf/Stdf4Ptr.cs:78-103 | two offsets into the same data give the same test number and result, because bytes 0-3 and 8-11 are read without the offset |
| Ptr.EndsAfterFixed | src/Lava-Data.Parse.Stdf/Stdf4Ptr.cs:105-106 | a body ending after the twelve fixed bytes leaves every string null and every tail field at its default |
| Ptr.DescriptionUnchecked | src/Lava-Data.Parse.Stdf/Stdf4Ptr.cs:108-136 | the description is the C*n at offset + 12 whenever its bytes are present; an overlong length byte throws ArgumentOutOfRange instead of StringOverrun |
| Ptr.RestDescription | src/Lava-Data.Parse.Stdf/Stdf4Ptr.cs:108-136 | from any position, the description read fails exactly when the C*n reader fails, and otherwise agrees with it |
| Ptr.EndsAfterDescription | src/Lava-Data.Parse.Stdf/Stdf4Ptr.cs:136-140 | when the data ends right after the description, only the description is added to the fixed fields |
| Ptr.TailIgnoresFlag | src/Lava-Data.Parse.Stdf/Stdf4Ptr.cs:146-165 | the tail is read whatever the optional data flag says; both test limits are the R*4 patterns after the flag and exponents, or 0 past the end |
| Ptr.ShortTail | src/Lava-Data.Parse.Stdf/Stdf4Ptr.cs:146-165 | a tail of only the flag and three exponents sets those four and leaves every later field at its default |
| Sdr.CopySiteNumbers | src/Lava-Data.Parse.Stdf/Stdf4Sdr.cs:76-88 | the site-number copy loop returns exactly SiteNumbers: null for a count of 0, else the count bytes, or IndexOutOfRange when they run past the end |
| Sdr.LengthOnlyWithoutHandler | src/Lava-Data.Parse.Stdf/Stdf4Sdr.cs:111-130 | Length() succeeds exactly when the handler type is null, and then gives 7; otherwise it throws StringTooLong for a handler type over 255 characters and Not Implemented for any other |
| Sdr.SiteNumbersAreNext | src/Lava-Data.Parse.Stdf/Stdf4Sdr.cs:73-88 | the site numbers are the count bytes after the count byte, absent for a count of 0, and a short body throws exactly when they do not fit |
| Sdr.HandlerTypeFromHead | src/Lava-Data.Parse.Stdf/Stdf4Sdr.cs:64-90 | as written, the handler type is the C*n read at offset itself, so its length byte is the head number |
| Sdr.DibBoardIdNeverSet | src/Lava-Data.Parse.Stdf/Stdf4Sdr.cs:96-97 | as written, DibBoardId stays null after every successful parse and DibBoardType holds the eighth C*n read |
| Sdr.IntendedRoundTrip | src/Lava-Data.Parse.Stdf/Stdf4Sdr.cs:64-108 | reading the C*n fields after the site numbers, each into its own property, gives back every well-formed SDR body exactly |
| Sdr.OneHandler | src/Lava-Data.Parse.Stdf/Stdf4Sdr.cs:22-41 | a group with no sites and only the handler type "H" is a well-formed SDR |
| Sdr.OneHandlerFields | src/Lava-Data.Parse.Stdf/Stdf4Sdr.cs:22-41 | that record's STDF body is 01 00 00 01 'H' |
| Sdr.WrongOffset | src/Lava-Data.Parse.Stdf/Stdf4Sdr.cs:64-108 | as written, that body parses to a handler type of the single character 0x00, so it does not read back |
| Tsr.Texts | src/Lava-Data.Parse.Stdf/Stdf4Tsr.cs:32-34 | a TSR carries exactly three C*n names |
| Tsr.CountsAt | src/Lava-Data.Parse.Stdf/Stdf4Tsr.cs:77-80 | the four U*4 reads in a row give exactly four values |
| Tsr.Assemble | src/Lava-Data.Parse.Stdf/Stdf4Tsr.cs:66-124 | the record built from the values read holds the three names in file order |
| Tsr.ReadIf | src/Lava-Data.Parse.Stdf/Stdf4Tsr.cs:95-122 | a statistic whose bit test fails is left null and consumes no bytes |
| Tsr.FlagTestBitZero | src/Lava-Data.Parse.Stdf/Stdf4Tsr.cs:95-122 | the test (flag AND 1 shifted left by k) == 1 passes only for bit 0, and then exactly when the flag is odd |
| Tsr.OnlyMinimumRead | src/Lava-Data.Parse.Stdf/Stdf4Tsr.cs:86-124 | after every successful parse the average, maximum, sum and sum of squares are null; only the minimum can be present, and only behind an odd flag |
| Tsr.OptionalShape | src/Lava-Data.Parse.Stdf/Stdf4Tsr.cs:86-122 | the optional part has flag 0 and no statistics when the data has ended, otherwise only the minimum can be read, behind an odd flag |
| Tsr.DecodedNullsLast | src/Lava-Data.Parse.Stdf/Stdf4Tsr.cs:82-84 | the names from any successful parse hold no value after a null |
| Tsr.LengthCounts | src/Lava-Data.Parse.Stdf/Stdf4Tsr.cs:128-172 | Length() throws exactly when a name is over 255 characters, and otherwise is 40 plus a length byte and the characters for each present name |
| Tsr.AddRaw | src/Lava-Data.Parse.Stdf/Stdf4Tsr.cs:199-201 | one name write leaves the array length unchanged |
| Tsr.EncodeNames | src/Lava-Data.Parse.Stdf/Stdf4Tsr.cs:199-201 | writing the names leaves the array length unchanged |
| Tsr.WriteFixed | src/Lava-Data.Parse.Stdf/Stdf4Tsr.cs:178-197 | the array and result after the fixed stores are those of EncodeFixed, in the writer's byte order |
| Tsr.WriteName | src/Lava-Data.Parse.Stdf/Stdf4Tsr.cs:199-201 | one name write leaves the array and index as AddRaw says |
| Tsr.WriteTexts | src/Lava-Data.Parse.Stdf/Stdf4Tsr.cs:199-201 | the three name writes from index 19 leave the array and index as EncodeNames says |
| Tsr.WriteTail | src/Lava-Data.Parse.Stdf/Stdf4Tsr.cs:203-215 | the flag store and the final SetUint16 leave the array and result as EncodeTail says |
| Tsr.SetBytes | src/Lava-Data.Parse.Stdf/Stdf4Tsr.cs:176-216 | the array and result afterwards are those of Encode, a failure keeping the bytes already stored |
| Tsr.RawField | src/Lava-Data.Parse.Stdf/Stdf4Tsr.cs:199-201 | the unprefixed writer stores a name's characters, or one 0 byte for null |
| Tsr.RawNames | src/Lava-Data.Parse.Stdf/Stdf4Tsr.cs:199-201 | names of at most 255 characters take at most 255 raw bytes each |
| Tsr.RawTextsFields | src/Lava-Data.Parse.Stdf/Stdf4Tsr.cs:199-201 | the raw bytes of the names are the test name's, then the sequencer name's, then the label's |
| Tsr.Front | src/Lava-Data.Parse.Stdf/Stdf4Tsr.cs:180-197 | the fixed part SetBytes writes after REC_LEN is seventeen bytes |
| Tsr.Image | src/Lava-Data.Parse.Stdf/Stdf4Tsr.cs:176-216 | the bytes SetBytes leaves are twenty plus the names' raw bytes |
| Tsr.RawFieldOk | src/Lava-Data.Parse.Stdf/Stdf4Tsr.cs:199-201 | an unprefixed write succeeds exactly for a name of at most 255 characters whose raw bytes fit, and then stores them and reports their number |
| Tsr.FixedFits | src/Lava-Data.Parse.Stdf/Stdf4Tsr.cs:180-197 | the fixed stores succeed exactly when the type char fits a byte and nineteen bytes fit at offset |
| Tsr.FixedWritten | src/Lava-Data.Parse.Stdf/Stdf4Tsr.cs:180-197 | the fixed stores leave the front from offset + 2 and the index at 19, every other byte unchanged |
| Tsr.AddRawOk | src/Lava-Data.Parse.Stdf/Stdf4Tsr.cs:199-201 | one name is written exactly when it fits, and the index then moves past its raw bytes |
| Tsr.AddRawWritten | src/Lava-Data.Parse.Stdf/Stdf4Tsr.cs:199-201 | a name that fits leaves its raw bytes at offset + idx and nothing else changed |
| Tsr.NamesOk | src/Lava-Data.Parse.Stdf/Stdf4Tsr.cs:199-201 | when the names are written each was at most 255 characters and the index ends past all their raw bytes |
| Tsr.NamesBound | src/Lava-Data.Parse.Stdf/Stdf4Tsr.cs:199-201 | the index after the names is at most 255 per name beyond its start, so the ushort index cannot wrap |
| Tsr.NameWritten | src/Lava-Data.Parse.Stdf/Stdf4Tsr.cs:199-201 | the first name that fits goes to offset + idx and the others follow from the index past it |
| Tsr.NamesWritten | src/Lava-Data.Parse.Stdf/Stdf4Tsr.cs:199-201 | names that fit leave their raw bytes from offset + idx, every other byte unchanged |
| Tsr.NamesInTurn | src/Lava-Data.Parse.Stdf/Stdf4Tsr.cs:199-201 | writing names that fit one by one equals storing each name's raw bytes in turn |
| Tsr.StoredInTurn | src/Lava-Data.Parse.Stdf/Stdf4Tsr.cs:199-201 | storing the names one by one equals storing all their raw bytes at once |
| Tsr.NamesStored | src/Lava-Data.Parse.Stdf/Stdf4Tsr.cs:199-201 | a list of names fits exactly when its first name and the rest fit, and its raw bytes are the first's followed by the rest's |
| Tsr.EncodeValid | src/Lava-Data.Parse.Stdf/Stdf4Tsr.cs:176-216 | SetBytes succeeds exactly for a type char that fits a byte and names of at most 255 characters whose image fits |
| Tsr.EncodeWritten | src/Lava-Data.Parse.Stdf/Stdf4Tsr.cs:176-216 | a successful SetBytes leaves the image at offset, every other byte unchanged, and reports two more than the image's size |
| Tsr.ImageStored | src/Lava-Data.Parse.Stdf/Stdf4Tsr.cs:176-216 | the body, then the flag, then REC_LEN in front make up the image, and the reported size is the index past the flag plus two |
| Tsr.BodyWritten | src/Lava-Data.Parse.Stdf/Stdf4Tsr.cs:178-201 | up to the flag, SetBytes leaves the front and the names' raw bytes from offset + 2 |
| Tsr.TailWritten | src/Lava-Data.Parse.Stdf/Stdf4Tsr.cs:203-215 | the flag goes at the index, REC_LEN holds the index past it, and the result is that index plus two |
| Tsr.TestNumberLost | src/Lava-Data.Parse.Stdf/Stdf4Tsr.cs:178-197 | two records differing only in test number are written identically, so at most one of the two reads back |
| Tsr.SizesDisagree | src/Lava-Data.Parse.Stdf/Stdf4Tsr.cs:128-216 | REC_LEN holds the image's own size header included, the result is two more than that, and Length() is larger than both |
| Tsr.StatImage | src/Lava-Data.Parse.Stdf/Stdf4Tsr.cs:95-122 | a present statistic takes four bytes and an absent one none |
| Tsr.StatFront | src/Lava-Data.Parse.Stdf/Stdf4Tsr.cs:95-122 | a statistic at the front of the remaining data reads back when its flag bit agrees, leaving the rest |
| Tsr.IntendedOptionalRoundTrip | src/Lava-Data.Parse.Stdf/Stdf4Tsr.cs:86-124 | with each statistic read behind its own flag bit, an optional part whose flag agrees with its statistics reads back exactly |
| Tsr.FlagTestsDiffer | src/Lava-Data.Parse.Stdf/Stdf4Tsr.cs:95-122 | the source's bit test and the intended one agree on bit 0, and the source's fails on every other bit |
| Records.DeclaredHeaders | src/Lava-Data.Parse.Stdf/Stdf4Wrr.cs:18-19 | every record class declares its kind's (type, subtype) pair from the type table, except WRR, which declares WIR's (2, 10) rather than (2, 20) |
| Records.SetBytes | src/Lava-Data.Parse.Stdf/Stdf4Record.cs:63 | the abstract SetBytes dispatches to each class's own writer and leaves the array and result that class's Encode gives |
| Records.ToBytes | src/Lava-Data.Parse.Stdf/Stdf4Record.cs:44-50 | ToBytes is the exception of Length() when it throws, otherwise the zeroed array of Length() bytes as SetBytes leaves it, always Length() bytes long |
| Records.FillsZeroed | src/Lava-Data.Parse.Stdf/Stdf4Record.cs:44-50 | an image exactly as long as the zeroed array overwrites all of it |
| Records.FarBytes | src/Lava-Data.Parse.Stdf/Stdf4Record.cs:44-50 | ToBytes of any FAR is its six-byte image |
| Records.PirBytes | src/Lava-Data.Parse.Stdf/Stdf4Record.cs:44-50 | ToBytes of any PIR is its six-byte image |
| Records.PcrBytes | src/Lava-Data.Parse.Stdf/Stdf4Record.cs:44-50 | ToBytes of any PCR is its 26-byte image |
| Records.MirBytes | src/Lava-Data.Parse.Stdf/Stdf4Record.cs:44-50 | ToBytes of a writable MIR is its image |
| Records.MrrBytes | src/Lava-Data.Parse.Stdf/Stdf4Record.cs:44-50 | ToBytes of a writable MRR is its image |
| Records.DtrBytes | src/Lava-Data.Parse.Stdf/Stdf4Record.cs:44-50 | ToBytes of a DTR is its image when the text is at most 255 characters and throws StringTooLong otherwise |
| Records.ReadOnlyKinds | src/Lava-Data.Parse.Stdf/Stdf4Record.cs:44-50 | ToBytes of a PRR, PTR, WCR or SDR always throws, Not Implemented unless an SDR handler type is too long |
| Parser.NextByte | src/Lava-Data.Parse.Stdf/Stdf4Parser.cs:101-109 | a byte is read exactly when one is left; otherwise the read throws EndOfStream |
| Parser.BodyAt | src/Lava-Data.Parse.Stdf/Stdf4Parser.cs:122 | ReadBytes gives the requested count when the stream has that many left, and otherwise everything that is left |
| Parser.ByteReader.constructor | src/Lava-Data.Parse.Stdf/Stdf4Parser.cs:78 | a reader starts at position 0 of its stream |
| Parser.ByteReader.ReadByte | src/Lava-Data.Parse.Stdf/Stdf4Parser.cs:101-109 | one read gives the next byte and moves one on, or throws EndOfStream and stays at the end |
| Parser.ByteReader.ReadUInt16 | src/Lava-Data.Parse.Stdf/Stdf4Parser.cs:106 | REC_LEN is the two next bytes, low byte first, when two are left; otherwise the read consumes the rest and throws EndOfStream |
| Parser.ByteReader.ReadBytes | src/Lava-Data.Parse.Stdf/Stdf4Parser.cs:122 | the bytes read are BodyAt's and the position moves past exactly them |
| Parser.HeaderAt | src/Lava-Data.Parse.Stdf/Stdf4Parser.cs:97-109 | a header is read exactly when four bytes are left, and otherwise EndOfStream ends the loop |
| Parser.StepAt | src/Lava-Data.Parse.Stdf/Stdf4Parser.cs:97-281 | an iteration that completes consumes at least the four header bytes and never more than the stream holds |
| Parser.HeaderAtRest | src/Lava-Data.Parse.Stdf/Stdf4Parser.cs:97-109 | reading the header at a position equals reading it at the start of the bytes left from there |
| Parser.BodyAtRest | src/Lava-Data.Parse.Stdf/Stdf4Parser.cs:122 | the body after a header at a position equals the body after the header in the bytes left from there |
| Parser.RunStops | src/Lava-Data.Parse.Stdf/Stdf4Parser.cs:289-300 | an iteration that throws ends the loop with the list as it was and the read order unchanged |
| Parser.RunGoesOn | src/Lava-Data.Parse.Stdf/Stdf4Parser.cs:97-281 | an iteration that completes appends its record, if any, and the loop goes on after the bytes it consumed in the read order it set |
| Parser.ReadGoesOn | src/Lava-Data.Parse.Stdf/Stdf4Parser.cs:97-281 | the same, stated for a stream read from a position onwards |
| Parser.Stdf4Parser.constructor | src/Lava-Data.Parse.Stdf/Stdf4Parser.cs:16-53 | a new parser reads in file order with OnlyParse, Verbose and DebugLevel all off |
| Parser.Stdf4Parser.SetDebugLevel | src/Lava-Data.Parse.Stdf/Stdf4Parser.cs:39-53 | DebugLevel becomes the value, Verbose turns on for a positive level and otherwise keeps its value, and nothing else changes |
| Parser.Stdf4Parser.ReadStdf4 | src/Lava-Data.Parse.Stdf/Stdf4Parser.cs:76-308 | the loop returns null when OnlyParse is set and otherwise Run's records over the bytes left, and leaves the parser's ReverseBytesOnRead where Run ends |
| Parser.Stdf4Parser.ReadRecord | src/Lava-Data.Parse.Stdf/Stdf4Parser.cs:97-281 | one iteration throws exactly when StepAt does; otherwise it yields StepAt's record, consumes its bytes and sets both read orders as StepAt says |
| Parser.Stdf4Parser.ReadHeader | src/Lava-Data.Parse.Stdf/Stdf4Parser.cs:97-109 | the header read, byte-swapped through the parser's pair when it reverses, is HeaderAt's, and a complete header moves four bytes on |
| Parser.Stdf4Parser.DecodeRecord | src/Lava-Data.Parse.Stdf/Stdf4Parser.cs:127-267 | the record decoded is Outcome's: the fast path below debug level 3 for PTR and PIR, the switch otherwise, with a FAR's read order copied to parser and converter |
| Parser.Stdf4Parser.Dispatch | src/Lava-Data.Parse.Stdf/Stdf4Parser.cs:176-267 | the switch's record or exception, with a FAR's CPU type setting both read orders or throwing for a type other than 1 or 2 |
| Parser.Stdf4Parser.SwitchRecord | src/Lava-Data.Parse.Stdf/Stdf4Parser.cs:176-267 | the record constructed for a type code is exactly Switch's |
| ParserFacts.RunAppends | src/Lava-Data.Parse.Stdf/Stdf4Parser.cs:269-281 | the loop only appends: the list it starts with stays in front, and the read order it ends with does not depend on it |
| ParserFacts.AtMostOnePerHeader | src/Lava-Data.Parse.Stdf/Stdf4Parser.cs:97-281 | the loop adds at most one record per four bytes of the stream |
| ParserFacts.FastPathAgrees | src/Lava-Data.Parse.Stdf/Stdf4Parser.cs:127-190 | PTR and PIR on the fast path decode exactly as the switch decodes them |
| ParserFacts.RunAgrees | src/Lava-Data.Parse.Stdf/Stdf4Parser.cs:97-300 | two decoders that agree on every body give the same loop result |
| ParserFacts.StepAgrees | src/Lava-Data.Parse.Stdf/Stdf4Parser.cs:97-281 | two decoders that agree on every body give the same iteration |
| ParserFacts.DebugLevelIrrelevant | src/Lava-Data.Parse.Stdf/Stdf4Parser.cs:127-267 | the records and the read order the loop ends with are the same at every DebugLevel |
| ParserFacts.OutcomeAgrees | src/Lava-Data.Parse.Stdf/Stdf4Parser.cs:127-201 | a body decodes to the same record and the same read order at every DebugLevel |
| ParserFacts.FarRead | src/Lava-Data.Parse.Stdf/Stdf4Parser.cs:113-122 | a FAR header takes the next two bytes as body whatever REC_LEN says; CPU type 1 sets reversed order, 2 file order, and any other type or a short body throws |
| ParserFacts.FarSetsOrder | src/Lava-Data.Parse.Stdf/Stdf4Parser.cs:196-201 | after a FAR the loop goes on six bytes later in the order its CPU type set, and an invalid CPU type ends it without adding the FAR |
| ParserFacts.NoRecordExactly | src/Lava-Data.Parse.Stdf/Stdf4Parser.cs:176-267 | the switch gives no record and no exception exactly for codes the table lacks, TSR, GDR and the kinds without a case |
| ParserFacts.SkippedDecodes | src/Lava-Data.Parse.Stdf/Stdf4Parser.cs:250-286 | a skipped code is not a FAR and decodes to nothing without changing the read order |
| ParserFacts.NothingAddedGoesOn | src/Lava-Data.Parse.Stdf/Stdf4Parser.cs:269-286 | a body that decodes to nothing is read past: the loop goes on after it with nothing added and the read order unchanged |
| ParserFacts.SkippedGoesOn | src/Lava-Data.Parse.Stdf/Stdf4Parser.cs:250-286 | the loop reads past a skipped record with nothing added and the read order unchanged |
| ParserFacts.UnsupportedStops | src/Lava-Data.Parse.Stdf/Stdf4Parser.cs:224-231 | a PMR, PGR or RDR header makes the iteration throw, and the loop ends with the records read so far |
| ParserFacts.UnsupportedDecodes | src/Lava-Data.Parse.Stdf/Stdf4Parser.cs:224-231 | the switch throws for PMR, PGR and RDR whatever the body |
| ParserFacts.TruncatedBody | src/Lava-Data.Parse.Stdf/Stdf4Parser.cs:122 | a body cut short by the end of the stream is decoded from the bytes that are left, and the loop then ends |
| ParserFacts.Frame | src/Lava-Data.Parse.Stdf/Stdf4Parser.cs:97-122 | a record framed with a body-only REC_LEN takes four bytes more than its body |
| ParserFacts.FramedStep | src/Lava-Data.Parse.Stdf/Stdf4Parser.cs:97-281 | a framed record in front of any bytes is one iteration giving its record and consuming exactly its frame |
| ParserFacts.FramedRun | src/Lava-Data.Parse.Stdf/Stdf4Parser.cs:97-281 | a framed record in front of any bytes adds its record, and the loop goes on after it |
| ParserFacts.FramesSplit | src/Lava-Data.Parse.Stdf/Stdf4Parser.cs:97-122 | a stream of frames is the first frame followed by the rest |
| ParserFacts.FramedStream | src/Lava-Data.Parse.Stdf/Stdf4Parser.cs:97-281 | correctly framed records in file order add exactly their records, in order, before whatever follows |
| ParserFacts.FramedStreamReads | src/Lava-Data.Parse.Stdf/Stdf4Parser.cs:76-308 | a stream made only of correctly framed records reads back as exactly those records, in file order |
| ParserFacts.PirPairSwallowed | src/Lava-Data.Parse.Stdf/Stdf4Parser.cs:122 | as written, ToBytes of a PIR stores 6, header included, as REC_LEN; two PIRs back to back read back as the first one only |
| ParserFacts.FirstPirStep | src/Lava-Data.Parse.Stdf/Stdf4Parser.cs:122 | the first PIR's REC_LEN of 6 takes the second PIR's header in as its body, leaving two of the twelve bytes |
| ParserFacts.Reframed | src/Lava-Data.Parse.Stdf/Stdf4Record.cs:35 | setting REC_LEN to LengthNoHeader() changes only the first two bytes |
| ParserFacts.IntendedPirPairRead | src/Lava-Data.Parse.Stdf/Stdf4Parser.cs:122 | with REC_LEN set to LengthNoHeader(), two PIRs written back to back read back as both |
| Debug.DigitReads | src/Lava-Data.Parse.Stdf/HexDump.cs:58 | each uppercase hex digit is a hex digit and reads back as its value |
| Debug.HexByte | src/Lava-Data.Parse.Stdf/HexDump.cs:58 | the X2 format of a byte is two characters |
| Debug.HexByteReads | src/Lava-Data.Parse.Stdf/HexDump.cs:58 | the two X2 digits of a byte are hex digits and read back as the byte |
| Debug.Numeral | src/Lava-Data.Parse.Stdf/HexDump.cs:105 | a number's digits without leading zeros are never empty |
| Debug.FormatOffset | src/Lava-Data.Parse.Stdf/HexDump.cs:105 | the X8 format of an offset has at least eight characters |
| Debug.NumeralReads | src/Lava-Data.Parse.Stdf/HexDump.cs:105 | a number's digits are hex digits and read back as the number |
| Debug.NumeralFits | src/Lava-Data.Parse.Stdf/HexDump.cs:105 | a number below 16^k needs at most k digits |
| Debug.LeadingZeros | src/Lava-Data.Parse.Stdf/HexDump.cs:105 | zeros in front of a string of digits do not change its value |
| Debug.FormatOffsetReads | src/Lava-Data.Parse.Stdf/HexDump.cs:105 | the offset column is all hex digits, reads back as the offset, and is exactly eight characters for an offset below 2^32 |
| Debug.Hexes | src/Lava-Data.Parse.Stdf/HexDump.cs:58 | the hex column takes three characters per byte |
| Debug.HexesRead | src/Lava-Data.Parse.Stdf/HexDump.cs:58 | the hex column of a row reads back as the row's bytes |
| Debug.Filtered | src/Lava-Data.Parse.Stdf/HexDump.cs:107-118 | the ASCII column has one character per byte |
| Debug.FilteredPrintable | src/Lava-Data.Parse.Stdf/HexDump.cs:107-118 | every character of the ASCII column is in 32..127: no byte below 32 is printed as itself |
| Debug.FilteredIdempotent | src/Lava-Data.Parse.Stdf/HexDump.cs:107-118 | filtering the ASCII column again leaves it unchanged |
| Debug.RowBreaks | src/Lava-Data.Parse.Stdf/HexDump.cs:38 | within a row, the test index % BytesPerLine == 0 holds only where the next row starts |
| Debug.ModWidth | src/Lava-Data.Parse.Stdf/HexDump.cs:38 | a negative BytesPerLine breaks rows as its absolute value does |
| Debug.LastRow | src/Lava-Data.Parse.Stdf/HexDump.cs:55 | the row holding the last byte starts at LastStart |
| Debug.LastStartFacts | src/Lava-Data.Parse.Stdf/HexDump.cs:55 | LastStart is a row start, and the last row holds between one byte and a full row |
| Debug.EmptyDump | src/Lava-Data.Parse.Stdf/HexDump.cs:61-72 | a dump of no bytes is a whole row of placeholders and two spaces when ShowAscii, then the line break, and no offset |
| Debug.FullLastRowPadded | src/Lava-Data.Parse.Stdf/HexDump.cs:61-70 | when the bytes fill their last row, a whole row of ".. " placeholders still comes before its ASCII column |
| Debug.FullRowStart | src/Lava-Data.Parse.Stdf/HexDump.cs:61-70 | when the size is a multiple of the width, the last row starts one width before the end |
| Debug.ListingSnoc | src/Lava-Data.Parse.Stdf/HexDump.cs:87-100 | appending a byte to the list appends its separator, a line break before every eighth entry, and its entry |
| Debug.OneLine | src/Lava-Data.Parse.Stdf/HexDump.cs:87-100 | up to eight bytes make one line after a single line break |
| Debug.ListingLength | src/Lava-Data.Parse.Stdf/HexDump.cs:87-100 | the list takes seven characters per byte, less two, plus one line break per started group of eight |
| Debug.HexDump.constructor | src/Lava-Data.Parse.Stdf/HexDump.cs:13-25 | a new dump holds the given array, 16 bytes per line, with the ASCII column and offsets shown |
| Debug.HexDump.ToString | src/Lava-Data.Parse.Stdf/HexDump.cs:27-73 | ToString is "<null>" for a null array and otherwise the row-by-row Dump, which throws when BytesPerLine is 0 |
| Debug.HexDump.HexRows | src/Lava-Data.Parse.Stdf/HexDump.cs:34-59 | the loop leaves every row's head and hex column, and the last row's start |
| Debug.HexDump.RowHead | src/Lava-Data.Parse.Stdf/HexDump.cs:38-56 | what is appended where a row starts is Head: the previous row's ASCII column and a line break after the first row, then the offset |
| Debug.HexDump.ToHexByteString | src/Lava-Data.Parse.Stdf/HexDump.cs:79-103 | ToHexByteString is "0x00" for a null array and otherwise the line-by-line Listing of the bytes |
| Debug.HexDump.ToFilteredAscii | src/Lava-Data.Parse.Stdf/HexDump.cs:107-118 | the range's bytes decode to its ASCII column, bytes below 32 shown as '.' |
| Debug.NextRow | src/Lava-Data.Parse.Stdf/HexDump.cs:36-59 | where a row breaks, the rows so far, the full row and the next head make up the rows up to the next head |

## Left out

- File input (`ReadStdf4(string)`), all `Console` output, the verbose and debug dumps printed inside the loop, and the `pos`/`recordNumber` counters are left out. They are I/O or diagnostics and do not affect the list returned.
- `InitialListCapacity` is left out: it is only the list's starting capacity.
- `BinaryReader` is modelled as an in-memory cursor (`Parser.ByteReader`) with the short-read rules of `ReadByte`, `ReadUInt16` and `ReadBytes`. Streams, files and disposal are not modelled.
- R*4 values are raw 32-bit patterns. `BitConverter.ToSingle` and any float arithmetic are not modelled.
- `Encoding.ASCII` is modelled on chars, not bytes: a byte above 127 decodes to '?', and a char above 127 encodes to '?'. UTF-16 surrogates and the encoder's other replacement rules are not modelled.
- ValueConverter.NullableSingleAt: the source of `GetNullableSingleAndUpdateOffset` is not part of this model. Its behaviour is taken to be that of `GetSingleAndUpdateOffset`, with absent in place of `(0, false)`.
- The `GetTwoBytes(byte[])` and `GetFourBytes(byte[])` overloads and `GetInt32AndUpdateOffset` are not modelled. No code in the core calls them.
- The record classes are not modelled as objects whose `Parse` assigns properties. Each `Parse` is a function returning a new value, which is how the parser uses the constructors. In-place property updates are modelled only for the PRR flag accessors (`Prr.PartFlags`).
- `Length()` is a function, and each writer is proved to accumulate exactly what it says. The source's local-variable accumulation is not kept as a loop.
- Debug.HexDump.ToString: `Environment.NewLine` is a parameter. The row head and the trailing placeholders are built in one string and appended once; the text is the same as the source's run of `Append` calls.
- The .NET array-length bound is not modelled: offsets and sizes are unbounded naturals. The 16-bit `ushort` arithmetic of REC_LEN and of the writers' indices is modelled explicitly.
- The MIR test fixture (a 260-byte record) is not reproduced as a concrete lemma. `Mir.RoundTrip` states the round trip for every writable MIR instead.
- Exceptions are the values of an error datatype. Their messages are not modelled.

## Findings

| source | as written | input that shows it | evidently intended | confidence | as-written member | corrected member |
|---|---|---|---|---|---|---|
| src/Lava-Data.Parse.Stdf/Stdf4Hbr.cs:113-118 | the pass/fail byte is stored without advancing the index, and the name follows without a length byte | any HBR with a non-empty name, e.g. "A" | pass/fail at its own index, then the name as C*n | not executed | Hbr.NamedNeverRoundTrips | BinRecord.IntendedRoundTrip |
| src/Lava-Data.Parse.Stdf/Stdf4Sbr.cs:103-109 | the software bin number is never written | two SBRs differing only in bin number, e.g. 0 and 1 | the U*2 bin number after the site | not executed | Sbr.BinNumberLost | BinRecord.IntendedRoundTrip |
| src/Lava-Data.Parse.Stdf/Stdf4Wir.cs:110-113 | the wafer id is written without a length byte | any WIR with an id, even "" | the id as C*n | not executed | Wir.IdNeverRoundTrips | Wir.IntendedRoundTrip |
| src/Lava-Data.Parse.Stdf/Stdf4Pir.cs:80 | REC_LEN holds the size with the header (6), while the parser reads REC_LEN bytes of body | two PIRs written back to back | REC_LEN as LengthNoHeader(), the body size | not executed | ParserFacts.PirPairSwallowed | ParserFacts.IntendedPirPairRead |
| src/Lava-Data.Parse.Stdf/Stdf4Tsr.cs:95-122 | each optional statistic is read behind (flag AND (1 shifted left by k)) == 1, true only for k = 0 | flag 0x04 followed by an average test time | read when the bit is set | not executed | Tsr.FlagTestsDiffer | Tsr.IntendedOptionalRoundTrip |
| src/Lava-Data.Parse.Stdf/Stdf4Sdr.cs:90-105 | the strings are read from the original offset, so the handler type's length byte is the head number | body 01 00 00 01 'H' | strings read after the site numbers | not executed | Sdr.WrongOffset | Sdr.IntendedRoundTrip |
| src/Lava-Data.Parse.Stdf/Stdf4Sdr.cs:96-97 | DibBoardType is assigned twice and DibBoardId never | any SDR body with eight strings | the eighth string in DibBoardId | not executed | Sdr.DibBoardIdNeverSet | Sdr.IntendedRoundTrip |
| src/Lava-Data.Parse.Stdf/Stdf4Prr.cs:26-60 | all four part-flag accessors use bit 0 | SetPartPassed(false) on flag 0 also makes DataSupersedesPreviousPart true | supersedes bit 0, abnormal end bit 2, failed bit 3, no pass/fail bit 4 | not executed | Prr.AccessorsShareBitZero | Prr.IntendedPassedIndependent |
| src/Lava-Data.Parse.Stdf/Stdf4Prr.cs:116-121 | the repair bytes are copied from the count byte on | repair bytes [7] give back [1] | the bytes after the count | not executed | Prr.RepairKeepsCount | Prr.IntendedRoundTrip |
| src/Lava-Data.Parse.Stdf/Stdf4Wrr.cs:19 | WRR declares subtype 10, WIR's | any WRR written by SetBytes carries header (2, 10) | subtype 20, as in the type table | not executed | Wrr.HeaderIsWirs | Wrr.IntendedHeader |
