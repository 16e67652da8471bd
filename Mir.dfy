/**
 * MIR, the Master Information Record (1, 10): time stamps, station and
 * mode codes, the burn-in time, then thirty optional C*n fields.
 */
module Mir {
  import opened Primitives
  import opened ValueConverter
  import opened RecordBase

  const RecordType: byte := 1
  const RecordSubtype: byte := 10

  /**
   * The C*n fields, in file order: lot, product, node name, tester type,
   * job name and revision, sublot, operator, executive type and version,
   * test code, test temperature, user text, auxiliary file, package type,
   * product family, date code, test facility, test floor, fab process,
   * operation frequency, test spec name and version, test flow, test
   * setup, device design revision, engineering lot, ROM code, tester
   * serial number and supervisor.
   */
  const TextCount: nat := 30

  /** Exactly one optional value per C*n field. */
  type Texts = s: seq<Option<string>> | |s| == TextCount witness seq(TextCount, _ => None)

  datatype Mir = Mir(
    setupTime: u32,
    startTime: u32,
    stationNumber: byte,
    testModeCode: char,
    lotRetestCode: char,
    dataProtectionCode: char,
    burnInMinutes: u16,
    commandModeCode: char,
    texts: Texts)

  /**
   * Parse: two U*4, the station byte and three chars (indexed, so a short
   * body throws), a U*2, another char, then the thirty C*n fields.
   */
  function Parse(data: seq<byte>, offset: nat, reverse: bool): (r: Result<Mir>)
  {
    var setup := UInt32At(data, offset, reverse);
    var start := UInt32At(data, setup.next, reverse);
    var station :- ByteAt(data, start.next);
    var testMode :- CharAt(data, start.next + 1);
    var retest :- CharAt(data, start.next + 2);
    var protection :- CharAt(data, start.next + 3);
    var burnIn :- UInt16At(data, start.next + 4, reverse);
    var command :- CharAt(data, burnIn.next);
    var texts :- ReadStrings(data, burnIn.next + 1, TextCount);
    Ok(Mir(setup.value, start.value, station, testMode, retest, protection, burnIn.value, command, texts.value))
  }

  /** Length(): 19 plus each present field's count, in an int; above 65535 it throws. */
  function Length(m: Mir): (r: Result<u16>)
  {
    var len := 19 + StringsLength(m.texts);
    if len > 0xFFFF then Err(RecordTooLong) else Ok(len)
  }

  /** The header pair and the two time stamps, 10 bytes from `offset + 2`. */
  function Stamps(m: Mir, reverse: bool): (b: seq<byte>)
    ensures |b| == 10
  {
    [RecordType, RecordSubtype] + U32Wire(m.setupTime, reverse) + U32Wire(m.startTime, reverse)
  }

  /** Station, the three mode chars, burn-in time and command mode, 7 bytes from `offset + 12`. */
  function Codes(m: Mir, reverse: bool): (b: seq<byte>)
    requires Chars(m)
    ensures |b| == 7
  {
    [m.stationNumber, m.testModeCode as int, m.lotRetestCode as int, m.dataProtectionCode as int]
    + U16Wire(m.burnInMinutes, reverse) + [m.commandModeCode as int]
  }

  /** The bytes SetBytes stores before the C*n fields, from `offset + 2`. */
  function Front(m: Mir, reverse: bool): (b: seq<byte>)
    requires Chars(m)
    ensures |b| == 17
  {
    Stamps(m, reverse) + Codes(m, reverse)
  }

  /** The four single-char fields fit in a byte, as SetAsciiChar demands. */
  predicate Chars(m: Mir)
  {
    && m.testModeCode as int <= 0xFF && m.lotRetestCode as int <= 0xFF
    && m.dataProtectionCode as int <= 0xFF && m.commandModeCode as int <= 0xFF
  }

  /** The values SetBytes accepts: byte-sized chars, fitting fields, no field after a null. */
  predicate Writable(m: Mir)
  {
    Chars(m) && AllFit(m.texts) && NullsLast(m.texts)
  }

  function Body(m: Mir, reverse: bool): seq<byte>
    requires Chars(m)
  {
    Front(m, reverse) + StringsImage(m.texts)
  }

  /** The record after its four header bytes: what Parse reads. */
  function Fields(m: Mir, reverse: bool): seq<byte>
    requires Chars(m)
  {
    Fixed(m, reverse) + StringsImage(m.texts)
  }

  /** The fixed-size fields after the header: time stamps and codes, 15 bytes. */
  function Fixed(m: Mir, reverse: bool): (b: seq<byte>)
    requires Chars(m)
    ensures |b| == 15
  {
    U32Wire(m.setupTime, reverse) + U32Wire(m.startTime, reverse) + Codes(m, reverse)
  }

  /** The record SetBytes writes: REC_LEN holds `idx - 4`, the size without the header. */
  function Image(m: Mir, reverse: bool): (b: seq<byte>)
    requires Writable(m)
  {
    StringsImageLength(m.texts);
    U16Wire(15 + |StringsImage(m.texts)|, reverse) + Body(m, reverse)
  }

  /** SetBytes up to the time stamps; the index is then 10. */
  function EncodeStamps(m: Mir, buf: seq<byte>, offset: nat, reverse: bool): (s: Step<nat>)
  {
    var typ :- PutByte(buf, RecordType, offset + 2);
    var sub :- PutByte(typ.buf, RecordSubtype, offset + 3);
    var setup :- PutU32(sub.buf, m.setupTime, offset + 4, reverse);
    var start :- PutU32(setup.buf, m.startTime, offset + 8, reverse);
    Yield(start.buf, 10)
  }

  /** SetBytes from the station byte to the command mode; each writer reports its width. */
  function EncodeCodes(m: Mir, buf: seq<byte>, offset: nat, reverse: bool): (s: Step<nat>)
  {
    var station :- PutByte(buf, m.stationNumber, offset + 12);
    var mode :- PutAsciiChar(station.buf, m.testModeCode, offset + 13);
    var retest :- PutAsciiChar(mode.buf, m.lotRetestCode, offset + 14);
    var protection :- PutAsciiChar(retest.buf, m.dataProtectionCode, offset + 15);
    var burnIn :- PutU16(protection.buf, m.burnInMinutes, offset + 16, reverse);
    var command :- PutAsciiChar(burnIn.buf, m.commandModeCode, offset + 18);
    Yield(command.buf, 19)
  }

  /** SetBytes up to the C*n fields: the running index is 19 after it. */
  function EncodeHead(m: Mir, buf: seq<byte>, offset: nat, reverse: bool): (s: Step<nat>)
  {
    var stamps :- EncodeStamps(m, buf, offset, reverse);
    EncodeCodes(m, stamps.buf, offset, reverse)
  }

  /**
   * The end of SetBytes: the fields from `offset + at` with the shared
   * flag, then `idx - 4` through SetUint16(int) at `offset`; it reports
   * `(ushort)idx`.
   */
  function EncodeTail(buf: seq<byte>, values: seq<Option<string>>, offset: nat, at: nat, reverse: bool): (s: Step<nat>)
  {
    var texts :- PutStrings(buf, values, false, offset + at);
    FinishLength(texts.buf, at + texts.value.count, offset, reverse)
  }

  /** SetUint16(int) of `idx - 4` at `offset`, then `(ushort)idx` reported. */
  function FinishLength(buf: seq<byte>, idx: nat, offset: nat, reverse: bool): (s: Step<nat>)
  {
    var len :- PutU16Int(buf, idx - 4, offset, reverse);
    Yield(len.buf, idx % 0x1_0000)
  }

  function Encode(m: Mir, buf: seq<byte>, offset: nat, reverse: bool): (s: Step<nat>)
  {
    var head :- EncodeHead(m, buf, offset, reverse);
    EncodeTail(head.buf, m.texts, offset, head.value, reverse)
  }

  method WriteHead(m: Mir, conv: StdfValueConverter, dest: array<byte>, offset: nat) returns (r: Result<nat>)
    modifies dest
    ensures Step(dest[..], r) == EncodeHead(m, old(dest[..]), offset, conv.reverseBytesOnWrite)
  {
    var n :- conv.SetByte(RecordType, dest, offset + 2);
    n :- conv.SetByte(RecordSubtype, dest, offset + 3);
    n :- conv.SetUint32(m.setupTime, dest, offset + 4);
    n :- conv.SetUint32(m.startTime, dest, offset + 8);
    n :- conv.SetByte(m.stationNumber, dest, offset + 12);
    n :- conv.SetAsciiChar(m.testModeCode, dest, offset + 13);
    n :- conv.SetAsciiChar(m.lotRetestCode, dest, offset + 14);
    n :- conv.SetAsciiChar(m.dataProtectionCode, dest, offset + 15);
    n :- conv.SetUint16(m.burnInMinutes, dest, offset + 16);
    n :- conv.SetAsciiChar(m.commandModeCode, dest, offset + 18);
    r := Ok(19);
  }

  /** The thirty fields with a fresh flag, then `idx - 4` at `offset`. */
  method WriteTail(conv: StdfValueConverter, values: seq<Option<string>>, dest: array<byte>, offset: nat, at: nat)
    returns (r: Result<nat>)
    modifies dest
    ensures Step(dest[..], r) == EncodeTail(old(dest[..]), values, offset, at, conv.reverseBytesOnWrite)
  {
    var texts :- WriteStrings(conv, values, dest, false, offset + at);
    var idx := at + texts.count;
    r := conv.SetUint16Int(idx - 4, dest, offset);
    if r.Ok? {
      r := Ok(idx % 0x1_0000);
    }
  }

  method SetBytes(m: Mir, conv: StdfValueConverter, dest: array<byte>, offset: nat) returns (r: Result<nat>)
    modifies dest
    ensures Step(dest[..], r) == Encode(m, old(dest[..]), offset, conv.reverseBytesOnWrite)
  {
    var idx :- WriteHead(m, conv, dest, offset);
    r := WriteTail(conv, m.texts, dest, offset, idx);
  }

  /** The stamps are written exactly when their ten bytes fit. */
  lemma StampsFit(m: Mir, buf: seq<byte>, offset: nat, reverse: bool)
    ensures EncodeStamps(m, buf, offset, reverse).result.Ok? <==> offset + 12 <= |buf|
  {
  }

  /** Written, the stamps lie from `offset + 2` and the index is 10. */
  lemma StampsWritten(m: Mir, buf: seq<byte>, offset: nat, reverse: bool)
    requires offset + 12 <= |buf|
    ensures EncodeStamps(m, buf, offset, reverse) == Step(Stored(buf, offset + 2, Stamps(m, reverse)), Ok(10))
  {
    var p2: seq<byte> := [RecordType, RecordSubtype];
    var p3 := p2 + U32Wire(m.setupTime, reverse);
    StoredConcat(buf, offset + 2, [RecordType], [RecordSubtype]);
    StoredConcat(buf, offset + 2, p2, U32Wire(m.setupTime, reverse));
    StoredConcat(buf, offset + 2, p3, U32Wire(m.startTime, reverse));
  }

  /** The codes are written exactly when the chars are byte-sized and their seven bytes fit. */
  lemma CodesFit(m: Mir, buf: seq<byte>, offset: nat, reverse: bool)
    ensures EncodeCodes(m, buf, offset, reverse).result.Ok? <==> Chars(m) && offset + 19 <= |buf|
  {
  }

  /** Written, the codes lie from `offset + 12` and the index is 19. */
  lemma CodesWritten(m: Mir, buf: seq<byte>, offset: nat, reverse: bool)
    requires Chars(m) && offset + 19 <= |buf|
    ensures EncodeCodes(m, buf, offset, reverse) == Step(Stored(buf, offset + 12, Codes(m, reverse)), Ok(19))
  {
    var p1: seq<byte> := [m.stationNumber];
    var p2 := p1 + [m.testModeCode as int];
    var p3 := p2 + [m.lotRetestCode as int];
    var p4 := p3 + [m.dataProtectionCode as int];
    var p5 := p4 + U16Wire(m.burnInMinutes, reverse);
    StoredConcat(buf, offset + 12, p1, [m.testModeCode as int]);
    StoredConcat(buf, offset + 12, p2, [m.lotRetestCode as int]);
    StoredConcat(buf, offset + 12, p3, [m.dataProtectionCode as int]);
    StoredConcat(buf, offset + 12, p4, U16Wire(m.burnInMinutes, reverse));
    StoredConcat(buf, offset + 12, p5, [m.commandModeCode as int]);
    assert p5 + [m.commandModeCode as int] == Codes(m, reverse);
  }

  /**
   * The head is written exactly when its bytes fit and the chars are
   * byte-sized; it then stores the front and reports 19.
   */
  lemma HeadWritten(m: Mir, buf: seq<byte>, offset: nat, reverse: bool)
    ensures EncodeHead(m, buf, offset, reverse).result.Ok? <==> Chars(m) && offset + 19 <= |buf|
    ensures EncodeHead(m, buf, offset, reverse).result.Ok? ==>
      && EncodeHead(m, buf, offset, reverse).buf == Stored(buf, offset + 2, Front(m, reverse))
      && EncodeHead(m, buf, offset, reverse).result.value == 19
  {
    StampsFit(m, buf, offset, reverse);
    if offset + 12 <= |buf| {
      StampsWritten(m, buf, offset, reverse);
      var stamps := Stored(buf, offset + 2, Stamps(m, reverse));
      CodesFit(m, stamps, offset, reverse);
      if Chars(m) && offset + 19 <= |buf| {
        CodesWritten(m, stamps, offset, reverse);
        StoredConcat(buf, offset + 2, Stamps(m, reverse), Codes(m, reverse));
      }
    }
  }

  /** Fields written after a stored 17-byte front were valid, and their image fit. */
  lemma TailValid(buf: seq<byte>, front: seq<byte>, values: Texts, offset: nat, reverse: bool)
    requires |front| == 17
    requires EncodeTail(Stored(buf, offset + 2, front), values, offset, 19, reverse).result.Ok?
    ensures AllFit(values) && NullsLast(values)
    ensures Fits(|buf|, offset + 19, StringsImage(values))
  {
    StringsAfterFront(buf, offset + 2, front, values, false);
  }

  /**
   * The thirty fields after a stored 17-byte front: on success the buffer
   * holds `idx - 4` followed by front and fields, and the index reported
   * is `idx`, the record's whole size.
   */
  lemma TailImage(buf: seq<byte>, front: seq<byte>, values: Texts, offset: nat, reverse: bool)
    requires |front| == 17 && AllFit(values) && offset + 2 <= |buf|
    requires EncodeTail(Stored(buf, offset + 2, front), values, offset, 19, reverse).result.Ok?
    ensures 19 + |StringsImage(values)| < 0x1_0000
    ensures EncodeTail(Stored(buf, offset + 2, front), values, offset, 19, reverse)
      == Step(Stored(buf, offset, U16Wire(15 + |StringsImage(values)|, reverse) + (front + StringsImage(values))),
              Ok(19 + |StringsImage(values)|))
  {
    StringsAfterFront(buf, offset + 2, front, values, false);
    StringsImageLength(values);
    LengthBeforeBody(buf, offset, front, StringsImage(values), reverse);
  }

  /** `idx - 4` written in front of the stored front and fields completes the record image. */
  lemma LengthBeforeBody(buf: seq<byte>, offset: nat, front: seq<byte>, fields: seq<byte>, reverse: bool)
    requires |front| == 17 && 19 + |fields| < 0x1_0000 && offset + 2 <= |buf|
    ensures FinishLength(Stored(buf, offset + 2, front + fields), 19 + |fields|, offset, reverse)
      == Step(Stored(buf, offset, U16Wire(15 + |fields|, reverse) + (front + fields)), Ok(19 + |fields|))
  {
    StoredFront(buf, offset, U16Wire(15 + |fields|, reverse), front + fields);
  }

  /** Once the head is written, SetBytes is the tail after the stored front. */
  lemma EncodeIsTail(m: Mir, buf: seq<byte>, offset: nat, reverse: bool)
    requires EncodeHead(m, buf, offset, reverse).result.Ok?
    ensures Chars(m)
    ensures Encode(m, buf, offset, reverse) == EncodeTail(Stored(buf, offset + 2, Front(m, reverse)), m.texts, offset, 19, reverse)
  {
    HeadWritten(m, buf, offset, reverse);
  }

  /** A writable value's image is 19 bytes plus Length()'s count of the fields, well inside a ushort. */
  lemma ImageSize(m: Mir, reverse: bool)
    requires Writable(m)
    ensures |Image(m, reverse)| == 19 + StringsLength(m.texts) < 0x1_0000
  {
    StringsImageLength(m.texts);
  }

  /** SetBytes succeeds only for writable values whose image fits. */
  lemma EncodeValid(m: Mir, buf: seq<byte>, offset: nat, reverse: bool)
    ensures Encode(m, buf, offset, reverse).result.Ok? ==> Writable(m) && offset + |Image(m, reverse)| <= |buf|
  {
    HeadWritten(m, buf, offset, reverse);
    if EncodeHead(m, buf, offset, reverse).result.Ok? && Encode(m, buf, offset, reverse).result.Ok? {
      EncodeIsTail(m, buf, offset, reverse);
      TailValid(buf, Front(m, reverse), m.texts, offset, reverse);
      ImageSize(m, reverse);
    }
  }

  /**
   * A successful SetBytes leaves the image at `offset`, every other byte
   * unchanged, and reports the image's size (which LengthIsImageSize shows
   * is Length()).
   */
  lemma EncodeImage(m: Mir, buf: seq<byte>, offset: nat, reverse: bool)
    requires Writable(m) && Encode(m, buf, offset, reverse).result.Ok?
    ensures Encode(m, buf, offset, reverse).buf == Stored(buf, offset, Image(m, reverse))
    ensures Encode(m, buf, offset, reverse).result.value == |Image(m, reverse)|
  {
    HeadWritten(m, buf, offset, reverse);
    EncodeIsTail(m, buf, offset, reverse);
    TailImage(buf, Front(m, reverse), m.texts, offset, reverse);
    ImageIsTail(m, reverse);
  }

  /** For a writable value Length() counts exactly the bytes SetBytes writes. */
  lemma LengthIsImageSize(m: Mir, reverse: bool)
    requires Writable(m)
    ensures Length(m) == Ok(|Image(m, reverse)|)
  {
    ImageSize(m, reverse);
  }

  lemma ImageIsTail(m: Mir, reverse: bool)
    requires Writable(m)
    ensures 19 + |StringsImage(m.texts)| < 0x1_0000
    ensures Image(m, reverse) == U16Wire(15 + |StringsImage(m.texts)|, reverse) + (Front(m, reverse) + StringsImage(m.texts))
  {
    StringsImageLength(m.texts);
  }

  /** A writable value whose image fits is written without error. */
  lemma EncodeSucceeds(m: Mir, buf: seq<byte>, offset: nat, reverse: bool)
    requires Writable(m) && offset + |Image(m, reverse)| <= |buf|
    ensures Encode(m, buf, offset, reverse).result.Ok?
  {
    HeadWritten(m, buf, offset, reverse);
    EncodeIsTail(m, buf, offset, reverse);
    ImageSize(m, reverse);
    TailOk(Stored(buf, offset + 2, Front(m, reverse)), m.texts, offset, reverse);
  }

  /** Valid fields whose image fits after the 19 head bytes are written, and so is `idx - 4`. */
  lemma TailOk(buf: seq<byte>, values: Texts, offset: nat, reverse: bool)
    requires AllFit(values) && NullsLast(values)
    requires offset + 19 + |StringsImage(values)| <= |buf|
    ensures EncodeTail(buf, values, offset, 19, reverse).result.Ok?
  {
    PutStringsOk(buf, values, offset + 19);
    PutStringsImage(buf, values, false, offset + 19);
    StringsImageLength(values);
  }

  /** Past the four header bytes lie the fields. */
  lemma AfterHeader(m: Mir, reverse: bool)
    requires Writable(m)
    ensures Image(m, reverse)[4..] == Fields(m, reverse)
  {
  }

  /** The fixed fields read back from the front of any data that starts with them. */
  lemma ReadFixed(m: Mir, reverse: bool, rest: seq<byte>)
    requires Chars(m)
    ensures UInt32At(Fixed(m, reverse) + rest, 0, reverse) == Read(m.setupTime, 4)
    ensures UInt32At(Fixed(m, reverse) + rest, 4, reverse) == Read(m.startTime, 8)
    ensures (Fixed(m, reverse) + rest)[8] == m.stationNumber
    ensures (Fixed(m, reverse) + rest)[9] == m.testModeCode as int
    ensures (Fixed(m, reverse) + rest)[10] == m.lotRetestCode as int
    ensures (Fixed(m, reverse) + rest)[11] == m.dataProtectionCode as int
    ensures UInt16At(Fixed(m, reverse) + rest, 12, reverse) == Ok(Read(m.burnInMinutes, 14))
    ensures (Fixed(m, reverse) + rest)[14] == m.commandModeCode as int
  {
    var d := Fixed(m, reverse) + rest;
    assert d[0..4] == U32Wire(m.setupTime, reverse);
    assert d[4..8] == U32Wire(m.startTime, reverse);
    assert d[12..14] == U16Wire(m.burnInMinutes, reverse);
    ReadU32Wire(d, 0, m.setupTime, reverse);
    ReadU32Wire(d, 4, m.startTime, reverse);
    ReadU16Wire(d, 12, m.burnInMinutes, reverse);
  }

  /**
   * Written with the same byte order it is read with, an MIR whose fields
   * are ASCII parses back to itself; the four codes are read as raw bytes,
   * so any byte-sized char survives.
   */
  lemma RoundTrip(m: Mir, reverse: bool)
    requires Writable(m) && AllAscii(m.texts)
    ensures Parse(Image(m, reverse)[4..], 0, reverse) == Ok(m)
  {
    AfterHeader(m, reverse);
    ReadFixed(m, reverse, StringsImage(m.texts));
    StringsRoundTrip(Fixed(m, reverse), m.texts);
  }

  /**
   * REC_LEN holds `idx - 4`, the record's size without its four header
   * bytes, as the STDF V4 standard defines it.
   */
  lemma LengthFieldIsBodySize(m: Mir, reverse: bool)
    requires Writable(m)
    ensures UInt16At(Image(m, reverse), 0, reverse) == Ok(Read(|Image(m, reverse)| - 4, 2))
  {
    ImageSize(m, reverse);
    assert Image(m, reverse)[0..2] == U16Wire(15 + |StringsImage(m.texts)|, reverse);
    ReadU16Wire(Image(m, reverse), 0, 15 + |StringsImage(m.texts)|, reverse);
  }

  /** Whatever the data, the fields Parse returns hold no value after a null. */
  lemma DecodedNullsLast(data: seq<byte>, offset: nat, reverse: bool)
    ensures Parse(data, offset, reverse).Ok? ==> NullsLast(Parse(data, offset, reverse).value.texts)
  {
    var setup := UInt32At(data, offset, reverse);
    var start := UInt32At(data, setup.next, reverse);
    ReadStringsNullsLast(data, start.next + 7, TextCount);
  }

  /** Length() throws exactly when the fields' count takes the total past 65535. */
  lemma LengthLimit(m: Mir)
    ensures Length(m).Err? <==> StringsLength(m.texts) > 0xFFFF - 19
    ensures Length(m).Err? ==> Length(m).error == RecordTooLong
  {
  }
}
