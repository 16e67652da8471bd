/**
 * TSR, the Test Synopsis Record (10, 30): head, site, test type, test
 * number, three counts, three C*n names, the optional-data flag and five
 * optional R*4 statistics. Its reader tests each flag bit with
 * `(flag & (1 << k)) == 1`, which only bit 0 can pass; its SetBytes never
 * writes the test number, writes the names without length bytes (a null
 * name as one 0 byte), stops after the flag, stores the index reached as
 * REC_LEN and reports two more.
 */
module Tsr {
  import opened Primitives
  import opened ValueConverter
  import opened RecordBase

  const RecordType: byte := 10
  const RecordSubtype: byte := 30

  datatype Tsr = Tsr(
    headNumber: byte,
    siteNumber: byte,
    testType: char,
    testNumber: u32,
    executions: u32,
    failures: u32,
    alarms: u32,
    testName: Option<string>,
    sequencerName: Option<string>,
    testLabel: Option<string>,
    optionalDataFlag: byte,
    averageTime: Option<Float32Bits>,
    minResult: Option<Float32Bits>,
    maxResult: Option<Float32Bits>,
    sum: Option<Float32Bits>,
    sumOfSquares: Option<Float32Bits>)

  /** The three C*n fields in file order. */
  function Texts(t: Tsr): (s: seq<Option<string>>)
    ensures |s| == 3
  {
    [t.testName, t.sequencerName, t.testLabel]
  }

  /** The flag byte and the five statistics, as the reader leaves them. */
  datatype Optional = Optional(
    flag: byte,
    averageTime: Option<Float32Bits>,
    minResult: Option<Float32Bits>,
    maxResult: Option<Float32Bits>,
    sum: Option<Float32Bits>,
    sumOfSquares: Option<Float32Bits>)

  // ------------------------------------------------------------ reading

  /**
   * Parse: head, site and type are indexed (IndexOutOfRange; the type is
   * a raw byte-to-char cast), the four U*4 read 0 past the end, then the
   * three names and the optional part.
   */
  function Parse(data: seq<byte>, offset: nat, reverse: bool): (r: Result<Tsr>)
  {
    var head :- ByteAt(data, offset);
    var site :- ByteAt(data, offset + 1);
    var kind :- CharAt(data, offset + 2);
    var counts := CountsAt(data, offset + 3, reverse);
    var texts :- ReadStrings(data, counts.next, 3);
    Ok(Assemble(head, site, kind, counts.value, texts.value, OptionalAt(data, texts.next, reverse)))
  }

  /** The four GetUInt32AndUpdateOffset calls in a row: test number, executions, failures, alarms. */
  function CountsAt(data: seq<byte>, at: nat, reverse: bool): (r: Read<seq<u32>>)
    ensures |r.value| == 4
  {
    var number := UInt32At(data, at, reverse);
    var executions := UInt32At(data, number.next, reverse);
    var failures := UInt32At(data, executions.next, reverse);
    var alarms := UInt32At(data, failures.next, reverse);
    Read([number.value, executions.value, failures.value, alarms.value], alarms.next)
  }

  /** The value built from the fields in file order. */
  function Assemble(head: byte, site: byte, kind: char, c: seq<u32>, s: seq<Option<string>>, o: Optional): (t: Tsr)
    requires |c| == 4 && |s| == 3
    ensures Texts(t) == s
  {
    Tsr(head, site, kind, c[0], c[1], c[2], c[3], s[0], s[1], s[2],
        o.flag, o.averageTime, o.minResult, o.maxResult, o.sum, o.sumOfSquares)
  }

  /** `(flag & (1 << k)) == 1`, the reader's test of flag bit `k`. */
  predicate FlagTest(flag: byte, k: nat)
    requires k < 8
  {
    (flag as bv8) & ((1 as bv8) << k) == 1
  }

  /** A statistic read only when its test passes; otherwise it stays null. */
  function ReadIf(test: bool, data: seq<byte>, at: nat, reverse: bool): (r: Read<Option<Float32Bits>>)
    ensures !test ==> r == Read(None, at)
  {
    if test then NullableSingleAt(data, at, reverse) else Read(None, at)
  }

  /**
   * After the names: flag 0 and no statistics when the data has ended;
   * else the flag byte and each statistic behind its bit test, in the
   * source's order (average on bit 2, minimum on bit 0, maximum on bit 1,
   * sum on bit 4, sum of squares on bit 5).
   */
  function OptionalAt(data: seq<byte>, at: nat, reverse: bool): (o: Optional)
  {
    if at >= |data| then Optional(0, None, None, None, None, None)
    else
      var flag := data[at];
      var average := ReadIf(FlagTest(flag, 2), data, at + 1, reverse);
      var min := ReadIf(FlagTest(flag, 0), data, average.next, reverse);
      var max := ReadIf(FlagTest(flag, 1), data, min.next, reverse);
      var sum := ReadIf(FlagTest(flag, 4), data, max.next, reverse);
      var squares := ReadIf(FlagTest(flag, 5), data, sum.next, reverse);
      Optional(flag, average.value, min.value, max.value, sum.value, squares.value)
  }

  /** The bit test passes only for bit 0, and then exactly when the flag is odd. */
  lemma FlagTestBitZero(flag: byte, k: nat)
    requires k < 8
    ensures FlagTest(flag, k) <==> k == 0 && flag % 2 == 1
  {
    if k == 0 {
      assert (flag as bv8) & 1 == (flag % 2) as bv8;
    } else {
      assert ((1 as bv8) << k) & 1 == 0;
    }
  }

  /**
   * Whatever the data, Parse leaves the average, maximum, sum and sum of
   * squares null; only the minimum can be read, and only behind an odd
   * flag that is present in the data.
   */
  lemma OnlyMinimumRead(data: seq<byte>, offset: nat, reverse: bool)
    ensures var r := Parse(data, offset, reverse);
      r.Ok? ==>
        && r.value.averageTime.None? && r.value.maxResult.None?
        && r.value.sum.None? && r.value.sumOfSquares.None?
        && (r.value.minResult.Some? ==> r.value.optionalDataFlag % 2 == 1)
  {
    var r := Parse(data, offset, reverse);
    if r.Ok? {
      var at := ReadStrings(data, CountsAt(data, offset + 3, reverse).next, 3).value.next;
      OptionalShape(data, at, reverse);
    }
  }

  lemma OptionalShape(data: seq<byte>, at: nat, reverse: bool)
    ensures var o := OptionalAt(data, at, reverse);
      && o.averageTime.None? && o.maxResult.None? && o.sum.None? && o.sumOfSquares.None?
      && (o.minResult.Some? ==> o.flag % 2 == 1)
      && (at >= |data| ==> o.flag == 0 && o.minResult.None?)
  {
    if at < |data| {
      var flag := data[at];
      FlagTestBitZero(flag, 0);
      FlagTestBitZero(flag, 1);
      FlagTestBitZero(flag, 2);
      FlagTestBitZero(flag, 4);
      FlagTestBitZero(flag, 5);
    }
  }

  /** Whatever the data, the names Parse returns hold no value after a null. */
  lemma DecodedNullsLast(data: seq<byte>, offset: nat, reverse: bool)
    ensures Parse(data, offset, reverse).Ok? ==> NullsLast(Texts(Parse(data, offset, reverse).value))
  {
    ReadStringsNullsLast(data, CountsAt(data, offset + 3, reverse).next, 3);
  }

  // ------------------------------------------------------------ Length()

  /** One name's share of Length(): a null adds nothing, over 255 throws, else a length byte and the characters. */
  function AddField(acc: u16, v: Option<string>): (r: Result<u16>)
  {
    if v.None? then Ok(acc)
    else if |v.value| > 255 then Err(StringTooLong)
    else Ok(AddUshort(acc, |v.value| + 1))
  }

  /** Length(): 40, plus each name's share, checked in field order. */
  function Length(t: Tsr): (r: Result<u16>)
  {
    var name :- AddField(40, t.testName);
    var sequencer :- AddField(name, t.sequencerName);
    AddField(sequencer, t.testLabel)
  }

  /** The names Length() and SetBytes accept. */
  predicate Fit(v: Option<string>)
  {
    v.Some? ==> |v.value| <= 255
  }

  /**
   * Length() throws exactly when a name is over 255 characters, and
   * otherwise is 40 plus a length byte and the characters per present
   * name, without wrapping.
   */
  lemma LengthCounts(t: Tsr)
    ensures Length(t).Ok? <==> Fit(t.testName) && Fit(t.sequencerName) && Fit(t.testLabel)
    ensures Length(t).Err? ==> Length(t).error == StringTooLong
    ensures Length(t).Ok? ==> Length(t).value == 40 + CnLength(t.testName) + CnLength(t.sequencerName) + CnLength(t.testLabel)
  {
    if Fit(t.testName) && Fit(t.sequencerName) && Fit(t.testLabel) {
      AddUshortExact(40, CnLength(t.testName));
      var a := 40 + CnLength(t.testName);
      AddUshortExact(a, CnLength(t.sequencerName));
      AddUshortExact(a + CnLength(t.sequencerName), CnLength(t.testLabel));
    }
  }

  // ------------------------------------------------------------ SetBytes

  /**
   * SetBytes up to the names: four direct stores, the converted type
   * char, and the three counts from `offset + 7` (the test number is
   * skipped); the index is then 19.
   */
  function EncodeFixed(t: Tsr, buf: seq<byte>, offset: nat, reverse: bool): (s: Step<nat>)
  {
    var front :- Put(buf, offset + 2, [RecordType, RecordSubtype, t.headNumber, t.siteNumber], 6);
    var kind :- PutConverted(front.buf, t.testType, offset + 6);
    var executions :- PutU32(kind.buf, t.executions, offset + 7, reverse);
    var failures :- PutU32(executions.buf, t.failures, offset + 11, reverse);
    var alarms :- PutU32(failures.buf, t.alarms, offset + 15, reverse);
    Yield(alarms.buf, 19)
  }

  /**
   * `idx += WriteAsciiString(v, dest, offset + idx)` with the unprefixed
   * writer. The ushort index cannot wrap here: each name adds at most 255
   * (NamesBound).
   */
  function AddRaw(buf: seq<byte>, v: Option<string>, offset: nat, idx: nat): (s: Step<nat>)
    ensures |s.buf| == |buf|
  {
    var w :- PutRawString(buf, v, offset + idx);
    Yield(w.buf, idx + w.value)
  }

  /**
   * The names in order through the unprefixed writer, each from the index
   * the previous one reached; it reports the index reached. SetBytes
   * passes the three names and index 19.
   */
  function EncodeNames(names: seq<Option<string>>, buf: seq<byte>, offset: nat, idx: nat): (s: Step<nat>)
    ensures |s.buf| == |buf|
    decreases |names|
  {
    if names == [] then Yield(buf, idx)
    else
      var w :- AddRaw(buf, names[0], offset, idx);
      EncodeNames(names[1..], w.buf, offset, w.value)
  }

  /**
   * The flag byte at the index, then the index past it as REC_LEN at
   * `offset`; it reports that index plus the two bytes SetUint16 adds,
   * both additions on the ushort index.
   */
  function EncodeTail(flag: byte, buf: seq<byte>, offset: nat, idx: nat, reverse: bool): (s: Step<nat>)
  {
    var stored :- Put(buf, offset + idx, [flag], 1);
    var next := (idx + 1) % 0x1_0000;
    var len :- PutU16(stored.buf, next, offset, reverse);
    Yield(len.buf, (next + len.value) % 0x1_0000)
  }

  /** SetBytes up to the flag: the fixed fields, then the names from index 19. */
  function EncodeBody(t: Tsr, buf: seq<byte>, offset: nat, reverse: bool): (s: Step<nat>)
  {
    var fixed :- EncodeFixed(t, buf, offset, reverse);
    EncodeNames(Texts(t), fixed.buf, offset, 19)
  }

  function Encode(t: Tsr, buf: seq<byte>, offset: nat, reverse: bool): (s: Step<nat>)
  {
    var body :- EncodeBody(t, buf, offset, reverse);
    EncodeTail(t.optionalDataFlag, body.buf, offset, body.value, reverse)
  }

  method WriteFixed(t: Tsr, conv: StdfValueConverter, dest: array<byte>, offset: nat) returns (r: Result<nat>)
    modifies dest
    ensures Step(dest[..], r) == EncodeFixed(t, old(dest[..]), offset, conv.reverseBytesOnWrite)
  {
    var ok := StoreBytes([RecordType, RecordSubtype, t.headNumber, t.siteNumber], dest, offset + 2);
    if !ok {
      return Err(IndexOutOfRange);
    }
    var n :- StoreConverted(t.testType, dest, offset + 6);
    n :- conv.SetUint32(t.executions, dest, offset + 7);
    n :- conv.SetUint32(t.failures, dest, offset + 11);
    n :- conv.SetUint32(t.alarms, dest, offset + 15);
    r := Ok(19);
  }

  /** `idx += WriteAsciiString(v, dest, offset + idx)`: one name, and the index past it. */
  method WriteName(v: Option<string>, conv: StdfValueConverter, dest: array<byte>, offset: nat, idx: nat) returns (r: Result<nat>)
    modifies dest
    ensures Step(dest[..], r) == AddRaw(old(dest[..]), v, offset, idx)
  {
    var w :- conv.WriteRawString(v, dest, offset + idx);
    r := Ok(idx + w);
  }

  method WriteTexts(t: Tsr, conv: StdfValueConverter, dest: array<byte>, offset: nat) returns (r: Result<nat>)
    modifies dest
    ensures Step(dest[..], r) == EncodeNames(Texts(t), old(dest[..]), offset, 19)
  {
    ghost var names := Texts(t);
    assert names[1..] == [t.sequencerName, t.testLabel] && names[1..][1..] == [t.testLabel] && [t.testLabel][1..] == [];
    ghost var b0 := dest[..];
    var idx :- WriteName(t.testName, conv, dest, offset, 19);
    assert EncodeNames(names, b0, offset, 19) == EncodeNames(names[1..], dest[..], offset, idx);
    ghost var b1 := dest[..];
    var i1 := idx;
    idx :- WriteName(t.sequencerName, conv, dest, offset, idx);
    assert EncodeNames(names[1..], b1, offset, i1) == EncodeNames([t.testLabel], dest[..], offset, idx);
    r := WriteName(t.testLabel, conv, dest, offset, idx);
    assert r.Ok? ==> EncodeNames([], dest[..], offset, r.value) == Step(dest[..], r);
  }

  method WriteTail(flag: byte, conv: StdfValueConverter, dest: array<byte>, offset: nat, idx: nat) returns (r: Result<nat>)
    modifies dest
    ensures Step(dest[..], r) == EncodeTail(flag, old(dest[..]), offset, idx, conv.reverseBytesOnWrite)
  {
    var ok := StoreBytes([flag], dest, offset + idx);
    if !ok {
      return Err(IndexOutOfRange);
    }
    var next := (idx + 1) % 0x1_0000;
    var n :- conv.SetUint16(next, dest, offset);
    r := Ok((next + n) % 0x1_0000);
  }

  method SetBytes(t: Tsr, conv: StdfValueConverter, dest: array<byte>, offset: nat) returns (r: Result<nat>)
    modifies dest
    ensures Step(dest[..], r) == Encode(t, old(dest[..]), offset, conv.reverseBytesOnWrite)
  {
    var idx :- WriteFixed(t, conv, dest, offset);
    idx :- WriteTexts(t, conv, dest, offset);
    r := WriteTail(t.optionalDataFlag, conv, dest, offset, idx);
  }

  // ------------------------------------------------- what SetBytes writes

  /** The values SetBytes accepts: a byte-sized type char and names of at most 255. */
  predicate Writable(t: Tsr)
  {
    t.testType as int <= 0xFF && AllFit(Texts(t))
  }

  /** What the unprefixed writer stores for one name: its characters, or one 0 byte for null. */
  function RawField(v: Option<string>): (b: seq<byte>)
    ensures |b| == if v.None? then 1 else |v.value|
  {
    if v.None? then [0] else AsciiEncode(v.value)
  }

  /** What the unprefixed writer stores for several names: their raw bytes, one after another. */
  function RawNames(names: seq<Option<string>>): (b: seq<byte>)
    ensures AllFit(names) ==> |b| <= 255 * |names|
    decreases |names|
  {
    if names == [] then [] else RawField(names[0]) + RawNames(names[1..])
  }

  /** The raw bytes of the three names. */
  function RawTexts(t: Tsr): seq<byte>
  {
    RawNames(Texts(t))
  }

  /** The three names' raw bytes, field by field. */
  lemma RawTextsFields(t: Tsr)
    ensures RawTexts(t) == RawField(t.testName) + RawField(t.sequencerName) + RawField(t.testLabel)
    ensures AllFit(Texts(t)) <==> Fit(t.testName) && Fit(t.sequencerName) && Fit(t.testLabel)
  {
    var names := Texts(t);
    assert names[1..] == [t.sequencerName, t.testLabel];
    assert names[1..][1..] == [t.testLabel] && [t.testLabel][1..] == [];
    var a, b, c := RawField(t.testName), RawField(t.sequencerName), RawField(t.testLabel);
    assert RawNames([t.testLabel]) == c;
    assert RawNames(names[1..]) == b + c;
    assert RawNames(names) == a + (b + c) == a + b + c;
    assert AllFit([t.testLabel]) == Fit(t.testLabel);
  }

  /** The header pair, head, site, type and the three counts: 17 bytes from `offset + 2`. */
  function Front(t: Tsr, reverse: bool): (f: seq<byte>)
    requires t.testType as int <= 0xFF
    ensures |f| == 17
  {
    [RecordType, RecordSubtype, t.headNumber, t.siteNumber, t.testType as int]
    + U32Wire(t.executions, reverse) + U32Wire(t.failures, reverse) + U32Wire(t.alarms, reverse)
  }

  /** The bytes SetBytes leaves at `offset`: REC_LEN holding the image's own size, the front, the names and the flag. */
  function Image(t: Tsr, reverse: bool): (b: seq<byte>)
    requires Writable(t)
    ensures |b| == 20 + |RawTexts(t)|
  {
    U16Wire(20 + |RawTexts(t)|, reverse) + (Front(t, reverse) + (RawTexts(t) + [t.optionalDataFlag]))
  }

  /** A successful unprefixed write stores the field's raw bytes and reports their number. */
  lemma RawFieldOk(buf: seq<byte>, v: Option<string>, at: nat)
    ensures PutRawString(buf, v, at).result.Ok? <==> Fit(v) && Fits(|buf|, at, RawField(v))
    ensures PutRawString(buf, v, at).result.Ok? ==> PutRawString(buf, v, at) == Step(Stored(buf, at, RawField(v)), Ok(|RawField(v)|))
  {
  }

  lemma FixedFits(t: Tsr, buf: seq<byte>, offset: nat, reverse: bool)
    ensures EncodeFixed(t, buf, offset, reverse).result.Ok? <==> t.testType as int <= 0xFF && offset + 19 <= |buf|
    ensures |EncodeFixed(t, buf, offset, reverse).buf| == |buf|
  {
  }

  lemma FixedWritten(t: Tsr, buf: seq<byte>, offset: nat, reverse: bool)
    requires t.testType as int <= 0xFF && offset + 19 <= |buf|
    ensures EncodeFixed(t, buf, offset, reverse) == Step(Stored(buf, offset + 2, Front(t, reverse)), Ok(19))
  {
    var h: seq<byte> := [RecordType, RecordSubtype, t.headNumber, t.siteNumber];
    var p: seq<byte> := [t.testType as int];
    var w1, w2, w3 := U32Wire(t.executions, reverse), U32Wire(t.failures, reverse), U32Wire(t.alarms, reverse);
    StoredConcat(buf, offset + 2, h, p);
    StoredConcat(buf, offset + 2, h + p, w1);
    StoredConcat(buf, offset + 2, h + p + w1, w2);
    StoredConcat(buf, offset + 2, h + p + w1 + w2, w3);
    assert h + p + w1 + w2 + w3 == Front(t, reverse);
  }

  /** One name: written exactly when it is at most 255 and its raw bytes fit; it then advances the index by their number. */
  lemma AddRawOk(buf: seq<byte>, v: Option<string>, offset: nat, idx: nat)
    ensures AddRaw(buf, v, offset, idx).result.Ok? <==> Fit(v) && Fits(|buf|, offset + idx, RawField(v))
    ensures AddRaw(buf, v, offset, idx).result.Ok? ==>
      AddRaw(buf, v, offset, idx) == Step(Stored(buf, offset + idx, RawField(v)), Ok(idx + |RawField(v)|))
  {
    RawFieldOk(buf, v, offset + idx);
  }

  lemma AddRawWritten(buf: seq<byte>, v: Option<string>, offset: nat, idx: nat)
    requires Fit(v) && offset + idx + |RawField(v)| <= |buf|
    ensures AddRaw(buf, v, offset, idx) == Step(Stored(buf, offset + idx, RawField(v)), Ok(idx + |RawField(v)|))
  {
    AddRawOk(buf, v, offset, idx);
  }

  /** Names written leave the index past their raw bytes, and each was at most 255. */
  lemma {:induction false} NamesOk(names: seq<Option<string>>, buf: seq<byte>, offset: nat, idx: nat)
    ensures EncodeNames(names, buf, offset, idx).result.Ok? ==> AllFit(names)
    ensures EncodeNames(names, buf, offset, idx).result.Ok? ==>
      EncodeNames(names, buf, offset, idx).result.value == idx + |RawNames(names)|
    decreases |names|
  {
    if names != [] {
      var w := AddRaw(buf, names[0], offset, idx);
      AddRawOk(buf, names[0], offset, idx);
      if w.result.Ok? {
        NamesOk(names[1..], w.buf, offset, w.result.value);
      }
    }
  }

  /** The index after the names is at most 255 per name past where they started, so it never wraps. */
  lemma NamesBound(names: seq<Option<string>>, buf: seq<byte>, offset: nat, idx: nat)
    ensures EncodeNames(names, buf, offset, idx).result.Ok? ==>
      EncodeNames(names, buf, offset, idx).result.value <= idx + 255 * |names|
  {
    NamesOk(names, buf, offset, idx);
  }

  /** The first name that fits goes to `offset + idx`; the rest follow from the index past it. */
  lemma NameWritten(names: seq<Option<string>>, buf: seq<byte>, offset: nat, idx: nat)
    requires names != [] && Fit(names[0]) && offset + idx + |RawField(names[0])| <= |buf|
    ensures EncodeNames(names, buf, offset, idx)
      == EncodeNames(names[1..], Stored(buf, offset + idx, RawField(names[0])), offset, idx + |RawField(names[0])|)
  {
    AddRawWritten(buf, names[0], offset, idx);
  }

  /** Names that fit leave their raw bytes from `offset + idx`, every other byte unchanged. */
  lemma NamesWritten(names: seq<Option<string>>, buf: seq<byte>, offset: nat, idx: nat)
    requires AllFit(names) && offset + idx + |RawNames(names)| <= |buf|
    ensures EncodeNames(names, buf, offset, idx) == Step(Stored(buf, offset + idx, RawNames(names)), Ok(idx + |RawNames(names)|))
  {
    NamesInTurn(names, buf, offset, idx);
    StoredInTurn(names, buf, offset + idx);
  }

  /** The names' raw bytes stored one after another. */
  function StoredNames(buf: seq<byte>, at: nat, names: seq<Option<string>>): (r: seq<byte>)
    ensures |r| == |buf|
    decreases |names|
  {
    if names == [] then buf
    else StoredNames(Stored(buf, at, RawField(names[0])), at + |RawField(names[0])|, names[1..])
  }

  lemma {:induction false} NamesInTurn(names: seq<Option<string>>, buf: seq<byte>, offset: nat, idx: nat)
    requires AllFit(names) && offset + idx + |RawNames(names)| <= |buf|
    ensures EncodeNames(names, buf, offset, idx) == Step(StoredNames(buf, offset + idx, names), Ok(idx + |RawNames(names)|))
    decreases |names|
  {
    if names != [] {
      var a := RawField(names[0]);
      NamesStored(names);
      NameWritten(names, buf, offset, idx);
      NamesInTurn(names[1..], Stored(buf, offset + idx, a), offset, idx + |a|);
    }
  }

  lemma {:induction false} StoredInTurn(names: seq<Option<string>>, buf: seq<byte>, at: nat)
    ensures StoredNames(buf, at, names) == Stored(buf, at, RawNames(names))
    decreases |names|
  {
    if names != [] {
      var a := RawField(names[0]);
      StoredInTurn(names[1..], Stored(buf, at, a), at + |a|);
      StoredConcat(buf, at, a, RawNames(names[1..]));
    }
  }

  /** The first name and the rest: they fit when all do, and their raw bytes are the first's and then the rest's. */
  lemma NamesStored(names: seq<Option<string>>)
    requires names != []
    ensures AllFit(names) <==> Fit(names[0]) && AllFit(names[1..])
    ensures RawNames(names) == RawField(names[0]) + RawNames(names[1..])
  {
  }

  /** SetBytes succeeds exactly for a writable value whose image fits. */
  lemma EncodeValid(t: Tsr, buf: seq<byte>, offset: nat, reverse: bool)
    ensures Encode(t, buf, offset, reverse).result.Ok? <==> Writable(t) && offset + |Image(t, reverse)| <= |buf|
  {
    if Writable(t) && offset + |Image(t, reverse)| <= |buf| {
      EncodeWritten(t, buf, offset, reverse);
    } else {
      FixedFits(t, buf, offset, reverse);
      var fixed := EncodeFixed(t, buf, offset, reverse);
      if fixed.result.Ok? {
        NamesOk(Texts(t), fixed.buf, offset, 19);
        RawTextsFields(t);
      }
    }
  }

  /**
   * A successful SetBytes leaves the image at `offset`, every other byte
   * unchanged, and reports two more than the image's size.
   */
  lemma EncodeWritten(t: Tsr, buf: seq<byte>, offset: nat, reverse: bool)
    requires Writable(t) && offset + |Image(t, reverse)| <= |buf|
    ensures Encode(t, buf, offset, reverse) == Step(Stored(buf, offset, Image(t, reverse)), Ok(|Image(t, reverse)| + 2))
  {
    var f, rt := Front(t, reverse), RawTexts(t);
    var mid, idx := Stored(buf, offset + 2, f + rt), 19 + |rt|;
    BodyWritten(t, buf, offset, reverse);
    TailWritten(t.optionalDataFlag, mid, offset, idx, reverse);
    ImageStored(t, buf, offset, reverse, idx);
  }

  /** The body, then the flag after it, then REC_LEN in front: together, the image. */
  lemma ImageStored(t: Tsr, buf: seq<byte>, offset: nat, reverse: bool, idx: nat)
    requires Writable(t) && offset + |Image(t, reverse)| <= |buf| && idx == 19 + |RawTexts(t)|
    ensures Stored(Stored(Stored(buf, offset + 2, Front(t, reverse) + RawTexts(t)), offset + idx, [t.optionalDataFlag]),
      offset, U16Wire(idx + 1, reverse)) == Stored(buf, offset, Image(t, reverse))
    ensures |Image(t, reverse)| + 2 == idx + 3
  {
    var f, rt, flag := Front(t, reverse), RawTexts(t), [t.optionalDataFlag];
    StoredConcat(buf, offset + 2, f + rt, flag);
    assert f + rt + flag == f + (rt + flag);
    StoredFront(buf, offset, U16Wire(20 + |rt|, reverse), f + (rt + flag));
  }

  /** Up to the flag, SetBytes leaves the front and the names' raw bytes from `offset + 2`. */
  lemma BodyWritten(t: Tsr, buf: seq<byte>, offset: nat, reverse: bool)
    requires Writable(t) && offset + |Image(t, reverse)| <= |buf|
    ensures EncodeBody(t, buf, offset, reverse) == Step(Stored(buf, offset + 2, Front(t, reverse) + RawTexts(t)), Ok(19 + |RawTexts(t)|))
  {
    var f := Front(t, reverse);
    FixedWritten(t, buf, offset, reverse);
    NamesWritten(Texts(t), Stored(buf, offset + 2, f), offset, 19);
    StoredConcat(buf, offset + 2, f, RawTexts(t));
  }

  lemma TailWritten(flag: byte, buf: seq<byte>, offset: nat, idx: nat, reverse: bool)
    requires idx + 3 < 0x1_0000 && offset + idx + 1 <= |buf| && 2 <= idx
    ensures EncodeTail(flag, buf, offset, idx, reverse)
      == Step(Stored(Stored(buf, offset + idx, [flag]), offset, U16Wire(idx + 1, reverse)), Ok(idx + 3))
  {
    UshortFits(idx + 1);
    UshortFits(idx + 3);
  }

  /**
   * The test number never reaches the bytes: two values that differ only
   * in it are written identically, so at most one of them can read back.
   */
  lemma TestNumberLost(t: Tsr, n: u32, reverse: bool)
    requires Writable(t) && n != t.testNumber
    ensures Image(t.(testNumber := n), reverse) == Image(t, reverse)
    ensures Parse(Image(t, reverse)[4..], 0, reverse) != Ok(t)
      || Parse(Image(t.(testNumber := n), reverse)[4..], 0, reverse) != Ok(t.(testNumber := n))
  {
    assert t.(testNumber := n) != t;
  }

  /**
   * REC_LEN holds the image's size, header included; the reported value
   * is two more than the bytes written; and Length() exceeds both.
   */
  lemma SizesDisagree(t: Tsr, reverse: bool)
    requires Writable(t)
    ensures UInt16At(Image(t, reverse), 0, reverse) == Ok(Read(|Image(t, reverse)|, 2))
    ensures Length(t).Ok? && Length(t).value > |Image(t, reverse)| + 2
  {
    var n := |Image(t, reverse)|;
    assert Image(t, reverse)[0..2] == U16Wire(n, reverse);
    ReadU16Wire(Image(t, reverse), 0, n, reverse);
    LengthCounts(t);
    RawTextsFields(t);
  }

  // ------------------------------------------- the intended flag test

  /** `(flag & (1 << k)) != 0`: flag bit `k` is set. */
  predicate FlagBit(flag: byte, k: nat)
    requires k < 8
  {
    (flag as bv8) & ((1 as bv8) << k) != 0
  }

  /** The optional part with each statistic behind its own flag bit, in the source's order. */
  function IntendedOptionalAt(data: seq<byte>, at: nat, reverse: bool): (o: Optional)
  {
    if at >= |data| then Optional(0, None, None, None, None, None)
    else
      var flag := data[at];
      var average := ReadIf(FlagBit(flag, 2), data, at + 1, reverse);
      var min := ReadIf(FlagBit(flag, 0), data, average.next, reverse);
      var max := ReadIf(FlagBit(flag, 1), data, min.next, reverse);
      var sum := ReadIf(FlagBit(flag, 4), data, max.next, reverse);
      var squares := ReadIf(FlagBit(flag, 5), data, sum.next, reverse);
      Optional(flag, average.value, min.value, max.value, sum.value, squares.value)
  }

  /** The statistics present exactly where their flag bits are set. */
  predicate FlagsAgree(o: Optional)
  {
    && (o.averageTime.Some? <==> FlagBit(o.flag, 2))
    && (o.minResult.Some? <==> FlagBit(o.flag, 0))
    && (o.maxResult.Some? <==> FlagBit(o.flag, 1))
    && (o.sum.Some? <==> FlagBit(o.flag, 4))
    && (o.sumOfSquares.Some? <==> FlagBit(o.flag, 5))
  }

  /** One statistic's bytes: its R*4 pattern when present, nothing when absent. */
  function StatImage(v: Option<Float32Bits>, reverse: bool): (b: seq<byte>)
    ensures |b| == if v.None? then 0 else 4
  {
    if v.None? then [] else U32Wire(v.value, reverse)
  }

  /** The flag byte, then the present statistics in the order the reader takes them. */
  function OptionalImage(o: Optional, reverse: bool): (b: seq<byte>)
  {
    [o.flag] + (StatImage(o.averageTime, reverse) + (StatImage(o.minResult, reverse)
      + (StatImage(o.maxResult, reverse) + (StatImage(o.sum, reverse) + StatImage(o.sumOfSquares, reverse)))))
  }

  /** A statistic at the front of the remaining data reads back when its bit agrees, leaving the rest. */
  lemma StatFront(data: seq<byte>, at: nat, bit: bool, v: Option<Float32Bits>, reverse: bool, rest: seq<byte>)
    requires at <= |data| && data[at..] == StatImage(v, reverse) + rest && (bit <==> v.Some?)
    ensures ReadIf(bit, data, at, reverse) == Read(v, at + |StatImage(v, reverse)|)
    ensures data[at + |StatImage(v, reverse)|..] == rest
  {
    if v.Some? {
      ReadU32Front(data, at, v.value, reverse, rest);
    }
  }

  /** With the intended bit test, an optional part whose flag agrees with its statistics reads back exactly. */
  lemma IntendedOptionalRoundTrip(o: Optional, reverse: bool)
    requires FlagsAgree(o)
    ensures IntendedOptionalAt(OptionalImage(o, reverse), 0, reverse) == o
  {
    var a, m, x, u, q := StatImage(o.averageTime, reverse), StatImage(o.minResult, reverse),
      StatImage(o.maxResult, reverse), StatImage(o.sum, reverse), StatImage(o.sumOfSquares, reverse);
    var d := OptionalImage(o, reverse);
    assert d[1..] == a + (m + (x + (u + q)));
    StatFront(d, 1, FlagBit(o.flag, 2), o.averageTime, reverse, m + (x + (u + q)));
    var i1 := 1 + |a|;
    StatFront(d, i1, FlagBit(o.flag, 0), o.minResult, reverse, x + (u + q));
    var i2 := i1 + |m|;
    StatFront(d, i2, FlagBit(o.flag, 1), o.maxResult, reverse, u + q);
    var i3 := i2 + |x|;
    StatFront(d, i3, FlagBit(o.flag, 4), o.sum, reverse, q);
    var i4 := i3 + |u|;
    assert d[i4..] == q + [];
    StatFront(d, i4, FlagBit(o.flag, 5), o.sumOfSquares, reverse, []);
  }

  /** The intended test and the source's agree on bit 0 only; on every other bit the source never reads. */
  lemma FlagTestsDiffer(flag: byte, k: nat)
    requires k < 8
    ensures k == 0 ==> (FlagTest(flag, k) <==> FlagBit(flag, k))
    ensures k != 0 ==> !FlagTest(flag, k)
    ensures FlagBit(flag, k) <==> (flag as bv8 >> k) & 1 == 1
  {
    FlagTestBitZero(flag, k);
  }
}
