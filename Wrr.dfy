/**
 * WRR, the Wafer Results Record: head, site group, the time the last part
 * was tested, five part counts and six optional C*n fields. The class
 * declares subtype 10, WIR's, where the record type table gives 20; its
 * Length() counts only the first of the six fields.
 */
module Wrr {
  import opened Primitives
  import opened ValueConverter
  import opened RecordBase
  import RecordTypes

  const RecordType: byte := 2
  const RecordSubtype: byte := 10

  datatype Wrr = Wrr(
    headNumber: byte,
    siteGroupNumber: byte,
    lastPartTested: u32,
    partsTested: u32,
    partsRetested: u32,
    aborts: u32,
    goodParts: u32,
    functionalParts: u32,
    waferId: Option<string>,
    fabWaferId: Option<string>,
    frameId: Option<string>,
    maskId: Option<string>,
    userDescription: Option<string>,
    execDescription: Option<string>)

  /** The six C*n fields in file order. */
  function Texts(w: Wrr): (t: seq<Option<string>>)
    ensures |t| == 6
  {
    [w.waferId, w.fabWaferId, w.frameId, w.maskId, w.userDescription, w.execDescription]
  }

  /**
   * Parse: head and site group are indexed (IndexOutOfRange), the six U*4
   * read 0 past the end, then the six C*n fields.
   */
  function Parse(data: seq<byte>, offset: nat, reverse: bool): (r: Result<Wrr>)
  {
    var head :- ByteAt(data, offset);
    var group :- ByteAt(data, offset + 1);
    var counts := CountsAt(data, offset + 2, reverse);
    var texts :- ReadStrings(data, counts.next, 6);
    Ok(Assemble(head, group, counts.value, texts.value))
  }

  /** The value built from head, site group, the six U*4 and the six fields, in file order. */
  function Assemble(head: byte, group: byte, c: seq<u32>, t: seq<Option<string>>): (w: Wrr)
    requires |c| == 6 && |t| == 6
    ensures Texts(w) == t
  {
    Wrr(head, group, c[0], c[1], c[2], c[3], c[4], c[5], t[0], t[1], t[2], t[3], t[4], t[5])
  }

  /** The six GetUInt32AndUpdateOffset calls in a row: time, then the five counts. */
  function CountsAt(data: seq<byte>, at: nat, reverse: bool): (r: Read<seq<u32>>)
    ensures |r.value| == 6
  {
    var finish := UInt32At(data, at, reverse);
    var tested := UInt32At(data, finish.next, reverse);
    var retested := UInt32At(data, tested.next, reverse);
    var aborts := UInt32At(data, retested.next, reverse);
    var good := UInt32At(data, aborts.next, reverse);
    var functional := UInt32At(data, good.next, reverse);
    Read([finish.value, tested.value, retested.value, aborts.value, good.value, functional.value], functional.next)
  }

  /** Length(): 30, plus a length byte and the characters of the wafer id alone; an id over 255 throws. */
  function Length(w: Wrr): (r: Result<u16>)
  {
    if w.waferId.None? then Ok(30)
    else if |w.waferId.value| > 255 then Err(StringTooLong)
    else Ok(30 + |w.waferId.value| + 1)
  }

  /** The values SetBytes accepts: fields of at most 255, none after a null. */
  predicate Writable(w: Wrr)
  {
    AllFit(Texts(w)) && NullsLast(Texts(w))
  }

  /** The time of the last part and the tested and retested counts, 12 bytes. */
  function Tested(w: Wrr, reverse: bool): (b: seq<byte>)
    ensures |b| == 12
  {
    U32Wire(w.lastPartTested, reverse) + U32Wire(w.partsTested, reverse) + U32Wire(w.partsRetested, reverse)
  }

  /** The abort, good and functional counts, 12 bytes. */
  function Outcomes(w: Wrr, reverse: bool): (b: seq<byte>)
    ensures |b| == 12
  {
    U32Wire(w.aborts, reverse) + U32Wire(w.goodParts, reverse) + U32Wire(w.functionalParts, reverse)
  }

  /** Head, site group, time and counts: the 26 bytes before the fields. */
  function Fixed(w: Wrr, reverse: bool): (b: seq<byte>)
    ensures |b| == 26
  {
    [w.headNumber, w.siteGroupNumber] + Tested(w, reverse) + Outcomes(w, reverse)
  }

  /** The header pair (with the given subtype) and the fixed fields: 28 bytes from `offset + 2`. */
  function Front(w: Wrr, subtype: byte, reverse: bool): (b: seq<byte>)
    ensures |b| == 28
  {
    [RecordType, subtype] + Fixed(w, reverse)
  }

  /** The STDF V4 body: the fixed fields and the six C*n fields. */
  function Fields(w: Wrr, reverse: bool): seq<byte>
  {
    Fixed(w, reverse) + StringsImage(Texts(w))
  }

  /** The record written with header pair (2, `subtype`): REC_LEN holds the whole size, header included. */
  function Image(w: Wrr, subtype: byte, reverse: bool): (b: seq<byte>)
    requires Writable(w)
  {
    StringsImageLength(Texts(w));
    U16Wire(2 + |Front(w, subtype, reverse) + StringsImage(Texts(w))|, reverse) + (Front(w, subtype, reverse) + StringsImage(Texts(w)))
  }

  /** SetBytes up to the fields: four direct stores and six SetUint32 calls; the index is then 30. */
  function EncodeHead(w: Wrr, subtype: byte, buf: seq<byte>, offset: nat, reverse: bool): (s: Step<nat>)
  {
    var tested :- EncodeTested(w, subtype, buf, offset, reverse);
    EncodeOutcomes(w, tested.buf, offset, reverse)
  }

  /** The four direct stores, then the time and the tested and retested counts; the index is then 18. */
  function EncodeTested(w: Wrr, subtype: byte, buf: seq<byte>, offset: nat, reverse: bool): (s: Step<nat>)
  {
    var front :- Put(buf, offset + 2, [RecordType, subtype, w.headNumber, w.siteGroupNumber], 6);
    var finish :- PutU32(front.buf, w.lastPartTested, offset + 6, reverse);
    var tested :- PutU32(finish.buf, w.partsTested, offset + 10, reverse);
    var retested :- PutU32(tested.buf, w.partsRetested, offset + 14, reverse);
    Yield(retested.buf, 18)
  }

  /** The abort, good and functional counts from `offset + 18`; the index is then 30. */
  function EncodeOutcomes(w: Wrr, buf: seq<byte>, offset: nat, reverse: bool): (s: Step<nat>)
  {
    var aborts :- PutU32(buf, w.aborts, offset + 18, reverse);
    var good :- PutU32(aborts.buf, w.goodParts, offset + 22, reverse);
    var functional :- PutU32(good.buf, w.functionalParts, offset + 26, reverse);
    Yield(functional.buf, 30)
  }

  /** SetBytes with header pair (2, `subtype`): the head, then the six fields with one shared flag and the length. */
  function EncodeWith(w: Wrr, subtype: byte, buf: seq<byte>, offset: nat, reverse: bool): (s: Step<nat>)
  {
    var head :- EncodeHead(w, subtype, buf, offset, reverse);
    StringsTail(head.buf, Texts(w), false, offset, head.value, reverse)
  }

  /** SetBytes as written, with the declared subtype 10. */
  function Encode(w: Wrr, buf: seq<byte>, offset: nat, reverse: bool): (s: Step<nat>)
  {
    EncodeWith(w, RecordSubtype, buf, offset, reverse)
  }

  method WriteTested(w: Wrr, subtype: byte, conv: StdfValueConverter, dest: array<byte>, offset: nat) returns (r: Result<nat>)
    modifies dest
    ensures Step(dest[..], r) == EncodeTested(w, subtype, old(dest[..]), offset, conv.reverseBytesOnWrite)
  {
    var ok := StoreBytes([RecordType, subtype, w.headNumber, w.siteGroupNumber], dest, offset + 2);
    if !ok {
      return Err(IndexOutOfRange);
    }
    var n :- conv.SetUint32(w.lastPartTested, dest, offset + 6);
    n :- conv.SetUint32(w.partsTested, dest, offset + 10);
    n :- conv.SetUint32(w.partsRetested, dest, offset + 14);
    r := Ok(18);
  }

  method WriteOutcomes(w: Wrr, conv: StdfValueConverter, dest: array<byte>, offset: nat) returns (r: Result<nat>)
    modifies dest
    ensures Step(dest[..], r) == EncodeOutcomes(w, old(dest[..]), offset, conv.reverseBytesOnWrite)
  {
    var n :- conv.SetUint32(w.aborts, dest, offset + 18);
    n :- conv.SetUint32(w.goodParts, dest, offset + 22);
    n :- conv.SetUint32(w.functionalParts, dest, offset + 26);
    r := Ok(30);
  }

  method SetBytes(w: Wrr, conv: StdfValueConverter, dest: array<byte>, offset: nat) returns (r: Result<nat>)
    modifies dest
    ensures Step(dest[..], r) == Encode(w, old(dest[..]), offset, conv.reverseBytesOnWrite)
  {
    var idx :- WriteTested(w, RecordSubtype, conv, dest, offset);
    idx :- WriteOutcomes(w, conv, dest, offset);
    r := WriteStringsTail(conv, Texts(w), dest, false, offset, idx);
  }

  /** The head is written exactly when its 30 bytes fit. */
  lemma HeadFits(w: Wrr, subtype: byte, buf: seq<byte>, offset: nat, reverse: bool)
    ensures EncodeHead(w, subtype, buf, offset, reverse).result.Ok? <==> offset + 30 <= |buf|
  {
  }

  /** Written, the head leaves the front from `offset + 2` and the index 30. */
  lemma HeadWritten(w: Wrr, subtype: byte, buf: seq<byte>, offset: nat, reverse: bool)
    requires offset + 30 <= |buf|
    ensures EncodeHead(w, subtype, buf, offset, reverse) == Step(Stored(buf, offset + 2, Front(w, subtype, reverse)), Ok(30))
  {
    var h: seq<byte> := [RecordType, subtype, w.headNumber, w.siteGroupNumber];
    TestedWritten(w, subtype, buf, offset, reverse);
    OutcomesWritten(w, Stored(buf, offset + 2, h + Tested(w, reverse)), offset, reverse);
    StoredConcat(buf, offset + 2, h + Tested(w, reverse), Outcomes(w, reverse));
    assert h + Tested(w, reverse) + Outcomes(w, reverse) == Front(w, subtype, reverse);
  }

  lemma TestedWritten(w: Wrr, subtype: byte, buf: seq<byte>, offset: nat, reverse: bool)
    requires offset + 18 <= |buf|
    ensures EncodeTested(w, subtype, buf, offset, reverse)
      == Step(Stored(buf, offset + 2, [RecordType, subtype, w.headNumber, w.siteGroupNumber] + Tested(w, reverse)), Ok(18))
  {
    var h: seq<byte> := [RecordType, subtype, w.headNumber, w.siteGroupNumber];
    var w1, w2, w3 := U32Wire(w.lastPartTested, reverse), U32Wire(w.partsTested, reverse), U32Wire(w.partsRetested, reverse);
    StoredConcat(buf, offset + 2, h, w1);
    StoredConcat(buf, offset + 2, h + w1, w2);
    StoredConcat(buf, offset + 2, h + w1 + w2, w3);
    assert h + w1 + w2 + w3 == h + Tested(w, reverse);
  }

  lemma OutcomesWritten(w: Wrr, buf: seq<byte>, offset: nat, reverse: bool)
    requires offset + 30 <= |buf|
    ensures EncodeOutcomes(w, buf, offset, reverse) == Step(Stored(buf, offset + 18, Outcomes(w, reverse)), Ok(30))
  {
    var w4, w5, w6 := U32Wire(w.aborts, reverse), U32Wire(w.goodParts, reverse), U32Wire(w.functionalParts, reverse);
    StoredConcat(buf, offset + 18, w4, w5);
    StoredConcat(buf, offset + 18, w4 + w5, w6);
  }

  /** Once the head is written, SetBytes is the fields tail after the stored front. */
  lemma EncodeIsTail(w: Wrr, subtype: byte, buf: seq<byte>, offset: nat, reverse: bool)
    requires offset + 30 <= |buf|
    ensures EncodeWith(w, subtype, buf, offset, reverse)
      == StringsTail(Stored(buf, offset + 2, Front(w, subtype, reverse)), Texts(w), false, offset, 2 + |Front(w, subtype, reverse)|, reverse)
  {
    HeadWritten(w, subtype, buf, offset, reverse);
  }

  /**
   * SetBytes succeeds only for writable values whose image fits, and then
   * leaves the image at `offset`, every other byte unchanged, and reports
   * the image's size.
   */
  lemma EncodeImage(w: Wrr, subtype: byte, buf: seq<byte>, offset: nat, reverse: bool)
    requires EncodeWith(w, subtype, buf, offset, reverse).result.Ok?
    ensures Writable(w) && offset + |Image(w, subtype, reverse)| <= |buf|
    ensures EncodeWith(w, subtype, buf, offset, reverse)
      == Step(Stored(buf, offset, Image(w, subtype, reverse)), Ok(|Image(w, subtype, reverse)|))
  {
    HeadFits(w, subtype, buf, offset, reverse);
    EncodeIsTail(w, subtype, buf, offset, reverse);
    StringsTailImage(buf, Front(w, subtype, reverse), Texts(w), false, offset, reverse);
  }

  /** A writable value whose image fits is written without error. */
  lemma EncodeSucceeds(w: Wrr, subtype: byte, buf: seq<byte>, offset: nat, reverse: bool)
    requires Writable(w) && offset + |Image(w, subtype, reverse)| <= |buf|
    ensures EncodeWith(w, subtype, buf, offset, reverse).result.Ok?
  {
    StringsImageLength(Texts(w));
    EncodeIsTail(w, subtype, buf, offset, reverse);
    StringsTailOk(Stored(buf, offset + 2, Front(w, subtype, reverse)), Texts(w), false, offset, 30, reverse);
  }

  /** The image is 30 bytes plus every field's count, well inside a ushort. */
  lemma ImageSize(w: Wrr, subtype: byte, reverse: bool)
    requires Writable(w)
    ensures |Image(w, subtype, reverse)| == 30 + StringsLength(Texts(w)) < 0x1_0000
  {
    StringsImageLength(Texts(w));
  }

  /**
   * Length() counts the wafer id alone: it matches the bytes SetBytes
   * writes exactly when the five later fields are all null.
   */
  lemma LengthIgnoresLaterFields(w: Wrr, reverse: bool)
    requires Writable(w)
    ensures Length(w).Ok?
    ensures Length(w).value == |Image(w, RecordSubtype, reverse)| <==>
      w.fabWaferId.None? && w.frameId.None? && w.maskId.None? && w.userDescription.None? && w.execDescription.None?
  {
    ImageSize(w, RecordSubtype, reverse);
    var t := Texts(w);
    assert StringsLength(t) == CnLength(t[0]) + StringsLength(t[1..]);
    assert StringsLength(t[1..]) == CnLength(t[1]) + StringsLength(t[2..]);
    assert StringsLength(t[2..]) == CnLength(t[2]) + StringsLength(t[3..]);
    assert StringsLength(t[3..]) == CnLength(t[3]) + StringsLength(t[4..]);
    assert StringsLength(t[4..]) == CnLength(t[4]) + StringsLength(t[5..]);
    assert StringsLength(t[5..]) == CnLength(t[5]) + StringsLength(t[6..]);
  }

  /** REC_LEN holds the whole image's size, the four header bytes included. */
  lemma LengthFieldCountsHeader(w: Wrr, subtype: byte, reverse: bool)
    requires Writable(w)
    ensures UInt16At(Image(w, subtype, reverse), 0, reverse) == Ok(Read(|Image(w, subtype, reverse)|, 2))
  {
    ImageSize(w, subtype, reverse);
    var n := |Image(w, subtype, reverse)|;
    assert Image(w, subtype, reverse)[0..2] == U16Wire(n, reverse);
    ReadU16Wire(Image(w, subtype, reverse), 0, n, reverse);
  }

  /** The time and the counts read back from the front of any data that starts with them. */
  lemma ReadCounts(w: Wrr, reverse: bool, rest: seq<byte>)
    ensures CountsAt(Fixed(w, reverse) + rest, 2, reverse)
      == Read([w.lastPartTested, w.partsTested, w.partsRetested, w.aborts, w.goodParts, w.functionalParts], 26)
  {
    var w1, w2, w3 := U32Wire(w.lastPartTested, reverse), U32Wire(w.partsTested, reverse), U32Wire(w.partsRetested, reverse);
    var w4, w5, w6 := U32Wire(w.aborts, reverse), U32Wire(w.goodParts, reverse), U32Wire(w.functionalParts, reverse);
    var d := Fixed(w, reverse) + rest;
    assert d == [w.headNumber, w.siteGroupNumber] + (w1 + (w2 + (w3 + (w4 + (w5 + (w6 + rest))))));
    ReadU32Front(d, 2, w.lastPartTested, reverse, w2 + (w3 + (w4 + (w5 + (w6 + rest)))));
    ReadU32Front(d, 6, w.partsTested, reverse, w3 + (w4 + (w5 + (w6 + rest))));
    ReadU32Front(d, 10, w.partsRetested, reverse, w4 + (w5 + (w6 + rest)));
    ReadU32Front(d, 14, w.aborts, reverse, w5 + (w6 + rest));
    ReadU32Front(d, 18, w.goodParts, reverse, w6 + rest);
    ReadU32Front(d, 22, w.functionalParts, reverse, rest);
  }

  /** The STDF V4 body of a writable WRR with ASCII fields parses back to it. */
  lemma FieldsRoundTrip(w: Wrr, reverse: bool)
    requires Writable(w) && AllAscii(Texts(w))
    ensures Parse(Fields(w, reverse), 0, reverse) == Ok(w)
  {
    ReadCounts(w, reverse, StringsImage(Texts(w)));
    StringsRoundTrip(Fixed(w, reverse), Texts(w));
  }

  /** Past the header lies the STDF V4 body, so what SetBytes writes reads back, whatever the subtype. */
  lemma RoundTrip(w: Wrr, subtype: byte, reverse: bool)
    requires Writable(w) && AllAscii(Texts(w))
    ensures Image(w, subtype, reverse)[4..] == Fields(w, reverse)
    ensures Parse(Image(w, subtype, reverse)[4..], 0, reverse) == Ok(w)
  {
    AfterHeader(w, subtype, reverse);
    FieldsRoundTrip(w, reverse);
  }

  lemma AfterHeader(w: Wrr, subtype: byte, reverse: bool)
    requires Writable(w)
    ensures Image(w, subtype, reverse)[4..] == Fields(w, reverse)
  {
    StringsImageLength(Texts(w));
    var n := 2 + |Front(w, subtype, reverse) + StringsImage(Texts(w))|;
    PastHeader(U16Wire(n, reverse), [RecordType, subtype], Fixed(w, reverse), StringsImage(Texts(w)));
  }

  /** Whatever the data, the fields Parse returns hold no value after a null. */
  lemma DecodedNullsLast(data: seq<byte>, offset: nat, reverse: bool)
    ensures Parse(data, offset, reverse).Ok? ==> NullsLast(Texts(Parse(data, offset, reverse).value))
  {
    var counts := CountsAt(data, offset + 2, reverse);
    ReadStringsNullsLast(data, counts.next, 6);
  }

  /**
   * As written, the header pair is WIR's: a reader that dispatches on the
   * type code takes the record for a WIR.
   */
  lemma HeaderIsWirs(w: Wrr, reverse: bool)
    requires Writable(w)
    ensures var b := Image(w, RecordSubtype, reverse);
      RecordTypes.TypeCode(b[2], b[3]) == RecordTypes.Code(RecordTypes.WIR) != RecordTypes.Code(RecordTypes.WRR)
  {
  }

  /** With the table's subtype, 20, the header pair carries WRR's own code. */
  lemma IntendedHeader(w: Wrr, reverse: bool)
    requires Writable(w)
    ensures var b := Image(w, RecordTypes.Minor(RecordTypes.WRR), reverse);
      RecordTypes.TypeCode(b[2], b[3]) == RecordTypes.Code(RecordTypes.WRR)
  {
  }
}
