/**
 * MRR, the Master Results Record (1, 20): the finish time stamp, an
 * optional lot disposition code and two optional lot descriptions.
 */
module Mrr {
  import opened Primitives
  import opened ValueConverter
  import opened RecordBase

  const RecordType: byte := 1
  const RecordSubtype: byte := 20

  datatype Mrr = Mrr(
    finishTime: u32,
    dispositionCode: Option<char>,
    userDescription: Option<string>,
    execDescription: Option<string>)

  function Descriptions(m: Mrr): seq<Option<string>>
  {
    [m.userDescription, m.execDescription]
  }

  /** Parse: a U*4, a C*1 that may be missing, then the two C*n descriptions. */
  function Parse(data: seq<byte>, offset: nat, reverse: bool): (r: Result<Mrr>)
  {
    var finish := UInt32At(data, offset, reverse);
    var disposition := GetNullableCharAndUpdateOffset(data, finish.next);
    var texts :- ReadStrings(data, disposition.next, 2);
    Ok(Mrr(finish.value, disposition.value, texts.value[0], texts.value[1]))
  }

  /** Length(): a ushort accumulator from 8, each addend cast to ushort. */
  function Length(m: Mrr): u16
  {
    var withCode := AddUshort(8, if m.dispositionCode.None? then 0 else 1);
    AddUshort(AddUshort(withCode, CnLength(m.userDescription)), CnLength(m.execDescription))
  }

  /** What WriteNullableChar stores for the disposition code. */
  function CodeImage(c: Option<char>): seq<byte>
  {
    if c.None? || c.value as int > 0xFF then [] else [c.value as int]
  }

  /** The bytes SetBytes stores before the descriptions, from `offset + 2`. */
  function Front(m: Mrr, reverse: bool): (b: seq<byte>)
    ensures |b| == 6 + |CodeImage(m.dispositionCode)|
  {
    [RecordType, RecordSubtype] + U32Wire(m.finishTime, reverse) + CodeImage(m.dispositionCode)
  }

  /** Everything after the two length bytes. */
  function Body(m: Mrr, reverse: bool): seq<byte>
  {
    Front(m, reverse) + StringsImage(Descriptions(m))
  }

  /** The record's fields, as the parser receives them after the header. */
  function Fields(m: Mrr, reverse: bool): seq<byte>
  {
    U32Wire(m.finishTime, reverse) + CodeImage(m.dispositionCode) + StringsImage(Descriptions(m))
  }

  /**
   * The values SetBytes accepts: a code in the extended ASCII range,
   * descriptions of at most 255 characters, and no present field after a
   * missing one.
   */
  predicate Writable(m: Mrr)
  {
    && (m.dispositionCode.Some? ==> m.dispositionCode.value as int <= 0xFF)
    && (m.userDescription.Some? ==> |m.userDescription.value| <= 255)
    && (m.execDescription.Some? ==> |m.execDescription.value| <= 255)
    && (m.dispositionCode.None? ==> m.userDescription.None?)
    && (m.userDescription.None? ==> m.execDescription.None?)
  }

  /** The record SetBytes writes; REC_LEN holds the final index, which counts the header too. */
  function Image(m: Mrr, reverse: bool): (b: seq<byte>)
    requires Writable(m)
  {
    BodySize(m, reverse);
    U16Wire(2 + |Body(m, reverse)|, reverse) + Body(m, reverse)
  }

  /**
   * SetBytes up to the descriptions: the two type bytes from `offset + 2`,
   * the time stamp and the disposition code; it reports what
   * WriteNullableChar wrote.
   */
  function EncodeHead(m: Mrr, buf: seq<byte>, offset: nat, reverse: bool): (s: Step<Written>)
  {
    var typ :- PutByte(buf, RecordType, offset + 2);
    var sub :- PutByte(typ.buf, RecordSubtype, offset + 3);
    var time :- PutU32(sub.buf, m.finishTime, offset + 4, reverse);
    PutNullableChar(time.buf, m.dispositionCode, false, offset + 8)
  }

  /** SetBytes: the head, then the descriptions sharing the code's null flag, then the length. */
  function Encode(m: Mrr, buf: seq<byte>, offset: nat, reverse: bool): (s: Step<nat>)
  {
    var code :- EncodeHead(m, buf, offset, reverse);
    StringsTail(code.buf, Descriptions(m), code.value.sawNull, offset, 8 + code.value.count, reverse)
  }

  method WriteHead(m: Mrr, conv: StdfValueConverter, dest: array<byte>, offset: nat) returns (r: Result<Written>)
    modifies dest
    ensures Step(dest[..], r) == EncodeHead(m, old(dest[..]), offset, conv.reverseBytesOnWrite)
  {
    var n :- conv.SetByte(RecordType, dest, offset + 2);
    n :- conv.SetByte(RecordSubtype, dest, offset + 3);
    n :- conv.SetUint32(m.finishTime, dest, offset + 4);
    r := conv.WriteNullableChar(m.dispositionCode, dest, false, offset + 8);
  }

  /** The fixed-width writers each report their width, so the running index is written out. */
  method SetBytes(m: Mrr, conv: StdfValueConverter, dest: array<byte>, offset: nat) returns (r: Result<nat>)
    modifies dest
    ensures Step(dest[..], r) == Encode(m, old(dest[..]), offset, conv.reverseBytesOnWrite)
  {
    var code :- WriteHead(m, conv, dest, offset);
    r := WriteStringsTail(conv, Descriptions(m), dest, code.sawNull, offset, 8 + code.count);
  }

  /**
   * The head is written exactly when its bytes fit and the code is in
   * range; it then stores the front and reports the code's byte and
   * whether the code was missing.
   */
  lemma HeadWritten(m: Mrr, buf: seq<byte>, offset: nat, reverse: bool)
    ensures EncodeHead(m, buf, offset, reverse).result.Ok?
      <==> (m.dispositionCode.Some? ==> m.dispositionCode.value as int <= 0xFF) && offset + 2 + |Front(m, reverse)| <= |buf|
    ensures EncodeHead(m, buf, offset, reverse).result.Ok? ==>
      && EncodeHead(m, buf, offset, reverse).buf == Stored(buf, offset + 2, Front(m, reverse))
      && EncodeHead(m, buf, offset, reverse).result.value == Written(|CodeImage(m.dispositionCode)|, m.dispositionCode.None?)
  {
    var head := [RecordType, RecordSubtype] + U32Wire(m.finishTime, reverse);
    StoredConcat(buf, offset + 2, [RecordType], [RecordSubtype]);
    StoredConcat(buf, offset + 2, [RecordType, RecordSubtype], U32Wire(m.finishTime, reverse));
    StoredConcat(buf, offset + 2, head, CodeImage(m.dispositionCode));
  }

  /**
   * SetBytes succeeds only for writable values whose image fits, and then
   * leaves the image at `offset`, every other byte unchanged, and reports
   * Length(), which is the image's size.
   */
  lemma EncodeImage(m: Mrr, buf: seq<byte>, offset: nat, reverse: bool)
    ensures Encode(m, buf, offset, reverse).result.Ok? ==>
      && Writable(m)
      && offset + |Image(m, reverse)| <= |buf|
      && Encode(m, buf, offset, reverse).buf == Stored(buf, offset, Image(m, reverse))
      && Encode(m, buf, offset, reverse).result.value == |Image(m, reverse)| == Length(m)
  {
    HeadWritten(m, buf, offset, reverse);
    if EncodeHead(m, buf, offset, reverse).result.Ok? {
      EncodeIsTail(m, buf, offset, reverse);
      if Encode(m, buf, offset, reverse).result.Ok? {
        StringsTailImage(buf, Front(m, reverse), Descriptions(m), m.dispositionCode.None?, offset, reverse);
        WritableFromSteps(m);
        LengthIsImageSize(m, reverse);
        ImageIsTail(m, reverse);
      }
    }
  }

  /** Once the head is written, SetBytes is the strings tail after the stored front. */
  lemma EncodeIsTail(m: Mrr, buf: seq<byte>, offset: nat, reverse: bool)
    requires EncodeHead(m, buf, offset, reverse).result.Ok?
    ensures Encode(m, buf, offset, reverse)
      == StringsTail(Stored(buf, offset + 2, Front(m, reverse)), Descriptions(m), m.dispositionCode.None?, offset, 2 + |Front(m, reverse)|, reverse)
  {
    HeadWritten(m, buf, offset, reverse);
  }

  lemma ImageIsTail(m: Mrr, reverse: bool)
    requires Writable(m)
    ensures 2 + |Front(m, reverse) + StringsImage(Descriptions(m))| < 0x1_0000
    ensures Image(m, reverse)
      == U16Wire(2 + |Front(m, reverse) + StringsImage(Descriptions(m))|, reverse) + (Front(m, reverse) + StringsImage(Descriptions(m)))
  {
    BodySize(m, reverse);
  }

  /** The descriptions were accepted after the code: the value is writable. */
  lemma WritableFromSteps(m: Mrr)
    requires m.dispositionCode.Some? ==> m.dispositionCode.value as int <= 0xFF
    requires AllFit(Descriptions(m)) && NullsLast(Descriptions(m))
    requires m.dispositionCode.None? ==> AllNull(Descriptions(m))
    ensures Writable(m)
  {
    PairFields(m.userDescription, m.execDescription);
  }

  /** A writable value's body: the front, then one count per description. */
  lemma BodySize(m: Mrr, reverse: bool)
    requires Writable(m)
    ensures |Body(m, reverse)| == 6 + |CodeImage(m.dispositionCode)| + CnLength(m.userDescription) + CnLength(m.execDescription)
    ensures 2 + |Body(m, reverse)| < 0x1_0000
  {
    PairFields(m.userDescription, m.execDescription);
    StringsImageLength(Descriptions(m));
    StringsPair(m.userDescription, m.execDescription);
  }

  /** For a writable value Length() counts exactly the image's bytes, with no ushort wrap. */
  lemma LengthIsImageSize(m: Mrr, reverse: bool)
    requires Writable(m)
    ensures Length(m) == |Image(m, reverse)|
  {
    BodySize(m, reverse);
    LengthCounts(m);
  }

  /** Without wrap-around, Length() adds the code's byte and each description's count to 8. */
  lemma LengthCounts(m: Mrr)
    requires Writable(m)
    ensures Length(m) == 8 + |CodeImage(m.dispositionCode)| + CnLength(m.userDescription) + CnLength(m.execDescription)
  {
    var code := |CodeImage(m.dispositionCode)|;
    var user, exec := CnLength(m.userDescription), CnLength(m.execDescription);
    assert code == if m.dispositionCode.None? then 0 else 1;
    AddUshortExact(8, code);
    AddUshortExact(8 + code, user);
    AddUshortExact(8 + code + user, exec);
  }

  /** A writable value whose image fits is written without error. */
  lemma EncodeSucceeds(m: Mrr, buf: seq<byte>, offset: nat, reverse: bool)
    requires Writable(m) && offset + |Image(m, reverse)| <= |buf|
    ensures Encode(m, buf, offset, reverse).result.Ok?
  {
    HeadWritten(m, buf, offset, reverse);
    EncodeIsTail(m, buf, offset, reverse);
    PairFields(m.userDescription, m.execDescription);
    BodySize(m, reverse);
    StringsTailOk(Stored(buf, offset + 2, Front(m, reverse)), Descriptions(m), m.dispositionCode.None?, offset, 2 + |Front(m, reverse)|, reverse);
  }

  /** A missing disposition code followed by a description makes SetBytes throw. */
  lemma MissingCodeThenText(m: Mrr, buf: seq<byte>, offset: nat, reverse: bool)
    requires m.dispositionCode.None? && m.userDescription.Some?
    requires offset + 8 <= |buf|
    ensures Encode(m, buf, offset, reverse).result == Err(NonNullAfterNull)
  {
  }

  /** Past the four header bytes lie the fields. */
  lemma AfterHeader(m: Mrr, reverse: bool)
    requires Writable(m)
    ensures Image(m, reverse)[4..] == Fields(m, reverse)
  {
  }

  /** Written with the same byte order it is read with, an ASCII MRR parses back to itself. */
  lemma RoundTrip(m: Mrr, reverse: bool)
    requires Writable(m) && AllAscii(Descriptions(m))
    requires m.dispositionCode.Some? ==> m.dispositionCode.value as int < 0x80
    ensures Parse(Image(m, reverse)[4..], 0, reverse) == Ok(m)
  {
    AfterHeader(m, reverse);
    ReadFields(m, reverse);
  }

  lemma ReadFields(m: Mrr, reverse: bool)
    requires Writable(m) && AllAscii(Descriptions(m))
    requires m.dispositionCode.Some? ==> m.dispositionCode.value as int < 0x80
    ensures Parse(Fields(m, reverse), 0, reverse) == Ok(m)
  {
    var prefix := U32Wire(m.finishTime, reverse) + CodeImage(m.dispositionCode);
    PairFields(m.userDescription, m.execDescription);
    TimeFirst(m, reverse);
    if m.dispositionCode.None? {
      NullsWriteNothing([], Descriptions(m), 0);
    }
    StringsRoundTrip(prefix, Descriptions(m));
  }

  lemma TimeFirst(m: Mrr, reverse: bool)
    ensures UInt32At(Fields(m, reverse), 0, reverse) == Read(m.finishTime, 4)
  {
    assert Fields(m, reverse)[0..4] == U32Wire(m.finishTime, reverse);
    ReadU32Wire(Fields(m, reverse), 0, m.finishTime, reverse);
  }

  /** REC_LEN counts the four header bytes too: it equals the whole image's size. */
  lemma LengthFieldCountsHeader(m: Mrr, reverse: bool)
    requires Writable(m)
    ensures UInt16At(Image(m, reverse), 0, reverse) == Ok(Read(|Image(m, reverse)|, 2))
  {
    BodySize(m, reverse);
    ReadU16Front(2 + |Body(m, reverse)|, Body(m, reverse), reverse);
  }
}
