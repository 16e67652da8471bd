/**
 * WIR, the Wafer Information Record (2, 10): head, site group, the time
 * the first part was tested and an optional wafer id. Its SetBytes writes
 * the id without a length byte, so it reports one byte less than Length()
 * for a present id; REC_LEN holds the index reached, header included.
 */
module Wir {
  import opened Primitives
  import opened ValueConverter
  import opened RecordBase

  const RecordType: byte := 2
  const RecordSubtype: byte := 10

  datatype Wir = Wir(headNumber: byte, siteGroupNumber: byte, firstPartTested: u32, waferId: Option<string>)

  /**
   * Parse: head and site group are indexed (IndexOutOfRange), the time
   * reads 0 past the end, and the id is null when the body ends there.
   */
  function Parse(data: seq<byte>, offset: nat, reverse: bool): (r: Result<Wir>)
  {
    var head :- ByteAt(data, offset);
    var group :- ByteAt(data, offset + 1);
    var start := UInt32At(data, offset + 2, reverse);
    var id :- GetStringAndUpdateOffset(data, start.next);
    Ok(Wir(head, group, start.value, id.value))
  }

  /** Length(): 10, plus a length byte and the characters for an id; an id over 255 throws. */
  function Length(w: Wir): (r: Result<u16>)
  {
    if w.waferId.None? then Ok(10)
    else if |w.waferId.value| > 255 then Err(StringTooLong)
    else Ok(10 + |w.waferId.value| + 1)
  }

  /** The values Length() accepts: an id of at most 255 characters. */
  predicate Writable(w: Wir)
  {
    w.waferId.Some? ==> |w.waferId.value| <= 255
  }

  /** SetBytes up to the id: four direct stores and the time; the index is then 10. */
  function EncodeFixed(w: Wir, buf: seq<byte>, offset: nat, reverse: bool): (s: Step<nat>)
  {
    var front :- Put(buf, offset + 2, [RecordType, RecordSubtype, w.headNumber, w.siteGroupNumber], 6);
    var start :- PutU32(front.buf, w.firstPartTested, offset + 6, reverse);
    Yield(start.buf, 10)
  }

  /** A present id through the unprefixed writer, then the ushort index as the length at `offset`; it reports the index. */
  function EncodeId(id: Option<string>, buf: seq<byte>, offset: nat, reverse: bool): (s: Step<nat>)
  {
    var written :- RawName(id, buf, offset + 10);
    var idx := (10 + written.value) % 0x1_0000;
    var len :- PutU16(written.buf, idx, offset, reverse);
    Yield(len.buf, idx)
  }

  function Encode(w: Wir, buf: seq<byte>, offset: nat, reverse: bool): (s: Step<nat>)
  {
    var idx :- EncodeFixed(w, buf, offset, reverse);
    EncodeId(w.waferId, idx.buf, offset, reverse)
  }

  method WriteFixed(w: Wir, conv: StdfValueConverter, dest: array<byte>, offset: nat) returns (r: Result<nat>)
    modifies dest
    ensures Step(dest[..], r) == EncodeFixed(w, old(dest[..]), offset, conv.reverseBytesOnWrite)
  {
    var ok := StoreBytes([RecordType, RecordSubtype, w.headNumber, w.siteGroupNumber], dest, offset + 2);
    if !ok {
      return Err(IndexOutOfRange);
    }
    var n :- conv.SetUint32(w.firstPartTested, dest, offset + 6);
    r := Ok(10);
  }

  method WriteId(id: Option<string>, conv: StdfValueConverter, dest: array<byte>, offset: nat) returns (r: Result<nat>)
    modifies dest
    ensures Step(dest[..], r) == EncodeId(id, old(dest[..]), offset, conv.reverseBytesOnWrite)
  {
    var n :- WriteRawName(id, conv, dest, offset + 10);
    UshortFits(10 + n);
    var idx := (10 + n) % 0x1_0000;
    r := conv.SetUint16(idx, dest, offset);
    if r.Ok? {
      r := Ok(idx);
    }
  }

  method SetBytes(w: Wir, conv: StdfValueConverter, dest: array<byte>, offset: nat) returns (r: Result<nat>)
    modifies dest
    ensures Step(dest[..], r) == Encode(w, old(dest[..]), offset, conv.reverseBytesOnWrite)
  {
    var idx :- WriteFixed(w, conv, dest, offset);
    r := WriteId(w.waferId, conv, dest, offset);
  }

  /** The header pair, head, site group and time: eight bytes from `offset + 2`. */
  function Front(w: Wir, reverse: bool): (f: seq<byte>)
    ensures |f| == 8
  {
    [RecordType, RecordSubtype, w.headNumber, w.siteGroupNumber] + U32Wire(w.firstPartTested, reverse)
  }

  /** The index SetBytes reaches: 10, plus the id's characters. */
  function Index(w: Wir): nat
  {
    10 + Width(w.waferId)
  }

  /** The bytes SetBytes leaves at `offset`: the index as REC_LEN, the front, the id's bare characters. */
  function Image(w: Wir, reverse: bool): (r: seq<byte>)
    requires Writable(w)
    ensures |r| == Index(w)
  {
    U16Wire(Index(w), reverse) + (Front(w, reverse) + RawImage(w.waferId))
  }

  /** The STDF V4 body of a WIR: the fixed fields, then the id as C*n. */
  function Fields(w: Wir, reverse: bool): (f: seq<byte>)
    requires Writable(w)
    ensures |f| == 6 + CnLength(w.waferId)
  {
    [w.headNumber, w.siteGroupNumber] + U32Wire(w.firstPartTested, reverse) + CnImage(w.waferId)
  }

  /** SetBytes succeeds exactly for a writable value whose bytes fit. */
  lemma EncodeValid(w: Wir, buf: seq<byte>, offset: nat, reverse: bool)
    ensures Encode(w, buf, offset, reverse).result.Ok? <==> Writable(w) && offset + |Image(w, reverse)| <= |buf|
  {
    if offset + 10 <= |buf| {
      FixedWritten(w, buf, offset, reverse);
      RawNameWritten(w.waferId, Stored(buf, offset + 2, Front(w, reverse)), offset + 10);
    }
  }

  /** The fixed part is stored whole when its ten bytes fit. */
  lemma FixedWritten(w: Wir, buf: seq<byte>, offset: nat, reverse: bool)
    requires offset + 10 <= |buf|
    ensures EncodeFixed(w, buf, offset, reverse) == Step(Stored(buf, offset + 2, Front(w, reverse)), Ok(10))
  {
    StoredConcat(buf, offset + 2, [RecordType, RecordSubtype, w.headNumber, w.siteGroupNumber], U32Wire(w.firstPartTested, reverse));
  }

  /**
   * A successful SetBytes leaves the image at `offset`, every other byte
   * unchanged, and reports the image's size.
   */
  lemma EncodeWritten(w: Wir, buf: seq<byte>, offset: nat, reverse: bool)
    requires Writable(w) && offset + |Image(w, reverse)| <= |buf|
    ensures Encode(w, buf, offset, reverse) == Step(Stored(buf, offset, Image(w, reverse)), Ok(|Image(w, reverse)|))
  {
    FixedWritten(w, buf, offset, reverse);
    IdWritten(w, buf, offset, reverse);
  }

  /** The id after the stored front, then the index before them both. */
  lemma IdWritten(w: Wir, buf: seq<byte>, offset: nat, reverse: bool)
    requires Writable(w) && offset + |Image(w, reverse)| <= |buf|
    ensures EncodeId(w.waferId, Stored(buf, offset + 2, Front(w, reverse)), offset, reverse)
      == Step(Stored(buf, offset, Image(w, reverse)), Ok(Index(w)))
  {
    var f := Front(w, reverse);
    RawNameWritten(w.waferId, Stored(buf, offset + 2, f), offset + 10);
    StoredConcat(buf, offset + 2, f, RawImage(w.waferId));
    IndexWritten(w.waferId, Stored(buf, offset + 2, f), offset, reverse, Stored(buf, offset + 2, f + RawImage(w.waferId)), Width(w.waferId));
    StoredFront(buf, offset, U16Wire(Index(w), reverse), f + RawImage(w.waferId));
  }

  /** Once the raw id has left `mid` and reported `n`, the index `10 + n` goes in front as REC_LEN. */
  lemma IndexWritten(id: Option<string>, buf: seq<byte>, offset: nat, reverse: bool, mid: seq<byte>, n: nat)
    requires RawName(id, buf, offset + 10) == Step(mid, Ok(n))
    requires offset + 2 <= |mid|
    ensures EncodeId(id, buf, offset, reverse) == Step(Stored(mid, offset, U16Wire(10 + n, reverse)), Ok(10 + n))
  {
    UshortFits(10 + n);
  }

  /**
   * The index SetBytes reports, which is also REC_LEN, is Length() for a
   * null id and one less than Length() for a present one.
   */
  lemma IndexAgainstLength(w: Wir)
    requires Writable(w)
    ensures Length(w).Ok?
    ensures w.waferId.None? ==> Index(w) == Length(w).value
    ensures w.waferId.Some? ==> Index(w) == Length(w).value - 1
  {
  }

  /** REC_LEN holds the whole image's size, the four header bytes included. */
  lemma LengthFieldCountsHeader(w: Wir, reverse: bool)
    requires Writable(w)
    ensures UInt16At(Image(w, reverse), 0, reverse) == Ok(Read(|Image(w, reverse)|, 2))
  {
    UshortFits(Index(w));
    assert Image(w, reverse)[0..2] == U16Wire(Index(w), reverse);
    ReadU16Wire(Image(w, reverse), 0, Index(w), reverse);
  }

  /** The STDF V4 body of a WIR with an ASCII id parses back to it. */
  lemma FieldsRoundTrip(w: Wir, reverse: bool)
    requires Writable(w) && (w.waferId.Some? ==> IsAscii(w.waferId.value))
    ensures Parse(Fields(w, reverse), 0, reverse) == Ok(w)
  {
    var prefix := [w.headNumber, w.siteGroupNumber] + U32Wire(w.firstPartTested, reverse);
    assert Fields(w, reverse)[2..6] == U32Wire(w.firstPartTested, reverse);
    ReadU32Wire(Fields(w, reverse), 2, w.firstPartTested, reverse);
    FieldRoundTrip(prefix, w.waferId);
  }

  /** Without an id, what SetBytes writes after the header is the STDF V4 body, and it reads back. */
  lemma NullIdRoundTrip(w: Wir, reverse: bool)
    requires Writable(w) && w.waferId.None?
    ensures Image(w, reverse)[4..] == Fields(w, reverse)
    ensures Parse(Image(w, reverse)[4..], 0, reverse) == Ok(w)
  {
    FieldsRoundTrip(w, reverse);
  }

  /**
   * With an id, even an empty one, the written record never reads back as
   * the value: the first character is taken for the length byte, or the
   * body ends where the id should begin.
   */
  lemma IdNeverRoundTrips(w: Wir, reverse: bool)
    requires Writable(w) && w.waferId.Some?
    ensures Parse(Image(w, reverse)[4..], 0, reverse) != Ok(w)
  {
    var s := w.waferId.value;
    var d := Image(w, reverse)[4..];
    assert |d| == 6 + |s|;
    var r := Parse(d, 0, reverse);
    if r.Ok? {
      var id := GetStringAndUpdateOffset(d, 6);
      assert id.Ok? && r.value.waferId == id.value.value;
      if s != "" {
        assert id.value.value.Some? ==> |id.value.value.value| <= |s| - 1;
      }
    }
  }

  /**
   * SetBytes as the STDF V4 layout intends it: the same fixed part, the
   * id as C*n with its length byte, and `idx - 4` as REC_LEN.
   */
  function EncodeIntended(w: Wir, buf: seq<byte>, offset: nat, reverse: bool): (s: Step<nat>)
  {
    var idx :- EncodeFixed(w, buf, offset, reverse);
    CnTail(w.waferId, idx.buf, offset, 10, reverse)
  }

  /** The record EncodeIntended writes: REC_LEN holds the body's size. */
  function IntendedImage(w: Wir, reverse: bool): (r: seq<byte>)
    requires Writable(w)
    ensures |r| == 4 + |Fields(w, reverse)|
  {
    U16Wire(6 + |CnImage(w.waferId)|, reverse) + (Front(w, reverse) + CnImage(w.waferId))
  }

  /** The corrected SetBytes succeeds exactly for writable values whose image fits. */
  lemma IntendedValid(w: Wir, buf: seq<byte>, offset: nat, reverse: bool)
    ensures EncodeIntended(w, buf, offset, reverse).result.Ok? <==> Writable(w) && offset + |IntendedImage(w, reverse)| <= |buf|
  {
    if offset + 10 <= |buf| {
      FixedWritten(w, buf, offset, reverse);
      CnTailFits(w.waferId, Stored(buf, offset + 2, Front(w, reverse)), offset, 10, reverse);
    }
  }

  /**
   * The corrected SetBytes leaves the intended image at `offset`, reports
   * its size, and that size is Length(); past the header lies the STDF V4
   * body, which reads back.
   */
  lemma IntendedWritten(w: Wir, buf: seq<byte>, offset: nat, reverse: bool)
    requires Writable(w) && offset + |IntendedImage(w, reverse)| <= |buf|
    ensures EncodeIntended(w, buf, offset, reverse)
      == Step(Stored(buf, offset, IntendedImage(w, reverse)), Ok(|IntendedImage(w, reverse)|))
    ensures Length(w) == Ok(|IntendedImage(w, reverse)|)
  {
    FixedWritten(w, buf, offset, reverse);
    CnTailWritten(w.waferId, Front(w, reverse), buf, offset, reverse);
  }

  lemma IntendedRoundTrip(w: Wir, reverse: bool)
    requires Writable(w) && (w.waferId.Some? ==> IsAscii(w.waferId.value))
    ensures IntendedImage(w, reverse)[4..] == Fields(w, reverse)
    ensures Parse(IntendedImage(w, reverse)[4..], 0, reverse) == Ok(w)
  {
    FieldsRoundTrip(w, reverse);
  }
}
