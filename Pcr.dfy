/**
 * PCR, the Part Count Record (1, 30): for one head and site, the numbers
 * of parts tested, retested, aborted, good and functional.
 */
module Pcr {
  import opened Primitives
  import opened ValueConverter

  const RecordType: byte := 1
  const RecordSubtype: byte := 30

  datatype Pcr = Pcr(
    headNumber: byte,
    siteNumber: byte,
    partsTested: u32,
    partsRetested: u32,
    aborts: u32,
    goodParts: u32,
    functionalParts: u32)

  /**
   * Parse: head and site are indexed bytes (IndexOutOfRange when missing);
   * each U*4 count reads as 0 once the data has run out.
   */
  function Parse(data: seq<byte>, offset: nat, reverse: bool): (r: Result<Pcr>)
  {
    var head :- ByteAt(data, offset);
    var site :- ByteAt(data, offset + 1);
    var tested := UInt32At(data, offset + 2, reverse);
    var retested := UInt32At(data, tested.next, reverse);
    var aborts := UInt32At(data, retested.next, reverse);
    var good := UInt32At(data, aborts.next, reverse);
    var functional := UInt32At(data, good.next, reverse);
    Ok(Pcr(head, site, tested.value, retested.value, aborts.value, good.value, functional.value))
  }

  function Length(p: Pcr): u16
  {
    26
  }

  /** The 24 bytes after the length: header pair, head, site, five U*4 counts. */
  function Body(p: Pcr, reverse: bool): (b: seq<byte>)
    ensures |b| == 24
  {
    [RecordType, RecordSubtype, p.headNumber, p.siteNumber]
    + U32Wire(p.partsTested, reverse) + U32Wire(p.partsRetested, reverse)
    + U32Wire(p.aborts, reverse) + U32Wire(p.goodParts, reverse)
    + U32Wire(p.functionalParts, reverse)
  }

  /** REC_LEN holds the final write index, 26, which counts the header too. */
  function Image(p: Pcr, reverse: bool): (b: seq<byte>)
    ensures |b| == Length(p)
  {
    U16Wire(26, reverse) + Body(p, reverse)
  }

  /**
   * SetBytes: four direct stores from `offset + 2`, the five counts through
   * SetUint32 (each advancing the running index by 4), then the length at
   * `offset`; it reports the final index.
   */
  function Encode(p: Pcr, buf: seq<byte>, offset: nat, reverse: bool): (s: Step<nat>)
  {
    var head :- Put(buf, offset + 2, [RecordType, RecordSubtype, p.headNumber, p.siteNumber], 6);
    var a :- PutU32(head.buf, p.partsTested, offset + 6, reverse);
    var b :- PutU32(a.buf, p.partsRetested, offset + 10, reverse);
    var c :- PutU32(b.buf, p.aborts, offset + 14, reverse);
    var d :- PutU32(c.buf, p.goodParts, offset + 18, reverse);
    var e :- PutU32(d.buf, p.functionalParts, offset + 22, reverse);
    var len :- PutU16(e.buf, 26, offset, reverse);
    Yield(len.buf, 26)
  }

  /** The running index is written out: each SetUint32 call reports 4. */
  method SetBytes(p: Pcr, conv: StdfValueConverter, dest: array<byte>, offset: nat) returns (r: Result<nat>)
    modifies dest
    ensures Step(dest[..], r) == Encode(p, old(dest[..]), offset, conv.reverseBytesOnWrite)
  {
    var ok := StoreBytes([RecordType, RecordSubtype, p.headNumber, p.siteNumber], dest, offset + 2);
    if !ok {
      return Err(IndexOutOfRange);
    }
    var n :- conv.SetUint32(p.partsTested, dest, offset + 6);
    n :- conv.SetUint32(p.partsRetested, dest, offset + 10);
    n :- conv.SetUint32(p.aborts, dest, offset + 14);
    n :- conv.SetUint32(p.goodParts, dest, offset + 18);
    n :- conv.SetUint32(p.functionalParts, dest, offset + 22);
    r := conv.SetUint16(26, dest, offset);
    if r.Ok? {
      r := Ok(26);
    }
  }

  /**
   * SetBytes succeeds exactly when the 26 bytes fit, and then leaves the
   * image at `offset`, every other byte unchanged, and reports the Length.
   */
  lemma EncodeImage(p: Pcr, buf: seq<byte>, offset: nat, reverse: bool)
    ensures Encode(p, buf, offset, reverse).result.Ok? <==> offset + 26 <= |buf|
    ensures Encode(p, buf, offset, reverse).result.Ok? ==>
      && Encode(p, buf, offset, reverse).buf == Stored(buf, offset, Image(p, reverse))
      && Encode(p, buf, offset, reverse).result.value == Length(p)
  {
    var h := [RecordType, RecordSubtype, p.headNumber, p.siteNumber];
    var w1, w2, w3 := U32Wire(p.partsTested, reverse), U32Wire(p.partsRetested, reverse), U32Wire(p.aborts, reverse);
    var w4, w5 := U32Wire(p.goodParts, reverse), U32Wire(p.functionalParts, reverse);
    if offset + 26 <= |buf| {
      StoredConcat(buf, offset + 2, h, w1);
      StoredConcat(buf, offset + 2, h + w1, w2);
      StoredConcat(buf, offset + 2, h + w1 + w2, w3);
      StoredConcat(buf, offset + 2, h + w1 + w2 + w3, w4);
      StoredConcat(buf, offset + 2, h + w1 + w2 + w3 + w4, w5);
      assert h + w1 + w2 + w3 + w4 + w5 == Body(p, reverse);
      StoredFront(buf, offset, U16Wire(26, reverse), Body(p, reverse));
    }
  }

  /** The body of a written PCR parses back to it, whatever the byte order. */
  lemma RoundTrip(p: Pcr, reverse: bool)
    ensures Parse(Image(p, reverse)[4..], 0, reverse) == Ok(p)
  {
    var w1, w2, w3 := U32Wire(p.partsTested, reverse), U32Wire(p.partsRetested, reverse), U32Wire(p.aborts, reverse);
    var w4, w5 := U32Wire(p.goodParts, reverse), U32Wire(p.functionalParts, reverse);
    var d := Image(p, reverse)[4..];
    FieldsAfterHeader(p, reverse);
    ReadU32Front(d, 2, p.partsTested, reverse, w2 + (w3 + (w4 + w5)));
    ReadU32Front(d, 6, p.partsRetested, reverse, w3 + (w4 + w5));
    ReadU32Front(d, 10, p.aborts, reverse, w4 + w5);
    ReadU32Front(d, 14, p.goodParts, reverse, w5);
    ReadU32Front(d, 18, p.functionalParts, reverse, []);
  }

  /** After the four header bytes come head, site and the five counts in order. */
  lemma FieldsAfterHeader(p: Pcr, reverse: bool)
    ensures |Image(p, reverse)[4..]| == 22
    ensures Image(p, reverse)[4..][0] == p.headNumber && Image(p, reverse)[4..][1] == p.siteNumber
    ensures Image(p, reverse)[4..][2..] == U32Wire(p.partsTested, reverse) + (U32Wire(p.partsRetested, reverse)
      + (U32Wire(p.aborts, reverse) + (U32Wire(p.goodParts, reverse) + U32Wire(p.functionalParts, reverse))))
  {
    var w1, w2, w3 := U32Wire(p.partsTested, reverse), U32Wire(p.partsRetested, reverse), U32Wire(p.aborts, reverse);
    var w4, w5 := U32Wire(p.goodParts, reverse), U32Wire(p.functionalParts, reverse);
    assert Image(p, reverse)[4..] == [p.headNumber, p.siteNumber] + (w1 + (w2 + (w3 + (w4 + w5))));
  }

  /** A body of only head and site parses with every count 0. */
  lemma ShortBodyCountsZero(head: byte, site: byte, reverse: bool)
    ensures Parse([head, site], 0, reverse) == Ok(Pcr(head, site, 0, 0, 0, 0, 0))
  {
  }
}
