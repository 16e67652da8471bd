/**
 * The bin summaries HBR (1, 40) and SBR (1, 50) share one layout and one
 * reader: head, site, a U*2 bin number, a U*4 part count, a C*1
 * pass/fail indicator and an optional C*n bin name. Their Length() is the
 * same too. Only their SetBytes differ (see the Hbr and Sbr modules).
 */
module BinRecord {
  import opened Primitives
  import opened ValueConverter
  import opened RecordBase

  const RecordType: byte := 1

  datatype Bin = Bin(
    headNumber: byte,
    siteNumber: byte,
    binNumber: u16,
    partsInBin: u32,
    passFail: char,
    binName: Option<string>)

  /**
   * Parse: head and site are indexed (IndexOutOfRange), the bin number
   * must fit (TwoBytesOutOfRange), the count reads 0 past the end, the
   * pass/fail byte is indexed, and the name is null when the body ends
   * after it.
   */
  function Parse(data: seq<byte>, offset: nat, reverse: bool): (r: Result<Bin>)
  {
    var head :- ByteAt(data, offset);
    var site :- ByteAt(data, offset + 1);
    var bin :- UInt16At(data, offset + 2, reverse);
    var parts := UInt32At(data, bin.next, reverse);
    var passFail :- CharAt(data, parts.next);
    var name :- GetStringAndUpdateOffset(data, parts.next + 1);
    Ok(Bin(head, site, bin.value, parts.value, passFail, name.value))
  }

  /** Length(): 13, plus a length byte and the characters for a name; a name over 255 throws. */
  function Length(b: Bin): (r: Result<u16>)
  {
    if b.binName.None? then Ok(13)
    else if |b.binName.value| > 255 then Err(StringTooLong)
    else Ok(13 + |b.binName.value| + 1)
  }

  /** The values Length() and a C*n writer accept: a byte-sized pass/fail char and a name of at most 255. */
  predicate Writable(b: Bin)
  {
    b.passFail as int <= 0xFF && (b.binName.Some? ==> |b.binName.value| <= 255)
  }

  /** The fixed part of the body, the nine bytes before the name. */
  function Fixed(b: Bin, reverse: bool): (f: seq<byte>)
    requires Writable(b)
    ensures |f| == 9
  {
    [b.headNumber, b.siteNumber] + U16Wire(b.binNumber, reverse) + U32Wire(b.partsInBin, reverse) + [b.passFail as int]
  }

  /** The STDF V4 body of a bin summary: every field in order, the name as C*n. */
  function Fields(b: Bin, reverse: bool): (f: seq<byte>)
    requires Writable(b)
    ensures |f| == 9 + CnLength(b.binName)
  {
    Fixed(b, reverse) + CnImage(b.binName)
  }

  /** Length() counts exactly the header and the STDF V4 body of a writable value. */
  lemma LengthCountsFields(b: Bin, reverse: bool)
    requires Writable(b)
    ensures Length(b) == Ok(4 + |Fields(b, reverse)|)
  {
  }

  /** Length() throws exactly for a name over 255 characters. */
  lemma LengthThrows(b: Bin)
    ensures Length(b).Err? <==> b.binName.Some? && |b.binName.value| > 255
    ensures Length(b).Err? ==> Length(b).error == StringTooLong
  {
  }

  /** The STDF V4 body of an ASCII bin summary parses back to it. */
  lemma FieldsRoundTrip(b: Bin, reverse: bool)
    requires Writable(b) && (b.binName.Some? ==> IsAscii(b.binName.value))
    ensures Parse(Fields(b, reverse), 0, reverse) == Ok(b)
  {
    var d := Fields(b, reverse);
    assert d[2..4] == U16Wire(b.binNumber, reverse);
    assert d[4..8] == U32Wire(b.partsInBin, reverse);
    ReadU16Wire(d, 2, b.binNumber, reverse);
    ReadU32Wire(d, 4, b.partsInBin, reverse);
    FieldRoundTrip(Fixed(b, reverse), b.binName);
  }

  /** A body that ends after the pass/fail byte gives a null name. */
  lemma NoNameAtEnd(b: Bin, reverse: bool)
    requires Writable(b) && b.binName.None?
    ensures |Fields(b, reverse)| == 9
    ensures Parse(Fields(b, reverse), 0, reverse) == Ok(b)
  {
    FieldsRoundTrip(b, reverse);
  }

  /**
   * SetBytes as the layout intends it: header, head, site, bin number,
   * count and pass/fail byte from `offset + 2`, each advancing the index,
   * then the name as C*n and `idx - 4` as the length (CnTail).
   */
  function EncodeIntended(b: Bin, subtype: byte, buf: seq<byte>, offset: nat, reverse: bool): (s: Step<nat>)
  {
    var front :- Put(buf, offset + 2, [RecordType, subtype, b.headNumber, b.siteNumber], 6);
    var bin :- PutU16(front.buf, b.binNumber, offset + 6, reverse);
    var parts :- PutU32(bin.buf, b.partsInBin, offset + 8, reverse);
    var passFail :- PutConverted(parts.buf, b.passFail, offset + 12);
    CnTail(b.binName, passFail.buf, offset, 13, reverse)
  }

  /** The header pair and the fixed fields, the eleven bytes stored from `offset + 2`. */
  function IntendedFront(b: Bin, subtype: byte, reverse: bool): (f: seq<byte>)
    requires Writable(b)
    ensures |f| == 11
  {
    [RecordType, subtype] + Fixed(b, reverse)
  }

  /** The record EncodeIntended writes: REC_LEN holds the body's size. */
  function IntendedImage(b: Bin, subtype: byte, reverse: bool): (r: seq<byte>)
    requires Writable(b)
    ensures |r| == 4 + |Fields(b, reverse)|
  {
    U16Wire(9 + |CnImage(b.binName)|, reverse) + (IntendedFront(b, subtype, reverse) + CnImage(b.binName))
  }

  /** The corrected SetBytes succeeds exactly for writable values whose image fits. */
  lemma IntendedValid(b: Bin, subtype: byte, buf: seq<byte>, offset: nat, reverse: bool)
    ensures EncodeIntended(b, subtype, buf, offset, reverse).result.Ok? <==>
      Writable(b) && offset + 13 + |CnImage(b.binName)| <= |buf|
  {
    if Writable(b) && offset + 13 <= |buf| {
      var front := Put(buf, offset + 2, [RecordType, subtype, b.headNumber, b.siteNumber], 6);
      var bin := PutU16(front.buf, b.binNumber, offset + 6, reverse);
      var parts := PutU32(bin.buf, b.partsInBin, offset + 8, reverse);
      var passFail := PutConverted(parts.buf, b.passFail, offset + 12);
      CnTailFits(b.binName, passFail.buf, offset, 13, reverse);
    }
  }

  /**
   * The corrected SetBytes leaves the intended image at `offset`, every
   * other byte unchanged, and reports its size, which is Length().
   */
  lemma IntendedWritten(b: Bin, subtype: byte, buf: seq<byte>, offset: nat, reverse: bool)
    requires Writable(b) && offset + 13 + |CnImage(b.binName)| <= |buf|
    ensures EncodeIntended(b, subtype, buf, offset, reverse)
      == Step(Stored(buf, offset, IntendedImage(b, subtype, reverse)), Ok(|IntendedImage(b, subtype, reverse)|))
    ensures Length(b) == Ok(|IntendedImage(b, subtype, reverse)|)
  {
    FrontWritten(b, subtype, buf, offset, reverse);
    CnTailWritten(b.binName, IntendedFront(b, subtype, reverse), buf, offset, reverse);
  }

  /** The four fixed stores leave the front from `offset + 2`; the name follows. */
  lemma FrontWritten(b: Bin, subtype: byte, buf: seq<byte>, offset: nat, reverse: bool)
    requires Writable(b) && offset + 13 <= |buf|
    ensures EncodeIntended(b, subtype, buf, offset, reverse)
      == CnTail(b.binName, Stored(buf, offset + 2, IntendedFront(b, subtype, reverse)), offset, 13, reverse)
  {
    var h: seq<byte> := [RecordType, subtype, b.headNumber, b.siteNumber];
    var w16, w32 := U16Wire(b.binNumber, reverse), U32Wire(b.partsInBin, reverse);
    var p: seq<byte> := [b.passFail as int];
    StoredConcat(buf, offset + 2, h, w16);
    StoredConcat(buf, offset + 2, h + w16, w32);
    StoredConcat(buf, offset + 2, h + w16 + w32, p);
    assert h + w16 + w32 + p == IntendedFront(b, subtype, reverse);
  }

  /** Past its four header bytes, the intended image is the STDF V4 body, and it reads back. */
  lemma IntendedRoundTrip(b: Bin, subtype: byte, reverse: bool)
    requires Writable(b) && (b.binName.Some? ==> IsAscii(b.binName.value))
    ensures IntendedImage(b, subtype, reverse)[4..] == Fields(b, reverse)
    ensures Parse(IntendedImage(b, subtype, reverse)[4..], 0, reverse) == Ok(b)
  {
    FieldsRoundTrip(b, reverse);
  }

  // SetBytes as HBR and SBR write the name (RawName): over the pass/fail byte, with no length byte.

  /** What a raw name leaves over a one-byte field: its characters, or else that byte. */
  function Over(name: Option<string>, p: byte): (l: seq<byte>)
    ensures |l| == if name.Some? && name.value != "" then |name.value| else 1
  {
    if name.Some? && name.value != "" then AsciiEncode(name.value) else [p]
  }

  /** The raw name after a stored front and pass/fail byte: the name's bytes replace the pass/fail byte. */
  lemma RawNameStored(name: Option<string>, p: byte, front: seq<byte>, buf: seq<byte>, at: nat)
    requires name.Some? ==> |name.value| <= 255
    requires at + |front| + |Over(name, p)| <= |buf|
    ensures RawName(name, Stored(buf, at, front + [p]), at + |front|) == Step(Stored(buf, at, front + Over(name, p)), Ok(Width(name)))
  {
    StoredConcat(buf, at, front, [p]);
    if name.Some? && name.value != "" {
      OverPassFail(Stored(buf, at, front), at + |front|, p, AsciiEncode(name.value));
      StoredConcat(buf, at, front, Over(name, p));
    }
  }

  /** A store that starts where an earlier one-byte store went replaces it. */
  lemma OverPassFail(buf: seq<byte>, at: nat, p: byte, bytes: seq<byte>)
    requires bytes != []
    ensures Stored(Stored(buf, at, [p]), at, bytes) == Stored(buf, at, bytes)
  {
    StoredAt(buf, at, [p]);
    StoredAt(Stored(buf, at, [p]), at, bytes);
    StoredAt(buf, at, bytes);
  }
}
