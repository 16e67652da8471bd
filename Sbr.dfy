/**
 * SBR, the Software Bin Record (1, 50). Its layout, reader and Length()
 * are the shared bin summary ones (BinRecord); this module is its
 * SetBytes, which writes less than the layout: the bin number is never
 * stored, so the count follows the site directly; the pass/fail byte is
 * stored without advancing the index, so a non-empty name overwrites it;
 * the name has no length byte; REC_LEN holds the index reached, and the
 * value reported is that index plus the two length bytes.
 */
module Sbr {
  import opened Primitives
  import opened ValueConverter
  import opened RecordBase
  import opened BinRecord

  const RecordSubtype: byte := 50

  /** SetBytes up to the pass/fail byte: four direct stores and the count; the index is then 10. */
  function EncodeFixed(b: Bin, buf: seq<byte>, offset: nat, reverse: bool): (s: Step<nat>)
  {
    var front :- Put(buf, offset + 2, [RecordType, RecordSubtype, b.headNumber, b.siteNumber], 6);
    var parts :- PutU32(front.buf, b.partsInBin, offset + 6, reverse);
    var passFail :- PutConverted(parts.buf, b.passFail, offset + 10);
    Yield(passFail.buf, 10)
  }

  /**
   * The rest of SetBytes: a present name through the unprefixed writer at
   * the pass/fail byte's index, the index stored as the length at
   * `offset`, and the index plus the two bytes SetUint16 reports returned.
   */
  function EncodeName(name: Option<string>, buf: seq<byte>, offset: nat, reverse: bool): (s: Step<nat>)
  {
    var written :- RawName(name, buf, offset + 10);
    var idx := (10 + written.value) % 0x1_0000;
    var len :- PutU16(written.buf, idx, offset, reverse);
    Yield(len.buf, (idx + len.value) % 0x1_0000)
  }

  function Encode(b: Bin, buf: seq<byte>, offset: nat, reverse: bool): (s: Step<nat>)
  {
    var idx :- EncodeFixed(b, buf, offset, reverse);
    EncodeName(b.binName, idx.buf, offset, reverse)
  }

  method WriteFixed(b: Bin, conv: StdfValueConverter, dest: array<byte>, offset: nat) returns (r: Result<nat>)
    modifies dest
    ensures Step(dest[..], r) == EncodeFixed(b, old(dest[..]), offset, conv.reverseBytesOnWrite)
  {
    var ok := StoreBytes([RecordType, RecordSubtype, b.headNumber, b.siteNumber], dest, offset + 2);
    if !ok {
      return Err(IndexOutOfRange);
    }
    var n :- conv.SetUint32(b.partsInBin, dest, offset + 6);
    n :- StoreConverted(b.passFail, dest, offset + 10);
    r := Ok(10);
  }

  method WriteName(name: Option<string>, conv: StdfValueConverter, dest: array<byte>, offset: nat) returns (r: Result<nat>)
    modifies dest
    ensures Step(dest[..], r) == EncodeName(name, old(dest[..]), offset, conv.reverseBytesOnWrite)
  {
    var w :- WriteRawName(name, conv, dest, offset + 10);
    UshortFits(10 + w);
    var idx := (10 + w) % 0x1_0000;
    var n :- conv.SetUint16(idx, dest, offset);
    UshortFits(idx + 2);
    r := Ok((idx + n) % 0x1_0000);
  }

  method SetBytes(b: Bin, conv: StdfValueConverter, dest: array<byte>, offset: nat) returns (r: Result<nat>)
    modifies dest
    ensures Step(dest[..], r) == Encode(b, old(dest[..]), offset, conv.reverseBytesOnWrite)
  {
    var idx :- WriteFixed(b, conv, dest, offset);
    r := WriteName(b.binName, conv, dest, offset);
  }

  /** The index SetBytes stores as REC_LEN: 10, plus the name's characters. */
  function Index(b: Bin): nat
  {
    10 + Width(b.binName)
  }

  /** The header pair, head, site and count: eight bytes from `offset + 2`. */
  function Front(b: Bin, reverse: bool): (f: seq<byte>)
    ensures |f| == 8
  {
    [RecordType, RecordSubtype, b.headNumber, b.siteNumber] + U32Wire(b.partsInBin, reverse)
  }

  /** What the name leaves after the count: its characters, or else the pass/fail byte. */
  function Last(b: Bin): (l: seq<byte>)
    requires Writable(b)
    ensures |l| == if b.binName.Some? && b.binName.value != "" then |b.binName.value| else 1
  {
    Over(b.binName, b.passFail as int)
  }

  /** The bytes SetBytes leaves at `offset`: the index as REC_LEN, the front, and the name over the pass/fail byte. */
  function Image(b: Bin, reverse: bool): (r: seq<byte>)
    requires Writable(b)
    ensures |r| == 10 + |Last(b)|
  {
    U16Wire(Index(b), reverse) + (Front(b, reverse) + Last(b))
  }

  /** SetBytes succeeds exactly for a writable value whose bytes fit. */
  lemma EncodeValid(b: Bin, buf: seq<byte>, offset: nat, reverse: bool)
    ensures Encode(b, buf, offset, reverse).result.Ok? <==> Writable(b) && offset + |Image(b, reverse)| <= |buf|
  {
    FixedFits(b, buf, offset, reverse);
    if EncodeFixed(b, buf, offset, reverse).result.Ok? {
      NameFits(b, EncodeFixed(b, buf, offset, reverse).buf, offset, reverse);
    }
  }

  lemma FixedFits(b: Bin, buf: seq<byte>, offset: nat, reverse: bool)
    ensures EncodeFixed(b, buf, offset, reverse).result.Ok? <==> b.passFail as int <= 0xFF && offset + 11 <= |buf|
    ensures |EncodeFixed(b, buf, offset, reverse).buf| == |buf|
  {
  }

  lemma NameFits(b: Bin, buf: seq<byte>, offset: nat, reverse: bool)
    requires b.passFail as int <= 0xFF && offset + 11 <= |buf|
    ensures EncodeName(b.binName, buf, offset, reverse).result.Ok? <==> Writable(b) && offset + 10 + |Last(b)| <= |buf|
  {
  }

  /**
   * A successful SetBytes leaves the image at `offset`, every other byte
   * unchanged, and reports two more than the index it stored as REC_LEN.
   */
  lemma EncodeWritten(b: Bin, buf: seq<byte>, offset: nat, reverse: bool)
    requires Writable(b) && offset + |Image(b, reverse)| <= |buf|
    ensures Encode(b, buf, offset, reverse) == Step(Stored(buf, offset, Image(b, reverse)), Ok(Index(b) + 2))
  {
    FixedWritten(b, buf, offset, reverse);
    NameWritten(b, buf, offset, reverse);
  }

  lemma FixedWritten(b: Bin, buf: seq<byte>, offset: nat, reverse: bool)
    requires b.passFail as int <= 0xFF && offset + 11 <= |buf|
    ensures EncodeFixed(b, buf, offset, reverse) == Step(Stored(buf, offset + 2, Front(b, reverse) + [b.passFail as int]), Ok(10))
  {
    var h: seq<byte> := [RecordType, RecordSubtype, b.headNumber, b.siteNumber];
    StoredConcat(buf, offset + 2, h, U32Wire(b.partsInBin, reverse));
    StoredConcat(buf, offset + 2, Front(b, reverse), [b.passFail as int]);
  }

  /** The name goes over the pass/fail byte; then the index goes in front. */
  lemma NameWritten(b: Bin, buf: seq<byte>, offset: nat, reverse: bool)
    requires Writable(b) && offset + |Image(b, reverse)| <= |buf|
    ensures EncodeName(b.binName, Stored(buf, offset + 2, Front(b, reverse) + [b.passFail as int]), offset, reverse)
      == Step(Stored(buf, offset, Image(b, reverse)), Ok(Index(b) + 2))
  {
    var f, p := Front(b, reverse), b.passFail as int;
    var mid := Stored(buf, offset + 2, f + Over(b.binName, p));
    RawNameStored(b.binName, p, f, buf, offset + 2);
    IndexWritten(b.binName, Stored(buf, offset + 2, f + [p]), offset, reverse, mid, Width(b.binName));
    StoredFront(buf, offset, U16Wire(Index(b), reverse), f + Last(b));
  }

  /** Once the raw name has left `mid` and reported `w`, the index `10 + w` goes in front; two more is reported. */
  lemma IndexWritten(name: Option<string>, buf: seq<byte>, offset: nat, reverse: bool, mid: seq<byte>, w: nat)
    requires RawName(name, buf, offset + 10) == Step(mid, Ok(w))
    requires offset + 2 <= |mid|
    ensures EncodeName(name, buf, offset, reverse) == Step(Stored(mid, offset, U16Wire(10 + w, reverse)), Ok(12 + w))
  {
    UshortFits(10 + w);
    UshortFits(12 + w);
  }

  /**
   * The bin number never reaches the bytes: two values that differ only in
   * it are written identically, so at most one of them can read back.
   */
  lemma BinNumberLost(b: Bin, n: u16, reverse: bool)
    requires Writable(b) && n != b.binNumber
    ensures Image(b.(binNumber := n), reverse) == Image(b, reverse)
    ensures Parse(Image(b, reverse)[4..], 0, reverse) != Ok(b)
      || Parse(Image(b.(binNumber := n), reverse)[4..], 0, reverse) != Ok(b.(binNumber := n))
  {
    assert b.(binNumber := n) != b;
  }

  /**
   * Neither REC_LEN nor the reported index is the record's size: REC_LEN
   * exceeds the body after the header, the reported index exceeds the
   * bytes written, and Length() exceeds both.
   */
  lemma SizesDisagree(b: Bin, reverse: bool)
    requires Writable(b)
    ensures Index(b) > |Image(b, reverse)| - 4
    ensures Index(b) + 2 > |Image(b, reverse)|
    ensures Length(b).Ok? && Length(b).value > Index(b) + 2
  {
  }
}
