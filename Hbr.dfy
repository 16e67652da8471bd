/**
 * HBR, the Hardware Bin Record (1, 40). Its layout, reader and Length()
 * are the shared bin summary ones (BinRecord); this module is its
 * SetBytes, which differs from the layout in three ways: the pass/fail
 * byte is stored without advancing the index, so a non-empty name
 * overwrites it; the name is stored without its length byte; and
 * REC_LEN holds the final index, which counts the two length bytes.
 */
module Hbr {
  import opened Primitives
  import opened ValueConverter
  import opened RecordBase
  import opened BinRecord

  const RecordSubtype: byte := 40

  /** SetBytes up to the pass/fail byte: four direct stores, the bin number and the count; the index is then 12. */
  function EncodeFixed(b: Bin, buf: seq<byte>, offset: nat, reverse: bool): (s: Step<nat>)
  {
    var front :- Put(buf, offset + 2, [RecordType, RecordSubtype, b.headNumber, b.siteNumber], 6);
    var bin :- PutU16(front.buf, b.binNumber, offset + 6, reverse);
    var parts :- PutU32(bin.buf, b.partsInBin, offset + 8, reverse);
    var passFail :- PutConverted(parts.buf, b.passFail, offset + 12);
    Yield(passFail.buf, 12)
  }

  /**
   * The rest of SetBytes: a present name through the unprefixed writer
   * at the same index as the pass/fail byte, the ushort index added up,
   * and that index stored as the length at `offset`; it reports the index.
   */
  function EncodeName(name: Option<string>, buf: seq<byte>, offset: nat, reverse: bool): (s: Step<nat>)
  {
    var written :- RawName(name, buf, offset + 12);
    var idx := (12 + written.value) % 0x1_0000;
    var len :- PutU16(written.buf, idx, offset, reverse);
    Yield(len.buf, idx)
  }

  function Encode(b: Bin, buf: seq<byte>, offset: nat, reverse: bool): (s: Step<nat>)
  {
    var idx :- EncodeFixed(b, buf, offset, reverse);
    EncodeName(b.binName, idx.buf, offset, reverse)
  }

  method WriteFixed(b: Bin, conv: StdfValueConverter, dest: array<byte>, offset: nat) returns (r: Result<nat>)
    modifies dest
    ensures Step(dest[..], r) == EncodeFixed(b, old(dest[..]), offset, conv.reverseBytesOnWrite)
  {
    var ok := StoreBytes([RecordType, RecordSubtype, b.headNumber, b.siteNumber], dest, offset + 2);
    if !ok {
      return Err(IndexOutOfRange);
    }
    var n :- conv.SetUint16(b.binNumber, dest, offset + 6);
    n :- conv.SetUint32(b.partsInBin, dest, offset + 8);
    n :- StoreConverted(b.passFail, dest, offset + 12);
    r := Ok(12);
  }

  method WriteName(name: Option<string>, conv: StdfValueConverter, dest: array<byte>, offset: nat) returns (r: Result<nat>)
    modifies dest
    ensures Step(dest[..], r) == EncodeName(name, old(dest[..]), offset, conv.reverseBytesOnWrite)
  {
    var w :- WriteRawName(name, conv, dest, offset + 12);
    UshortFits(12 + w);
    var idx := (12 + w) % 0x1_0000;
    r := conv.SetUint16(idx, dest, offset);
    if r.Ok? {
      r := Ok(idx);
    }
  }

  method SetBytes(b: Bin, conv: StdfValueConverter, dest: array<byte>, offset: nat) returns (r: Result<nat>)
    modifies dest
    ensures Step(dest[..], r) == Encode(b, old(dest[..]), offset, conv.reverseBytesOnWrite)
  {
    var idx :- WriteFixed(b, conv, dest, offset);
    r := WriteName(b.binName, conv, dest, offset);
  }

  /** What the name leaves in the byte after the count: its characters, or else the pass/fail byte. */
  function Last(b: Bin): (l: seq<byte>)
    requires Writable(b)
    ensures |l| == if b.binName.Some? && b.binName.value != "" then |b.binName.value| else 1
  {
    Over(b.binName, b.passFail as int)
  }

  /** The index SetBytes reaches: 12, plus the name's characters. */
  function Index(b: Bin): nat
  {
    12 + Width(b.binName)
  }

  /** The header pair, head, site, bin number and count: ten bytes from `offset + 2`. */
  function Front(b: Bin, reverse: bool): (f: seq<byte>)
    ensures |f| == 10
  {
    [RecordType, RecordSubtype, b.headNumber, b.siteNumber] + U16Wire(b.binNumber, reverse) + U32Wire(b.partsInBin, reverse)
  }

  /** The bytes SetBytes leaves at `offset`: the index as REC_LEN, the front, and the name over the pass/fail byte. */
  function Image(b: Bin, reverse: bool): (r: seq<byte>)
    requires Writable(b)
    ensures |r| == 12 + |Last(b)|
  {
    U16Wire(Index(b), reverse) + (Front(b, reverse) + Last(b))
  }

  /** SetBytes succeeds exactly for a writable value whose bytes fit. */
  lemma EncodeValid(b: Bin, buf: seq<byte>, offset: nat, reverse: bool)
    ensures Encode(b, buf, offset, reverse).result.Ok? <==> Writable(b) && offset + |Image(b, reverse)| <= |buf|
  {
    FixedFits(b, buf, offset, reverse);
    if EncodeFixed(b, buf, offset, reverse).result.Ok? {
      NameFits(b, EncodeFixed(b, buf, offset, reverse).buf, offset, reverse);
    }
  }

  lemma FixedFits(b: Bin, buf: seq<byte>, offset: nat, reverse: bool)
    ensures EncodeFixed(b, buf, offset, reverse).result.Ok? <==> b.passFail as int <= 0xFF && offset + 13 <= |buf|
    ensures |EncodeFixed(b, buf, offset, reverse).buf| == |buf|
  {
  }

  lemma NameFits(b: Bin, buf: seq<byte>, offset: nat, reverse: bool)
    requires b.passFail as int <= 0xFF && offset + 13 <= |buf|
    ensures EncodeName(b.binName, buf, offset, reverse).result.Ok? <==> Writable(b) && offset + 12 + |Last(b)| <= |buf|
  {
  }

  /**
   * A successful SetBytes leaves the image at `offset`, every other byte
   * unchanged, and reports the index, 12 plus the name's characters.
   */
  lemma EncodeWritten(b: Bin, buf: seq<byte>, offset: nat, reverse: bool)
    requires Writable(b) && offset + |Image(b, reverse)| <= |buf|
    ensures Encode(b, buf, offset, reverse) == Step(Stored(buf, offset, Image(b, reverse)), Ok(Index(b)))
  {
    FixedWritten(b, buf, offset, reverse);
    NameWritten(b, buf, offset, reverse);
  }

  lemma FixedWritten(b: Bin, buf: seq<byte>, offset: nat, reverse: bool)
    requires b.passFail as int <= 0xFF && offset + 13 <= |buf|
    ensures EncodeFixed(b, buf, offset, reverse) == Step(Stored(buf, offset + 2, Front(b, reverse) + [b.passFail as int]), Ok(12))
  {
    var h: seq<byte> := [RecordType, RecordSubtype, b.headNumber, b.siteNumber];
    var w16 := U16Wire(b.binNumber, reverse);
    StoredConcat(buf, offset + 2, h, w16);
    StoredConcat(buf, offset + 2, h + w16, U32Wire(b.partsInBin, reverse));
    StoredConcat(buf, offset + 2, Front(b, reverse), [b.passFail as int]);
  }

  /** The name goes over the pass/fail byte; then the index goes in front. */
  lemma NameWritten(b: Bin, buf: seq<byte>, offset: nat, reverse: bool)
    requires Writable(b) && offset + |Image(b, reverse)| <= |buf|
    ensures EncodeName(b.binName, Stored(buf, offset + 2, Front(b, reverse) + [b.passFail as int]), offset, reverse)
      == Step(Stored(buf, offset, Image(b, reverse)), Ok(Index(b)))
  {
    var f, p := Front(b, reverse), b.passFail as int;
    var mid := Stored(buf, offset + 2, f + Over(b.binName, p));
    RawNameStored(b.binName, p, f, buf, offset + 2);
    IndexWritten(b.binName, Stored(buf, offset + 2, f + [p]), offset, reverse, mid, Width(b.binName));
    StoredFront(buf, offset, U16Wire(Index(b), reverse), f + Last(b));
  }

  /** Once the raw name has left `mid` and reported `w`, the index `12 + w` goes in front as REC_LEN. */
  lemma IndexWritten(name: Option<string>, buf: seq<byte>, offset: nat, reverse: bool, mid: seq<byte>, w: nat)
    requires RawName(name, buf, offset + 12) == Step(mid, Ok(w))
    requires offset + 2 <= |mid|
    ensures EncodeName(name, buf, offset, reverse) == Step(Stored(mid, offset, U16Wire(12 + w, reverse)), Ok(12 + w))
  {
    UshortFits(12 + w);
  }

  /** Without a name, what SetBytes writes after the header is the STDF V4 body, and it reads back. */
  lemma NullNameRoundTrip(b: Bin, reverse: bool)
    requires Writable(b) && b.binName.None?
    ensures Image(b, reverse)[4..] == Fields(b, reverse)
    ensures Parse(Image(b, reverse)[4..], 0, reverse) == Ok(b)
  {
    FieldsRoundTrip(b, reverse);
  }

  /**
   * With a non-empty name the written record never reads back as the
   * value: the name's first byte is read as the pass/fail char and the
   * name that follows is shorter, or missing.
   */
  lemma NamedNeverRoundTrips(b: Bin, reverse: bool)
    requires Writable(b) && b.binName.Some? && b.binName.value != ""
    ensures Parse(Image(b, reverse)[4..], 0, reverse) != Ok(b)
  {
    var s := b.binName.value;
    var d := Image(b, reverse)[4..];
    assert |d| == 8 + |s|;
    var r := Parse(d, 0, reverse);
    if r.Ok? {
      var name := GetStringAndUpdateOffset(d, 9);
      assert name.Ok? && r.value.binName == name.value.value;
      if |s| > 1 {
        assert name.value.value.Some? ==> |name.value.value.value| <= |s| - 2;
      }
    }
  }

  /**
   * Length() agrees with the bytes SetBytes writes only when there is no
   * name; and the index SetBytes reports is always less than Length().
   */
  lemma LengthDisagrees(b: Bin, reverse: bool)
    requires Writable(b)
    ensures Length(b).Ok?
    ensures Length(b).value == |Image(b, reverse)| <==> b.binName.None?
    ensures Index(b) < Length(b).value
  {
  }
}
