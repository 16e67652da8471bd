/**
 * PIR, the Part Information Record (5, 10): the head and site a part is
 * about to be tested on.
 */
module Pir {
  import opened Primitives
  import opened ValueConverter

  const RecordType: byte := 5
  const RecordSubtype: byte := 10

  datatype Pir = Pir(headNumber: byte, siteNumber: byte)

  /** Parse: two indexed bytes; a short body throws IndexOutOfRange. */
  function Parse(data: seq<byte>, offset: nat): (r: Result<Pir>)
  {
    var head :- ByteAt(data, offset);
    var site :- ByteAt(data, offset + 1);
    Ok(Pir(head, site))
  }

  function Length(p: Pir): u16
  {
    6
  }

  /** REC_LEN holds the final write index, 6, which counts the header too. */
  function Image(p: Pir, reverse: bool): (b: seq<byte>)
    ensures |b| == Length(p)
  {
    U16Wire(6, reverse) + [RecordType, RecordSubtype, p.headNumber, p.siteNumber]
  }

  /**
   * SetBytes: the header pair, head and site stored from `offset + 2`,
   * then the length written at `offset`; it reports 6.
   */
  function Encode(p: Pir, buf: seq<byte>, offset: nat, reverse: bool): (s: Step<nat>)
  {
    var body :- Put(buf, offset + 2, [RecordType, RecordSubtype, p.headNumber, p.siteNumber], 6);
    var len :- PutU16(body.buf, body.value, offset, reverse);
    Yield(len.buf, body.value)
  }

  method SetBytes(p: Pir, conv: StdfValueConverter, dest: array<byte>, offset: nat) returns (r: Result<nat>)
    modifies dest
    ensures Step(dest[..], r) == Encode(p, old(dest[..]), offset, conv.reverseBytesOnWrite)
  {
    var idx := 2;
    var ok := StoreBytes([RecordType, RecordSubtype, p.headNumber, p.siteNumber], dest, offset + idx);
    if !ok {
      return Err(IndexOutOfRange);
    }
    idx := idx + 4;
    r := conv.SetUint16(idx, dest, offset);
    if r.Ok? {
      r := Ok(idx);
    }
  }

  /**
   * SetBytes succeeds exactly when the six bytes fit, and then leaves the
   * image at `offset`, every other byte unchanged, and reports the Length.
   */
  lemma EncodeImage(p: Pir, buf: seq<byte>, offset: nat, reverse: bool)
    ensures Encode(p, buf, offset, reverse).result.Ok? <==> offset + 6 <= |buf|
    ensures Encode(p, buf, offset, reverse).result.Ok? ==>
      && Encode(p, buf, offset, reverse).buf == Stored(buf, offset, Image(p, reverse))
      && Encode(p, buf, offset, reverse).result.value == Length(p)
  {
    StoredFront(buf, offset, U16Wire(6, reverse), [RecordType, RecordSubtype, p.headNumber, p.siteNumber]);
  }

  /** The body of a written PIR parses back to it. */
  lemma RoundTrip(p: Pir, reverse: bool)
    ensures Parse(Image(p, reverse)[4..], 0) == Ok(p)
  {
  }

  /** Parse fails exactly when fewer than two bytes follow `offset`. */
  lemma ParseNeedsTwo(data: seq<byte>, offset: nat)
    ensures Parse(data, offset).Err? <==> offset + 2 > |data|
    ensures Parse(data, offset).Ok? ==> Parse(data, offset).value == Pir(data[offset], data[offset + 1])
  {
  }
}
