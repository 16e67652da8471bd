/**
 * DTR, the Datalog Text Record (50, 30): one optional line of text. It is
 * the one writer here that stores the body length, LengthNoHeader(), in
 * REC_LEN, and it copies the text with its own loop.
 */
module Dtr {
  import opened Primitives
  import opened ValueConverter
  import opened RecordBase

  const RecordType: byte := 50
  const RecordSubtype: byte := 30

  datatype Dtr = Dtr(text: Option<string>)

  /** Parse: one C*n at `offset`; an empty body gives a null text. */
  function Parse(data: seq<byte>, offset: nat): (r: Result<Dtr>)
  {
    var text :- GetStringAndUpdateOffset(data, offset);
    Ok(Dtr(text.value))
  }

  /** Length(): 4, plus a count byte and the characters of a text; a text over 255 throws. */
  function Length(d: Dtr): (r: Result<u16>)
  {
    if d.text.None? then Ok(4)
    else if |d.text.value| > 255 then Err(StringTooLong)
    else Ok(4 + |d.text.value| + 1)
  }

  /** The values Length() accepts: a text of at most 255 characters. */
  predicate Writable(d: Dtr)
  {
    d.text.Some? ==> |d.text.value| <= 255
  }

  /** What SetBytes leaves at `offset`: the body length, the header pair, then the text as C*n. */
  function Image(d: Dtr, reverse: bool): (b: seq<byte>)
    requires Writable(d)
  {
    U16Wire(CnLength(d.text), reverse) + [RecordType, RecordSubtype] + CnImage(d.text)
  }

  /** The text part of SetBytes: the count byte at `offset + 4`, then the ASCII bytes from `offset + 5`. */
  function PutText(buf: seq<byte>, text: Option<string>, offset: nat): (s: Step<nat>)
    requires text.Some? ==> |text.value| <= 255
  {
    if text.None? then Yield(buf, 0)
    else
      var count :- PutByte(buf, |text.value|, offset + 4);
      Put(count.buf, offset + 5, AsciiEncode(text.value), |text.value| + 1)
  }

  /** SetBytes before the text: the length through SetUint16 at `offset`, then the header pair. */
  function PutHead(buf: seq<byte>, length: u16, offset: nat, reverse: bool): (s: Step<nat>)
  {
    var len :- PutU16(buf, length, offset, reverse);
    var typ :- PutByte(len.buf, RecordType, offset + 2);
    PutByte(typ.buf, RecordSubtype, offset + 3)
  }

  /**
   * SetBytes: LengthNoHeader() (so Length() and its throw come first),
   * the head, the text, and the ushort `length + 4` as the result.
   */
  function Encode(d: Dtr, buf: seq<byte>, offset: nat, reverse: bool): (s: Step<nat>)
  {
    match Length(d)
    case Err(e) => Throw(buf, e)
    case Ok(size) =>
      var length := LengthNoHeader(size);
      var head :- PutHead(buf, length, offset, reverse);
      var text :- PutText(head.buf, d.text, offset);
      Yield(text.buf, (length + 4) % 0x1_0000)
  }

  /** The text copy loop, one array slot per character. */
  method WriteText(text: Option<string>, conv: StdfValueConverter, dest: array<byte>, offset: nat) returns (r: Result<nat>)
    requires text.Some? ==> |text.value| <= 255
    modifies dest
    ensures Step(dest[..], r) == PutText(old(dest[..]), text, offset)
  {
    if text.None? {
      return Ok(0);
    }
    var s := text.value;
    var n :- conv.SetByte(|s|, dest, offset + 4);
    ghost var counted := dest[..];
    var ascii := AsciiEncode(s);
    var i := 0;
    while i < |ascii|
      invariant 0 <= i <= |ascii|
      invariant dest[..] == Stored(counted, offset + 5, ascii[..i])
      invariant i > 0 ==> offset + 5 + i <= dest.Length
    {
      if offset + 5 + i >= dest.Length {
        StoredPastEnd(counted, offset + 5, ascii, i);
        return Err(IndexOutOfRange);
      }
      StoredNext(counted, offset + 5, ascii, i);
      dest[offset + 5 + i] := ascii[i];
      i := i + 1;
    }
    assert ascii[..i] == ascii;
    r := Ok(|s| + 1);
  }

  method SetBytes(d: Dtr, conv: StdfValueConverter, dest: array<byte>, offset: nat) returns (r: Result<nat>)
    modifies dest
    ensures Step(dest[..], r) == Encode(d, old(dest[..]), offset, conv.reverseBytesOnWrite)
  {
    var size :- Length(d);
    var length := LengthNoHeader(size);
    var n :- conv.SetUint16(length, dest, offset);
    n :- conv.SetByte(RecordType, dest, offset + 2);
    n :- conv.SetByte(RecordSubtype, dest, offset + 3);
    n :- WriteText(d.text, conv, dest, offset);
    r := Ok((length + 4) % 0x1_0000);
  }

  /** Length() accepts exactly the writable values and then counts the image's bytes. */
  lemma LengthCounts(d: Dtr, reverse: bool)
    ensures Length(d).Ok? <==> Writable(d)
    ensures Length(d).Err? ==> Length(d).error == StringTooLong
    ensures Writable(d) ==> Length(d).value == |Image(d, reverse)| && |Image(d, reverse)| <= 260
  {
  }

  /** The head is written exactly when its four bytes fit, and then holds the length and the header pair. */
  lemma HeadWritten(buf: seq<byte>, length: u16, offset: nat, reverse: bool)
    ensures PutHead(buf, length, offset, reverse).result.Ok? <==> offset + 4 <= |buf|
    ensures PutHead(buf, length, offset, reverse).result.Ok? ==>
      PutHead(buf, length, offset, reverse).buf == Stored(buf, offset, U16Wire(length, reverse) + [RecordType, RecordSubtype])
  {
    var w := U16Wire(length, reverse);
    StoredConcat(buf, offset, w, [RecordType]);
    StoredConcat(buf, offset, w + [RecordType], [RecordSubtype]);
    assert w + [RecordType] + [RecordSubtype] == w + [RecordType, RecordSubtype];
  }

  /** The text part stores the text's C*n bytes exactly when they fit. */
  lemma TextWritten(buf: seq<byte>, text: Option<string>, offset: nat)
    requires text.Some? ==> |text.value| <= 255
    ensures PutText(buf, text, offset).result.Ok? <==> Fits(|buf|, offset + 4, CnImage(text))
    ensures PutText(buf, text, offset).result.Ok? ==> PutText(buf, text, offset).buf == Stored(buf, offset + 4, CnImage(text))
  {
    if text.Some? {
      StoredConcat(buf, offset + 4, [|text.value|], AsciiEncode(text.value));
      assert [|text.value|] + AsciiEncode(text.value) == CnImage(text);
    }
  }

  /**
   * An over-long text throws before anything is written; otherwise
   * SetBytes succeeds exactly when the image fits, and then leaves the
   * image at `offset`, every other byte unchanged, and reports Length().
   */
  lemma EncodeImage(d: Dtr, buf: seq<byte>, offset: nat, reverse: bool)
    ensures !Writable(d) ==> Encode(d, buf, offset, reverse) == Throw(buf, StringTooLong)
    ensures Writable(d) ==>
      && (Encode(d, buf, offset, reverse).result.Ok? <==> offset + |Image(d, reverse)| <= |buf|)
      && (Encode(d, buf, offset, reverse).result.Ok? ==>
        && Encode(d, buf, offset, reverse).buf == Stored(buf, offset, Image(d, reverse))
        && Encode(d, buf, offset, reverse).result == Ok(Length(d).value))
  {
    if Writable(d) {
      var cn := CnImage(d.text);
      assert |cn| == CnLength(d.text);
      var head := U16Wire(CnLength(d.text), reverse) + [RecordType, RecordSubtype];
      LengthCounts(d, reverse);
      assert LengthNoHeader(Length(d).value) == CnLength(d.text);
      UshortFits(CnLength(d.text) + 4);
      HeadWritten(buf, CnLength(d.text), offset, reverse);
      TextWritten(Stored(buf, offset, head), d.text, offset);
      StoredConcat(buf, offset, head, cn);
    }
  }

  /** REC_LEN in the image holds the body length: the image's size less the four header bytes. */
  lemma LengthFieldIsBody(d: Dtr, reverse: bool)
    requires Writable(d)
    ensures UInt16At(Image(d, reverse), 0, reverse) == Ok(Read(|Image(d, reverse)| - 4, 2))
  {
    var cn, n := CnImage(d.text), CnLength(d.text);
    assert |cn| == n;
    var image := Image(d, reverse);
    assert image == U16Wire(n, reverse) + ([RecordType, RecordSubtype] + cn);
    ReadU16Front(n, [RecordType, RecordSubtype] + cn, reverse);
    assert |image| - 4 == n;
  }

  /** The body of a written DTR parses back to it, a null and an empty text included, when the text is ASCII. */
  lemma RoundTrip(d: Dtr, reverse: bool)
    requires Writable(d) && (d.text.Some? ==> IsAscii(d.text.value))
    ensures Parse(Image(d, reverse)[4..], 0) == Ok(d)
  {
    assert Image(d, reverse)[4..] == [] + CnImage(d.text);
    FieldRoundTrip([], d.text);
  }

  /** An empty body is a DTR without text; a zero count byte is the empty text. */
  lemma ShortBodies()
    ensures Parse([], 0) == Ok(Dtr(None))
    ensures Parse([0], 0) == Ok(Dtr(Some("")))
    ensures Parse([3, 65], 0) == Err(StringOverrun)
  {
  }
}
