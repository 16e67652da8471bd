/**
 * PTR, the Parametric Test Record (15, 10): the most frequent record, so
 * its reader is a hand-made fast path. The test number and result are
 * taken from bytes 0-3 and 8-11 of the data whatever the offset, the head,
 * site and two flag bytes from `offset + 4`; then the description (its
 * length byte unchecked), the alarm name and the optional tail, with an
 * early return wherever the body ends. Length() and SetBytes throw "Not
 * Implemented", SetBytes after writing six bytes.
 */
module Ptr {
  import opened Primitives
  import opened ValueConverter

  const RecordType: byte := 15
  const RecordSubtype: byte := 10

  datatype Ptr = Ptr(
    testNumber: u32,
    headNumber: byte,
    siteNumber: byte,
    testFlags: byte,
    parametricTestFlags: byte,
    testResult: Float32Bits,
    testDescription: Option<string>,
    alarmName: Option<string>,
    optionalDataFlag: byte,
    resultExponent: i8,
    lowLimitExponent: i8,
    highLimitExponent: i8,
    lowTestLimit: Float32Bits,
    highTestLimit: Float32Bits,
    testUnits: Option<string>,
    resultFormat: Option<string>,
    lowLimitFormat: Option<string>,
    highLimitFormat: Option<string>,
    lowSpecLimit: Float32Bits,
    highSpecLimit: Float32Bits)

  /** The `(sbyte)` cast of a byte. */
  function SByte(b: byte): (v: i8)
    ensures v % 0x100 == b
  {
    if b < 0x80 then b else b - 0x100
  }

  // ------------------------------------------------------------ reading

  /**
   * The first twelve bytes: the U*4 at 0, the four bytes at `offset + 4`
   * and the R*4 at 8, each indexed (IndexOutOfRange). Everything after
   * them keeps its default.
   */
  function Fixed(data: seq<byte>, offset: nat, reverse: bool): (r: Result<Ptr>)
  {
    if |data| < 4 || offset + 8 > |data| || |data| < 12 then Err(IndexOutOfRange)
    else Ok(Ptr(UInt32At(data, 0, reverse).value, data[offset + 4], data[offset + 5], data[offset + 6], data[offset + 7],
      UInt32At(data, 8, reverse).value, None, None, 0, 0, 0, 0, 0, 0, None, None, None, None, 0, 0))
  }

  /**
   * The optional tail at `at`: the flag and three exponents (indexed),
   * the two limits (0 past the end), four C*n and the two spec limits,
   * read whatever the flag says.
   */
  function Tail(data: seq<byte>, at: nat, reverse: bool, p: Ptr): (r: Result<Ptr>)
  {
    if at + 4 > |data| then Err(IndexOutOfRange)
    else
      var low := SingleAt(data, at + 4, reverse);
      var high := SingleAt(data, low.next, reverse);
      var units :- GetStringAndUpdateOffset(data, high.next);
      var result :- GetStringAndUpdateOffset(data, units.next);
      var lowFormat :- GetStringAndUpdateOffset(data, result.next);
      var highFormat :- GetStringAndUpdateOffset(data, lowFormat.next);
      var lowSpec := SingleAt(data, highFormat.next, reverse);
      var highSpec := SingleAt(data, lowSpec.next, reverse);
      Ok(p.(optionalDataFlag := data[at], resultExponent := SByte(data[at + 1]),
        lowLimitExponent := SByte(data[at + 2]), highLimitExponent := SByte(data[at + 3]),
        lowTestLimit := low.value.0, highTestLimit := high.value.0,
        testUnits := units.value, resultFormat := result.value,
        lowLimitFormat := lowFormat.value, highLimitFormat := highFormat.value,
        lowSpecLimit := lowSpec.value.0, highSpecLimit := highSpec.value.0))
  }

  /**
   * Parse: the fixed twelve bytes; the description as ASCII from a slice
   * whose length byte is not checked (a slice past the end throws
   * ArgumentOutOfRange); the alarm name; the tail. Each of the three
   * parts after the fixed bytes is read only when data remains.
   */
  function Parse(data: seq<byte>, offset: nat, reverse: bool): (r: Result<Ptr>)
  {
    var fixed :- Fixed(data, offset, reverse);
    Rest(data, offset + 12, reverse, fixed)
  }

  /**
   * What follows the fixed bytes, from `at`: the description (its length
   * byte checked by the slice, not by the C*n reader), the alarm name as
   * C*n, then the tail, each only when the data has not ended.
   */
  function Rest(data: seq<byte>, at: nat, reverse: bool, fixed: Ptr): (r: Result<Ptr>)
  {
    if at >= |data| then Ok(fixed)
    else if at + 1 + data[at] > |data| then Err(ArgumentOutOfRange)
    else
      var described := fixed.(testDescription := Some(AsciiDecode(data[at + 1..at + 1 + data[at]])));
      var next := at + data[at] + 1;
      if next >= |data| then Ok(described)
      else
        var alarm :- GetStringAndUpdateOffset(data, next);
        var named := described.(alarmName := alarm.value);
        if alarm.next >= |data| then Ok(named) else Tail(data, alarm.next, reverse, named)
  }

  /**
   * The fast path as the source runs it: the fixed bytes through the
   * converter's scratch array, then each part with an early return when
   * the data has ended.
   */
  method ParseFast(conv: StdfValueConverter, data: seq<byte>, offset: nat) returns (r: Result<Ptr>)
    requires conv.Valid()
    modifies conv.fourBytes
    ensures r == Parse(data, offset, conv.reverseBytesOnRead)
  {
    var p :- ReadFixed(conv, data, offset);
    r := ReadRest(conv, data, offset + 12, p);
  }

  /** Description, alarm name and tail, each after a check that the data has not ended. */
  method ReadRest(conv: StdfValueConverter, data: seq<byte>, from: nat, fixed: Ptr) returns (r: Result<Ptr>)
    requires conv.Valid()
    modifies conv.fourBytes
    ensures r == Rest(data, from, conv.reverseBytesOnRead, fixed)
  {
    var p, at := fixed, from;
    if at >= |data| {
      return Ok(p);
    }
    var len := data[at];
    if at + 1 + len > |data| {
      return Err(ArgumentOutOfRange);
    }
    p := p.(testDescription := Some(AsciiDecode(data[at + 1..at + 1 + len])));
    at := at + len + 1;
    if at >= |data| {
      return Ok(p);
    }
    var alarm :- GetStringAndUpdateOffset(data, at);
    p := p.(alarmName := alarm.value);
    at := alarm.next;
    if at >= |data| {
      return Ok(p);
    }
    r := ReadTail(conv, data, at, p);
  }

  /**
   * The fixed bytes: the test number and result are copied into the
   * converter's FourBytes array, in file order or reversed, and converted
   * from there.
   */
  method ReadFixed(conv: StdfValueConverter, data: seq<byte>, offset: nat) returns (r: Result<Ptr>)
    requires conv.Valid()
    modifies conv.fourBytes
    ensures r == Fixed(data, offset, conv.reverseBytesOnRead)
  {
    var b := conv.fourBytes;
    var reverse := conv.reverseBytesOnRead;
    if |data| < 4 {
      return Err(IndexOutOfRange);
    }
    if reverse {
      b[0], b[1], b[2], b[3] := data[3], data[2], data[1], data[0];
    } else {
      b[0], b[1], b[2], b[3] := data[0], data[1], data[2], data[3];
    }
    var number := U32Of(b[0], b[1], b[2], b[3]);
    ScratchOrder(data, 0, reverse, b[..]);
    if offset + 8 > |data| || |data| < 12 {
      return Err(IndexOutOfRange);
    }
    var head, site, flags, parametric := data[offset + 4], data[offset + 5], data[offset + 6], data[offset + 7];
    if reverse {
      b[0], b[1], b[2], b[3] := data[11], data[10], data[9], data[8];
    } else {
      b[0], b[1], b[2], b[3] := data[8], data[9], data[10], data[11];
    }
    var result := U32Of(b[0], b[1], b[2], b[3]);
    ScratchOrder(data, 8, reverse, b[..]);
    r := Ok(Ptr(number, head, site, flags, parametric, result, None, None, 0, 0, 0, 0, 0, 0, None, None, None, None, 0, 0));
  }

  /** Four bytes copied in file order, or reversed, convert to the U*4 the reader returns. */
  lemma ScratchOrder(data: seq<byte>, at: nat, reverse: bool, b: seq<byte>)
    requires at + 4 <= |data| && |b| == 4
    requires reverse ==> b == [data[at + 3], data[at + 2], data[at + 1], data[at]]
    requires !reverse ==> b == data[at..at + 4]
    ensures U32Of(b[0], b[1], b[2], b[3]) == UInt32At(data, at, reverse).value
  {
    var f := Ordered(data[at..at + 4], reverse);
    assert f == b;
  }

  /** The tail through the converter's GetSingleAndUpdateOffset. */
  method ReadTail(conv: StdfValueConverter, data: seq<byte>, at: nat, p: Ptr) returns (r: Result<Ptr>)
    requires conv.Valid()
    modifies conv.fourBytes
    ensures r == Tail(data, at, conv.reverseBytesOnRead, p)
  {
    if at + 4 > |data| {
      return Err(IndexOutOfRange);
    }
    var q := p.(optionalDataFlag := data[at], resultExponent := SByte(data[at + 1]),
      lowLimitExponent := SByte(data[at + 2]), highLimitExponent := SByte(data[at + 3]));
    var low := conv.GetSingleAndUpdateOffset(data, at + 4);
    var high := conv.GetSingleAndUpdateOffset(data, low.next);
    var units :- GetStringAndUpdateOffset(data, high.next);
    var result :- GetStringAndUpdateOffset(data, units.next);
    var lowFormat :- GetStringAndUpdateOffset(data, result.next);
    var highFormat :- GetStringAndUpdateOffset(data, lowFormat.next);
    var lowSpec := conv.GetSingleAndUpdateOffset(data, highFormat.next);
    var highSpec := conv.GetSingleAndUpdateOffset(data, lowSpec.next);
    r := Ok(q.(lowTestLimit := low.value.0, highTestLimit := high.value.0,
      testUnits := units.value, resultFormat := result.value,
      lowLimitFormat := lowFormat.value, highLimitFormat := highFormat.value,
      lowSpecLimit := lowSpec.value.0, highSpecLimit := highSpec.value.0));
  }

  /** Length(): not implemented. */
  function Length(p: Ptr): (r: Result<u16>)
  {
    Err(NotImplemented)
  }

  // ------------------------------------------------------------ SetBytes

  /**
   * SetBytes: the header pair, head and site from `offset` itself, then
   * UshortToBytes(2) after them, then "Not Implemented".
   */
  function Encode(p: Ptr, buf: seq<byte>, offset: nat, reverse: bool): (s: Step<nat>)
  {
    var front :- Put(buf, offset, [RecordType, RecordSubtype, p.headNumber, p.siteNumber], 4);
    var len :- Put(front.buf, offset + 4, U16Wire(2, reverse), 2);
    Throw(len.buf, NotImplemented)
  }

  method SetBytes(p: Ptr, conv: StdfValueConverter, dest: array<byte>, offset: nat) returns (r: Result<nat>)
    modifies dest
    ensures Step(dest[..], r) == Encode(p, old(dest[..]), offset, conv.reverseBytesOnWrite)
  {
    var idx := 2;
    var ok := StoreBytes([RecordType, RecordSubtype, p.headNumber, p.siteNumber], dest, offset);
    if !ok {
      return Err(IndexOutOfRange);
    }
    var pair := conv.UshortToBytes(idx);
    ok := StoreBytes([pair.0, pair.1], dest, offset + 4);
    if !ok {
      return Err(IndexOutOfRange);
    }
    r := Err(NotImplemented);
  }

  // ------------------------------------------------------------ properties

  /** The fields the fixed twelve bytes and the two strings give agree in `a` and `b`. */
  predicate SameFront(a: Ptr, b: Ptr)
  {
    && a.testNumber == b.testNumber && a.testResult == b.testResult
    && a.headNumber == b.headNumber && a.siteNumber == b.siteNumber
    && a.testFlags == b.testFlags && a.parametricTestFlags == b.parametricTestFlags
  }

  /**
   * The fixed bytes: a body shorter than twelve bytes, or than `offset + 8`,
   * throws; otherwise the test number is the U*4 at 0 and the result the
   * R*4 at 8, both in the converter's read order, and head, site and the
   * two flag bytes are the four bytes from `offset + 4`.
   */
  lemma FixedFields(data: seq<byte>, offset: nat, reverse: bool)
    ensures |data| < 12 || offset + 8 > |data| ==> Parse(data, offset, reverse) == Err(IndexOutOfRange)
    ensures Parse(data, offset, reverse).Ok? ==>
      var p := Parse(data, offset, reverse).value;
      && p.testNumber == UInt32At(data, 0, reverse).value
      && p.testResult == UInt32At(data, 8, reverse).value
      && [p.headNumber, p.siteNumber, p.testFlags, p.parametricTestFlags] == data[offset + 4..offset + 8]
  {
    ParseKeepsFixed(data, offset, reverse);
  }

  /** Whatever follows the fixed bytes, Parse keeps what they gave. */
  lemma ParseKeepsFixed(data: seq<byte>, offset: nat, reverse: bool)
    ensures Parse(data, offset, reverse).Ok? ==>
      Fixed(data, offset, reverse).Ok? && SameFront(Parse(data, offset, reverse).value, Fixed(data, offset, reverse).value)
  {
    if Fixed(data, offset, reverse).Ok? {
      RestKeepsFront(data, offset + 12, reverse, Fixed(data, offset, reverse).value);
    }
  }

  /** The description, alarm name and tail leave the fixed fields as they were. */
  lemma RestKeepsFront(data: seq<byte>, at: nat, reverse: bool, p: Ptr)
    ensures Rest(data, at, reverse, p).Ok? ==> SameFront(Rest(data, at, reverse, p).value, p)
  {
    if Rest(data, at, reverse, p).Ok? && at < |data| && at + 1 + data[at] <= |data| && at + data[at] + 1 < |data| {
      var alarm := GetStringAndUpdateOffset(data, at + data[at] + 1);
      if alarm.Ok? && alarm.value.next < |data| {
        TailKeepsFront(data, alarm.value.next, reverse, p.(testDescription := Some(AsciiDecode(data[at + 1..at + 1 + data[at]])), alarmName := alarm.value.value));
      }
    }
  }

  /** The tail changes only the fields after the alarm name. */
  lemma TailKeepsFront(data: seq<byte>, at: nat, reverse: bool, p: Ptr)
    ensures Tail(data, at, reverse, p).Ok? ==>
      var t := Tail(data, at, reverse, p).value;
      && SameFront(t, p)
      && t.testDescription == p.testDescription && t.alarmName == p.alarmName
  {
  }

  /** With offset 0, the fast path's test number is what GetUInt32AndUpdateOffset reads at 0. */
  lemma TestNumberAtZero(data: seq<byte>, reverse: bool)
    ensures Parse(data, 0, reverse).Ok? ==> Parse(data, 0, reverse).value.testNumber == UInt32At(data, 0, reverse).value
  {
    FixedFields(data, 0, reverse);
  }

  /** Two offsets into the same data give the same test number and result. */
  lemma NumberIgnoresOffset(data: seq<byte>, o1: nat, o2: nat, reverse: bool)
    ensures Parse(data, o1, reverse).Ok? && Parse(data, o2, reverse).Ok? ==>
      && Parse(data, o1, reverse).value.testNumber == Parse(data, o2, reverse).value.testNumber
      && Parse(data, o1, reverse).value.testResult == Parse(data, o2, reverse).value.testResult
  {
    FixedFields(data, o1, reverse);
    FixedFields(data, o2, reverse);
  }

  /** A body that ends after the twelve fixed bytes leaves every string null and the tail at its defaults. */
  lemma EndsAfterFixed(data: seq<byte>, offset: nat, reverse: bool)
    requires |data| >= 12 && |data| == offset + 12
    ensures Parse(data, offset, reverse) == Ok(Ptr(UInt32At(data, 0, reverse).value, data[offset + 4], data[offset + 5],
      data[offset + 6], data[offset + 7], UInt32At(data, 8, reverse).value, None, None, 0, 0, 0, 0, 0, 0, None, None, None, None, 0, 0))
  {
  }

  /**
   * The description is the C*n at `offset + 12` whenever its bytes are
   * there; a length byte that runs past the end throws ArgumentOutOfRange
   * where the C*n reader would throw StringOverrun.
   */
  lemma DescriptionUnchecked(data: seq<byte>, offset: nat, reverse: bool)
    requires Fixed(data, offset, reverse).Ok? && offset + 12 < |data|
    ensures var at := offset + 12;
      && (GetStringAndUpdateOffset(data, at).Err? <==> Parse(data, offset, reverse) == Err(ArgumentOutOfRange))
      && (GetStringAndUpdateOffset(data, at).Err? ==> GetStringAndUpdateOffset(data, at) == Err(StringOverrun))
      && (Parse(data, offset, reverse).Ok? ==>
        Parse(data, offset, reverse).value.testDescription == GetStringAndUpdateOffset(data, at).value.value)
  {
    RestDescription(data, offset + 12, reverse, Fixed(data, offset, reverse).value);
  }

  /** From `at` on, the description read agrees with the C*n reader except in the error it throws. */
  lemma RestDescription(data: seq<byte>, at: nat, reverse: bool, p: Ptr)
    requires at < |data|
    ensures && (GetStringAndUpdateOffset(data, at).Err? <==> Rest(data, at, reverse, p) == Err(ArgumentOutOfRange))
      && (GetStringAndUpdateOffset(data, at).Err? ==> GetStringAndUpdateOffset(data, at) == Err(StringOverrun))
      && (Rest(data, at, reverse, p).Ok? ==>
        Rest(data, at, reverse, p).value.testDescription == GetStringAndUpdateOffset(data, at).value.value)
  {
    if Rest(data, at, reverse, p).Ok? && at + 1 + data[at] <= |data| && at + data[at] + 1 < |data| {
      var alarm := GetStringAndUpdateOffset(data, at + data[at] + 1);
      if alarm.Ok? && alarm.value.next < |data| {
        TailKeepsFront(data, alarm.value.next, reverse, p.(testDescription := Some(AsciiDecode(data[at + 1..at + 1 + data[at]])), alarmName := alarm.value.value));
      }
    }
  }

  /** The early return after the description: the data ends there, and only the description is added. */
  lemma EndsAfterDescription(data: seq<byte>, offset: nat, reverse: bool)
    requires Fixed(data, offset, reverse).Ok? && offset + 12 < |data| && offset + 13 + data[offset + 12] == |data|
    ensures Parse(data, offset, reverse)
      == Ok(Fixed(data, offset, reverse).value.(testDescription := Some(AsciiDecode(data[offset + 13..]))))
  {
    assert data[offset + 13..offset + 13 + data[offset + 12]] == data[offset + 13..];
  }

  /**
   * The optional tail is read whatever its flag byte says: with room for
   * it, both test limits are the R*4 patterns after the flag and the
   * three exponents; past the end of the data they read 0.
   */
  lemma TailIgnoresFlag(data: seq<byte>, at: nat, reverse: bool, p: Ptr)
    requires at + 4 <= |data|
    ensures Tail(data, at, reverse, p).Ok? ==>
      var t := Tail(data, at, reverse, p).value;
      && t.optionalDataFlag == data[at]
      && t.lowTestLimit == UInt32At(data, at + 4, reverse).value
      && (at + 8 <= |data| ==> t.highTestLimit == UInt32At(data, at + 8, reverse).value)
      && (at + 8 > |data| ==> t.highTestLimit == 0)
  {
  }

  /** A tail of just the flag and the exponents: every later field keeps its default. */
  lemma ShortTail(data: seq<byte>, at: nat, reverse: bool, p: Ptr)
    requires at + 4 == |data|
    ensures Tail(data, at, reverse, p) == Ok(p.(optionalDataFlag := data[at], resultExponent := SByte(data[at + 1]),
      lowLimitExponent := SByte(data[at + 2]), highLimitExponent := SByte(data[at + 3]),
      lowTestLimit := 0, highTestLimit := 0, testUnits := None, resultFormat := None,
      lowLimitFormat := None, highLimitFormat := None, lowSpecLimit := 0, highSpecLimit := 0))
  {
  }

  /**
   * SetBytes never succeeds: when six bytes fit at `offset` it leaves the
   * header pair, head, site and then the length 2 there (in that order),
   * every other byte unchanged, and throws "Not Implemented".
   */
  lemma EncodeThrows(p: Ptr, buf: seq<byte>, offset: nat, reverse: bool)
    ensures Encode(p, buf, offset, reverse).result.Err?
    ensures Encode(p, buf, offset, reverse).result.error == if offset + 6 <= |buf| then NotImplemented else IndexOutOfRange
    ensures offset + 6 <= |buf| ==>
      Encode(p, buf, offset, reverse).buf == Stored(buf, offset, [RecordType, RecordSubtype, p.headNumber, p.siteNumber] + U16Wire(2, reverse))
  {
    StoredConcat(buf, offset, [RecordType, RecordSubtype, p.headNumber, p.siteNumber], U16Wire(2, reverse));
  }
}
