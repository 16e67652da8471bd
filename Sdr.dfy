/**
 * SDR, the Site Description Record (1, 80): a head, a site group, the
 * group's site numbers and sixteen optional equipment descriptions. The
 * record is read only: SetBytes always throws, and Length() answers only
 * for a record without a handler type.
 */
module Sdr {
  import opened Primitives
  import opened ValueConverter
  import opened RecordBase

  const RecordType: byte := 1
  const RecordSubtype: byte := 80

  /**
   * The C*n fields in declaration order: handler type and id, probe card,
   * load board, DIB board, interface cable, handler contactor, laser and
   * extra equipment, each a type then an id.
   */
  const TextCount: nat := 16
  const HandlerType: nat := 0
  const DibBoardType: nat := 6
  const DibBoardId: nat := 7

  type Texts = s: seq<Option<string>> | |s| == TextCount witness seq(TextCount, _ => None)

  datatype Sdr = Sdr(
    headNumber: byte,
    siteGroupNumber: byte,
    siteCount: byte,
    siteNumbers: Option<seq<byte>>,
    texts: Texts)

  /** The site numbers: null for a count of 0, else `count` indexed bytes from `at`. */
  function SiteNumbers(data: seq<byte>, at: nat, count: byte): (r: Result<Option<seq<byte>>>)
  {
    if count == 0 then Ok(None)
    else if at + count > |data| then Err(IndexOutOfRange)
    else Ok(Some(data[at..at + count]))
  }

  /** The copy loop: a new array of `count` bytes filled one index at a time. */
  method CopySiteNumbers(data: seq<byte>, at: nat, count: byte) returns (r: Result<Option<seq<byte>>>)
    ensures r == SiteNumbers(data, at, count)
  {
    if count == 0 {
      return Ok(None);
    }
    var sites := new byte[count];
    for i := 0 to count
      invariant i > 0 ==> at + i <= |data|
      invariant forall k :: 0 <= k < i ==> sites[k] == data[at + k]
    {
      if at + i >= |data| {
        return Err(IndexOutOfRange);
      }
      sites[i] := data[at + i];
    }
    assert sites[..] == data[at..at + count];
    r := Ok(Some(sites[..]));
  }

  /**
   * What the sixteen reads become: the seventh read lands in DibBoardType
   * and the eighth overwrites it, so DibBoardId keeps its null.
   */
  function Assigned(values: seq<Option<string>>): (t: Texts)
    requires |values| == TextCount
  {
    values[..DibBoardType] + [values[DibBoardId], None] + values[DibBoardId + 1..]
  }

  /**
   * Parse: head, group and count (indexed, so a short body throws), the
   * site numbers, then the sixteen C*n fields read from `offset` itself,
   * not from after the site numbers.
   */
  function Parse(data: seq<byte>, offset: nat): (r: Result<Sdr>)
  {
    var head :- ByteAt(data, offset);
    var group :- ByteAt(data, offset + 1);
    var count :- ByteAt(data, offset + 2);
    var sites :- SiteNumbers(data, offset + 3, count);
    var texts :- ReadStrings(data, offset, TextCount);
    Ok(Sdr(head, group, count, sites, Assigned(texts.value)))
  }

  /** Length(): 7 without a handler type; a handler type over 255 throws, any other "Not Implemented". */
  function Length(s: Sdr): (r: Result<u16>)
  {
    if s.texts[HandlerType].None? then Ok(7)
    else if |s.texts[HandlerType].value| > 255 then Err(StringTooLong)
    else Err(NotImplemented)
  }

  /** Length() answers only for a record without a handler type, and then counts the header and three bytes. */
  lemma LengthOnlyWithoutHandler(s: Sdr)
    ensures Length(s).Ok? <==> s.texts[HandlerType].None?
    ensures Length(s).Ok? ==> Length(s).value == 4 + 3
    ensures Length(s).Err? ==> Length(s).error == (if |s.texts[HandlerType].value| > 255 then StringTooLong else NotImplemented)
  {
  }

  /** The site numbers are the `count` bytes after the count, absent for 0, and a short body throws. */
  lemma SiteNumbersAreNext(data: seq<byte>, at: nat, count: byte)
    ensures SiteNumbers(data, at, count).Err? <==> count > 0 && at + count > |data|
    ensures SiteNumbers(data, at, count).Ok? ==>
      && (SiteNumbers(data, at, count).value.None? <==> count == 0)
      && (count > 0 ==>
        && |SiteNumbers(data, at, count).value.value| == count
        && forall k :: 0 <= k < count ==> SiteNumbers(data, at, count).value.value[k] == data[at + k])
  {
  }

  /** As written: the handler type is the C*n read at `offset`, whose length byte is the head number. */
  lemma HandlerTypeFromHead(data: seq<byte>, offset: nat)
    ensures Parse(data, offset).Ok? ==>
      && GetStringAndUpdateOffset(data, offset).Ok?
      && Parse(data, offset).value.texts[HandlerType] == GetStringAndUpdateOffset(data, offset).value.value
      && data[offset] == Parse(data, offset).value.headNumber
  {
  }

  /** As written: DibBoardId is never assigned, and DibBoardType holds the eighth read. */
  lemma DibBoardIdNeverSet(data: seq<byte>, offset: nat)
    ensures Parse(data, offset).Ok? ==>
      && Parse(data, offset).value.texts[DibBoardId].None?
      && Parse(data, offset).value.texts[DibBoardType] == ReadStrings(data, offset, TextCount).value.value[DibBoardId]
  {
  }

  // ------------------------------------------------ the STDF layout

  /** The values the STDF layout can carry: a count that matches the sites, and C*n-ready ASCII fields with nulls last. */
  predicate WellFormed(s: Sdr)
  {
    && (s.siteNumbers.None? <==> s.siteCount == 0)
    && (s.siteNumbers.Some? ==> |s.siteNumbers.value| == s.siteCount)
    && AllFit(s.texts) && NullsLast(s.texts) && AllAscii(s.texts)
  }

  function SiteBytes(s: Sdr): seq<byte>
  {
    if s.siteNumbers.None? then [] else s.siteNumbers.value
  }

  /** The STDF V4 layout of an SDR body: head, group, count, the site numbers, then the sixteen C*n. */
  function Fields(s: Sdr): seq<byte>
  {
    [s.headNumber, s.siteGroupNumber, s.siteCount] + SiteBytes(s) + StringsImage(s.texts)
  }

  /**
   * The parse the STDF layout calls for: the C*n fields start after the
   * site numbers and each lands in its own property.
   */
  function IntendedParse(data: seq<byte>, offset: nat): (r: Result<Sdr>)
  {
    var head :- ByteAt(data, offset);
    var group :- ByteAt(data, offset + 1);
    var count :- ByteAt(data, offset + 2);
    var sites :- SiteNumbers(data, offset + 3, count);
    var texts :- ReadStrings(data, offset + 3 + count, TextCount);
    Ok(Sdr(head, group, count, sites, texts.value))
  }

  /** The intended parse reads every well-formed SDR body back exactly. */
  lemma IntendedRoundTrip(s: Sdr)
    requires WellFormed(s)
    ensures IntendedParse(Fields(s), 0) == Ok(s)
  {
    var sites, image := SiteBytes(s), StringsImage(s.texts);
    var prefix := [s.headNumber, s.siteGroupNumber, s.siteCount] + sites;
    var d := Fields(s);
    assert d == prefix + image;
    assert |prefix| == 3 + s.siteCount;
    assert d[0] == s.headNumber && d[1] == s.siteGroupNumber && d[2] == s.siteCount;
    assert d[3..3 + s.siteCount] == prefix[3..] == sites;
    assert SiteNumbers(d, 3, s.siteCount) == Ok(s.siteNumbers);
    StringsRoundTrip(prefix, s.texts);
  }

  /** A group without sites whose only description is the handler type "H". */
  function OneHandler(): (s: Sdr)
    ensures WellFormed(s)
  {
    var texts: Texts := [Some("H")] + Nulls(TextCount - 1);
    NullsAreEmpty(TextCount - 1);
    NullsAreNull(TextCount - 1);
    assert texts[1..] == Nulls(TextCount - 1);
    Sdr(1, 0, 0, None, texts)
  }

  /** The STDF layout of that record: head 1, group 0, no sites, then "H" as C*n. */
  lemma OneHandlerFields()
    ensures Fields(OneHandler()) == [1, 0, 0, 1, 'H' as int]
  {
    var s := OneHandler();
    assert s.texts[1..] == Nulls(TextCount - 1);
    NullsAreEmpty(TextCount - 1);
    assert CnImage(Some("H")) == [1, 'H' as int];
    assert StringsImage(s.texts) == [1, 'H' as int];
  }

  /**
   * As written, that record does not read back: its body is 01 00 00 01
   * 'H', and the handler type comes from the head byte, as the one
   * character 0x00.
   */
  lemma WrongOffset()
    ensures Fields(OneHandler()) == [1, 0, 0, 1, 'H' as int]
    ensures Parse(Fields(OneHandler()), 0).Ok?
    ensures Parse(Fields(OneHandler()), 0).value.texts[HandlerType] == Some([0 as char])
    ensures Parse(Fields(OneHandler()), 0) != Ok(OneHandler())
  {
    OneHandlerFields();
    var data: seq<byte> := [1, 0, 0, 1, 'H' as int];
    var tail := Nulls(TextCount - 3);
    ReadStringsAtEnd(data, 5, TextCount - 3);
    assert AsciiDecode(data[4..5]) == "H";
    ReadStringsUnfold(data, 3, Some("H"), tail, 5, 5);
    ReadStringsUnfold(data, 2, Some(""), [Some("H")] + tail, 3, 5);
    assert AsciiDecode(data[1..2]) == [0 as char];
    ReadStringsUnfold(data, 0, Some([0 as char]), [Some("")] + ([Some("H")] + tail), 2, 5);
  }
}
