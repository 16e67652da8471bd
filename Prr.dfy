/**
 * PRR, the Part Results Record (5, 20): head, site, the part flag byte,
 * the test count, both bins, the die coordinates, the elapsed time, two
 * C*n strings and the repair bytes. The four flag accessors all read and
 * write bit 0 of the flag byte. Length() throws "Not Implemented", and
 * SetBytes writes the first six bytes before it throws the same.
 */
module Prr {
  import opened Primitives
  import opened ValueConverter
  import opened RecordBase

  const RecordType: byte := 5
  const RecordSubtype: byte := 20

  datatype Prr = Prr(
    headNumber: byte,
    siteNumber: byte,
    partInformationFlag: bv8,
    numberTestsExecuted: u16,
    hardwareBinNumber: u16,
    softwareBinNumber: u16,
    coordinateX: i16,
    coordinateY: i16,
    elapsedTimeMs: u32,
    partIdentification: Option<string>,
    partDescription: Option<string>,
    partRepairInformation: Option<seq<byte>>)

  // ------------------------------------------------------ flag accessors

  /** `(flag & 0b0000_0001) != 0`, the one test all four getters make. */
  predicate BitZero(flag: bv8)
  {
    flag & 0x01 != 0
  }

  /** `flag |= 0b0000_0001` when `on`, else `flag &= 0b1111_1110`. */
  function WithBitZero(flag: bv8, on: bool): (r: bv8)
  {
    if on then flag | 0x01 else flag & 0xFE
  }

  predicate DataSupersedesPreviousPart(flag: bv8) { BitZero(flag) }
  predicate TestingCompletedNormally(flag: bv8) { !BitZero(flag) }
  predicate PartPassed(flag: bv8) { !BitZero(flag) }
  predicate PartFailFlagValid(flag: bv8) { BitZero(flag) }

  /** The four setters: the two "set means bit 0 on" ones and the two "set means bit 0 off" ones. */
  function SetDataSupersedesPreviousPart(flag: bv8, value: bool): bv8 { WithBitZero(flag, value) }
  function SetTestingCompletedNormally(flag: bv8, value: bool): bv8 { WithBitZero(flag, !value) }
  function SetPartPassed(flag: bv8, value: bool): bv8 { WithBitZero(flag, !value) }
  function SetPartFailFlagValid(flag: bv8, value: bool): bv8 { WithBitZero(flag, value) }

  /** The PRR object's PartInformationFlag property, with the accessors that read and update it in place. */
  class PartFlags {
    var partInformationFlag: bv8

    constructor (flag: bv8)
      ensures partInformationFlag == flag
    {
      partInformationFlag := flag;
    }

    method SetDataSupersedes(value: bool)
      modifies this
      ensures partInformationFlag == SetDataSupersedesPreviousPart(old(partInformationFlag), value)
      ensures DataSupersedesPreviousPart(partInformationFlag) == value
    {
      if value {
        partInformationFlag := partInformationFlag | 0x01;
      } else {
        partInformationFlag := partInformationFlag & 0xFE;
      }
      SetThenGet(old(partInformationFlag), value);
    }

    method SetTestingCompleted(value: bool)
      modifies this
      ensures partInformationFlag == SetTestingCompletedNormally(old(partInformationFlag), value)
      ensures TestingCompletedNormally(partInformationFlag) == value
    {
      if value {
        partInformationFlag := partInformationFlag & 0xFE;
      } else {
        partInformationFlag := partInformationFlag | 0x01;
      }
      SetThenGet(old(partInformationFlag), value);
    }

    method SetPassed(value: bool)
      modifies this
      ensures partInformationFlag == SetPartPassed(old(partInformationFlag), value)
      ensures PartPassed(partInformationFlag) == value
    {
      if value {
        partInformationFlag := partInformationFlag & 0xFE;
      } else {
        partInformationFlag := partInformationFlag | 0x01;
      }
      SetThenGet(old(partInformationFlag), value);
    }

    method SetFailFlagValid(value: bool)
      modifies this
      ensures partInformationFlag == SetPartFailFlagValid(old(partInformationFlag), value)
      ensures PartFailFlagValid(partInformationFlag) == value
    {
      if value {
        partInformationFlag := partInformationFlag | 0x01;
      } else {
        partInformationFlag := partInformationFlag & 0xFE;
      }
      SetThenGet(old(partInformationFlag), value);
    }
  }

  /** Setting an accessor and reading the same one back gives the value set. */
  lemma SetThenGet(flag: bv8, value: bool)
    ensures DataSupersedesPreviousPart(SetDataSupersedesPreviousPart(flag, value)) == value
    ensures TestingCompletedNormally(SetTestingCompletedNormally(flag, value)) == value
    ensures PartPassed(SetPartPassed(flag, value)) == value
    ensures PartFailFlagValid(SetPartFailFlagValid(flag, value)) == value
  {
    BitZeroSet(flag, value);
  }

  /** Bit 0 becomes `on` and bits 1 to 7 stay as they were. */
  lemma BitZeroSet(flag: bv8, on: bool)
    ensures BitZero(WithBitZero(flag, on)) == on
    ensures WithBitZero(flag, on) & 0xFE == flag & 0xFE
  {
  }

  /** Every setter changes bit 0 only. */
  lemma SettersKeepOtherBits(flag: bv8, value: bool)
    ensures SetDataSupersedesPreviousPart(flag, value) & 0xFE == flag & 0xFE
    ensures SetTestingCompletedNormally(flag, value) & 0xFE == flag & 0xFE
    ensures SetPartPassed(flag, value) & 0xFE == flag & 0xFE
    ensures SetPartFailFlagValid(flag, value) & 0xFE == flag & 0xFE
  {
    BitZeroSet(flag, value);
    BitZeroSet(flag, !value);
  }

  /**
   * As written the four accessors are one bit: a part that "completed
   * normally" has "passed", and setting PartPassed to false also reports
   * abnormal termination and makes the fail flag "valid".
   */
  lemma AccessorsShareBitZero(flag: bv8)
    ensures TestingCompletedNormally(flag) == PartPassed(flag)
    ensures DataSupersedesPreviousPart(flag) == PartFailFlagValid(flag) == !PartPassed(flag)
    ensures !TestingCompletedNormally(SetPartPassed(flag, false))
    ensures PartFailFlagValid(SetPartPassed(flag, false)) && DataSupersedesPreviousPart(SetPartPassed(flag, false))
  {
    BitZeroSet(flag, true);
  }

  // -------------------------------------- the accessors on their own bits

  /** Flag bit `k`: the STDF PART_FLG layout puts supersession in bit 0, abnormal end in 2, failure in 3, an invalid pass/fail in 4. */
  predicate Bit(flag: bv8, k: nat)
    requires k < 8
  {
    flag & ((1 as bv8) << k) != 0
  }

  function WithBit(flag: bv8, k: nat, on: bool): (r: bv8)
    requires k < 8
  {
    if on then flag | ((1 as bv8) << k) else flag & !((1 as bv8) << k)
  }

  predicate IntendedDataSupersedes(flag: bv8) { Bit(flag, 0) }
  predicate IntendedTestingCompleted(flag: bv8) { !Bit(flag, 2) }
  predicate IntendedPartPassed(flag: bv8) { !Bit(flag, 3) }
  predicate IntendedFailFlagValid(flag: bv8) { !Bit(flag, 4) }

  /**
   * On their own bits the accessors are independent: setting PartPassed
   * reads back and leaves the other three as they were.
   */
  lemma IntendedPassedIndependent(flag: bv8, value: bool)
    ensures IntendedPartPassed(WithBit(flag, 3, !value)) == value
    ensures IntendedTestingCompleted(WithBit(flag, 3, !value)) == IntendedTestingCompleted(flag)
    ensures IntendedDataSupersedes(WithBit(flag, 3, !value)) == IntendedDataSupersedes(flag)
    ensures IntendedFailFlagValid(WithBit(flag, 3, !value)) == IntendedFailFlagValid(flag)
  {
  }

  // ------------------------------------------------------------ reading

  /**
   * Head, site and flag (indexed), then three U*2 and two I*2 (each
   * throws when fewer than two bytes remain) and the U*4 (0 past the
   * end). The strings and the repair bytes are left null.
   */
  function FixedAt(data: seq<byte>, offset: nat, reverse: bool): (r: Result<Read<Prr>>)
  {
    var head :- ByteAt(data, offset);
    var site :- ByteAt(data, offset + 1);
    var flag :- ByteAt(data, offset + 2);
    var tests :- UInt16At(data, offset + 3, reverse);
    var hardware :- UInt16At(data, tests.next, reverse);
    var software :- UInt16At(data, hardware.next, reverse);
    var x :- Int16At(data, software.next, reverse);
    var y :- Int16At(data, x.next, reverse);
    var elapsed := UInt32At(data, y.next, reverse);
    Ok(Read(Prr(head, site, flag as bv8, tests.value, hardware.value, software.value, x.value, y.value, elapsed.value, None, None, None), elapsed.next))
  }

  /** The two C*n fields in turn. */
  function TextsAt(data: seq<byte>, at: nat): (r: Result<Read<(Option<string>, Option<string>)>>)
  {
    var id :- GetStringAndUpdateOffset(data, at);
    var description :- GetStringAndUpdateOffset(data, id.next);
    Ok(Read((id.value, description.value), description.next))
  }

  /**
   * The repair bytes as written: null when the data has ended, else
   * `data[at]` bytes copied from `at` itself, the count byte first; a
   * count that runs past the end throws IndexOutOfRange.
   */
  function RepairAt(data: seq<byte>, at: nat): (r: Result<Option<seq<byte>>>)
  {
    if at >= |data| then Ok(None)
    else if at + data[at] > |data| then Err(IndexOutOfRange)
    else Ok(Some(data[at..at + data[at]]))
  }

  /** The copy loop: a new array of `data[at]` bytes, filled from `data[at + i]`. */
  method CopyRepair(data: seq<byte>, at: nat) returns (r: Result<Option<seq<byte>>>)
    ensures r == RepairAt(data, at)
  {
    if at >= |data| {
      return Ok(None);
    }
    var len := data[at];
    var repair := new byte[len];
    for i := 0 to len
      invariant at + i <= |data|
      invariant forall k :: 0 <= k < i ==> repair[k] == data[at + k]
    {
      if at + i >= |data| {
        return Err(IndexOutOfRange);
      }
      repair[i] := data[at + i];
    }
    assert repair[..] == data[at..at + len];
    r := Ok(Some(repair[..]));
  }

  function Parse(data: seq<byte>, offset: nat, reverse: bool): (r: Result<Prr>)
  {
    var fixed :- FixedAt(data, offset, reverse);
    var texts :- TextsAt(data, fixed.next);
    var repair :- RepairAt(data, texts.next);
    Ok(fixed.value.(partIdentification := texts.value.0, partDescription := texts.value.1, partRepairInformation := repair))
  }

  /** Length(): not implemented. */
  function Length(p: Prr): (r: Result<u16>)
  {
    Err(NotImplemented)
  }

  // ------------------------------------------------------------ SetBytes

  /**
   * SetBytes: the header pair, head and site from `offset + 2`, the
   * index 6 as REC_LEN at `offset`, then "Not Implemented".
   */
  function Encode(p: Prr, buf: seq<byte>, offset: nat, reverse: bool): (s: Step<nat>)
  {
    var body :- Put(buf, offset + 2, [RecordType, RecordSubtype, p.headNumber, p.siteNumber], 6);
    var len :- PutU16(body.buf, body.value, offset, reverse);
    Throw(len.buf, NotImplemented)
  }

  method SetBytes(p: Prr, conv: StdfValueConverter, dest: array<byte>, offset: nat) returns (r: Result<nat>)
    modifies dest
    ensures Step(dest[..], r) == Encode(p, old(dest[..]), offset, conv.reverseBytesOnWrite)
  {
    var idx := 2;
    var ok := StoreBytes([RecordType, RecordSubtype, p.headNumber, p.siteNumber], dest, offset + idx);
    if !ok {
      return Err(IndexOutOfRange);
    }
    idx := idx + 4;
    r := conv.SetUint16(idx, dest, offset);
    if r.Ok? {
      r := Err(NotImplemented);
    }
  }

  /**
   * SetBytes never succeeds: when the six bytes fit it leaves REC_LEN 6,
   * the header pair, head and site at `offset`, every other byte
   * unchanged, and throws "Not Implemented"; otherwise IndexOutOfRange.
   */
  lemma EncodeThrows(p: Prr, buf: seq<byte>, offset: nat, reverse: bool)
    ensures Encode(p, buf, offset, reverse).result.Err?
    ensures Encode(p, buf, offset, reverse).result.error == if offset + 6 <= |buf| then NotImplemented else IndexOutOfRange
    ensures offset + 6 <= |buf| ==>
      Encode(p, buf, offset, reverse).buf == Stored(buf, offset, U16Wire(6, reverse) + [RecordType, RecordSubtype, p.headNumber, p.siteNumber])
  {
    StoredFront(buf, offset, U16Wire(6, reverse), [RecordType, RecordSubtype, p.headNumber, p.siteNumber]);
  }

  // ------------------------------------------------ the STDF layout

  /** The values the STDF layout can carry: ASCII C*n fields, nulls last, repair bytes only after both strings. */
  predicate WellFormed(p: Prr)
  {
    && AllFit([p.partIdentification, p.partDescription])
    && AllAscii([p.partIdentification, p.partDescription])
    && (p.partDescription.Some? ==> p.partIdentification.Some?)
    && (p.partRepairInformation.Some? ==> p.partDescription.Some? && |p.partRepairInformation.value| <= 255)
  }

  /** The seventeen bytes of the fixed fields: U*1 ×3, U*2 ×3, I*2 ×2, U*4. */
  function FixedImage(p: Prr, reverse: bool): (b: seq<byte>)
    ensures |b| == 17
  {
    [p.headNumber, p.siteNumber, p.partInformationFlag as int]
    + (U16Wire(p.numberTestsExecuted, reverse) + (U16Wire(p.hardwareBinNumber, reverse) + (U16Wire(p.softwareBinNumber, reverse)
    + (I16Wire(p.coordinateX, reverse) + (I16Wire(p.coordinateY, reverse) + U32Wire(p.elapsedTimeMs, reverse))))))
  }

  /** B*n: a count byte, then the bytes. */
  function RepairImage(v: Option<seq<byte>>): seq<byte>
  {
    if v.None? || |v.value| > 255 then [] else [|v.value|] + v.value
  }

  /** The STDF V4 layout of a PRR body. */
  function Fields(p: Prr, reverse: bool): seq<byte>
  {
    FixedImage(p, reverse) + (CnImage(p.partIdentification) + (CnImage(p.partDescription) + RepairImage(p.partRepairInformation)))
  }

  /** The repair bytes as B*n calls for: the count, then that many bytes after it. */
  function IntendedRepairAt(data: seq<byte>, at: nat): (r: Result<Option<seq<byte>>>)
  {
    if at >= |data| then Ok(None)
    else if at + 1 + data[at] > |data| then Err(IndexOutOfRange)
    else Ok(Some(data[at + 1..at + 1 + data[at]]))
  }

  function IntendedParse(data: seq<byte>, offset: nat, reverse: bool): (r: Result<Prr>)
  {
    var fixed :- FixedAt(data, offset, reverse);
    var texts :- TextsAt(data, fixed.next);
    var repair :- IntendedRepairAt(data, texts.next);
    Ok(fixed.value.(partIdentification := texts.value.0, partDescription := texts.value.1, partRepairInformation := repair))
  }

  /** The fixed fields at the front of a body read back, whatever follows them. */
  lemma FixedFront(p: Prr, reverse: bool, rest: seq<byte>)
    ensures FixedAt(FixedImage(p, reverse) + rest, 0, reverse)
      == Ok(Read(p.(partIdentification := None, partDescription := None, partRepairInformation := None), 17))
  {
    var d := FixedImage(p, reverse) + rest;
    var w1, w2, w3 := U16Wire(p.numberTestsExecuted, reverse), U16Wire(p.hardwareBinNumber, reverse), U16Wire(p.softwareBinNumber, reverse);
    var x, y, e := I16Wire(p.coordinateX, reverse), I16Wire(p.coordinateY, reverse), U32Wire(p.elapsedTimeMs, reverse);
    assert d[3..] == w1 + (w2 + (w3 + (x + (y + e)))) + rest;
    assert d[3..5] == w1 && d[5..7] == w2 && d[7..9] == w3 && d[9..11] == x && d[11..13] == y && d[13..17] == e;
    ReadU16Wire(d, 3, p.numberTestsExecuted, reverse);
    ReadU16Wire(d, 5, p.hardwareBinNumber, reverse);
    ReadU16Wire(d, 7, p.softwareBinNumber, reverse);
    ReadI16Wire(d, 9, p.coordinateX, reverse);
    ReadI16Wire(d, 11, p.coordinateY, reverse);
    ReadU32Wire(d, 13, p.elapsedTimeMs, reverse);
  }

  /** A present ASCII C*n field reads back, whatever follows it. */
  lemma FieldBefore(prefix: seq<byte>, s: string, rest: seq<byte>)
    requires |s| <= 255 && IsAscii(s)
    ensures GetStringAndUpdateOffset(prefix + CnBytes(s) + rest, |prefix|) == Ok(Read(Some(s), |prefix| + 1 + |s|))
  {
    CnAt(prefix, s, rest);
    ReadLaidField(prefix + CnBytes(s) + rest, |prefix|, s);
  }

  /** The two strings read back, the data ending where they do unless the description is present. */
  lemma TextsFront(prefix: seq<byte>, p: Prr, rest: seq<byte>)
    requires WellFormed(p) && (rest != [] ==> p.partDescription.Some?)
    ensures TextsAt(prefix + (CnImage(p.partIdentification) + (CnImage(p.partDescription) + rest)), |prefix|)
      == Ok(Read((p.partIdentification, p.partDescription), |prefix| + |CnImage(p.partIdentification)| + |CnImage(p.partDescription)|))
  {
    var id, description := p.partIdentification, p.partDescription;
    var d := prefix + (CnImage(id) + (CnImage(description) + rest));
    assert AllFit([description]);
    assert AllAscii([description]);
    if id.None? {
      assert d == prefix;
    } else {
      var p1 := prefix + CnBytes(id.value);
      assert d == prefix + CnBytes(id.value) + (CnImage(description) + rest);
      FieldBefore(prefix, id.value, CnImage(description) + rest);
      if description.None? {
        assert d == p1;
      } else {
        assert d == p1 + CnBytes(description.value) + rest;
        FieldBefore(p1, description.value, rest);
      }
    }
  }

  /** B*n bytes that end the data read back through the intended reader. */
  lemma IntendedRepairBack(data: seq<byte>, at: nat, v: Option<seq<byte>>)
    requires at <= |data| && data[at..] == RepairImage(v)
    requires v.Some? ==> |v.value| <= 255
    ensures IntendedRepairAt(data, at) == Ok(v)
  {
    if v.Some? {
      assert data[at] == data[at..][0] == |v.value|;
      assert data[at + 1..at + 1 + |v.value|] == data[at..][1..] == v.value;
    }
  }

  /** A well-formed PRR body without repair bytes reads back through Parse as written. */
  lemma RoundTrip(p: Prr, reverse: bool)
    requires WellFormed(p) && p.partRepairInformation.None?
    ensures Parse(Fields(p, reverse), 0, reverse) == Ok(p)
  {
    var f, t := FixedImage(p, reverse), CnImage(p.partIdentification) + (CnImage(p.partDescription) + []);
    assert Fields(p, reverse) == f + t;
    FixedFront(p, reverse, t);
    TextsFront(f, p, []);
  }

  /** Every well-formed PRR body, repair bytes included, reads back through the intended parse. */
  lemma IntendedRoundTrip(p: Prr, reverse: bool)
    requires WellFormed(p)
    ensures IntendedParse(Fields(p, reverse), 0, reverse) == Ok(p)
  {
    var f, r := FixedImage(p, reverse), RepairImage(p.partRepairInformation);
    var id, description := CnImage(p.partIdentification), CnImage(p.partDescription);
    var d := Fields(p, reverse);
    var bare := p.(partIdentification := None, partDescription := None, partRepairInformation := None);
    FixedFront(p, reverse, id + (description + r));
    TextsFront(f, p, r);
    var at := 17 + |id| + |description|;
    assert d[17..] == id + (description + r);
    assert d[17 + |id|..] == description + r;
    assert d[at..] == r;
    IntendedRepairBack(d, at, p.partRepairInformation);
    IntendedParseSteps(d, reverse, bare, (p.partIdentification, p.partDescription), at, p.partRepairInformation);
  }

  /** The intended parse from its three parts. */
  lemma IntendedParseSteps(data: seq<byte>, reverse: bool, fixed: Prr, texts: (Option<string>, Option<string>), at: nat, repair: Option<seq<byte>>)
    requires FixedAt(data, 0, reverse) == Ok(Read(fixed, 17))
    requires TextsAt(data, 17) == Ok(Read(texts, at))
    requires IntendedRepairAt(data, at) == Ok(repair)
    ensures IntendedParse(data, 0, reverse)
      == Ok(fixed.(partIdentification := texts.0, partDescription := texts.1, partRepairInformation := repair))
  {
  }

  /**
   * As written the copy starts at the count byte: B*n bytes `r` after
   * any prefix come back as the count followed by all of `r` but its
   * last byte.
   */
  lemma RepairKeepsCount(prefix: seq<byte>, r: seq<byte>)
    requires 0 < |r| <= 255
    ensures RepairAt(prefix + RepairImage(Some(r)), |prefix|) == Ok(Some([|r|] + r[..|r| - 1]))
  {
    var d := prefix + RepairImage(Some(r));
    assert d[|prefix|..|prefix| + |r|] == [|r|] + r[..|r| - 1];
  }
}
