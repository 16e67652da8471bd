/**
 * StdfValueConverter: reads and writes the STDF primitive field types in
 * the file's byte order. The pure functions of this module say what each
 * read returns and what each write leaves in the destination; the class
 * holds the converter's mutable state (the CPU type, the two reversal
 * flags and the reusable scratch arrays) and its methods are proved to
 * agree with those functions.
 */
module ValueConverter {
  import opened Primitives

  /** An R*4 value, kept as its four-byte pattern (0 is 0.0f). */
  type Float32Bits = u32

  /** A value read from a record body, and the offset after it. */
  datatype Read<T> = Read(value: T, next: nat)

  /** What a nullable-field writer reports: bytes written and the new "seen a null" flag. */
  datatype Written = Written(count: nat, sawNull: bool)

  // ------------------------------------------------------------ readers

  /** `data[at]`, an index that throws past the end. */
  function ByteAt(data: seq<byte>, at: nat): (r: Result<byte>)
    ensures r.Ok? <==> at < |data|
    ensures r.Ok? ==> r.value == data[at]
    ensures r.Err? ==> r.error == IndexOutOfRange
  {
    if at < |data| then Ok(data[at]) else Err(IndexOutOfRange)
  }

  /** The two bytes of a U*2 at `offset`, in host order. */
  function TwoBytes(data: seq<byte>, offset: nat, reverse: bool): (r: Result<seq<byte>>)
    ensures r.Ok? ==> |r.value| == 2
  {
    if offset + 1 >= |data| then Err(TwoBytesOutOfRange)
    else Ok(Ordered(data[offset..offset + 2], reverse))
  }

  /** The four bytes of a U*4 or R*4 at `offset`, in host order. */
  function FourBytes(data: seq<byte>, offset: nat, reverse: bool): (r: Result<seq<byte>>)
    ensures r.Ok? ==> |r.value| == 4
  {
    if offset + 4 > |data| then Err(IndexOutOfRange)
    else Ok(Ordered(data[offset..offset + 4], reverse))
  }

  function UInt16At(data: seq<byte>, offset: nat, reverse: bool): (r: Result<Read<u16>>)
    ensures r.Ok? <==> offset + 2 <= |data|
    ensures r.Err? ==> r.error == TwoBytesOutOfRange
    ensures r.Ok? ==> r.value.next == offset + 2
  {
    var t :- TwoBytes(data, offset, reverse);
    Ok(Read(U16Of(t[0], t[1]), offset + 2))
  }

  function Int16At(data: seq<byte>, offset: nat, reverse: bool): (r: Result<Read<i16>>)
    ensures r.Ok? <==> offset + 2 <= |data|
    ensures r.Err? ==> r.error == TwoBytesOutOfRange
    ensures r.Ok? ==> r.value.next == offset + 2
  {
    var t :- TwoBytes(data, offset, reverse);
    Ok(Read(I16Of(t[0], t[1]), offset + 2))
  }

  /** A U*4 that reads as 0 without advancing when fewer than four bytes remain. */
  function UInt32At(data: seq<byte>, offset: nat, reverse: bool): (r: Read<u32>)
    ensures offset + 4 > |data| ==> r == Read(0, offset)
    ensures offset + 4 <= |data| ==> r.next == offset + 4
  {
    if offset + 4 > |data| then Read(0, offset)
    else
      var f := Ordered(data[offset..offset + 4], reverse);
      Read(U32Of(f[0], f[1], f[2], f[3]), offset + 4)
  }

  /** An R*4 pattern and whether it was present; absent reads 0 without advancing. */
  function SingleAt(data: seq<byte>, offset: nat, reverse: bool): (r: Read<(Float32Bits, bool)>)
    ensures r.value.1 <==> offset + 4 <= |data|
    ensures !r.value.1 ==> r == Read((0, false), offset)
    ensures r.value.1 ==> r.next == offset + 4 && r.value.0 == UInt32At(data, offset, reverse).value
  {
    if offset + 4 > |data| then Read((0, false), offset)
    else Read((UInt32At(data, offset, reverse).value, true), offset + 4)
  }

  /**
   * The reader behind GetNullableSingleAndUpdateOffset, whose source is
   * not part of this model: a present R*4 pattern, or None without
   * advancing when fewer than four bytes remain.
   */
  function NullableSingleAt(data: seq<byte>, offset: nat, reverse: bool): (r: Read<Option<Float32Bits>>)
    ensures r.value.Some? <==> offset + 4 <= |data|
    ensures r.value.None? ==> r.next == offset
  {
    var s := SingleAt(data, offset, reverse);
    Read(if s.value.1 then Some(s.value.0) else None, s.next)
  }

  /**
   * A C*n field: None (the record has ended) when no byte is left, the
   * empty string for a zero length byte, StringOverrun when the length
   * byte promises more than is left, else the ASCII-decoded characters.
   */
  function GetStringAndUpdateOffset(data: seq<byte>, offset: nat): (r: Result<Read<Option<string>>>)
    ensures offset >= |data| ==> r == Ok(Read(None, offset))
    ensures offset < |data| && data[offset] == 0 ==> r == Ok(Read(Some(""), offset + 1))
    ensures r.Err? <==> offset < |data| && offset + 1 + data[offset] > |data|
    ensures r.Err? ==> r.error == StringOverrun
    ensures r.Ok? && offset < |data| ==>
      && r.value.next == offset + 1 + data[offset]
      && r.value.value == Some(AsciiDecode(data[offset + 1..offset + 1 + data[offset]]))
  {
    if offset >= |data| then Ok(Read(None, offset))
    else
      var len := data[offset];
      if len == 0 then Ok(Read(Some(""), offset + 1))
      else if offset + 1 + len > |data| then Err(StringOverrun)
      else Ok(Read(Some(AsciiDecode(data[offset + 1..offset + 1 + len])), offset + len + 1))
  }

  /** A C*1 that may be missing: None at the end of the data, else one decoded byte. */
  function GetNullableCharAndUpdateOffset(data: seq<byte>, offset: nat): (r: Read<Option<char>>)
    ensures offset >= |data| <==> r.value.None?
    ensures r.value.None? ==> r.next == offset
    ensures r.value.Some? ==> r.next == offset + 1 && r.value.value == AsciiChar(data[offset])
  {
    if offset >= |data| then Read(None, offset)
    else Read(Some(AsciiDecode(data[offset..offset + 1])[0]), offset + 1)
  }

  // ------------------------------------------------------------ writers

  /** The two bytes of a U*2 in file order (UshortToBytes). */
  function U16Wire(v: u16, reverse: bool): (s: seq<byte>)
    ensures |s| == 2
  {
    Ordered(U16Bytes(v), reverse)
  }

  /** The two bytes of an I*2 in file order: the two's complement pattern as a U*2. */
  function I16Wire(v: i16, reverse: bool): (s: seq<byte>)
    ensures |s| == 2
  {
    U16Wire(if v < 0 then v + 0x1_0000 else v, reverse)
  }

  /** The four bytes of a U*4 in file order (UintToBytes). */
  function U32Wire(v: u32, reverse: bool): (s: seq<byte>)
    ensures |s| == 4
  {
    Ordered(U32Bytes(v), reverse)
  }

  function PutByte(buf: seq<byte>, v: byte, offset: nat): (s: Step<nat>)
  {
    Put(buf, offset, [v], 1)
  }

  /** SetAsciiChar: a char above 0xFF throws before anything is written. */
  function PutAsciiChar(buf: seq<byte>, c: char, offset: nat): (s: Step<nat>)
  {
    if c as int > 0xFF then Throw(buf, CharOutOfRange)
    else Put(buf, offset, [c as int], 1)
  }

  function PutU16(buf: seq<byte>, v: u16, offset: nat, reverse: bool): (s: Step<nat>)
  {
    Put(buf, offset, U16Wire(v, reverse), 2)
  }

  /** SetUint16(int): values outside 0..65535 throw before anything is written. */
  function PutU16Int(buf: seq<byte>, v: int, offset: nat, reverse: bool): (s: Step<nat>)
  {
    if v > 0xFFFF || v < 0 then Throw(buf, ArgumentOutOfRange)
    else PutU16(buf, v, offset, reverse)
  }

  function PutU32(buf: seq<byte>, v: u32, offset: nat, reverse: bool): (s: Step<nat>)
  {
    Put(buf, offset, U32Wire(v, reverse), 4)
  }

  /** The bytes a C*n field occupies: a length byte, then the ASCII bytes. */
  function CnBytes(s: string): (b: seq<byte>)
    requires |s| <= 255
    ensures |b| == |s| + 1
  {
    [|s|] + AsciiEncode(s)
  }

  /**
   * WriteAsciiString with the shared "seen a null" flag, checked in the
   * source's order: null, a value after a null, "", over 255 characters.
   */
  function PutString(buf: seq<byte>, value: Option<string>, sawNull: bool, offset: nat): (s: Step<Written>)
  {
    if value.None? then Yield(buf, Written(0, true))
    else if sawNull then Throw(buf, NonNullAfterNull)
    else if value.value == "" then Put(buf, offset, [0], Written(1, false))
    else if |value.value| > 255 then Throw(buf, StringTooLong)
    else Put(buf, offset, CnBytes(value.value), Written(|value.value| + 1, false))
  }

  function PutNullableChar(buf: seq<byte>, value: Option<char>, sawNull: bool, offset: nat): (s: Step<Written>)
  {
    if value.None? then Yield(buf, Written(0, true))
    else if sawNull then Throw(buf, NonNullAfterNull)
    else if value.value as int > 0xFF then Throw(buf, CharOutOfRange)
    else Put(buf, offset, [value.value as int], Written(1, false))
  }

  /** The three-argument WriteAsciiString: no length byte, and one 0 byte for null. */
  function PutRawString(buf: seq<byte>, value: Option<string>, offset: nat): (s: Step<nat>)
    ensures s.result.Ok? ==> s.result.value <= 255
  {
    if value.None? then Put(buf, offset, [0], 1)
    else if |value.value| > 255 then Throw(buf, StringTooLong)
    else Put(buf, offset, AsciiEncode(value.value), |value.value|)
  }

  // ------------------------------------------------------ read/write laws

  /** A U*2 reads little-endian in host order and big-endian when reversed. */
  lemma UInt16ByteOrder(data: seq<byte>, offset: nat)
    requires offset + 2 <= |data|
    ensures UInt16At(data, offset, false) == Ok(Read(data[offset] as int + 0x100 * data[offset + 1] as int, offset + 2))
    ensures UInt16At(data, offset, true) == Ok(Read(0x100 * data[offset] as int + data[offset + 1] as int, offset + 2))
  {
    var w := data[offset..offset + 2];
    assert Ordered(w, true) == [w[1], w[0]];
  }

  /** A U*4 reads little-endian in host order and big-endian when reversed. */
  lemma UInt32ByteOrder(data: seq<byte>, offset: nat)
    requires offset + 4 <= |data|
    ensures UInt32At(data, offset, false).value
      == U32Of(data[offset], data[offset + 1], data[offset + 2], data[offset + 3])
    ensures UInt32At(data, offset, true).value
      == U32Of(data[offset + 3], data[offset + 2], data[offset + 1], data[offset])
  {
    var w := data[offset..offset + 4];
    assert Ordered(w, true) == [w[3], w[2], w[1], w[0]];
  }

  /** With the same reversal on both sides, a stored U*2 reads back unchanged. */
  lemma U16RoundTrip(buf: seq<byte>, v: u16, offset: nat, reverse: bool)
    requires offset + 2 <= |buf|
    ensures PutU16(buf, v, offset, reverse).result == Ok(2)
    ensures UInt16At(PutU16(buf, v, offset, reverse).buf, offset, reverse) == Ok(Read(v, offset + 2))
  {
    StoredWindow(buf, offset, U16Wire(v, reverse));
    OrderedTwice(U16Bytes(v), reverse);
  }

  /** With the same reversal on both sides, a stored U*4 reads back unchanged. */
  lemma U32RoundTrip(buf: seq<byte>, v: u32, offset: nat, reverse: bool)
    requires offset + 4 <= |buf|
    ensures PutU32(buf, v, offset, reverse).result == Ok(4)
    ensures UInt32At(PutU32(buf, v, offset, reverse).buf, offset, reverse) == Read(v, offset + 4)
  {
    StoredWindow(buf, offset, U32Wire(v, reverse));
    OrderedTwice(U32Bytes(v), reverse);
  }

  /** The file-order bytes of a U*2 read back as the value. */
  lemma ReadU16Wire(data: seq<byte>, at: nat, v: u16, reverse: bool)
    requires at + 2 <= |data| && data[at..at + 2] == U16Wire(v, reverse)
    ensures UInt16At(data, at, reverse) == Ok(Read(v, at + 2))
  {
    OrderedTwice(U16Bytes(v), reverse);
  }

  /** The file-order bytes of an I*2 read back as the value. */
  lemma ReadI16Wire(data: seq<byte>, at: nat, v: i16, reverse: bool)
    requires at + 2 <= |data| && data[at..at + 2] == I16Wire(v, reverse)
    ensures Int16At(data, at, reverse) == Ok(Read(v, at + 2))
  {
    OrderedTwice(U16Bytes(if v < 0 then v + 0x1_0000 else v), reverse);
  }

  /** A record image's leading length field reads back as the value it was written from. */
  lemma ReadU16Front(v: u16, rest: seq<byte>, reverse: bool)
    ensures UInt16At(U16Wire(v, reverse) + rest, 0, reverse) == Ok(Read(v, 2))
  {
    assert (U16Wire(v, reverse) + rest)[0..2] == U16Wire(v, reverse);
    ReadU16Wire(U16Wire(v, reverse) + rest, 0, v, reverse);
  }

  /** The file-order bytes of a U*4 read back as the value. */
  lemma ReadU32Wire(data: seq<byte>, at: nat, v: u32, reverse: bool)
    requires at + 4 <= |data| && data[at..at + 4] == U32Wire(v, reverse)
    ensures UInt32At(data, at, reverse) == Read(v, at + 4)
  {
    OrderedTwice(U32Bytes(v), reverse);
  }

  /** A U*4 at the front of the remaining data reads back, leaving the rest. */
  lemma ReadU32Front(data: seq<byte>, at: nat, v: u32, reverse: bool, rest: seq<byte>)
    requires at <= |data| && data[at..] == U32Wire(v, reverse) + rest
    ensures UInt32At(data, at, reverse) == Read(v, at + 4)
    ensures data[at + 4..] == rest
  {
    assert data[at..at + 4] == data[at..][..4];
    ReadU32Wire(data, at, v, reverse);
  }

  /**
   * A non-null ASCII string of at most 255 characters written with a
   * length byte reads back as itself and ends `|s| + 1` bytes on, and the
   * write touches nothing outside those bytes.
   */
  lemma StringRoundTrip(buf: seq<byte>, s: string, offset: nat)
    requires |s| <= 255 && IsAscii(s) && offset + |s| + 1 <= |buf|
    ensures PutString(buf, Some(s), false, offset).result == Ok(Written(|s| + 1, false))
    ensures forall i :: 0 <= i < |buf| && !(offset <= i < offset + |s| + 1) ==>
      PutString(buf, Some(s), false, offset).buf[i] == buf[i]
    ensures GetStringAndUpdateOffset(PutString(buf, Some(s), false, offset).buf, offset)
      == Ok(Read(Some(s), offset + |s| + 1))
  {
    var out := PutString(buf, Some(s), false, offset).buf;
    StoredAt(buf, offset, if s == "" then [0] else CnBytes(s));
    if s != "" {
      assert out[offset] == |s|;
      assert out[offset + 1..offset + 1 + |s|] == AsciiEncode(s);
      AsciiRoundTrip(s);
    }
  }

  /** A null string writes nothing and raises the flag; any later non-null value throws. */
  lemma NullThenValue(buf: seq<byte>, s: string, offset: nat, next: nat)
    ensures PutString(buf, None, false, offset) == Step(buf, Ok(Written(0, true)))
    ensures PutString(buf, Some(s), PutString(buf, None, false, offset).result.value.sawNull, next)
      == Step(buf, Err(NonNullAfterNull))
  {
  }

  /** A present ASCII char written by WriteNullableChar reads back as itself. */
  lemma NullableCharRoundTrip(buf: seq<byte>, c: char, offset: nat)
    requires c as int < 0x80 && offset < |buf|
    ensures PutNullableChar(buf, Some(c), false, offset).result == Ok(Written(1, false))
    ensures GetNullableCharAndUpdateOffset(PutNullableChar(buf, Some(c), false, offset).buf, offset)
      == Read(Some(c), offset + 1)
  {
    StoredAt(buf, offset, [c as int]);
  }

  /**
   * The three-argument WriteAsciiString writes no length byte: the bytes
   * at `offset` are the string's own ASCII bytes and the count is its
   * length, so a C*n reader at `offset` takes the first character for a
   * length byte.
   */
  lemma RawStringHasNoPrefix(buf: seq<byte>, s: string, offset: nat)
    requires |s| <= 255 && offset + |s| <= |buf|
    ensures PutRawString(buf, Some(s), offset).result == Ok(|s|)
    ensures PutRawString(buf, Some(s), offset).buf[offset..offset + |s|] == AsciiEncode(s)
    ensures offset < |buf| ==> PutRawString(buf, None, offset) == Step(buf[offset := 0], Ok(1))
  {
    StoredWindow(buf, offset, AsciiEncode(s));
    StoredAt(buf, offset, [0]);
  }

  /** Consecutive array stores: `bytes` go to `intoData` from `at` on, one index at a time. */
  method StoreBytes(bytes: seq<byte>, intoData: array<byte>, at: nat) returns (ok: bool)
    modifies intoData
    ensures intoData[..] == Stored(old(intoData[..]), at, bytes)
    ensures ok == Fits(intoData.Length, at, bytes)
  {
    var i := 0;
    while i < |bytes|
      invariant 0 <= i <= |bytes|
      invariant intoData[..] == Stored(old(intoData[..]), at, bytes[..i])
      invariant i > 0 ==> at + i <= intoData.Length
    {
      if at + i >= intoData.Length {
        StoredPastEnd(old(intoData[..]), at, bytes, i);
        return false;
      }
      StoredNext(old(intoData[..]), at, bytes, i);
      intoData[at + i] := bytes[i];
      i := i + 1;
    }
    assert bytes[..i] == bytes;
    ok := true;
  }


  // ----------------------------------------------------- the converter

  class StdfValueConverter {
    /** The reusable scratch arrays (TwoBytes, FourBytes). */
    const twoBytes: array<byte>
    const fourBytes: array<byte>
    var cpuType: byte
    var reverseBytesOnRead: bool
    var reverseBytesOnWrite: bool

    ghost predicate Valid()
      reads this
    {
      twoBytes.Length == 2 && fourBytes.Length == 4 && twoBytes != fourBytes
    }

    /** A new converter: CPU type 2 (little-endian, the host order), no reversal. */
    constructor ()
      ensures Valid() && fresh(twoBytes) && fresh(fourBytes)
      ensures cpuType == 2 && !reverseBytesOnRead && !reverseBytesOnWrite
    {
      twoBytes := new byte[2];
      fourBytes := new byte[4];
      cpuType := 2;
      reverseBytesOnRead := false;
      reverseBytesOnWrite := false;
    }

    /**
     * The CpuType setter. The CPU type is stored first; 1 (big-endian) and
     * 2 (little-endian) set both flags to "file order differs from host
     * order"; 0 and anything above 2 throw with the flags untouched.
     */
    method SetCpuType(value: byte) returns (r: Result<()>)
      modifies this
      ensures cpuType == value
      ensures value == 0 ==> r == Err(DecCpuType)
      ensures value > 2 ==> r == Err(UnsupportedCpuType)
      ensures r.Err? ==> reverseBytesOnRead == old(reverseBytesOnRead) && reverseBytesOnWrite == old(reverseBytesOnWrite)
      ensures value == 1 || value == 2 ==>
        && r.Ok?
        && reverseBytesOnRead == ((value == 2) != HostLittleEndian)
        && reverseBytesOnWrite == reverseBytesOnRead
    {
      cpuType := value;
      if cpuType == 0 {
        return Err(DecCpuType);
      } else if (cpuType == 2 && HostLittleEndian) || (cpuType == 1 && !HostLittleEndian) {
        reverseBytesOnRead := false;
        reverseBytesOnWrite := false;
      } else if cpuType == 1 || cpuType == 2 {
        reverseBytesOnRead := true;
        reverseBytesOnWrite := true;
      } else {
        return Err(UnsupportedCpuType);
      }
      r := Ok(());
    }

    /** GetTwoBytes: fills the shared TwoBytes array and returns it. */
    method GetTwoBytes(data: seq<byte>, offset: nat) returns (r: Result<array<byte>>)
      requires Valid()
      modifies twoBytes
      ensures r.Ok? <==> TwoBytes(data, offset, reverseBytesOnRead).Ok?
      ensures r.Err? ==> r.error == TwoBytesOutOfRange && unchanged(twoBytes)
      ensures r.Ok? ==> r.value == twoBytes && twoBytes[..] == TwoBytes(data, offset, reverseBytesOnRead).value
    {
      if offset + 1 >= |data| {
        return Err(TwoBytesOutOfRange);
      }
      if reverseBytesOnRead {
        twoBytes[0], twoBytes[1] := data[offset + 1], data[offset];
      } else {
        twoBytes[0], twoBytes[1] := data[offset], data[offset + 1];
      }
      r := Ok(twoBytes);
    }

    /** GetFourBytes: fills the shared FourBytes array; indexing past the data throws. */
    method GetFourBytes(data: seq<byte>, offset: nat) returns (r: Result<array<byte>>)
      requires Valid()
      modifies fourBytes
      ensures r.Ok? <==> FourBytes(data, offset, reverseBytesOnRead).Ok?
      ensures r.Err? ==> r.error == IndexOutOfRange && unchanged(fourBytes)
      ensures r.Ok? ==> r.value == fourBytes && fourBytes[..] == FourBytes(data, offset, reverseBytesOnRead).value
    {
      if offset + 3 >= |data| {
        return Err(IndexOutOfRange);
      }
      if reverseBytesOnRead {
        fourBytes[0], fourBytes[1], fourBytes[2], fourBytes[3] :=
          data[offset + 3], data[offset + 2], data[offset + 1], data[offset];
      } else {
        fourBytes[0], fourBytes[1], fourBytes[2], fourBytes[3] :=
          data[offset], data[offset + 1], data[offset + 2], data[offset + 3];
      }
      r := Ok(fourBytes);
    }

    method GetInt16AndUpdateOffset(data: seq<byte>, offset: nat) returns (r: Result<Read<i16>>)
      requires Valid()
      modifies twoBytes
      ensures r == Int16At(data, offset, reverseBytesOnRead)
    {
      var two :- GetTwoBytes(data, offset);
      r := Ok(Read(I16Of(two[0], two[1]), offset + 2));
    }

    method GetUInt16AndUpdateOffset(data: seq<byte>, offset: nat) returns (r: Result<Read<u16>>)
      requires Valid()
      modifies twoBytes
      ensures r == UInt16At(data, offset, reverseBytesOnRead)
    {
      var two :- GetTwoBytes(data, offset);
      r := Ok(Read(U16Of(two[0], two[1]), offset + 2));
    }

    method GetUInt32AndUpdateOffset(data: seq<byte>, offset: nat) returns (r: Read<u32>)
      requires Valid()
      modifies fourBytes
      ensures r == UInt32At(data, offset, reverseBytesOnRead)
      ensures offset + 4 > |data| ==> unchanged(fourBytes)
    {
      if offset + 4 > |data| {
        return Read(0, offset);
      }
      var four := GetFourBytes(data, offset);
      var f := four.value;
      r := Read(U32Of(f[0], f[1], f[2], f[3]), offset + 4);
    }

    method GetSingleAndUpdateOffset(data: seq<byte>, offset: nat) returns (r: Read<(Float32Bits, bool)>)
      requires Valid()
      modifies fourBytes
      ensures r == SingleAt(data, offset, reverseBytesOnRead)
      ensures offset + 4 > |data| ==> unchanged(fourBytes)
    {
      if offset + 4 > |data| {
        return Read((0, false), offset);
      }
      var four := GetFourBytes(data, offset);
      var f := four.value;
      r := Read((U32Of(f[0], f[1], f[2], f[3]), true), offset + 4);
    }

    method SetByte(value: byte, intoData: array<byte>, offset: nat) returns (r: Result<nat>)
      modifies intoData
      ensures Step(intoData[..], r) == PutByte(old(intoData[..]), value, offset)
    {
      var ok := StoreBytes([value], intoData, offset);
      r := if ok then Ok(1) else Err(IndexOutOfRange);
    }

    method SetAsciiChar(value: char, intoData: array<byte>, offset: nat) returns (r: Result<nat>)
      modifies intoData
      ensures Step(intoData[..], r) == PutAsciiChar(old(intoData[..]), value, offset)
    {
      if value as int > 0xFF {
        return Err(CharOutOfRange);
      }
      var ok := StoreBytes([value as int], intoData, offset);
      r := if ok then Ok(1) else Err(IndexOutOfRange);
    }

    /** Store two bytes at `offset`, `offset + 1` in that order. */
    method StoreTwo(b0: byte, b1: byte, intoData: array<byte>, offset: nat) returns (r: Result<nat>)
      modifies intoData
      ensures Step(intoData[..], r) == Put(old(intoData[..]), offset, [b0, b1], 2)
    {
      var ok := StoreBytes([b0, b1], intoData, offset);
      r := if ok then Ok(2) else Err(IndexOutOfRange);
    }

    /** SetUint16(ushort): the two bytes in file order. */
    method SetUint16(value: u16, intoData: array<byte>, offset: nat) returns (r: Result<nat>)
      modifies intoData
      ensures Step(intoData[..], r) == PutU16(old(intoData[..]), value, offset, reverseBytesOnWrite)
    {
      var bytes := U16Bytes(value);
      if reverseBytesOnWrite {
        r := StoreTwo(bytes[1], bytes[0], intoData, offset);
      } else {
        r := StoreTwo(bytes[0], bytes[1], intoData, offset);
      }
    }

    /** SetUint16(int): the range check comes before any store. */
    method SetUint16Int(value: int, intoData: array<byte>, offset: nat) returns (r: Result<nat>)
      modifies intoData
      ensures Step(intoData[..], r) == PutU16Int(old(intoData[..]), value, offset, reverseBytesOnWrite)
    {
      if value > 0xFFFF || value < 0 {
        return Err(ArgumentOutOfRange);
      }
      r := SetUint16(value, intoData, offset);
    }

    method SetUint32(value: u32, intoData: array<byte>, offset: nat) returns (r: Result<nat>)
      modifies intoData
      ensures Step(intoData[..], r) == PutU32(old(intoData[..]), value, offset, reverseBytesOnWrite)
    {
      var wire := U32Wire(value, reverseBytesOnWrite);
      var i := 0;
      while i < 4
        invariant 0 <= i <= 4
        invariant intoData[..] == Stored(old(intoData[..]), offset, wire[..i])
        invariant i > 0 ==> offset + i <= intoData.Length
      {
        if offset + i >= intoData.Length {
          StoredPastEnd(old(intoData[..]), offset, wire, i);
          return Err(IndexOutOfRange);
        }
        StoredNext(old(intoData[..]), offset, wire, i);
        intoData[offset + i] := wire[i];
        i := i + 1;
      }
      assert wire[..4] == wire;
      r := Ok(4);
    }

    /** WriteAsciiString with the shared "seen a null" flag (a ref parameter in the source). */
    method WriteAsciiString(value: Option<string>, intoData: array<byte>, sawNull: bool, offset: nat)
      returns (r: Result<Written>)
      modifies intoData
      ensures Step(intoData[..], r) == PutString(old(intoData[..]), value, sawNull, offset)
    {
      if value.None? {
        return Ok(Written(0, true));
      } else if sawNull {
        return Err(NonNullAfterNull);
      } else if value.value == "" {
        if offset >= intoData.Length {
          return Err(IndexOutOfRange);
        }
        intoData[offset] := 0;
        assert intoData[..] == Stored(old(intoData[..]), offset, [0]);
        return Ok(Written(1, false));
      } else if |value.value| > 255 {
        return Err(StringTooLong);
      }
      var ok := StoreBytes(CnBytes(value.value), intoData, offset);
      r := if ok then Ok(Written(|value.value| + 1, false)) else Err(IndexOutOfRange);
    }

    method WriteNullableChar(value: Option<char>, intoData: array<byte>, sawNull: bool, offset: nat)
      returns (r: Result<Written>)
      modifies intoData
      ensures Step(intoData[..], r) == PutNullableChar(old(intoData[..]), value, sawNull, offset)
    {
      if value.None? {
        return Ok(Written(0, true));
      } else if sawNull {
        return Err(NonNullAfterNull);
      } else if value.value as int > 0xFF {
        return Err(CharOutOfRange);
      }
      var ok := StoreBytes([value.value as int], intoData, offset);
      r := if ok then Ok(Written(1, false)) else Err(IndexOutOfRange);
    }

    /** The three-argument WriteAsciiString: raw bytes, no length byte. */
    method WriteRawString(value: Option<string>, intoData: array<byte>, offset: nat) returns (r: Result<nat>)
      modifies intoData
      ensures Step(intoData[..], r) == PutRawString(old(intoData[..]), value, offset)
    {
      if value.None? {
        if offset >= intoData.Length {
          return Err(IndexOutOfRange);
        }
        intoData[offset] := 0;
        assert intoData[..] == Stored(old(intoData[..]), offset, [0]);
        return Ok(1);
      } else if |value.value| > 255 {
        return Err(StringTooLong);
      }
      var ok := StoreBytes(AsciiEncode(value.value), intoData, offset);
      r := if ok then Ok(|value.value|) else Err(IndexOutOfRange);
    }

    /** UshortToBytes: the pair of bytes in file order. */
    function UshortToBytes(value: u16): (p: (byte, byte))
      reads this
      ensures [p.0, p.1] == U16Wire(value, reverseBytesOnWrite)
    {
      var b := U16Bytes(value);
      if reverseBytesOnWrite then (b[1], b[0]) else (b[0], b[1])
    }

    /** UintToBytes: follows reverseBytesOnWrite and ignores its own flag argument. */
    function UintToBytes(value: u32, reverseBytes: bool): (p: (byte, byte, byte, byte))
      reads this
      ensures [p.0, p.1, p.2, p.3] == U32Wire(value, reverseBytesOnWrite)
    {
      var b := U32Bytes(value);
      if reverseBytesOnWrite then (b[3], b[2], b[1], b[0]) else (b[0], b[1], b[2], b[3])
    }
  }
}
