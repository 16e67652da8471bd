/**
 * FAR, the File Attributes Record (0, 10): the CPU type that fixes the
 * byte order of the rest of the file, and the STDF version.
 */
module Far {
  import opened Primitives
  import opened ValueConverter

  const RecordType: byte := 0
  const RecordSubtype: byte := 10

  datatype Far = Far(cpuType: byte, stdfVersion: byte)

  /** A new FAR: CPU type 2 on a little-endian host, STDF version 4. */
  function Default(): (f: Far)
    ensures f.cpuType == (if HostLittleEndian then 2 else 1) && f.stdfVersion == 4
  {
    Far(2, 4)
  }

  /** Parse: two bytes at `offset`, else FarTooShort. */
  function Parse(data: seq<byte>, offset: nat): (r: Result<Far>)
  {
    if |data| - offset >= 2 then Ok(Far(data[offset], data[offset + 1]))
    else Err(FarTooShort)
  }

  /** Always six bytes, the header included. */
  function Length(f: Far): u16
  {
    6
  }

  /**
   * The six bytes SetBytes writes: REC_LEN 2 (the two body bytes), the
   * header pair, the CPU type and the version.
   */
  function Image(f: Far, reverse: bool): (b: seq<byte>)
    ensures |b| == Length(f)
  {
    U16Wire(2, reverse) + [RecordType, RecordSubtype, f.cpuType, f.stdfVersion]
  }

  /** SetBytes: the six bytes stored in order from `offset`; it reports 6. */
  function Encode(f: Far, buf: seq<byte>, offset: nat, reverse: bool): (s: Step<nat>)
  {
    Put(buf, offset, Image(f, reverse), 6)
  }

  method SetBytes(f: Far, conv: StdfValueConverter, dest: array<byte>, offset: nat) returns (r: Result<nat>)
    modifies dest
    ensures Step(dest[..], r) == Encode(f, old(dest[..]), offset, conv.reverseBytesOnWrite)
  {
    var (b0, b1) := conv.UshortToBytes(2);
    var ok := StoreBytes([b0, b1] + [RecordType, RecordSubtype, f.cpuType, f.stdfVersion], dest, offset);
    r := if ok then Ok(6) else Err(IndexOutOfRange);
  }

  /** The body of a written FAR (after the four header bytes) parses back to it. */
  lemma RoundTrip(f: Far, reverse: bool)
    ensures Parse(Image(f, reverse)[4..], 0) == Ok(f)
    ensures Parse(Image(f, reverse), 4) == Ok(f)
  {
  }

  /** Parse fails exactly when fewer than two bytes follow `offset`. */
  lemma ParseNeedsTwo(data: seq<byte>, offset: nat)
    ensures Parse(data, offset).Err? <==> offset + 2 > |data|
    ensures Parse(data, offset).Err? ==> Parse(data, offset).error == FarTooShort
    ensures Parse(data, offset).Ok? ==> Parse(data, offset).value == Far(data[offset], data[offset + 1])
  {
  }

  /**
   * The little-endian fixture: a default FAR writes 02 00 00 0A 02 04, and
   * reading those bytes, from offset 4 or from the slice after the header,
   * gives CPU type 2 and version 4.
   */
  lemma Fixture()
    ensures Image(Default(), false) == [0x02, 0x00, 0x00, 0x0A, 0x02, 0x04]
    ensures Parse([0x02, 0x00, 0x00, 0x0A, 0x02, 0x04], 4) == Ok(Far(2, 4))
    ensures Parse([0x02, 0x00, 0x00, 0x0A, 0x02, 0x04][4..], 0) == Ok(Far(2, 4))
  {
    assert Ordered(U16Bytes(2), false) == [2, 0];
  }
}
