/**
 * WCR, the Wafer Configuration Record (2, 30): the wafer and die sizes as
 * R*4 patterns, the units code, the flat's orientation and the optional
 * centre die and positive directions. The record is read only: Length()
 * and SetBytes throw "Not Implemented" (Records.Length, Records.SetBytes).
 */
module Wcr {
  import opened Primitives
  import opened ValueConverter
  import opened RecordBase

  const RecordType: byte := 2
  const RecordSubtype: byte := 30

  datatype Wcr = Wcr(
    waferDiameter: Float32Bits,
    dieHeight: Float32Bits,
    dieWidth: Float32Bits,
    unitsCode: byte,
    flatLocation: char,
    centerDieX: i16,
    centerDieY: i16,
    posDirectionX: char,
    posDirectionY: char)

  /** The units code spelt out; anything past 4 is "Invalid Code". */
  function Units(code: byte): string
  {
    match code
    case 0 => "Unknown"
    case 1 => "Inches"
    case 2 => "Centimeters"
    case 3 => "Millimeters"
    case 4 => "Mils"
    case _ => "Invalid Code"
  }

  /**
   * Parse: three R*4 patterns (each 0, without advancing, when fewer than
   * four bytes remain), the units byte and the flat char; when the body
   * ends there the centre die and directions keep their defaults, else two
   * I*2 and two chars follow.
   */
  function Parse(data: seq<byte>, offset: nat, reverse: bool): (r: Result<Wcr>)
  {
    var diameter := SingleAt(data, offset, reverse);
    var height := SingleAt(data, diameter.next, reverse);
    var width := SingleAt(data, height.next, reverse);
    var units :- ByteAt(data, width.next);
    var flat :- CharAt(data, width.next + 1);
    var at := width.next + 2;
    if at >= |data| then
      Ok(Wcr(diameter.value.0, height.value.0, width.value.0, units, flat, 0, 0, 0 as char, 0 as char))
    else
      var x :- Int16At(data, at, reverse);
      var y :- Int16At(data, x.next, reverse);
      var directionX :- CharAt(data, y.next);
      var directionY :- CharAt(data, y.next + 1);
      Ok(Wcr(diameter.value.0, height.value.0, width.value.0, units, flat, x.value, y.value, directionX, directionY))
  }

  /** The chars of a WCR fit the single bytes STDF gives them. */
  predicate ByteChars(w: Wcr)
  {
    w.flatLocation as int <= 0xFF && w.posDirectionX as int <= 0xFF && w.posDirectionY as int <= 0xFF
  }

  /** The STDF V4 layout of a WCR body: three R*4, U*1, C*1, two I*2, two C*1. */
  function Fields(w: Wcr, reverse: bool): (b: seq<byte>)
    requires ByteChars(w)
    ensures |b| == 20
  {
    U32Wire(w.waferDiameter, reverse) + U32Wire(w.dieHeight, reverse) + U32Wire(w.dieWidth, reverse)
    + [w.unitsCode, w.flatLocation as int]
    + I16Wire(w.centerDieX, reverse) + I16Wire(w.centerDieY, reverse)
    + [w.posDirectionX as int, w.posDirectionY as int]
  }

  /** The units names: the five codes STDF defines have distinct names, every other code the same one. */
  lemma UnitsNames(a: byte, b: byte)
    ensures Units(a) == "Invalid Code" <==> a > 4
    ensures a <= 4 && b <= 4 && a != b ==> Units(a) != Units(b)
  {
  }

  /** A full body in the STDF layout parses back to the record. */
  lemma RoundTrip(w: Wcr, reverse: bool)
    requires ByteChars(w)
    ensures Parse(Fields(w, reverse), 0, reverse) == Ok(w)
  {
    var d := Fields(w, reverse);
    var f1, f2, f3 := U32Wire(w.waferDiameter, reverse), U32Wire(w.dieHeight, reverse), U32Wire(w.dieWidth, reverse);
    var x, y := I16Wire(w.centerDieX, reverse), I16Wire(w.centerDieY, reverse);
    assert d[0..4] == f1 && d[4..8] == f2 && d[8..12] == f3;
    assert d[14..16] == x && d[16..18] == y;
    ReadU32Wire(d, 0, w.waferDiameter, reverse);
    ReadU32Wire(d, 4, w.dieHeight, reverse);
    ReadU32Wire(d, 8, w.dieWidth, reverse);
    ReadI16Wire(d, 14, w.centerDieX, reverse);
    ReadI16Wire(d, 16, w.centerDieY, reverse);
  }

  /** A body that ends after the flat char leaves the centre die at 0 and the directions at '\0'. */
  lemma EndsAfterFlat(w: Wcr, reverse: bool)
    requires ByteChars(w)
    ensures Parse(Fields(w, reverse)[..14], 0, reverse)
      == Ok(w.(centerDieX := 0, centerDieY := 0, posDirectionX := 0 as char, posDirectionY := 0 as char))
  {
    var full := Fields(w, reverse);
    var d := full[..14];
    assert full[0..4] == U32Wire(w.waferDiameter, reverse);
    assert full[4..8] == U32Wire(w.dieHeight, reverse);
    assert full[8..12] == U32Wire(w.dieWidth, reverse);
    assert d[0..4] == full[0..4] && d[4..8] == full[4..8] && d[8..12] == full[8..12];
    ReadU32Wire(d, 0, w.waferDiameter, reverse);
    ReadU32Wire(d, 4, w.dieHeight, reverse);
    ReadU32Wire(d, 8, w.dieWidth, reverse);
  }

  /**
   * A missing R*4 reads 0 and does not move the offset, so the units and
   * flat bytes are taken from where the first size should have been; one
   * byte more and the centre die's I*2 read runs out.
   */
  lemma ShortSizes(data: seq<byte>, offset: nat, reverse: bool)
    requires offset + 2 <= |data| <= offset + 3
    ensures |data| == offset + 2 ==>
      Parse(data, offset, reverse) == Ok(Wcr(0, 0, 0, data[offset], data[offset + 1] as char, 0, 0, 0 as char, 0 as char))
    ensures |data| == offset + 3 ==> Parse(data, offset, reverse) == Err(TwoBytesOutOfRange)
  {
  }

  /** With no byte for the units code, Parse throws IndexOutOfRange. */
  lemma EmptyBody(data: seq<byte>, offset: nat, reverse: bool)
    requires |data| <= offset
    ensures Parse(data, offset, reverse) == Err(IndexOutOfRange)
  {
  }
}
