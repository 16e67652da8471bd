/**
 * The record classes behind the abstract Stdf4Record: one constructor per
 * class, with the three members every class overrides (Length, SetBytes
 * and the header pair it declares) dispatched to that class's module, and
 * ToBytes, which allocates a zeroed array of Length() bytes and fills it
 * with SetBytes at offset 0.
 */
module Records {
  import opened Primitives
  import opened ValueConverter
  import opened RecordBase
  import opened RecordTypes
  import Far
  import Mir
  import Mrr
  import Pcr
  import BinRecord
  import Hbr
  import Sbr
  import Pir
  import Prr
  import Ptr
  import Wir
  import Wrr
  import Wcr
  import Sdr
  import Tsr
  import Dtr

  datatype Record =
    | FarRecord(far: Far.Far)
    | MirRecord(mir: Mir.Mir)
    | MrrRecord(mrr: Mrr.Mrr)
    | PcrRecord(pcr: Pcr.Pcr)
    | HbrRecord(hbr: BinRecord.Bin)
    | SbrRecord(sbr: BinRecord.Bin)
    | PirRecord(pir: Pir.Pir)
    | PrrRecord(prr: Prr.Prr)
    | PtrRecord(ptr: Ptr.Ptr)
    | WirRecord(wir: Wir.Wir)
    | WrrRecord(wrr: Wrr.Wrr)
    | WcrRecord(wcr: Wcr.Wcr)
    | SdrRecord(sdr: Sdr.Sdr)
    | TsrRecord(tsr: Tsr.Tsr)
    | DtrRecord(dtr: Dtr.Dtr)

  /** The record kind each class stands for in the type table. */
  function Kind(r: Record): RecordKind
  {
    match r
    case FarRecord(_) => FAR case MirRecord(_) => MIR case MrrRecord(_) => MRR
    case PcrRecord(_) => PCR case HbrRecord(_) => HBR case SbrRecord(_) => SBR
    case PirRecord(_) => PIR case PrrRecord(_) => PRR case PtrRecord(_) => PTR
    case WirRecord(_) => WIR case WrrRecord(_) => WRR case WcrRecord(_) => WCR
    case SdrRecord(_) => SDR case TsrRecord(_) => TSR case DtrRecord(_) => DTR
  }

  /** The RecordType and RecordSubtype each class declares. */
  function Header(r: Record): (byte, byte)
  {
    match r
    case FarRecord(_) => (Far.RecordType, Far.RecordSubtype)
    case MirRecord(_) => (Mir.RecordType, Mir.RecordSubtype)
    case MrrRecord(_) => (Mrr.RecordType, Mrr.RecordSubtype)
    case PcrRecord(_) => (Pcr.RecordType, Pcr.RecordSubtype)
    case HbrRecord(_) => (BinRecord.RecordType, Hbr.RecordSubtype)
    case SbrRecord(_) => (BinRecord.RecordType, Sbr.RecordSubtype)
    case PirRecord(_) => (Pir.RecordType, Pir.RecordSubtype)
    case PrrRecord(_) => (Prr.RecordType, Prr.RecordSubtype)
    case PtrRecord(_) => (Ptr.RecordType, Ptr.RecordSubtype)
    case WirRecord(_) => (Wir.RecordType, Wir.RecordSubtype)
    case WrrRecord(_) => (Wrr.RecordType, Wrr.RecordSubtype)
    case WcrRecord(_) => (Wcr.RecordType, Wcr.RecordSubtype)
    case SdrRecord(_) => (Sdr.RecordType, Sdr.RecordSubtype)
    case TsrRecord(_) => (Tsr.RecordType, Tsr.RecordSubtype)
    case DtrRecord(_) => (Dtr.RecordType, Dtr.RecordSubtype)
  }

  /**
   * Every class declares its kind's pair from the type table, except WRR,
   * which declares WIR's (2, 10) in place of (2, 20).
   */
  lemma DeclaredHeaders(r: Record)
    ensures !r.WrrRecord? ==> Header(r) == (Major(Kind(r)), Minor(Kind(r)))
    ensures r.WrrRecord? ==> Header(r) == (Major(WIR), Minor(WIR)) && Header(r) != (Major(WRR), Minor(WRR))
  {
  }

  /** Length(): the header-inclusive size, or the exception the class throws. */
  function Length(r: Record): Result<u16>
  {
    match r
    case FarRecord(f) => Ok(Far.Length(f))
    case MirRecord(m) => Mir.Length(m)
    case MrrRecord(m) => Ok(Mrr.Length(m))
    case PcrRecord(p) => Ok(Pcr.Length(p))
    case HbrRecord(b) => BinRecord.Length(b)
    case SbrRecord(b) => BinRecord.Length(b)
    case PirRecord(p) => Ok(Pir.Length(p))
    case PrrRecord(p) => Prr.Length(p)
    case PtrRecord(p) => Ptr.Length(p)
    case WirRecord(w) => Wir.Length(w)
    case WrrRecord(w) => Wrr.Length(w)
    case WcrRecord(_) => Err(NotImplemented)
    case SdrRecord(s) => Sdr.Length(s)
    case TsrRecord(t) => Tsr.Length(t)
    case DtrRecord(d) => Dtr.Length(d)
  }

  /** SetBytes: what each class leaves in the destination and returns; WCR and SDR always throw. */
  function Encode(r: Record, buf: seq<byte>, offset: nat, reverse: bool): (s: Step<nat>)
  {
    match r
    case FarRecord(f) => Far.Encode(f, buf, offset, reverse)
    case MirRecord(m) => Mir.Encode(m, buf, offset, reverse)
    case MrrRecord(m) => Mrr.Encode(m, buf, offset, reverse)
    case PcrRecord(p) => Pcr.Encode(p, buf, offset, reverse)
    case HbrRecord(b) => Hbr.Encode(b, buf, offset, reverse)
    case SbrRecord(b) => Sbr.Encode(b, buf, offset, reverse)
    case PirRecord(p) => Pir.Encode(p, buf, offset, reverse)
    case PrrRecord(p) => Prr.Encode(p, buf, offset, reverse)
    case PtrRecord(p) => Ptr.Encode(p, buf, offset, reverse)
    case WirRecord(w) => Wir.Encode(w, buf, offset, reverse)
    case WrrRecord(w) => Wrr.Encode(w, buf, offset, reverse)
    case WcrRecord(_) => Throw(buf, NotImplemented)
    case SdrRecord(_) => Throw(buf, NotImplemented)
    case TsrRecord(t) => Tsr.Encode(t, buf, offset, reverse)
    case DtrRecord(d) => Dtr.Encode(d, buf, offset, reverse)
  }

  method SetBytes(r: Record, conv: StdfValueConverter, dest: array<byte>, offset: nat) returns (res: Result<nat>)
    modifies dest
    ensures Step(dest[..], res) == Encode(r, old(dest[..]), offset, conv.reverseBytesOnWrite)
  {
    match r
    case FarRecord(f) => res := Far.SetBytes(f, conv, dest, offset);
    case MirRecord(m) => res := Mir.SetBytes(m, conv, dest, offset);
    case MrrRecord(m) => res := Mrr.SetBytes(m, conv, dest, offset);
    case PcrRecord(p) => res := Pcr.SetBytes(p, conv, dest, offset);
    case HbrRecord(b) => res := Hbr.SetBytes(b, conv, dest, offset);
    case SbrRecord(b) => res := Sbr.SetBytes(b, conv, dest, offset);
    case PirRecord(p) => res := Pir.SetBytes(p, conv, dest, offset);
    case PrrRecord(p) => res := Prr.SetBytes(p, conv, dest, offset);
    case PtrRecord(p) => res := Ptr.SetBytes(p, conv, dest, offset);
    case WirRecord(w) => res := Wir.SetBytes(w, conv, dest, offset);
    case WrrRecord(w) => res := Wrr.SetBytes(w, conv, dest, offset);
    case WcrRecord(_) => res := Err(NotImplemented);
    case SdrRecord(_) => res := Err(NotImplemented);
    case TsrRecord(t) => res := Tsr.SetBytes(t, conv, dest, offset);
    case DtrRecord(d) => res := Dtr.SetBytes(d, conv, dest, offset);
  }

  /**
   * ToBytes: the exception of Length() or of SetBytes, unchanged, or the
   * zeroed array of Length() bytes as SetBytes leaves it.
   */
  function Serialized(r: Record, reverse: bool): Result<seq<byte>>
  {
    var size :- Length(r);
    var written := Encode(r, seq(size, _ => 0), 0, reverse);
    if written.result.Err? then Err(written.result.error) else Ok(written.buf)
  }

  method ToBytes(r: Record, conv: StdfValueConverter) returns (res: Result<seq<byte>>)
    ensures res == Serialized(r, conv.reverseBytesOnWrite)
    ensures Length(r).Err? ==> res == Err(Length(r).error)
    ensures res.Ok? ==> |res.value| == Length(r).value
  {
    var size :- Length(r);
    var data := new byte[size](_ => 0);
    assert data[..] == seq(size, _ => 0);
    var written := SetBytes(r, conv, data, 0);
    if written.Err? {
      return Err(written.error);
    }
    res := Ok(data[..]);
  }

  /** A zeroed array exactly as long as the image is filled by it completely. */
  lemma FillsZeroed(size: nat, image: seq<byte>)
    requires |image| == size
    ensures Stored(seq(size, _ => 0), 0, image) == image
  {
    StoredAt(seq(size, _ => 0), 0, image);
  }

  /** ToBytes of a FAR is its six-byte image. */
  lemma FarBytes(f: Far.Far, reverse: bool)
    ensures Serialized(FarRecord(f), reverse) == Ok(Far.Image(f, reverse))
  {
    FillsZeroed(6, Far.Image(f, reverse));
  }

  /** ToBytes of a PIR is its six-byte image. */
  lemma PirBytes(p: Pir.Pir, reverse: bool)
    ensures Serialized(PirRecord(p), reverse) == Ok(Pir.Image(p, reverse))
  {
    Pir.EncodeImage(p, seq(6, _ => 0), 0, reverse);
    FillsZeroed(6, Pir.Image(p, reverse));
  }

  /** ToBytes of a PCR is its 26-byte image. */
  lemma PcrBytes(p: Pcr.Pcr, reverse: bool)
    ensures Serialized(PcrRecord(p), reverse) == Ok(Pcr.Image(p, reverse))
  {
    Pcr.EncodeImage(p, seq(26, _ => 0), 0, reverse);
    FillsZeroed(26, Pcr.Image(p, reverse));
  }

  /** ToBytes of a writable MIR is its image, as long as Length() says. */
  lemma MirBytes(m: Mir.Mir, reverse: bool)
    requires Mir.Writable(m)
    ensures Serialized(MirRecord(m), reverse) == Ok(Mir.Image(m, reverse))
  {
    var image := Mir.Image(m, reverse);
    Mir.LengthIsImageSize(m, reverse);
    var zeroed := seq(|image|, _ => 0);
    Mir.EncodeSucceeds(m, zeroed, 0, reverse);
    Mir.EncodeImage(m, zeroed, 0, reverse);
    FillsZeroed(|image|, image);
  }

  /** ToBytes of a writable MRR is its image. */
  lemma MrrBytes(m: Mrr.Mrr, reverse: bool)
    requires Mrr.Writable(m)
    ensures Serialized(MrrRecord(m), reverse) == Ok(Mrr.Image(m, reverse))
  {
    var image := Mrr.Image(m, reverse);
    Mrr.LengthIsImageSize(m, reverse);
    var zeroed := seq(|image|, _ => 0);
    Mrr.EncodeSucceeds(m, zeroed, 0, reverse);
    Mrr.EncodeImage(m, zeroed, 0, reverse);
    FillsZeroed(|image|, image);
  }

  /** ToBytes of a DTR is its image when the text fits, and throws StringTooLong when not. */
  lemma DtrBytes(d: Dtr.Dtr, reverse: bool)
    ensures Dtr.Writable(d) ==> Serialized(DtrRecord(d), reverse) == Ok(Dtr.Image(d, reverse))
    ensures !Dtr.Writable(d) ==> Serialized(DtrRecord(d), reverse) == Err(StringTooLong)
  {
    Dtr.LengthCounts(d, reverse);
    if Dtr.Writable(d) {
      var image := Dtr.Image(d, reverse);
      Dtr.EncodeImage(d, seq(|image|, _ => 0), 0, reverse);
      FillsZeroed(|image|, image);
    }
  }

  /**
   * The read-only classes never serialize: PRR, PTR and WCR throw "Not
   * Implemented" from Length(), and SDR throws from Length() or SetBytes.
   */
  lemma ReadOnlyKinds(r: Record, reverse: bool)
    requires r.PrrRecord? || r.PtrRecord? || r.WcrRecord? || r.SdrRecord?
    ensures Serialized(r, reverse).Err?
    ensures !(r.SdrRecord? && Length(r) == Err(StringTooLong)) ==> Serialized(r, reverse) == Err(NotImplemented)
  {
  }
}
