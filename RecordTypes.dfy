/**
 * The STDF V4 record type table (Stdf4RecordType): every record kind is
 * identified by its REC_TYP (major) and REC_SUB (minor) header bytes,
 * combined into the 16-bit code `(major << 8) | minor` the parser
 * dispatches on.
 */
module RecordTypes {
  import opened Primitives

  datatype RecordKind =
    | NUL | FAR | ATR | MIR | MRR | PCR | HBR | SBR | PMR | PGR | PLR | RDR | SDR
    | WIR | WRR | WCR | PIR | PRR | TSR | PTR | MPR | FTR | BPS | EPS | GDR | DTR

  function Major(k: RecordKind): byte
  {
    match k
    case NUL => 0 case FAR => 0 case ATR => 0
    case MIR => 1 case MRR => 1 case PCR => 1 case HBR => 1 case SBR => 1
    case PMR => 1 case PGR => 1 case PLR => 1 case RDR => 1 case SDR => 1
    case WIR => 2 case WRR => 2 case WCR => 2
    case PIR => 5 case PRR => 5
    case TSR => 10
    case PTR => 15 case MPR => 15 case FTR => 15
    case BPS => 20 case EPS => 20
    case GDR => 50 case DTR => 50
  }

  function Minor(k: RecordKind): byte
  {
    match k
    case NUL => 0 case FAR => 10 case ATR => 20
    case MIR => 10 case MRR => 20 case PCR => 30 case HBR => 40 case SBR => 50
    case PMR => 60 case PGR => 62 case PLR => 63 case RDR => 70 case SDR => 80
    case WIR => 10 case WRR => 20 case WCR => 30
    case PIR => 10 case PRR => 20
    case TSR => 30
    case PTR => 10 case MPR => 15 case FTR => 20
    case BPS => 10 case EPS => 20
    case GDR => 10 case DTR => 30
  }

  /**
   * `(major << 8) | minor` for two header bytes: the minor byte fills the
   * low eight bits the shift leaves clear, so the "or" is an addition.
   */
  function TypeCode(major: byte, minor: byte): (c: u16)
    ensures c / 0x100 == major && c % 0x100 == minor
  {
    major * 0x100 + minor
  }

  /** The enum value of a record kind. */
  function Code(k: RecordKind): u16
  {
    TypeCode(Major(k), Minor(k))
  }

  /** Enum.IsDefined followed by the cast: the kind whose value is `c`, if any. */
  function FromCode(c: int): (k: Option<RecordKind>)
  {
    if c == 0 then Some(NUL)
    else if c == 10 then Some(FAR)
    else if c == 20 then Some(ATR)
    else if c == 266 then Some(MIR)
    else if c == 276 then Some(MRR)
    else if c == 286 then Some(PCR)
    else if c == 296 then Some(HBR)
    else if c == 306 then Some(SBR)
    else if c == 316 then Some(PMR)
    else if c == 318 then Some(PGR)
    else if c == 319 then Some(PLR)
    else if c == 326 then Some(RDR)
    else if c == 336 then Some(SDR)
    else if c == 522 then Some(WIR)
    else if c == 532 then Some(WRR)
    else if c == 542 then Some(WCR)
    else if c == 1290 then Some(PIR)
    else if c == 1300 then Some(PRR)
    else if c == 2590 then Some(TSR)
    else if c == 3850 then Some(PTR)
    else if c == 3855 then Some(MPR)
    else if c == 3860 then Some(FTR)
    else if c == 5130 then Some(BPS)
    else if c == 5140 then Some(EPS)
    else if c == 12810 then Some(GDR)
    else if c == 12830 then Some(DTR)
    else None
  }

  /** The table of literal values agrees with `(major << 8) | minor`, both ways. */
  lemma FromCodeInverts(k: RecordKind, c: int)
    ensures FromCode(Code(k)) == Some(k)
    ensures FromCode(c) == Some(k) ==> Code(k) == c
  {
  }

  /** Every code splits back into its header bytes. */
  lemma CodeSplits(k: RecordKind)
    ensures Code(k) / 0x100 == Major(k) && Code(k) % 0x100 == Minor(k)
  {
  }

  /** No two record kinds share a code. */
  lemma CodesDistinct(a: RecordKind, b: RecordKind)
    ensures Code(a) == Code(b) ==> a == b
  {
    FromCodeInverts(a, Code(b));
    FromCodeInverts(b, Code(a));
  }

  /** NUL is the only kind with code 0; no real record has header bytes (0, 0). */
  lemma NulIsReserved(k: RecordKind)
    ensures Code(k) == 0 <==> k == NUL
  {
    FromCodeInverts(k, 0);
  }
}
