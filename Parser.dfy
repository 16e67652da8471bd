/**
 * Stdf4Parser.ReadStdf4 over a BinaryReader: one record per iteration (a
 * four-byte header, a body of REC_LEN bytes, or 2 for a FAR, then the
 * record class chosen by `(major << 8) | minor`), until the stream ends or
 * an exception escapes. The pure function Run says what the loop returns;
 * the class Stdf4Parser runs the loop and is proved to return Run's list.
 */
module Parser {
  import opened Primitives
  import opened ValueConverter
  import opened RecordTypes
  import opened Records
  import Far
  import Mir
  import Mrr
  import Pcr
  import BinRecord
  import Pir
  import Prr
  import Ptr
  import Wir
  import Wrr
  import Wcr
  import Sdr
  import Dtr

  // ------------------------------------------------------- the reader

  /** The next byte of the stream, or EndOfStream when there is none. */
  function NextByte(stream: seq<byte>, pos: nat): (r: Result<byte>)
    ensures r.Ok? <==> pos < |stream|
  {
    if pos < |stream| then Ok(stream[pos]) else Err(EndOfStream)
  }

  /** ReadBytes(n): up to `n` bytes from `pos`, fewer when the stream ends first. */
  function BodyAt(stream: seq<byte>, pos: nat, n: nat): (b: seq<byte>)
    requires pos <= |stream|
    ensures |b| == if pos + n <= |stream| then n else |stream| - pos
  {
    if pos + n <= |stream| then stream[pos..pos + n] else stream[pos..]
  }

  /** A BinaryReader over an in-memory stream: the bytes and the read position. */
  class ByteReader {
    const stream: seq<byte>
    var position: nat

    ghost predicate Valid()
      reads this
    {
      position <= |stream|
    }

    constructor (stream: seq<byte>)
      ensures this.stream == stream && position == 0 && Valid()
    {
      this.stream := stream;
      position := 0;
    }

    /** ReadByte: the next byte and one step on, or EndOfStream with the position unchanged. */
    method ReadByte() returns (r: Result<byte>)
      requires Valid()
      modifies this
      ensures Valid() && r == NextByte(stream, old(position))
      ensures position == if r.Ok? then old(position) + 1 else old(position)
    {
      if position >= |stream| {
        return Err(EndOfStream);
      }
      r := Ok(stream[position]);
      position := position + 1;
    }

    /**
     * ReadUInt16: two bytes in file order, low byte first; with fewer than
     * two left it consumes what there is and throws EndOfStream.
     */
    method ReadUInt16() returns (r: Result<u16>)
      requires Valid()
      modifies this
      ensures Valid()
      ensures old(position) + 2 <= |stream| ==>
        r == Ok(U16Of(stream[old(position)], stream[old(position) + 1])) && position == old(position) + 2
      ensures old(position) + 2 > |stream| ==> r == Err(EndOfStream) && position == |stream|
    {
      if position + 2 > |stream| {
        position := |stream|;
        return Err(EndOfStream);
      }
      r := Ok(U16Of(stream[position], stream[position + 1]));
      position := position + 2;
    }

    /** ReadBytes: up to `count` bytes, never an error. */
    method ReadBytes(count: nat) returns (bytes: seq<byte>)
      requires Valid()
      modifies this
      ensures Valid()
      ensures bytes == BodyAt(stream, old(position), count) && position == old(position) + |bytes|
    {
      bytes := BodyAt(stream, position, count);
      position := position + |bytes|;
    }
  }

  // ------------------------------------------------------- one record

  /** The record header: REC_LEN, REC_TYP and REC_SUB. */
  datatype Header = Header(length: u16, major: byte, minor: byte)

  /**
   * The header at `pos`: REC_LEN in file order (ReadUInt16), or with its
   * two bytes swapped when the parser reverses; EndOfStream when fewer than
   * four bytes are left.
   */
  function HeaderAt(stream: seq<byte>, pos: nat, reverse: bool): (r: Result<Header>)
    ensures r.Ok? <==> pos + 4 <= |stream|
    ensures r.Err? ==> r.error == EndOfStream
  {
    if pos + 4 > |stream| then Err(EndOfStream)
    else
      var length := if reverse then U16Of(stream[pos + 1], stream[pos]) else U16Of(stream[pos], stream[pos + 1]);
      Ok(Header(length, stream[pos + 2], stream[pos + 3]))
  }

  /**
   * The switch on the type code: the record classes it constructs from the
   * body (with the converter's read order), null for TSR, GDR, the kinds
   * without a case and the codes the table does not define, and an
   * exception for PMR, PGR and RDR.
   */
  function Switch(code: int, body: seq<byte>, reverse: bool): Result<Option<Record>>
  {
    match FromCode(code)
    case None => Ok(None)
    case Some(kind) =>
      match kind
      case PTR => var p :- Ptr.Parse(body, 0, reverse); Ok(Some(PtrRecord(p)))
      case PIR => var p :- Pir.Parse(body, 0); Ok(Some(PirRecord(p)))
      case PRR => var p :- Prr.Parse(body, 0, reverse); Ok(Some(PrrRecord(p)))
      case FAR => var f :- Far.Parse(body, 0); Ok(Some(FarRecord(f)))
      case MIR => var m :- Mir.Parse(body, 0, reverse); Ok(Some(MirRecord(m)))
      case MRR => var m :- Mrr.Parse(body, 0, reverse); Ok(Some(MrrRecord(m)))
      case PCR => var p :- Pcr.Parse(body, 0, reverse); Ok(Some(PcrRecord(p)))
      case HBR => var b :- BinRecord.Parse(body, 0, reverse); Ok(Some(HbrRecord(b)))
      case SBR => var b :- BinRecord.Parse(body, 0, reverse); Ok(Some(SbrRecord(b)))
      case PMR => Err(RecordNotSupported)
      case PGR => Err(RecordNotSupported)
      case RDR => Err(RecordNotSupported)
      case SDR => var s :- Sdr.Parse(body, 0); Ok(Some(SdrRecord(s)))
      case WIR => var w :- Wir.Parse(body, 0, reverse); Ok(Some(WirRecord(w)))
      case WRR => var w :- Wrr.Parse(body, 0, reverse); Ok(Some(WrrRecord(w)))
      case WCR => var w :- Wcr.Parse(body, 0, reverse); Ok(Some(WcrRecord(w)))
      case DTR => var d :- Dtr.Parse(body, 0); Ok(Some(DtrRecord(d)))
      case _ => Ok(None)
  }

  /** Below debug level 3, PTR and PIR take the fast path ahead of the switch; at 3 and above they reach it. */
  function Decode(code: int, body: seq<byte>, reverse: bool, debugLevel: int): Result<Option<Record>>
  {
    if debugLevel < 3 && code == 3850 then
      var p :- Ptr.Parse(body, 0, reverse); Ok(Some(PtrRecord(p)))
    else if debugLevel < 3 && code == 1290 then
      var p :- Pir.Parse(body, 0); Ok(Some(PirRecord(p)))
    else Switch(code, body, reverse)
  }

  /**
   * The CpuType setter as far as the parse sees it: the read order it
   * leaves for CPU types 1 and 2, the exception for any other.
   */
  function CpuTypeOrder(cpuType: byte): (r: Result<bool>)
  {
    if cpuType == 0 then Err(DecCpuType)
    else if cpuType == 1 || cpuType == 2 then Ok((cpuType == 2) != HostLittleEndian)
    else Err(UnsupportedCpuType)
  }

  /** A decoded body: the record it adds, if any, and the read order a FAR sets, if it is one. */
  datatype Decoded = Decoded(record: Option<Record>, order: Option<bool>)

  /** The body's record and, for a FAR, the read order its CPU type sets or the exception the setter throws. */
  function Outcome(code: int, body: seq<byte>, reverse: bool, debugLevel: int): (r: Result<Decoded>)
  {
    var record :- Decode(code, body, reverse, debugLevel);
    if record.Some? && record.value.FarRecord? then
      var order :- CpuTypeOrder(record.value.far.cpuType);
      Ok(Decoded(record, Some(order)))
    else
      Ok(Decoded(record, None))
  }

  /** What the loop does with a body: its code, its bytes and the converter's read order in, the decoded body out. */
  type Decoder = (int, seq<byte>, bool) -> Result<Decoded>

  /** The parser's own decoder at a debug level. */
  function DecoderAt(debugLevel: int): Decoder
  {
    (code: int, body: seq<byte>, reverse: bool) => Outcome(code, body, reverse, debugLevel)
  }

  /** Where one iteration leaves the loop: the record it adds, if any, the bytes it consumed and both read orders. */
  datatype Advance = Advance(record: Option<Record>, consumed: nat, headerReverse: bool, bodyReverse: bool)

  /**
   * One iteration over the bytes not read yet: the header, the body (two
   * bytes for a FAR, whatever REC_LEN says), the decoded record and, after
   * a FAR, the read order its CPU type sets for the headers and the bodies
   * that follow.
   */
  function StepAt(rest: seq<byte>, headerReverse: bool, bodyReverse: bool, decode: Decoder): (r: Result<Advance>)
    ensures r.Ok? ==> 4 <= r.value.consumed <= |rest|
  {
    var head :- HeaderAt(rest, 0, headerReverse);
    var code := TypeCode(head.major, head.minor);
    var body := BodyAt(rest, 4, if code == Code(FAR) then 2 else head.length);
    var decoded :- decode(code, body, bodyReverse);
    match decoded.order
    case Some(order) => Ok(Advance(decoded.record, 4 + |body|, order, order))
    case None => Ok(Advance(decoded.record, 4 + |body|, headerReverse, bodyReverse))
  }

  /** The header at `pos` is the header at the start of what is left from `pos`. */
  lemma HeaderAtRest(stream: seq<byte>, pos: nat, reverse: bool)
    requires pos <= |stream|
    ensures HeaderAt(stream, pos, reverse) == HeaderAt(stream[pos..], 0, reverse)
  {
  }

  /** The body after the header at `pos` is the body after the header in what is left from `pos`. */
  lemma BodyAtRest(stream: seq<byte>, pos: nat, n: nat)
    requires pos + 4 <= |stream|
    ensures BodyAt(stream, pos + 4, n) == BodyAt(stream[pos..], 4, n)
  {
    if pos + 4 + n <= |stream| {
      assert stream[pos + 4..pos + 4 + n] == stream[pos..][4..4 + n];
    } else {
      assert stream[pos + 4..] == stream[pos..][4..];
    }
  }

  // ------------------------------------------------------- the loop

  /** What ReadStdf4 returns: the records in stream order, and the parser's ReverseBytesOnRead afterwards. */
  datatype Parsed = Parsed(records: seq<Record>, reverse: bool)

  function Added(record: Option<Record>): seq<Record>
  {
    if record.Some? then [record.value] else []
  }

  /**
   * The loop over the bytes not read yet, with `list` read so far: each
   * iteration that completes appends its record; the first exception, the
   * end of the stream in a header included, ends the loop with the list as
   * it is.
   */
  function Run(rest: seq<byte>, headerReverse: bool, bodyReverse: bool, decode: Decoder, list: seq<Record>): (p: Parsed)
    decreases |rest|
  {
    match StepAt(rest, headerReverse, bodyReverse, decode)
    case Err(_) => Parsed(list, headerReverse)
    case Ok(a) => Run(rest[a.consumed..], a.headerReverse, a.bodyReverse, decode, list + Added(a.record))
  }

  /** An iteration that throws ends the loop: nothing more is added and the read order stays. */
  lemma RunStops(rest: seq<byte>, headerReverse: bool, bodyReverse: bool, decode: Decoder, list: seq<Record>)
    requires StepAt(rest, headerReverse, bodyReverse, decode).Err?
    ensures Run(rest, headerReverse, bodyReverse, decode, list) == Parsed(list, headerReverse)
  {
  }

  /** An iteration that completes appends its record and the loop goes on after the bytes it consumed. */
  lemma RunGoesOn(rest: seq<byte>, headerReverse: bool, bodyReverse: bool, decode: Decoder, list: seq<Record>,
                  record: Option<Record>, consumed: nat, headerReverse': bool, bodyReverse': bool)
    requires var s := StepAt(rest, headerReverse, bodyReverse, decode);
      && s.Ok? && s.value.record == record && s.value.consumed == consumed
      && s.value.headerReverse == headerReverse' && s.value.bodyReverse == bodyReverse'
    ensures consumed <= |rest|
    ensures Run(rest, headerReverse, bodyReverse, decode, list)
      == Run(rest[consumed..], headerReverse', bodyReverse', decode, list + Added(record))
  {
  }

  /** RunGoesOn for a stream read from `at` on: after the iteration the loop goes on from `pos`. */
  lemma ReadGoesOn(stream: seq<byte>, at: nat, pos: nat, headerReverse: bool, bodyReverse: bool, decode: Decoder,
                   list: seq<Record>, record: Option<Record>, headerReverse': bool, bodyReverse': bool)
    requires at <= |stream|
    requires var s := StepAt(stream[at..], headerReverse, bodyReverse, decode);
      && s.Ok? && s.value.record == record && at + s.value.consumed == pos
      && s.value.headerReverse == headerReverse' && s.value.bodyReverse == bodyReverse'
    ensures pos <= |stream|
    ensures Run(stream[at..], headerReverse, bodyReverse, decode, list)
      == Run(stream[pos..], headerReverse', bodyReverse', decode, list + Added(record))
  {
    RunGoesOn(stream[at..], headerReverse, bodyReverse, decode, list, record, pos - at, headerReverse', bodyReverse');
    assert stream[at..][pos - at..] == stream[pos..];
  }

  class Stdf4Parser {
    /** The parser's own scratch pair for a reversed REC_LEN. */
    const twoBytes: array<byte>
    var reverseBytesOnRead: bool
    var onlyParse: bool
    var verbose: bool
    var debugLevel: int

    ghost predicate Valid()
      reads this
    {
      twoBytes.Length == 2
    }

    constructor ()
      ensures Valid() && fresh(twoBytes)
      ensures !reverseBytesOnRead && !onlyParse && !verbose && debugLevel == 0
    {
      twoBytes := new byte[2];
      reverseBytesOnRead := false;
      onlyParse := false;
      verbose := false;
      debugLevel := 0;
    }

    /** The DebugLevel setter: a positive level also turns Verbose on. */
    method SetDebugLevel(value: int)
      modifies this
      ensures debugLevel == value && verbose == (old(verbose) || value > 0)
      ensures reverseBytesOnRead == old(reverseBytesOnRead) && onlyParse == old(onlyParse)
    {
      debugLevel := value;
      if value > 0 {
        verbose := true;
      }
    }

    /**
     * ReadStdf4(BinaryReader): a fresh converter (CPU type 2, no
     * reversal), then the loop until an exception; null when OnlyParse is
     * set, else Run's records.
     */
    method ReadStdf4(reader: ByteReader) returns (records: Option<seq<Record>>)
      requires Valid() && reader.Valid()
      modifies this, twoBytes, reader
      ensures Valid()
      ensures var p := Run(reader.stream[old(reader.position)..], old(reverseBytesOnRead), false, DecoderAt(debugLevel), []);
        && records == (if onlyParse then None else Some(p.records))
        && reverseBytesOnRead == p.reverse
      ensures onlyParse == old(onlyParse) && verbose == old(verbose) && debugLevel == old(debugLevel)
    {
      var conv := new StdfValueConverter();
      ghost var stream, start, order := reader.stream, reader.position, reverseBytesOnRead;
      var list: seq<Record> := [];
      while true
        invariant Valid() && reader.Valid() && conv.Valid()
        invariant fresh(conv) && fresh(conv.twoBytes) && fresh(conv.fourBytes)
        invariant reader.stream == stream
        invariant onlyParse == old(onlyParse) && verbose == old(verbose) && debugLevel == old(debugLevel)
        invariant Run(stream[start..], order, false, DecoderAt(debugLevel), [])
          == Run(stream[reader.position..], reverseBytesOnRead, conv.reverseBytesOnRead, DecoderAt(debugLevel), list)
        decreases |stream| - reader.position
      {
        ghost var at, headerOrder, bodyOrder := reader.position, reverseBytesOnRead, conv.reverseBytesOnRead;
        var step := ReadRecord(reader, conv);
        if step.Err? {
          RunStops(stream[at..], headerOrder, bodyOrder, DecoderAt(debugLevel), list);
          records := if onlyParse then None else Some(list);
          return;
        }
        ReadGoesOn(stream, at, reader.position, headerOrder, bodyOrder, DecoderAt(debugLevel), list,
                   step.value, reverseBytesOnRead, conv.reverseBytesOnRead);
        list := list + Added(step.value);
      }
    }

    /** One iteration of the loop: header, body, the record it decodes and, after a FAR, the new read order. */
    method ReadRecord(reader: ByteReader, conv: StdfValueConverter) returns (step: Result<Option<Record>>)
      requires Valid() && reader.Valid() && conv.Valid()
      requires twoBytes != conv.twoBytes && twoBytes != conv.fourBytes
      modifies this, twoBytes, reader, conv, conv.fourBytes
      ensures Valid() && reader.Valid() && conv.Valid()
      ensures onlyParse == old(onlyParse) && verbose == old(verbose) && debugLevel == old(debugLevel)
      ensures step.Err? ==> reverseBytesOnRead == old(reverseBytesOnRead)
      ensures var s := StepAt(reader.stream[old(reader.position)..], old(reverseBytesOnRead), old(conv.reverseBytesOnRead), DecoderAt(debugLevel));
        && (step.Err? <==> s.Err?)
        && (step.Ok? ==>
              && step.value == s.value.record && reader.position == old(reader.position) + s.value.consumed
              && reverseBytesOnRead == s.value.headerReverse && conv.reverseBytesOnRead == s.value.bodyReverse)
    {
      HeaderAtRest(reader.stream, reader.position, reverseBytesOnRead);
      var head :- ReadHeader(reader);
      var code := TypeCode(head.major, head.minor);
      var length := head.length;
      if code == 10 {
        length := 2;
      }
      BodyAtRest(reader.stream, reader.position - 4, length);
      var bytes := reader.ReadBytes(length);
      step := DecodeRecord(conv, code, bytes);
    }

    /** The header: REC_LEN through the parser's scratch pair when it reverses, else ReadUInt16, then the two type bytes. */
    method ReadHeader(reader: ByteReader) returns (r: Result<Header>)
      requires Valid() && reader.Valid()
      modifies twoBytes, reader
      ensures reader.Valid()
      ensures r == HeaderAt(reader.stream, old(reader.position), reverseBytesOnRead)
      ensures r.Ok? ==> reader.position == old(reader.position) + 4
    {
      var length: u16;
      if reverseBytesOnRead {
        var first := reader.ReadByte();
        if first.Err? {
          return Err(first.error);
        }
        twoBytes[1] := first.value;
        var second := reader.ReadByte();
        if second.Err? {
          return Err(second.error);
        }
        twoBytes[0] := second.value;
        length := U16Of(twoBytes[0], twoBytes[1]);
      } else {
        var read := reader.ReadUInt16();
        if read.Err? {
          return Err(read.error);
        }
        length := read.value;
      }
      var major :- reader.ReadByte();
      var minor :- reader.ReadByte();
      r := Ok(Header(length, major, minor));
    }

    /** The body's record: PTR and PIR on the fast path below debug level 3, everything else through the switch. */
    method DecodeRecord(conv: StdfValueConverter, code: int, bytes: seq<byte>) returns (step: Result<Option<Record>>)
      requires conv.Valid()
      modifies this, conv, conv.fourBytes
      ensures conv.Valid()
      ensures onlyParse == old(onlyParse) && verbose == old(verbose) && debugLevel == old(debugLevel)
      ensures step.Err? ==> reverseBytesOnRead == old(reverseBytesOnRead)
      ensures var o := Outcome(code, bytes, old(conv.reverseBytesOnRead), debugLevel);
        && (step.Err? <==> o.Err?)
        && (step.Ok? ==> step.value == o.value.record)
        && (step.Ok? && o.value.order.Some? ==> reverseBytesOnRead == conv.reverseBytesOnRead == o.value.order.value)
        && (step.Ok? && o.value.order.None? ==>
          reverseBytesOnRead == old(reverseBytesOnRead) && conv.reverseBytesOnRead == old(conv.reverseBytesOnRead))
    {
      if debugLevel < 3 && code == 3850 {
        var p :- Ptr.ParseFast(conv, bytes, 0);
        return Ok(Some(PtrRecord(p)));
      } else if debugLevel < 3 && code == 1290 {
        var p :- Pir.Parse(bytes, 0);
        return Ok(Some(PirRecord(p)));
      }
      step := Dispatch(conv, code, bytes);
    }

    /** The switch, with the FAR case setting the converter's CPU type and copying its read order. */
    method Dispatch(conv: StdfValueConverter, code: int, bytes: seq<byte>) returns (step: Result<Option<Record>>)
      requires conv.Valid()
      modifies this, conv, conv.fourBytes
      ensures conv.Valid()
      ensures onlyParse == old(onlyParse) && verbose == old(verbose) && debugLevel == old(debugLevel)
      ensures step.Err? ==> reverseBytesOnRead == old(reverseBytesOnRead)
      ensures var s := Switch(code, bytes, old(conv.reverseBytesOnRead));
        var far := s.Ok? && s.value.Some? && s.value.value.FarRecord?;
        var order := if far then CpuTypeOrder(s.value.value.far.cpuType) else Ok(false);
        && (step.Err? <==> s.Err? || order.Err?)
        && (step.Ok? ==> step == s)
        && (step.Ok? && far ==> reverseBytesOnRead == conv.reverseBytesOnRead == order.value)
        && (step.Ok? && !far ==> reverseBytesOnRead == old(reverseBytesOnRead) && conv.reverseBytesOnRead == old(conv.reverseBytesOnRead))
    {
      step := SwitchRecord(conv, code, bytes);
      if step.Ok? && step.value.Some? && step.value.value.FarRecord? {
        var applied := conv.SetCpuType(step.value.value.far.cpuType);
        if applied.Err? {
          return Err(applied.error);
        }
        reverseBytesOnRead := conv.reverseBytesOnRead;
      }
    }

    /** The record the switch constructs; a PTR's constructor fills the converter's FourBytes. */
    method SwitchRecord(conv: StdfValueConverter, code: int, bytes: seq<byte>) returns (step: Result<Option<Record>>)
      requires conv.Valid()
      modifies conv.fourBytes
      ensures step == Switch(code, bytes, conv.reverseBytesOnRead)
    {
      if code == 3850 {
        var p :- Ptr.ParseFast(conv, bytes, 0);
        return Ok(Some(PtrRecord(p)));
      }
      step := Switch(code, bytes, conv.reverseBytesOnRead);
    }
  }
}
