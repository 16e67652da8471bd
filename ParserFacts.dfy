/**
 * What ReadStdf4's loop makes of a stream, stated over Run: the list only
 * grows at its end, one record at most per four bytes; the debug level
 * does not matter; a FAR reads two body bytes and sets the read order;
 * the kinds without a case are skipped, PMR, PGR and RDR stop the loop; a
 * short body is decoded from what is left; and a stream of correctly
 * framed records reads back as exactly those records.
 */
module ParserFacts {
  import opened Primitives
  import opened ValueConverter
  import opened RecordBase
  import opened RecordTypes
  import opened Records
  import opened Parser
  import Far
  import Pir

  // ------------------------------------------------ the list

  /** The loop only appends: the list it is given comes back in front, and the read order it ends with does not depend on it. */
  lemma {:induction false} RunAppends(rest: seq<byte>, h: bool, b: bool, decode: Decoder, list: seq<Record>)
    ensures Run(rest, h, b, decode, list).records == list + Run(rest, h, b, decode, []).records
    ensures Run(rest, h, b, decode, list).reverse == Run(rest, h, b, decode, []).reverse
    decreases |rest|
  {
    match StepAt(rest, h, b, decode)
    case Err(_) =>
      RunStops(rest, h, b, decode, list);
      RunStops(rest, h, b, decode, []);
    case Ok(a) =>
      var added := Added(a.record);
      var after := rest[a.consumed..];
      RunGoesOn(rest, h, b, decode, list, a.record, a.consumed, a.headerReverse, a.bodyReverse);
      RunGoesOn(rest, h, b, decode, [], a.record, a.consumed, a.headerReverse, a.bodyReverse);
      RunAppends(after, a.headerReverse, a.bodyReverse, decode, list + added);
      RunAppends(after, a.headerReverse, a.bodyReverse, decode, [] + added);
      Regroup(list, added, Run(after, a.headerReverse, a.bodyReverse, decode, []).records);
  }

  lemma Regroup(list: seq<Record>, added: seq<Record>, rest: seq<Record>)
    ensures (list + added) + rest == list + (([] + added) + rest)
  {
    assert [] + added == added;
  }

  /** Every record costs at least its four header bytes, so the loop adds at most one record per four bytes left. */
  lemma {:induction false} AtMostOnePerHeader(rest: seq<byte>, h: bool, b: bool, decode: Decoder, list: seq<Record>)
    ensures |Run(rest, h, b, decode, list).records| <= |list| + |rest| / 4
    decreases |rest|
  {
    match StepAt(rest, h, b, decode)
    case Err(_) =>
      RunStops(rest, h, b, decode, list);
    case Ok(a) =>
      var after := rest[a.consumed..];
      RunGoesOn(rest, h, b, decode, list, a.record, a.consumed, a.headerReverse, a.bodyReverse);
      AtMostOnePerHeader(after, a.headerReverse, a.bodyReverse, decode, list + Added(a.record));
      assert |after| / 4 + 1 <= |rest| / 4;
  }

  // ------------------------------------------------ the debug level

  /** PTR and PIR on the fast path decode as the switch would decode them. */
  lemma FastPathAgrees(code: int, body: seq<byte>, reverse: bool, debugLevel: int)
    ensures Decode(code, body, reverse, debugLevel) == Switch(code, body, reverse)
  {
    if code == 3850 {
      FromCodeInverts(PTR, code);
    } else if code == 1290 {
      FromCodeInverts(PIR, code);
    }
  }

  /** Two decoders that agree on every body make the same loop. */
  lemma {:induction false} RunAgrees(rest: seq<byte>, h: bool, b: bool, one: Decoder, other: Decoder, list: seq<Record>)
    requires forall code, body, reverse :: one(code, body, reverse) == other(code, body, reverse)
    ensures Run(rest, h, b, one, list) == Run(rest, h, b, other, list)
    decreases |rest|
  {
    StepAgrees(rest, h, b, one, other);
    match StepAt(rest, h, b, one)
    case Err(_) =>
      RunStops(rest, h, b, one, list);
      RunStops(rest, h, b, other, list);
    case Ok(a) =>
      RunGoesOn(rest, h, b, one, list, a.record, a.consumed, a.headerReverse, a.bodyReverse);
      RunGoesOn(rest, h, b, other, list, a.record, a.consumed, a.headerReverse, a.bodyReverse);
      RunAgrees(rest[a.consumed..], a.headerReverse, a.bodyReverse, one, other, list + Added(a.record));
  }

  lemma StepAgrees(rest: seq<byte>, h: bool, b: bool, one: Decoder, other: Decoder)
    requires forall code, body, reverse :: one(code, body, reverse) == other(code, body, reverse)
    ensures StepAt(rest, h, b, one) == StepAt(rest, h, b, other)
  {
    if 4 <= |rest| {
      var head := HeaderAt(rest, 0, h).value;
      var code := TypeCode(head.major, head.minor);
      var body := BodyAt(rest, 4, if code == Code(FAR) then 2 else head.length);
      assert one(code, body, b) == other(code, body, b);
    }
  }

  /** The records and the read order the loop ends with do not depend on DebugLevel. */
  lemma DebugLevelIrrelevant(rest: seq<byte>, h: bool, b: bool, d1: int, d2: int, list: seq<Record>)
    ensures Run(rest, h, b, DecoderAt(d1), list) == Run(rest, h, b, DecoderAt(d2), list)
  {
    forall code, body, reverse
      ensures DecoderAt(d1)(code, body, reverse) == DecoderAt(d2)(code, body, reverse)
    {
      OutcomeAgrees(code, body, reverse, d1, d2);
    }
    RunAgrees(rest, h, b, DecoderAt(d1), DecoderAt(d2), list);
  }

  /** One body decodes to the same record and read order at every DebugLevel. */
  lemma OutcomeAgrees(code: int, body: seq<byte>, reverse: bool, d1: int, d2: int)
    ensures Outcome(code, body, reverse, d1) == Outcome(code, body, reverse, d2)
  {
    FastPathAgrees(code, body, reverse, d1);
    FastPathAgrees(code, body, reverse, d2);
  }

  // ------------------------------------------------ one header

  /**
   * A FAR header (0, 10): the body is the next two bytes whatever REC_LEN
   * says; CPU type 1 or 2 adds the FAR and sets both read orders to
   * "reversed" for 1 and "file order" for 2; any other CPU type, or fewer
   * than two body bytes, throws.
   */
  lemma FarRead(rest: seq<byte>, h: bool, b: bool, d: int)
    requires 4 <= |rest| && rest[2] == 0 && rest[3] == 10
    ensures var s := StepAt(rest, h, b, DecoderAt(d));
      && (s.Ok? <==> 6 <= |rest| && (rest[4] == 1 || rest[4] == 2))
      && (s.Ok? ==> s.value == Advance(Some(FarRecord(Far.Far(rest[4], rest[5]))), 6, rest[4] == 1, rest[4] == 1))
      && (s.Err? ==> s.error == if |rest| < 6 then FarTooShort else if rest[4] == 0 then DecCpuType else UnsupportedCpuType)
  {
    assert TypeCode(rest[2], rest[3]) == Code(FAR) == 10;
    assert FromCode(10) == Some(FAR);
    var body := BodyAt(rest, 4, 2);
    if 6 <= |rest| {
      assert body == rest[4..6];
      assert Far.Parse(body, 0) == Ok(Far.Far(rest[4], rest[5]));
    } else {
      assert Far.Parse(body, 0) == Err(FarTooShort);
    }
    assert DecoderAt(d)(10, body, b) == Outcome(10, body, b, d);
  }

  /** After a FAR the loop goes on six bytes later in the order its CPU type set; an invalid CPU type ends it without adding the FAR. */
  lemma FarSetsOrder(rest: seq<byte>, h: bool, b: bool, d: int, list: seq<Record>)
    requires 6 <= |rest| && rest[2] == 0 && rest[3] == 10
    ensures var cpu := rest[4];
      Run(rest, h, b, DecoderAt(d), list)
        == if cpu == 1 || cpu == 2 then Run(rest[6..], cpu == 1, cpu == 1, DecoderAt(d), list + [FarRecord(Far.Far(cpu, rest[5]))])
           else Parsed(list, h)
  {
    FarRead(rest, h, b, d);
    var cpu := rest[4];
    if cpu == 1 || cpu == 2 {
      var far := FarRecord(Far.Far(cpu, rest[5]));
      RunGoesOn(rest, h, b, DecoderAt(d), list, Some(far), 6, cpu == 1, cpu == 1);
    } else {
      RunStops(rest, h, b, DecoderAt(d), list);
    }
  }

  /** The codes that add nothing: those the table does not define, and TSR, GDR and the kinds the switch has no case for. */
  predicate Skipped(code: int)
  {
    FromCode(code).None? || FromCode(code).value in {NUL, ATR, PLR, TSR, MPR, FTR, BPS, EPS, GDR}
  }

  /** The switch gives no record and no exception exactly for the skipped codes. */
  lemma NoRecordExactly(code: int, body: seq<byte>, reverse: bool)
    ensures Switch(code, body, reverse) == Ok(None) <==> Skipped(code)
  {
  }

  /** A skipped code decodes to nothing and leaves the read order alone. */
  lemma SkippedDecodes(code: int, body: seq<byte>, reverse: bool, d: int)
    requires Skipped(code)
    ensures code != Code(FAR)
    ensures DecoderAt(d)(code, body, reverse) == Ok(Decoded(None, None))
  {
    FastPathAgrees(code, body, reverse, d);
    NoRecordExactly(code, body, reverse);
  }

  /** A body that decodes to nothing is read past: the loop goes on after it with nothing added and the read order unchanged. */
  lemma NothingAddedGoesOn(rest: seq<byte>, h: bool, b: bool, decode: Decoder, list: seq<Record>)
    requires 4 <= |rest|
    requires var code := TypeCode(rest[2], rest[3]);
      code != Code(FAR) && decode(code, BodyAt(rest, 4, HeaderAt(rest, 0, h).value.length), b) == Ok(Decoded(None, None))
    ensures var consumed := 4 + |BodyAt(rest, 4, HeaderAt(rest, 0, h).value.length)|;
      && consumed <= |rest|
      && StepAt(rest, h, b, decode) == Ok(Advance(None, consumed, h, b))
      && Run(rest, h, b, decode, list) == Run(rest[consumed..], h, b, decode, list)
  {
    var consumed := 4 + |BodyAt(rest, 4, HeaderAt(rest, 0, h).value.length)|;
    RunGoesOn(rest, h, b, decode, list, None, consumed, h, b);
    assert list + Added(None) == list;
  }

  /** The parser reads past a skipped record: nothing is added and the read order stays. */
  lemma SkippedGoesOn(rest: seq<byte>, h: bool, b: bool, d: int, list: seq<Record>)
    requires 4 <= |rest| && Skipped(TypeCode(rest[2], rest[3]))
    ensures var consumed := 4 + |BodyAt(rest, 4, HeaderAt(rest, 0, h).value.length)|;
      && consumed <= |rest|
      && StepAt(rest, h, b, DecoderAt(d)) == Ok(Advance(None, consumed, h, b))
      && Run(rest, h, b, DecoderAt(d), list) == Run(rest[consumed..], h, b, DecoderAt(d), list)
  {
    var code := TypeCode(rest[2], rest[3]);
    SkippedDecodes(code, BodyAt(rest, 4, HeaderAt(rest, 0, h).value.length), b, d);
    NothingAddedGoesOn(rest, h, b, DecoderAt(d), list);
  }

  /** PMR, PGR and RDR throw: the loop ends there with the records read so far and the read order unchanged. */
  lemma UnsupportedStops(rest: seq<byte>, h: bool, b: bool, d: int, list: seq<Record>)
    requires 4 <= |rest|
    requires FromCode(TypeCode(rest[2], rest[3])) in {Some(PMR), Some(PGR), Some(RDR)}
    ensures StepAt(rest, h, b, DecoderAt(d)) == Err(RecordNotSupported)
    ensures Run(rest, h, b, DecoderAt(d), list) == Parsed(list, h)
  {
    var head := HeaderAt(rest, 0, h).value;
    UnsupportedDecodes(TypeCode(head.major, head.minor), BodyAt(rest, 4, head.length), b, d);
    RunStops(rest, h, b, DecoderAt(d), list);
  }

  /** The switch throws for PMR, PGR and RDR, whatever the body. */
  lemma UnsupportedDecodes(code: int, body: seq<byte>, reverse: bool, d: int)
    requires FromCode(code) in {Some(PMR), Some(PGR), Some(RDR)}
    ensures code != Code(FAR)
    ensures DecoderAt(d)(code, body, reverse) == Err(RecordNotSupported)
  {
    FastPathAgrees(code, body, reverse, d);
  }

  /**
   * A body cut short by the end of the stream is not an error by itself:
   * the record is decoded from the bytes that are left, and the loop then
   * ends at the end of the stream.
   */
  lemma TruncatedBody(rest: seq<byte>, h: bool, b: bool, decode: Decoder, list: seq<Record>)
    requires 4 <= |rest|
    requires var head := HeaderAt(rest, 0, h).value;
      TypeCode(head.major, head.minor) != Code(FAR) && 4 + head.length > |rest|
    ensures
      Run(rest, h, b, decode, list)
        == match decode(TypeCode(rest[2], rest[3]), rest[4..], b)
           case Err(_) => Parsed(list, h)
           case Ok(o) => Parsed(list + Added(o.record), if o.order.Some? then o.order.value else h)
  {
    match StepAt(rest, h, b, decode)
    case Err(_) =>
      RunStops(rest, h, b, decode, list);
    case Ok(a) =>
      assert a.consumed == |rest|;
      RunGoesOn(rest, h, b, decode, list, a.record, a.consumed, a.headerReverse, a.bodyReverse);
      RunStops(rest[a.consumed..], a.headerReverse, a.bodyReverse, decode, list + Added(a.record));
  }

  // ------------------------------------------------ framed streams

  /** A record as the STDF layout frames it in a little-endian file: REC_LEN counts the body alone. */
  datatype Framed = Framed(major: byte, minor: byte, body: seq<byte>)

  /** REC_LEN can hold the body size, and a FAR's body is the two bytes the loop reads. */
  predicate Frameable(f: Framed)
  {
    |f.body| <= 0xFFFF && (TypeCode(f.major, f.minor) == Code(FAR) ==> |f.body| == 2)
  }

  function Frame(f: Framed): (image: seq<byte>)
    requires Frameable(f)
    ensures |image| == 4 + |f.body|
  {
    U16Wire(|f.body|, false) + [f.major, f.minor] + f.body
  }

  function Frames(fs: seq<Framed>): seq<byte>
    requires forall i :: 0 <= i < |fs| ==> Frameable(fs[i])
  {
    if |fs| == 0 then [] else Frame(fs[0]) + Frames(fs[1..])
  }

  /** The body decodes to `r` in file order and, if it is a FAR, keeps the file order. */
  predicate ReadsAs(f: Framed, r: Record, decode: Decoder)
  {
    var o := decode(TypeCode(f.major, f.minor), f.body, false);
    o == Ok(Decoded(Some(r), None)) || o == Ok(Decoded(Some(r), Some(false)))
  }

  /** A framed record in front of anything is one step: its record, and the bytes of its frame. */
  lemma FramedStep(f: Framed, rest: seq<byte>, r: Record, decode: Decoder)
    requires Frameable(f) && ReadsAs(f, r, decode)
    ensures StepAt(Frame(f) + rest, false, false, decode) == Ok(Advance(Some(r), 4 + |f.body|, false, false))
  {
    var t := Frame(f) + rest;
    var n := |f.body|;
    assert U16Wire(n, false) == U16Bytes(n);
    assert t[0] == U16Bytes(n)[0] && t[1] == U16Bytes(n)[1] && t[2] == f.major && t[3] == f.minor;
    assert HeaderAt(t, 0, false) == Ok(Header(n, f.major, f.minor));
    assert t[4..4 + n] == f.body;
  }

  /** A framed record in front of anything adds its record, and the loop goes on after it. */
  lemma FramedRun(f: Framed, rest: seq<byte>, r: Record, decode: Decoder, list: seq<Record>)
    requires Frameable(f) && ReadsAs(f, r, decode)
    ensures Run(Frame(f) + rest, false, false, decode, list) == Run(rest, false, false, decode, list + [r])
  {
    var t := Frame(f) + rest;
    FramedStep(f, rest, r, decode);
    RunGoesOn(t, false, false, decode, list, Some(r), 4 + |f.body|, false, false);
    assert Added(Some(r)) == [r];
    assert t[4 + |f.body|..] == rest;
  }

  lemma FirstThenRest(list: seq<Record>, rs: seq<Record>)
    requires |rs| > 0
    ensures (list + [rs[0]]) + rs[1..] == list + rs
  {
    assert rs == [rs[0]] + rs[1..];
  }

  lemma FramesSplit(fs: seq<Framed>, tail: seq<byte>)
    requires |fs| > 0 && forall i :: 0 <= i < |fs| ==> Frameable(fs[i])
    ensures Frames(fs) + tail == Frame(fs[0]) + (Frames(fs[1..]) + tail)
  {
  }

  /** Correctly framed records, in file order and with the byte order kept, read back as exactly their records, in order. */
  lemma {:induction false} FramedStream(fs: seq<Framed>, rs: seq<Record>, tail: seq<byte>, decode: Decoder, list: seq<Record>)
    requires |fs| == |rs|
    requires forall i :: 0 <= i < |fs| ==> Frameable(fs[i]) && ReadsAs(fs[i], rs[i], decode)
    ensures Run(Frames(fs) + tail, false, false, decode, list) == Run(tail, false, false, decode, list + rs)
    decreases |fs|
  {
    if |fs| == 0 {
      assert Frames(fs) + tail == tail;
      assert list + rs == list;
    } else {
      FramesSplit(fs, tail);
      FramedRun(fs[0], Frames(fs[1..]) + tail, rs[0], decode, list);
      FramedStream(fs[1..], rs[1..], tail, decode, list + [rs[0]]);
      FirstThenRest(list, rs);
    }
  }

  /** A whole stream of framed records: the loop returns those records and leaves the file order. */
  lemma FramedStreamReads(fs: seq<Framed>, rs: seq<Record>, decode: Decoder)
    requires |fs| == |rs|
    requires forall i :: 0 <= i < |fs| ==> Frameable(fs[i]) && ReadsAs(fs[i], rs[i], decode)
    ensures Run(Frames(fs), false, false, decode, []) == Parsed(rs, false)
  {
    FramedStream(fs, rs, [], decode, []);
    assert Frames(fs) + [] == Frames(fs);
    assert [] + rs == rs;
    RunStops([], false, false, decode, rs);
  }

  // ------------------------------------------------ REC_LEN as the writers fill it

  /**
   * As written: ToBytes of a PIR stores 6, the size with the header, as
   * REC_LEN, so of two PIRs written back to back the loop reads the first
   * with the second's header as its body, then finds two bytes, too few
   * for a header, and ends. The second PIR is lost.
   */
  lemma PirPairSwallowed(p: Pir.Pir, q: Pir.Pir, d: int)
    ensures Serialized(PirRecord(p), false) == Ok(Pir.Image(p, false))
    ensures Run(Pir.Image(p, false) + Pir.Image(q, false), false, false, DecoderAt(d), []) == Parsed([PirRecord(p)], false)
  {
    PirBytes(p, false);
    var t := Pir.Image(p, false) + Pir.Image(q, false);
    FirstPirStep(p, q, d);
    RunGoesOn(t, false, false, DecoderAt(d), [], Some(PirRecord(p)), 10, false, false);
    assert [] + Added(Some(PirRecord(p))) == [PirRecord(p)];
    RunStops(t[10..], false, false, DecoderAt(d), [PirRecord(p)]);
  }

  /** The first PIR's REC_LEN of 6 takes in the second PIR's header as body; the loop goes on with the last 2 of 12 bytes. */
  lemma FirstPirStep(p: Pir.Pir, q: Pir.Pir, d: int)
    ensures StepAt(Pir.Image(p, false) + Pir.Image(q, false), false, false, DecoderAt(d))
      == Ok(Advance(Some(PirRecord(p)), 10, false, false))
  {
    var t := Pir.Image(p, false) + Pir.Image(q, false);
    assert U16Wire(6, false) == [6, 0];
    assert t[..6] == [6, 0, 5, 10, p.headNumber, p.siteNumber];
    assert HeaderAt(t, 0, false) == Ok(Header(6, 5, 10));
    var body := BodyAt(t, 4, 6);
    assert body == t[4..10];
    FastPathAgrees(1290, body, false, d);
    FromCodeInverts(PIR, 1290);
    assert Pir.Parse(body, 0) == Ok(p);
    assert DecoderAt(d)(1290, body, false) == Ok(Decoded(Some(PirRecord(p)), None));
  }

  /** The image with REC_LEN set to LengthNoHeader(), the body size the parser reads. */
  function Reframed(image: seq<byte>): (r: seq<byte>)
    requires 4 <= |image| <= 0xFFFF
    ensures |r| == |image| && r[2..] == image[2..]
  {
    U16Wire(LengthNoHeader(|image|), false) + image[2..]
  }

  /** With REC_LEN set to LengthNoHeader(), two PIRs written back to back read back as both. */
  lemma IntendedPirPairRead(p: Pir.Pir, q: Pir.Pir, d: int)
    ensures Run(Reframed(Pir.Image(p, false)) + Reframed(Pir.Image(q, false)), false, false, DecoderAt(d), [])
      == Parsed([PirRecord(p), PirRecord(q)], false)
  {
    var f, g := Framed(5, 10, [p.headNumber, p.siteNumber]), Framed(5, 10, [q.headNumber, q.siteNumber]);
    assert Frame(f) == Reframed(Pir.Image(p, false));
    assert Frame(g) == Reframed(Pir.Image(q, false));
    FastPathAgrees(1290, f.body, false, d);
    FastPathAgrees(1290, g.body, false, d);
    FromCodeInverts(PIR, 1290);
    assert ReadsAs(f, PirRecord(p), DecoderAt(d));
    assert ReadsAs(g, PirRecord(q), DecoderAt(d));
    var fs := [f, g];
    assert Frames(fs) == Frame(f) + Frame(g) by {
      assert Frames(fs[1..]) == Frame(g) + Frames([]);
    }
    FramedStreamReads(fs, [PirRecord(p), PirRecord(q)], DecoderAt(d));
  }
}
