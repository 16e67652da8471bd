/**
 * What every STDF record shares (Stdf4Record): the header-inclusive
 * Length and LengthNoHeader, and the trailing run of optional C*n fields
 * that several records read one after another with
 * GetStringAndUpdateOffset and write with one shared "seen a null" flag.
 */
module RecordBase {
  import opened Primitives
  import opened ValueConverter

  /** `(ushort)(Length() - 4)`: the body length, wrapped to 16 bits. */
  function LengthNoHeader(length: u16): (r: u16)
    ensures length >= 4 ==> r == length - 4
    ensures length < 4 ==> r == length + 0x1_0000 - 4
  {
    (length - 4) % 0x1_0000
  }

  /** The records' raw `(char)data[i]` cast: a byte becomes the char of the same value. */
  function CharAt(data: seq<byte>, at: nat): (r: Result<char>)
    ensures r.Ok? <==> at < |data|
    ensures r.Ok? ==> r.value as int == data[at]
    ensures r.Err? ==> r.error == IndexOutOfRange
  {
    var b :- ByteAt(data, at);
    Ok(b as char)
  }

  // ------------------------------------------------------ field lists

  /** Every field is null. */
  predicate AllNull(values: seq<Option<string>>)
    decreases |values|
  {
    values == [] || (values[0].None? && AllNull(values[1..]))
  }

  /** Once a field is null, every later field is null too. */
  predicate NullsLast(values: seq<Option<string>>)
    decreases |values|
  {
    values == [] || ((values[0].None? ==> AllNull(values[1..])) && NullsLast(values[1..]))
  }

  /** Every present field fits a C*n length byte. */
  predicate AllFit(values: seq<Option<string>>)
    decreases |values|
  {
    values == [] || ((values[0].Some? ==> |values[0].value| <= 255) && AllFit(values[1..]))
  }

  /** Every present field is plain ASCII. */
  predicate AllAscii(values: seq<Option<string>>)
    decreases |values|
  {
    values == [] || ((values[0].Some? ==> IsAscii(values[0].value)) && AllAscii(values[1..]))
  }

  /** `n` null fields. */
  function Nulls(n: nat): (r: seq<Option<string>>)
    ensures |r| == n
    decreases n
  {
    if n == 0 then [] else [None] + Nulls(n - 1)
  }

  lemma {:induction false} NullsAreNull(n: nat)
    ensures AllNull(Nulls(n))
    decreases n
  {
    if n > 0 {
      NullsAreNull(n - 1);
      assert Nulls(n)[1..] == Nulls(n - 1);
    }
  }

  /** A list of nulls is `Nulls` of its length. */
  lemma {:induction false} AllNullIsNulls(values: seq<Option<string>>)
    requires AllNull(values)
    ensures values == Nulls(|values|)
    decreases |values|
  {
    if values != [] {
      AllNullIsNulls(values[1..]);
      assert values == [values[0]] + values[1..];
    }
  }

  /** An all-null list keeps nulls last. */
  lemma {:induction false} AllNullNullsLast(values: seq<Option<string>>)
    requires AllNull(values)
    ensures NullsLast(values)
    decreases |values|
  {
    if values != [] {
      AllNullNullsLast(values[1..]);
    }
  }

  /** Null fields fit, are ASCII, keep nulls last and take no room. */
  lemma {:induction false} NullsAreEmpty(n: nat)
    ensures AllFit(Nulls(n)) && AllAscii(Nulls(n)) && NullsLast(Nulls(n))
    ensures StringsImage(Nulls(n)) == []
    decreases n
  {
    NullsAreNull(n);
    AllNullNullsLast(Nulls(n));
    if n > 0 {
      NullsAreEmpty(n - 1);
      assert Nulls(n)[1..] == Nulls(n - 1);
    }
  }

  /** Two fields: the list predicates say what they say about each field. */
  lemma PairFields(a: Option<string>, b: Option<string>)
    ensures AllFit([a, b]) <==> (a.Some? ==> |a.value| <= 255) && (b.Some? ==> |b.value| <= 255)
    ensures AllAscii([a, b]) <==> (a.Some? ==> IsAscii(a.value)) && (b.Some? ==> IsAscii(b.value))
    ensures NullsLast([a, b]) <==> (a.None? ==> b.None?)
    ensures AllNull([a, b]) <==> a.None? && b.None?
  {
    assert [a, b][1..] == [b];
    assert [b][1..] == [];
    assert AllFit([b]) <==> (b.Some? ==> |b.value| <= 255);
    assert AllAscii([b]) <==> (b.Some? ==> IsAscii(b.value));
    assert AllNull([b]) <==> b.None?;
    assert NullsLast([b]);
  }

  // ------------------------------------------------------------ reading

  /** `n` C*n fields read one after another from `offset`. */
  function ReadStrings(data: seq<byte>, offset: nat, n: nat): (r: Result<Read<seq<Option<string>>>>)
    ensures r.Ok? ==> |r.value.value| == n
    decreases n
  {
    if n == 0 then Ok(Read([], offset))
    else
      var first :- GetStringAndUpdateOffset(data, offset);
      var rest :- ReadStrings(data, first.next, n - 1);
      Ok(Read([first.value] + rest.value, rest.next))
  }

  /** Reading past the end of the data gives nothing but nulls. */
  lemma {:induction false} ReadStringsAtEnd(data: seq<byte>, offset: nat, n: nat)
    requires offset >= |data|
    ensures ReadStrings(data, offset, n) == Ok(Read(Nulls(n), offset))
    decreases n
  {
    if n > 0 {
      ReadStringsAtEnd(data, offset, n - 1);
    }
  }

  /**
   * A null read does not advance the offset, so the reads after it are
   * at the end of the data as well: decoded fields are null from the
   * first null on.
   */
  lemma {:induction false} ReadStringsNullsLast(data: seq<byte>, offset: nat, n: nat)
    ensures ReadStrings(data, offset, n).Ok? ==> NullsLast(ReadStrings(data, offset, n).value.value)
    decreases n
  {
    var r := ReadStrings(data, offset, n);
    if n > 0 && r.Ok? {
      var first := GetStringAndUpdateOffset(data, offset).value;
      var rest := ReadStrings(data, first.next, n - 1);
      ReadStringsNullsLast(data, first.next, n - 1);
      if first.value.None? {
        ReadStringsAtEnd(data, first.next, n - 1);
        NullsAreNull(n - 1);
      }
      assert r.value.value[1..] == rest.value.value;
    }
  }

  // ------------------------------------------------------------ writing

  /** The bytes a single optional C*n field occupies: nothing for null. */
  function CnImage(v: Option<string>): (b: seq<byte>)
  {
    if v.None? || |v.value| > 255 then [] else CnBytes(v.value)
  }

  /** The bytes a run of optional C*n fields occupies, in order. */
  function StringsImage(values: seq<Option<string>>): (b: seq<byte>)
    decreases |values|
  {
    if values == [] then [] else CnImage(values[0]) + StringsImage(values[1..])
  }

  /** What Length() adds for one optional C*n field: nothing for null, else a length byte and the characters. */
  function CnLength(v: Option<string>): nat
  {
    if v.None? then 0 else |v.value| + 1
  }

  function StringsLength(values: seq<Option<string>>): nat
    decreases |values|
  {
    if values == [] then 0 else CnLength(values[0]) + StringsLength(values[1..])
  }

  /** When every field fits, Length()'s count is exactly the bytes the fields occupy. */
  lemma {:induction false} StringsImageLength(values: seq<Option<string>>)
    requires AllFit(values)
    ensures |StringsImage(values)| == StringsLength(values) <= 256 * |values|
    decreases |values|
  {
    if values != [] {
      StringsImageLength(values[1..]);
    }
  }

  /** Two fields side by side: their image and their count are those of each field, added. */
  lemma StringsPair(a: Option<string>, b: Option<string>)
    ensures StringsImage([a, b]) == CnImage(a) + CnImage(b)
    ensures StringsLength([a, b]) == CnLength(a) + CnLength(b)
  {
    assert [a, b][1..] == [b];
    assert [b][1..] == [];
    assert StringsImage([b]) == CnImage(b) + StringsImage([]);
    assert StringsLength([b]) == CnLength(b) + StringsLength([]);
  }

  /** Add `count` bytes written before a step to what the step reports. */
  function After(count: nat, s: Step<Written>): (r: Step<Written>)
    ensures r.buf == s.buf
    ensures r.result.Ok? <==> s.result.Ok?
    ensures r.result.Err? ==> r.result == s.result
    ensures r.result.Ok? ==> r.result.value == Written(count + s.result.value.count, s.result.value.sawNull)
  {
    if s.result.Ok? then Step(s.buf, Ok(Written(count + s.result.value.count, s.result.value.sawNull))) else s
  }

  /** WriteAsciiString over each field in turn, with one shared "seen a null" flag. */
  function PutStrings(buf: seq<byte>, values: seq<Option<string>>, sawNull: bool, at: nat): (s: Step<Written>)
    ensures |s.buf| == |buf|
    decreases |values|
  {
    if values == [] then Yield(buf, Written(0, sawNull))
    else
      var first := PutString(buf, values[0], sawNull, at);
      if first.result.Err? then first
      else
        var w := first.result.value;
        After(w.count, PutStrings(first.buf, values[1..], w.sawNull, at + w.count))
  }

  /** One field: what PutString stores when it succeeds, and what the flag becomes. */
  lemma PutStringImage(buf: seq<byte>, v: Option<string>, sawNull: bool, at: nat)
    requires PutString(buf, v, sawNull, at).result.Ok?
    ensures PutString(buf, v, sawNull, at).buf == Stored(buf, at, CnImage(v))
    ensures PutString(buf, v, sawNull, at).result.value == Written(|CnImage(v)|, sawNull || v.None?)
    ensures v.Some? ==> |v.value| <= 255 && !sawNull
  {
    if v.None? {
      assert CnImage(v) == [];
    } else if v.value == "" {
      EmptyCn();
      assert CnImage(v) == [0];
      assert PutString(buf, v, sawNull, at) == Put(buf, at, [0], Written(1, false));
    } else {
      assert CnImage(v) == CnBytes(v.value);
      assert PutString(buf, v, sawNull, at) == Put(buf, at, CnBytes(v.value), Written(|v.value| + 1, false));
    }
  }

  /** One field written without error lay inside the buffer. */
  lemma PutStringFits(buf: seq<byte>, v: Option<string>, sawNull: bool, at: nat)
    requires PutString(buf, v, sawNull, at).result.Ok?
    ensures Fits(|buf|, at, CnImage(v))
  {
    if v.Some? && v.value == "" {
      EmptyCn();
    }
  }

  /** The empty string is its length byte alone. */
  lemma EmptyCn()
    ensures CnBytes("") == [0]
  {
  }

  /**
   * A successful run of writes stores exactly the fields' images side by
   * side, and the count is the image's size.
   */
  lemma {:induction false} PutStringsImage(buf: seq<byte>, values: seq<Option<string>>, sawNull: bool, at: nat)
    requires PutStrings(buf, values, sawNull, at).result.Ok?
    ensures PutStrings(buf, values, sawNull, at).buf == Stored(buf, at, StringsImage(values))
    ensures PutStrings(buf, values, sawNull, at).result.value.count == |StringsImage(values)|
    ensures Fits(|buf|, at, StringsImage(values))
    decreases |values|
  {
    if values != [] {
      var first := PutString(buf, values[0], sawNull, at);
      PutStringImage(buf, values[0], sawNull, at);
      PutStringFits(buf, values[0], sawNull, at);
      var w := first.result.value;
      var rest := PutStrings(first.buf, values[1..], w.sawNull, at + w.count);
      PutStringsImage(first.buf, values[1..], w.sawNull, at + w.count);
      PutStringsUnfold(buf, values, sawNull, at);
      ImageUnfold(values);
      StoredConcat(buf, at, CnImage(values[0]), StringsImage(values[1..]));
    }
  }

  /** A run whose first write succeeds is that write followed by the rest of the run. */
  lemma PutStringsUnfold(buf: seq<byte>, values: seq<Option<string>>, sawNull: bool, at: nat)
    requires values != [] && PutString(buf, values[0], sawNull, at).result.Ok?
    ensures var first := PutString(buf, values[0], sawNull, at);
      PutStrings(buf, values, sawNull, at)
      == After(first.result.value.count, PutStrings(first.buf, values[1..], first.result.value.sawNull, at + first.result.value.count))
  {
  }

  lemma ImageUnfold(values: seq<Option<string>>)
    requires values != []
    ensures StringsImage(values) == CnImage(values[0]) + StringsImage(values[1..])
  {
  }

  /**
   * A successful run of writes had valid fields: every present field is
   * at most 255 characters and no field follows a null one (none at all
   * if a null came before).
   */
  lemma {:induction false} PutStringsValid(buf: seq<byte>, values: seq<Option<string>>, sawNull: bool, at: nat)
    requires PutStrings(buf, values, sawNull, at).result.Ok?
    ensures AllFit(values) && NullsLast(values)
    ensures sawNull ==> AllNull(values)
    decreases |values|
  {
    if values != [] {
      var first := PutString(buf, values[0], sawNull, at);
      PutStringImage(buf, values[0], sawNull, at);
      var w := first.result.value;
      PutStringsValid(first.buf, values[1..], w.sawNull, at + w.count);
    }
  }

  /** Writing fits exactly when the whole image lies inside the buffer (for valid fields). */
  lemma {:induction false} PutStringsOk(buf: seq<byte>, values: seq<Option<string>>, at: nat)
    requires AllFit(values) && NullsLast(values)
    requires at + |StringsImage(values)| <= |buf|
    ensures PutStrings(buf, values, false, at).result.Ok?
    decreases |values|
  {
    if values != [] {
      var first := PutString(buf, values[0], false, at);
      assert first.result.Ok?;
      var w := first.result.value;
      if values[0].None? {
        NullsWriteNothing(first.buf, values[1..], at + w.count);
      } else {
        PutStringsOk(first.buf, values[1..], at + w.count);
      }
    }
  }

  /** Nothing but nulls: nothing written, whatever the flag. */
  lemma {:induction false} NullsWriteNothing(buf: seq<byte>, values: seq<Option<string>>, at: nat)
    requires AllNull(values)
    ensures PutStrings(buf, values, true, at) == Step(buf, Ok(Written(0, true)))
    ensures StringsImage(values) == []
    decreases |values|
  {
    if values != [] {
      NullsWriteNothing(buf, values[1..], at);
    }
  }

  /** The ASCII bytes of `s` lie in `data` from `at` on, one by one. */
  predicate CharsAt(data: seq<byte>, at: nat, s: string)
    decreases |s|
  {
    if s == [] then at <= |data|
    else at < |data| && data[at] == AsciiByte(s[0]) && CharsAt(data, at + 1, s[1..])
  }

  /** The fields lie in `data` from `at` to its end: each present one as length byte and characters. */
  predicate Laid(data: seq<byte>, at: nat, values: seq<Option<string>>)
    decreases |values|
  {
    if values == [] then at == |data|
    else if values[0].None? then Laid(data, at, values[1..])
    else
      var s := values[0].value;
      at < |data| && data[at] == |s| && CharsAt(data, at + 1, s) && Laid(data, at + 1 + |s|, values[1..])
  }

  /** The ASCII bytes of `s`, placed after `p`, lie from `|p|` on whatever follows them. */
  lemma {:induction false} CharsAtAppend(p: seq<byte>, s: string, q: seq<byte>)
    ensures CharsAt(p + AsciiEncode(s) + q, |p|, s)
    decreases |s|
  {
    if s != [] {
      CharsAtAppend(p + [AsciiByte(s[0])], s[1..], q);
      FirstChar(p, s, q);
    }
  }

  /** The first character's byte comes right after `p`; the rest follow it. */
  lemma FirstChar(p: seq<byte>, s: string, q: seq<byte>)
    requires s != []
    ensures p + AsciiEncode(s) + q == (p + [AsciiByte(s[0])]) + AsciiEncode(s[1..]) + q
    ensures |p| < |p + AsciiEncode(s) + q| && (p + AsciiEncode(s) + q)[|p|] == AsciiByte(s[0])
  {
    assert AsciiEncode(s) == [AsciiByte(s[0])] + AsciiEncode(s[1..]);
  }

  /** Where the characters lie, each byte is its character's ASCII byte. */
  lemma {:induction false} CharsAtIndex(data: seq<byte>, at: nat, s: string)
    requires CharsAt(data, at, s)
    ensures at + |s| <= |data|
    ensures forall i :: 0 <= i < |s| ==> data[at + i] == AsciiByte(s[i])
    decreases |s|
  {
    if s != [] {
      CharsAtIndex(data, at + 1, s[1..]);
      forall i | 0 <= i < |s|
        ensures data[at + i] == AsciiByte(s[i])
      {
        if i > 0 {
          assert s[i] == s[1..][i - 1];
          assert data[at + i] == data[(at + 1) + (i - 1)];
        }
      }
    }
  }

  /** Where the characters of an ASCII string lie, the bytes there decode to it. */
  lemma CharsAtDecode(data: seq<byte>, at: nat, s: string)
    requires CharsAt(data, at, s) && IsAscii(s)
    ensures at + |s| <= |data| && AsciiDecode(data[at..at + |s|]) == s
  {
    CharsAtIndex(data, at, s);
    var d := AsciiDecode(data[at..at + |s|]);
    assert forall i :: 0 <= i < |s| ==> d[i] == AsciiChar(data[at + i]);
  }

  /** A null field adds nothing to the image. */
  lemma NullTakesNoRoom(values: seq<Option<string>>)
    requires values != [] && values[0].None?
    ensures StringsImage(values) == StringsImage(values[1..])
  {
    assert CnImage(values[0]) == [];
  }

  /** The image of valid fields, after any prefix, is laid out field by field. */
  lemma {:induction false} ImageIsLaid(prefix: seq<byte>, values: seq<Option<string>>)
    requires AllFit(values)
    ensures Laid(prefix + StringsImage(values), |prefix|, values)
    decreases |values|, 1
  {
    if values == [] {
      assert prefix + StringsImage(values) == prefix;
    } else if values[0].None? {
      ImageIsLaid(prefix, values[1..]);
      NullTakesNoRoom(values);
    } else {
      PresentIsLaid(prefix, values);
    }
  }

  lemma {:induction false} PresentIsLaid(prefix: seq<byte>, values: seq<Option<string>>)
    requires values != [] && values[0].Some? && AllFit(values)
    ensures Laid(prefix + StringsImage(values), |prefix|, values)
    decreases |values|, 0
  {
    var s, rest := values[0].value, values[1..];
    ImageIsLaid(prefix + CnBytes(s), rest);
    CnAt(prefix, s, StringsImage(rest));
    LaidPresent(prefix + CnBytes(s) + StringsImage(rest), |prefix|, values);
    PresentImage(prefix, values);
  }

  /** A present first field is laid where its length byte and characters lie, followed by the rest. */
  lemma LaidPresent(data: seq<byte>, at: nat, values: seq<Option<string>>)
    requires values != [] && values[0].Some?
    requires at < |data| && data[at] == |values[0].value|
    requires CharsAt(data, at + 1, values[0].value) && Laid(data, at + 1 + |values[0].value|, values[1..])
    ensures Laid(data, at, values)
  {
  }

  /** A present first field puts its length byte right after the prefix, then its characters. */
  lemma PresentImage(prefix: seq<byte>, values: seq<Option<string>>)
    requires values != [] && values[0].Some? && |values[0].value| <= 255
    ensures prefix + StringsImage(values) == (prefix + CnBytes(values[0].value)) + StringsImage(values[1..])
  {
    assert StringsImage(values) == CnBytes(values[0].value) + StringsImage(values[1..]);
  }

  /** A C*n field after `prefix`: its length byte, then its characters, whatever follows. */
  lemma CnAt(prefix: seq<byte>, s: string, q: seq<byte>)
    requires |s| <= 255
    ensures |prefix + CnBytes(s)| == |prefix| + 1 + |s|
    ensures |prefix| < |prefix + CnBytes(s) + q| && (prefix + CnBytes(s) + q)[|prefix|] == |s|
    ensures CharsAt(prefix + CnBytes(s) + q, |prefix| + 1, s)
  {
    CharsAtAppend(prefix + [|s|], s, q);
    CnRegroup(prefix, s, q);
  }

  lemma CnRegroup(prefix: seq<byte>, s: string, q: seq<byte>)
    requires |s| <= 255
    ensures prefix + CnBytes(s) + q == prefix + [|s|] + AsciiEncode(s) + q
  {
  }

  /** Null fields take no room: laid out from `at`, they end the data there. */
  lemma {:induction false} LaidNulls(data: seq<byte>, at: nat, values: seq<Option<string>>)
    requires AllNull(values) && Laid(data, at, values)
    ensures at == |data|
    decreases |values|
  {
    if values != [] {
      LaidNulls(data, at, values[1..]);
    }
  }

  /** A present ASCII field laid out at `at` reads back. */
  lemma ReadLaidField(data: seq<byte>, at: nat, s: string)
    requires at < |data| && data[at] == |s| && CharsAt(data, at + 1, s) && IsAscii(s)
    ensures GetStringAndUpdateOffset(data, at) == Ok(Read(Some(s), at + 1 + |s|))
  {
    CharsAtDecode(data, at + 1, s);
  }

  /**
   * Reading the image of valid ASCII fields back, after whatever comes
   * before it and with the data ending where the image ends, returns the
   * same fields (the trailing nulls come back from the end of the data).
   */
  lemma StringsRoundTrip(prefix: seq<byte>, values: seq<Option<string>>)
    requires AllFit(values) && NullsLast(values) && AllAscii(values)
    ensures ReadStrings(prefix + StringsImage(values), |prefix|, |values|)
      == Ok(Read(values, |prefix + StringsImage(values)|))
  {
    ImageIsLaid(prefix, values);
    LaidRoundTrip(prefix + StringsImage(values), |prefix|, values);
  }

  /** One optional C*n field at the end of the data reads back as itself. */
  lemma FieldRoundTrip(prefix: seq<byte>, v: Option<string>)
    requires v.Some? ==> |v.value| <= 255 && IsAscii(v.value)
    ensures GetStringAndUpdateOffset(prefix + CnImage(v), |prefix|) == Ok(Read(v, |prefix + CnImage(v)|))
  {
    if v.Some? {
      var s := v.value;
      CnAt(prefix, s, []);
      assert prefix + CnBytes(s) + [] == prefix + CnImage(v);
      ReadLaidField(prefix + CnImage(v), |prefix|, s);
    }
  }

  lemma {:induction false} LaidRoundTrip(data: seq<byte>, at: nat, values: seq<Option<string>>)
    requires NullsLast(values) && AllAscii(values) && Laid(data, at, values)
    ensures ReadStrings(data, at, |values|) == Ok(Read(values, |data|))
    decreases |values|
  {
    if values == [] {
    } else if values[0].None? {
      LaidNulls(data, at, values[1..]);
      ReadStringsAtEnd(data, at, |values|);
      AllNullIsNulls(values[1..]);
      assert values == [None] + Nulls(|values| - 1);
    } else {
      var s := values[0].value;
      ReadLaidField(data, at, s);
      LaidRoundTrip(data, at + 1 + |s|, values[1..]);
      ReadStringsUnfold(data, at, Some(s), values[1..], at + 1 + |s|, |data|);
      assert [Some(s)] + values[1..] == values;
    }
  }

  /** One field read, then the rest from where it ends. */
  lemma ReadStringsUnfold(data: seq<byte>, at: nat, first: Option<string>, rest: seq<Option<string>>, next: nat, end: nat)
    requires GetStringAndUpdateOffset(data, at) == Ok(Read(first, next))
    requires ReadStrings(data, next, |rest|) == Ok(Read(rest, end))
    ensures ReadStrings(data, at, |rest| + 1) == Ok(Read([first] + rest, end))
  {
  }

  /** The fields of a record body, as a caller writes them. */
  method WriteStrings(conv: StdfValueConverter, values: seq<Option<string>>, dest: array<byte>, sawNull: bool, at: nat)
    returns (r: Result<Written>)
    modifies dest
    ensures Step(dest[..], r) == PutStrings(old(dest[..]), values, sawNull, at)
  {
    var i: nat, total: nat, flag := 0, 0, sawNull;
    while i < |values|
      invariant 0 <= i <= |values|
      invariant PutStrings(old(dest[..]), values, sawNull, at) == After(total, PutStrings(dest[..], values[i..], flag, at + total))
    {
      PutStringsStep(dest[..], values, i, flag, at, total);
      var w := conv.WriteAsciiString(values[i], dest, flag, at + total);
      if w.Err? {
        return w;
      }
      total, flag := total + w.value.count, w.value.sawNull;
      i := i + 1;
    }
    r := Ok(Written(total, flag));
  }

  /** `array[at] = Convert.ToByte(c)`: a char above 0xFF overflows before the store. */
  function PutConverted(buf: seq<byte>, c: char, at: nat): (s: Step<nat>)
  {
    if c as int > 0xFF then Throw(buf, Overflow) else Put(buf, at, [c as int], 1)
  }

  method StoreConverted(c: char, dest: array<byte>, at: nat) returns (r: Result<nat>)
    modifies dest
    ensures Step(dest[..], r) == PutConverted(old(dest[..]), c, at)
  {
    if c as int > 0xFF {
      return Err(Overflow);
    }
    var ok := StoreBytes([c as int], dest, at);
    r := if ok then Ok(1) else Err(IndexOutOfRange);
  }

  /** `length += (ushort)x` on a ushort accumulator. */
  function AddUshort(acc: u16, x: nat): (r: u16)
  {
    (acc + x % 0x1_0000) % 0x1_0000
  }

  /** Without overflow, the ushort accumulator adds exactly. */
  lemma AddUshortExact(acc: u16, x: nat)
    requires acc + x < 0x1_0000
    ensures AddUshort(acc, x) == acc + x
  {
  }

  /**
   * The end of a SetBytes whose last fields are C*n: the fields from
   * `offset + at` with one shared "seen a null" flag, then the ushort
   * index reached written as the length at `offset`; it reports that
   * index.
   */
  function StringsTail(buf: seq<byte>, values: seq<Option<string>>, sawNull: bool, offset: nat, at: nat, reverse: bool): (s: Step<nat>)
  {
    var texts :- PutStrings(buf, values, sawNull, offset + at);
    var idx := (at + texts.value.count) % 0x1_0000;
    var len :- PutU16(texts.buf, idx, offset, reverse);
    Yield(len.buf, idx)
  }

  method WriteStringsTail(conv: StdfValueConverter, values: seq<Option<string>>, dest: array<byte>, sawNull: bool, offset: nat, at: nat)
    returns (r: Result<nat>)
    modifies dest
    ensures Step(dest[..], r) == StringsTail(old(dest[..]), values, sawNull, offset, at, conv.reverseBytesOnWrite)
  {
    var texts :- WriteStrings(conv, values, dest, sawNull, offset + at);
    var idx := (at + texts.count) % 0x1_0000;
    r := conv.SetUint16(idx, dest, offset);
    if r.Ok? {
      r := Ok(idx);
    }
  }

  /**
   * The fields written after a front part stored from `at`: a successful
   * run leaves front and fields side by side, with valid fields.
   */
  lemma StringsAfterFront(buf: seq<byte>, at: nat, front: seq<byte>, values: seq<Option<string>>, sawNull: bool)
    requires PutStrings(Stored(buf, at, front), values, sawNull, at + |front|).result.Ok?
    ensures PutStrings(Stored(buf, at, front), values, sawNull, at + |front|).buf == Stored(buf, at, front + StringsImage(values))
    ensures PutStrings(Stored(buf, at, front), values, sawNull, at + |front|).result.value.count == |StringsImage(values)|
    ensures Fits(|buf|, at + |front|, StringsImage(values))
    ensures AllFit(values) && NullsLast(values)
    ensures sawNull ==> AllNull(values)
  {
    PutStringsImage(Stored(buf, at, front), values, sawNull, at + |front|);
    PutStringsValid(Stored(buf, at, front), values, sawNull, at + |front|);
    StoredConcat(buf, at, front, StringsImage(values));
  }

  /**
   * A SetBytes that stored `front` after the two length bytes and ends
   * with C*n fields: on success the fields were valid, and the buffer
   * holds the length (the whole record's size, header included) followed
   * by front and fields; the index reported is that size.
   */
  lemma StringsTailImage(buf: seq<byte>, front: seq<byte>, values: seq<Option<string>>, sawNull: bool, offset: nat, reverse: bool)
    requires 2 + |front| + 256 * |values| < 0x1_0000
    requires StringsTail(Stored(buf, offset + 2, front), values, sawNull, offset, 2 + |front|, reverse).result.Ok?
    ensures AllFit(values) && NullsLast(values) && (sawNull ==> AllNull(values))
    ensures 2 + |front + StringsImage(values)| < 0x1_0000
    ensures Fits(|buf|, offset + 2 + |front|, StringsImage(values))
    ensures StringsTail(Stored(buf, offset + 2, front), values, sawNull, offset, 2 + |front|, reverse)
      == Step(Stored(buf, offset, U16Wire(2 + |front + StringsImage(values)|, reverse) + (front + StringsImage(values))),
              Ok(2 + |front + StringsImage(values)|))
  {
    var body := front + StringsImage(values);
    StringsAfterFront(buf, offset + 2, front, values, sawNull);
    StringsImageLength(values);
    LengthInFront(buf, offset, body, reverse);
  }

  /** The length written in front of a stored body completes the record image. */
  lemma LengthInFront(buf: seq<byte>, offset: nat, body: seq<byte>, reverse: bool)
    requires 2 + |body| < 0x1_0000
    ensures (2 + |body|) % 0x1_0000 == 2 + |body|
    ensures PutU16(Stored(buf, offset + 2, body), 2 + |body|, offset, reverse).buf
      == Stored(buf, offset, U16Wire(2 + |body|, reverse) + body)
  {
    StoredFront(buf, offset, U16Wire(2 + |body|, reverse), body);
  }

  /** Valid fields whose image fits after `at` are written without error. */
  lemma StringsTailOk(buf: seq<byte>, values: seq<Option<string>>, sawNull: bool, offset: nat, at: nat, reverse: bool)
    requires AllFit(values) && NullsLast(values) && (sawNull ==> AllNull(values))
    requires offset + 2 <= |buf| && offset + at + |StringsImage(values)| <= |buf|
    ensures StringsTail(buf, values, sawNull, offset, at, reverse).result.Ok?
  {
    if sawNull {
      NullsWriteNothing(buf, values, offset + at);
    } else {
      PutStringsOk(buf, values, offset + at);
    }
  }

  /** One turn of the writing loop: the field at `i`, then the rest with the counts added up. */
  lemma PutStringsStep(buf: seq<byte>, values: seq<Option<string>>, i: nat, sawNull: bool, at: nat, total: nat)
    requires i < |values|
    ensures After(total, PutStrings(buf, values[i..], sawNull, at + total)) ==
      var first := PutString(buf, values[i], sawNull, at + total);
      if first.result.Err? then first
      else
        After(total + first.result.value.count,
          PutStrings(first.buf, values[i + 1..], first.result.value.sawNull, at + total + first.result.value.count))
  {
    assert values[i..][0] == values[i] && values[i..][1..] == values[i + 1..];
    var first := PutString(buf, values[i], sawNull, at + total);
    if first.result.Ok? {
      var w := first.result.value;
      AfterAfter(total, w.count, PutStrings(first.buf, values[i + 1..], w.sawNull, at + total + w.count));
    }
  }

  lemma AfterAfter(a: nat, b: nat, s: Step<Written>)
    ensures After(a, After(b, s)) == After(a + b, s)
  {
  }

  /**
   * The unprefixed string writer as HBR, SBR and WIR call it, behind an
   * `if (value != null)`: nothing at all for a null value, else the
   * characters without a length byte.
   */
  function RawName(name: Option<string>, buf: seq<byte>, at: nat): (s: Step<nat>)
    ensures s.result.Ok? ==> s.result.value <= 255
  {
    if name.None? then Yield(buf, 0) else PutRawString(buf, name, at)
  }

  method WriteRawName(name: Option<string>, conv: StdfValueConverter, dest: array<byte>, at: nat) returns (r: Result<nat>)
    modifies dest
    ensures Step(dest[..], r) == RawName(name, old(dest[..]), at)
  {
    if name.None? {
      return Ok(0);
    }
    r := conv.WriteRawString(name, dest, at);
  }

  /** What RawName adds to the index: the characters, none for a null value. */
  function Width(name: Option<string>): nat
  {
    if name.None? then 0 else |name.value|
  }

  /** The bytes RawName stores: none for a null value, else the ASCII characters. */
  function RawImage(name: Option<string>): (b: seq<byte>)
    ensures |b| == Width(name)
  {
    if name.None? then [] else AsciiEncode(name.value)
  }

  /** RawName succeeds exactly for a value of at most 255 whose bytes fit, and then stores them and reports their number. */
  lemma RawNameWritten(name: Option<string>, buf: seq<byte>, at: nat)
    ensures RawName(name, buf, at).result.Ok? <==> (name.Some? ==> |name.value| <= 255) && Fits(|buf|, at, RawImage(name))
    ensures RawName(name, buf, at).result.Ok? ==> RawName(name, buf, at) == Step(Stored(buf, at, RawImage(name)), Ok(Width(name)))
  {
  }

  /**
   * The end of SetBytes as the STDF V4 layout intends it for a record
   * whose last field is one C*n: the field at `offset + at`, then
   * `idx - 4` through SetUint16(int) at `offset`; it reports `idx`.
   */
  function CnTail(name: Option<string>, buf: seq<byte>, offset: nat, at: nat, reverse: bool): (s: Step<nat>)
  {
    var written :- PutString(buf, name, false, offset + at);
    var idx := at + written.value.count;
    var len :- PutU16Int(written.buf, idx - 4, offset, reverse);
    Yield(len.buf, idx)
  }

  /** The field and the length are written exactly when the field is at most 255 and its C*n bytes fit. */
  lemma CnTailFits(name: Option<string>, buf: seq<byte>, offset: nat, at: nat, reverse: bool)
    requires 4 <= at <= 0xFF00 && offset + at <= |buf|
    ensures CnTail(name, buf, offset, at, reverse).result.Ok? <==>
      (name.Some? ==> |name.value| <= 255) && offset + at + |CnImage(name)| <= |buf|
  {
    if name.Some? && name.value == "" {
      EmptyCn();
    }
  }

  /**
   * The field after a front stored from `offset + 2`, then the length
   * before them both: the record holds `idx - 4`, front and field, and
   * `idx` is reported.
   */
  lemma CnTailWritten(name: Option<string>, front: seq<byte>, buf: seq<byte>, offset: nat, reverse: bool)
    requires 2 <= |front| <= 0xFE00 && (name.Some? ==> |name.value| <= 255)
    requires offset + 2 + |front| + |CnImage(name)| <= |buf|
    ensures |front| - 2 + |CnImage(name)| < 0x1_0000
    ensures CnTail(name, Stored(buf, offset + 2, front), offset, 2 + |front|, reverse)
      == Step(Stored(buf, offset, U16Wire(|front| - 2 + |CnImage(name)|, reverse) + (front + CnImage(name))),
              Ok(2 + |front| + |CnImage(name)|))
  {
    CnTailFits(name, Stored(buf, offset + 2, front), offset, 2 + |front|, reverse);
    PutStringImage(Stored(buf, offset + 2, front), name, false, offset + 2 + |front|);
    StoredConcat(buf, offset + 2, front, CnImage(name));
    StoredFront(buf, offset, U16Wire(|front| - 2 + |CnImage(name)|, reverse), front + CnImage(name));
  }
}
