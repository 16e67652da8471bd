/**
 * Shared vocabulary of the STDF V4 codec model: the fixed-width integer
 * types of the STDF "Data Representation" table, the exceptions the codec
 * can raise, little-endian byte helpers for a little-endian host, the
 * ASCII encoding used for C*n fields, and the write model for a .NET
 * byte array that is filled index by index.
 */
module Primitives {

  type byte = x: int | 0 <= x < 0x100
  type u16 = x: int | 0 <= x < 0x1_0000
  type u32 = x: int | 0 <= x < 0x1_0000_0000
  type i16 = x: int | -0x8000 <= x < 0x8000
  type i8 = x: int | -0x80 <= x < 0x80

  /** The .NET host is little-endian (BitConverter.IsLittleEndian). */
  const HostLittleEndian: bool := true

  /** The exceptions the codec raises, one constructor per cause. */
  datatype Error =
    | IndexOutOfRange       // .NET IndexOutOfRangeException / span slice out of range
    | ArgumentOutOfRange    // .NET ArgumentOutOfRangeException
    | EndOfStream           // BinaryReader at the end of the stream
    | DivideByZero          // integer % or / by zero
    | DecCpuType            // Stdf4ParserException: CPU type 0 (DEC PDP-11/VAX)
    | UnsupportedCpuType    // Stdf4ParserException: CPU type other than 0, 1, 2
    | TwoBytesOutOfRange    // Stdf4ParserException: a U*2 / I*2 read past the data
    | StringOverrun         // Stdf4ParserException: C*n length runs past the data
    | FarTooShort           // Stdf4ParserException: FAR body under two bytes
    | CharOutOfRange        // Stdf4ParserException: a char above 0xFF is written
    | Overflow              // .NET OverflowException: Convert.ToByte of a char above 0xFF
    | NonNullAfterNull      // Stdf4ParserException: a non-null field after a null one
    | StringTooLong         // Stdf4ParserException: a C*n value over 255 characters
    | RecordTooLong         // Stdf4ParserException: a record over 65535 bytes
    | NotImplemented        // the "Not Implemented" exceptions
    | RecordNotSupported    // the parser's "not implemented" record kinds

  datatype Option<T> = None | Some(value: T)

  datatype Result<T> = Ok(value: T) | Err(error: Error)
  {
    predicate IsFailure() { Err? }
    function PropagateFailure<U>(): Result<U>
      requires Err?
    {
      Err(error)
    }
    function Extract(): T
      requires Ok?
    {
      value
    }
  }

  // ---------------------------------------------------------------- bytes

  /** A `(ushort)` cast leaves a value that already fits unchanged. */
  lemma UshortFits(x: int)
    requires 0 <= x < 0x1_0000
    ensures x % 0x1_0000 == x
  {
  }

  /** BitConverter.ToUInt16 on a little-endian host. */
  function U16Of(b0: byte, b1: byte): (v: u16)
  {
    b0 + 0x100 * b1
  }

  /** BitConverter.ToInt16 on a little-endian host: two's complement of U16Of. */
  function I16Of(b0: byte, b1: byte): (v: i16)
  {
    var u := U16Of(b0, b1);
    if u < 0x8000 then u else u - 0x1_0000
  }

  /** BitConverter.ToUInt32 on a little-endian host. */
  function U32Of(b0: byte, b1: byte, b2: byte, b3: byte): (v: u32)
  {
    b0 + 0x100 * b1 + 0x1_0000 * b2 + 0x100_0000 * b3
  }

  /** BitConverter.GetBytes of a 16-bit value on a little-endian host. */
  function U16Bytes(v: u16): (s: seq<byte>)
    ensures |s| == 2 && U16Of(s[0], s[1]) == v
  {
    [v % 0x100, v / 0x100]
  }

  /** BitConverter.GetBytes of a 32-bit value on a little-endian host. */
  function U32Bytes(v: u32): (s: seq<byte>)
    ensures |s| == 4 && U32Of(s[0], s[1], s[2], s[3]) == v
  {
    [v % 0x100, (v / 0x100) % 0x100, (v / 0x1_0000) % 0x100, v / 0x100_0000]
  }

  /** The byte order of `s` on the wire: as is, or reversed. */
  function Ordered(s: seq<byte>, reverse: bool): (r: seq<byte>)
    ensures |r| == |s|
    ensures forall i :: 0 <= i < |s| ==> r[i] == (if reverse then s[|s| - 1 - i] else s[i])
  {
    if !reverse || |s| == 0 then s else Ordered(s[1..], true) + [s[0]]
  }

  lemma {:induction false} OrderedTwice(s: seq<byte>, reverse: bool)
    ensures Ordered(Ordered(s, reverse), reverse) == s
  {
    var r := Ordered(s, reverse);
    assert |Ordered(r, reverse)| == |s|;
    forall i | 0 <= i < |s| ensures Ordered(r, reverse)[i] == s[i] {
      if reverse {
        assert r[|s| - 1 - i] == s[|s| - 1 - (|s| - 1 - i)];
      }
    }
  }

  // ---------------------------------------------------------------- ASCII

  /** Encoding.ASCII.GetString of one byte: bytes above 0x7F decode as '?'. */
  function AsciiChar(b: byte): (c: char)
    ensures c as int < 0x80
    ensures b < 0x80 <==> c as int == b
  {
    if b < 0x80 then b as char else '?'
  }

  /** Encoding.ASCII.GetBytes of one char: chars above 0x7F encode as '?' (0x3F). */
  function AsciiByte(c: char): (b: byte)
    ensures b < 0x80
    ensures c as int < 0x80 <==> b == c as int
  {
    if c as int < 0x80 then c as int else 0x3F
  }

  function AsciiDecode(s: seq<byte>): (r: string)
    ensures |r| == |s|
    ensures forall i :: 0 <= i < |s| ==> r[i] == AsciiChar(s[i])
  {
    seq(|s|, i requires 0 <= i < |s| => AsciiChar(s[i]))
  }

  function AsciiEncode(s: string): (r: seq<byte>)
    ensures |r| == |s|
    ensures forall i :: 0 <= i < |s| ==> r[i] == AsciiByte(s[i])
  {
    seq(|s|, i requires 0 <= i < |s| => AsciiByte(s[i]))
  }

  predicate IsAscii(s: string)
  {
    forall i :: 0 <= i < |s| ==> s[i] as int < 0x80
  }

  /** Decoding what was encoded gives the string back exactly when it is ASCII. */
  lemma AsciiRoundTrip(s: string)
    ensures AsciiDecode(AsciiEncode(s)) == s <==> IsAscii(s)
  {
    if !IsAscii(s) {
      var i :| 0 <= i < |s| && s[i] as int >= 0x80;
      assert AsciiDecode(AsciiEncode(s))[i] == '?';
    }
  }

  // ------------------------------------------------------- writing bytes

  /**
   * The contents of a byte array after `bytes` are stored one by one at
   * `at`, `at + 1`, ... in increasing index order: every position of the
   * window that lies inside the array is written, and the first store past
   * the end raises IndexOutOfRange, so the positions after it are never
   * reached (there are none inside the array).
   */
  function Stored(buf: seq<byte>, at: nat, bytes: seq<byte>): (r: seq<byte>)
    ensures |r| == |buf|
    decreases |bytes|
  {
    if bytes == [] then buf
    else Stored(if at < |buf| then buf[at := bytes[0]] else buf, at + 1, bytes[1..])
  }

  /** Position by position: the window holds `bytes`, everything else is as before. */
  lemma {:induction false} StoredAt(buf: seq<byte>, at: nat, bytes: seq<byte>)
    ensures forall i :: 0 <= i < |buf| ==>
      Stored(buf, at, bytes)[i] == if at <= i < at + |bytes| then bytes[i - at] else buf[i]
    decreases |bytes|
  {
    if bytes != [] {
      StoredAt(if at < |buf| then buf[at := bytes[0]] else buf, at + 1, bytes[1..]);
    }
  }

  lemma {:induction false} StoredConcat(buf: seq<byte>, at: nat, a: seq<byte>, b: seq<byte>)
    ensures Stored(Stored(buf, at, a), at + |a|, b) == Stored(buf, at, a + b)
    decreases |a|
  {
    if a != [] {
      assert (a + b)[1..] == a[1..] + b;
      StoredConcat(if at < |buf| then buf[at := a[0]] else buf, at + 1, a[1..], b);
    } else {
      assert a + b == b;
    }
  }

  /** When the window fits, it holds `bytes` and the rest of the buffer is untouched. */
  lemma StoredWindow(buf: seq<byte>, at: nat, bytes: seq<byte>)
    requires at + |bytes| <= |buf|
    ensures Stored(buf, at, bytes)[at..at + |bytes|] == bytes
    ensures Stored(buf, at, bytes)[..at] == buf[..at]
    ensures Stored(buf, at, bytes)[at + |bytes|..] == buf[at + |bytes|..]
  {
    StoredAt(buf, at, bytes);
  }

  /** Past a two-byte length and a two-byte header pair lies the body. */
  lemma PastHeader(len: seq<byte>, pair: seq<byte>, body: seq<byte>, rest: seq<byte>)
    requires |len| == 2 && |pair| == 2
    ensures (len + ((pair + body) + rest))[4..] == body + rest
  {
    assert len + ((pair + body) + rest) == (len + pair) + (body + rest);
  }

  /** Writing a tail first and then the head in front of it stores the whole. */
  lemma StoredFront(buf: seq<byte>, at: nat, a: seq<byte>, b: seq<byte>)
    ensures Stored(Stored(buf, at + |a|, b), at, a) == Stored(buf, at, a + b)
  {
    var x := Stored(Stored(buf, at + |a|, b), at, a);
    StoredAt(Stored(buf, at + |a|, b), at, a);
    StoredAt(buf, at + |a|, b);
    StoredAt(buf, at, a + b);
    assert forall i :: 0 <= i < |buf| ==> x[i] == Stored(buf, at, a + b)[i];
  }

  /**
   * The state of an encoding in progress: the destination buffer and the
   * outcome so far. A failure keeps the bytes already written, as the
   * .NET array does when an exception leaves SetBytes half way.
   */
  datatype Step<T> = Step(buf: seq<byte>, result: Result<T>)
  {
    predicate IsFailure() { result.Err? }
    function PropagateFailure<U>(): Step<U>
      requires result.Err?
    {
      Step(buf, Err(result.error))
    }
    function Extract(): Done<T>
      requires result.Ok?
    {
      Done(buf, result.value)
    }
  }

  datatype Done<T> = Done(buf: seq<byte>, value: T)

  /** Whether storing `bytes` at `at` stays inside a buffer of `size` bytes. */
  predicate Fits(size: nat, at: nat, bytes: seq<byte>)
  {
    |bytes| == 0 || at + |bytes| <= size
  }

  /**
   * Store `bytes` at `at` and report `v` on success; a store past the end
   * raises IndexOutOfRange after the in-range part has been written.
   * Storing nothing never fails.
   */
  function Put<T>(buf: seq<byte>, at: nat, bytes: seq<byte>, v: T): (s: Step<T>)
    ensures s.buf == Stored(buf, at, bytes)
    ensures s.result == if Fits(|buf|, at, bytes) then Ok(v) else Err(IndexOutOfRange)
  {
    Step(Stored(buf, at, bytes), if Fits(|buf|, at, bytes) then Ok(v) else Err(IndexOutOfRange))
  }

  /** Once the store has run past the end, the bytes it has not reached change nothing. */
  lemma StoredPastEnd(buf: seq<byte>, at: nat, bytes: seq<byte>, k: nat)
    requires k <= |bytes| && at + k >= |buf|
    ensures Stored(buf, at, bytes[..k]) == Stored(buf, at, bytes)
  {
    StoredAt(buf, at, bytes[..k]);
    StoredAt(buf, at, bytes);
  }

  /** Storing one more byte of a prefix extends the stored prefix by one. */
  lemma StoredNext(buf: seq<byte>, at: nat, bytes: seq<byte>, k: nat)
    requires k < |bytes| && at + k < |buf|
    ensures Stored(buf, at, bytes[..k])[at + k := bytes[k]] == Stored(buf, at, bytes[..k + 1])
  {
    StoredAt(buf, at, bytes[..k]);
    StoredAt(buf, at, bytes[..k + 1]);
  }

  /** A failure that writes nothing. */
  function Throw<T>(buf: seq<byte>, e: Error): (s: Step<T>)
    ensures s.buf == buf && s.result == Err(e)
  {
    Step(buf, Err(e))
  }

  /** A success that writes nothing. */
  function Yield<T>(buf: seq<byte>, v: T): (s: Step<T>)
    ensures s.buf == buf && s.result == Ok(v)
  {
    Step(buf, Ok(v))
  }

  /** The bytes of `buf` from `at` for `n` positions, when they exist. */
  function Window(buf: seq<byte>, at: nat, n: nat): (w: seq<byte>)
    requires at + n <= |buf|
    ensures |w| == n
  {
    buf[at..at + n]
  }
}
