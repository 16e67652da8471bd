/**
 * The debug hex dump the parser prints in verbose mode: rows of
 * BytesPerLine bytes as two-digit uppercase hex, each row optionally led
 * by its offset in eight hex digits and followed by its bytes as ASCII
 * with bytes below 32 shown as '.'; and the same bytes as a C#
 * initializer list, eight to a line.
 *
 * Each method keeps the loop of HexDump.cs and is proved against a
 * reference definition built the other way round: the dump row by row,
 * the initializer list line by line.
 */
module Debug {
  import opened Primitives

  // ------------------------------------------------ hex digits

  /** The uppercase hex digit for 0 to 15. */
  function Digit(n: nat): (c: char)
    requires n < 16
  {
    if n < 10 then ('0' as int + n) as char else ('A' as int + n - 10) as char
  }

  /** The value of an uppercase hex digit. */
  function DigitValue(c: char): nat
  {
    if '0' <= c <= '9' then c as nat - '0' as nat
    else if 'A' <= c <= 'F' then c as nat - 'A' as nat + 10
    else 0
  }

  predicate IsHexDigit(c: char)
  {
    '0' <= c <= '9' || 'A' <= c <= 'F'
  }

  lemma DigitReads(n: nat)
    requires n < 16
    ensures IsHexDigit(Digit(n)) && DigitValue(Digit(n)) == n
  {
  }

  /** The value of a string of hex digits, most significant first. */
  function HexValue(t: string): nat
  {
    if |t| == 0 then 0 else HexValue(t[..|t| - 1]) * 16 + DigitValue(t[|t| - 1])
  }

  /** `{b:X2}`: a byte as two uppercase hex digits. */
  function HexByte(b: byte): (r: string)
    ensures |r| == 2
  {
    DigitReads(b / 16);
    DigitReads(b % 16);
    [Digit(b / 16), Digit(b % 16)]
  }

  /** The two digits read back as the byte. */
  lemma HexByteReads(b: byte)
    ensures HexValue(HexByte(b)) == b
    ensures IsHexDigit(HexByte(b)[0]) && IsHexDigit(HexByte(b)[1])
  {
    var r := HexByte(b);
    DigitReads(b / 16);
    DigitReads(b % 16);
    assert r[..1][..0] == [];
    assert r[..1] == [Digit(b / 16)];
    assert HexValue(r[..1]) == b / 16;
    assert HexValue(r) == HexValue(r[..1]) * 16 + b % 16;
  }

  /** The digits of `v` with no leading zero (one digit for 0). */
  function Numeral(v: nat): (r: string)
    ensures |r| > 0
    decreases v
  {
    if v < 16 then [Digit(v)] else Numeral(v / 16) + [Digit(v % 16)]
  }

  function Zeros(k: nat): (r: string)
    ensures |r| == k
  {
    seq(k, _ => '0')
  }

  /** FormatOffset, `{offset:X8}`: uppercase hex, padded with zeros to at least eight digits. */
  function FormatOffset(offset: nat): (r: string)
    ensures |r| >= 8
  {
    var digits := Numeral(offset);
    if |digits| >= 8 then digits else Zeros(8 - |digits|) + digits
  }

  lemma {:induction false} NumeralReads(v: nat)
    ensures HexValue(Numeral(v)) == v
    ensures forall i :: 0 <= i < |Numeral(v)| ==> IsHexDigit(Numeral(v)[i])
    decreases v
  {
    DigitReads(v % 16);
    if v < 16 {
      assert Numeral(v)[..0] == [];
    } else {
      NumeralReads(v / 16);
      assert Numeral(v)[..|Numeral(v)| - 1] == Numeral(v / 16);
    }
  }

  lemma {:induction false} NumeralFits(v: nat, k: nat)
    requires 0 < k && v < Power16(k)
    ensures |Numeral(v)| <= k
    decreases k
  {
    if v >= 16 {
      NumeralFits(v / 16, k - 1);
    }
  }

  function Power16(k: nat): nat
  {
    if k == 0 then 1 else 16 * Power16(k - 1)
  }

  lemma {:induction false} LeadingZeros(k: nat, t: string)
    ensures HexValue(Zeros(k) + t) == HexValue(t)
    decreases |t|
  {
    if |t| == 0 {
      ZerosValue(k);
      assert Zeros(k) + t == Zeros(k);
    } else {
      LeadingZeros(k, t[..|t| - 1]);
      assert (Zeros(k) + t)[..|Zeros(k) + t| - 1] == Zeros(k) + t[..|t| - 1];
    }
  }

  lemma {:induction false} ZerosValue(k: nat)
    ensures HexValue(Zeros(k)) == 0
  {
    if k > 0 {
      ZerosValue(k - 1);
      assert Zeros(k)[..k - 1] == Zeros(k - 1);
    }
  }

  /** The offset column reads back as the offset, and an offset below 2^32 takes exactly eight digits. */
  lemma FormatOffsetReads(offset: nat)
    ensures HexValue(FormatOffset(offset)) == offset
    ensures forall i :: 0 <= i < |FormatOffset(offset)| ==> IsHexDigit(FormatOffset(offset)[i])
    ensures offset < 0x1_0000_0000 ==> |FormatOffset(offset)| == 8
  {
    var digits := Numeral(offset);
    NumeralReads(offset);
    if |digits| < 8 {
      LeadingZeros(8 - |digits|, digits);
    }
    if offset < 0x1_0000_0000 {
      EightDigits();
      NumeralFits(offset, 8);
    }
  }

  lemma EightDigits()
    ensures Power16(8) == 0x1_0000_0000
  {
    assert Power16(4) == 0x1_0000;
    assert Power16(8) == Power16(4) * Power16(4) by {
      PowerAdds(4, 4);
    }
  }

  lemma {:induction false} PowerAdds(j: nat, k: nat)
    ensures Power16(j + k) == Power16(j) * Power16(k)
    decreases j
  {
    if j > 0 {
      PowerAdds(j - 1, k);
    }
  }

  // ------------------------------------------------ the hex column

  /** Each byte as `{b:X2} `: two digits and a space. */
  function Hexes(s: seq<byte>): (r: string)
    ensures |r| == 3 * |s|
  {
    if |s| == 0 then [] else Hexes(s[..|s| - 1]) + (HexByte(s[|s| - 1]) + " ")
  }

  /** Reads a hex column back: every three characters, the byte their first two digits give. */
  function ReadHexes(t: string): (bs: seq<int>)
  {
    if |t| < 3 then [] else ReadHexes(t[..|t| - 3]) + [HexValue(t[|t| - 3..|t| - 1])]
  }

  /** The hex column of a row reads back as the row. */
  lemma {:induction false} HexesRead(s: seq<byte>)
    ensures ReadHexes(Hexes(s)) == s
  {
    if |s| > 0 {
      var front, last := s[..|s| - 1], s[|s| - 1];
      HexesRead(front);
      assert s == front + [last];
      ReadsOneMore(front, last);
    }
  }

  lemma ReadsOneMore(front: seq<byte>, last: byte)
    requires ReadHexes(Hexes(front)) == front
    ensures ReadHexes(Hexes(front + [last])) == front + [last]
  {
    var e := HexByte(last) + " ";
    HexEntry(front, last);
    HexByteReads(last);
    assert e[..2] == HexByte(last);
    ReadOneMore(Hexes(front), e);
  }

  lemma HexEntry(front: seq<byte>, last: byte)
    ensures Hexes(front + [last]) == Hexes(front) + (HexByte(last) + " ")
  {
    assert (front + [last])[..|front|] == front;
  }

  lemma ReadOneMore(u: string, entry: string)
    requires |entry| == 3
    ensures ReadHexes(u + entry) == ReadHexes(u) + [HexValue(entry[..2])]
  {
    var t := u + entry;
    assert t[..|t| - 3] == u;
    assert t[|t| - 3..|t| - 1] == entry[..2];
  }

  lemma HexesSnoc(s: seq<byte>, a: nat, i: nat)
    requires a <= i < |s|
    ensures Hexes(s[a..i + 1]) == Hexes(s[a..i]) + (HexByte(s[i]) + " ")
  {
    assert s[a..i + 1][..i - a] == s[a..i];
  }

  // ------------------------------------------------ the ASCII column

  /**
   * How a byte shows in the ASCII column: a byte below 32 as
   * '.', a 7-bit byte as itself and any other byte as '?', which is what
   * the ASCII encoding decodes a byte above 127 to.
   */
  function Shown(b: byte): char
  {
    if b < 32 then '.' else if b < 128 then b as char else '?'
  }

  /** ToFilteredAscii's result for the bytes of a row. */
  function Filtered(s: seq<byte>): (r: string)
    ensures |r| == |s|
  {
    seq(|s|, i requires 0 <= i < |s| => Shown(s[i]))
  }

  /** Every character of the ASCII column is 7-bit, in 32..127: no byte below 32 is printed as itself (DEL, 127, is). */
  lemma FilteredPrintable(s: seq<byte>)
    ensures forall i :: 0 <= i < |s| ==> 32 <= Filtered(s)[i] as int < 128
  {
  }

  /** The characters of the ASCII column as bytes. */
  function Codes(t: string): (bs: seq<byte>)
    requires forall i :: 0 <= i < |t| ==> t[i] as int < 0x100
    ensures |bs| == |t|
  {
    seq(|t|, i requires 0 <= i < |t| => t[i] as int)
  }

  /** Filtering is idempotent: the ASCII column, filtered again, is unchanged. */
  lemma FilteredIdempotent(s: seq<byte>)
    ensures Filtered(Codes(Filtered(s))) == Filtered(s)
  {
    FilteredPrintable(s);
  }

  /** The in-place step: a byte below 32 becomes 0x2E, '.'. */
  function Dotted(b: byte): byte
  {
    if b < 32 then 0x2E else b
  }

  // ------------------------------------------------ the dump

  /** The settable properties the dump depends on. */
  datatype Layout = Layout(bytesPerLine: int, showAscii: bool, showOffset: bool)

  /** The bytes in one row: `index % BytesPerLine` depends on the size of BytesPerLine only. */
  function Width(layout: Layout): nat
  {
    if layout.bytesPerLine < 0 then -layout.bytesPerLine else layout.bytesPerLine
  }

  /**
   * What is printed where the row at `start` begins: after the first row
   * (any later row starts at least a row on), the ASCII column of the row
   * before (when ShowAscii) and a line break;
   * then the offset and two spaces (when ShowOffset).
   */
  function Head(s: seq<byte>, layout: Layout, newLine: string, start: nat): string
    requires 0 < Width(layout) && start <= |s|
  {
    var w := Width(layout);
    (if start >= w then (if layout.showAscii then "  " + Filtered(s[start - w..start]) else "") + newLine else "")
    + (if layout.showOffset then FormatOffset(start) + "  " else "")
  }

  /** The full rows before `start`: each its head and its hex column. */
  function RowsTo(s: seq<byte>, layout: Layout, newLine: string, start: nat): string
    requires 0 < Width(layout) && start <= |s|
    decreases start
  {
    var w := Width(layout);
    if start < w then "" else RowsTo(s, layout, newLine, start - w) + Head(s, layout, newLine, start - w) + Hexes(s[start - w..start])
  }

  function Repeat(t: string, n: nat): string
  {
    if n == 0 then "" else Repeat(t, n - 1) + t
  }

  /** Where the last row starts: the last byte's offset rounded down to a multiple of the width. */
  function LastStart(size: nat, w: nat): (start: nat)
    requires 0 < w
  {
    if size == 0 then 0 else size - 1 - (size - 1) % w
  }

  /**
   * HexDump.ToString for a non-null array: the rows, the last one
   * possibly short, then, when ShowAscii and `BytesPerLine - len %
   * BytesPerLine` is positive, that many ".. " placeholders and the last
   * row's ASCII column, then a line break. A BytesPerLine of zero throws
   * DivideByZeroException.
   */
  function Dump(s: seq<byte>, layout: Layout, newLine: string): Result<string>
  {
    if layout.bytesPerLine == 0 then Err(DivideByZero)
    else
      var start := LastStart(|s|, Width(layout));
      var padding := layout.bytesPerLine - |s| % layout.bytesPerLine;
      Ok((if |s| == 0 then "" else RowsTo(s, layout, newLine, start) + Head(s, layout, newLine, start) + Hexes(s[start..]))
         + (if layout.showAscii && padding > 0 then Repeat(".. ", padding) + "  " + Filtered(s[start..]) else "")
         + newLine)
  }

  // ------------------------------------------------ row arithmetic

  lemma ZeroMultiple(k: int, w: int)
    requires 0 < w && -w < k * w < w
    ensures k == 0
  {
  }

  /** The quotient and remainder of `a` by `w` are the only ones with the remainder below `w`. */
  lemma DivModUnique(a: int, w: int, q: int, r: int)
    requires 0 < w && 0 <= r < w && a == q * w + r
    ensures a / w == q && a % w == r
  {
    var q', r' := a / w, a % w;
    assert a == q' * w + r';
    assert (q - q') * w == r' - r;
    ZeroMultiple(q - q', w);
  }

  /** Within the row that starts at `start`, the loop's `index % BytesPerLine == 0` holds only one full row on. */
  lemma RowBreaks(start: nat, index: nat, w: nat)
    requires 0 < w && start % w == 0 && start < index <= start + w
    ensures index % w == 0 <==> index == start + w
  {
    var q := start / w;
    assert start == q * w;
    if index == start + w {
      DivModUnique(index, w, q + 1, 0);
    } else {
      DivModUnique(index, w, q, index - start);
    }
  }

  /** `index % BytesPerLine` depends on the size of BytesPerLine only. */
  lemma ModWidth(index: nat, bytesPerLine: int)
    requires bytesPerLine < 0
    ensures index % bytesPerLine == index % -bytesPerLine
  {
  }

  /** The row containing the last byte starts at LastStart. */
  lemma LastRow(size: nat, start: nat, w: nat)
    requires 0 < w && start % w == 0 && start < size <= start + w
    ensures LastStart(size, w) == start
  {
    var q := start / w;
    assert start == q * w;
    DivModUnique(size - 1, w, q, size - 1 - start);
  }

  /** LastStart is a row start, and the last row holds between one byte and a full row. */
  lemma LastStartFacts(size: nat, w: nat)
    requires 0 < w && 0 < size
    ensures LastStart(size, w) % w == 0 && LastStart(size, w) < size <= LastStart(size, w) + w
  {
    var q := (size - 1) / w;
    assert size - 1 == q * w + (size - 1) % w;
    DivModUnique(q * w, w, q, 0);
  }

  /** A dump of no bytes is a whole row of placeholders when ShowAscii, then the line break; no offset is shown. */
  lemma EmptyDump(layout: Layout, newLine: string)
    requires layout.bytesPerLine > 0
    ensures Dump([], layout, newLine)
      == Ok((if layout.showAscii then Repeat(".. ", layout.bytesPerLine) + "  " else "") + newLine)
  {
    var empty: seq<byte> := [];
    var w := layout.bytesPerLine;
    assert LastStart(0, w) == 0;
    assert 0 % w == 0;
    assert Filtered(empty[0..]) == "";
    assert Dump(empty, layout, newLine)
      == Ok("" + (if layout.showAscii then Repeat(".. ", w) + "  " + "" else "") + newLine);
    assert Repeat(".. ", w) + "  " + "" == Repeat(".. ", w) + "  ";
    assert "" + (if layout.showAscii then Repeat(".. ", w) + "  " else "") == (if layout.showAscii then Repeat(".. ", w) + "  " else "");
  }

  /**
   * When the bytes fill their last row, the placeholders still follow:
   * BytesPerLine - 0 of them, a whole row, before that row's ASCII column.
   */
  lemma FullLastRowPadded(s: seq<byte>, layout: Layout, newLine: string)
    requires layout.bytesPerLine > 0 && layout.showAscii && |s| > 0 && |s| % layout.bytesPerLine == 0
    ensures var w := layout.bytesPerLine;
      var start := |s| - w;
      Dump(s, layout, newLine)
        == Ok((RowsTo(s, layout, newLine, start) + Head(s, layout, newLine, start) + Hexes(s[start..]))
              + (Repeat(".. ", w) + "  " + Filtered(s[start..])) + newLine)
  {
    var w := layout.bytesPerLine;
    FullRowStart(|s|, w);
  }

  lemma FullRowStart(size: nat, w: nat)
    requires 0 < w < size + 1 && size % w == 0 && 0 < size
    ensures LastStart(size, w) == size - w
  {
    var q := size / w;
    assert size == q * w;
    DivModUnique(size - w, w, q - 1, 0);
    LastRow(size, size - w, w);
  }

  // ------------------------------------------------ the initializer list

  /** One entry of the initializer list: ` 0xXX`. */
  function Entry(b: byte): (r: string)
  {
    " 0x" + HexByte(b)
  }

  /** Entries separated by ", ". */
  function Items(t: seq<byte>): (r: string)
    requires |t| > 0
  {
    if |t| == 1 then Entry(t[0]) else Entry(t[0]) + ", " + Items(t[1..])
  }

  /**
   * ToHexByteString for a non-null array, line by line: each line of up
   * to eight entries starts with a line break, and the lines are joined
   * by ", ".
   */
  function Listing(s: seq<byte>): (r: string)
  {
    if |s| == 0 then ""
    else if |s| <= 8 then "\n" + Items(s)
    else "\n" + Items(s[..8]) + ", " + Listing(s[8..])
  }

  /** What comes before entry `i`: ", " after the first entry, and a line break before every eighth. */
  function Separator(i: nat): string
  {
    (if i > 0 then ", " else "") + (if i % 8 == 0 then "\n" else "")
  }

  lemma {:induction false} ItemsSnoc(t: seq<byte>, b: byte)
    requires |t| > 0
    ensures Items(t + [b]) == Items(t) + ", " + Entry(b)
    decreases |t|
  {
    if |t| == 1 {
      assert (t + [b])[1..] == [b];
    } else {
      ItemsSnoc(t[1..], b);
      assert (t + [b])[1..] == t[1..] + [b];
    }
  }

  /** Appending a byte appends its separator and its entry: the loop's step. */
  lemma {:induction false} ListingSnoc(s: seq<byte>, b: byte)
    ensures Listing(s + [b]) == Listing(s) + Separator(|s|) + Entry(b)
    decreases |s|
  {
    if |s| < 8 {
      SameLine(s, b);
    } else if |s| == 8 {
      NewLine(s, b);
    } else {
      ListingSnoc(s[8..], b);
      LaterLine(s, b);
    }
  }

  lemma SameLine(s: seq<byte>, b: byte)
    requires |s| < 8
    ensures Listing(s + [b]) == Listing(s) + Separator(|s|) + Entry(b)
  {
    if |s| == 0 {
      FirstEntry(s, b);
    } else {
      LineGrows(s, b);
    }
  }

  lemma LineGrows(s: seq<byte>, b: byte)
    requires 0 < |s| < 8
    ensures Listing(s + [b]) == Listing(s) + Separator(|s|) + Entry(b)
  {
    LongerLine(s, b);
    Regroup3("\n", Items(s), ", ", Entry(b));
    ShorterLine(s, b);
  }

  lemma LongerLine(s: seq<byte>, b: byte)
    requires 0 < |s| < 8
    ensures Listing(s + [b]) == "\n" + (Items(s) + ", " + Entry(b))
  {
    OneLine(s + [b]);
    ItemsSnoc(s, b);
  }

  lemma ShorterLine(s: seq<byte>, b: byte)
    requires 0 < |s| < 8
    ensures "\n" + Items(s) + ", " + Entry(b) == Listing(s) + Separator(|s|) + Entry(b)
  {
    OneLine(s);
    assert Separator(|s|) == ", ";
  }

  /** Up to eight bytes make one line. */
  lemma OneLine(s: seq<byte>)
    requires 0 < |s| <= 8
    ensures Listing(s) == "\n" + Items(s)
  {
  }

  lemma Regroup3(a: string, b: string, c: string, d: string)
    ensures a + (b + c + d) == a + b + c + d
  {
  }

  lemma FirstEntry(s: seq<byte>, b: byte)
    requires |s| == 0
    ensures Listing(s + [b]) == Listing(s) + Separator(|s|) + Entry(b)
  {
    assert s + [b] == [b];
    assert Listing([b]) == "\n" + Entry(b);
    assert Listing(s) + Separator(0) == "\n";
  }

  lemma NewLine(s: seq<byte>, b: byte)
    requires |s| == 8
    ensures Listing(s + [b]) == Listing(s) + Separator(|s|) + Entry(b)
  {
    var t := s + [b];
    assert t[..8] == s && t[8..] == [b];
    assert Listing(t) == "\n" + Items(s) + ", " + Listing([b]);
  }

  lemma LaterLine(s: seq<byte>, b: byte)
    requires |s| > 8
    requires Listing(s[8..] + [b]) == Listing(s[8..]) + Separator(|s| - 8) + Entry(b)
    ensures Listing(s + [b]) == Listing(s) + Separator(|s|) + Entry(b)
  {
    var t := s + [b];
    var first := "\n" + Items(s[..8]) + ", ";
    assert t[..8] == s[..8] && t[8..] == s[8..] + [b];
    assert Listing(t) == first + Listing(s[8..] + [b]);
    assert Listing(s) == first + Listing(s[8..]);
    assert Separator(|s| - 8) == Separator(|s|);
    Regroup3(first, Listing(s[8..]), Separator(|s|), Entry(b));
  }

  /** The list has one entry per byte: 5 characters each, ", " between entries and a line break per eight. */
  lemma {:induction false} ListingLength(s: seq<byte>)
    ensures |Listing(s)| == if |s| == 0 then 0 else 7 * |s| - 2 + (|s| + 7) / 8
    decreases |s|
  {
    if |s| > 0 {
      ItemsLength(if |s| <= 8 then s else s[..8]);
      if |s| > 8 {
        ListingLength(s[8..]);
      }
    }
  }

  lemma {:induction false} ItemsLength(t: seq<byte>)
    requires |t| > 0
    ensures |Items(t)| == 7 * |t| - 2
    decreases |t|
  {
    if |t| > 1 {
      ItemsLength(t[1..]);
    }
  }

  // ------------------------------------------------ the class

  /** HexDump: the bytes to show and the three layout properties. */
  class HexDump {
    const bytes: array?<byte>
    var bytesPerLine: int
    var showAscii: bool
    var showOffset: bool

    /** The layout properties start at 16 bytes per line, with the ASCII column and the offsets. */
    constructor (bytes: array?<byte>)
      ensures this.bytes == bytes
      ensures bytesPerLine == 16 && showAscii && showOffset
    {
      this.bytes := bytes;
      bytesPerLine := 16;
      showAscii := true;
      showOffset := true;
    }

    function Options(): Layout
      reads this
    {
      Layout(bytesPerLine, showAscii, showOffset)
    }

    /**
     * ToString: "<null>" for a null array, else the dump; `newLine` is
     * Environment.NewLine, which AppendLine writes.
     */
    method ToString(newLine: string) returns (r: Result<string>)
      ensures bytes == null ==> r == Ok("<null>")
      ensures bytes != null ==> r == Dump(bytes[..], Options(), newLine)
    {
      if bytes == null {
        return Ok("<null>");
      }
      if bytesPerLine == 0 {
        return Err(DivideByZero);
      }
      var sb, lastStart := HexRows(newLine);
      var padding := bytesPerLine - bytes.Length % bytesPerLine;
      var tail := "";
      if showAscii && padding > 0 {
        for i := 0 to padding
          invariant tail == Repeat(".. ", i)
        {
          tail := tail + ".. ";
        }
        var ascii := ToFilteredAscii(lastStart, bytes.Length - lastStart);
        assert bytes[lastStart..lastStart + (bytes.Length - lastStart)] == bytes[..][lastStart..];
        tail := tail + "  " + ascii;
      }
      ghost var layout := Options();
      assert tail == if layout.showAscii && padding > 0 then Repeat(".. ", padding) + "  " + Filtered(bytes[..][lastStart..]) else "";
      sb := sb + tail + newLine;
      return Ok(sb);
    }

    /** ToString's loop: the rows, and where the last one starts. */
    method HexRows(newLine: string) returns (sb: string, lastStart: int)
      requires bytes != null && bytesPerLine != 0
      ensures var s, layout := bytes[..], Options();
        && lastStart == LastStart(|s|, Width(layout))
        && sb == if |s| == 0 then "" else RowsTo(s, layout, newLine, lastStart) + Head(s, layout, newLine, lastStart) + Hexes(s[lastStart..])
    {
      ghost var s, layout := bytes[..], Options();
      ghost var w := Width(layout);
      ghost var done, hexes := "", "";
      sb := "";
      lastStart := 0;
      var index := 0;
      while index < bytes.Length
        invariant 0 <= index <= bytes.Length
        invariant index == 0 ==> sb == "" && lastStart == 0
        invariant 0 < index ==> lastStart % w == 0 && lastStart < index <= lastStart + w
        invariant 0 < index ==> done == RowsTo(s, layout, newLine, lastStart) + Head(s, layout, newLine, lastStart)
        invariant 0 < index ==> hexes == Hexes(s[lastStart..index]) && sb == done + hexes
      {
        if bytesPerLine < 0 {
          ModWidth(index, bytesPerLine);
        }
        if 0 < index {
          RowBreaks(lastStart, index, w);
        }
        if index % bytesPerLine == 0 {
          var head := RowHead(newLine, lastStart, index);
          if index > 0 {
            NextRow(s, layout, newLine, lastStart);
          } else {
            assert RowsTo(s, layout, newLine, 0) == "";
          }
          sb := sb + head;
          lastStart := index;
          done, hexes := sb, "";
          assert sb == done + hexes;
        }
        HexesSnoc(s, lastStart, index);
        Assoc(done, hexes, HexByte(bytes[index]) + " ");
        sb := sb + (HexByte(bytes[index]) + " ");
        hexes := hexes + (HexByte(bytes[index]) + " ");
        index := index + 1;
      }
      if 0 < index {
        LastRow(index, lastStart, w);
        assert s[lastStart..index] == s[lastStart..];
      }
    }

    /** What ToString appends where a row starts: the last row's ASCII column and a line break, then the offset. */
    method RowHead(newLine: string, lastStart: int, index: int) returns (head: string)
      requires bytes != null && bytesPerLine != 0 && 0 <= index < bytes.Length
      requires index == 0 || (Width(Options()) <= index && lastStart == index - Width(Options()))
      ensures head == Head(bytes[..], Options(), newLine, index)
    {
      head := "";
      if index > 0 {
        if showAscii {
          var ascii := ToFilteredAscii(lastStart, index - lastStart);
          head := "  " + ascii;
        }
        head := head + newLine;
      }
      if showOffset {
        head := head + (FormatOffset(index) + "  ");
      }
    }

    /** ToHexByteString: "0x00" for a null array, else the initializer list of the bytes. */
    method ToHexByteString() returns (r: string)
      ensures bytes == null ==> r == "0x00"
      ensures bytes != null ==> r == Listing(bytes[..])
    {
      if bytes == null {
        return "0x00";
      }
      var sb := "";
      for index := 0 to bytes.Length
        invariant sb == Listing(bytes[..index])
      {
        if index > 0 {
          sb := sb + ", ";
        }
        if index % 8 == 0 {
          sb := sb + "\n";
        }
        ListingSnoc(bytes[..index], bytes[index]);
        assert bytes[..index + 1] == bytes[..index] + [bytes[index]];
        sb := sb + " 0x" + HexByte(bytes[index]);
      }
      assert bytes[..bytes.Length] == bytes[..];
      return sb;
    }

    /** ToFilteredAscii: a copy of the bytes in range with bytes below 32 set to '.', decoded as ASCII. */
    method ToFilteredAscii(start: int, len: int) returns (r: string)
      requires bytes != null && 0 <= start && 0 <= len && start + len <= bytes.Length
      ensures r == Filtered(bytes[start..start + len])
    {
      var slice := bytes[start..start + len];
      var span := new byte[len](i requires 0 <= i < |slice| => slice[i]);
      for i := 0 to len
        invariant forall j :: 0 <= j < i ==> span[j] == Dotted(slice[j])
        invariant forall j :: i <= j < len ==> span[j] == slice[j]
      {
        if span[i] < 32 {
          span[i] := 0x2E;
        }
      }
      r := AsciiDecode(span[..]);
      assert forall j :: 0 <= j < len ==> r[j] == Shown(slice[j]);
    }
  }

  /** Where a row breaks, the rows so far, the full row and the next head are the rows up to the next head. */
  lemma NextRow(s: seq<byte>, layout: Layout, newLine: string, start: nat)
    requires 0 < Width(layout) && start + Width(layout) < |s|
    ensures var next := start + Width(layout);
      RowsTo(s, layout, newLine, next) + Head(s, layout, newLine, next)
        == RowsTo(s, layout, newLine, start) + Head(s, layout, newLine, start) + Hexes(s[start..next]) + Head(s, layout, newLine, next)
  {
  }

  lemma Assoc(a: string, b: string, c: string)
    ensures a + b + c == a + (b + c)
  {
  }
}
