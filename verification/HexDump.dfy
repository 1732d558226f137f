/**
 hex_dump: a reusable line buffer, flushed every sixteen bytes, and a parser that reads the
 dump back.
 */
module HexDump {
  import opened Common

  // The offset of the ASCII columns in the buffer.
  const ASCII := 58

  const LINE := 74

  // ---------- what sprintf produces ----------

  function DigitChar(d: nat): (c: char)
    requires d < 16
    ensures c != ' ' && c != '-' && c as int != 0
  {
    "0123456789abcdef"[d]
  }

  function DigitValue(c: char): nat {
    if '0' <= c <= '9' then c as int - '0' as int
    else if 'a' <= c <= 'f' then c as int - 'a' as int + 10
    else 0
  }

  lemma DigitRoundTrip(d: nat)
    requires d < 16
    ensures DigitValue(DigitChar(d)) == d
  {
  }

  function Pow10(k: nat): nat {
    if k == 0 then 1 else 10 * Pow10(k - 1)
  }

  // The last k decimal digits of n.
  function Digits(n: nat, k: nat): (s: string)
    ensures |s| == k
    ensures forall i :: 0 <= i < k ==> s[i] != '-' && s[i] as int != 0
  {
    if k == 0 then [] else Digits(n / 10, k - 1) + [DigitChar(n % 10)]
  }

  function Value(s: string): nat {
    if s == [] then 0 else 10 * Value(s[..|s| - 1]) + DigitValue(s[|s| - 1])
  }

  lemma {:induction false} DigitsRoundTrip(n: nat, k: nat)
    requires n < Pow10(k)
    ensures Value(Digits(n, k)) == n
  {
    if k > 0 {
      DigitsRoundTrip(n / 10, k - 1);
      DigitRoundTrip(n % 10);
      var s := Digits(n, k);
      assert s[..k - 1] == Digits(n / 10, k - 1);
    }
  }

  // A line label fits: "%06d" gives six characters.
  predicate LabelFits(n: int) {
    -99999 <= n <= 999999
  }

  // sprintf(temp, "+%06d", n)
  function Label(n: int): (s: string)
    requires LabelFits(n)
    ensures |s| == 7 && forall i :: 0 <= i < 7 ==> s[i] as int != 0
  {
    "+" + if n >= 0 then Digits(n, 6) else "-" + Digits(-n, 5)
  }

  function LabelValue(s: string): int
    requires |s| >= 7
  {
    if s[1] == '-' then -(Value(s[2..7]) as int) else Value(s[1..7])
  }

  lemma TenToTheSixth()
    ensures Pow10(5) == 100000 && Pow10(6) == 1000000
  {
    assert Pow10(1) == 10 && Pow10(2) == 100 && Pow10(3) == 1000 && Pow10(4) == 10000;
  }

  lemma LabelRoundTrip(n: int, rest: string)
    requires LabelFits(n)
    ensures LabelValue(Label(n) + rest) == n
  {
    var s := Label(n) + rest;
    TenToTheSixth();
    hide Pow10, Digits, Value;
    if n >= 0 {
      DigitsRoundTrip(n, 6);
      assert s[1..7] == Digits(n, 6) && s[1] == Digits(n, 6)[0];
    } else {
      DigitsRoundTrip(-n, 5);
      assert s[2..7] == Digits(-n, 5);
    }
  }

  // sprintf(temp, "%02x", b)
  function Hex(b: Byte): (s: string)
    ensures |s| == 2
  {
    [DigitChar(b / 16), DigitChar(b % 16)]
  }

  function Ascii(b: Byte): (c: char)
    ensures c as int != 0
  {
    if 31 < b < 127 then b as char else '.'
  }

  // ---------- one line ----------

  // The k-th character of the line with this label and these bytes.
  function LineChar(tag: string, bytes: seq<Byte>, k: nat): (c: char)
    requires |tag| == 7 && |bytes| <= 16 && k <= LINE
    requires forall i :: 0 <= i < 7 ==> tag[i] as int != 0
    ensures c as int != 0
  {
    if k < 7 then tag[k]
    else if 8 <= k < 56 && (k - 8) / 3 < |bytes| && (k - 8) % 3 < 2 then Hex(bytes[(k - 8) / 3])[(k - 8) % 3]
    else if ASCII <= k < LINE && k - ASCII < |bytes| then Ascii(bytes[k - ASCII])
    else if k == LINE then '\n'
    else ' '
  }

  function Line(tag: string, bytes: seq<Byte>): (s: string)
    requires |tag| == 7 && |bytes| <= 16
    requires forall i :: 0 <= i < 7 ==> tag[i] as int != 0
    ensures |s| == LINE + 1 && forall k :: 0 <= k <= LINE ==> s[k] == LineChar(tag, bytes, k)
  {
    seq(LINE + 1, k requires 0 <= k <= LINE => LineChar(tag, bytes, k))
  }

  function ParseByte(line: string, j: nat): Byte
    requires j < 16 && |line| == LINE + 1
  {
    var v := DigitValue(line[8 + 3 * j]) * 16 + DigitValue(line[9 + 3 * j]);
    if v < 256 then v else 0
  }

  // The bytes in the hex columns of a line, from column j on, up to the first blank column.
  function ParseFrom(line: string, j: nat): seq<Byte>
    requires j <= 16 && |line| == LINE + 1
    decreases 16 - j
  {
    if j == 16 || line[8 + 3 * j] == ' ' then [] else [ParseByte(line, j)] + ParseFrom(line, j + 1)
  }

  lemma HexColumns(tag: string, bytes: seq<Byte>, j: nat)
    requires |tag| == 7 && |bytes| <= 16 && j < 16
    requires forall i :: 0 <= i < 7 ==> tag[i] as int != 0
    ensures var line := Line(tag, bytes);
            if j < |bytes| then line[8 + 3 * j] == Hex(bytes[j])[0] && line[9 + 3 * j] == Hex(bytes[j])[1]
            else line[8 + 3 * j] == ' '
  {
    var k := 8 + 3 * j;
    assert (k - 8) / 3 == j && (k - 8) % 3 == 0 && (k + 1 - 8) / 3 == j && (k + 1 - 8) % 3 == 1;
    assert Line(tag, bytes)[k] == LineChar(tag, bytes, k) && Line(tag, bytes)[k + 1] == LineChar(tag, bytes, k + 1);
  }

  lemma HexRoundTrip(b: Byte)
    ensures Hex(b)[0] != ' ' && DigitValue(Hex(b)[0]) * 16 + DigitValue(Hex(b)[1]) == b
  {
    DigitRoundTrip(b / 16);
    DigitRoundTrip(b % 16);
  }

  lemma ParseByteIs(tag: string, bytes: seq<Byte>, j: nat)
    requires |tag| == 7 && j < |bytes| <= 16
    requires forall i :: 0 <= i < 7 ==> tag[i] as int != 0
    ensures Line(tag, bytes)[8 + 3 * j] != ' ' && ParseByte(Line(tag, bytes), j) == bytes[j]
  {
    HexColumns(tag, bytes, j);
    HexRoundTrip(bytes[j]);
    hide Line, LineChar, Hex, DigitValue;
  }

  lemma {:induction false} ParseLine(tag: string, bytes: seq<Byte>, j: nat)
    requires |tag| == 7 && j <= |bytes| <= 16
    requires forall i :: 0 <= i < 7 ==> tag[i] as int != 0
    ensures ParseFrom(Line(tag, bytes), j) == bytes[j..]
    decreases 16 - j
  {
    hide Line, LineChar, ParseByte;
    if j < |bytes| {
      ParseByteIs(tag, bytes, j);
      ParseLine(tag, bytes, j + 1);
      assert bytes[j..] == [bytes[j]] + bytes[j + 1..];
    } else if j < 16 {
      HexColumns(tag, bytes, j);
    }
  }

  // ---------- the whole dump ----------

  function LineCount(size: nat): nat {
    (size + 15) / 16
  }

  predicate LabelsFit(offset: int, size: nat) {
    LabelFits(offset) && (size > 0 ==> LabelFits(offset + 16 * (LineCount(size) - 1)))
  }

  // The bytes of the k-th line.
  function Chunk(data: seq<Byte>, k: nat): (bytes: seq<Byte>)
    requires k < LineCount(|data|)
    ensures 0 < |bytes| <= 16
  {
    if 16 * k + 16 <= |data| then data[16 * k..16 * k + 16] else data[16 * k..]
  }

  // The k-th line of the dump.
  function DumpLine(data: seq<Byte>, offset: int, k: nat): string
    requires LabelsFit(offset, |data|) && k < LineCount(|data|)
  {
    Line(Label(offset + 16 * k), Chunk(data, k))
  }

  // The characters that printf("%s", ...) prints of a buffer.
  function CString(s: string): (r: string)
    ensures r <= s && (|r| < |s| ==> s[|r|] as int == 0) && forall i :: 0 <= i < |r| ==> r[i] as int != 0
  {
    if s == [] || s[0] as int == 0 then []
    else
      var r := CString(s[1..]);
      assert s == [s[0]] + s[1..];
      [s[0]] + r
  }

  lemma CStringIs(s: string, n: nat)
    requires n < |s| && s[n] as int == 0 && forall i :: 0 <= i < n ==> s[i] as int != 0
    ensures CString(s) == s[..n]
  {
    var r := CString(s);
    assert |r| == n;
  }

  // ---------- what a printed line shows ----------

  predicate IsDecimal(s: string) {
    forall i :: 0 <= i < |s| ==> '0' <= s[i] <= '9'
  }

  predicate IsHexDigit(c: char) {
    '0' <= c <= '9' || 'a' <= c <= 'f'
  }

  // Six characters that show n in decimal, with leading zeros and a minus sign if need be.
  predicate ShowsLabel(s: string, n: int) {
    && |s| == 6
    && if n >= 0 then IsDecimal(s) && Value(s) == n
       else s[0] == '-' && IsDecimal(s[1..]) && Value(s[1..]) == -n
  }

  // Two characters that show a byte in lower-case hexadecimal.
  predicate ShowsHex(c: char, d: char, b: Byte) {
    IsHexDigit(c) && IsHexDigit(d) && DigitValue(c) * 16 + DigitValue(d) == b
  }

  // The columns of the j-th byte of a line: in hexadecimal, followed by a blank, and as a
  // character, where a dot stands for what cannot be printed; all blank behind the last byte.
  predicate ShowsColumn(line: string, bytes: seq<Byte>, j: nat)
    requires |line| == 75 && j < 16
  {
    && line[10 + 3 * j] == ' '
    && if j < |bytes|
       then && ShowsHex(line[8 + 3 * j], line[9 + 3 * j], bytes[j])
            && line[58 + j] == if 32 <= bytes[j] <= 126 then bytes[j] as char else '.'
       else line[8 + 3 * j] == ' ' && line[9 + 3 * j] == ' ' && line[58 + j] == ' '
  }

  // A line with this label behind a plus sign, these bytes, and blanks in between.
  predicate Shows(line: string, offset: int, bytes: seq<Byte>) {
    && |bytes| <= 16 && |line| == 75 && line[0] == '+' && line[74] == '\n' && ShowsLabel(line[1..7], offset)
    && line[7] == ' ' && line[56] == ' ' && line[57] == ' '
    && forall j :: 0 <= j < 16 ==> ShowsColumn(line, bytes, j)
  }

  lemma {:induction false} DigitsDecimal(n: nat, k: nat)
    ensures IsDecimal(Digits(n, k))
  {
    if k > 0 {
      DigitsDecimal(n / 10, k - 1);
    }
  }

  lemma LabelShows(n: int)
    requires LabelFits(n)
    ensures Label(n)[0] == '+' && ShowsLabel(Label(n)[1..7], n)
  {
    TenToTheSixth();
    hide Pow10, Value;
    if n >= 0 {
      DigitsRoundTrip(n, 6);
      DigitsDecimal(n, 6);
      hide Digits;
      assert Label(n)[1..7] == Digits(n, 6);
    } else {
      DigitsRoundTrip(-n, 5);
      DigitsDecimal(-n, 5);
      hide Digits;
      assert Label(n)[1..7][1..] == Digits(-n, 5);
    }
  }

  lemma HexShows(b: Byte)
    ensures ShowsHex(Hex(b)[0], Hex(b)[1], b)
  {
    HexRoundTrip(b);
  }

  lemma LineColumn(tag: string, bytes: seq<Byte>, k: nat)
    requires |tag| == 7 && |bytes| <= 16 && k <= LINE
    requires forall i :: 0 <= i < 7 ==> tag[i] as int != 0
    ensures Line(tag, bytes)[k] == LineChar(tag, bytes, k)
  {
  }

  // The columns between the hexadecimal bytes, and those of the missing bytes, are blank.
  lemma BlankColumns(tag: string, bytes: seq<Byte>, j: nat)
    requires |tag| == 7 && |bytes| <= 16 && j < 16
    requires forall i :: 0 <= i < 7 ==> tag[i] as int != 0
    ensures LineChar(tag, bytes, 10 + 3 * j) == ' '
    ensures j >= |bytes| ==> LineChar(tag, bytes, 8 + 3 * j) == ' ' == LineChar(tag, bytes, 9 + 3 * j)
  {
    assert (10 + 3 * j - 8) % 3 == 2 && (8 + 3 * j - 8) / 3 == j && (9 + 3 * j - 8) / 3 == j;
  }

  lemma AsciiColumns(tag: string, bytes: seq<Byte>, j: nat)
    requires |tag| == 7 && |bytes| <= 16 && j < 16
    requires forall i :: 0 <= i < 7 ==> tag[i] as int != 0
    ensures LineChar(tag, bytes, 58 + j) ==
              if j >= |bytes| then ' ' else if 32 <= bytes[j] <= 126 then bytes[j] as char else '.'
  {
  }

  lemma LineShows(n: int, bytes: seq<Byte>)
    requires LabelFits(n) && |bytes| <= 16
    ensures Shows(Line(Label(n), bytes), n, bytes)
  {
    var tag := Label(n);
    var line := Line(tag, bytes);
    LabelShows(n);
    LineEdges(tag, bytes);
    hide Label, ShowsLabel, ShowsHex, Hex, Line, LineChar;
    assert line[1..7] == tag[1..7];
    forall j | 0 <= j < 16 ensures ShowsColumn(line, bytes, j) {
      ColumnsShow(tag, bytes, j);
    }
  }

  lemma LineEdges(tag: string, bytes: seq<Byte>)
    requires |tag| == 7 && |bytes| <= 16
    requires forall i :: 0 <= i < 7 ==> tag[i] as int != 0
    ensures var line := Line(tag, bytes);
            && |line| == 75 && (forall i :: 0 <= i < 7 ==> line[i] == tag[i])
            && line[7] == ' ' && line[56] == ' ' && line[57] == ' ' && line[74] == '\n'
  {
    hide Hex, Ascii;
    forall i | 0 <= i < 7 ensures Line(tag, bytes)[i] == tag[i] {
      LineColumn(tag, bytes, i);
    }
    LineColumn(tag, bytes, 7);
    LineColumn(tag, bytes, 56);
    LineColumn(tag, bytes, 57);
    LineColumn(tag, bytes, 74);
  }

  lemma ColumnsShow(tag: string, bytes: seq<Byte>, j: nat)
    requires |tag| == 7 && |bytes| <= 16 && j < 16
    requires forall i :: 0 <= i < 7 ==> tag[i] as int != 0
    ensures ShowsColumn(Line(tag, bytes), bytes, j)
  {
    LineColumn(tag, bytes, 10 + 3 * j);
    LineColumn(tag, bytes, 8 + 3 * j);
    LineColumn(tag, bytes, 9 + 3 * j);
    LineColumn(tag, bytes, 58 + j);
    BlankColumns(tag, bytes, j);
    AsciiColumns(tag, bytes, j);
    if j < |bytes| {
      HexColumns(tag, bytes, j);
      HexShows(bytes[j]);
    }
    hide Line, LineChar, ShowsHex, Hex;
  }

  // The buffer holds a line, followed by a NUL.
  ghost predicate Holds(buffer: array<char>, tag: string, bytes: seq<Byte>)
    reads buffer
  {
    && |tag| == 7 && |bytes| <= 16 && (forall i :: 0 <= i < 7 ==> tag[i] as int != 0)
    && buffer.Length == 128 && buffer[..LINE + 1] == Line(tag, bytes) && buffer[LINE + 1] as int == 0
  }

  // The end of the line is in place.
  ghost predicate Framed(buffer: array<char>)
    reads buffer
  {
    buffer.Length == 128 && buffer[LINE] == '\n' && buffer[LINE + 1] as int == 0
  }

  lemma HoldsFramed(buffer: array<char>, tag: string, bytes: seq<Byte>)
    requires Holds(buffer, tag, bytes)
    ensures Framed(buffer)
  {
    assert buffer[..LINE + 1][LINE] == LineChar(tag, bytes, LINE);
  }

  // Blank the buffer and set the label.
  method StartLine(buffer: array<char>, n: int)
    requires Framed(buffer) && LabelFits(n)
    modifies buffer
    ensures Holds(buffer, Label(n), [])
  {
    var temp := Label(n);
    forall i | 0 <= i < LINE {
      buffer[i] := ' ';
    }
    forall i | 0 <= i < 7 {
      buffer[i] := temp[i];
    }
    assert forall k :: 0 <= k <= LINE ==> buffer[k] == LineChar(temp, [], k);
  }

  lemma LineMore(tag: string, bytes: seq<Byte>, b: Byte, k: nat)
    requires |tag| == 7 && |bytes| < 16 && k <= LINE
    requires forall i :: 0 <= i < 7 ==> tag[i] as int != 0
    ensures LineChar(tag, bytes + [b], k) ==
              if k == 8 + 3 * |bytes| then Hex(b)[0]
              else if k == 9 + 3 * |bytes| then Hex(b)[1]
              else if k == ASCII + |bytes| then Ascii(b)
              else LineChar(tag, bytes, k)
  {
  }

  // Put one more byte into its hex and ASCII columns.
  method PutByte(buffer: array<char>, b: Byte, ghost tag: string, ghost bytes: seq<Byte>, j: nat)
    requires Holds(buffer, tag, bytes) && j == |bytes| < 16
    modifies buffer
    ensures Holds(buffer, tag, bytes + [b])
  {
    ghost var before := buffer[..];
    var temp := Hex(b);
    buffer[8 + j * 3] := temp[0];
    buffer[9 + j * 3] := temp[1];
    buffer[ASCII + j] := Ascii(b);
    forall k | 0 <= k <= LINE ensures buffer[k] == LineChar(tag, bytes + [b], k) {
      LineMore(tag, bytes, b, k);
      assert before[..LINE + 1][k] == before[k];
    }
  }

  lemma HoldsPrints(buffer: array<char>, tag: string, bytes: seq<Byte>)
    requires Holds(buffer, tag, bytes)
    ensures CString(buffer[..]) == Line(tag, bytes)
  {
    forall i | 0 <= i < LINE + 1 ensures buffer[..][i] as int != 0 {
      assert buffer[..][i] == buffer[..LINE + 1][i];
    }
    CStringIs(buffer[..], LINE + 1);
    assert buffer[..][..LINE + 1] == buffer[..LINE + 1];
  }

  lemma LabelOfLine(offset: int, size: nat, k: nat)
    requires LabelsFit(offset, size) && k < LineCount(size)
    ensures LabelFits(offset + 16 * k)
  {
  }

  // The first m lines of the dump.
  ghost predicate Dumped(lines: seq<string>, data: seq<Byte>, offset: int) {
    && LabelsFit(offset, |data|) && |lines| <= LineCount(|data|)
    && forall k :: 0 <= k < |lines| ==> lines[k] == DumpLine(data, offset, k)
  }

  // Print the buffer, which holds the next line.
  method Flush(buffer: array<char>, lines: seq<string>, ghost data: seq<Byte>, ghost offset: int) returns (lines': seq<string>)
    requires Dumped(lines, data, offset) && |lines| < LineCount(|data|) && LabelFits(offset + 16 * |lines|)
    requires Holds(buffer, Label(offset + 16 * |lines|), Chunk(data, |lines|))
    ensures |lines'| == |lines| + 1 && Dumped(lines', data, offset)
  {
    hide Line, LineChar, Label, Chunk;
    HoldsPrints(buffer, Label(offset + 16 * |lines|), Chunk(data, |lines|));
    lines' := lines + [CString(buffer[..])];
  }

  lemma ChunkIs(data: seq<Byte>, k: nat, i: nat)
    requires 16 * k < i <= |data| && (i == 16 * k + 16 || (i == |data| && i <= 16 * k + 16))
    ensures k < LineCount(|data|) && data[16 * k..i] == Chunk(data, k)
    ensures i == |data| ==> LineCount(|data|) == k + 1
    ensures i < |data| ==> k + 1 < LineCount(|data|)
  {
  }

  // The first i bytes are dumped: all but the last j in `lines`, those in the buffer.
  ghost predicate Filling(buffer: array<char>, lines: seq<string>, data: seq<Byte>, offset: int, i: nat, j: nat)
    reads buffer
  {
    && j <= 16 && j <= i <= |data| && i - j == 16 * |lines| && Dumped(lines, data, offset)
    && LabelFits(offset + (i - j)) && Holds(buffer, Label(offset + (i - j)), data[i - j..i])
  }

  // The lines that hex_dump prints below the ruler.
  method Dump(data: seq<Byte>, offset: int) returns (lines: seq<string>)
    requires LabelsFit(offset, |data|)
    ensures |lines| == LineCount(|data|)
    ensures forall k :: 0 <= k < |lines| ==> lines[k] == DumpLine(data, offset, k)
    ensures forall k :: 0 <= k < |lines| ==>
              Shows(lines[k], offset + 16 * k, data[16 * k..if 16 * k + 16 <= |data| then 16 * k + 16 else |data|])
  {
    hide Line, LineChar, Label, Chunk, Holds, DumpLine, Shows;
    lines := [];
    var buffer := new char[128](_ => 0 as char);
    buffer[LINE] := '\n';
    StartLine(buffer, offset);
    var i, j := 0, 0;
    assert data[0..0] == [];
    assert Filling(buffer, lines, data, offset, 0, 0);
    hide Filling, LabelsFit;
    while i < |data|
      invariant 0 <= i <= |data| && 0 <= j && (j == 0 <==> i == 0)
      invariant fresh(buffer) && Filling(buffer, lines, data, offset, i, j)
    {
      lines, j := DumpByte(buffer, lines, data, offset, i, j);
      i := i + 1;
    }
    if j != 0 {
      lines := Finish(buffer, lines, data, offset, i, j);
    }
    forall k | 0 <= k < |lines|
      ensures Shows(lines[k], offset + 16 * k, data[16 * k..if 16 * k + 16 <= |data| then 16 * k + 16 else |data|])
    {
      DumpShows(data, offset, k);
    }
  }

  lemma DumpShows(data: seq<Byte>, offset: int, k: nat)
    requires LabelsFit(offset, |data|) && k < LineCount(|data|)
    ensures Shows(DumpLine(data, offset, k), offset + 16 * k,
                  data[16 * k..if 16 * k + 16 <= |data| then 16 * k + 16 else |data|])
  {
    hide Line, Label, Shows;
    LabelOfLine(offset, |data|, k);
    LineShows(offset + 16 * k, Chunk(data, k));
    assert Chunk(data, k) == data[16 * k..if 16 * k + 16 <= |data| then 16 * k + 16 else |data|];
  }

  // One turn of the loop: flush the buffer if it is full, then put the i-th byte into it.
  method DumpByte(buffer: array<char>, lines: seq<string>, data: seq<Byte>, offset: int, i: nat, j: nat)
      returns (lines': seq<string>, j': nat)
    requires Filling(buffer, lines, data, offset, i, j) && i < |data|
    modifies buffer
    ensures j' > 0 && Filling(buffer, lines', data, offset, i + 1, j')
  {
    hide Line, LineChar, Label, Holds, Dumped, Chunk, LabelFits;
    lines', j' := lines, j;
    if j == 16 {
      ChunkIs(data, |lines|, i);
      lines' := Renew(buffer, lines, data, offset, i);
      j' := 0;
      assert data[i..i] == [];
    }
    ghost var start := i - j';
    assert data[start..i] + [data[i]] == data[start..i + 1];
    PutByte(buffer, data[i], Label(offset + start), data[start..i], j');
    j' := j' + 1;
  }

  // The last line, full or partial.
  method Finish(buffer: array<char>, lines: seq<string>, ghost data: seq<Byte>, ghost offset: int, ghost i: nat, ghost j: nat)
      returns (lines': seq<string>)
    requires Filling(buffer, lines, data, offset, i, j) && i == |data| && j > 0
    ensures |lines'| == LineCount(|data|) && Dumped(lines', data, offset)
  {
    hide Line, LineChar, Label, Holds, Chunk;
    ChunkIs(data, |lines|, i);
    lines' := Flush(buffer, lines, data, offset);
  }

  // Print the full line in the buffer and start the next one, for the byte at i.
  method Renew(buffer: array<char>, lines: seq<string>, ghost data: seq<Byte>, offset: int, i: nat) returns (lines': seq<string>)
    requires Dumped(lines, data, offset) && |lines| + 1 < LineCount(|data|) && i == 16 * |lines| + 16
    requires LabelFits(offset + 16 * |lines|) && Holds(buffer, Label(offset + 16 * |lines|), Chunk(data, |lines|))
    modifies buffer
    ensures |lines'| == |lines| + 1 && Dumped(lines', data, offset)
    ensures LabelFits(offset + i) && Holds(buffer, Label(offset + i), [])
  {
    hide Line, LineChar, Label, Holds, Chunk, DumpLine;
    HoldsFramed(buffer, Label(offset + 16 * |lines|), Chunk(data, |lines|));
    lines' := Flush(buffer, lines, data, offset);
    LabelOfLine(offset, |data|, |lines'|);
    StartLine(buffer, i + offset);
  }

  // ---------- reading the dump back ----------

  function ParseLines(lines: seq<string>): seq<Byte> {
    if lines == [] then []
    else
      var last := lines[|lines| - 1];
      ParseLines(lines[..|lines| - 1]) + if |last| == LINE + 1 then ParseFrom(last, 0) else []
  }

  lemma ChunkEnds(data: seq<Byte>, k: nat)
    requires k < LineCount(|data|)
    ensures 16 * k <= |data|
    ensures data[..16 * k] + Chunk(data, k) == if 16 * (k + 1) <= |data| then data[..16 * (k + 1)] else data
  {
  }

  lemma {:induction false} ParsePrefix(data: seq<Byte>, offset: int, lines: seq<string>, m: nat)
    requires Dumped(lines, data, offset) && m <= |lines|
    ensures ParseLines(lines[..m]) == if 16 * m <= |data| then data[..16 * m] else data
    decreases m
  {
    if m > 0 {
      hide Line, LineChar, Label, ParseFrom, LabelFits;
      ParsePrefix(data, offset, lines, m - 1);
      LabelOfLine(offset, |data|, m - 1);
      assert lines[..m][..m - 1] == lines[..m - 1] && lines[..m][m - 1] == DumpLine(data, offset, m - 1);
      var chunk := Chunk(data, m - 1);
      ParseLine(Label(offset + 16 * (m - 1)), chunk, 0);
      assert chunk[0..] == chunk;
      ChunkEnds(data, m - 1);
    }
  }

  lemma DumpLabel(data: seq<Byte>, offset: int, k: nat)
    requires LabelsFit(offset, |data|) && k < LineCount(|data|)
    ensures |DumpLine(data, offset, k)| >= 7 && LabelValue(DumpLine(data, offset, k)) == offset + 16 * k
  {
    hide Label, LabelValue, Chunk;
    LabelOfLine(offset, |data|, k);
    var tag := Label(offset + 16 * k);
    var line := Line(tag, Chunk(data, k));
    forall i | 0 <= i < 7 ensures line[i] == tag[i] {
      assert line[i] == LineChar(tag, Chunk(data, k), i);
    }
    assert line == tag + line[7..];
    LabelRoundTrip(offset + 16 * k, line[7..]);
  }

  // Reading back the hex columns of all lines gives the data, and the label of the k-th line
  // is offset + 16k, for full and partial last lines alike.
  lemma RoundTrip(data: seq<Byte>, offset: int, lines: seq<string>)
    requires LabelsFit(offset, |data|) && |lines| == LineCount(|data|)
    requires forall k :: 0 <= k < |lines| ==> lines[k] == DumpLine(data, offset, k)
    ensures ParseLines(lines) == data
    ensures forall k :: 0 <= k < |lines| ==> |lines[k]| >= 7 && LabelValue(lines[k]) == offset + 16 * k
  {
    hide Line, Label, LabelValue, ParseFrom;
    ParsePrefix(data, offset, lines, |lines|);
    assert lines[..|lines|] == lines;
    assert 16 * |lines| <= |data| ==> data[..16 * |lines|] == data;
    forall k | 0 <= k < |lines| ensures |lines[k]| >= 7 && LabelValue(lines[k]) == offset + 16 * k {
      DumpLabel(data, offset, k);
    }
  }
}
