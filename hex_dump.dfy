/** The `hexDump` formatter of src/NetworkManager.cpp, used to log received
    datagrams: one line per `bytesPerLine` bytes, each holding the line's
    start offset in hexadecimal, the bytes in hexadecimal (with one extra
    space after the middle column) and the bytes as ASCII between bars. */
module HexDump {
  import opened Bytes
  import opened Text

  /** The offset field: six zero-padded upper-case hex digits and ": ". */
  function OffsetField(i: nat): string
  {
    HexPadded(i, 6) + ": "
  }

  /** Hex column `j` of the line starting at `i`: the byte as two hex digits
      and a space, or three spaces past the end of the data, followed by one
      more space after the middle column. */
  function HexCell(data: seq<byte>, i: nat, bpl: nat, j: nat): string
  {
    (if i + j < |data| then HexPadded(data[i + j] as nat, 2) + " " else "   ")
    + (if j == bpl / 2 - 1 then " " else "")
  }

  /** Hex columns 0..j-1 of the line starting at `i`. */
  function HexCells(data: seq<byte>, i: nat, bpl: nat, j: nat): string
  {
    if j == 0 then "" else HexCells(data, i, bpl, j - 1) + HexCell(data, i, bpl, j - 1)
  }

  /** The ASCII rendering of a byte: printable ASCII as itself, anything
      else as '.'. */
  function AsciiChar(b: byte): (c: char)
    ensures 32 <= c as int <= 126
    ensures 32 <= b <= 126 ==> c as int == b as int
  {
    if 32 <= b <= 126 then (b as int) as char else '.'
  }

  /** The ASCII column for the `k` bytes starting at `i`. */
  function AsciiColumn(data: seq<byte>, i: nat, k: nat): (s: string)
    requires i + k <= |data|
    ensures |s| == k
  {
    seq(k, t requires 0 <= t < k => AsciiChar(data[i + t]))
  }

  function Min(a: nat, b: nat): nat
  {
    if a < b then a else b
  }

  /** The line for the bytes starting at offset `i < |data|`. */
  function DumpLine(data: seq<byte>, i: nat, bpl: nat): string
    requires i < |data|
  {
    OffsetField(i) + HexCells(data, i, bpl, bpl) + " |" + AsciiColumn(data, i, Min(bpl, |data| - i)) + "|\n"
  }

  /** The start offsets of the lines from offset `i` on: i, i + bpl,
      i + 2*bpl, ... while below n. */
  function LineOffsets(n: nat, i: nat, bpl: nat): (r: seq<nat>)
    requires bpl > 0
    ensures forall k :: 0 <= k < |r| ==> r[k] < n
    decreases n - i
  {
    if i >= n then [] else [i] + LineOffsets(n, i + bpl, bpl)
  }

  /** The lines for the given start offsets, one after the other. */
  function Render(data: seq<byte>, offsets: seq<nat>, bpl: nat): string
    requires forall k :: 0 <= k < |offsets| ==> offsets[k] < |data|
  {
    if offsets == [] then "" else DumpLine(data, offsets[0], bpl) + Render(data, offsets[1..], bpl)
  }

  /** The whole dump. With a non-positive line width only empty data has
      one (the source loop would not terminate otherwise). */
  function HexDumpText(data: seq<byte>, bytesPerLine: int): (s: string)
    requires bytesPerLine > 0 || |data| == 0
    ensures |data| == 0 ==> s == ""
  {
    if bytesPerLine <= 0 then "" else Render(data, LineOffsets(|data|, 0, bytesPerLine as nat), bytesPerLine as nat)
  }

  /** `hexDump(data, bytesPerLine)`. */
  method HexDump(data: seq<byte>, bytesPerLine: int) returns (out: string)
    requires bytesPerLine > 0 || |data| == 0
    ensures out == HexDumpText(data, bytesPerLine)
  {
    if |data| == 0 {
      return "";
    }
    out := AppendLines(data, bytesPerLine as nat);
  }

  /** The outer loop: one line per `bpl` bytes. */
  method AppendLines(data: seq<byte>, bpl: nat) returns (out: string)
    requires bpl > 0
    ensures out == Render(data, LineOffsets(|data|, 0, bpl), bpl)
  {
    out := "";
    var i: nat := 0;
    ghost var total := Render(data, LineOffsets(|data|, 0, bpl), bpl);
    while i < |data|
      invariant out + Render(data, LineOffsets(|data|, i, bpl), bpl) == total
      decreases |data| - i
    {
      ghost var prev, cur := out, i;
      out := AppendLine(out, data, i, bpl);
      i := i + bpl;
      RenderStep(prev, data, cur, i, bpl);
    }
    assert out + "" == out;
  }

  /** The body of the outer loop: the offset, the hex area, the ASCII
      column and the closing bar for the line starting at `i`. */
  method AppendLine(out: string, data: seq<byte>, i: nat, bpl: nat) returns (res: string)
    requires i < |data|
    ensures res == out + DumpLine(data, i, bpl)
  {
    var line := HexPadded(i, 6) + ": ";
    line := AppendHexArea(line, data, i, bpl);
    line := line + " |";
    line := AppendAscii(line, data, i, bpl);
    line := line + "|\n";
    res := out + line;
  }

  /** The first inner loop: one hex cell per column. */
  method AppendHexArea(out: string, data: seq<byte>, i: nat, bpl: nat) returns (res: string)
    ensures res == out + HexCells(data, i, bpl, bpl)
  {
    res := out;
    var n := |data|;
    var j: nat := 0;
    while j < bpl
      invariant j <= bpl
      invariant res == out + HexCells(data, i, bpl, j)
    {
      var cell: string;
      if i + j < n {
        cell := HexPadded(data[i + j] as nat, 2) + " ";
      } else {
        cell := "   ";
      }
      if j == bpl / 2 - 1 {
        cell := cell + " ";
      }
      assert cell == HexCell(data, i, bpl, j);
      AppendAssoc(out, HexCells(data, i, bpl, j), cell);
      res := res + cell;
      j := j + 1;
    }
  }

  /** The second inner loop: one character per present byte. */
  method AppendAscii(out: string, data: seq<byte>, i: nat, bpl: nat) returns (res: string)
    requires i < |data|
    ensures res == out + AsciiColumn(data, i, Min(bpl, |data| - i))
  {
    res := out;
    var n := |data|;
    var j: nat := 0;
    while j < bpl && i + j < n
      invariant j <= bpl && i + j <= n
      invariant res == out + AsciiColumn(data, i, j)
    {
      res := res + [AsciiChar(data[i + j])];
      j := j + 1;
    }
  }

  /** Emitting the line at `i` moves `i` on by one line. */
  /** Emitting the line at `i` moves the rest of the dump on to offset
      `j = i + bpl` (a separate name for `j` keeps the solver from having
      to rediscover `i + bpl`). */
  lemma RenderStep(out: string, data: seq<byte>, i: nat, j: nat, bpl: nat)
    requires bpl > 0 && i < |data| && j == i + bpl
    ensures out + DumpLine(data, i, bpl) + Render(data, LineOffsets(|data|, j, bpl), bpl)
            == out + Render(data, LineOffsets(|data|, i, bpl), bpl)
  {
    var offsets := LineOffsets(|data|, i, bpl);
    var rest := LineOffsets(|data|, j, bpl);
    OffsetsUnfold(|data|, i, j, bpl);
    assert offsets[0] == i && offsets[1..] == rest;
    AppendAssoc(out, DumpLine(data, i, bpl), Render(data, rest, bpl));
  }

  lemma OffsetsUnfold(n: nat, i: nat, j: nat, bpl: nat)
    requires bpl > 0 && i < n && j == i + bpl
    ensures LineOffsets(n, i, bpl) == [i] + LineOffsets(n, j, bpl)
  {
  }

  /** The ceiling of a / b. */
  function CeilDiv(a: nat, b: nat): nat
    requires b > 0
  {
    (a + b - 1) / b
  }

  /** From offset `i` there are ceil((n - i) / bpl) lines. */
  lemma {:induction false} LineCount(n: nat, i: nat, bpl: nat)
    requires bpl > 0 && i <= n
    ensures |LineOffsets(n, i, bpl)| == CeilDiv(n - i, bpl)
    decreases n - i
  {
    if i < n {
      var j := i + bpl;
      OffsetsUnfold(n, i, j, bpl);
      if j <= n {
        LineCount(n, j, bpl);
        CeilDivStep(n - i, bpl);
      } else {
        assert LineOffsets(n, j, bpl) == [];
        CeilDivOne(n - i, bpl);
      }
    } else {
      CeilDivZero(bpl);
    }
  }

  lemma CeilDivStep(a: nat, b: nat)
    requires 0 < b <= a
    ensures CeilDiv(a, b) == CeilDiv(a - b, b) + 1
  {
    var x := a - b + b - 1;
    assert a + b - 1 == x + b;
    DivPlusDivisor(x, b);
  }

  lemma DivPlusDivisor(x: nat, b: nat)
    requires b > 0
    ensures (x + b) / b == x / b + 1
  {
    var q, r := x / b, x % b;
    assert x == q * b + r;
    assert x + b == (q + 1) * b + r;
    DivUnique(x + b, b, q + 1, r);
  }

  /** Euclidean division has one quotient. */
  lemma DivUnique(x: int, b: int, q: int, r: int)
    requires b > 0 && 0 <= r < b && x == q * b + r
    ensures x / b == q
  {
    var q', r' := x / b, x % b;
    assert x == q' * b + r';
    assert (q - q') * b == r' - r;
    assert (q' - q) * b == r - r';
    if q > q' {
      MulAtLeast(q - q', b);
    } else if q < q' {
      MulAtLeast(q' - q, b);
    }
  }

  lemma MulAtLeast(k: int, b: int)
    requires k >= 1 && b > 0
    ensures k * b >= b
  {
  }

  lemma CeilDivOne(a: nat, b: nat)
    requires 0 < a <= b
    ensures CeilDiv(a, b) == 1
  {
    var x := a - 1;
    assert x < b;
    assert a + b - 1 == x + b;
    DivPlusDivisor(x, b);
  }

  lemma CeilDivZero(b: nat)
    requires b > 0
    ensures CeilDiv(0, b) == 0
  {
    assert b - 1 < b;
  }

  /** Line k from offset `i` is the line for offset i + k*bpl. */
  /** Line k from offset `i` starts at i + k*bpl. */
  lemma {:induction false} LineOffsetAt(n: nat, i: nat, bpl: nat, k: nat)
    requires bpl > 0 && k < |LineOffsets(n, i, bpl)|
    ensures LineOffsets(n, i, bpl)[k] == i + k * bpl
    decreases k
  {
    var j := i + bpl;
    OffsetsUnfold(n, i, j, bpl);
    if k > 0 {
      LineOffsetAt(n, j, bpl, k - 1);
      assert j + (k - 1) * bpl == i + k * bpl;
    }
  }

  /** The dump of n bytes is ceil(n / bytesPerLine) lines, line k being the
      one for offset k * bytesPerLine. */
  lemma HexDumpLines(data: seq<byte>, bytesPerLine: int)
    requires bytesPerLine > 0
    ensures var offsets := LineOffsets(|data|, 0, bytesPerLine as nat);
      HexDumpText(data, bytesPerLine) == Render(data, offsets, bytesPerLine as nat)
      && |offsets| == CeilDiv(|data|, bytesPerLine as nat)
      && forall k :: 0 <= k < |offsets| ==> offsets[k] == k * bytesPerLine
  {
    var bpl := bytesPerLine as nat;
    LineCount(|data|, 0, bpl);
    forall k | 0 <= k < |LineOffsets(|data|, 0, bpl)|
      ensures LineOffsets(|data|, 0, bpl)[k] == k * bytesPerLine
    {
      LineOffsetAt(|data|, 0, bpl, k);
    }
  }

  /** Every hex area has the same width, whether or not the line is full:
      three characters per column plus the one middle space. */
  lemma {:induction false} HexCellsWidth(data: seq<byte>, i: nat, bpl: nat, j: nat)
    ensures |HexCells(data, i, bpl, j)| == 3 * j + (if bpl >= 2 && j >= bpl / 2 then 1 else 0)
  {
    if j > 0 {
      HexCellsWidth(data, i, bpl, j - 1);
      if i + j - 1 < |data| {
        HexPaddedWidth(data[i + j - 1] as nat, 2);
      }
    }
  }

  /** A line starts with its offset in six hex digits and ": ", then has
      the fixed-width hex area, " |", one ASCII character per present byte
      and ends with "|\n". */
  lemma DumpLineShape(data: seq<byte>, i: nat, bpl: nat)
    requires i < |data| && i < 0x100_0000
    ensures var line := DumpLine(data, i, bpl);
      var hexWidth := 3 * bpl + (if bpl >= 2 then 1 else 0);
      var k := Min(bpl, |data| - i);
      |line| == 8 + hexWidth + 2 + k + 2
      && HexValue(line[..6]) == i && line[6..8] == ": "
      && line[8 + hexWidth..10 + hexWidth] == " |"
      && line[10 + hexWidth..10 + hexWidth + k] == AsciiColumn(data, i, k)
      && line[|line| - 2..] == "|\n"
  {
    Pow16Six();
    HexPaddedWidth(i, 6);
    HexPaddedRoundTrip(i, 6);
    HexCellsWidth(data, i, bpl, bpl);
    var k := Min(bpl, |data| - i);
    PartsOfLine(HexPadded(i, 6) + ": ", HexCells(data, i, bpl, bpl), " |", AsciiColumn(data, i, k), "|\n");
    var line := DumpLine(data, i, bpl);
    assert line[..6] == (HexPadded(i, 6) + ": ")[..6];
  }

  lemma Pow16Six()
    ensures Pow16(6) == 0x100_0000
  {
    assert Pow16(2) == 256;
    assert Pow16(4) == 65536;
  }

  /** Where each of five concatenated pieces sits. */
  lemma PartsOfLine(a: string, b: string, c: string, d: string, e: string)
    ensures var s := a + b + c + d + e;
      s[..|a|] == a && s[|a|..|a| + |b|] == b && s[|a| + |b|..|a| + |b| + |c|] == c
      && s[|a| + |b| + |c|..|a| + |b| + |c| + |d|] == d && s[|s| - |e|..] == e
  {
  }

  /** A present byte's cell holds its value in two hex digits followed by
      a space; a missing byte's cell is blank. */
  lemma HexCellContents(data: seq<byte>, i: nat, bpl: nat, j: nat)
    ensures var cell := HexCell(data, i, bpl, j);
      |cell| >= 3
      && (i + j < |data| ==> HexValue(cell[..2]) == data[i + j] as nat && cell[2] == ' ')
      && (i + j >= |data| ==> cell[..3] == "   ")
  {
    if i + j < |data| {
      var b := data[i + j] as nat;
      assert Pow16(2) == 256;
      HexPaddedWidth(b, 2);
      HexPaddedRoundTrip(b, 2);
      assert HexCell(data, i, bpl, j)[..2] == HexPadded(b, 2);
    }
  }
}
