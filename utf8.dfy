// src/output/cui/numbers/utf8.rs: big digits drawn with full-block
// characters, five lines high.  Each digit appends its glyph row and one
// space to every line; any other character draws nothing.

module Utf8Digits {
  import opened Common
  import opened Decimal
  import opened GlyphText

  const HEIGHT: nat := 5

  /** The glyph table: the five rows of each digit. */
  const FONT: seq<seq<string>> := [
    [" ████  ", "██  ██ ", "██  ██ ", "██  ██ ", " ████  "],   // 0
    ["  ██  ", " ███  ", "  ██  ", "  ██  ", " ████ "],        // 1
    [" ████  ", "    ██ ", "  ███  ", " ██    ", " █████ "],   // 2
    [" ████  ", "    ██ ", "  ███  ", "    ██ ", " ████  "],   // 3
    [" ██ ██ ", " ██ ██ ", " █████ ", "    ██ ", "    ██ "],   // 4
    [" ████ ", " ██   ", " ████ ", "   ██ ", " ████ "],        // 5
    ["  ███  ", " ██    ", " ████  ", " ██ ██ ", "  ███  "],   // 6
    [" █████ ", "    ██ ", "   ██  ", "  ██   ", " ██    "],   // 7
    ["  ███  ", " ██ ██ ", "  ███  ", " ██ ██ ", "  ███  "],   // 8
    ["  ███  ", " ██ ██ ", "  ████ ", "    ██ ", "  ███  "]    // 9
  ]

  /** Every glyph has five rows of one width (6 or 7 characters). */
  lemma FontShape()
    ensures |FONT| == 10
    ensures forall d :: 0 <= d < 10 ==> |FONT[d]| == HEIGHT
    ensures forall d, i :: 0 <= d < 10 && 0 <= i < HEIGHT ==> |FONT[d][i]| == |FONT[d][0]|
    ensures forall d :: 0 <= d < 10 ==> 6 <= |FONT[d][0]| <= 7
  {
  }

  /** `font.get(&ch)`: the rows of a decimal digit, nothing for any other character. */
  function FontGet(ch: char): (r: Option<seq<string>>)
    ensures r.Some? <==> IsDigitChar(ch)
    ensures r.Some? ==> |r.value| == HEIGHT && r.value == FONT[DigitValue(ch)]
  {
    FontShape();
    if IsDigitChar(ch) then Some(FONT[DigitValue(ch)]) else None
  }

  /** What one character appends to line `i`. */
  function Cell(ch: char, i: nat): string {
    match FontGet(ch)
    case Some(rows) => if i < HEIGHT then rows[i] + " " else ""
    case None => ""
  }

  /** utf8_font: five lines, each the concatenation of the cells of the input. */
  method Utf8Font(input: string) returns (output: seq<string>)
    ensures output == Lines(Cell, input, HEIGHT)
  {
    var lines := new string[HEIGHT](_ => "");
    for k := 0 to |input|
      invariant forall i :: 0 <= i < HEIGHT ==> lines[i] == Line(Cell, input[..k], i)
    {
      forall j | 0 <= j < HEIGHT
        ensures Line(Cell, input[..k + 1], j) == Line(Cell, input[..k], j) + Cell(input[k], j)
      {
        LinePrefixStep(Cell, input, k, j);
      }
      match FontGet(input[k]) {
        case Some(rows) => AppendRows(lines, input[k], rows);
        case None =>
      }
    }
    assert input[..|input|] == input;
    output := lines[..];
  }

  /** The body of the inner loop of utf8_font: row `i` of the glyph of `ch`
      and a space go onto line `i`. */
  method AppendRows(lines: array<string>, ch: char, rows: seq<string>)
    requires lines.Length == HEIGHT && FontGet(ch) == Some(rows)
    modifies lines
    ensures forall j :: 0 <= j < HEIGHT ==> lines[j] == old(lines[j]) + Cell(ch, j)
  {
    for i := 0 to HEIGHT
      invariant forall j :: 0 <= j < i ==> lines[j] == old(lines[j]) + Cell(ch, j)
      invariant forall j :: i <= j < HEIGHT ==> lines[j] == old(lines[j])
    {
      lines[i] := lines[i] + rows[i];
      lines[i] := lines[i] + [' '];
    }
  }

  /** Empty input gives five empty lines. */
  lemma EmptyInput()
    ensures Lines(Cell, "", HEIGHT) == ["", "", "", "", ""]
  {
  }

  /** A character other than a decimal digit draws nothing. */
  lemma NonDigitDrawsNothing(s: string, c: char)
    requires !IsDigitChar(c)
    ensures Lines(Cell, s + [c], HEIGHT) == Lines(Cell, s, HEIGHT)
  {
    forall i | 0 <= i < HEIGHT
      ensures Line(Cell, s + [c], i) == Line(Cell, s, i)
    {
      LineBlankCell(Cell, s, c, i);
    }
  }

  /** A digit draws its glyph row `i` and one space on line `i`. */
  lemma DigitDrawsGlyph(s: string, c: char, i: nat)
    requires IsDigitChar(c) && i < HEIGHT
    ensures Lines(Cell, s + [c], HEIGHT)[i] == Lines(Cell, s, HEIGHT)[i] + FONT[DigitValue(c)][i] + " "
  {
    assert (s + [c])[..|s|] == s;
  }

  /** Drawing `a + b` puts the drawing of `b` to the right of that of `a`. */
  lemma Concat(a: string, b: string)
    ensures forall i :: 0 <= i < HEIGHT ==>
              Lines(Cell, a + b, HEIGHT)[i] == Lines(Cell, a, HEIGHT)[i] + Lines(Cell, b, HEIGHT)[i]
  {
    LinesConcat(Cell, a, b, HEIGHT);
  }

  /** All five lines have the same width, so the digits stay aligned. */
  lemma Aligned(s: string)
    ensures forall i :: 0 <= i < HEIGHT ==> |Lines(Cell, s, HEIGHT)[i]| == |Lines(Cell, s, HEIGHT)[0]|
  {
    FontShape();
    forall i | 0 <= i < HEIGHT
      ensures |Line(Cell, s, i)| == |Line(Cell, s, 0)|
    {
      LinesAligned(Cell, s, i, 0);
    }
  }
}
