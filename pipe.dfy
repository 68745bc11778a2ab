// src/output/cui/numbers/pipe.rs: big digits drawn with double-line
// box-drawing characters, three lines high and three characters wide.  Each
// digit appends its glyph row to every line; any other character appends
// three spaces.

module PipeDigits {
  import opened Common
  import opened Decimal
  import opened GlyphText

  const HEIGHT: nat := 3

  /** The glyph table: the three rows of each digit. */
  const DIGITS: seq<seq<string>> := [
    ["╔═╗", "║ ║", "╚═╝"],   // 0
    [" ║ ", " ║ ", " ║ "],   // 1
    ["╔═╗", "╔═╝", "╚═╝"],   // 2
    ["╔═╗", " ═╣", "╚═╝"],   // 3
    ["║ ║", "╚═╣", "  ║"],   // 4
    ["╔══", "╚═╗", "╚═╝"],   // 5
    ["╔══", "╠═╗", "╚═╝"],   // 6
    ["══╗", "  ║", "  ║"],   // 7
    ["╔═╗", "╠═╣", "╚═╝"],   // 8
    ["╔═╗", "╚═╣", "══╝"]    // 9
  ]

  /** Every glyph has three rows of three characters. */
  lemma DigitsShape()
    ensures |DIGITS| == 10
    ensures forall d :: 0 <= d < 10 ==> |DIGITS[d]| == HEIGHT
    ensures forall d, i :: 0 <= d < 10 && 0 <= i < HEIGHT ==> |DIGITS[d][i]| == 3
  {
  }

  /** What one character appends to line `i`. */
  function Cell(ch: char, i: nat): string {
    DigitsShape();
    if IsDigitChar(ch) then
      if i < HEIGHT then DIGITS[DigitValue(ch)][i] else ""
    else "   "
  }

  /** big_number_font: three lines, each the concatenation of the cells of the input. */
  method BigNumberFont(input: string) returns (lines: seq<string>)
    ensures lines == Lines(Cell, input, HEIGHT)
  {
    var out := new string[HEIGHT](_ => "");
    for k := 0 to |input|
      invariant forall i :: 0 <= i < HEIGHT ==> out[i] == Line(Cell, input[..k], i)
    {
      forall j | 0 <= j < HEIGHT
        ensures Line(Cell, input[..k + 1], j) == Line(Cell, input[..k], j) + Cell(input[k], j)
      {
        LinePrefixStep(Cell, input, k, j);
      }
      AppendCell(out, input[k]);
    }
    assert input[..|input|] == input;
    lines := out[..];
  }

  /** The body of the loop of big_number_font: the glyph rows of a digit, or three spaces, go onto the lines. */
  method AppendCell(out: array<string>, ch: char)
    requires out.Length == HEIGHT
    modifies out
    ensures forall j :: 0 <= j < HEIGHT ==> out[j] == old(out[j]) + Cell(ch, j)
  {
    DigitsShape();
    if IsDigitChar(ch) {
      var rows := DIGITS[DigitValue(ch)];
      for i := 0 to HEIGHT
        invariant forall j :: 0 <= j < i ==> out[j] == old(out[j]) + Cell(ch, j)
        invariant forall j :: i <= j < HEIGHT ==> out[j] == old(out[j])
      {
        out[i] := out[i] + rows[i];
      }
    } else {
      for i := 0 to HEIGHT
        invariant forall j :: 0 <= j < i ==> out[j] == old(out[j]) + Cell(ch, j)
        invariant forall j :: i <= j < HEIGHT ==> out[j] == old(out[j])
      {
        out[i] := out[i] + "   ";
      }
    }
  }

  /** Empty input gives three empty lines. */
  lemma EmptyInput()
    ensures Lines(Cell, "", HEIGHT) == ["", "", ""]
  {
  }

  /** A character other than a decimal digit appends exactly three spaces
      to every line. */
  lemma NonDigitDrawsBlank(s: string, c: char)
    requires !IsDigitChar(c)
    ensures forall i :: 0 <= i < HEIGHT ==>
              Lines(Cell, s + [c], HEIGHT)[i] == Lines(Cell, s, HEIGHT)[i] + "   "
  {
    assert (s + [c])[..|s|] == s;
  }

  /** A digit appends its glyph row `i` to line `i`. */
  lemma DigitDrawsGlyph(s: string, c: char, i: nat)
    requires IsDigitChar(c) && i < HEIGHT
    ensures Lines(Cell, s + [c], HEIGHT)[i] == Lines(Cell, s, HEIGHT)[i] + DIGITS[DigitValue(c)][i]
  {
    assert (s + [c])[..|s|] == s;
  }

  /** Drawing `a + b` puts the drawing of `b` to the right of that of `a`. */
  lemma Concat(a: string, b: string)
    ensures forall i :: 0 <= i < HEIGHT ==>
              Lines(Cell, a + b, HEIGHT)[i] == Lines(Cell, a, HEIGHT)[i] + Lines(Cell, b, HEIGHT)[i]
  {
    LinesConcat(Cell, a, b, HEIGHT);
  }

  /** Every character, digit or not, takes three columns on every line. */
  lemma Width(s: string)
    ensures forall i :: 0 <= i < HEIGHT ==> |Lines(Cell, s, HEIGHT)[i]| == 3 * |s|
  {
    DigitsShape();
    forall i | 0 <= i < HEIGHT
      ensures |Line(Cell, s, i)| == 3 * |s|
    {
      LineWidth(Cell, s, i, 3);
    }
  }
}
