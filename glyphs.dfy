// What the three big-digit renderers (src/output/cui/numbers/utf8.rs,
// src/output/cui/numbers/pipe.rs and render_lite_number_lines in
// src/output/cui/components/totp_box.rs) have in common: the output is a
// fixed number of text lines, and each input character appends one piece,
// its "cell", to every line.  A font is its cell function.

module GlyphText {

  /** Line `i` of the rendering of `s`: the cells of its characters, in order. */
  function Line(cell: (char, nat) -> string, s: string, i: nat): string
    decreases |s|
  {
    if s == [] then "" else Line(cell, s[..|s| - 1], i) + cell(s[|s| - 1], i)
  }

  /** The first `height` lines of the rendering of `s`. */
  function Lines(cell: (char, nat) -> string, s: string, height: nat): (r: seq<string>)
    ensures |r| == height
    ensures forall i :: 0 <= i < height ==> r[i] == Line(cell, s, i)
  {
    seq(height, i requires 0 <= i < height => Line(cell, s, i))
  }

  /** Rendering distributes over concatenation, line by line. */
  lemma {:induction false} LineConcat(cell: (char, nat) -> string, a: string, b: string, i: nat)
    ensures Line(cell, a + b, i) == Line(cell, a, i) + Line(cell, b, i)
    decreases |b|
  {
    if b == [] {
      assert a + b == a;
    } else {
      var b' := b[..|b| - 1];
      LineConcat(cell, a, b', i);
      assert (a + b)[..|a + b| - 1] == a + b';
      assert (a + b)[|a + b| - 1] == b[|b| - 1];
    }
  }

  /** All `height` lines at once: the rendering of `a + b` is the rendering
      of `b` placed to the right of the rendering of `a`. */
  lemma LinesConcat(cell: (char, nat) -> string, a: string, b: string, height: nat)
    ensures forall i :: 0 <= i < height ==>
              Lines(cell, a + b, height)[i] == Lines(cell, a, height)[i] + Lines(cell, b, height)[i]
  {
    forall i | 0 <= i < height
      ensures Line(cell, a + b, i) == Line(cell, a, i) + Line(cell, b, i)
    {
      LineConcat(cell, a, b, i);
    }
  }

  /** Rendering one more character of `s` appends that character's cell. */
  lemma LinePrefixStep(cell: (char, nat) -> string, s: string, k: nat, i: nat)
    requires k < |s|
    ensures Line(cell, s[..k + 1], i) == Line(cell, s[..k], i) + cell(s[k], i)
  {
    assert s[..k + 1][..k] == s[..k];
  }

  /** The rendering of one character is its cell. */
  lemma LineSingle(cell: (char, nat) -> string, c: char, i: nat)
    ensures Line(cell, [c], i) == cell(c, i)
  {
    assert [c][..0] == [];
  }

  /** A character whose cells are all empty leaves the rendering unchanged. */
  lemma {:induction false} LineBlankCell(cell: (char, nat) -> string, s: string, c: char, i: nat)
    requires cell(c, i) == ""
    ensures Line(cell, s + [c], i) == Line(cell, s, i)
  {
    assert (s + [c])[..|s|] == s;
  }

  /** When every character's cell on line `i` has width `w`, that line has
      width `w` per character. */
  lemma {:induction false} LineWidth(cell: (char, nat) -> string, s: string, i: nat, w: nat)
    requires forall k :: 0 <= k < |s| ==> |cell(s[k], i)| == w
    ensures |Line(cell, s, i)| == w * |s|
    decreases |s|
  {
    if s != [] {
      var s' := s[..|s| - 1];
      forall k | 0 <= k < |s'|
        ensures |cell(s'[k], i)| == w
      {
        assert s'[k] == s[k];
      }
      LineWidth(cell, s', i, w);
      assert |cell(s[|s| - 1], i)| == w;
      assert w * |s| == w * |s'| + w;
    }
  }

  /** When every character's cells on lines `i` and `j` have the same width,
      so do those lines: the rendering stays aligned. */
  lemma {:induction false} LinesAligned(cell: (char, nat) -> string, s: string, i: nat, j: nat)
    requires forall k :: 0 <= k < |s| ==> |cell(s[k], i)| == |cell(s[k], j)|
    ensures |Line(cell, s, i)| == |Line(cell, s, j)|
    decreases |s|
  {
    if s != [] {
      var s' := s[..|s| - 1];
      forall k | 0 <= k < |s'|
        ensures |cell(s'[k], i)| == |cell(s'[k], j)|
      {
        assert s'[k] == s[k];
      }
      LinesAligned(cell, s', i, j);
      assert |cell(s[|s| - 1], i)| == |cell(s[|s| - 1], j)|;
    }
  }
}
