// src/output/cui/components/totp_box.rs: one box of the display's grid.  A
// box holds the settings of one secrets-file entry, its current `Totp`, and
// the remaining seconds it last showed; it knows when it must be redrawn and
// refreshes its code when the time window moves on.  The module also holds
// the box labels and the "lite" big-digit renderer.

module TotpBoxes {
  import opened Common
  import opened Decimal
  import opened TotpEngine
  import opened Secrets
  import opened GlyphText
  import Keyboard

  /** Whether `Totp::new` succeeds on an entry's settings (it panics otherwise). */
  predicate Usable(crypto: Crypto, e: ConfigEntry) {
    Generable(crypto, e.secret, e.timestep, Some(e.digits))
  }

  /** The first instant of the window of `counter`. */
  function WindowStart(counter: nat, step: nat): nat {
    counter * step
  }

  /** The code a box shows at `now` for the given settings. */
  function CodeAt(crypto: Crypto, secret: string, timestep: u16, digits: u8, now: u64): Otp
    requires Generable(crypto, secret, timestep, Some(digits))
  {
    Generate(crypto, secret, timestep, Some(digits), None, now).value
  }

  /** The contents of a box, its `Totp` included. */
  datatype BoxView = BoxView(name: string, code: string, secret: string, digits: u8, timestep: u16,
                             validDurationSeconds: u16, otp: Otp)
  {
    predicate Usable(crypto: Crypto) {
      Generable(crypto, secret, timestep, Some(digits))
    }

    /** Whether `now` lies in the window of the code the box holds. */
    predicate InWindow(now: u64) {
      WindowStart(otp.counter, timestep) <= now < WindowStart(otp.counter, timestep) + timestep
    }

    /** The code the box holds is the one for its own counter. */
    predicate Consistent(crypto: Crypto) {
      Usable(crypto) && WindowStart(otp.counter, timestep) < U64_LIMIT &&
      otp == CodeAt(crypto, secret, timestep, digits, WindowStart(otp.counter, timestep))
    }
  }

  /** TotpBox::from, on values: the entry's settings, its code at `now`, and
      the remaining seconds of that code. */
  function FromEntry(crypto: Crypto, e: ConfigEntry, now: u64): (b: BoxView)
    requires Usable(crypto, e)
    ensures b.name == e.name && b.code == e.code && b.secret == e.secret
    ensures b.digits == e.digits && b.timestep == e.timestep
    ensures b.otp == CodeAt(crypto, e.secret, e.timestep, e.digits, now)
    ensures b.validDurationSeconds == ValidDurationAt(b.otp.validUntil, now)
  {
    var otp := CodeAt(crypto, e.secret, e.timestep, e.digits, now);
    BoxView(e.name, e.code, e.secret, e.digits, e.timestep, ValidDurationAt(otp.validUntil, now), otp)
  }

  /** TotpBox::needs_refresh, on values: the remaining seconds shown are
      stale, or the window has moved on. */
  function NeedsRefreshAt(b: BoxView, now: u64): (r: bool)
    requires b.timestep > 0
    ensures r <==> b.validDurationSeconds != ValidDurationAt(b.otp.validUntil, now) || !b.InWindow(now)
  {
    CounterChangedIffOutsideWindow(b.otp.counter, b.timestep, now);
    b.validDurationSeconds != ValidDurationAt(b.otp.validUntil, now) ||
    GetCounter(None, now, b.timestep) != b.otp.counter
  }

  /** TotpBox::refresh, on values: the remaining seconds are taken from the
      code held BEFORE any regeneration, and the code is regenerated only
      when the window has moved on. */
  function Refreshed(crypto: Crypto, b: BoxView, now: u64): (r: BoxView)
    requires b.Usable(crypto)
    ensures r == b.(validDurationSeconds := r.validDurationSeconds, otp := r.otp)
    ensures r.validDurationSeconds == ValidDurationAt(b.otp.validUntil, now)
    ensures b.InWindow(now) ==> r.otp == b.otp
    ensures !b.InWindow(now) ==> r.otp == CodeAt(crypto, b.secret, b.timestep, b.digits, now)
  {
    var shown := ValidDurationAt(b.otp.validUntil, now);
    CounterChangedIffOutsideWindow(b.otp.counter, b.timestep, now);
    if GetCounter(None, now, b.timestep) != b.otp.counter then
      b.(validDurationSeconds := shown, otp := CodeAt(crypto, b.secret, b.timestep, b.digits, now))
    else
      b.(validDurationSeconds := shown)
  }

  /** An instant in the window of counter `c` gets the code of the window's
      start, and its counter is `c`. */
  lemma WindowStartCode(crypto: Crypto, secret: string, timestep: u16, digits: u8, c: nat, now: u64)
    requires Generable(crypto, secret, timestep, Some(digits))
    requires WindowStart(c, timestep) <= now < WindowStart(c, timestep) + timestep
    ensures WindowStart(c, timestep) < U64_LIMIT
    ensures CodeAt(crypto, secret, timestep, digits, now).counter == c
    ensures CodeAt(crypto, secret, timestep, digits, now) == CodeAt(crypto, secret, timestep, digits, WindowStart(c, timestep))
  {
    var t: u64 := WindowStart(c, timestep);
    FloorDivUnique(now, timestep, c);
    FloorDivUnique(t, timestep, c);
    SameCounterSameOtp(crypto, secret, timestep, Some(digits), None, now, None, t);
  }

  /** The code generated at `now` is the one for its own counter, and `now`
      lies in its window. */
  lemma CodeAtConsistent(crypto: Crypto, secret: string, timestep: u16, digits: u8, now: u64)
    requires Generable(crypto, secret, timestep, Some(digits))
    ensures var o := CodeAt(crypto, secret, timestep, digits, now);
            WindowStart(o.counter, timestep) <= now < WindowStart(o.counter, timestep) + timestep &&
            o == CodeAt(crypto, secret, timestep, digits, WindowStart(o.counter, timestep))
  {
    var o := CodeAt(crypto, secret, timestep, digits, now);
    assert WindowStart(o.counter, timestep) <= now < WindowStart(o.counter, timestep) + timestep by {
      GenerateWindow(crypto, secret, timestep, Some(digits), None, now);
    }
    WindowStartCode(crypto, secret, timestep, digits, o.counter, now);
  }

  /** A new box needs no refresh at the moment it was made, and holds the
      code for its own counter. */
  lemma FreshBoxSettled(crypto: Crypto, e: ConfigEntry, now: u64)
    requires Usable(crypto, e)
    ensures !NeedsRefreshAt(FromEntry(crypto, e, now), now)
    ensures FromEntry(crypto, e, now).Consistent(crypto)
  {
    CodeAtConsistent(crypto, e.secret, e.timestep, e.digits, now);
  }

  /** After a refresh the box shows the code for the current window,
      whether or not it had to generate one, and that code is again the one
      for its own counter. */
  lemma RefreshShowsCurrentCode(crypto: Crypto, b: BoxView, now: u64)
    requires b.Consistent(crypto)
    ensures Refreshed(crypto, b, now).otp == CodeAt(crypto, b.secret, b.timestep, b.digits, now)
    ensures Refreshed(crypto, b, now).Consistent(crypto)
  {
    CodeAtConsistent(crypto, b.secret, b.timestep, b.digits, now);
    if b.InWindow(now) {
      WindowStartCode(crypto, b.secret, b.timestep, b.digits, b.otp.counter, now);
    }
  }

  /** Within the window a refresh keeps the code and settles the box. */
  lemma RefreshInWindowSettles(crypto: Crypto, b: BoxView, now: u64)
    requires b.Usable(crypto) && b.InWindow(now)
    ensures Refreshed(crypto, b, now).otp == b.otp
    ensures !NeedsRefreshAt(Refreshed(crypto, b, now), now)
  {
  }

  /** When the window has moved on, the first refresh stores the remaining
      seconds of the old code, so the box may still need a refresh; a second
      refresh at the same instant always settles it. */
  lemma RefreshTwiceSettles(crypto: Crypto, b: BoxView, now: u64)
    requires b.Usable(crypto)
    ensures !NeedsRefreshAt(Refreshed(crypto, Refreshed(crypto, b, now), now), now)
  {
    if !b.InWindow(now) {
      CodeAtConsistent(crypto, b.secret, b.timestep, b.digits, now);
    }
    RefreshInWindowSettles(crypto, Refreshed(crypto, b, now), now);
  }

  /** TotpBox. */
  class TotpBox {
    var totp: Totp
    var name: string
    var code: string
    var secret: string
    var digits: u8
    var timestep: u16
    var validDurationSeconds: u16

    function View(): BoxView
      reads this, totp
    {
      BoxView(name, code, secret, digits, timestep, validDurationSeconds, totp.Value())
    }

    /** From<&ConfigEntry>: a new `Totp` for the entry at `now`, the entry's
        settings, and the remaining seconds of the new code. */
    constructor From(crypto: Crypto, entry: ConfigEntry, now: u64)
      requires Usable(crypto, entry)
      ensures View() == FromEntry(crypto, entry, now)
      ensures fresh(totp)
    {
      var t := new Totp(crypto, entry.secret, entry.timestep, Some(entry.digits), now);
      totp := t;
      name := entry.name;
      code := entry.code;
      digits := entry.digits;
      secret := entry.secret;
      timestep := entry.timestep;
      validDurationSeconds := t.ValidDuration(now);
    }

    /** TotpBox::valid_duration. */
    function ValidDuration(now: u64): (d: u16)
      reads this, totp
      ensures d == ValidDurationAt(View().otp.validUntil, now)
    {
      totp.ValidDuration(now)
    }

    /** TotpBox::get_token. */
    function GetToken(): (t: string)
      reads this, totp
      ensures t == View().otp.token
    {
      totp.token
    }

    /** TotpBox::needs_refresh. */
    function NeedsRefresh(now: u64): (b: bool)
      reads this, totp
      requires timestep > 0
      ensures b == NeedsRefreshAt(View(), now)
    {
      validDurationSeconds != ValidDuration(now) || totp.NeedsRefresh(timestep, now)
    }

    /** TotpBox::refresh. */
    method Refresh(crypto: Crypto, now: u64)
      requires View().Usable(crypto)
      modifies this, totp
      ensures totp == old(totp)
      ensures View() == Refreshed(crypto, old(View()), now)
    {
      validDurationSeconds := ValidDuration(now);
      if totp.NeedsRefresh(timestep, now) {
        totp.Refresh(crypto, secret, timestep, Some(digits), now);
      }
    }
  }

  /** index_to_char: the label of the box at `index`, if there is one. */
  function IndexToChar(index: u8): (r: Option<char>)
    ensures r.Some? <==> index < 26
    ensures r.Some? ==> r.value == Keyboard.INDEX_ALPHABET[index]
  {
    if index < |Keyboard.INDEX_ALPHABET| then Some(Keyboard.INDEX_ALPHABET[index]) else None
  }

  /** index_to_char and char_to_index are inverse on the 26 labels: the key
      shown on a box selects that box. */
  lemma LabelsRoundTrip(index: u8, ch: char)
    ensures index < 26 ==> Keyboard.CharToIndex(IndexToChar(index).value) == Some(index as nat)
    ensures Keyboard.CharToIndex(ch).Some? ==>
              IndexToChar(Keyboard.CharToIndex(ch).value) == Some(ch)
  {
    if index < 26 {
      Keyboard.CharToIndexOfLabel(index);
    }
  }

  // The "lite" big-digit font, six lines high.

  const LITE_HEIGHT: nat := 6

  /** The glyph table: the six rows of each digit. */
  const LITE_DIGITS: seq<seq<string>> := [
    ["  ___  ", " / _ \\ ", "| | | |", "| | | |", "| |_| |", " \\___/ "],         // 0
    [" __ ", "/_ |", " | |", " | |", " | |", " |_|"],                               // 1
    [" ___  ", "|__ \\ ", "   ) |", "  / / ", " / /_ ", "|____|"],                  // 2
    [" ____  ", "|___ \\ ", "  __) |", " |__ < ", " ___) |", "|____/ "],           // 3
    [" _  _   ", "| || |  ", "| || |_ ", "|__   _|", "   | |  ", "   |_|  "],     // 4
    [" _____ ", "| ____|", "| |__  ", "|___ \\ ", " ___) |", "|____/ "],           // 5
    ["   __  ", "  / /  ", " / /_  ", "| '_ \\ ", "| (_) |", " \\___/ "],         // 6
    [" ______", "|____  |", "    / / ", "   / /  ", "  / /   ", " /_/    "],     // 7
    ["  ___  ", " / _ \\ ", "| (_) |", " > _ < ", "| (_) |", " \\ _ / "],         // 8
    ["  ___  ", " / _ \\ ", "| (_) |", " \\__, |", "   / / ", "  /_/  "]          // 9
  ]

  /** The six rows of digit `d`. */
  function LiteGlyph(d: nat): (rows: seq<string>)
    requires d < 10
    ensures |rows| == LITE_HEIGHT
  {
    LITE_DIGITS[d]
  }

  /** What one character appends to line `i`: a digit its glyph row (on the
      six glyph lines only), anything else seven spaces. */
  function LiteCell(ch: char, i: nat): string {
    if IsDigitChar(ch) then
      if i < LITE_HEIGHT then LiteGlyph(DigitValue(ch))[i] else ""
    else "       "
  }

  /** `str::len`: the number of bytes of the UTF-8 encoding. */
  function Utf8Length(s: string): (n: nat)
    ensures n >= |s|
  {
    if s == [] then 0
    else
      var c := s[0] as int;
      (if c < 0x80 then 1 else if c < 0x800 then 2 else if c < 0x1_0000 then 3 else 4) + Utf8Length(s[1..])
  }

  lemma {:induction false} Utf8LengthDecimal(s: string)
    requires IsDecimal(s)
    ensures Utf8Length(s) == |s|
  {
    if s != [] {
      Utf8LengthDecimal(s[1..]);
    }
  }

  predicate HasDigit(s: string) {
    exists k :: 0 <= k < |s| && IsDigitChar(s[k])
  }

  /** render_lite_number_lines as written: one line per input byte, and a
      panic (None) when a digit's six glyph rows are written to an output
      that has fewer than six lines. */
  function RenderLiteNumberLinesAsWritten(input: string): (r: Option<seq<string>>)
    ensures r.None? <==> HasDigit(input) && Utf8Length(input) < LITE_HEIGHT
    ensures r.Some? ==> |r.value| == Utf8Length(input)
    ensures r.Some? ==> forall i :: 0 <= i < |r.value| ==> r.value[i] == Line(LiteCell, input, i)
  {
    if HasDigit(input) && Utf8Length(input) < LITE_HEIGHT then None
    else Some(Lines(LiteCell, input, Utf8Length(input)))
  }

  /** A four-digit token makes the renderer as written index past its
      four-line output. */
  lemma LiteShortTokenPanics()
    ensures RenderLiteNumberLinesAsWritten("1234").None?
  {
    assert IsDigitChar("1234"[0]);
    assert Utf8Length("1234") == 4;
  }

  /** Every token of one to five digits makes it panic, and every token of
      seven to nine digits gets lines beyond the glyph's six. */
  lemma LiteTokenLengths(crypto: Crypto, secret: string, timestep: u16, digits: u8, now: u64)
    requires Generable(crypto, secret, timestep, Some(digits)) && 1 <= digits <= 9
    ensures var token := CodeAt(crypto, secret, timestep, digits, now).token;
            (digits < 6 <==> RenderLiteNumberLinesAsWritten(token).None?) &&
            (digits > 6 ==> |RenderLiteNumberLinesAsWritten(token).value| == digits)
  {
    var token := CodeAt(crypto, secret, timestep, digits, now).token;
    TokenShape(crypto, secret, timestep, digits, None, now);
    Utf8LengthDecimal(token);
    assert IsDigitChar(token[0]);
  }

  /** render_lite_number_lines with its output sized to the glyph height:
      six lines, each the concatenation of the cells of the input. */
  method RenderLiteNumberLines(input: string) returns (lines: seq<string>)
    ensures lines == Lines(LiteCell, input, LITE_HEIGHT)
  {
    var out := new string[LITE_HEIGHT](_ => "");
    for k := 0 to |input|
      invariant forall i :: 0 <= i < LITE_HEIGHT ==> out[i] == Line(LiteCell, input[..k], i)
    {
      forall j | 0 <= j < LITE_HEIGHT
        ensures Line(LiteCell, input[..k + 1], j) == Line(LiteCell, input[..k], j) + LiteCell(input[k], j)
      {
        LinePrefixStep(LiteCell, input, k, j);
      }
      AppendLiteCell(out, input[k]);
    }
    assert input[..|input|] == input;
    lines := out[..];
  }

  /** The body of the loop of render_lite_number_lines: the glyph rows of a digit, or seven spaces, go onto the lines. */
  method AppendLiteCell(out: array<string>, ch: char)
    requires out.Length == LITE_HEIGHT
    modifies out
    ensures forall j :: 0 <= j < LITE_HEIGHT ==> out[j] == old(out[j]) + LiteCell(ch, j)
  {
    if IsDigitChar(ch) {
      var rows := LiteGlyph(DigitValue(ch));
      for i := 0 to LITE_HEIGHT
        invariant forall j :: 0 <= j < i ==> out[j] == old(out[j]) + LiteCell(ch, j)
        invariant forall j :: i <= j < LITE_HEIGHT ==> out[j] == old(out[j])
      {
        out[i] := out[i] + rows[i];
      }
    } else {
      for i := 0 to LITE_HEIGHT
        invariant forall j :: 0 <= j < i ==> out[j] == old(out[j]) + LiteCell(ch, j)
        invariant forall j :: i <= j < LITE_HEIGHT ==> out[j] == old(out[j])
      {
        out[i] := out[i] + "       ";
      }
    }
  }

  /** Where the renderer as written does not panic, its first six lines are
      the corrected renderer's; on a six-byte input the two agree. */
  lemma LiteAgreesWhereDefined(input: string)
    requires RenderLiteNumberLinesAsWritten(input).Some? && Utf8Length(input) >= LITE_HEIGHT
    ensures RenderLiteNumberLinesAsWritten(input).value[..LITE_HEIGHT] == Lines(LiteCell, input, LITE_HEIGHT)
    ensures Utf8Length(input) == LITE_HEIGHT ==>
              RenderLiteNumberLinesAsWritten(input) == Some(Lines(LiteCell, input, LITE_HEIGHT))
  {
  }

  /** A character other than a decimal digit appends seven spaces to every line. */
  lemma LiteNonDigitBlank(s: string, c: char)
    requires !IsDigitChar(c)
    ensures forall i :: 0 <= i < LITE_HEIGHT ==>
              Lines(LiteCell, s + [c], LITE_HEIGHT)[i] == Lines(LiteCell, s, LITE_HEIGHT)[i] + "       "
  {
    assert (s + [c])[..|s|] == s;
  }

  /** A digit appends its glyph row `i` to line `i`. */
  lemma LiteDigitDrawsGlyph(s: string, c: char, i: nat)
    requires IsDigitChar(c) && i < LITE_HEIGHT
    ensures Lines(LiteCell, s + [c], LITE_HEIGHT)[i] == Lines(LiteCell, s, LITE_HEIGHT)[i] + LiteGlyph(DigitValue(c))[i]
  {
    assert (s + [c])[..|s|] == s;
  }

  /** Drawing `a + b` puts the drawing of `b` to the right of that of `a`. */
  lemma LiteConcat(a: string, b: string)
    ensures forall i :: 0 <= i < LITE_HEIGHT ==>
              Lines(LiteCell, a + b, LITE_HEIGHT)[i] == Lines(LiteCell, a, LITE_HEIGHT)[i] + Lines(LiteCell, b, LITE_HEIGHT)[i]
  {
    LinesConcat(LiteCell, a, b, LITE_HEIGHT);
  }
}
