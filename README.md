# totp-generator, modelled in Dafny

This project models the core of `totp-generator`, a Rust program that shows
time-based one-time passwords (TOTP, RFC 6238) for the entries of a secrets
file, either once on the console or in a terminal display that refreshes
itself and can be locked. It models these parts:

- **The TOTP engine** (`src/totp.rs`, and the older `src/topt.rs`):
  - the moving factor: the counter of whole time steps;
  - the end of the counter's window;
  - the counter as 8 big-endian bytes;
  - the dynamic truncation of section 5.3 of RFC 4226;
  - the modulus `10u32.pow(digits)`, with its wrap-around;
  - the zero-padded token;
  - the `Totp` struct, which caches one code and regenerates it in place.
- **The display** (`src/output/cui/app.rs`, `src/state.rs`,
  `src/output/cui/input/keyboard.rs`):
  - the lock state machine: locking, unlocking, the password buffer, and
    the automatic lock when a frame is drawn;
  - the key handler;
  - the grid size;
  - `update_totps`, which makes the boxes mirror the secrets-file entries
    after each reload.
- **The boxes** (`src/output/cui/components/totp_box.rs`):
  - creation from an entry;
  - `needs_refresh` and `refresh`;
  - the labels;
  - the "lite" big-digit renderer.
- **The message log** (`src/output/cui/components/messages.rs`): it keeps
  the last 100 status messages.
- **Entry selection** (`get_config` in `src/config/secrets.rs`): by index or
  by code.
- **The big-digit fonts** (`src/output/cui/numbers/utf8.rs`,
  `src/output/cui/numbers/pipe.rs`).

Arithmetic follows Rust's release profile: an overflowing multiplication or
subtraction wraps, and `as u16` truncates. A panic of the program that the
model keeps becomes an `Err`, a `None`, or a precondition, as each member
says. Base32 decoding and HMAC-SHA1 are library calls, so they enter as the
two functions of a `Crypto` value. Every reading of the clock enters as a
`now` or `clock` parameter.

Module map:

| file | module | models |
|---|---|---|
| common.dfy | Common | `Option`, `Result`, the unsigned integer types, powers |
| decimal.dfy | Decimal | `format!("{}")`, `format!("{:0w$}")`, and reading decimal text back |
| totp.dfy | TotpEngine | src/totp.rs |
| topt.dfy | LegacyTotp | src/topt.rs |
| state.dfy | LockState | src/state.rs |
| messages.dfy | MessageLog | src/output/cui/components/messages.rs |
| secrets.dfy | Secrets | src/config/secrets.rs |
| keyboard.dfy | Keyboard | src/output/cui/input/keyboard.rs |
| glyphs.dfy | GlyphText | what the three big-digit renderers share |
| utf8.dfy | Utf8Digits | src/output/cui/numbers/utf8.rs |
| pipe.dfy | PipeDigits | src/output/cui/numbers/pipe.rs |
| totp_box.dfy | TotpBoxes | src/output/cui/components/totp_box.rs |
| app.dfy | Cui | src/output/cui/app.rs |

## Model

| member | source | states |
|---|---|---|
| Decimal.NatToString | src/totp.rs:100 | The unpadded decimal spelling of a number is non-empty and all digits. It has no leading zero unless it is "0". |
| Decimal.ParseNatToString | src/totp.rs:100 | Reading back the decimal spelling of `n` gives `n`. |
| Decimal.NatToStringLength | src/totp.rs:100 | The spelling of `n` fits in `k >= 1` characters exactly when `n < 10^k`. |
| Decimal.PadZeros | src/totp.rs:100 | Zero padding yields `width` characters, or the text unchanged when it is already as long. |
| Decimal.PadZerosShape | src/totp.rs:100 | The padded text ends with the original text and holds only '0' before it. |
| Decimal.PadZerosValue | src/totp.rs:100 | Zero padding keeps the text all digits and does not change its value. |
| Decimal.FormatPadded | src/totp.rs:100 | `{:0w$}` of `n` is at least `w` digits long, and non-empty, and reads back as `n`. |
| Decimal.PaddedLength | src/totp.rs:100 | Below `10^w`, `{:0w$}` has exactly `w` characters. |
| TotpEngine.GetCounter | src/totp.rs:53-62 | The counter is the number of whole steps: `c*step <= t < c*step + step`, where `t` is the timestamp or the clock. |
| TotpEngine.FloorDivUnique | src/totp.rs:61 | `t / step` is the only counter whose window holds `t`. |
| TotpEngine.CounterMonotone | src/totp.rs:53-62 | A later clock reading never gives a smaller counter. |
| TotpEngine.BigEndianRoundTrip | src/totp.rs:81 | Decoding the `n`-byte big-endian encoding of `x` gives `x mod 256^n`. |
| TotpEngine.BigEndianInverse | src/totp.rs:81 | Encoding the value of a byte string with its own length gives the same bytes back. |
| TotpEngine.CounterMessage | src/totp.rs:79-83 | The HMAC message is 8 bytes whose big-endian value is the counter. |
| TotpEngine.CounterBytes | src/totp.rs:80-83 | The byte-by-byte copy into the zeroed 8-byte array yields 8 bytes whose big-endian value is the counter. |
| TotpEngine.Offset | src/totp.rs:91 | The truncation offset is at most 15, so the four bytes read lie inside the 20-byte MAC. |
| TotpEngine.Truncate | src/totp.rs:92-95 | The binary code is the big-endian value of the four bytes at the offset, with the top bit of the first byte cleared. It is below 2^31. |
| TotpEngine.Pow10WrappedZero | src/totp.rs:98 | `10u32.pow(digits)` wraps to 0 exactly when `digits >= 32`. |
| TotpEngine.Pow10Exact | src/totp.rs:98 | Up to 9 digits the power does not wrap. |
| TotpEngine.Generate | src/totp.rs:64-104 | generate_totp returns exactly when the secret decodes, the step is non-zero and `digits < 32`. Otherwise it panics with the first of these that fails. |
| TotpEngine.ForCounter | src/totp.rs:76-103 | Once the counter is known, the result carries that counter and `valid_until = (counter + 1) * step` (wrapping). It fails only on the zero modulus. |
| TotpEngine.GenerateTotp | src/totp.rs:64-104 | The imperative version, with its counter-byte loop, returns what Generate specifies. |
| TotpEngine.GenerateWindow | src/totp.rs:76-77 | The time lies in the counter's window. Unless `(counter + 1) * step` wraps, `valid_until` is that window's end and lies after the time. |
| TotpEngine.NextWindow | src/totp.rs:77 | Without wrap-around, the end of the window of `c` is `(c + 1) * step` and lies after every instant of the window. |
| TotpEngine.TokenShape | src/totp.rs:98-100 | With 1 to 9 digits the token is exactly `digits` decimal characters, whose value is the binary code mod `10^digits`. |
| TotpEngine.TokenLengthBeyondNine | src/totp.rs:98-100 | With 10 to 31 digits the token still has `digits` characters. With 0 digits it is "0". |
| TotpEngine.ZeroDigitsToken | src/totp.rs:98-100 | With 0 digits the modulus is 1 and the token is "0". |
| TotpEngine.DefaultDigits | src/totp.rs:70 | No digit count means six digits. |
| TotpEngine.SameCounterSameOtp | src/totp.rs:76-103 | Two instants with the same counter give the same result. |
| TotpEngine.CounterChangedIffOutsideWindow | src/totp.rs:34-37 | The counter differs from a stored one exactly when the instant lies outside the stored counter's window. |
| TotpEngine.TestVectorWindows | src/totp.rs:116-122 | The counters of the five test instants are as listed in the test. The `valid_until` values that line 77 computes are stated for comparison. |
| TotpEngine.RemainingInWindow | src/totp.rs:26-32 | Inside the window, the remaining seconds are the exact distance to its end, between 1 and the step. They are 0 at the end. |
| TotpEngine.RemainingAfterWindow | src/totp.rs:26-32 | `late` seconds past the end, the wrapping subtraction and the `u16` cast give `65536 - late`. |
| TotpEngine.Stamp | src/totp.rs:49 | `"{} @ {}"` is the token, " @ ", and then the number in decimal with no leading zero, which reads back as the number. |
| TotpEngine.Totp.constructor | src/totp.rs:17-25 | Totp::new holds the code that generate_totp gives at `now`. |
| TotpEngine.Totp.Refresh | src/totp.rs:39-44 | Token, `valid_until` and counter all come from one generate_totp call at `now`. |
| TotpEngine.Totp.NeedsRefresh | src/totp.rs:34-37 | True exactly when `now` is outside the window of the stored counter. |
| TotpEngine.Totp.ValidDuration | src/totp.rs:26-32 | Up to `valid_until`, the seconds left until it, when they fit in a `u16`. Past it, the wrapping subtraction and the cast give `65536` minus the seconds late. |
| TotpEngine.Totp.Display | src/totp.rs:47-51 | Prints the token, " @ ", and then `valid_until` in decimal with no leading zero, which reads back as `valid_until`. |
| LegacyTotp.Display | src/topt.rs:12-16 | Prints the token, " @ ", and then the timestamp in decimal with no leading zero, which reads back as the timestamp. |
| LegacyTotp.GenerateStamped | src/topt.rs:18-54 | The result exists exactly when the secret decodes, the step is non-zero and `digits < 32`. It records the time used. Unless the window end wraps, it is the next multiple of the step after the time. With 1 to 9 digits the token has `digits` decimal characters. |
| LegacyTotp.WindowEnd | src/topt.rs:26-27 | Without wrap-around, `(t/step + 1) * step` is a multiple of the step, and `t` lies in the step before it. |
| LegacyTotp.TokenWidth | src/topt.rs:48-50 | With 1 to 9 digits the padded token has exactly `digits` characters. |
| LegacyTotp.StampedAgreesWithEngine | src/topt.rs:18-54 | The older generate_totp fails exactly when the newer one does, and for the same reason. Otherwise it gives the same token and the same window end. |
| LegacyTotp.SameWindowInTest | src/topt.rs:68-69 | The two test instants share a 30-second window, so they give the same token for any secret. |
| LockState.Default | src/state.rs:14-24 | The initial state is unlocked since `now`. It has no auto-lock when the delay is 0 and auto-locks after that many seconds otherwise. The buffer is empty and the grid is 0 by 0. |
| MessageLog.KeepLast | src/output/cui/components/messages.rs:20-25 | The log holds the last `min(len, max)` entries. |
| MessageLog.PushLimited | src/output/cui/components/messages.rs:20-25 | push_limited appends `v` and drains from the front, so the log holds the last `max` entries of the old log plus `v`. |
| MessageLog.KeepLastPush | src/output/cui/components/messages.rs:20-25 | Trimming before a push keeps what trimming after it would keep. |
| MessageLog.PushAllKeepsLast | src/output/cui/components/messages.rs:11-13 | After any number of pushes, the log is the last `max` messages of its whole history. |
| MessageLog.KeepLastConcat | src/output/cui/components/messages.rs:20-25 | Trimming after one push and then after more pushes equals trimming once at the end. |
| MessageLog.Messages.constructor | src/output/cui/components/messages.rs:6-9 | A new log is empty, and its last message is "". |
| MessageLog.Messages.Push | src/output/cui/components/messages.rs:11-13 | The log keeps at most 100 entries, and `v` is the newest. |
| MessageLog.Messages.Last | src/output/cui/components/messages.rs:15-17 | The newest entry, or "" when the log is empty. |
| Secrets.ParseUsize | src/config/secrets.rs:22 | `parse::<usize>` accepts an optional '+' followed by one or more digits whose value fits in 64 bits. |
| Secrets.ParseUsizeOfDecimal | src/config/secrets.rs:22 | Every index written in decimal, with or without '+', parses back to itself. |
| Secrets.NonDigitIsNotUsize | src/config/secrets.rs:22 | Text with a non-digit after the optional sign is not an index. |
| Secrets.FindByCode | src/config/secrets.rs:25 | The result is nothing exactly when no entry has the code. Otherwise it is the first entry with the code. |
| Secrets.GetConfig | src/config/secrets.rs:20-28 | An argument that parses as an index selects that position, or nothing when it is out of range, without falling back to codes. Any other argument selects the first entry with that code. |
| Keyboard.KeyeventToChar | src/output/cui/input/keyboard.rs:63-68 | The character of a `Char` key, whatever the modifiers. Nothing for any other key. |
| Keyboard.Find | src/output/cui/input/keyboard.rs:71 | `str::find` gives the position of the first occurrence, or nothing when the character is absent. |
| Keyboard.CharToIndex | src/output/cui/input/keyboard.rs:70-72 | A label's position among the 26 labels, or nothing for a character that is not a label. |
| Keyboard.CharToIndexOfLabel | src/output/cui/input/keyboard.rs:70-72 | Every label maps to its own position. |
| Keyboard.LabelCodes | src/output/cui/input/keyboard.rs:71 | The labels are the digits followed by 'a' to 'p'. |
| Keyboard.Pop | src/output/cui/input/keyboard.rs:18 | `String::pop` drops the last character, or leaves an empty buffer empty. |
| Keyboard.LockedKey | src/output/cui/input/keyboard.rs:10-31 | While locked and without a password, any key unlocks. With a password: Enter unlocks exactly when the buffer holds the password, and empties the buffer either way. Backspace pops. A character typed with no modifier or with Shift alone is appended. Any other key changes nothing. Only the buffer and the unlock time ever change. |
| Keyboard.TypeWord | src/output/cui/input/keyboard.rs:19-22 | Typing keeps the display locked and the password unchanged. |
| Keyboard.TypeWordAppends | src/output/cui/input/keyboard.rs:19-22 | Typing a word appends it to the buffer and changes nothing else. |
| Keyboard.PasswordUnlocks | src/output/cui/input/keyboard.rs:13-16 | Typing the password from an empty buffer, then Enter, unlocks at that instant and leaves the buffer empty. |
| Keyboard.WrongPasswordDiscarded | src/output/cui/input/keyboard.rs:14-16 | Enter on anything but the password keeps the display locked and clears the buffer. |
| Keyboard.BackspaceUndoes | src/output/cui/input/keyboard.rs:17-22 | Backspace undoes one typed character. |
| Keyboard.SelectedBox | src/output/cui/input/keyboard.rs:41-44 | A key selects a box exactly when it is a label character whose position is below the number of boxes. |
| Keyboard.UnlockedAction | src/output/cui/input/keyboard.rs:34-59 | While unlocked: 'q' exits and 'l' locks, before any label is looked at. A selected box gives "Copied to clipboard" exactly when the clipboard succeeds, and the clipboard error message otherwise. An unmapped key gives the "could not be mapped" error. The action is never NoOp. |
| Keyboard.CharDebug | src/output/cui/input/keyboard.rs:57 | `{:?}` of a character: a quote, a backslash, a line feed, a carriage return, a tab and NUL become a backslash and one character. Any other character stays as it is. |
| Keyboard.CharDebugInjective | src/output/cui/input/keyboard.rs:57 | Two characters with the same `{:?}` text are the same character. |
| Keyboard.LabelLShadowed | src/output/cui/input/keyboard.rs:37-44 | With 22 or more boxes, 'l' names box 21 but locks the display instead of copying that box's token. |
| GlyphText.Lines | src/output/cui/numbers/utf8.rs:76-84 | A rendering has `height` lines, and line `i` is the cells of the input on line `i`. |
| GlyphText.LineConcat | src/output/cui/numbers/utf8.rs:77-84 | Rendering distributes over concatenation, line by line. |
| GlyphText.LinesConcat | src/output/cui/numbers/utf8.rs:77-84 | On every line at once, the rendering of `a + b` is that of `a` followed by that of `b`. |
| GlyphText.LinePrefixStep | src/output/cui/numbers/utf8.rs:77-84 | Rendering one more character appends that character's cell. |
| GlyphText.LineSingle | src/output/cui/numbers/utf8.rs:77-84 | The rendering of one character is its cell. |
| GlyphText.LineBlankCell | src/output/cui/numbers/utf8.rs:77-84 | A character with an empty cell leaves the line unchanged. |
| GlyphText.LineWidth | src/output/cui/numbers/pipe.rs:18-28 | When every cell on a line has width `w`, the line has width `w` per character. |
| GlyphText.LinesAligned | src/output/cui/numbers/utf8.rs:77-84 | When each character's cells on two lines have equal widths, the two lines have equal widths. |
| Utf8Digits.FontShape | src/output/cui/numbers/utf8.rs:4-75 | Each of the ten glyphs has five rows of one width, 6 or 7 characters. |
| Utf8Digits.FontGet | src/output/cui/numbers/utf8.rs:78 | The font has a glyph exactly for the decimal digits. |
| Utf8Digits.Utf8Font | src/output/cui/numbers/utf8.rs:3-86 | utf8_font returns five lines, each the concatenation of the input's cells: a digit's glyph row plus a space. |
| Utf8Digits.AppendRows | src/output/cui/numbers/utf8.rs:79-82 | The inner loop appends row `i` of the glyph and a space to line `i`, for every line. |
| Utf8Digits.EmptyInput | src/output/cui/numbers/utf8.rs:76 | Empty input gives five empty lines. |
| Utf8Digits.NonDigitDrawsNothing | src/output/cui/numbers/utf8.rs:78 | A character that is not a digit draws nothing. |
| Utf8Digits.DigitDrawsGlyph | src/output/cui/numbers/utf8.rs:79-82 | A digit appends its glyph row `i` and one space to line `i`. |
| Utf8Digits.Concat | src/output/cui/numbers/utf8.rs:77-84 | Drawing `a + b` puts the drawing of `b` to the right of the drawing of `a` (LinesConcat for this font). |
| Utf8Digits.Aligned | src/output/cui/numbers/utf8.rs:4-84 | All five lines have the same width. |
| PipeDigits.DigitsShape | src/output/cui/numbers/pipe.rs:3-14 | Each of the ten glyphs has three rows of three characters. |
| PipeDigits.BigNumberFont | src/output/cui/numbers/pipe.rs:2-30 | big_number_font returns three lines, each the concatenation of the input's cells. |
| PipeDigits.AppendCell | src/output/cui/numbers/pipe.rs:19-27 | One character appends its glyph rows, or three spaces, to every line. |
| PipeDigits.EmptyInput | src/output/cui/numbers/pipe.rs:16 | Empty input gives three empty lines. |
| PipeDigits.NonDigitDrawsBlank | src/output/cui/numbers/pipe.rs:23-27 | A character that is not a digit appends exactly three spaces to every line. |
| PipeDigits.DigitDrawsGlyph | src/output/cui/numbers/pipe.rs:19-22 | A digit appends its glyph row `i` to line `i`. |
| PipeDigits.Concat | src/output/cui/numbers/pipe.rs:18-28 | Drawing `a + b` puts the drawing of `b` to the right of the drawing of `a` (LinesConcat for this font). |
| PipeDigits.Width | src/output/cui/numbers/pipe.rs:3-28 | Every character takes three columns on every line. |
| TotpBoxes.FromEntry | src/output/cui/components/totp_box.rs:26-39 | A new box has the entry's name, code, secret, digits and time step. It holds the code at `now` and that code's remaining seconds. |
| TotpBoxes.NeedsRefreshAt | src/output/cui/components/totp_box.rs:142-145 | True exactly when the cached remaining seconds are stale or `now` is outside the window of the held code. |
| TotpBoxes.Refreshed | src/output/cui/components/totp_box.rs:147-154 | Only the remaining seconds and the code change. The seconds are taken from the code held before any regeneration. Within the window the code is kept; outside it, the code is the one at `now`. |
| TotpBoxes.WindowStartCode | src/output/cui/components/totp_box.rs:150-153 | Every instant in the window of counter `c` gets the code of the window's start, with counter `c`. |
| TotpBoxes.CodeAtConsistent | src/output/cui/components/totp_box.rs:28 | The code generated at `now` is the code of its counter's window, and `now` lies in that window. |
| TotpBoxes.FreshBoxSettled | src/output/cui/components/totp_box.rs:26-39 | A new box needs no refresh at the instant it is made, and it holds the code for its own counter. |
| TotpBoxes.RefreshShowsCurrentCode | src/output/cui/components/totp_box.rs:147-154 | After a refresh the box holds the code of the current window, whether or not it regenerated one. |
| TotpBoxes.RefreshInWindowSettles | src/output/cui/components/totp_box.rs:147-154 | Within the window, a refresh keeps the code and leaves nothing to refresh. |
| TotpBoxes.RefreshTwiceSettles | src/output/cui/components/totp_box.rs:147-154 | Two refreshes at one instant always leave nothing to refresh. |
| TotpBoxes.TotpBox.From | src/output/cui/components/totp_box.rs:26-39 | The box made from an entry is FromEntry of it. |
| TotpBoxes.TotpBox.ValidDuration | src/output/cui/components/totp_box.rs:42-44 | The remaining seconds of the held code at `now`. |
| TotpBoxes.TotpBox.GetToken | src/output/cui/components/totp_box.rs:139-141 | The held code's token. |
| TotpBoxes.TotpBox.NeedsRefresh | src/output/cui/components/totp_box.rs:142-145 | Agrees with NeedsRefreshAt on the box's contents. |
| TotpBoxes.TotpBox.Refresh | src/output/cui/components/totp_box.rs:147-154 | The box's new contents are Refreshed of its old contents, and the box keeps its `Totp` object. |
| TotpBoxes.IndexToChar | src/output/cui/components/totp_box.rs:157-159 | A label exists exactly for indices below 26, and it is that index's character of the label text. |
| TotpBoxes.LabelsRoundTrip | src/output/cui/components/totp_box.rs:157-159 | index_to_char and char_to_index are inverse on the 26 labels, so the key shown on a box selects that box. |
| TotpBoxes.LiteGlyph | src/output/cui/components/totp_box.rs:166-193 | Each lite glyph has six rows. |
| TotpBoxes.Utf8Length | src/output/cui/components/totp_box.rs:195 | `str::len` counts UTF-8 bytes, which are at least the characters. |
| TotpBoxes.Utf8LengthDecimal | src/output/cui/components/totp_box.rs:195 | A decimal token has as many bytes as characters. |
| TotpBoxes.RenderLiteNumberLinesAsWritten | src/output/cui/components/totp_box.rs:165-214 | As written, the renderer panics exactly when the input holds a digit and is shorter than six bytes. Otherwise it returns one line per input byte, each the concatenation of the cells. |
| TotpBoxes.LiteShortTokenPanics | src/output/cui/components/totp_box.rs:195-202 | The 4-digit token "1234" makes the renderer as written index past its output. |
| TotpBoxes.LiteTokenLengths | src/output/cui/components/totp_box.rs:195-202 | A generated token of 1 to 9 digits makes it panic exactly when it has fewer than 6 digits. With more than 6 it gets as many lines as digits. |
| TotpBoxes.RenderLiteNumberLines | src/output/cui/components/totp_box.rs:165-214 | The corrected renderer returns six lines, each the concatenation of the input's cells. |
| TotpBoxes.AppendLiteCell | src/output/cui/components/totp_box.rs:198-207 | One character appends its glyph rows, or seven spaces, to every line. |
| TotpBoxes.LiteAgreesWhereDefined | src/output/cui/components/totp_box.rs:195-208 | Where the renderer as written does not panic, its first six lines are the corrected renderer's. On six-byte input the two agree. |
| TotpBoxes.LiteNonDigitBlank | src/output/cui/components/totp_box.rs:203-207 | A character that is not a digit appends seven spaces to every line. |
| TotpBoxes.LiteDigitDrawsGlyph | src/output/cui/components/totp_box.rs:198-202 | A digit appends its glyph row `i` to line `i`. |
| TotpBoxes.LiteConcat | src/output/cui/components/totp_box.rs:197-208 | Drawing `a + b` puts the drawing of `b` to the right of the drawing of `a` (LinesConcat for this font). |
| Cui.GetRowsAndColumns | src/output/cui/app.rs:158-168 | The grid is one of the seven sizes. It has room for every entry up to 24, never more than 24 cells, and never more rows than columns. |
| Cui.GridIsFirstFit | src/output/cui/app.rs:158-168 | The grid is the first size that holds all entries, or the largest when none does. |
| Cui.GridMonotone | src/output/cui/app.rs:158-168 | More entries never give fewer rows or fewer columns. |
| Cui.GridCellsLabelled | src/output/cui/app.rs:126-142 | Every cell of the grid has a label, so the label lookup for a drawn box never panics. |
| Cui.AutoLocked | src/output/cui/app.rs:92-106 | At a frame, the display becomes locked exactly when it was locked already, or its lock delay has elapsed since the unlock. Nothing else changes. |
| Cui.NoDelayNeverLocks | src/output/cui/app.rs:94-102 | Without a lock delay the display never locks by itself, whatever the clock reads. |
| Cui.AutoLockMonotone | src/output/cui/app.rs:94-101 | Once the delay has elapsed, every later frame also finds it elapsed. |
| Cui.AutoLockIdempotent | src/output/cui/app.rs:92-106 | Drawing twice at one instant locks no more than drawing once. |
| Cui.LoadedSecrets | src/output/cui/app.rs:172-185 | A load error drops the entries. A changed file replaces them. An unchanged file keeps them. |
| Cui.LoadMessage | src/output/cui/app.rs:172-185 | A load error and a changed file each add their message. An unchanged file adds none. |
| Cui.Stamped | src/output/cui/app.rs:39-44 | A status message is "[", the formatted time, "] " and the message. |
| Cui.Reconciled | src/output/cui/app.rs:196-203 | A kept box is refreshed exactly when it needs a refresh. |
| Cui.ReconciledShowsCurrentCode | src/output/cui/app.rs:196-203 | A kept box holds the code of the current window afterwards. |
| Cui.ReconciledAt | src/output/cui/app.rs:191-208 | Position `i` ends with a box that has the entry's code and holds the current window's code. A new box takes all of the entry's settings, which must be usable. A kept box keeps its own settings, whatever the entry's are. |
| Cui.Reconcile | src/output/cui/app.rs:186-208 | There is one box per entry, in order, each reconciled at its position, and every box holds the code for its own counter. Only entries that get a new box need usable settings. |
| Cui.ReconcileIgnoresExtra | src/output/cui/app.rs:186-190 | Truncating surplus boxes first changes neither the result nor whether anything is touched. |
| Cui.UntouchedUnchanged | src/output/cui/app.rs:191-208 | When nothing is touched and the counts match, the boxes stay as they were. |
| Cui.ReconcileSettles | src/output/cui/app.rs:170-210 | After two passes at one instant, a third touches nothing and changes nothing. |
| Cui.Put | src/output/cui/app.rs:194-205 | Setting position `i`, or appending at the end, changes only position `i`. |
| Cui.SamePosition | src/output/cui/app.rs:192-207 | Two box lists that agree at position `i` are reconciled alike there. |
| Cui.PutStep | src/output/cui/app.rs:191-208 | One loop step keeps the finished prefix equal to the target and the untouched suffix equal to the old boxes. |
| Cui.App.constructor | src/output/cui/app.rs:30-37 | App::new has no boxes, no entries and an empty log. |
| Cui.App.IsLocked | src/output/cui/app.rs:146-148 | Locked exactly when there is no unlock time. |
| Cui.App.Lock | src/output/cui/app.rs:154-156 | Locking forgets the unlock time and nothing else. The password buffer is kept. |
| Cui.App.Unlock | src/output/cui/app.rs:150-152 | Unlocking sets the unlock time to `now` and changes nothing else. |
| Cui.App.Render | src/output/cui/app.rs:92-106 | The new state is AutoLocked of the old one. The locked screen is drawn exactly when the display is then locked. |
| Cui.App.AddMessage | src/output/cui/app.rs:39-44 | `"[time] message"` becomes the newest of the last 100 messages. |
| Cui.App.HandleKey | src/output/cui/input/keyboard.rs:7-60 | While locked, the state is LockedKey of the old state and the action is NoOp. While unlocked, the action is UnlockedAction, 'l' locks, and a box's token is copied exactly when a label selects it and the clipboard succeeds. |
| Cui.App.ApplyLoad | src/output/cui/app.rs:172-185 | The entries become LoadedSecrets, the log gets LoadMessage, and the result says whether the file changed. |
| Cui.App.ReconcileAt | src/output/cui/app.rs:192-207 | One loop step puts ReconciledAt at position `i`, and reports whether it touched it. |
| Cui.App.ReconcileBoxes | src/output/cui/app.rs:191-208 | The loop leaves exactly the boxes of Reconcile, and reports whether any position was touched. |
| Cui.App.UpdateTotps | src/output/cui/app.rs:170-210 | The boxes become Reconcile of the old boxes and the new entries: one per entry, with the entry's code. The result is true exactly when the file changed, the box count was wrong, or a position was touched. Only entries that get a new box need usable settings. |

## Left out

- Reading and parsing the secrets file is left out: `load_config` and the TOML loader are I/O. The entries, and the outcome of the reloading store (`LoadResult`), are inputs.
- Drawing is left out: the ratatui layouts and widgets, the gauge, and `font_to_lines`. The model keeps the parts that decide what is drawn: the locked-screen check, the grid size, the labels, and the digit renderers.
- The timer and the event loop are left out: `totp_changed`, `run_app`, and the `tokio::select!`. They only call Render, UpdateTotps, HandleKey and AddMessage, which are modelled.
- `main.rs`, the console and one-time outputs, the web server, the QR readers, logging and `configuration.rs` are not part of this model.
- Cui.App.HandleKey does not write to the clipboard: clipboard access is foreign. Its outcome is the input `clipboard`, and the token that would be copied is returned in `copied`.
- Keyboard.KeyCodeDebug approximates crossterm's `{:?}` for key codes other than characters, Enter and Backspace: each is represented by a name carried in the key code.
- Keyboard.CharDebug escapes a quote, a backslash, a line feed, a carriage return, a tab and NUL as Rust's `{:?}` of a `char` does. It does not model the `\u{...}` escape Rust writes for other control and non-printable characters, which needs Unicode's property tables.
- Cui.App.AddMessage takes the formatted local time as a parameter: reading the clock and time-zone formatting are foreign.
- Every `SystemTime::now()` is one instant given to each call. The source reads the clock several times within one call (for example in needs_refresh and then refresh), and the model does not capture the clock moving between those reads. Instants are whole seconds.
- Cui.AutoLocked and Cui.App.Render require the clock to read no earlier than the unlock time only when a lock delay is set. Only then does the source compute the elapsed time, and it panics (`expect("Issue computing duration")`) when the clock reads earlier. That panic is not modelled. Without a lock delay, a clock set back is accepted and nothing locks.
- TotpBoxes.FromEntry and TotpBoxes.TotpBox.From require the entry's secret, time step and digit count to be usable, and Cui.App.UpdateTotps requires this of every entry it builds a new box for: an entry whose code differs from the box at its position, or that has no box. With such an unusable entry the source panics inside generate_totp. That panic path is modelled in TotpEngine.Generate, not in the display. An entry whose position keeps its box may be unusable, as in the source, which then reads only its code.
- Cui.App holds its boxes as values (`TotpBoxes.BoxView`), not as `TotpBox` objects. TotpBoxes.TotpBox is proved to agree with FromEntry, NeedsRefreshAt and Refreshed. The display does not model the boxes as separate objects on the heap, which cannot be shared since `Vec<TotpBox>` owns them.
- src/config/secrets.rs:4-8 declares `ConfigEntry` without `timestep` and `digits`, yet totp_box.rs:28-34 reads both. The model gives `Secrets.ConfigEntry` those two fields, typed as the box stores them: a `u16` time step and a `u8` digit count. The box passes `Some(digits)` to the engine.
- `str::len` is modelled by TotpBoxes.Utf8Length over Unicode scalar values. Dafny strings here are sequences of scalar values, with no surrogate handling.
- The pipe digit glyphs appear in the repository as mis-decoded text. The model uses the double-line box-drawing characters that text stands for, three per row.
- PipeDigits.DigitsShape: holds of the decoded glyphs only. The literals as they stand in pipe.rs:4-13 have rows of 5, 7 or 9 characters, and the rows of one digit differ in width.
- PipeDigits.Width: the width of `3 * |s|` per line holds of the decoded glyphs only. With the literals as they stand, the program's lines are wider and not aligned with one another.
- The lite glyphs do not all have one width: the top row of '7' is 7 characters and its other rows are 8. So the model proves no alignment lemma for the lite renderer.
- The unit test in src/totp.rs:116-122 expects `valid_until` values (1748742659, 1748742679, ...) that disagree with line 77, which gives 1748742660 for the first case. The model follows line 77, and TotpEngine.TestVectorWindows states the values line 77 computes. The tokens of the test depend on HMAC-SHA1, which is a parameter here, so they are not stated.
- Cui.ReconciledAt: a kept box keeps its own name, secret, digits and time step even when the entry's have changed, because update_totps compares only the codes. The model states this as the source does it.
- Locking keeps the password buffer: app.rs:154-156 only resets the unlock time.

## Findings

| source | as written | input that shows it | evidently intended | confidence | as-written member | corrected member |
|---|---|---|---|---|---|---|
| src/output/cui/components/totp_box.rs:195-202 | The lite renderer allocates one output line per input byte (`input.len()`), then writes a digit's six glyph rows to `output[0..6]`. | The token "1234": 4 lines are allocated, and `output[4]` is indexed, so it panics. Every token of 1 to 5 digits panics the same way, and tokens of 7 to 9 digits get extra lines that only non-digits fill. | Six output lines, the glyph height, whatever the input length. | not executed | TotpBoxes.RenderLiteNumberLinesAsWritten, TotpBoxes.LiteShortTokenPanics, TotpBoxes.LiteTokenLengths | TotpBoxes.RenderLiteNumberLines, TotpBoxes.LiteAgreesWhereDefined |
