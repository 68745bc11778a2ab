// src/output/cui/input/keyboard.rs: what a key press does to the display.
// While locked, keys edit the password buffer and Enter tries it; while
// unlocked, 'q' quits, 'l' locks, and a box label copies that box's token to
// the clipboard.  The clipboard is foreign: its outcome is an input here.
// App.HandleKey (app.dfy) applies these functions to the display's state.

module Keyboard {
  import opened Common
  import opened LockState

  /** The part of crossterm's `KeyCode` the handler distinguishes. */
  datatype KeyCode = Char(c: char) | Enter | Backspace | Other(name: string)

  datatype Modifier = Shift | Control | Alt | Super | Hyper | Meta

  datatype KeyEvent = KeyEvent(code: KeyCode, modifiers: set<Modifier>)

  datatype KeyboardAction = Message(text: string) | ErrorMessage(text: string) | NoOp | Exit(text: string)

  /** How `ClipboardContext::new` followed by `set_contents` ends. */
  datatype Clipboard = ClipboardOk | ClipboardFailed(reason: string)

  /** keyevent_to_char: the character of a `Char` key, whatever the modifiers. */
  function KeyeventToChar(key: KeyEvent): (r: Option<char>)
    ensures r.Some? <==> key.code.Char?
    ensures r.Some? ==> r.value == key.code.c
  {
    match key.code
    case Char(c) => Some(c)
    case _ => None
  }

  /** The box labels, in box order. */
  const INDEX_ALPHABET: string := "0123456789abcdefghijklmnop"

  /** `str::find` with a character pattern: the position of its first
      occurrence.  (The source's index is a byte offset, which is the same
      as the character position in an ASCII text such as INDEX_ALPHABET.) */
  function Find(s: string, ch: char): (r: Option<nat>)
    ensures r.None? <==> ch !in s
    ensures r.Some? ==> r.value < |s| && s[r.value] == ch && ch !in s[..r.value]
  {
    if s == [] then None
    else if s[0] == ch then Some(0)
    else
      var r := Find(s[1..], ch);
      assert s == [s[0]] + s[1..];
      if r.None? then None
      else
        assert s[..r.value + 1] == [s[0]] + s[1..][..r.value];
        Some(r.value + 1)
  }

  /** char_to_index: a label's position among the 26 labels. */
  function CharToIndex(ch: char): (r: Option<nat>)
    ensures r.None? <==> ch !in INDEX_ALPHABET
    ensures r.Some? ==> r.value < 26 && INDEX_ALPHABET[r.value] == ch
  {
    Find(INDEX_ALPHABET, ch)
  }

  /** Every label names its own position: the labels are pairwise distinct. */
  lemma CharToIndexOfLabel(i: nat)
    requires i < |INDEX_ALPHABET|
    ensures CharToIndex(INDEX_ALPHABET[i]) == Some(i)
  {
    LabelCodes();
    var r := CharToIndex(INDEX_ALPHABET[i]);
    assert INDEX_ALPHABET[r.value] as int == INDEX_ALPHABET[i] as int;
  }

  /** The labels are the digits and then the letters 'a' to 'p'. */
  lemma LabelCodes()
    ensures |INDEX_ALPHABET| == 26
    ensures forall j :: 0 <= j < 26 ==> INDEX_ALPHABET[j] as int == if j < 10 then 48 + j else 87 + j
  {
  }

  /** A key typed into the password buffer: no modifier, or Shift alone. */
  predicate IsTyping(key: KeyEvent) {
    key.modifiers == {} || key.modifiers == {Shift}
  }

  /** The buffer after `String::pop`: one character fewer, or still empty. */
  function Pop(buffer: string): (r: string)
    ensures buffer == [] ==> r == []
    ensures buffer != [] ==> r + [buffer[|buffer| - 1]] == buffer
  {
    if buffer == [] then [] else buffer[..|buffer| - 1]
  }

  /** The locked branch of handle_key, on the state (the action is always
      NoOp).  Without a password any key unlocks; with one, Enter unlocks
      exactly when the buffer holds the password and empties the buffer
      either way, Backspace drops the last character, and a character typed
      without modifiers other than Shift is appended.  Nothing but the buffer
      and the unlock time changes. */
  function LockedKey(s: State, key: KeyEvent, now: Instant): (t: State)
    requires s.unlockedSince.None?
    ensures t == s.(buffer := t.buffer, unlockedSince := t.unlockedSince)
    ensures t.unlockedSince.Some? ==> t.unlockedSince == Some(now)
    ensures s.lockPassword.None? ==> t.unlockedSince.Some? && t.buffer == s.buffer
    ensures s.lockPassword.Some? ==>
              (t.unlockedSince.Some? <==> key.code.Enter? && s.buffer == s.lockPassword.value)
    ensures s.lockPassword.Some? && key.code.Enter? ==> t.buffer == ""
    ensures s.lockPassword.Some? && key.code.Backspace? ==> t.buffer == Pop(s.buffer)
    ensures s.lockPassword.Some? && key.code.Char? ==>
              t.buffer == if IsTyping(key) then s.buffer + [key.code.c] else s.buffer
    ensures s.lockPassword.Some? && key.code.Other? ==> t == s
  {
    match s.lockPassword
    case None => s.(unlockedSince := Some(now))
    case Some(password) =>
      if key.code == Enter then
        s.(buffer := "", unlockedSince := if s.buffer == password then Some(now) else None)
      else if key.code == Backspace then
        s.(buffer := Pop(s.buffer))
      else if IsTyping(key) && KeyeventToChar(key).Some? then
        s.(buffer := s.buffer + [KeyeventToChar(key).value])
      else
        s
  }

  /** Typing `w` key by key, without modifiers, while a password is set. */
  function TypeWord(s: State, w: string, now: Instant): (t: State)
    requires s.unlockedSince.None? && s.lockPassword.Some?
    ensures t.unlockedSince.None? && t.lockPassword == s.lockPassword
    decreases |w|
  {
    if w == [] then s else TypeWord(LockedKey(s, KeyEvent(Char(w[0]), {}), now), w[1..], now)
  }

  /** Typing appends to the buffer and changes nothing else. */
  lemma {:induction false} TypeWordAppends(s: State, w: string, now: Instant)
    requires s.unlockedSince.None? && s.lockPassword.Some?
    ensures TypeWord(s, w, now) == s.(buffer := s.buffer + w)
    decreases |w|
  {
    if w != [] {
      var s' := LockedKey(s, KeyEvent(Char(w[0]), {}), now);
      TypeWordAppends(s', w[1..], now);
      assert s.buffer + [w[0]] + w[1..] == s.buffer + w;
    }
  }

  /** From an empty buffer, typing the password and pressing Enter unlocks
      the display at that moment and leaves the buffer empty. */
  lemma PasswordUnlocks(s: State, now: Instant)
    requires s.unlockedSince.None? && s.lockPassword.Some? && s.buffer == ""
    ensures LockedKey(TypeWord(s, s.lockPassword.value, now), KeyEvent(Enter, {}), now)
            == s.(unlockedSince := Some(now))
  {
    TypeWordAppends(s, s.lockPassword.value, now);
    assert s.buffer + s.lockPassword.value == s.lockPassword.value;
  }

  /** Enter on anything but the password keeps the display locked and
      discards what was typed. */
  lemma WrongPasswordDiscarded(s: State, key: KeyEvent, now: Instant)
    requires s.unlockedSince.None? && s.lockPassword.Some? && s.buffer != s.lockPassword.value
    requires key.code.Enter?
    ensures LockedKey(s, key, now) == s.(buffer := "")
  {
  }

  /** Backspace undoes one typed character. */
  lemma BackspaceUndoes(s: State, c: char, now: Instant)
    requires s.unlockedSince.None? && s.lockPassword.Some?
    ensures LockedKey(LockedKey(s, KeyEvent(Char(c), {}), now), KeyEvent(Backspace, {}), now) == s
  {
    var t := LockedKey(s, KeyEvent(Char(c), {}), now);
    assert t.buffer[..|t.buffer| - 1] == s.buffer;
  }

  /** The characters Rust's `{:?}` of a `char` writes with a backslash
      escape of two characters. */
  predicate ShortEscaped(c: char) {
    c == '\'' || c == '\\' || c == '\n' || c == '\r' || c == '\t' || c == '\0'
  }

  /** `{:?}` of a `char`, between its quotes: a quote, a backslash, a line
      feed, a carriage return, a tab or NUL is written as a backslash and a
      letter or itself; any other character as itself. */
  function CharDebug(c: char): (r: string)
    ensures ShortEscaped(c) ==> |r| == 2 && r[0] == '\\'
    ensures !ShortEscaped(c) ==> r == [c]
    ensures c == '\'' || c == '\\' ==> r[1] == c
  {
    match c
    case '\'' => "\\'"
    case '\\' => "\\\\"
    case '\n' => "\\n"
    case '\r' => "\\r"
    case '\t' => "\\t"
    case '\0' => "\\0"
    case _ => [c]
  }

  /** Escaping is injective: the text between the quotes of the error
      message names the key's character. */
  lemma CharDebugInjective(a: char, b: char)
    ensures CharDebug(a) == CharDebug(b) ==> a == b
  {
  }

  /** `{:?}` of a key code as it appears in the error message. */
  function KeyCodeDebug(code: KeyCode): string {
    match code
    case Char(c) => "Char('" + CharDebug(c) + "')"
    case Enter => "Enter"
    case Backspace => "Backspace"
    case Other(name) => name
  }

  /** The box a key selects, if any: its label's position, when there are
      that many boxes. */
  function SelectedBox(key: KeyEvent, boxes: nat): (r: Option<nat>)
    ensures r.Some? <==> key.code.Char? && key.code.c in INDEX_ALPHABET && CharToIndex(key.code.c).value < boxes
    ensures r.Some? ==> r.value < boxes && r.value < 26 && INDEX_ALPHABET[r.value] == key.code.c
  {
    match KeyeventToChar(key)
    case None => None
    case Some(ch) =>
      match CharToIndex(ch)
      case None => None
      case Some(i) => if i < boxes then Some(i) else None
  }

  /** The unlocked branch of handle_key: the action returned when `boxes`
      boxes are shown and the clipboard fares as `clipboard`.  'q' and 'l'
      are matched before the labels, whatever the modifiers, so the box
      labelled 'l' cannot be copied from the keyboard. */
  function UnlockedAction(key: KeyEvent, boxes: nat, clipboard: Clipboard): (a: KeyboardAction)
    ensures key.code == Char('q') ==> a == Exit("Pressed <q>, Quitting")
    ensures key.code == Char('l') ==> a == Message("Manually locked")
    ensures !a.NoOp?
    ensures key.code != Char('q') && key.code != Char('l') ==>
              (a == Message("Copied to clipboard") <==> SelectedBox(key, boxes).Some? && clipboard.ClipboardOk?)
    ensures key.code != Char('q') && key.code != Char('l') && SelectedBox(key, boxes).None? ==>
              a == ErrorMessage("Character " + KeyCodeDebug(key.code) + " could not be mapped to existing TOTP")
    ensures key.code != Char('q') && key.code != Char('l') && SelectedBox(key, boxes).Some? && clipboard.ClipboardFailed? ==>
              a == ErrorMessage("Failed to copy to clipboard " + clipboard.reason)
  {
    if key.code == Char('q') then Exit("Pressed <q>, Quitting")
    else if key.code == Char('l') then Message("Manually locked")
    else match SelectedBox(key, boxes)
      case None => ErrorMessage("Character " + KeyCodeDebug(key.code) + " could not be mapped to existing TOTP")
      case Some(_) =>
        match clipboard
        case ClipboardFailed(reason) => ErrorMessage("Failed to copy to clipboard " + reason)
        case ClipboardOk => Message("Copied to clipboard")
  }

  /** The label 'l' (box 21) is shadowed by the lock key. */
  lemma LabelLShadowed(boxes: nat, clipboard: Clipboard)
    requires boxes > 21
    ensures SelectedBox(KeyEvent(Char('l'), {}), boxes) == Some(21)
    ensures UnlockedAction(KeyEvent(Char('l'), {}), boxes, clipboard) == Message("Manually locked")
  {
    CharToIndexOfLabel(21);
  }
}
