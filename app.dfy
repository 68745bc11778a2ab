// src/output/cui/app.rs: the interactive display.  It holds one box per
// secrets-file entry, the lock state and the message log.  Modelled here:
// locking and unlocking, the automatic lock when a frame is drawn, key
// handling, the grid size, the status messages, and update_totps, which
// makes the boxes mirror the entries after each reload of the secrets file.
// Drawing, the timer and the event loop are not part of the model.

module Cui {
  import opened Common
  import opened TotpEngine
  import opened LockState
  import opened Secrets
  import opened MessageLog
  import opened Keyboard
  import opened TotpBoxes

  /** What the reloading secrets store reports: an error, or whether the
      file has changed together with its entries. */
  datatype LoadResult = LoadError(err: string) | Loaded(changed: bool, entries: seq<ConfigEntry>)

  /** The grid sizes, smallest first. */
  const GRIDS: seq<(u8, u8)> := [(2, 2), (2, 3), (3, 3), (3, 4), (4, 4), (4, 5), (4, 6)]

  function Cells(rc: (u8, u8)): nat {
    rc.0 as nat * rc.1 as nat
  }

  /** get_rows_and_columns, on the number of entries. */
  function GetRowsAndColumns(n: nat): (rc: (u8, u8))
    ensures rc in GRIDS
    ensures n <= 24 ==> n <= Cells(rc)
    ensures Cells(rc) <= 24 && rc.0 <= rc.1
  {
    if n <= 4 then (2, 2)
    else if n <= 6 then (2, 3)
    else if n <= 9 then (3, 3)
    else if n <= 12 then (3, 4)
    else if n <= 16 then (4, 4)
    else if n <= 20 then (4, 5)
    else (4, 6)
  }

  /** The grid is the first size in GRIDS that holds every entry, or the
      largest when none does. */
  lemma GridIsFirstFit(n: nat, k: nat)
    requires k < |GRIDS| && GetRowsAndColumns(n) == GRIDS[k]
    ensures forall j :: 0 <= j < k ==> Cells(GRIDS[j]) < n
    ensures k < |GRIDS| - 1 ==> n <= Cells(GRIDS[k])
  {
  }

  /** More entries never give a smaller grid. */
  lemma GridMonotone(n1: nat, n2: nat)
    requires n1 <= n2
    ensures GetRowsAndColumns(n1).0 <= GetRowsAndColumns(n2).0
    ensures GetRowsAndColumns(n1).1 <= GetRowsAndColumns(n2).1
  {
  }

  /** Every cell of the grid has a label, so the label lookup of a drawn
      box never fails. */
  lemma GridCellsLabelled(n: nat, i: u8)
    requires i as nat < Cells(GetRowsAndColumns(n))
    ensures IndexToChar(i).Some?
  {
  }

  /** The automatic lock of render, on the state: an unlocked display whose
      lock delay has elapsed since it was unlocked becomes locked; nothing
      else changes.  (With a lock delay set, the source panics when the clock
      reads earlier than the unlock time; that case is excluded here.) */
  function AutoLocked(s: State, now: Instant): (t: State)
    requires s.unlockedSince.Some? && s.lockAfter.Some? ==> s.unlockedSince.value <= now
    ensures t == s.(unlockedSince := t.unlockedSince)
    ensures t.unlockedSince.None? <==>
              s.unlockedSince.None? || (s.lockAfter.Some? && now - s.unlockedSince.value >= s.lockAfter.value)
    ensures t.unlockedSince.Some? ==> t.unlockedSince == s.unlockedSince
  {
    match s.unlockedSince
    case None => s
    case Some(since) =>
      match s.lockAfter
      case Some(d) => if now - since >= d then s.(unlockedSince := None) else s
      case None => s
  }

  /** Without a lock delay the display never locks by itself. */
  lemma NoDelayNeverLocks(s: State, now: Instant)
    requires s.lockAfter.None?
    ensures AutoLocked(s, now) == s
  {
  }

  /** Once the delay has elapsed the display stays locked at every later
      frame; before it, it stays unlocked. */
  lemma AutoLockMonotone(s: State, now1: Instant, now2: Instant)
    requires s.unlockedSince.Some? && s.unlockedSince.value <= now1 <= now2
    ensures AutoLocked(s, now1).unlockedSince.None? ==> AutoLocked(s, now2).unlockedSince.None?
  {
  }

  /** Drawing twice at the same instant locks no more than drawing once. */
  lemma AutoLockIdempotent(s: State, now: Instant)
    requires s.unlockedSince.Some? && s.lockAfter.Some? ==> s.unlockedSince.value <= now
    ensures AutoLocked(AutoLocked(s, now), now) == AutoLocked(s, now)
  {
  }

  /** The state after the boxes' data are loaded: on an error the entries
      are dropped, and they are replaced only when the file has changed. */
  function LoadedSecrets(secrets: seq<ConfigEntry>, load: LoadResult): (r: seq<ConfigEntry>)
    ensures load.LoadError? ==> r == []
    ensures load.Loaded? && load.changed ==> r == load.entries
    ensures load.Loaded? && !load.changed ==> r == secrets
  {
    match load
    case LoadError(_) => []
    case Loaded(changed, entries) => if changed then entries else secrets
  }

  /** The status message a load adds, if any. */
  function LoadMessage(load: LoadResult): (m: Option<string>)
    ensures load.LoadError? ==> m == Some("Error loading secrets file " + load.err)
    ensures load.Loaded? ==> (m.Some? <==> load.changed)
    ensures load.Loaded? && load.changed ==> m == Some("Secrets file has changed, reloading")
  {
    match load
    case LoadError(err) => Some("Error loading secrets file " + err)
    case Loaded(changed, _) => if changed then Some("Secrets file has changed, reloading") else None
  }

  /** A status-line entry: "[{time}] {message}", the time already formatted. */
  function Stamped(stamp: string, message: string): (s: string)
    ensures |s| == |stamp| + |message| + 3
    ensures s[0] == '[' && s[1..|stamp| + 1] == stamp && s[|stamp| + 1..|stamp| + 3] == "] "
    ensures s[|stamp| + 3..] == message
  {
    "[" + stamp + "] " + message
  }

  /** What a box kept by update_totps becomes: refreshed when it needs it. */
  function Reconciled(crypto: Crypto, b: BoxView, now: u64): (r: BoxView)
    requires b.Usable(crypto)
    ensures !NeedsRefreshAt(b, now) ==> r == b
    ensures NeedsRefreshAt(b, now) ==> r == Refreshed(crypto, b, now)
  {
    if NeedsRefreshAt(b, now) then Refreshed(crypto, b, now) else b
  }

  /** A kept box shows the code of the current window afterwards. */
  lemma ReconciledShowsCurrentCode(crypto: Crypto, b: BoxView, now: u64)
    requires b.Consistent(crypto)
    ensures Reconciled(crypto, b, now).Consistent(crypto)
    ensures Reconciled(crypto, b, now).otp == CodeAt(crypto, b.secret, b.timestep, b.digits, now)
  {
    RefreshShowsCurrentCode(crypto, b, now);
  }

  /** Whether update_totps keeps box `i` of `views` for entry `e`: there is
      a box at `i` and its code is the entry's. */
  predicate Keeps(views: seq<BoxView>, i: nat, e: ConfigEntry) {
    i < |views| && views[i].code == e.code
  }

  /** Whether update_totps touches position `i`: it puts a new box there, or
      the box it keeps needs a refresh. */
  predicate Touches(views: seq<BoxView>, i: nat, e: ConfigEntry, now: u64) {
    !Keeps(views, i, e) || (views[i].timestep > 0 && NeedsRefreshAt(views[i], now))
  }

  /** Every box holds the code for its own counter. */
  predicate AllConsistent(crypto: Crypto, views: seq<BoxView>) {
    forall j :: 0 <= j < |views| ==> views[j].Consistent(crypto)
  }

  /** Every entry that update_totps turns into a new box can be turned into
      one.  An entry whose position keeps its box is never read beyond its
      code, so its secret, time step and digits may be anything. */
  predicate UsableWhereNew(crypto: Crypto, views: seq<BoxView>, entries: seq<ConfigEntry>) {
    forall j :: 0 <= j < |entries| && !Keeps(views, j, entries[j]) ==> Usable(crypto, entries[j])
  }

  /** What position `i` holds after update_totps: the kept box, reconciled,
      or a new box for the entry.  Either way it has the entry's code and
      holds the code of the current window for its own settings.  A new box
      takes all of the entry's settings; a kept box keeps its own name,
      secret, digits and time step, even when the entry's have changed. */
  function ReconciledAt(crypto: Crypto, views: seq<BoxView>, i: nat, e: ConfigEntry, now: u64): (b: BoxView)
    requires !Keeps(views, i, e) ==> Usable(crypto, e)
    requires Keeps(views, i, e) ==> views[i].Consistent(crypto)
    ensures b.code == e.code
    ensures b.Consistent(crypto) && b.otp == CodeAt(crypto, b.secret, b.timestep, b.digits, now)
    ensures !Keeps(views, i, e) ==>
              b.name == e.name && b.secret == e.secret && b.digits == e.digits && b.timestep == e.timestep
    ensures Keeps(views, i, e) ==>
              b.name == views[i].name && b.secret == views[i].secret &&
              b.digits == views[i].digits && b.timestep == views[i].timestep
  {
    if Keeps(views, i, e) then
      ReconciledShowsCurrentCode(crypto, views[i], now);
      Reconciled(crypto, views[i], now)
    else
      FreshBoxSettled(crypto, e, now);
      FromEntry(crypto, e, now)
  }

  /** The boxes after update_totps, on values: one per entry, in order. */
  function Reconcile(crypto: Crypto, views: seq<BoxView>, entries: seq<ConfigEntry>, now: u64): (r: seq<BoxView>)
    requires AllConsistent(crypto, views) && UsableWhereNew(crypto, views, entries)
    ensures |r| == |entries|
    ensures forall i :: 0 <= i < |entries| ==> r[i] == ReconciledAt(crypto, views, i, entries[i], now)
    ensures AllConsistent(crypto, r)
  {
    seq(|entries|, i requires 0 <= i < |entries| => ReconciledAt(crypto, views, i, entries[i], now))
  }

  /** Whether update_totps touches any position. */
  predicate AnyTouched(views: seq<BoxView>, entries: seq<ConfigEntry>, now: u64) {
    exists i :: 0 <= i < |entries| && Touches(views, i, entries[i], now)
  }

  /** Boxes beyond the last entry play no part: truncating them first
      changes nothing. */
  lemma ReconcileIgnoresExtra(crypto: Crypto, views: seq<BoxView>, entries: seq<ConfigEntry>, now: u64)
    requires AllConsistent(crypto, views) && UsableWhereNew(crypto, views, entries)
    ensures AllConsistent(crypto, views[..Min(|entries|, |views|)])
    ensures UsableWhereNew(crypto, views[..Min(|entries|, |views|)], entries)
    ensures Reconcile(crypto, views[..Min(|entries|, |views|)], entries, now) == Reconcile(crypto, views, entries, now)
    ensures AnyTouched(views[..Min(|entries|, |views|)], entries, now) <==> AnyTouched(views, entries, now)
  {
    var t := views[..Min(|entries|, |views|)];
    assert forall i :: 0 <= i < |entries| ==> (Keeps(t, i, entries[i]) <==> Keeps(views, i, entries[i]));
    assert forall i :: 0 <= i < |entries| ==> (Touches(t, i, entries[i], now) <==> Touches(views, i, entries[i], now));
  }

  /** When update_totps touches nothing and there are as many boxes as
      entries, the boxes are left as they were. */
  lemma UntouchedUnchanged(crypto: Crypto, views: seq<BoxView>, entries: seq<ConfigEntry>, now: u64)
    requires AllConsistent(crypto, views) && UsableWhereNew(crypto, views, entries)
    requires |views| == |entries| && !AnyTouched(views, entries, now)
    ensures Reconcile(crypto, views, entries, now) == views
  {
    var r := Reconcile(crypto, views, entries, now);
    forall i | 0 <= i < |entries|
      ensures r[i] == views[i]
    {
      assert !Touches(views, i, entries[i], now);
    }
  }

  /** Two passes of update_totps at one instant settle the boxes: a third
      touches nothing and changes nothing.  (One pass may not do: a box
      refreshed out of its window caches the remaining seconds of its old
      code.) */
  lemma ReconcileSettles(crypto: Crypto, views: seq<BoxView>, entries: seq<ConfigEntry>, now: u64)
    requires AllConsistent(crypto, views) && UsableWhereNew(crypto, views, entries)
    ensures var r2 := Reconcile(crypto, Reconcile(crypto, views, entries, now), entries, now);
            !AnyTouched(r2, entries, now) && Reconcile(crypto, r2, entries, now) == r2
  {
    var r1 := Reconcile(crypto, views, entries, now);
    var r2 := Reconcile(crypto, r1, entries, now);
    forall i | 0 <= i < |entries|
      ensures !Touches(r2, i, entries[i], now)
    {
      var b := if Keeps(views, i, entries[i]) then views[i] else FromEntry(crypto, entries[i], now);
      if !Keeps(views, i, entries[i]) {
        FreshBoxSettled(crypto, entries[i], now);
      }
      if NeedsRefreshAt(b, now) {
        RefreshTwiceSettles(crypto, b, now);
      }
    }
    UntouchedUnchanged(crypto, r2, entries, now);
  }

  /** A sequence with position `i` set to `v`, or `v` appended when `i` is
      just past its end. */
  function Put<T>(s: seq<T>, i: nat, v: T): (r: seq<T>)
    requires i <= |s|
    ensures |r| == if i < |s| then |s| else i + 1
    ensures r[i] == v && forall j :: 0 <= j < |s| && j != i ==> r[j] == s[j]
  {
    if i < |s| then s[i := v] else s + [v]
  }

  /** Position `i` is reconciled alike in two lists of boxes that agree there. */
  lemma SamePosition(crypto: Crypto, a: seq<BoxView>, b: seq<BoxView>, i: nat, e: ConfigEntry, now: u64)
    requires (i < |a| <==> i < |b|) && (i < |a| ==> a[i] == b[i])
    requires !Keeps(a, i, e) ==> Usable(crypto, e)
    requires i < |a| ==> a[i].Consistent(crypto)
    ensures ReconciledAt(crypto, a, i, e, now) == ReconciledAt(crypto, b, i, e, now)
    ensures Touches(a, i, e, now) <==> Touches(b, i, e, now)
  {
  }

  /** One step of a left-to-right pass that overwrites or appends position
      `i` with the target's element. */
  lemma PutStep<T>(s: seq<T>, views: seq<T>, target: seq<T>, i: nat, v: T)
    requires i <= |s| && i < |target| && v == target[i]
    requires |s| == if i <= |views| then |views| else i
    requires forall j :: 0 <= j < i ==> s[j] == target[j]
    requires forall j :: i <= j < |views| ==> s[j] == views[j]
    ensures |Put(s, i, v)| == if i + 1 <= |views| then |views| else i + 1
    ensures forall j :: 0 <= j < i + 1 ==> Put(s, i, v)[j] == target[j]
    ensures forall j :: i + 1 <= j < |views| ==> Put(s, i, v)[j] == views[j]
  {
  }

  /** The display.  Its boxes are values: the vector of boxes owns them, so
      no two positions share anything, and a box is changed by replacing it
      with its refreshed contents (TotpBox's methods are proved to agree with
      FromEntry, NeedsRefreshAt and Refreshed). */
  class App {
    var totps: seq<BoxView>
    var state: State
    var secrets: seq<ConfigEntry>
    const messages: Messages

    /** Every box holds the code for its own counter. */
    ghost predicate BoxesConsistent(crypto: Crypto)
      reads this
    {
      AllConsistent(crypto, totps)
    }

    /** App::new: no boxes, no entries, an empty log. */
    constructor (state: State)
      ensures this.state == state && totps == [] && secrets == [] && messages.messages == []
      ensures fresh(messages)
    {
      this.state := state;
      totps := [];
      secrets := [];
      messages := new Messages();
    }

    /** App::is_locked. */
    function IsLocked(): (b: bool)
      reads this
      ensures b <==> state.unlockedSince.None?
    {
      state.unlockedSince.None?
    }

    /** App::lock: forget the unlock time, and nothing else; in particular
        the password buffer is kept. */
    method Lock()
      modifies this
      ensures state == old(state).(unlockedSince := None) && IsLocked()
      ensures totps == old(totps) && secrets == old(secrets)
    {
      state := state.(unlockedSince := None);
    }

    /** App::unlock: unlocked since `now`. */
    method Unlock(now: Instant)
      modifies this
      ensures state == old(state).(unlockedSince := Some(now)) && !IsLocked()
      ensures totps == old(totps) && secrets == old(secrets)
    {
      state := state.(unlockedSince := Some(now));
    }

    /** The lock check of render: locks the display when its delay has run
        out, and reports whether the locked screen is drawn. */
    method Render(now: Instant) returns (locked: bool)
      requires state.unlockedSince.Some? && state.lockAfter.Some? ==> state.unlockedSince.value <= now
      modifies this
      ensures state == AutoLocked(old(state), now)
      ensures locked <==> state.unlockedSince.None?
      ensures totps == old(totps) && secrets == old(secrets)
      decreases state.unlockedSince.Some?
    {
      if state.unlockedSince.Some? {
        var since := state.unlockedSince.value;
        if state.lockAfter.Some? && now - since >= state.lockAfter.value {
          Lock();
          locked := Render(now);
          return;
        }
        locked := false;
      } else {
        locked := true;
      }
    }

    /** App::add_message: "[{time}] {message}" at the end of the log. */
    method AddMessage(stamp: string, message: string)
      modifies messages
      ensures messages.messages == KeepLast(old(messages.messages) + [Stamped(stamp, message)], MAX_MESSAGES)
      ensures messages.Last() == Stamped(stamp, message)
    {
      messages.Push(Stamped(stamp, message));
    }

    /** handle_key.  Locked: the key edits the password buffer or unlocks
        (LockedKey), and the action is NoOp.  Unlocked: the action is
        UnlockedAction, 'l' locks, and a copied token is reported in
        `copied`. */
    method HandleKey(key: KeyEvent, now: Instant, clipboard: Clipboard)
      returns (action: KeyboardAction, copied: Option<string>)
      modifies this
      ensures totps == old(totps) && secrets == old(secrets)
      ensures old(state).unlockedSince.None? ==>
                action == NoOp && copied == None && state == LockedKey(old(state), key, now)
      ensures old(state).unlockedSince.Some? ==>
                action == UnlockedAction(key, |totps|, clipboard) &&
                state == (if key.code == Char('l') then old(state).(unlockedSince := None) else old(state))
      ensures copied.Some? <==>
                old(state).unlockedSince.Some? && key.code != Char('q') && key.code != Char('l') &&
                SelectedBox(key, |totps|).Some? && clipboard.ClipboardOk?
      ensures copied.Some? ==> copied.value == totps[SelectedBox(key, |totps|).value].otp.token
    {
      copied := None;
      if IsLocked() {
        state := LockedKey(state, key, now);
        return NoOp, None;
      }
      if key.code == Char('q') {
        return Exit("Pressed <q>, Quitting"), None;
      }
      if key.code == Char('l') {
        Lock();
        return Message("Manually locked"), None;
      }
      action := UnlockedAction(key, |totps|, clipboard);
      match SelectedBox(key, |totps|) {
        case Some(i) =>
          if clipboard.ClipboardOk? {
            copied := Some(totps[i].otp.token);
          }
        case None =>
      }
    }

    /** The load step of update_totps: on an error the entries are dropped
        and the error is logged; a changed file replaces the entries and is
        logged.  The result says whether the file changed. */
    method ApplyLoad(crypto: Crypto, load: LoadResult, stamp: string) returns (changed: bool)
      modifies this, messages
      ensures state == old(state) && totps == old(totps)
      ensures secrets == LoadedSecrets(old(secrets), load)
      ensures LoadMessage(load).None? ==> messages.messages == old(messages.messages)
      ensures LoadMessage(load).Some? ==>
                messages.messages == KeepLast(old(messages.messages) + [Stamped(stamp, LoadMessage(load).value)], MAX_MESSAGES)
      ensures changed <==> load.Loaded? && load.changed
    {
      changed := false;
      match load {
        case LoadError(err) =>
          secrets := [];
          AddMessage(stamp, "Error loading secrets file " + err);
        case Loaded(c, entries) =>
          changed := c;
          if c {
            secrets := entries;
            AddMessage(stamp, "Secrets file has changed, reloading");
          }
      }
    }

    /** One step of update_totps's loop: position `i` is made to show entry
        `i`.  A box with the entry's code is kept and refreshed if it needs
        it; otherwise a new box replaces it, or is appended when there is
        none.  The result says whether the position was touched. */
    method ReconcileAt(crypto: Crypto, i: nat, now: u64) returns (touched: bool)
      requires i < |secrets| && i <= |totps|
      requires !Keeps(totps, i, secrets[i]) ==> Usable(crypto, secrets[i])
      requires i < |totps| ==> totps[i].Consistent(crypto)
      modifies this
      ensures state == old(state) && secrets == old(secrets)
      ensures totps == Put(old(totps), i, ReconciledAt(crypto, old(totps), i, secrets[i], now))
      ensures touched <==> Touches(old(totps), i, secrets[i], now)
    {
      ghost var next := ReconciledAt(crypto, totps, i, secrets[i], now);
      ghost var prev := totps;
      var entry := secrets[i];
      if i < |totps| {
        if entry.code != totps[i].code {
          totps := totps[i := FromEntry(crypto, entry, now)];
          touched := true;
        } else if NeedsRefreshAt(totps[i], now) {
          totps := totps[i := Refreshed(crypto, totps[i], now)];
          touched := true;
        } else {
          touched := false;
        }
      } else {
        totps := totps + [FromEntry(crypto, entry, now)];
        touched := true;
      }
      assert totps == Put(prev, i, next);
    }

    /** The loop of update_totps over the entries, in order, once surplus
        boxes are gone.  The result says whether a position was touched. */
    method ReconcileBoxes(crypto: Crypto, now: u64) returns (touched: bool)
      requires BoxesConsistent(crypto) && UsableWhereNew(crypto, totps, secrets) && |totps| <= |secrets|
      modifies this
      ensures BoxesConsistent(crypto)
      ensures state == old(state) && secrets == old(secrets)
      ensures totps == Reconcile(crypto, old(totps), secrets, now)
      ensures touched <==> AnyTouched(old(totps), secrets, now)
    {
      ghost var views := totps;
      ghost var target := Reconcile(crypto, views, secrets, now);
      touched := false;
      var i := 0;
      while i < |secrets|
        invariant 0 <= i <= |secrets|
        invariant state == old(state) && secrets == old(secrets)
        invariant |totps| == if i <= |views| then |views| else i
        invariant forall j :: i <= j < |views| ==> totps[j] == views[j]
        invariant forall j :: 0 <= j < i ==> totps[j] == target[j]
        invariant touched <==> exists j :: 0 <= j < i && Touches(views, j, secrets[j], now)
      {
        SamePosition(crypto, totps, views, i, secrets[i], now);
        ghost var prev := totps;
        var t := ReconcileAt(crypto, i, now);
        PutStep(prev, views, target, i, target[i]);
        touched := touched || t;
        i := i + 1;
      }
    }

    /** update_totps: after the load, the boxes are those of Reconcile, one
        per entry, in order: a box whose code still matches its entry is
        kept and refreshed when it needs it; every other position gets a new
        box.  The result says whether anything is to be redrawn: the file
        changed, the number of boxes was wrong, or a position was touched. */
    method UpdateTotps(crypto: Crypto, load: LoadResult, now: u64, stamp: string) returns (hasChanged: bool)
      requires BoxesConsistent(crypto) && UsableWhereNew(crypto, totps, LoadedSecrets(secrets, load))
      modifies this, messages
      ensures BoxesConsistent(crypto)
      ensures state == old(state)
      ensures secrets == LoadedSecrets(old(secrets), load)
      ensures LoadMessage(load).None? ==> messages.messages == old(messages.messages)
      ensures LoadMessage(load).Some? ==>
                messages.messages == KeepLast(old(messages.messages) + [Stamped(stamp, LoadMessage(load).value)], MAX_MESSAGES)
      ensures totps == Reconcile(crypto, old(totps), secrets, now)
      ensures |totps| == |secrets| && forall i :: 0 <= i < |secrets| ==> totps[i].code == secrets[i].code
      ensures hasChanged <==>
                (load.Loaded? && load.changed) || |old(totps)| != |secrets| || AnyTouched(old(totps), secrets, now)
    {
      hasChanged := ApplyLoad(crypto, load, stamp);
      ghost var before := totps;
      if |secrets| != |totps| {
        totps := totps[..Min(|secrets|, |totps|)];
        hasChanged := true;
      }
      ReconcileIgnoresExtra(crypto, before, secrets, now);
      var touched := ReconcileBoxes(crypto, now);
      hasChanged := hasChanged || touched;
    }
  }
}
