// src/state.rs: the state the interactive display keeps between events:
// the grid size, the lock password, since when the display is unlocked (absent
// while locked), after how long it locks itself, the secrets file and the
// password being typed.

module LockState {
  import opened Common

  /** A `SystemTime`, in whole seconds since the epoch. */
  type Instant = nat

  datatype State = State(
    numberOfRows: u8,
    numberOfColumns: u8,
    lockPassword: Option<string>,
    unlockedSince: Option<Instant>,
    lockAfter: Option<nat>,       // a `Duration`, in seconds
    secretsPath: string,
    buffer: string)

  /** State::default: unlocked since `now`, auto-lock after `lockAfterSeconds`
      seconds unless that is 0, an empty password buffer and an empty grid. */
  function Default(secretsPath: string, lockPassword: Option<string>, lockAfterSeconds: u8,
                   now: Instant): (s: State)
    ensures s.unlockedSince == Some(now)
    ensures s.lockAfter.None? <==> lockAfterSeconds == 0
    ensures s.lockAfter.Some? ==> s.lockAfter.value == lockAfterSeconds
    ensures s.buffer == "" && s.lockPassword == lockPassword && s.secretsPath == secretsPath
    ensures s.numberOfRows == 0 && s.numberOfColumns == 0
  {
    State(
      numberOfRows := 0,
      numberOfColumns := 0,
      lockPassword := lockPassword,
      unlockedSince := Some(now),
      lockAfter := if lockAfterSeconds > 0 then Some(lockAfterSeconds as nat) else None,
      secretsPath := secretsPath,
      buffer := "")
  }
}
