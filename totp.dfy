// The TOTP engine of src/totp.rs: the moving factor of section 4.2 of
// RFC 6238, the counter message and the dynamic truncation of section 5.3 of
// RFC 4226, the zero-padded token, and the `Totp` struct that caches one
// generated code and regenerates it in place.
//
// Base32 decoding and HMAC-SHA1 are library calls; they enter as the two
// functions of a `Crypto` value.  The wall clock enters as a `clock` or `now`
// parameter.  Arithmetic follows Rust's release profile: a multiplication or
// subtraction that overflows wraps around; what still panics there (an
// undecodable secret, a zero time step, a remainder by a zero modulus) is an
// `Err` of `Generate`.

module TotpEngine {
  import opened Common
  import opened Decimal

  /** The 20-byte output of HMAC-SHA1. */
  type Mac = s: seq<byte> | |s| == 20 witness seq(20, _ => 0)

  /** The two library calls generate_totp makes: Base32 decoding with the
      RFC 4648 alphabet without padding, and HMAC-SHA1 keyed by the decoded
      secret. */
  datatype Crypto = Crypto(
    decodeBase32: string -> Option<seq<byte>>,
    hmacSha1: (seq<byte>, seq<byte>) -> Mac)

  /** The ways generate_totp panics. */
  datatype TotpError =
    | InvalidSecret   // `expect("Invalid base32 secret")`
    | ZeroTimeStep    // `current_time / time_step` with a zero step
    | ZeroModulus     // `binary_code % 10u32.pow(digits)` once the power wraps to 0

  /** The triple `(token, valid_until, counter)` generate_totp returns. */
  datatype Otp = Otp(token: string, validUntil: u64, counter: u64)

  const DEFAULT_DIGITS: u8 := 6

  /** `timestamp.unwrap_or_else(|| now)`. */
  function CurrentTime(timestamp: Option<u64>, clock: u64): u64 {
    timestamp.GetOr(clock)
  }

  /** get_counter: the number of whole time steps since the epoch. */
  function GetCounter(timestamp: Option<u64>, clock: u64, step: u64): (c: u64)
    requires step > 0
    ensures c * step <= CurrentTime(timestamp, clock) < c * step + step
  {
    var t := CurrentTime(timestamp, clock);
    DivBounds(t, step);
    t / step
  }

  lemma DivBounds(t: nat, step: nat)
    requires step > 0
    ensures (t / step) * step <= t < (t / step) * step + step
    ensures 0 <= t / step <= t
  {
    var q := t / step;
    MulMonotone(1, step, q);
  }

  lemma MulMonotone(a: nat, b: nat, k: nat)
    requires a <= b
    ensures a * k <= b * k
  {
  }

  /** Floor division is the only count of whole steps that brackets `t`. */
  lemma {:induction false} FloorDivUnique(t: nat, step: nat, c: nat)
    requires step > 0
    ensures t / step == c <==> c * step <= t < c * step + step
  {
    var q := t / step;
    DivBounds(t, step);
    if c * step <= t < c * step + step {
      if q < c {
        MulMonotone(q + 1, c, step);
        assert false;
      } else if c < q {
        MulMonotone(c + 1, q, step);
        assert false;
      }
    }
  }

  lemma {:induction false} DivModUnique(x: nat, d: nat, q: nat, r: nat)
    requires d > 0 && r < d && x == q * d + r
    ensures x / d == q && x % d == r
  {
    FloorDivUnique(x, d, q);
  }

  // ---- the counter message ----

  /** The `n` low-order bytes of `x`, most significant first
      (`u64::to_be_bytes` for `n == 8`). */
  function ToBigEndian(x: nat, n: nat): (s: seq<byte>)
    ensures |s| == n
  {
    if n == 0 then [] else ToBigEndian(x / 256, n - 1) + [(x % 256) as byte]
  }

  /** The number a big-endian byte string denotes. */
  function FromBigEndian(s: seq<byte>): nat {
    if s == [] then 0 else FromBigEndian(s[..|s| - 1]) * 256 + s[|s| - 1]
  }

  lemma {:induction false} ModSplit(x: nat, p: nat)
    requires p > 0
    ensures x % (256 * p) == (x / 256) % p * 256 + x % 256
  {
    var q, r := x / 256, x % 256;
    var a, b := q / p, q % p;
    assert x == (a * 256 * p) + (b * 256 + r) by {
      assert x == q * 256 + r;
      assert q == a * p + b;
    }
    assert b * 256 + r < 256 * p by {
      MulMonotone(b + 1, p, 256);
    }
    DivModUnique(x, 256 * p, a, b * 256 + r);
  }

  /** Decoding the big-endian encoding recovers the number modulo `256^n`. */
  lemma {:induction false} BigEndianRoundTrip(x: nat, n: nat)
    ensures FromBigEndian(ToBigEndian(x, n)) == x % Pow(256, n)
  {
    if n > 0 {
      var s := ToBigEndian(x, n);
      assert s[..|s| - 1] == ToBigEndian(x / 256, n - 1);
      BigEndianRoundTrip(x / 256, n - 1);
      ModSplit(x, Pow(256, n - 1));
    }
  }

  /** Encoding the value of a byte string with its own length gives it back. */
  lemma {:induction false} BigEndianInverse(s: seq<byte>)
    ensures ToBigEndian(FromBigEndian(s), |s|) == s
  {
    if s != [] {
      var p, last := s[..|s| - 1], s[|s| - 1];
      var v := FromBigEndian(s);
      DivModUnique(v, 256, FromBigEndian(p), last);
      BigEndianInverse(p);
      assert s == p + [last];
    }
  }

  /** The HMAC message: the counter as 8 big-endian bytes. */
  function CounterMessage(counter: u64): (m: seq<byte>)
    ensures |m| == 8 && FromBigEndian(m) == counter
  {
    BigEndianRoundTrip(counter, 8);
    PowLimits();
    ToBigEndian(counter, 8)
  }

  /** Lines 80-83: copy `counter.to_be_bytes()` into the zeroed array
      `counter_bytes`, byte by byte. */
  method CounterBytes(counter: u64) returns (bytes: seq<byte>)
    ensures |bytes| == 8 && FromBigEndian(bytes) == counter
  {
    var a := new byte[8](_ => 0);
    var be := CounterMessage(counter);
    var i := 0;
    while i < 8
      invariant 0 <= i <= 8
      invariant a[..i] == be[..i]
    {
      a[i] := be[i];
      i := i + 1;
    }
    assert a[..] == a[..8] && be[..8] == be;
    bytes := a[..];
  }

  // ---- dynamic truncation ----

  /** `hmac_result[19] & 0x0f`. */
  function Offset(mac: Mac): (o: nat)
    ensures o <= 15 && o + 4 <= |mac|
  {
    mac[19] % 16
  }

  /** The four bytes at the offset, read as a big-endian `u32` with the top bit
      cleared (`& 0x7f` on the first byte). */
  function Truncate(mac: Mac): (code: u32)
    ensures code < 0x8000_0000
    ensures code == FromBigEndian([mac[Offset(mac)] % 128] + mac[Offset(mac) + 1..Offset(mac) + 4])
  {
    var o := Offset(mac);
    var s := [mac[o] % 128] + mac[o + 1..o + 4];
    var v1: int := mac[o] % 128;
    assert FromBigEndian(s[..1]) == v1 by {
      assert s[..1][..0] == [];
    }
    assert FromBigEndian(s[..2]) == v1 * 256 + mac[o + 1] as int by {
      assert s[..2][..1] == s[..1];
    }
    assert FromBigEndian(s[..3]) == (v1 * 256 + mac[o + 1] as int) * 256 + mac[o + 2] as int by {
      assert s[..3][..2] == s[..2];
    }
    assert FromBigEndian(s) == ((v1 * 256 + mac[o + 1] as int) * 256 + mac[o + 2] as int) * 256 + mac[o + 3] as int by {
      assert s[..|s| - 1] == s[..3];
    }
    (mac[o] % 128) * 0x100_0000 + (mac[o + 1] as int) * 0x1_0000 + (mac[o + 2] as int) * 0x100 + mac[o + 3]
  }

  // ---- the token ----

  /** `10u32.pow(digits)`, wrapping modulo 2^32. */
  function Pow10Wrapped(digits: u8): u32 {
    Pow(10, digits) % U32_LIMIT
  }

  lemma {:induction false} Pow10Split(d: nat)
    ensures Pow(10, d) == Pow(2, d) * Pow(5, d)
  {
    if d > 0 {
      Pow10Split(d - 1);
    }
  }

  lemma {:induction false} Pow5Odd(d: nat)
    ensures Pow(5, d) % 2 == 1
  {
    if d > 0 {
      Pow5Odd(d - 1);
      var p := Pow(5, d - 1);
      assert Pow(5, d) == 4 * p + p;
    }
  }

  lemma MulRotate(x: nat, y: nat, z: nat)
    ensures (x * y) * z == (y * z) * x
  {
  }

  /** From 32 digits on, the wrapped power is 0. */
  lemma Pow10WrappedZeroFrom32(digits: u8)
    requires digits >= 32
    ensures Pow10Wrapped(digits) == 0
  {
    var a, f := Pow(2, digits - 32), Pow(5, digits);
    assert Pow(10, digits) == (a * f) * U32_LIMIT by {
      Pow10Split(digits);
      PowLimits();
      PowAdd(2, 32, digits - 32);
      MulRotate(U32_LIMIT, a, f);
    }
    DivModUnique(Pow(10, digits), U32_LIMIT, a * f, 0);
  }

  /** Below 32 digits, `10^digits` has fewer than 32 factors of 2, so the
      wrapped power is not 0. */
  lemma Pow10WrappedNonZeroBelow32(digits: u8)
    requires digits < 32
    ensures Pow10Wrapped(digits) != 0
  {
    var a, f, h := Pow(2, digits), Pow(5, digits), Pow(2, 31 - digits);
    assert U32_LIMIT == a * (2 * h) by {
      PowLimits();
      PowAdd(2, digits, 32 - digits);
    }
    assert Pow(10, digits) == a * f by {
      Pow10Split(digits);
    }
    Pow5Odd(digits);
    OddNotMultiple(a, f, h);
  }

  /** `a * f` with `f` odd is no multiple of `a * 2h`. */
  lemma OddNotMultiple(a: nat, f: nat, h: nat)
    requires a > 0 && h > 0 && f % 2 == 1
    ensures (a * f) % (a * (2 * h)) != 0
  {
    var m := a * (2 * h);
    if (a * f) % m == 0 {
      var k := (a * f) / m;
      var g := 2 * h;
      assert a * f == m * k;
      assert m * k == a * (g * k) by {
        MulAssoc(a, g, k);
      }
      CancelLeft(a, f, g * k);
      assert f == 2 * (h * k) by {
        MulAssoc(2, h, k);
      }
      assert false;
    }
  }

  lemma MulAssoc(x: int, y: int, z: int)
    ensures (x * y) * z == x * (y * z)
  {
  }

  lemma CancelLeft(a: nat, x: nat, y: nat)
    requires a > 0 && a * x == a * y
    ensures x == y
  {
    if x < y {
      MulMonotone(x + 1, y, a);
    } else if y < x {
      MulMonotone(y + 1, x, a);
    }
  }

  lemma Pow10WrappedZero(digits: u8)
    ensures Pow10Wrapped(digits) == 0 <==> digits >= 32
  {
    if digits >= 32 {
      Pow10WrappedZeroFrom32(digits);
    } else {
      Pow10WrappedNonZeroBelow32(digits);
    }
  }

  /** Up to nine digits the power does not wrap. */
  lemma Pow10Exact(digits: u8)
    requires digits <= 9
    ensures Pow10Wrapped(digits) == Pow(10, digits)
  {
    PowMonotone(10, digits, 9);
    PowLimits();
  }

  /** Whether generate_totp returns instead of panicking. */
  predicate Generable(crypto: Crypto, secret: string, step: u64, digits: Option<u8>) {
    crypto.decodeBase32(secret).Some? && step > 0 && digits.GetOr(DEFAULT_DIGITS) < 32
  }

  /** generate_totp, lines 64-104, as a function of its inputs and the clock. */
  function Generate(crypto: Crypto, secret: string, step: u64, digits: Option<u8>,
                    timestamp: Option<u64>, clock: u64): (r: Result<Otp, TotpError>)
    ensures r.Ok? <==> Generable(crypto, secret, step, digits)
    ensures r.Err? ==> r.error == (if crypto.decodeBase32(secret).None? then InvalidSecret
                                   else if step == 0 then ZeroTimeStep else ZeroModulus)
  {
    var d := digits.GetOr(DEFAULT_DIGITS);
    Pow10WrappedZero(d);
    match crypto.decodeBase32(secret)
    case None => Err(InvalidSecret)
    case Some(key) =>
      if step == 0 then Err(ZeroTimeStep)
      else ForCounter(crypto, key, step, d, GetCounter(timestamp, clock, step))
  }

  /** The rest of generate_totp once the counter is known: the end of its
      window, the truncated HMAC of the counter message, and the token. */
  function ForCounter(crypto: Crypto, key: seq<byte>, step: u64, d: u8, counter: u64): (r: Result<Otp, TotpError>)
    ensures r.Ok? <==> d < 32
    ensures r.Ok? ==> r.value.counter == counter && r.value.validUntil == WrapU64((counter + 1) * step)
  {
    Pow10WrappedZero(d);
    var validUntil := WrapU64((counter + 1) * step);
    var code := Truncate(crypto.hmacSha1(key, CounterMessage(counter)));
    var modulus := Pow10Wrapped(d);
    if modulus == 0 then Err(ZeroModulus)
    else Ok(Otp(FormatPadded(code % modulus, d), validUntil, counter))
  }

  /** The truncated HMAC value the token of `Generate` is cut from. */
  function BinaryCode(crypto: Crypto, secret: string, step: u64, timestamp: Option<u64>, clock: u64): u32
    requires crypto.decodeBase32(secret).Some? && step > 0
  {
    Truncate(crypto.hmacSha1(crypto.decodeBase32(secret).value,
                             CounterMessage(GetCounter(timestamp, clock, step))))
  }

  /** The method form of generate_totp, which fills the counter buffer with a loop. */
  method GenerateTotp(crypto: Crypto, secret: string, step: u64, digits: Option<u8>,
                      timestamp: Option<u64>, clock: u64) returns (r: Result<Otp, TotpError>)
    ensures r == Generate(crypto, secret, step, digits, timestamp, clock)
  {
    var d := digits.GetOr(DEFAULT_DIGITS);
    var key := crypto.decodeBase32(secret);
    if key.None? {
      return Err(InvalidSecret);
    }
    if step == 0 {
      return Err(ZeroTimeStep);
    }
    var counter := GetCounter(timestamp, clock, step);
    var validUntil := WrapU64((counter + 1) * step);
    var counterBytes := CounterBytes(counter);
    assert counterBytes == CounterMessage(counter) by {
      BigEndianInverse(counterBytes);
    }
    var code := Truncate(crypto.hmacSha1(key.value, counterBytes));
    var modulus := Pow10Wrapped(d);
    if modulus == 0 {
      return Err(ZeroModulus);
    }
    r := Ok(Otp(FormatPadded(code % modulus, d), validUntil, counter));
  }

  // ---- what generate_totp promises ----

  /** The window of section 4.2 of RFC 6238: the counter counts whole steps,
      and unless `(counter + 1) * step` wraps, the time lies strictly before
      `valid_until`, which is the end of the counter's window. */
  lemma GenerateWindow(crypto: Crypto, secret: string, step: u64, digits: Option<u8>,
                       timestamp: Option<u64>, clock: u64)
    requires Generable(crypto, secret, step, digits)
    ensures var o := Generate(crypto, secret, step, digits, timestamp, clock).value;
            var t := CurrentTime(timestamp, clock);
            o.counter * step <= t < o.counter * step + step &&
            (t + step < U64_LIMIT ==> o.validUntil == (o.counter + 1) * step && t < o.validUntil)
  {
    var t := CurrentTime(timestamp, clock);
    var c := GetCounter(timestamp, clock, step);
    var key := crypto.decodeBase32(secret).value;
    var d: u8 := digits.GetOr(DEFAULT_DIGITS);
    var r := ForCounter(crypto, key, step, d, c);
    assert r.Ok? && r.value.counter == c;
    assert r.value.validUntil == WrapU64((c + 1) * step);
    assert Generate(crypto, secret, step, digits, timestamp, clock) == r;
    NextWindow(t, step, r.value.counter, r.value.validUntil);
  }

  /** The arithmetic of the end of a window. */
  lemma NextWindow(t: nat, step: nat, c: nat, end: nat)
    requires c * step <= t < c * step + step
    requires end == WrapU64((c + 1) * step)
    ensures c * step <= t < c * step + step
    ensures t + step < U64_LIMIT ==> end == (c + 1) * step && t < end
  {
    assert (c + 1) * step == c * step + step;
  }

  /** The token for 1 to 9 digits: exactly `digits` decimal characters whose
      value is the truncated code modulo `10^digits`. */
  lemma {:induction false} TokenShape(crypto: Crypto, secret: string, step: u64, digits: u8,
                                      timestamp: Option<u64>, clock: u64)
    requires Generable(crypto, secret, step, Some(digits)) && 1 <= digits <= 9
    ensures var tok := Generate(crypto, secret, step, Some(digits), timestamp, clock).value.token;
            |tok| == digits && IsDecimal(tok) &&
            ParseDecimal(tok) == BinaryCode(crypto, secret, step, timestamp, clock) % Pow(10, digits)
  {
    var code := BinaryCode(crypto, secret, step, timestamp, clock);
    Pow10Exact(digits);
    PaddedLength(code % Pow(10, digits), digits);
  }

  /** With 10 to 31 digits the wrapped modulus is meaningless but the token
      still has exactly `digits` characters; with 0 digits it is "0". */
  lemma {:induction false} TokenLengthBeyondNine(crypto: Crypto, secret: string, step: u64, digits: u8,
                                                 timestamp: Option<u64>, clock: u64)
    requires Generable(crypto, secret, step, Some(digits)) && (digits == 0 || digits >= 10)
    ensures var tok := Generate(crypto, secret, step, Some(digits), timestamp, clock).value.token;
            if digits == 0 then tok == "0" else |tok| == digits
  {
    var code := BinaryCode(crypto, secret, step, timestamp, clock);
    var m := Pow10Wrapped(digits);
    Pow10WrappedZero(digits);
    var tok := Generate(crypto, secret, step, Some(digits), timestamp, clock).value.token;
    assert tok == FormatPadded(code % m, digits);
    if digits >= 10 {
      assert code % m < Pow(10, digits) by {
        PowLimits();
        PowMonotone(10, 10, digits);
      }
      PaddedLength(code % m, digits);
    } else {
      ZeroDigitsToken(code);
    }
  }

  lemma ZeroDigitsToken(code: nat)
    ensures FormatPadded(code % Pow10Wrapped(0), 0) == "0"
  {
    assert Pow10Wrapped(0) == 1;
  }

  /** `digits: None` means six digits. */
  lemma DefaultDigits(crypto: Crypto, secret: string, step: u64, timestamp: Option<u64>, clock: u64)
    ensures Generate(crypto, secret, step, None, timestamp, clock)
         == Generate(crypto, secret, step, Some(6), timestamp, clock)
  {
  }

  /** Two instants in the same window give the same code. */
  lemma SameCounterSameOtp(crypto: Crypto, secret: string, step: u64, digits: Option<u8>,
                           timestamp1: Option<u64>, clock1: u64, timestamp2: Option<u64>, clock2: u64)
    requires step > 0 && GetCounter(timestamp1, clock1, step) == GetCounter(timestamp2, clock2, step)
    ensures Generate(crypto, secret, step, digits, timestamp1, clock1)
         == Generate(crypto, secret, step, digits, timestamp2, clock2)
  {
  }

  /** The counter differs from a stored one exactly when the instant lies
      outside the stored counter's window; this is what needs_refresh tests. */
  lemma CounterChangedIffOutsideWindow(counter: u64, step: u64, now: u64)
    requires step > 0
    ensures GetCounter(None, now, step) != counter <==> !(counter * step <= now < counter * step + step)
  {
    FloorDivUnique(now, step, counter);
  }

  /** The counter never decreases as the clock advances. */
  lemma CounterMonotone(step: u64, t1: u64, t2: u64)
    requires step > 0 && t1 <= t2
    ensures GetCounter(None, t1, step) <= GetCounter(None, t2, step)
  {
    DivMonotone(t1, t2, step);
  }

  lemma {:induction false} DivMonotone(a: nat, b: nat, step: nat)
    requires step > 0 && a <= b
    ensures a / step <= b / step
  {
    var ca, cb := a / step, b / step;
    DivBounds(a, step);
    DivBounds(b, step);
    if cb < ca {
      MulMonotone(cb + 1, ca, step);
      SuccMul(cb, step);
      assert false;
    }
  }

  lemma SuccMul(c: nat, step: nat)
    ensures (c + 1) * step == c * step + step
  {
  }

  /** The counters of the five instants of the unit test at lines 116-122, and
      the ends of their windows as line 77 computes them (the test's own
      `valid_until` column disagrees with line 77). */
  lemma TestVectorWindows()
    ensures GetCounter(Some(1748742637), 0, 30) == 58291421
    ensures GetCounter(Some(1748742663), 0, 30) == 58291422
    ensures GetCounter(Some(1748742688), 0, 30) == 58291422
    ensures GetCounter(Some(1748742714), 0, 30) == 58291423
    ensures GetCounter(Some(1748742739), 0, 30) == 58291424
    ensures WrapU64((58291421 + 1) * 30) == 1748742660
    ensures WrapU64((58291422 + 1) * 30) == 1748742690
  {
  }

  /** The remaining seconds, `(valid_until - now) as u16`, with the wrapping
      subtraction and the truncating cast. */
  function ValidDurationAt(validUntil: u64, now: u64): u16 {
    WrapU64(validUntil - now) % U16_LIMIT
  }

  /** Inside the window, the remaining time is the exact distance to its end,
      between 1 and the step; at the end it is 0. */
  lemma RemainingInWindow(counter: u64, step: u64, now: u64)
    requires 0 < step < U16_LIMIT && counter * step <= now <= counter * step + step < U64_LIMIT
    ensures ValidDurationAt(counter * step + step, now) == counter * step + step - now
    ensures now < counter * step + step ==> 1 <= ValidDurationAt(counter * step + step, now) <= step
  {
  }

  /** Past the end of the window by `late` seconds (less than 2^16), the
      wrapped subtraction reads as `65536 - late`. */
  lemma RemainingAfterWindow(validUntil: u64, late: nat)
    requires 0 < late < U16_LIMIT && validUntil + late < U64_LIMIT
    ensures ValidDurationAt(validUntil, validUntil + late) == U16_LIMIT - late
  {
  }

  /** `format!("{} @ {}", token, n)`: the token, " @ ", then `n` in decimal. */
  function Stamp(token: string, n: u64): (s: string)
    ensures |s| > |token| + 3
    ensures s[..|token|] == token && s[|token|..|token| + 3] == " @ "
    ensures IsDecimal(s[|token| + 3..]) && ParseDecimal(s[|token| + 3..]) == n
    ensures |s| > |token| + 4 ==> s[|token| + 3] != '0'
  {
    ParseNatToString(n);
    assert (token + " @ " + NatToString(n))[|token| + 3..] == NatToString(n);
    token + " @ " + NatToString(n)
  }

  /** The `Totp` struct: one generated code and the end of its window. */
  class Totp {
    var validUntil: u64
    var token: string
    var counter: u64

    function Value(): Otp
      reads this
    {
      Otp(token, validUntil, counter)
    }

    /** Totp::new: a zeroed struct followed by one refresh. */
    constructor (crypto: Crypto, secret: string, step: u64, digits: Option<u8>, now: u64)
      requires Generable(crypto, secret, step, digits)
      ensures Value() == Generate(crypto, secret, step, digits, None, now).value
    {
      validUntil, token, counter := 0, "", 0;
      new;
      Refresh(crypto, secret, step, digits, now);
    }

    /** Totp::refresh: token, end of window and counter all come from one
        generate_totp call at the current time. */
    method Refresh(crypto: Crypto, secret: string, step: u64, digits: Option<u8>, now: u64)
      requires Generable(crypto, secret, step, digits)
      modifies this
      ensures Value() == Generate(crypto, secret, step, digits, None, now).value
    {
      var r := GenerateTotp(crypto, secret, step, digits, None, now);
      token := r.value.token;
      validUntil := r.value.validUntil;
      counter := r.value.counter;
    }

    /** Totp::needs_refresh: whether the current counter differs from the stored one. */
    function NeedsRefresh(step: u64, now: u64): (b: bool)
      reads this
      requires step > 0
      ensures b <==> !(counter * step <= now < counter * step + step)
    {
      CounterChangedIffOutsideWindow(counter, step, now);
      GetCounter(None, now, step) != counter
    }

    /** Totp::valid_duration: the seconds left until `valid_until`, as a
        `u16`.  Past `valid_until` the subtraction wraps. */
    function ValidDuration(now: u64): (d: u16)
      reads this
      ensures now <= validUntil && validUntil - now < U16_LIMIT ==> d as int == validUntil - now
      ensures validUntil < now && now - validUntil < U16_LIMIT ==> d as int == U16_LIMIT - (now - validUntil)
    {
      if validUntil < now && now - validUntil < U16_LIMIT then
        RemainingAfterWindow(validUntil, now - validUntil);
        ValidDurationAt(validUntil, now)
      else
        ValidDurationAt(validUntil, now)
    }

    /** The Display impl: "{token} @ {valid_until}". */
    function Display(): (s: string)
      reads this
      ensures |s| > |token| + 3 && s[..|token|] == token && s[|token|..|token| + 3] == " @ "
      ensures IsDecimal(s[|token| + 3..]) && ParseDecimal(s[|token| + 3..]) == validUntil
      ensures |s| > |token| + 4 ==> s[|token| + 3] != '0'
    {
      Stamp(token, validUntil)
    }
  }
}
