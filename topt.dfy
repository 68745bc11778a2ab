// src/topt.rs: the older, standalone generate_totp, which returns a struct
// holding the time the code was made for, the end of its window and the
// token, and prints as "{token} @ {timestamp}".  It shares the counter
// message, the truncation and the token format with src/totp.rs, and the
// lemmas below show that both versions compute the same code.

module LegacyTotp {
  import opened Common
  import opened Decimal
  import opened TotpEngine

  /** topt.rs's `Totp`. */
  datatype StampedTotp = StampedTotp(timestamp: u64, validUntil: u64, token: string)

  /** The Display impl: "{token} @ {timestamp}". */
  function Display(t: StampedTotp): (s: string)
    ensures |s| > |t.token| + 3 && s[..|t.token|] == t.token && s[|t.token|..|t.token| + 3] == " @ "
    ensures IsDecimal(s[|t.token| + 3..]) && ParseDecimal(s[|t.token| + 3..]) == t.timestamp
    ensures |s| > |t.token| + 4 ==> s[|t.token| + 3] != '0'
  {
    Stamp(t.token, t.timestamp)
  }

  /** generate_totp of topt.rs, lines 18-54. */
  function GenerateStamped(crypto: Crypto, secret: string, step: u64, digits: Option<u8>,
                           timestamp: Option<u64>, clock: u64): (r: Result<StampedTotp, TotpError>)
    ensures r.Ok? <==> Generable(crypto, secret, step, digits)
    ensures r.Ok? ==> r.value.timestamp == CurrentTime(timestamp, clock)
    ensures r.Ok? && r.value.timestamp + step < U64_LIMIT ==>
              r.value.validUntil % step == 0 &&
              r.value.validUntil - step <= r.value.timestamp < r.value.validUntil
    ensures r.Ok? && 1 <= digits.GetOr(DEFAULT_DIGITS) <= 9 ==>
              |r.value.token| == digits.GetOr(DEFAULT_DIGITS) && IsDecimal(r.value.token)
  {
    var d := digits.GetOr(DEFAULT_DIGITS);
    Pow10WrappedZero(d);
    match crypto.decodeBase32(secret)
    case None => Err(InvalidSecret)
    case Some(key) =>
      var currentTime := CurrentTime(timestamp, clock);
      if step == 0 then Err(ZeroTimeStep)
      else
        var counter: u64 := currentTime / step;
        var validUntil := WrapU64((counter + 1) * step);
        var code := Truncate(crypto.hmacSha1(key, CounterMessage(counter)));
        var modulus := Pow10Wrapped(d);
        if modulus == 0 then Err(ZeroModulus)
        else
          WindowEnd(currentTime, step);
          TokenWidth(code % modulus, d);
          Ok(StampedTotp(currentTime, validUntil, FormatPadded(code % modulus, d)))
  }

  /** Without wrap-around, the window's end is the next multiple of the step. */
  lemma WindowEnd(t: u64, step: u64)
    requires step > 0
    ensures var e := WrapU64((t / step + 1) * step);
            t + step < U64_LIMIT ==> e % step == 0 && e - step <= t < e
  {
    var c := t / step;
    DivBounds(t, step);
    assert (c + 1) * step == c * step + step;
    if t + step < U64_LIMIT {
      assert WrapU64((c + 1) * step) == (c + 1) * step;
      DivModUnique((c + 1) * step, step, c + 1, 0);
    }
  }

  lemma TokenWidth(n: nat, d: u8)
    requires n < Pow10Wrapped(d)
    ensures 1 <= d <= 9 ==> |FormatPadded(n, d)| == d
  {
    if 1 <= d <= 9 {
      Pow10Exact(d);
      PaddedLength(n, d);
    }
  }

  /** Both versions of generate_totp agree: same failures, same token, same
      end of window; the older one reports the time instead of the counter. */
  lemma StampedAgreesWithEngine(crypto: Crypto, secret: string, step: u64, digits: Option<u8>,
                                timestamp: Option<u64>, clock: u64)
    ensures var legacy := GenerateStamped(crypto, secret, step, digits, timestamp, clock);
            var current := Generate(crypto, secret, step, digits, timestamp, clock);
            legacy.Ok? == current.Ok? &&
            (legacy.Err? ==> legacy.error == current.error) &&
            (legacy.Ok? ==>
               legacy.value.token == current.value.token &&
               legacy.value.validUntil == current.value.validUntil)
  {
  }

  /** The test cases at lines 68-69: 1748742663 and 1748742688 lie in the same
      30-second window, so they give the same token whatever the secret. */
  lemma SameWindowInTest(crypto: Crypto, secret: string)
    requires Generable(crypto, secret, 30, Some(6))
    ensures GenerateStamped(crypto, secret, 30, Some(6), Some(1748742663), 0).value.token
         == GenerateStamped(crypto, secret, 30, Some(6), Some(1748742688), 0).value.token
  {
    assert 1748742663 / 30 == 58291422 == 1748742688 / 30;
  }
}
