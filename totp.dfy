/** The TOTP engine: HMAC-SHA1 dynamic truncation as in section 5.3 of RFC 4226, time
    steps of 30 seconds as in section 4 of RFC 6238, and validation over a window of
    one step either side as allowed by section 5.2 of RFC 6238.
    HMAC-SHA1 itself is a foreign library call; it is a parameter of type `Hmac`, and
    the clock is a parameter `nowMillis`. */
module Totp {
  import opened Base

  const DIGITS := 6
  const TIME_STEP := 30   // seconds
  const TIME_SKEW := 1    // steps accepted on either side of the current one

  /** An HMAC-SHA1 output: always 20 bytes. */
  type Digest = s: Bytes | |s| == 20 witness seq(20, _ => 0 as byte)

  /** HMAC-SHA1(key, message). */
  type Hmac = (Bytes, Bytes) -> Digest

  // ---------------------------------------------------------------------------
  // Encoding the time step, truncating the hash

  function Pow256(n: nat): (p: nat)
    ensures p >= 1
  {
    if n == 0 then 1 else 256 * Pow256(n - 1)
  }

  /** `ByteBuffer.allocate(8).putLong(t)`: the 64-bit two's complement of `t`,
      most significant byte first. */
  function LongBytes(t: int): (r: Bytes)
    ensures |r| == 8
  {
    var v := t % 0x1_0000_0000_0000_0000;
    seq(8, i requires 0 <= i < 8 => ((v / Pow256(7 - i)) % 256) as byte)
  }

  /** `hash[hash.length - 1] & 0x0F`: the low nibble of the last byte. */
  function Offset(hash: Digest): (offset: nat)
    ensures offset <= 15
    ensures offset + 3 < |hash|
  {
    hash[19] as int % 16
  }

  /** The four bytes at the offset read as a big-endian integer with the top bit masked. */
  function Truncate(hash: Digest): (binary: nat)
    ensures binary < 0x8000_0000
  {
    var o := Offset(hash);
    (hash[o] as int % 128) * 0x100_0000 + hash[o + 1] as int * 0x1_0000
      + hash[o + 2] as int * 0x100 + hash[o + 3] as int
  }

  function Pow10(n: nat): (p: nat)
    ensures p >= 1
  {
    if n == 0 then 1 else 10 * Pow10(n - 1)
  }

  /** `(int) Math.pow(10, digits)`: exact up to 10^9; the cast saturates at
      Integer.MAX_VALUE for ten digits and more. */
  function Modulus(digits: nat): (m: nat)
    ensures 1 <= m <= Pow10(digits)
    ensures m <= 0x7FFF_FFFF
  {
    if Pow10(digits) > 0x7FFF_FFFF then 0x7FFF_FFFF else Pow10(digits)
  }

  // ---------------------------------------------------------------------------
  // Decimal text

  predicate IsDigit(c: char) {
    '0' <= c <= '9'
  }

  predicate AllDigits(s: string) {
    forall i | 0 <= i < |s| :: IsDigit(s[i])
  }

  function DigitChar(d: nat): (c: char)
    requires d < 10
    ensures IsDigit(c)
  {
    ('0' as int + d) as char
  }

  /** The number a string of decimal digits denotes. */
  function DigitsValue(s: string): nat
    requires AllDigits(s)
  {
    if s == [] then 0 else DigitsValue(s[..|s| - 1]) * 10 + (s[|s| - 1] as int - '0' as int)
  }

  /** `Integer.toString(n)` for a non-negative `n`. */
  function DecimalString(n: nat): string {
    if n < 10 then [DigitChar(n)] else DecimalString(n / 10) + [DigitChar(n % 10)]
  }

  function Zeros(k: nat): (z: string)
    ensures |z| == k
  {
    seq(k, _ => '0')
  }

  /** `code` after the zero-padding loop: left-padded with '0' up to `width` characters. */
  function LeftPad(s: string, width: nat): string {
    if |s| >= width then s else Zeros(width - |s|) + s
  }

  lemma {:induction false} DecimalStringDenotes(n: nat)
    ensures |DecimalString(n)| >= 1
    ensures AllDigits(DecimalString(n))
    ensures DigitsValue(DecimalString(n)) == n
  {
    var s := DecimalString(n);
    if n >= 10 {
      DecimalStringDenotes(n / 10);
      assert s[..|s| - 1] == DecimalString(n / 10);
    }
  }

  lemma {:induction false} DecimalStringFits(n: nat, width: nat)
    requires 1 <= width
    requires n < Pow10(width)
    ensures |DecimalString(n)| <= width
  {
    if n >= 10 {
      assert width >= 2;
      DecimalStringFits(n / 10, width - 1);
    }
  }

  lemma {:induction false} LeadingZerosKeepValue(k: nat, s: string)
    requires AllDigits(s)
    ensures AllDigits(Zeros(k) + s)
    ensures DigitsValue(Zeros(k) + s) == DigitsValue(s)
  {
    var t := Zeros(k) + s;
    if s == [] {
      ZerosValue(k);
      assert t == Zeros(k);
    } else {
      assert t[..|t| - 1] == Zeros(k) + s[..|s| - 1];
      LeadingZerosKeepValue(k, s[..|s| - 1]);
    }
  }

  lemma {:induction false} ZerosValue(k: nat)
    ensures AllDigits(Zeros(k))
    ensures DigitsValue(Zeros(k)) == 0
  {
    if k > 0 {
      assert Zeros(k)[..k - 1] == Zeros(k - 1);
      ZerosValue(k - 1);
    }
  }

  // ---------------------------------------------------------------------------
  // generateTOTP

  /** The code `generateTOTP(key, timeStep, digits)` returns for a non-empty key. */
  function TotpCode(hmac: Hmac, key: Bytes, timeStep: int, digits: nat): string {
    LeftPad(DecimalString(Truncate(hmac(key, LongBytes(timeStep))) % Modulus(digits)), digits)
  }

  /** A code of at least one digit is exactly `digits` decimal characters whose value is
      the truncated HMAC reduced modulo 10^digits (Integer.MAX_VALUE from ten digits on). */
  lemma TotpCodeShape(hmac: Hmac, key: Bytes, timeStep: int, digits: nat)
    requires digits >= 1
    ensures |TotpCode(hmac, key, timeStep, digits)| == digits
    ensures AllDigits(TotpCode(hmac, key, timeStep, digits))
    ensures DigitsValue(TotpCode(hmac, key, timeStep, digits))
            == Truncate(hmac(key, LongBytes(timeStep))) % Modulus(digits)
  {
    var v := Truncate(hmac(key, LongBytes(timeStep))) % Modulus(digits);
    var s := DecimalString(v);
    DecimalStringDenotes(v);
    DecimalStringFits(v, digits);
    LeadingZerosKeepValue(digits - |s|, s);
    if |s| == digits {
      assert Zeros(0) + s == s;
    }
  }

  /** `generateTOTP`: `None` stands for the exception `new SecretKeySpec` throws on an
      empty key. The result depends only on the key, the step and the width. */
  method GenerateTotp(hmac: Hmac, key: Bytes, timeStep: int, digits: nat) returns (code: Option<string>)
    ensures code == if |key| == 0 then None else Some(TotpCode(hmac, key, timeStep, digits))
  {
    if |key| == 0 {
      return None;
    }
    var hash := hmac(key, LongBytes(timeStep));
    var binary := Truncate(hash);
    var modulo := Modulus(digits);
    var digitsText := DecimalString(binary % modulo);
    var c := digitsText;
    while |c| < digits
      invariant |digitsText| <= |c|
      invariant c == Zeros(|c| - |digitsText|) + digitsText
      invariant |c| == |digitsText| || |c| <= digits
      decreases digits - |c|
    {
      assert "0" + Zeros(|c| - |digitsText|) == Zeros(|c| + 1 - |digitsText|);
      c := "0" + c;
    }
    assert Zeros(0) + digitsText == digitsText;
    return Some(c);
  }

  // ---------------------------------------------------------------------------
  // isValidCode and getCurrentCode

  /** The characters Java's regular expression `\s` matches. */
  predicate IsWhitespace(c: char) {
    c == ' ' || c == '\t' || c == '\n' || c == '\r' || c as int == 0x0B || c as int == 0x0C
  }

  /** `s.replaceAll("\\s+", "")`. */
  function StripWhitespace(s: string): (r: string)
    ensures |r| <= |s|
    ensures forall i | 0 <= i < |r| :: !IsWhitespace(r[i])
  {
    if s == [] then []
    else (if IsWhitespace(s[0]) then [] else [s[0]]) + StripWhitespace(s[1..])
  }

  lemma {:induction false} StripDigitsIsIdentity(s: string)
    requires AllDigits(s)
    ensures StripWhitespace(s) == s
  {
    if s != [] {
      assert !IsWhitespace(s[0]);
      StripDigitsIsIdentity(s[1..]);
    }
  }

  /** `currentTimeMillis / 1000 / TIME_STEP`. */
  function TimeStep(nowMillis: nat): nat {
    nowMillis / 1000 / TIME_STEP
  }

  /** The code of the step `i` steps away from `step`. */
  function WindowCode(hmac: Hmac, key: Bytes, step: int, i: int): string {
    TotpCode(hmac, key, step + i, DIGITS)
  }

  /** A well-formed submission: exactly six decimal digits once whitespace is removed. */
  predicate WellFormed(otp: string) {
    |otp| == DIGITS && AllDigits(otp)
  }

  /** What `isValidCode` decides: the stripped submission is six digits and equals the
      code of some step within TIME_SKEW of the current one (a key the HMAC refuses,
      i.e. an empty one, never validates). */
  predicate CodeAccepted(hmac: Hmac, key: Bytes, userOtp: string, nowMillis: nat) {
    var otp := StripWhitespace(userOtp);
    WellFormed(otp) && |key| > 0
    && exists i | -TIME_SKEW <= i <= TIME_SKEW :: WindowCode(hmac, key, TimeStep(nowMillis), i) == otp
  }

  /** `isValidCode`: malformed input is rejected before any HMAC is computed; otherwise
      the three codes of the window are tried in order, returning at the first match. */
  method IsValidCode(hmac: Hmac, key: Bytes, userOtp: string, nowMillis: nat) returns (ok: bool)
    ensures ok == CodeAccepted(hmac, key, userOtp, nowMillis)
    ensures !WellFormed(StripWhitespace(userOtp)) ==> !ok
  {
    var otp := StripWhitespace(userOtp);
    if |otp| != DIGITS || !AllDigits(otp) {
      return false;
    }
    var current := nowMillis / 1000 / TIME_STEP;
    assert current == TimeStep(nowMillis);
    for i := -TIME_SKEW to TIME_SKEW + 1
      invariant i > -TIME_SKEW ==> |key| > 0
      invariant forall j | -TIME_SKEW <= j < i :: WindowCode(hmac, key, current, j) != otp
    {
      var generated := GenerateTotp(hmac, key, current + i, DIGITS);
      if generated.None? {
        return false;  // the exception is caught and reported as invalid
      }
      if generated.value == otp {
        assert WindowCode(hmac, key, current, i) == otp;
        assert CodeAccepted(hmac, key, userOtp, nowMillis);
        return true;
      }
    }
    assert !CodeAccepted(hmac, key, userOtp, nowMillis);
    return false;
  }

  /** The window, one step either side, written out. */
  lemma InWindow(hmac: Hmac, key: Bytes, step: int, otp: string)
    ensures (exists i | -TIME_SKEW <= i <= TIME_SKEW :: WindowCode(hmac, key, step, i) == otp) <==>
      (otp == WindowCode(hmac, key, step, -1) || otp == WindowCode(hmac, key, step, 0)
       || otp == WindowCode(hmac, key, step, 1))
  {
    if exists i | -TIME_SKEW <= i <= TIME_SKEW :: WindowCode(hmac, key, step, i) == otp {
      var i :| -TIME_SKEW <= i <= TIME_SKEW && WindowCode(hmac, key, step, i) == otp;
      assert i == -1 || i == 0 || i == 1;
    }
  }

  /** `isValidCode` spelled out: a well-formed code is accepted exactly when it is the
      code of the previous, the current or the next step. */
  lemma AcceptedIffInWindow(hmac: Hmac, key: Bytes, userOtp: string, nowMillis: nat)
    ensures CodeAccepted(hmac, key, userOtp, nowMillis) <==>
      var otp := StripWhitespace(userOtp);
      var s: int := TimeStep(nowMillis);
      WellFormed(otp) && |key| > 0 &&
      (otp == TotpCode(hmac, key, s - 1, DIGITS) || otp == TotpCode(hmac, key, s, DIGITS)
       || otp == TotpCode(hmac, key, s + 1, DIGITS))
  {
    InWindow(hmac, key, TimeStep(nowMillis), StripWhitespace(userOtp));
  }

  /** A code generated for the current step, or for the step just before or after it,
      is accepted at `nowMillis`. */
  lemma AdjacentCodeAccepted(hmac: Hmac, key: Bytes, nowMillis: nat, d: int)
    requires |key| > 0
    requires -TIME_SKEW <= d <= TIME_SKEW
    ensures CodeAccepted(hmac, key, TotpCode(hmac, key, TimeStep(nowMillis) + d, DIGITS), nowMillis)
  {
    var code := TotpCode(hmac, key, TimeStep(nowMillis) + d, DIGITS);
    TotpCodeShape(hmac, key, TimeStep(nowMillis) + d, DIGITS);
    StripDigitsIsIdentity(code);
    assert WindowCode(hmac, key, TimeStep(nowMillis), d) == code;
  }

  /** `getCurrentCode`: the code of the current time step. */
  method GetCurrentCode(hmac: Hmac, key: Bytes, nowMillis: nat) returns (code: Option<string>)
    ensures code.Some? <==> |key| > 0
    ensures code.Some? ==> CodeAccepted(hmac, key, code.value, nowMillis)
    ensures code.Some? ==> code.value == TotpCode(hmac, key, TimeStep(nowMillis), DIGITS)
  {
    var currentTimeStep := nowMillis / 1000 / TIME_STEP;
    code := GenerateTotp(hmac, key, currentTimeStep, DIGITS);
    if code.Some? {
      AdjacentCodeAccepted(hmac, key, nowMillis, 0);
    }
  }
}
