/**
 * Decimal rendering of counters, as Python's f-strings produce it:
 * `f"{s}"` for session directory names and `f"{n:05d}"` for speech IDs.
 */
module Format {

  predicate IsDigit(c: char) {
    '0' <= c <= '9'
  }

  /** The digit character for `d`. */
  function DigitChar(d: nat): (c: char)
    requires d < 10
    ensures IsDigit(c) && c as int - '0' as int == d
  {
    ('0' as int + d) as char
  }

  /** `str(n)`: the shortest decimal rendering, without leading zeros. */
  function Decimal(n: nat): (s: string)
    ensures s != []
    ensures forall k :: 0 <= k < |s| ==> IsDigit(s[k])
    ensures n > 0 ==> s[0] != '0'
  {
    if n < 10 then [DigitChar(n)] else Decimal(n / 10) + [DigitChar(n % 10)]
  }

  /** The value of a string of digits (`int(s)` for such strings); the inverse of `Decimal`. */
  function ParseDecimal(s: string): nat
    requires forall k :: 0 <= k < |s| ==> IsDigit(s[k])
  {
    if s == [] then 0
    else
      assert IsDigit(s[|s| - 1]);
      ParseDecimal(s[..|s| - 1]) * 10 + (s[|s| - 1] as int - '0' as int)
  }

  /** Reading back a rendered number gives the number. */
  lemma {:induction false} ParseDecimalRoundTrip(n: nat)
    ensures ParseDecimal(Decimal(n)) == n
  {
    if n >= 10 {
      ParseDecimalRoundTrip(n / 10);
      var s := Decimal(n);
      assert s[..|s| - 1] == Decimal(n / 10);
    }
  }

  /** Distinct numbers render to distinct strings. */
  lemma DecimalInjective(a: nat, b: nat)
    requires Decimal(a) == Decimal(b)
    ensures a == b
  {
    ParseDecimalRoundTrip(a);
    ParseDecimalRoundTrip(b);
  }

  /** `n` copies of `'0'`. */
  function Zeros(n: nat): (z: string)
    ensures |z| == n && forall k :: 0 <= k < n ==> z[k] == '0'
  {
    if n == 0 then [] else Zeros(n - 1) + ['0']
  }

  /** The format spec `05d`: left-padded with zeros to width 5, never truncated. */
  function Pad5(s: string): (r: string)
    ensures |r| == if |s| < 5 then 5 else |s|
    ensures r[|r| - |s|..] == s
  {
    if |s| < 5 then Zeros(5 - |s|) + s else s
  }

  /** Leading zeros do not change the value of a digit string. */
  lemma {:induction false} ParseIgnoresLeadingZeros(n: nat, s: string)
    requires forall k :: 0 <= k < |s| ==> IsDigit(s[k])
    ensures ParseDecimal(Zeros(n) + s) == ParseDecimal(s)
    decreases |s|
  {
    if s == [] {
      ParseZeros(n);
      assert Zeros(n) + s == Zeros(n);
    } else {
      ParseIgnoresLeadingZeros(n, s[..|s| - 1]);
      assert (Zeros(n) + s)[..|Zeros(n) + s| - 1] == Zeros(n) + s[..|s| - 1];
    }
  }

  lemma {:induction false} ParseZeros(n: nat)
    ensures ParseDecimal(Zeros(n)) == 0
  {
    if n > 0 {
      ParseZeros(n - 1);
      assert Zeros(n)[..n - 1] == Zeros(n - 1);
    }
  }

  /** `f"speech_{n:05d}"`: the identifier of the `n`-th speech of a run. */
  function SpeechId(n: nat): (id: string)
    ensures |id| >= 12
    ensures id[..7] == "speech_"
  {
    "speech_" + Pad5(Decimal(n))
  }

  /**
   * The identifier can be read back: its digits after `speech_` parse to `n`,
   * also past 99999 where the padding no longer applies.
   */
  lemma SpeechIdRoundTrip(n: nat)
    ensures forall k :: 7 <= k < |SpeechId(n)| ==> IsDigit(SpeechId(n)[k])
    ensures ParseDecimal(SpeechId(n)[7..]) == n
  {
    var d := Decimal(n);
    ParseDecimalRoundTrip(n);
    assert SpeechId(n)[7..] == Pad5(d);
    if |d| < 5 {
      ParseIgnoresLeadingZeros(5 - |d|, d);
    }
  }

  /** Distinct counter values give distinct speech identifiers. */
  lemma SpeechIdInjective(a: nat, b: nat)
    requires a != b
    ensures SpeechId(a) != SpeechId(b)
  {
    SpeechIdRoundTrip(a);
    SpeechIdRoundTrip(b);
  }
}
