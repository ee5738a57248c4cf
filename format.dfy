/** `formatDuration`: the text shown in the middle of the ring. Under a minute
    it is Kotlin's decimal `Long.toString()`; from a minute on it is whatever
    the platform's elapsed-time formatter produces, passed in as a function. */
module DurationFormat {

  predicate IsDigit(c: char)
  {
    '0' <= c <= '9'
  }

  /** A non-empty run of decimal digits. */
  predicate IsDecimal(r: string)
  {
    |r| >= 1 && forall i :: 0 <= i < |r| ==> IsDigit(r[i])
  }

  function DigitChar(d: int): (c: char)
    requires 0 <= d < 10
    ensures IsDigit(c)
  {
    ('0' as int + d) as char
  }

  /** The value of a string of digits, most significant first. */
  function DecimalValue(r: string): nat
    requires forall i :: 0 <= i < |r| ==> IsDigit(r[i])
    decreases |r|
  {
    if r == [] then 0
    else
      var last := r[|r| - 1];
      assert IsDigit(last);
      DecimalValue(r[..|r| - 1]) * 10 + (last as int - '0' as int)
  }

  /** Decimal digits of `n`, without leading zeros. */
  function NatToString(n: nat): (r: string)
    ensures IsDecimal(r)
    ensures |r| > 1 ==> r[0] != '0'
    ensures r[0] == '0' <==> n == 0
    ensures n < 10 <==> |r| == 1
    ensures n < 100 ==> |r| <= 2
    decreases n
  {
    if n < 10 then [DigitChar(n)] else NatToString(n / 10) + [DigitChar(n % 10)]
  }

  /** Reading the digits back gives the number. */
  lemma {:induction false} NatToStringRoundTrip(n: nat)
    ensures DecimalValue(NatToString(n)) == n
    decreases n
  {
    if n >= 10 {
      var r := NatToString(n);
      assert r[..|r| - 1] == NatToString(n / 10);
      NatToStringRoundTrip(n / 10);
    }
  }

  /** Kotlin's `Long.toString()`, read back by a decimal reader: the digits
      of a non-negative number, or a minus sign and the digits of the magnitude
      of a negative one, never padded with a leading zero. */
  function LongToString(x: int): (r: string)
    ensures x >= 0 ==> IsDecimal(r) && DecimalValue(r) == x
    ensures x >= 0 ==> (|r| > 1 ==> r[0] != '0')
    ensures x < 0 ==> |r| >= 2 && r[0] == '-' && IsDecimal(r[1..]) && DecimalValue(r[1..]) == -x
    ensures x < 0 ==> r[1] != '0'
  {
    if x < 0 then
      NatToStringRoundTrip(-x);
      assert ("-" + NatToString(-x))[1..] == NatToString(-x);
      "-" + NatToString(-x)
    else
      NatToStringRoundTrip(x);
      NatToString(x)
  }

  /** The text for `seconds`; `elapsedTime` stands for the platform's
      `DateUtils.formatElapsedTime`, whose output is not modelled. Under a
      minute the text is the bare number of seconds: one or two digits, no
      leading zero, no colon, no unit, whatever the platform formatter does. */
  function FormatDuration(seconds: int, elapsedTime: int -> string): (r: string)
    ensures 0 <= seconds < 60 ==>
              IsDecimal(r) && 1 <= |r| <= 2 && (|r| == 2 ==> r[0] != '0') &&
              ':' !in r && DecimalValue(r) == seconds
    ensures seconds < 0 ==>
              |r| >= 2 && r[0] == '-' && r[1] != '0' &&
              IsDecimal(r[1..]) && DecimalValue(r[1..]) == -seconds
    ensures seconds >= 60 ==> r == elapsedTime(seconds)
  {
    if seconds < 60 then LongToString(seconds) else elapsedTime(seconds)
  }

  /** `formatDuration(5)` is "5". */
  lemma FormatFive(elapsedTime: int -> string)
    ensures FormatDuration(5, elapsedTime) == "5"
  {
  }
}
