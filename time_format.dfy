/**
 * The two numeric helpers of the session screen: `clamp`, used for the
 * overall progress and the +5 minute button, and `formatTime`, which renders
 * the countdown as `MM:SS`.
 */
module TimeFormat {

  /** `Math.max(lo, Math.min(hi, value))`, exactly as written (so `lo` wins when `hi < lo`). */
  function Clamp(value: real, lo: real, hi: real): (r: real)
    ensures lo <= hi ==> lo <= r <= hi
    ensures lo <= value <= hi ==> r == value
    ensures value <= lo ==> r == lo
    ensures lo <= hi <= value ==> r == hi
    ensures hi < lo ==> r == lo
  {
    var inner := if hi < value then hi else value;
    if lo < inner then inner else lo
  }

  /** Clamping whole numbers between whole bounds gives a whole number. */
  lemma ClampOfIntegers(value: int, lo: int, hi: int)
    ensures Clamp(value as real, lo as real, hi as real).Floor as real
            == Clamp(value as real, lo as real, hi as real)
  {
  }

  /** `Math.max(0, Math.floor(t))`: the whole, non-negative number of seconds shown. */
  function SafeSeconds(t: real): (n: nat)
    ensures t < 0.0 ==> n == 0
    ensures t >= 0.0 ==> n as real <= t < n as real + 1.0
  {
    if t.Floor < 0 then 0 else t.Floor
  }

  predicate IsDigit(c: char) {
    '0' <= c <= '9'
  }

  predicate IsDigits(s: string) {
    forall i :: 0 <= i < |s| ==> IsDigit(s[i])
  }

  function DigitChar(d: nat): (c: char)
    requires d < 10
    ensures IsDigit(c) && c as int - '0' as int == d
  {
    ('0' as int + d) as char
  }

  /** The value of a string of decimal digits; the reference against which the rendering is checked. */
  function DecimalValue(s: string): nat
    requires IsDigits(s)
  {
    if s == [] then 0
    else DecimalValue(s[..|s| - 1]) * 10 + (s[|s| - 1] as int - '0' as int)
  }

  /** `n.toString()` for a non-negative integer below 10^21: its decimal digits, without leading zeros. */
  function NatToString(n: nat): (s: string)
    ensures |s| >= 1 && IsDigits(s)
    ensures n < 10 <==> |s| == 1
    ensures 10 <= n < 100 ==> |s| == 2
    ensures |s| > 1 ==> s[0] != '0'
    decreases n
  {
    if n < 10 then [DigitChar(n)] else NatToString(n / 10) + [DigitChar(n % 10)]
  }

  lemma {:induction false} NatToStringValue(n: nat)
    ensures DecimalValue(NatToString(n)) == n
    decreases n
  {
    if n >= 10 {
      NatToStringValue(n / 10);
      var s := NatToString(n);
      assert s[..|s| - 1] == NatToString(n / 10);
    }
  }

  /** `s.padStart(width, fill)` with a one-character fill. */
  function PadStart(s: string, width: nat, fill: char): (r: string)
    ensures |r| == if |s| >= width then |s| else width
    ensures r[|r| - |s|..] == s
    ensures forall i :: 0 <= i < |r| - |s| ==> r[i] == fill
  {
    if |s| >= width then s else seq(width - |s|, _ => fill) + s
  }

  /** Leading zeros do not change the value of a digit string. */
  lemma {:induction false} LeadingZerosValue(zeros: string, s: string)
    requires forall i :: 0 <= i < |zeros| ==> zeros[i] == '0'
    requires IsDigits(s)
    ensures IsDigits(zeros + s) && DecimalValue(zeros + s) == DecimalValue(s)
    decreases |s|, |zeros|
  {
    if s == [] {
      assert zeros + s == zeros;
      if zeros != [] {
        LeadingZerosValue(zeros[..|zeros| - 1], []);
        assert zeros[..|zeros| - 1] + [] == zeros[..|zeros| - 1];
      }
    } else {
      var t := zeros + s;
      assert t[..|t| - 1] == zeros + s[..|s| - 1];
      LeadingZerosValue(zeros, s[..|s| - 1]);
    }
  }

  lemma PaddedValue(s: string, width: nat)
    requires IsDigits(s)
    ensures IsDigits(PadStart(s, width, '0'))
    ensures DecimalValue(PadStart(s, width, '0')) == DecimalValue(s)
  {
    var r := PadStart(s, width, '0');
    if |s| < width {
      LeadingZerosValue(r[..|r| - |s|], s);
      assert r == r[..|r| - |s|] + s;
    }
  }

  /** The minutes field of a rendering: everything before the colon. */
  function MinutesField(r: string): string
    requires |r| >= 3
  {
    r[..|r| - 3]
  }

  /** The seconds field of a rendering: the last two characters. */
  function SecondsField(r: string): string
    requires |r| >= 3
  {
    r[|r| - 2..]
  }

  /** `MM:SS`: at least two minute digits, a colon, exactly two second digits. */
  predicate IsClockText(r: string) {
    && |r| >= 5
    && r[|r| - 3] == ':'
    && IsDigits(MinutesField(r))
    && IsDigits(SecondsField(r))
  }

  /** Minutes and seconds, each padded to two digits, around a colon. */
  function Render(minutes: nat, seconds: nat): (r: string)
    ensures |r| >= 5
  {
    PadStart(NatToString(minutes), 2, '0') + ":" + PadStart(NatToString(seconds), 2, '0')
  }

  lemma RenderReadsBack(minutes: nat, seconds: nat)
    requires seconds < 60
    ensures IsClockText(Render(minutes, seconds))
    ensures DecimalValue(MinutesField(Render(minutes, seconds))) == minutes
    ensures DecimalValue(SecondsField(Render(minutes, seconds))) == seconds
    ensures |MinutesField(Render(minutes, seconds))| == 2 || MinutesField(Render(minutes, seconds))[0] != '0'
  {
    var m := PadStart(NatToString(minutes), 2, '0');
    var s := PadStart(NatToString(seconds), 2, '0');
    NatToStringValue(minutes);
    NatToStringValue(seconds);
    PaddedValue(NatToString(minutes), 2);
    PaddedValue(NatToString(seconds), 2);
    var r := m + ":" + s;
    assert |s| == 2;
    assert MinutesField(r) == m;
    assert SecondsField(r) == s;
  }

  /**
   * `formatTime`: floor and clamp the input to a whole number of seconds n >= 0,
   * then print n / 60 and n % 60, each padded to two digits, around a colon.
   * The rendering reads back as the same number of seconds, with a seconds field below 60.
   */
  function FormatTime(totalSeconds: real): (r: string)
    ensures IsClockText(r)
    ensures DecimalValue(SecondsField(r)) < 60
    ensures DecimalValue(MinutesField(r)) * 60 + DecimalValue(SecondsField(r)) == SafeSeconds(totalSeconds)
    ensures |MinutesField(r)| == 2 || MinutesField(r)[0] != '0'
  {
    var safe := SafeSeconds(totalSeconds);
    RenderReadsBack(safe / 60, safe % 60);
    Render(safe / 60, safe % 60)
  }

  /** A number below 100, padded to two digits: its tens digit, then its units digit. */
  lemma PadTwoDigits(n: nat)
    requires n < 100
    ensures PadStart(NatToString(n), 2, '0') == [DigitChar(n / 10), DigitChar(n % 10)]
  {
    var q, r := n / 10, n % 10;
    if n < 10 {
      assert q == 0 && r == n;
      assert NatToString(n) == [DigitChar(n)];
      assert seq(1, _ => '0') == [DigitChar(0)];
    } else {
      assert q < 10;
      assert NatToString(n) == NatToString(q) + [DigitChar(r)];
      assert NatToString(q) == [DigitChar(q)];
    }
  }

  /** With fewer than 100 minutes, the rendering is exactly five characters. */
  lemma RenderFiveCharacters(minutes: nat, seconds: nat)
    requires minutes < 100 && seconds < 60
    ensures Render(minutes, seconds)
            == [DigitChar(minutes / 10), DigitChar(minutes % 10), ':', DigitChar(seconds / 10), DigitChar(seconds % 10)]
  {
    PadTwoDigits(minutes);
    PadTwoDigits(seconds);
  }

  /** Ten minutes on the clock. */
  lemma FormatTimeTenMinutes()
    ensures FormatTime(600.0) == "10:00"
  {
    var safe := SafeSeconds(600.0);
    assert safe == 600;
    assert FormatTime(600.0) == Render(safe / 60, safe % 60);
    assert safe / 60 == 10 && safe % 60 == 0;
    RenderFiveCharacters(10, 0);
  }

  /** A negative input renders as zero. */
  lemma FormatTimeNegative()
    ensures FormatTime(-3.5) == "00:00"
  {
    var safe := SafeSeconds(-3.5);
    assert safe == 0;
    assert FormatTime(-3.5) == Render(safe / 60, safe % 60);
    assert safe / 60 == 0 && safe % 60 == 0;
    RenderFiveCharacters(0, 0);
  }

  /** A fractional input is floored, never rounded up. */
  lemma FormatTimeFloors()
    ensures FormatTime(59.9) == "00:59"
  {
    var safe := SafeSeconds(59.9);
    assert safe == 59;
    assert FormatTime(59.9) == Render(safe / 60, safe % 60);
    assert safe / 60 == 0 && safe % 60 == 59;
    RenderFiveCharacters(0, 59);
  }
}
