/** The transport's time labels (App.tsx `formatTime` and the remaining-time
    label of the narration panel). */
module ClockFormat {

  import opened JsSemantics

  predicate IsDigit(ch: char) {
    '0' <= ch <= '9'
  }

  predicate AllDigits(s: string) {
    forall i :: 0 <= i < |s| ==> IsDigit(s[i])
  }

  function DigitChar(d: nat): (ch: char)
    requires d < 10
    ensures IsDigit(ch)
  {
    "0123456789"[d]
  }

  function DigitValue(ch: char): (d: nat)
    requires IsDigit(ch)
    ensures d < 10
  {
    (ch - '0') as nat
  }

  lemma DigitRoundTrip(d: nat)
    requires d < 10
    ensures DigitValue(DigitChar(d)) == d
  {
  }

  /** Decimal rendering of a non-negative integer, as `Number.prototype.toString`
      prints it: digits only, no leading zero except for zero itself. */
  function Decimal(n: nat): (s: string)
    ensures 1 <= |s|
    ensures AllDigits(s)
    ensures |s| > 1 ==> s[0] != '0'
    ensures n < 10 <==> |s| == 1
  {
    if n < 10 then [DigitChar(n)] else Decimal(n / 10) + [DigitChar(n % 10)]
  }

  /** The value of a string of decimal digits (the inverse of `Decimal`). */
  function DecimalValue(s: string): nat
    requires AllDigits(s)
  {
    if |s| == 0 then 0 else DecimalValue(s[..|s| - 1]) * 10 + DigitValue(s[|s| - 1])
  }

  /** Reading back a rendered number gives the number. */
  lemma {:induction false} DecimalRoundTrip(n: nat)
    ensures DecimalValue(Decimal(n)) == n
  {
    if n >= 10 {
      var s := Decimal(n);
      var prefix := Decimal(n / 10);
      assert s[..|s| - 1] == prefix;
      DecimalRoundTrip(n / 10);
      DigitRoundTrip(n % 10);
    } else {
      DigitRoundTrip(n);
    }
  }

  /** `s.padStart(width, fill)`: left-pads `s` with `fill` up to `width`. */
  function PadStart(s: string, width: nat, fill: char): (r: string)
    ensures |r| == if |s| >= width then |s| else width
    ensures r[|r| - |s|..] == s
    ensures forall i :: 0 <= i < |r| - |s| ==> r[i] == fill
  {
    if |s| >= width then s else seq(width - |s|, _ => fill) + s
  }

  /** A leading zero does not change the value of a digit string. */
  lemma {:induction false} LeadingZeroValue(s: string)
    requires AllDigits(s)
    ensures AllDigits("0" + s) && DecimalValue("0" + s) == DecimalValue(s)
  {
    if |s| > 0 {
      var t := "0" + s;
      assert t[..|t| - 1] == "0" + s[..|s| - 1];
      LeadingZeroValue(s[..|s| - 1]);
    }
  }

  /** Two-digit rendering of a number of seconds below one hundred. */
  function TwoDigits(n: nat): (s: string)
    requires n < 100
    ensures |s| == 2 && AllDigits(s) && DecimalValue(s) == n
  {
    PaddedValue(n);
    PadStart(Decimal(n), 2, '0')
  }

  lemma PaddedValue(n: nat)
    requires n < 100
    ensures var s := PadStart(Decimal(n), 2, '0'); |s| == 2 && AllDigits(s) && DecimalValue(s) == n
  {
    var d := Decimal(n);
    DecimalRoundTrip(n);
    if |d| < 2 {
      LeadingZeroValue(d);
      assert PadStart(d, 2, '0') == "0" + d;
    } else {
      assert |d| == 2;
    }
  }

  /** A label `m:ss`: a decimal minute count without leading zeros, a colon,
      and two digits of seconds below 60. */
  predicate WellFormedClock(t: string) {
    && |t| >= 4
    && t[|t| - 3] == ':'
    && AllDigits(t[..|t| - 3])
    && (|t| > 4 ==> t[0] != '0')
    && AllDigits(t[|t| - 2..])
    && DecimalValue(t[|t| - 2..]) < 60
  }

  /** The number of whole seconds a well-formed label denotes. */
  function ClockSeconds(t: string): nat
    requires WellFormedClock(t)
  {
    DecimalValue(t[..|t| - 3]) * 60 + DecimalValue(t[|t| - 2..])
  }

  /** `formatTime`: a negative time shows "0:00"; otherwise the label shows
      the whole minutes and the zero-padded whole seconds of the time, so it
      denotes exactly the time rounded down to a whole second. */
  function FormatTime(seconds: real): (r: string)
    ensures seconds < 0.0 ==> r == "0:00"
    ensures seconds >= 0.0 ==> WellFormedClock(r) && ClockSeconds(r) == seconds.Floor
    ensures seconds >= 0.0 ==> DecimalValue(r[..|r| - 3]) == (seconds / 60.0).Floor
  {
    if seconds < 0.0 then "0:00"
    else
      var mins := (seconds / 60.0).Floor;
      var rem := JsRem(seconds, 60.0);
      var secs := rem.Floor;
      assert Trunc(seconds / 60.0) == mins;
      assert 0 <= mins;
      assert 0 <= secs < 60;
      assert mins * 60 + secs == seconds.Floor;
      var m := Decimal(mins);
      var ss := TwoDigits(secs);
      var r := m + ":" + ss;
      assert r[..|r| - 3] == m;
      assert r[|r| - 2..] == ss;
      DecimalRoundTrip(mins);
      r
  }

  /** The remaining-time label: with a known duration it is a minus sign and
      the formatted time left (clamped to "0:00" once the displayed time
      passes the duration); with no duration it is "--:--". */
  function RemainingLabel(duration: real, current: real): (r: string)
    ensures duration <= 0.0 ==> r == "--:--"
    ensures duration > 0.0 ==> |r| >= 5 && r[0] == '-'
    ensures duration > 0.0 && current <= duration ==>
      WellFormedClock(r[1..]) && ClockSeconds(r[1..]) == (duration - current).Floor
    ensures duration > 0.0 && current > duration ==> r == "-0:00"
  {
    if duration > 0.0 then "-" + FormatTime(duration - current) else "--:--"
  }

  /** A track of two minutes at the 90-second mark shows "-0:30". */
  lemma RemainingExample()
    ensures RemainingLabel(120.0, 90.0) == "-0:30"
  {
    assert 120.0 - 90.0 == 30.0;
    FormatThirtySeconds();
  }

  lemma FormatThirtySeconds()
    ensures FormatTime(30.0) == "0:30"
  {
    assert (30.0 / 60.0).Floor == 0;
    JsRemBelowDivisor(30.0, 60.0);
    assert Decimal(0) == "0";
    assert Decimal(30) == Decimal(3) + [DigitChar(0)] == "30";
    assert TwoDigits(30) == "30";
  }
}
