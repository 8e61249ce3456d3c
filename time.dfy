/** Time formatting of src/lib/time.ts: the `HH:MM:SS` rendering used for the
    countdown, and the zero case of the two human-readable renderings. */
module Time {
  import opened Wrappers

  // ---------------------------------------------------------------------
  // Decimal digits: JavaScript's String(n) for a natural number n
  // ---------------------------------------------------------------------

  predicate IsDigit(c: char) { '0' <= c <= '9' }

  predicate AllDigits(s: string) { forall i :: 0 <= i < |s| ==> IsDigit(s[i]) }

  function DigitChar(d: nat): (c: char)
    requires d < 10
    ensures IsDigit(c) && c as int - '0' as int == d
  {
    ('0' as int + d) as char
  }

  /** Decimal rendering of a natural number, without leading zeros. */
  function NatToString(n: nat): (s: string)
    decreases n
  {
    if n < 10 then [DigitChar(n)] else NatToString(n / 10) + [DigitChar(n % 10)]
  }

  /** The number a string of decimal digits denotes (leading zeros allowed). */
  function DigitsValue(s: string): nat
    requires AllDigits(s)
    decreases |s|
  {
    if s == [] then 0
    else DigitsValue(s[..|s| - 1]) * 10 + (s[|s| - 1] as int - '0' as int)
  }

  /** `NatToString` is a digit string that denotes its argument. */
  lemma {:induction false} NatToStringValue(n: nat)
    ensures |NatToString(n)| >= 1 && AllDigits(NatToString(n))
    ensures DigitsValue(NatToString(n)) == n
    decreases n
  {
    if n >= 10 {
      NatToStringValue(n / 10);
      var s := NatToString(n);
      assert s[..|s| - 1] == NatToString(n / 10);
    }
  }

  /** One, two or more digits, by magnitude. */
  lemma NatToStringLength(n: nat)
    ensures n < 10 ==> |NatToString(n)| == 1
    ensures 10 <= n < 100 ==> |NatToString(n)| == 2
    ensures n >= 100 ==> |NatToString(n)| >= 3
  {
    if n >= 100 {
      NatToStringLength(n / 10);
    }
  }

  // ---------------------------------------------------------------------
  // String.prototype.padStart
  // ---------------------------------------------------------------------

  function Repeat(c: char, k: nat): (s: string)
    ensures |s| == k && forall i :: 0 <= i < k ==> s[i] == c
  {
    if k == 0 then [] else [c] + Repeat(c, k - 1)
  }

  /** `s.padStart(width, fill)` for a one-character fill: strings already at
      least `width` long come back unchanged. */
  function PadStart(s: string, width: nat, fill: char): (r: string)
    ensures |s| >= width ==> r == s
    ensures |s| < width ==> |r| == width && r[width - |s|..] == s
    ensures forall i :: 0 <= i < |r| - |s| ==> r[i] == fill
  {
    if |s| >= width then s else Repeat(fill, width - |s|) + s
  }

  /** Prepending zeros does not change the value of a digit string. */
  lemma {:induction false} LeadingZeroValue(s: string)
    requires AllDigits(s)
    ensures AllDigits(['0'] + s) && DigitsValue(['0'] + s) == DigitsValue(s)
    decreases |s|
  {
    if s != [] {
      var t := ['0'] + s;
      assert t[..|t| - 1] == ['0'] + s[..|s| - 1];
      LeadingZeroValue(s[..|s| - 1]);
    }
  }

  lemma {:induction false} LeadingZerosValue(s: string, k: nat)
    requires AllDigits(s)
    ensures AllDigits(Repeat('0', k) + s) && DigitsValue(Repeat('0', k) + s) == DigitsValue(s)
    decreases k
  {
    if k > 0 {
      var rest := Repeat('0', k - 1) + s;
      LeadingZerosValue(s, k - 1);
      LeadingZeroValue(rest);
      assert Repeat('0', k) == ['0'] + Repeat('0', k - 1);
      assert Repeat('0', k) + s == ['0'] + rest;
    } else {
      assert Repeat('0', k) + s == s;
    }
  }

  /** `String(n).padStart(2, '0')`. */
  function Pad2(n: nat): string
  {
    PadStart(NatToString(n), 2, '0')
  }

  /** The padded field is a digit string of at least two characters that
      still denotes `n`; it is exactly two characters iff `n < 100`, and it
      is never truncated. */
  lemma Pad2Field(n: nat)
    ensures AllDigits(Pad2(n)) && DigitsValue(Pad2(n)) == n
    ensures |Pad2(n)| >= 2
    ensures |Pad2(n)| == 2 <==> n < 100
    ensures n >= 10 ==> Pad2(n) == NatToString(n)
  {
    NatToStringValue(n);
    NatToStringLength(n);
    var s := NatToString(n);
    if |s| < 2 {
      assert Pad2(n) == Repeat('0', 2 - |s|) + s;
      LeadingZerosValue(s, 2 - |s|);
    }
  }

  // ---------------------------------------------------------------------
  // formatTime (src/lib/time.ts:7-13)
  // ---------------------------------------------------------------------

  /** `formatTime(seconds)`: hours, minutes and seconds, each padded to two
      digits and joined by ':'. */
  function FormatTime(seconds: nat): string
  {
    var hours := seconds / 3600;
    var minutes := (seconds % 3600) / 60;
    var secs := seconds % 60;
    Pad2(hours) + ":" + Pad2(minutes) + ":" + Pad2(secs)
  }

  /** The three fields `formatTime` computes recompose the input, and the
      minute and second fields are clock values. */
  lemma FormatTimeSplit(seconds: nat)
    ensures var hours, minutes, secs := seconds / 3600, (seconds % 3600) / 60, seconds % 60;
      && hours * 3600 + minutes * 60 + secs == seconds
      && 0 <= minutes <= 59 && 0 <= secs <= 59
  {
    var hours, rest := seconds / 3600, seconds % 3600;
    assert seconds == hours * 3600 + rest;
    assert rest == (rest / 60) * 60 + rest % 60;
    assert rest % 60 == seconds % 60 by {
      assert seconds == (hours * 60) * 60 + rest;
    }
  }

  /** Reads an `H..H:MM:SS` string back: at least two hour digits, then two
      minute digits and two second digits, each below 60. */
  function ParseTime(t: string): (r: Option<nat>)
  {
    if |t| < 8 || t[|t| - 3] != ':' || t[|t| - 6] != ':' then None
    else ClockValue(t[..|t| - 6], t[|t| - 5..|t| - 3], t[|t| - 2..])
  }

  /** The number of seconds three digit fields denote, if they are digits
      and the minute and second fields are below 60. */
  function ClockValue(h: string, m: string, s: string): (r: Option<nat>)
  {
    if !AllDigits(h) || !AllDigits(m) || !AllDigits(s) then None
    else if DigitsValue(m) >= 60 || DigitsValue(s) >= 60 then None
    else Some(DigitsValue(h) * 3600 + DigitsValue(m) * 60 + DigitsValue(s))
  }

  /** The three fields joined by ':' can be sliced back out. */
  lemma JoinFields(hf: string, mf: string, sf: string)
    requires |mf| == 2 && |sf| == 2
    ensures var t := hf + ":" + mf + ":" + sf;
      && |t| == |hf| + 6 && t[|t| - 3] == ':' && t[|t| - 6] == ':'
      && t[..|t| - 6] == hf && t[|t| - 5..|t| - 3] == mf && t[|t| - 2..] == sf
  {
    var u := ":" + mf + ":" + sf;
    assert u[1..3] == mf && u[4..] == sf;
    var t := hf + u;
    assert t == hf + ":" + mf + ":" + sf;
    assert t[..|t| - 6] == hf && t[|t| - 6..] == u;
    assert t[|t| - 5..|t| - 3] == u[1..3];
    assert t[|t| - 2..] == u[4..];
  }

  /** Parsing three fields joined by ':' reads the fields. */
  lemma ParseJoinedFields(hf: string, mf: string, sf: string)
    requires |hf| >= 2 && |mf| == 2 && |sf| == 2
    ensures ParseTime(hf + ":" + mf + ":" + sf) == ClockValue(hf, mf, sf)
  {
    JoinFields(hf, mf, sf);
  }

  /** Parsing three well-formed fields joined by ':' reads off their values. */
  lemma ParseFields(hf: string, mf: string, sf: string)
    requires |hf| >= 2 && |mf| == 2 && |sf| == 2
    requires AllDigits(hf) && AllDigits(mf) && AllDigits(sf)
    requires DigitsValue(mf) < 60 && DigitsValue(sf) < 60
    ensures ClockValue(hf, mf, sf)
         == Some(DigitsValue(hf) * 3600 + DigitsValue(mf) * 60 + DigitsValue(sf))
  {
  }

  /** `formatTime` loses nothing: parsing its output gives back the input,
      for every natural number of seconds. (JavaScript's doubles agree with
      this only while the values are exact integers and `String` prints
      plain digits.) */
  lemma FormatTimeRoundTrip(seconds: nat)
    ensures ParseTime(FormatTime(seconds)) == Some(seconds)
  {
    var hours, minutes, secs := seconds / 3600, (seconds % 3600) / 60, seconds % 60;
    FormatTimeSplit(seconds);
    Pad2Field(hours);
    Pad2Field(minutes);
    Pad2Field(secs);
    ParseJoinedFields(Pad2(hours), Pad2(minutes), Pad2(secs));
    ParseFields(Pad2(hours), Pad2(minutes), Pad2(secs));
  }

  /** The shape of the output: the hour field, ':', two minute digits, ':',
      two second digits; eight characters exactly when the input is below
      100 hours, otherwise the hour field grows and is never cut. */
  lemma FormatTimeShape(seconds: nat)
    ensures var t := FormatTime(seconds);
      && |t| >= 8 && t[|t| - 3] == ':' && t[|t| - 6] == ':'
      && AllDigits(t[..|t| - 6]) && AllDigits(t[|t| - 5..|t| - 3]) && AllDigits(t[|t| - 2..])
      && (|t| == 8 <==> seconds < 360000)
      && t[..|t| - 6] == Pad2(seconds / 3600)
  {
    var hours, minutes, secs := seconds / 3600, (seconds % 3600) / 60, seconds % 60;
    FormatTimeSplit(seconds);
    Pad2Field(hours);
    Pad2Field(minutes);
    Pad2Field(secs);
    JoinFields(Pad2(hours), Pad2(minutes), Pad2(secs));
    assert hours < 100 <==> seconds < 360000;
  }

  lemma FormatTimeZero()
    ensures FormatTime(0) == "00:00:00"
  {
  }

  // ---------------------------------------------------------------------
  // timeToStr / timeToLongStr (src/lib/time.ts:15-23)
  // ---------------------------------------------------------------------

  /** What the two human-readable renderings produce: a literal for zero,
      otherwise a call into the external `ms` library with the millisecond
      count and the long-format flag. */
  datatype Rendering = Literal(text: string) | ViaMsLibrary(milliseconds: int, long: bool)

  function TimeToStr(seconds: int): (r: Rendering)
    ensures r.Literal? <==> seconds == 0
    ensures r.Literal? ==> r.text == "0s"
    ensures r.ViaMsLibrary? ==> r.milliseconds == seconds * 1000 && !r.long
  {
    if seconds == 0 then Literal("0s") else ViaMsLibrary(seconds * 1000, false)
  }

  function TimeToLongStr(seconds: int): (r: Rendering)
    ensures r.Literal? <==> seconds == 0
    ensures r.Literal? ==> r.text == "0s"
    ensures r.ViaMsLibrary? ==> r.milliseconds == seconds * 1000 && r.long
  {
    if seconds == 0 then Literal("0s") else ViaMsLibrary(seconds * 1000, true)
  }
}
