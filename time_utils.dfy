/** `formatTime`: elapsed milliseconds as `MM:SS` below one hour and as
    `HH:MM:SS` from one hour on, every field padded to two digits. */
module TimeUtils {
  import opened CourtTypes


  predicate IsDigit(c: char) {
    '0' <= c <= '9'
  }

  predicate AllDigits(s: string) {
    forall i :: 0 <= i < |s| ==> IsDigit(s[i])
  }

  function DigitChar(d: nat): (c: char)
    requires d < 10
    ensures IsDigit(c) && c as int - '0' as int == d
  {
    (d + '0' as int) as char
  }

  /** The decimal rendering of a number, as a template literal prints it. */
  function Decimal(n: nat): (s: string)
    ensures AllDigits(s) && |s| >= 1
    ensures n < 10 <==> |s| == 1
    ensures n < 100 ==> |s| <= 2
  {
    if n < 10 then [DigitChar(n)] else Decimal(n / 10) + [DigitChar(n % 10)]
  }

  /** Reads a string of digits back as a number: the inverse of `Decimal`. */
  function ParseDecimal(s: string): nat
    requires AllDigits(s)
  {
    if s == [] then 0
    else 10 * ParseDecimal(s[..|s| - 1]) + (s[|s| - 1] as int - '0' as int)
  }

  lemma {:induction false} DecimalRoundTrip(n: nat)
    ensures ParseDecimal(Decimal(n)) == n
  {
    if n >= 10 {
      var s := Decimal(n);
      assert s[..|s| - 1] == Decimal(n / 10);
      DecimalRoundTrip(n / 10);
    }
  }

  lemma {:induction false} ParseDecimalLeadingZero(s: string)
    requires AllDigits(s)
    ensures AllDigits("0" + s) && ParseDecimal("0" + s) == ParseDecimal(s)
  {
    if s != [] {
      var t := "0" + s;
      assert t[..|t| - 1] == "0" + s[..|s| - 1];
      ParseDecimalLeadingZero(s[..|s| - 1]);
    }
  }

  /** A field of the clock: a leading zero below ten. */
  function Pad2(n: nat): (s: string)
    ensures AllDigits(s) && |s| >= 2
    ensures n < 100 ==> |s| == 2
    ensures ParseDecimal(s) == n
  {
    DecimalRoundTrip(n);
    if n < 10 then
      ParseDecimalLeadingZero(Decimal(n));
      "0" + Decimal(n)
    else
      Decimal(n)
  }

  /** `formatTime`. Zero takes its own branch, with the same text the general
      case would give. */
  function FormatTime(ms: nat): (r: string)
    ensures ms < 3600000 ==> |r| == 5 && r[2] == ':'
    ensures ms >= 3600000 ==> |r| >= 8 && r[|r| - 6] == ':' && r[|r| - 3] == ':'
    ensures 3600000 <= ms < 100 * 3600000 ==> |r| == 8
  {
    if ms == 0 then "00:00"
    else
      var seconds := (ms / 1000) % 60;
      var minutes := (ms / 60000) % 60;
      var hours := ms / 3600000;
      ClockText(hours, minutes, seconds)
  }

  /** The template of `formatTime`: the hours field only when there are
      hours. */
  function ClockText(hours: nat, minutes: nat, seconds: nat): (r: string)
    requires minutes < 60 && seconds < 60
    ensures hours == 0 ==> |r| == 5 && r[2] == ':'
    ensures hours > 0 ==> |r| >= 8 && r[|r| - 6] == ':' && r[|r| - 3] == ':'
    ensures 0 < hours < 100 ==> |r| == 8
  {
    if hours > 0 then Pad2(hours) + ":" + Pad2(minutes) + ":" + Pad2(seconds)
    else Pad2(minutes) + ":" + Pad2(seconds)
  }

  /** Reads a clock text back as whole seconds: `MM:SS` or `HH:MM:SS`, where
      the hours field may be longer than two digits. */
  function ParseClock(s: string): Option<nat> {
    if |s| == 5 && s[2] == ':' && AllDigits(s[..2]) && AllDigits(s[3..]) then
      Some(60 * ParseDecimal(s[..2]) + ParseDecimal(s[3..]))
    else if |s| >= 8 && s[|s| - 6] == ':' && s[|s| - 3] == ':'
      && AllDigits(s[..|s| - 6]) && AllDigits(s[|s| - 5..|s| - 3]) && AllDigits(s[|s| - 2..]) then
      Some(3600 * ParseDecimal(s[..|s| - 6]) + 60 * ParseDecimal(s[|s| - 5..|s| - 3])
           + ParseDecimal(s[|s| - 2..]))
    else None
  }

  /** Where the fields sit in `MM:SS`. */
  lemma ShortFields(a: string, b: string)
    requires |a| == 2 && |b| == 2
    ensures var r := a + ":" + b;
      && r[..2] == a && r[3..] == b && r[|r| - 5..|r| - 3] == a && r[|r| - 2..] == b
  {
  }

  /** Where the fields sit in `HH:MM:SS`. */
  lemma LongFields(h: string, a: string, b: string)
    requires |h| >= 2 && |a| == 2 && |b| == 2
    ensures var r := h + ":" + a + ":" + b;
      && r[..|r| - 6] == h && r[|r| - 5..|r| - 3] == a && r[|r| - 2..] == b
  {
    var r := h + ":" + a + ":" + b;
    assert r == h + ([':'] + a + [':'] + b);
  }

  /** Each field of the template is the padded number put in. */
  lemma ClockTextFields(hours: nat, minutes: nat, seconds: nat)
    requires minutes < 60 && seconds < 60
    ensures var r := ClockText(hours, minutes, seconds);
      && r[|r| - 5..|r| - 3] == Pad2(minutes) && r[|r| - 2..] == Pad2(seconds)
      && (hours > 0 ==> r[..|r| - 6] == Pad2(hours))
      && (hours == 0 ==> r[..2] == Pad2(minutes) && r[3..] == Pad2(seconds))
  {
    if hours > 0 {
      LongFields(Pad2(hours), Pad2(minutes), Pad2(seconds));
    } else {
      ShortFields(Pad2(minutes), Pad2(seconds));
    }
  }

  /** A text in the `MM:SS` shape reads back as its two fields. */
  lemma ParseShortShape(r: string)
    requires |r| == 5 && r[2] == ':' && AllDigits(r[..2]) && AllDigits(r[3..])
    ensures ParseClock(r) == Some(60 * ParseDecimal(r[..2]) + ParseDecimal(r[3..]))
  {
  }

  /** A text in the `HH:MM:SS` shape, not also in the `MM:SS` shape, reads
      back as its three fields. */
  lemma ParseLongShape(r: string, h: string, a: string, b: string)
    requires |r| >= 8 && r[|r| - 6] == ':' && r[|r| - 3] == ':'
    requires r[..|r| - 6] == h && r[|r| - 5..|r| - 3] == a && r[|r| - 2..] == b
    requires AllDigits(h) && AllDigits(a) && AllDigits(b)
    ensures ParseClock(r) == Some(3600 * ParseDecimal(h) + 60 * ParseDecimal(a) + ParseDecimal(b))
  {
  }

  /** `MM:SS` read back. */
  lemma ParseShort(a: string, b: string)
    requires |a| == 2 && |b| == 2 && AllDigits(a) && AllDigits(b)
    ensures ParseClock(a + ":" + b) == Some(60 * ParseDecimal(a) + ParseDecimal(b))
  {
    var r := a + ":" + b;
    ShortFields(a, b);
    assert |r| == 5 && r[2] == ':';
    ParseShortShape(r);
  }

  /** `HH:MM:SS` read back. */
  lemma ParseLong(h: string, a: string, b: string)
    requires |h| >= 2 && |a| == 2 && |b| == 2 && AllDigits(h) && AllDigits(a) && AllDigits(b)
    ensures ParseClock(h + ":" + a + ":" + b)
         == Some(3600 * ParseDecimal(h) + 60 * ParseDecimal(a) + ParseDecimal(b))
  {
    var r := h + ":" + a + ":" + b;
    LongFields(h, a, b);
    assert |r| == |h| + 6;
    assert r[|r| - 6] == ':' && r[|r| - 3] == ':';
    ParseLongShape(r, h, a, b);
  }

  /** The template read back: the fields add up to the seconds they name. */
  lemma ClockTextRoundTrip(hours: nat, minutes: nat, seconds: nat)
    requires minutes < 60 && seconds < 60
    ensures ParseClock(ClockText(hours, minutes, seconds)) == Some(3600 * hours + 60 * minutes + seconds)
  {
    var m, s := Pad2(minutes), Pad2(seconds);
    if hours > 0 {
      ParseLong(Pad2(hours), m, s);
    } else {
      ParseShort(m, s);
    }
  }

  /** The three clock fields recombine into the whole seconds of `ms`. */
  lemma ClockArithmetic(ms: nat)
    ensures 3600 * (ms / 3600000) + 60 * ((ms / 60000) % 60) + (ms / 1000) % 60
            == ms / 1000
  {
    var s := ms / 1000;
    var m := s / 60;
    assert ms / 60000 == m;
    assert ms / 3600000 == m / 60;
    assert 60 * m + s % 60 == s;
    assert 60 * (m / 60) + m % 60 == m;
  }

  /** Below one hour there are no hours and fewer than sixty minutes. */
  lemma BelowOneHour(ms: nat)
    requires ms < 3600000
    ensures ms / 3600000 == 0 && (ms / 60000) % 60 == ms / 60000
  {
  }

  /** Zero's own branch gives what the template gives for zero. */
  lemma FormatTimeIsClock(ms: nat)
    ensures FormatTime(ms) == ClockText(ms / 3600000, (ms / 60000) % 60, (ms / 1000) % 60)
  {
    if ms == 0 {
      assert Pad2(0) == "00";
    }
  }

  /** The text names the whole seconds of its input: the hours, minutes and
      seconds fields add up to `ms div 1000` (sub-second parts are dropped). */
  lemma FormatTimeRoundTrip(ms: nat)
    ensures ParseClock(FormatTime(ms)) == Some(ms / 1000)
  {
    var hh := ms / 3600000;
    var mm := (ms / 60000) % 60;
    var ss := (ms / 1000) % 60;
    FormatTimeIsClock(ms);
    ClockTextRoundTrip(hh, mm, ss);
    ClockArithmetic(ms);
  }

  /** The minutes and seconds fields are always two digits naming 0..59
      (see `Pad2`); below one hour the minutes field is the whole minutes of
      `ms`, from one hour on the leading field is the whole hours. */
  lemma FormatTimeFields(ms: nat)
    ensures var r := FormatTime(ms);
      && r[|r| - 5..|r| - 3] == Pad2((ms / 60000) % 60) && (ms / 60000) % 60 < 60
      && r[|r| - 2..] == Pad2((ms / 1000) % 60) && (ms / 1000) % 60 < 60
      && (ms < 3600000 ==> r[..2] == Pad2(ms / 60000))
      && (ms >= 3600000 ==> r[..|r| - 6] == Pad2(ms / 3600000))
  {
    var hh := ms / 3600000;
    var mm := (ms / 60000) % 60;
    var ss := (ms / 1000) % 60;
    FormatTimeIsClock(ms);
    ClockTextFields(hh, mm, ss);
    if ms < 3600000 {
      BelowOneHour(ms);
    }
  }

  /** Anything under one second shows as zero. */
  lemma FormatTimeUnderOneSecond(ms: nat)
    requires ms < 1000
    ensures FormatTime(ms) == "00:00"
  {
    if ms > 0 {
      assert Pad2(0) == "00";
    }
  }

  lemma PadSmall(d: nat)
    requires d < 10
    ensures Pad2(d) == ['0', DigitChar(d)]
  {
  }

  /** The examples the clock is known by. */
  lemma FormatTimeExamples()
    ensures FormatTime(0) == "00:00"
    ensures FormatTime(65000) == "01:05"
    ensures FormatTime(599000) == "09:59"
    ensures FormatTime(3661000) == "01:01:01"
  {
    Example65();
    Example599();
    Example3661();
  }

  lemma Example65()
    ensures FormatTime(65000) == "01:05"
  {
    assert 65000 / 1000 % 60 == 5 && 65000 / 60000 % 60 == 1 && 65000 / 3600000 == 0;
    assert FormatTime(65000) == ClockText(0, 1, 5);
    PadSmall(1);
    PadSmall(5);
    assert Pad2(1) == "01" && Pad2(5) == "05";
    assert ClockText(0, 1, 5) == "01" + ":" + "05";
  }

  lemma Example3661()
    ensures FormatTime(3661000) == "01:01:01"
  {
    assert 3661000 / 1000 % 60 == 1 && 3661000 / 60000 % 60 == 1 && 3661000 / 3600000 == 1;
    assert FormatTime(3661000) == ClockText(1, 1, 1);
    PadSmall(1);
    assert Pad2(1) == "01";
    assert ClockText(1, 1, 1) == "01" + ":" + "01" + ":" + "01";
  }

  lemma Example599()
    ensures FormatTime(599000) == "09:59"
  {
    assert 599000 / 1000 % 60 == 59 && 599000 / 60000 % 60 == 9 && 599000 / 3600000 == 0;
    assert FormatTime(599000) == ClockText(0, 9, 59);
    PadSmall(9);
    assert Pad2(9) == "09";
    assert Decimal(5) == "5";
    assert Decimal(59) == Decimal(5) + [DigitChar(9)] == "59";
    assert Pad2(59) == "59";
    assert ClockText(0, 9, 59) == "09" + ":" + "59";
  }
}
