/**
 The `mm:ss` display of the countdown (`formatTime` in src/App.js).

 The source renders the minutes `Math.floor(secs / 60)` and the seconds
 `secs % 60` with JavaScript's `Number.prototype.toString`, left-pads each with
 `padStart(2, "0")` and joins them with a colon. This module models each of
 those three string primitives on their own, proves what they mean through an
 independent decimal parser, and builds the formatter from them.
 */
module TimeFormat {
  import opened Sequences

  datatype Option<T> = None | Some(value: T)

  const SecondsPerMinute: nat := 60

  predicate IsDigit(c: char) {
    '0' <= c <= '9'
  }

  predicate AllDigits(s: string) {
    forall i :: 0 <= i < |s| ==> IsDigit(s[i])
  }

  function DigitChar(d: nat): (c: char)
    requires d < 10
  {
    (48 + d) as char
  }

  function DigitValue(c: char): (d: nat)
    requires IsDigit(c)
  {
    (c as int) - ('0' as int)
  }

  /** The value a string of decimal digits denotes; leading zeros are allowed. */
  function ParseDecimal(s: string): nat
    requires AllDigits(s)
    decreases |s|
  {
    if |s| == 0 then 0 else ParseDecimal(s[..|s| - 1]) * 10 + DigitValue(s[|s| - 1])
  }

  /** `n.toString()` for a non-negative integer: shortest decimal, no sign. */
  function Decimal(n: nat): (r: string)
    ensures 1 <= |r| && AllDigits(r)
    ensures ParseDecimal(r) == n
    ensures n < 10 <==> |r| == 1
    ensures n < 100 <==> |r| <= 2
    ensures |r| > 1 ==> r[0] != '0'
    decreases n
  {
    if n < 10 then [DigitChar(n)]
    else
      var prefix := Decimal(n / 10);
      var r := prefix + [DigitChar(n % 10)];
      assert r[..|r| - 1] == prefix;
      r
  }

  /** `s.padStart(width, fill)` with a one-character fill: never truncates. */
  function PadStart(s: string, width: nat, fill: char): (r: string)
    ensures |r| == if |s| >= width then |s| else width
    ensures r[|r| - |s|..] == s
    ensures forall i :: 0 <= i < |r| - |s| ==> r[i] == fill
  {
    if |s| >= width then s else Repeat(fill, width - |s|) + s
  }

  lemma {:induction false} ZerosParseToZero(k: nat)
    ensures AllDigits(Repeat('0', k))
    ensures ParseDecimal(Repeat('0', k)) == 0
  {
    if k > 0 {
      var z := Repeat('0', k);
      assert z[..k - 1] == Repeat('0', k - 1);
      ZerosParseToZero(k - 1);
    }
  }

  /** Leading zeros do not change the value of a digit string. */
  lemma {:induction false} LeadingZerosIgnored(k: nat, s: string)
    requires AllDigits(s)
    ensures AllDigits(Repeat('0', k) + s)
    ensures ParseDecimal(Repeat('0', k) + s) == ParseDecimal(s)
    decreases |s|
  {
    var z := Repeat('0', k);
    if |s| == 0 {
      assert z + s == z;
      ZerosParseToZero(k);
    } else {
      var t := z + s;
      assert t[..|t| - 1] == z + s[..|s| - 1];
      LeadingZerosIgnored(k, s[..|s| - 1]);
    }
  }

  /** Zero-padding a digit string keeps it a digit string of the same value. */
  lemma ZeroPadKeepsValue(s: string, width: nat)
    requires AllDigits(s)
    ensures AllDigits(PadStart(s, width, '0'))
    ensures ParseDecimal(PadStart(s, width, '0')) == ParseDecimal(s)
  {
    if |s| < width {
      LeadingZerosIgnored(width - |s|, s);
    }
  }

  /** A two-character field `n.toString().padStart(2, "0")`, for `n < 100`. */
  function TwoDigits(n: nat): (r: string)
    ensures AllDigits(r) && ParseDecimal(r) == n
    ensures n < 100 ==> |r| == 2
    ensures n >= 100 ==> |r| > 2 && r[0] != '0'
  {
    ZeroPadKeepsValue(Decimal(n), 2);
    PadStart(Decimal(n), 2, '0')
  }

  lemma MinutesBelowHundred(secs: nat)
    ensures secs % SecondsPerMinute < 100
    ensures secs / SecondsPerMinute < 100 <==> secs < 100 * SecondsPerMinute
  {
  }

  /** What `${m}:${s}` is made of, given fields that read as `m` and `s`. */
  lemma ClockParts(minutes: string, seconds: string, m: nat, sec: nat)
    requires AllDigits(minutes) && AllDigits(seconds)
    requires |minutes| >= 2 && |seconds| == 2
    requires ParseDecimal(minutes) == m && ParseDecimal(seconds) == sec
    ensures var r := minutes + ":" + seconds;
      && |r| == |minutes| + 3 && r[|r| - 3] == ':' && r[0] == minutes[0]
      && AllDigits(r[..|r| - 3]) && AllDigits(r[|r| - 2..])
      && ParseDecimal(r[..|r| - 3]) == m && ParseDecimal(r[|r| - 2..]) == sec
  {
    var r := minutes + ":" + seconds;
    assert r[..|r| - 3] == minutes;
    assert r[|r| - 2..] == seconds;
  }

  /** `formatTime(secs)` of src/App.js for a non-negative number of seconds. */
  function FormatTime(secs: nat): (r: string)
    ensures |r| >= 5 && r[|r| - 3] == ':'
    ensures AllDigits(r[..|r| - 3]) && AllDigits(r[|r| - 2..])
    ensures ParseDecimal(r[..|r| - 3]) == secs / SecondsPerMinute
    ensures ParseDecimal(r[|r| - 2..]) == secs % SecondsPerMinute
    ensures secs < 100 * SecondsPerMinute <==> |r| == 5
    ensures ParseClock(r) == Some(secs)
  {
    MinutesBelowHundred(secs);
    var minutes := TwoDigits(secs / SecondsPerMinute);
    var seconds := TwoDigits(secs % SecondsPerMinute);
    ClockParts(minutes, seconds, secs / SecondsPerMinute, secs % SecondsPerMinute);
    ReadsBack(minutes + ":" + seconds, secs);
    minutes + ":" + seconds
  }

  /** From 100 minutes on, the minutes field is printed in full, so the display has no leading zero. */
  lemma FormatTimeNoLeadingZero(secs: nat)
    requires secs >= 100 * SecondsPerMinute
    ensures FormatTime(secs)[0] != '0'
  {
  }

  /** Reads a display back: a digit run, a colon, and exactly two digits below 60. */
  function ParseClock(t: string): (o: Option<nat>)
    ensures o.Some? ==> |t| >= 4 && t[|t| - 3] == ':'
  {
    if |t| >= 4 && t[|t| - 3] == ':' && AllDigits(t[..|t| - 3]) && AllDigits(t[|t| - 2..])
       && ParseDecimal(t[|t| - 2..]) < SecondsPerMinute
    then Some(ParseDecimal(t[..|t| - 3]) * SecondsPerMinute + ParseDecimal(t[|t| - 2..]))
    else None
  }

  /** Any string with the shape `FormatTime` promises parses back to its seconds. */
  lemma ReadsBack(r: string, secs: nat)
    requires |r| >= 5 && r[|r| - 3] == ':'
    requires AllDigits(r[..|r| - 3]) && AllDigits(r[|r| - 2..])
    requires ParseDecimal(r[..|r| - 3]) == secs / SecondsPerMinute
    requires ParseDecimal(r[|r| - 2..]) == secs % SecondsPerMinute
    ensures ParseClock(r) == Some(secs)
  {
  }

  /** Distinct second counts never share a display. */
  lemma FormatTimeInjective(a: nat, b: nat)
    requires a != b
    ensures FormatTime(a) != FormatTime(b)
  {
  }

  lemma {:induction false} TwoDigitValue(s: string)
    requires |s| == 2 && AllDigits(s)
    ensures DigitValue(s[0]) == ParseDecimal(s) / 10
    ensures DigitValue(s[1]) == ParseDecimal(s) % 10
  {
    assert s[..1][..0] == [];
    assert ParseDecimal(s[..1]) == DigitValue(s[0]);
  }

  /**
   Below 100 minutes the display is exactly `MM:SS`: five characters, the colon
   at index 2, and each digit the matching decimal digit of the minutes and
   seconds.
   */
  lemma FormatTimeDigits(secs: nat)
    requires secs < 100 * SecondsPerMinute
    ensures var r := FormatTime(secs);
      && |r| == 5 && r[2] == ':'
      && IsDigit(r[0]) && IsDigit(r[1]) && IsDigit(r[3]) && IsDigit(r[4])
      && DigitValue(r[0]) == secs / SecondsPerMinute / 10
      && DigitValue(r[1]) == secs / SecondsPerMinute % 10
      && DigitValue(r[3]) == secs % SecondsPerMinute / 10
      && DigitValue(r[4]) == secs % SecondsPerMinute % 10
  {
    FiveCharDigits(FormatTime(secs), secs / SecondsPerMinute, secs % SecondsPerMinute);
  }

  lemma FiveCharDigits(r: string, m: nat, sec: nat)
    requires |r| == 5 && r[2] == ':'
    requires AllDigits(r[..2]) && AllDigits(r[3..])
    requires ParseDecimal(r[..2]) == m && ParseDecimal(r[3..]) == sec
    ensures IsDigit(r[0]) && IsDigit(r[1]) && IsDigit(r[3]) && IsDigit(r[4])
    ensures DigitValue(r[0]) == m / 10 && DigitValue(r[1]) == m % 10
    ensures DigitValue(r[3]) == sec / 10 && DigitValue(r[4]) == sec % 10
  {
    assert r[..2][0] == r[0] && r[..2][1] == r[1];
    assert r[3..][0] == r[3] && r[3..][1] == r[4];
    TwoDigitValue(r[..2]);
    TwoDigitValue(r[3..]);
  }

  /** Below 100 minutes, the display spelled out character by character. */
  lemma FormatTimeSpelled(secs: nat)
    requires secs < 100 * SecondsPerMinute
    ensures var m, s := secs / SecondsPerMinute, secs % SecondsPerMinute;
      FormatTime(secs) == [DigitChar(m / 10), DigitChar(m % 10), ':', DigitChar(s / 10), DigitChar(s % 10)]
  {
    FormatTimeDigits(secs);
    SpelledFromDigits(FormatTime(secs));
  }

  lemma SpelledFromDigits(r: string)
    requires |r| == 5 && r[2] == ':'
    requires IsDigit(r[0]) && IsDigit(r[1]) && IsDigit(r[3]) && IsDigit(r[4])
    ensures r == [DigitChar(DigitValue(r[0])), DigitChar(DigitValue(r[1])), ':',
                  DigitChar(DigitValue(r[3])), DigitChar(DigitValue(r[4]))]
  {
  }

  /**
   A display below 100 minutes from its four digits: for instance 3599 seconds
   (59 * 60 + 59) shows "59:59" and 0 shows "00:00".
   */
  lemma FormatTimeExample(secs: nat, m1: nat, m0: nat, s1: nat, s0: nat)
    requires m1 < 10 && m0 < 10 && s1 < 6 && s0 < 10
    requires secs == (m1 * 10 + m0) * SecondsPerMinute + s1 * 10 + s0
    ensures FormatTime(secs) == [DigitChar(m1), DigitChar(m0), ':', DigitChar(s1), DigitChar(s0)]
  {
    var m := m1 * 10 + m0;
    var s := s1 * 10 + s0;
    DivModUnique(secs, m, s, SecondsPerMinute);
    DivModUnique(m, m1, m0, 10);
    DivModUnique(s, s1, s0, 10);
    FormatTimeSpelled(secs);
  }

  lemma DivModUnique(n: nat, q: nat, r: nat, d: nat)
    requires 0 < d && r < d && n == q * d + r
    ensures n / d == q && n % d == r
  {
    var q', r' := n / d, n % d;
    assert n == q' * d + r';
    if q' < q {
      MulGap(q', q, d);
    } else if q' > q {
      MulGap(q, q', d);
    }
  }

  lemma {:induction false} MulGap(a: nat, b: nat, d: nat)
    requires a < b
    ensures a * d + d <= b * d
    decreases b - a
  {
    if a + 1 < b {
      MulGap(a + 1, b, d);
    }
  }
}