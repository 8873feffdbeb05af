/** The timestamp arithmetic that both subtitle writers repeat for every
    segment boundary: `divmod` by 3600 and by 60, `int()` truncation of each
    part and of the fractional milliseconds, and the zero-padded rendering
    `HH:MM:SS<sep>mmm`.  Times are exact non-negative reals. */
module Timestamp {
  import opened Decimal

  datatype Option<T> = None | Some(value: T)

  /** A time offset in seconds, as the transcription service reports it. */
  type Seconds = t: real | 0.0 <= t

  /** The four printed fields of a timestamp. */
  datatype Clock = Clock(hours: nat, minutes: nat, seconds: nat, millis: nat)

  /** The offset a clock denotes, in whole milliseconds. */
  function TotalMillis(c: Clock): (r: nat) {
    1000 * (3600 * c.hours + 60 * c.minutes + c.seconds) + c.millis
  }

  predicate InRange(c: Clock) {
    c.minutes < 60 && c.seconds < 60 && c.millis < 1000
  }

  /** Python's `divmod` on a float and a positive divisor: the floored
      quotient and the remainder that takes the sign of the divisor. */
  function DivMod(x: real, d: real): (qr: (int, real))
    requires d > 0.0
    ensures x == d * qr.0 as real + qr.1
    ensures 0.0 <= qr.1 < d
  {
    var q := (x / d).Floor;
    ScaleFloor(x, d, q);
    (q, x - d * q as real)
  }

  lemma ScaleFloor(x: real, d: real, q: int)
    requires d > 0.0 && q == (x / d).Floor
    ensures d * q as real <= x < d * q as real + d
  {
    var y := x / d;
    assert x == d * y;
    assert 0.0 <= y - q as real < 1.0;
    var f := y - q as real;
    assert d * f == x - d * q as real;
    assert d * f >= 0.0;
    assert d * f < d by {
      assert d * (1.0 - f) > 0.0;
    }
  }

  /** The clock fields of one time, computed the way both writers do:
      `h, rem = divmod(t, 3600)`, `m, s = divmod(rem, 60)`,
      `ms = (t - int(t)) * 1000`, then `int()` of each (which is the floor,
      the values being non-negative). */
  function Split(t: Seconds): (c: Clock)
    ensures InRange(c)
    ensures 3600 * c.hours + 60 * c.minutes + c.seconds == t.Floor
    ensures TotalMillis(c) == (t * 1000.0).Floor
  {
    var (h, rem) := DivMod(t, 3600.0);
    var (m, s) := DivMod(rem, 60.0);
    var ms := (t - t.Floor as real) * 1000.0;
    assert 0.0 <= ms < 1000.0;
    assert (t * 1000.0).Floor == 1000 * t.Floor + ms.Floor by {
      assert t * 1000.0 == (1000 * t.Floor) as real + ms;
    }
    assert t.Floor == 3600 * h + 60 * m + s.Floor by {
      assert t == (3600 * h + 60 * m) as real + s;
    }
    Clock(h, m, s.Floor, ms.Floor)
  }

  /** Integer reference: the clock of a whole number of milliseconds. */
  function ClockOfMillis(n: nat): (c: Clock)
    ensures InRange(c) && TotalMillis(c) == n
  {
    var secs := n / 1000;
    var mins := secs / 60;
    Clock(mins / 60, mins % 60, secs % 60, n % 1000)
  }

  /** The real-valued computation agrees with the integer one applied to
      the time truncated to whole milliseconds. */
  lemma SplitIsClockOfMillis(t: Seconds)
    ensures Split(t) == ClockOfMillis((t * 1000.0).Floor)
  {
    ClockUnique(Split(t), ClockOfMillis((t * 1000.0).Floor));
  }

  /** In-range fields are determined by the total they denote. */
  lemma ClockUnique(a: Clock, b: Clock)
    requires InRange(a) && InRange(b) && TotalMillis(a) == TotalMillis(b)
    ensures a == b
  {
    var n := TotalMillis(a);
    var ka := 3600 * a.hours + 60 * a.minutes + a.seconds;
    var kb := 3600 * b.hours + 60 * b.minutes + b.seconds;
    assert ka == n / 1000 == kb;
    var ma := 60 * a.hours + a.minutes;
    var mb := 60 * b.hours + b.minutes;
    assert ma == ka / 60 == mb;
    assert a.hours == ma / 60 == b.hours;
  }

  /** Milliseconds are truncated, not rounded: the printed time is never
      later than the true one and is less than one millisecond earlier. */
  lemma Truncates(t: Seconds)
    ensures TotalMillis(Split(t)) as real <= t * 1000.0 < TotalMillis(Split(t)) as real + 1.0
  {
  }

  /** One rendered timestamp, `{h:02}:{m:02}:{s:02}<sep>{ms:03}`. */
  function FormatTimestamp(t: Seconds, sep: char): (r: string) {
    FormatClock(Split(t), sep)
  }

  function FormatClock(c: Clock, sep: char): (r: string) {
    ZeroPad(c.hours, 2) + ":" + ZeroPad(c.minutes, 2) + ":" + ZeroPad(c.seconds, 2)
      + [sep] + ZeroPad(c.millis, 3)
  }

  /** The inverse of `FormatTimestamp`: read `H+:MM:SS<sep>mmm` back into
      its fields, or `None` if the text does not have that shape. */
  function ParseTimestamp(s: string, sep: char): (r: Option<Clock>) {
    if |s| < 12 then None
    else
      var n := |s|;
      var hh, mm, ss, mmm := s[..n - 10], s[n - 9..n - 7], s[n - 6..n - 4], s[n - 3..];
      if AllDigits(hh) && AllDigits(mm) && AllDigits(ss) && AllDigits(mmm)
         && s[n - 10] == ':' && s[n - 7] == ':' && s[n - 4] == sep
      then Some(Clock(ParseDecimal(hh), ParseDecimal(mm), ParseDecimal(ss), ParseDecimal(mmm)))
      else None
  }

  /** Layout of a rendered clock: the hours take at least two digits and
      are never cut down (100 hours and more print three or more digits);
      minutes and seconds take exactly two digits, milliseconds exactly
      three, at fixed places from the end. */
  lemma FormatClockShape(c: Clock, sep: char)
    requires InRange(c)
    ensures var s := FormatClock(c, sep);
      && |s| == Max(2, |NatToString(c.hours)|) + 10
      && s[..|s| - 10] == ZeroPad(c.hours, 2)
      && s[|s| - 10] == ':' && s[|s| - 7] == ':' && s[|s| - 4] == sep
      && s[|s| - 9..|s| - 7] == ZeroPad(c.minutes, 2)
      && s[|s| - 6..|s| - 4] == ZeroPad(c.seconds, 2)
      && s[|s| - 3..] == ZeroPad(c.millis, 3)
      && (c.hours < 100 ==> |s| == 12)
      && (c.hours >= 100 ==> |s| > 12 && s[..|s| - 10] == NatToString(c.hours))
  {
    assert Pow10(2) == 100 && Pow10(3) == 1000;
    ZeroPadWidth(c.hours, 2);
    ZeroPadWidth(c.minutes, 2);
    ZeroPadWidth(c.seconds, 2);
    ZeroPadWidth(c.millis, 3);
    LayoutSlices(ZeroPad(c.hours, 2), ZeroPad(c.minutes, 2), ZeroPad(c.seconds, 2), sep, ZeroPad(c.millis, 3));
  }

  /** A time below 100 hours prints as exactly 12 characters; from 100
      hours on the hours field widens instead of wrapping or clamping. */
  lemma TimestampWidth(t: Seconds, sep: char)
    ensures t < 360000.0 ==> |FormatTimestamp(t, sep)| == 12
    ensures t >= 360000.0 ==> |FormatTimestamp(t, sep)| > 12 && Split(t).hours >= 100
  {
    var c := Split(t);
    FormatClockShape(c, sep);
    assert c.hours < 100 <==> t.Floor < 360000;
  }

  /** Where the parts of `h:m:s<sep>ms` sit, counted from the end. */
  lemma LayoutSlices(h: string, m: string, sc: string, sep: char, ms: string)
    requires |m| == 2 && |sc| == 2 && |ms| == 3
    ensures var s := h + ":" + m + ":" + sc + [sep] + ms;
      && |s| == |h| + 10
      && s[..|s| - 10] == h
      && s[|s| - 10] == ':' && s[|s| - 7] == ':' && s[|s| - 4] == sep
      && s[|s| - 9..|s| - 7] == m
      && s[|s| - 6..|s| - 4] == sc
      && s[|s| - 3..] == ms
  {
    var s := h + ":" + m + ":" + sc + [sep] + ms;
    var n := |s|;
    assert s[..n - 10] == h;
    assert s[n - 9..n - 7] == m;
    assert s[n - 6..n - 4] == sc;
    assert s[n - 3..] == ms;
  }

  /** Every character of a rendered clock is a digit, a colon or the
      separator. */
  lemma FormatClockChars(c: Clock, sep: char)
    ensures var s := FormatClock(c, sep);
      forall i :: 0 <= i < |s| ==> IsDigit(s[i]) || s[i] == ':' || s[i] == sep
  {
    var h, m, sc, ms := ZeroPad(c.hours, 2), ZeroPad(c.minutes, 2), ZeroPad(c.seconds, 2), ZeroPad(c.millis, 3);
    var s := FormatClock(c, sep);
    forall i | 0 <= i < |s|
      ensures IsDigit(s[i]) || s[i] == ':' || s[i] == sep
    {
      var a := |h|;
      var b := a + 1 + |m|;
      var d := b + 1 + |sc|;
      if i < a {
        assert s[i] == h[i];
      } else if a < i < b {
        assert s[i] == m[i - a - 1];
      } else if b < i < d {
        assert s[i] == sc[i - b - 1];
      } else if d < i {
        assert s[i] == ms[i - d - 1];
      }
    }
  }

  /** Reading a rendered clock back gives exactly its fields. */
  lemma ParseFormatClock(c: Clock, sep: char)
    requires InRange(c)
    ensures ParseTimestamp(FormatClock(c, sep), sep) == Some(c)
  {
    var s := FormatClock(c, sep);
    var n := |s|;
    FormatClockShape(c, sep);
    assert AllDigits(s[..n - 10]) && AllDigits(s[n - 9..n - 7]);
    assert AllDigits(s[n - 6..n - 4]) && AllDigits(s[n - 3..]);
    ParseZeroPad(c.hours, 2);
    ParseZeroPad(c.minutes, 2);
    ParseZeroPad(c.seconds, 2);
    ParseZeroPad(c.millis, 3);
  }

  /** Reading a rendered timestamp back gives exactly the computed fields. */
  lemma ParseFormatTimestamp(t: Seconds, sep: char)
    ensures ParseTimestamp(FormatTimestamp(t, sep), sep) == Some(Split(t))
  {
    ParseFormatClock(Split(t), sep);
  }

  /** The two subtitle formats differ only in the character before the
      milliseconds: the rendering with one separator is the rendering with
      the other with that single character replaced. */
  lemma SeparatorOnlyDifference(t: Seconds, a: char, b: char)
    ensures var sa, sb := FormatTimestamp(t, a), FormatTimestamp(t, b);
      |sa| == |sb| && |sa| >= 12 && sb == sa[|sa| - 4 := b]
  {
    SeparatorSwap(Split(t), a, b);
  }

  lemma SeparatorSwap(c: Clock, a: char, b: char)
    requires InRange(c)
    ensures var sa, sb := FormatClock(c, a), FormatClock(c, b);
      |sa| == |sb| && sb == sa[|sa| - 4 := b]
  {
    var pre := ZeroPad(c.hours, 2) + ":" + ZeroPad(c.minutes, 2) + ":" + ZeroPad(c.seconds, 2);
    var ms := ZeroPad(c.millis, 3);
    assert Pow10(3) == 1000;
    ZeroPadWidth(c.millis, 3);
    assert FormatClock(c, a) == pre + [a] + ms;
    assert FormatClock(c, b) == pre + [b] + ms;
    ReplaceAt(pre, a, b, ms);
  }

  lemma ReplaceAt(pre: string, a: char, b: char, post: string)
    ensures var sa := pre + [a] + post;
      |sa| - |post| - 1 == |pre| && sa[|pre| := b] == pre + [b] + post
  {
    var sa := pre + [a] + post;
    assert sa[|pre| := b] == pre + [b] + post;
  }

  /** A time just below a whole second prints the lower second with 999
      milliseconds; it is not rounded up to the next second. */
  lemma TruncationExample()
    ensures Split(3661.9996) == Clock(1, 1, 1, 999)
    ensures FormatTimestamp(3661.9996, '.') == "01:01:01.999"
  {
    SplitExample();
    FormatClockExample();
  }

  lemma SplitExample()
    ensures Split(3661.9996) == Clock(1, 1, 1, 999)
  {
    var t: Seconds := 3661.9996;
    assert (t * 1000.0).Floor == 3661999;
    SplitIsClockOfMillis(t);
  }

  lemma FormatClockExample()
    ensures FormatClock(Clock(1, 1, 1, 999), '.') == "01:01:01.999"
  {
    assert ZeroPad(1, 2) == "01" by {
      assert NatToString(1) == "1";
    }
    assert ZeroPad(999, 3) == "999" by {
      assert NatToString(999) == "999" by {
        assert NatToString(99) == "99" by {
          assert NatToString(9) == "9";
        }
      }
    }
  }

  /** Time 0 prints as all zeros. */
  lemma StampZero(sep: char)
    ensures FormatTimestamp(0.0, sep) == "00:00:00" + [sep] + "000"
  {
    SplitZero();
    ZeroClockText(sep);
  }

  lemma SplitZero()
    ensures Split(0.0) == Clock(0, 0, 0, 0)
  {
    var c := Split(0.0);
    assert 3600 * c.hours + 60 * c.minutes + c.seconds == 0;
    assert TotalMillis(c) == 0;
  }

  lemma ZeroClockText(sep: char)
    ensures FormatClock(Clock(0, 0, 0, 0), sep) == "00:00:00" + [sep] + "000"
  {
    assert NatToString(0) == "0";
  }

  /** 1.5 s prints as one second and 500 milliseconds. */
  lemma StampOneAndAHalf(sep: char)
    ensures FormatTimestamp(1.5, sep) == "00:00:01" + [sep] + "500"
  {
    var t: Seconds := 1.5;
    assert (t * 1000.0).Floor == 1500;
    SplitIsClockOfMillis(t);
    assert Split(t) == Clock(0, 0, 1, 500);
    assert NatToString(0) == "0";
    assert NatToString(1) == "1";
    assert NatToString(500) == "500" by {
      assert NatToString(50) == "50" by {
        assert NatToString(5) == "5";
      }
    }
  }
}
