/** The elapsed-time text shown above the puzzle: a millisecond difference
    rendered as `MM:SS:CC` (minutes, seconds, centiseconds, each padded to two
    digits), and the reading of such a text back into milliseconds. */
module Timing {

  datatype Option<T> = None | Some(value: T)

  function Abs(x: int): nat
  {
    if x < 0 then -x else x
  }

  predicate IsDigit(c: char)
  {
    '0' <= c <= '9'
  }

  predicate AllDigits(s: string)
  {
    forall k :: 0 <= k < |s| ==> IsDigit(s[k])
  }

  function DigitChar(d: nat): (c: char)
    requires d < 10
    ensures IsDigit(c)
  {
    (48 + d) as char
  }

  function DigitValue(c: char): nat
    requires IsDigit(c)
  {
    c as int - 48
  }

  /** `String(n)` for a non-negative integer: its decimal digits, most significant first. */
  function DecimalString(n: nat): (s: string)
    ensures |s| >= 1 && AllDigits(s)
    decreases n
  {
    if n < 10 then [DigitChar(n)] else DecimalString(n / 10) + [DigitChar(n % 10)]
  }

  /** The number a string of decimal digits denotes. */
  function DecimalValue(s: string): nat
    requires AllDigits(s)
  {
    if s == [] then 0 else DecimalValue(s[..|s| - 1]) * 10 + DigitValue(s[|s| - 1])
  }

  lemma {:induction false} DecimalRoundTrip(n: nat)
    ensures DecimalValue(DecimalString(n)) == n
  {
    if n >= 10 {
      var s := DecimalString(n);
      assert s[..|s| - 1] == DecimalString(n / 10);
      DecimalRoundTrip(n / 10);
    }
  }

  lemma {:induction false} DecimalLength(n: nat)
    ensures |DecimalString(n)| == 1 <==> n < 10
    ensures |DecimalString(n)| <= 2 <==> n < 100
  {
    if n >= 10 {
      DecimalLength(n / 10);
    }
  }

  /** `s.padStart(width, fill)` for a one-character `fill`: copies of `fill`
      are put in front of `s` until it is `width` characters long. */
  function PadStart(s: string, width: nat, fill: char): string
    decreases width - |s|
  {
    if |s| >= width then s else PadStart([fill] + s, width, fill)
  }

  /** What `PadStart` promises: at least `width` characters, `s` itself at the
      end and nothing but `fill` in front of it. */
  lemma {:induction false} PadStartShape(s: string, width: nat, fill: char)
    ensures var r := PadStart(s, width, fill);
      && |r| == (if |s| >= width then |s| else width)
      && r == Repeat(fill, |r| - |s|) + s
    decreases width - |s|
  {
    if |s| < width {
      PadStartShape([fill] + s, width, fill);
      var n := |PadStart(s, width, fill)| - |s|;
      assert Repeat(fill, n - 1) + ([fill] + s) == Repeat(fill, n) + s;
    }
  }

  function Repeat(c: char, n: nat): (r: string)
    ensures |r| == n && forall k :: 0 <= k < n ==> r[k] == c
  {
    seq(n, _ => c)
  }

  /** The `pad` helper of the formatter: `String(n).padStart(2, '0')`. */
  function Pad(n: nat): string
  {
    PadStart(DecimalString(n), 2, '0')
  }

  lemma PadDigits(n: nat)
    ensures |Pad(n)| >= 2 && AllDigits(Pad(n))
    ensures |Pad(n)| == 2 <==> n < 100
    ensures n < 100 ==> DecimalValue(Pad(n)) == n
  {
    DecimalLength(n);
    if n < 10 {
      var p := Pad(n);
      assert p == ['0', DigitChar(n)];
      assert p[..1] == ['0'] && ['0'][..0] == [];
      assert DecimalValue(['0']) == 0;
    } else {
      assert Pad(n) == DecimalString(n);
      DecimalRoundTrip(n);
    }
  }

  /** `formatTimeInterval(date1, date2)`: the absolute difference of the two
      times, split into whole minutes, the seconds within the minute and the
      centiseconds within the second. Sixty seconds and a hundred
      centiseconds never occur, so the text is exactly eight characters long
      precisely when the difference is under one hundred minutes. */
  function FormatTimeInterval(date1: int, date2: int): string
  {
    var diffMs := Abs(date2 - date1);
    var totalSeconds := diffMs / 1000;
    var minutes := totalSeconds / 60;
    var seconds := totalSeconds % 60;
    var centiseconds := (diffMs % 1000) / 10;
    Pad(minutes) + ":" + Pad(seconds) + ":" + Pad(centiseconds)
  }

  lemma FormatLength(date1: int, date2: int)
    ensures |FormatTimeInterval(date1, date2)| >= 8
    ensures |FormatTimeInterval(date1, date2)| == 8 <==> Abs(date2 - date1) < 6_000_000
  {
    var d := Abs(date2 - date1);
    FieldBounds(d);
    PadDigits((d / 1000) / 60);
    PadDigits((d / 1000) % 60);
    PadDigits((d % 1000) / 10);
  }

  lemma FieldBounds(d: nat)
    ensures (d / 1000) % 60 < 60 && (d % 1000) / 10 < 100
    ensures (d / 1000) / 60 < 100 <==> d < 6_000_000
  {
  }

  lemma FieldArithmetic(d: nat)
    ensures ((d / 1000) / 60 * 60 + (d / 1000) % 60) * 1000 + (d % 1000) / 10 * 10 == d - d % 10
  {
    var t := d / 1000;
    assert t / 60 * 60 + t % 60 == t;
    assert t * 1000 + d % 1000 == d;
    assert (d % 1000) / 10 * 10 + (d % 1000) % 10 == d % 1000;
    assert (d % 1000) % 10 == d % 10;
  }

  /** Reads an eight-character `MM:SS:CC` text back as milliseconds; the
      seconds field must be below sixty, so that no two texts read back alike. */
  function ParseDisplay(t: string): Option<nat>
  {
    if |t| == 8 && t[2] == ':' && t[5] == ':'
       && AllDigits(t[..2]) && AllDigits(t[3..5]) && AllDigits(t[6..])
       && DecimalValue(t[3..5]) < 60
    then Some((DecimalValue(t[..2]) * 60 + DecimalValue(t[3..5])) * 1000 + DecimalValue(t[6..]) * 10)
    else None
  }

  /** Below one hundred minutes the text reads back as the difference
      truncated to whole centiseconds. */
  lemma FormatRoundTrip(date1: int, date2: int)
    requires Abs(date2 - date1) < 6_000_000
    ensures ParseDisplay(FormatTimeInterval(date1, date2))
            == Some(Abs(date2 - date1) - Abs(date2 - date1) % 10)
  {
    var d := Abs(date2 - date1);
    var m, sec, c := (d / 1000) / 60, (d / 1000) % 60, (d % 1000) / 10;
    FieldBounds(d);
    FieldArithmetic(d);
    PadDigits(m);
    PadDigits(sec);
    PadDigits(c);
    var t := FormatTimeInterval(date1, date2);
    assert t == Pad(m) + ":" + Pad(sec) + ":" + Pad(c);
    assert t[..2] == Pad(m);
    assert t[3..5] == Pad(sec);
    assert t[6..] == Pad(c);
  }

  lemma TwoDigits(s: string)
    requires |s| == 2 && AllDigits(s)
    ensures DecimalValue(s) == DigitValue(s[0]) * 10 + DigitValue(s[1])
  {
    var head := s[..1];
    assert head[..0] == [] && head[0] == s[0];
    assert DecimalValue(head) == DigitValue(s[0]);
    assert s[..|s| - 1] == head;
  }

  lemma SameTwoDigits(a: string, b: string)
    requires |a| == 2 && AllDigits(a) && |b| == 2 && AllDigits(b)
    requires DecimalValue(a) == DecimalValue(b)
    ensures a == b
  {
    TwoDigits(a);
    TwoDigits(b);
    assert DigitValue(a[0]) == DigitValue(b[0]) && DigitValue(a[1]) == DigitValue(b[1]);
    assert a == [a[0], a[1]] && b == [b[0], b[1]];
  }

  /** Minutes, seconds under sixty and centiseconds under a hundred are
      recovered from the milliseconds they read back as. */
  lemma FieldsDetermined(ma: nat, sa: nat, ca: nat, mb: nat, sb: nat, cb: nat)
    requires sa < 60 && ca < 100 && sb < 60 && cb < 100
    requires (ma * 60 + sa) * 1000 + ca * 10 == (mb * 60 + sb) * 1000 + cb * 10
    ensures ma == mb && sa == sb && ca == cb
  {
    var ta, tb := ma * 60 + sa, mb * 60 + sb;
    assert ta == tb;
  }

  /** A text that reads back is the only text that reads back as its value. */
  lemma ParseDisplayInjective(a: string, b: string)
    requires ParseDisplay(a).Some? && ParseDisplay(a) == ParseDisplay(b)
    ensures a == b
  {
    TwoDigits(a[6..]);
    TwoDigits(b[6..]);
    FieldsDetermined(DecimalValue(a[..2]), DecimalValue(a[3..5]), DecimalValue(a[6..]),
                     DecimalValue(b[..2]), DecimalValue(b[3..5]), DecimalValue(b[6..]));
    SameTwoDigits(a[..2], b[..2]);
    SameTwoDigits(a[3..5], b[3..5]);
    SameTwoDigits(a[6..], b[6..]);
    assert a == a[..2] + ":" + a[3..5] + ":" + a[6..];
    assert b == b[..2] + ":" + b[3..5] + ":" + b[6..];
  }

  lemma FormatSymmetric(date1: int, date2: int)
    ensures FormatTimeInterval(date1, date2) == FormatTimeInterval(date2, date1)
  {
  }

  lemma PadSmall(n: nat)
    requires n < 100
    ensures Pad(n) == [DigitChar(n / 10), DigitChar(n % 10)]
  {
    PadStartShape(DecimalString(n), 2, '0');
    if n < 10 {
      assert DecimalString(n) == [DigitChar(n)];
    } else {
      assert DecimalString(n / 10) == [DigitChar(n / 10)];
    }
  }

  lemma FormatZero()
    ensures FormatTimeInterval(0, 0) == "00:00:00"
  {
    PadSmall(0);
  }

  lemma FormatExample()
    ensures FormatTimeInterval(61234, 0) == "01:01:23"
    ensures FormatTimeInterval(-500, 0) == FormatTimeInterval(500, 0)
  {
    var d := Abs(0 - 61234);
    assert d / 1000 / 60 == 1 && d / 1000 % 60 == 1 && d % 1000 / 10 == 23;
    assert FormatTimeInterval(61234, 0) == Pad(1) + ":" + Pad(1) + ":" + Pad(23);
    PadSmall(1);
    PadSmall(23);
    assert Pad(1) == "01" && Pad(23) == "23";
  }
}
