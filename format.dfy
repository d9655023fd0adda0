/**
 * The `HH:MM:SS` rendering of an elapsed number of seconds, as the timer
 * service's `elapsedTime` produces it: the `long` is narrowed to an `int`,
 * split into hours, minutes and seconds with Java's truncating `/` and `%`,
 * and each figure is printed with the `%02d` conversion.  Digits are ASCII.
 *
 * The minutes figure is the whole number of minutes, NOT reduced modulo 60,
 * and that is what is modelled: 3661 seconds render as "01:61:01".
 */
module Format {
  import opened JavaMath
  import opened Options

  predicate IsDigit(c: char) {
    '0' <= c <= '9'
  }

  predicate AllDigits(s: string) {
    forall i | 0 <= i < |s| :: IsDigit(s[i])
  }

  /** The ASCII digit for a value below ten. */
  function DigitChar(d: int): (c: char)
    requires 0 <= d < 10
    ensures IsDigit(c) && c as int - '0' as int == d
  {
    ('0' as int + d) as char
  }

  /** The decimal digits of `n`, without leading zeros ("0" for zero). */
  function Digits(n: nat): (r: string)
    ensures 1 <= |r| && AllDigits(r)
    ensures |r| == 1 <==> n < 10
    ensures r[0] == '0' <==> n == 0
    decreases n
  {
    if n < 10 then [DigitChar(n)] else Digits(n / 10) + [DigitChar(n % 10)]
  }

  /** The value of a string of decimal digits (leading zeros allowed, "" is 0). */
  function ValueOf(s: string): nat
    requires AllDigits(s)
  {
    if s == [] then 0 else ValueOf(s[..|s| - 1]) * 10 + (s[|s| - 1] as int - '0' as int)
  }

  /** Reading back the digits of `n` gives `n`. */
  lemma {:induction false} ValueOfDigits(n: nat)
    ensures ValueOf(Digits(n)) == n
    decreases n
  {
    if n >= 10 {
      var s := Digits(n);
      assert s[..|s| - 1] == Digits(n / 10);
      ValueOfDigits(n / 10);
    }
  }

  /**
   * Java's `%02d` conversion of an `int`: a minus sign for a negative value,
   * then the decimal digits of the magnitude, zero-padded so that sign and
   * digits fill at least two characters.
   */
  function Pad2(n: int): string {
    if n < 0 then
      "-" + Digits(-n)
    else if n < 10 then
      "0" + Digits(n)
    else
      Digits(n)
  }

  /**
   * The shape of `%02d` text: at least two characters, exactly two for 0..99,
   * all digits for a non-negative value, a minus sign and then digits for a
   * negative one.
   */
  lemma Pad2Shape(n: int)
    ensures |Pad2(n)| >= 2
    ensures 0 <= n < 100 ==> |Pad2(n)| == 2
    ensures n >= 0 ==> AllDigits(Pad2(n))
    ensures n < 0 ==> Pad2(n)[0] == '-' && AllDigits(Pad2(n)[1..])
  {
    if n < 0 {
      assert Pad2(n)[1..] == Digits(-n);
    }
  }

  /** Reads back `%02d` text: an optional minus sign, then decimal digits. */
  function ParseInt(s: string): Option<int> {
    if |s| >= 2 && s[0] == '-' && AllDigits(s[1..]) then
      var magnitude: int := ValueOf(s[1..]);
      Some(-magnitude)
    else if |s| >= 1 && AllDigits(s) then
      Some(ValueOf(s))
    else
      None
  }

  /** A leading zero does not change the value of a digit string. */
  lemma {:induction false} ValueOfLeadingZero(s: string)
    requires AllDigits(s)
    ensures AllDigits("0" + s) && ValueOf("0" + s) == ValueOf(s)
  {
    var z := "0" + s;
    if s == [] {
      assert z[..0] == [];
    } else {
      assert z[..|z| - 1] == "0" + s[..|s| - 1];
      ValueOfLeadingZero(s[..|s| - 1]);
    }
  }

  /** Parsing undoes `%02d`: the padding and the sign lose nothing. */
  lemma Pad2RoundTrip(n: int)
    ensures ParseInt(Pad2(n)) == Some(n)
  {
    var r := Pad2(n);
    Pad2Shape(n);
    if n < 0 {
      assert r[1..] == Digits(-n);
      ValueOfDigits(-n);
    } else {
      assert r[0] != '-';
      ValueOfDigits(n);
      if n < 10 {
        ValueOfLeadingZero(Digits(n));
      }
      assert ValueOf(r) == n;
    }
  }

  /** The three figures printed by `elapsedTime`. */
  datatype Hms = Hms(hours: int, minutes: int, seconds: int)

  /** The figures computed from the elapsed seconds: `(int)` narrowing, then `/ 3600`, `/ 60`, `% 60`. */
  function Fields(elapsed: int): Hms {
    var v := ToInt(elapsed);
    Hms(Div(v, 3600), Div(v, 60), Rem(v, 60))
  }

  /** `String.format("%02d:%02d:%02d", hours, minutes, seconds)` of the figures of `elapsed`. */
  function FormatHms(elapsed: int): string {
    var f := Fields(elapsed);
    Pad2(f.hours) + ":" + Pad2(f.minutes) + ":" + Pad2(f.seconds)
  }

  /**
   * For every elapsed value (after narrowing) the figures are related as the
   * code implies: minutes and seconds recompose the narrowed total, the
   * seconds figure has magnitude below 60, and hours are the minutes divided
   * by 60 (so the minutes are not reduced).
   */
  lemma FieldsRelation(elapsed: int)
    ensures var f := Fields(elapsed);
      && 60 * f.minutes + f.seconds == ToInt(elapsed)
      && -60 < f.seconds < 60
      && f.hours == Div(f.minutes, 60)
  {
    var v := ToInt(elapsed);
    DivRem(v, 60);
    DivSixtyTwice(v);
  }

  /**
   * For a non-negative elapsed value that fits an `int`, the figures are
   * exactly `s / 3600`, `s / 60` and `s % 60`: seconds lie in [0, 60),
   * sixty minutes plus seconds is the total, and hours are minutes / 60.
   */
  lemma FieldsNonNegative(s: int)
    requires 0 <= s <= INT_MAX
    ensures Fields(s) == Hms(s / 3600, s / 60, s % 60)
    ensures 0 <= Fields(s).seconds < 60
    ensures 60 * Fields(s).minutes + Fields(s).seconds == s
    ensures Fields(s).hours == Fields(s).minutes / 60
  {
    DivRemNonNegative(s, 3600);
    DivRemNonNegative(s, 60);
    DivRemNonNegative(s / 60, 60);
    FieldsRelation(s);
  }

  /** The pieces of `s` between the ':' separators, in order. */
  function Split(s: string): (parts: seq<string>)
    ensures |parts| >= 1
  {
    if s == [] then
      [""]
    else
      var rest := Split(s[1..]);
      if s[0] == ':' then [""] + rest else [[s[0]] + rest[0]] + rest[1..]
  }

  lemma {:induction false} SplitNoSeparator(a: string)
    requires ':' !in a
    ensures Split(a) == [a]
  {
    if a != [] {
      assert ':' !in a[1..];
      SplitNoSeparator(a[1..]);
      assert [a[0]] + a[1..] == a;
    }
  }

  lemma {:induction false} SplitJoin(a: string, b: string)
    requires ':' !in a
    ensures Split(a + ":" + b) == [a] + Split(b)
  {
    var s := a + ":" + b;
    if a == [] {
      assert s[1..] == b;
    } else {
      assert s[1..] == a[1..] + ":" + b;
      assert ':' !in a[1..];
      SplitJoin(a[1..], b);
      assert [a[0]] + a[1..] == a;
    }
  }

  /** Reads an `HH:MM:SS` string back into its three figures. */
  function ParseHms(s: string): Option<Hms> {
    var p := Split(s);
    if |p| != 3 then
      None
    else
      match (ParseInt(p[0]), ParseInt(p[1]), ParseInt(p[2]))
      case (Some(h), Some(m), Some(x)) => Some(Hms(h, m, x))
      case _ => None
  }

  lemma Pad2NoSeparator(n: int)
    ensures ':' !in Pad2(n)
  {
    Pad2Shape(n);
    var r := Pad2(n);
    forall i | 0 <= i < |r|
      ensures r[i] != ':'
    {
      if n < 0 && i > 0 {
        assert r[i] == r[1..][i - 1];
      }
    }
  }

  /** The rendering loses nothing: the three printed figures can be read back. */
  lemma FormatRoundTrip(elapsed: int)
    ensures ParseHms(FormatHms(elapsed)) == Some(Fields(elapsed))
  {
    var f := Fields(elapsed);
    var h, m, x := Pad2(f.hours), Pad2(f.minutes), Pad2(f.seconds);
    Pad2NoSeparator(f.hours);
    Pad2NoSeparator(f.minutes);
    Pad2NoSeparator(f.seconds);
    assert FormatHms(elapsed) == h + ":" + (m + ":" + x);
    SplitJoin(h, m + ":" + x);
    SplitJoin(m, x);
    SplitNoSeparator(x);
    Pad2RoundTrip(f.hours);
    Pad2RoundTrip(f.minutes);
    Pad2RoundTrip(f.seconds);
  }

  /** 65 seconds render as "00:01:05". */
  lemma FormatSixtyFive()
    ensures FormatHms(65) == "00:01:05"
  {
    assert Fields(65) == Hms(0, 1, 5);
  }

  /** 3661 seconds render as "01:61:01": the minutes figure is not reduced modulo 60. */
  lemma FormatUnreducedMinutes()
    ensures FormatHms(3661) == "01:61:01"
  {
    assert Fields(3661) == Hms(1, 61, 1);
    assert Digits(61) == Digits(6) + [DigitChar(1)];
  }

  /** Zero seconds render as "00:00:00". */
  lemma FormatZero()
    ensures FormatHms(0) == "00:00:00"
  {
    assert Fields(0) == Hms(0, 0, 0);
  }
}
