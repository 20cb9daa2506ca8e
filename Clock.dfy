/** Wall-clock values and the `strftime` formats the dictation code writes.
    Reading the clock is left to the caller: every operation that calls
    `datetime.now()` in the source takes the time as a parameter here. */
module Clock {

  /** A naive `datetime`. */
  datatype DateTime = DateTime(year: nat, month: nat, day: nat,
                               hour: nat, minute: nat, second: nat, microsecond: nat)

  predicate IsDigit(c: char) {
    '0' <= c <= '9'
  }

  predicate AllDigits(s: string) {
    forall i :: 0 <= i < |s| ==> IsDigit(s[i])
  }

  /** The ranges a `datetime` enforces (the day is bounded by 31 whatever
      the month). */
  predicate Valid(d: DateTime) {
    && 1 <= d.year <= 9999 && 1 <= d.month <= 12 && 1 <= d.day <= 31
    && d.hour < 24 && d.minute < 60 && d.second < 60 && d.microsecond < 1000000
  }

  function DigitChar(d: nat): (c: char)
    requires d < 10
    ensures IsDigit(c) && c as int - '0' as int == d
  {
    ('0' as int + d) as char
  }

  /** The number a string of decimal digits denotes. */
  function DecimalValue(s: string): nat
    requires AllDigits(s)
  {
    if s == [] then 0 else DecimalValue(s[..|s| - 1]) * 10 + (s[|s| - 1] as int - '0' as int)
  }

  /** The decimal digits of `n`, without leading zeros. */
  function Digits(n: nat): (s: string)
    ensures |s| >= 1 && AllDigits(s)
    ensures s[0] != '0' || s == "0"
  {
    if n < 10 then [DigitChar(n)]
    else
      var high := Digits(n / 10);
      assert (high + [DigitChar(n % 10)])[0] == high[0];
      high + [DigitChar(n % 10)]
  }

  /** `Digits(n)` is the decimal representation of `n`: it denotes `n`. */
  lemma {:induction false} DigitsValue(n: nat)
    ensures DecimalValue(Digits(n)) == n
  {
    if n >= 10 {
      DigitsValue(n / 10);
      var s := Digits(n);
      assert s[..|s| - 1] == Digits(n / 10);
    }
  }

  /** A two-digit field denotes its number, and is exactly two characters
      long for numbers below 100. */
  lemma Pad2Value(n: nat)
    ensures DecimalValue(Pad2(n)) == n
    ensures n < 100 ==> |Pad2(n)| == 2
  {
    var s := Pad2(n);
    if n < 10 {
      assert s == ['0', DigitChar(n)];
      assert s[..1] == ['0'] && s[..1][..0] == [];
      assert DecimalValue(s[..1]) == DecimalValue([]) * 10 + 0 == 0;
      assert DecimalValue(s) == DecimalValue(s[..1]) * 10 + (DigitChar(n) as int - '0' as int);
    } else {
      DigitsValue(n);
      if n < 100 {
        assert Digits(n / 10) == [DigitChar(n / 10)];
      }
    }
  }

  /** A field of a format such as `%m` or `%H`: at least two digits. */
  function Pad2(n: nat): (s: string)
    ensures |s| >= 2 && AllDigits(s)
  {
    if n < 10 then "0" + Digits(n) else Digits(n)
  }

  /** `%Y-%m-%d` */
  function DateStamp(d: DateTime): string {
    Digits(d.year) + "-" + Pad2(d.month) + "-" + Pad2(d.day)
  }

  /** `%Y-%m-%d_%H-%M`, the prefix of every session file name. */
  function FileStamp(d: DateTime): string {
    DateStamp(d) + "_" + HourMinute(d)
  }

  /** `%Y-%m-%d %H:%M` */
  function MinuteStamp(d: DateTime): string {
    DateStamp(d) + " " + Pad2(d.hour) + ":" + Pad2(d.minute)
  }

  /** `%H:%M:%S` */
  function TimeOfDay(d: DateTime): string {
    Pad2(d.hour) + ":" + Pad2(d.minute) + ":" + Pad2(d.second)
  }

  /** Text made of digits and `-` only, as the date and time stamps are. */
  predicate StampText(s: string) {
    forall i :: 0 <= i < |s| ==> IsDigit(s[i]) || s[i] == '-'
  }

  lemma StampTextAppend(a: string, b: string)
    requires StampText(a) && StampText(b)
    ensures StampText(a + b)
  {
    forall i | 0 <= i < |a + b| ensures IsDigit((a + b)[i]) || (a + b)[i] == '-' {
      if i >= |a| { assert (a + b)[i] == b[i - |a|]; }
    }
  }

  /** The `%H-%M` part of a file stamp. */
  function HourMinute(d: DateTime): string {
    Pad2(d.hour) + "-" + Pad2(d.minute)
  }

  /** The characters a `%Y-%m-%d` stamp is made of. */
  lemma DateStampChars(d: DateTime)
    ensures StampText(DateStamp(d))
  {
    var y, m, dd := Digits(d.year), Pad2(d.month), Pad2(d.day);
    assert DateStamp(d) == y + "-" + m + "-" + dd;
    forall i | 0 <= i < |DateStamp(d)|
      ensures IsDigit(DateStamp(d)[i]) || DateStamp(d)[i] == '-'
    {
      if i < |y| { assert DateStamp(d)[i] == y[i]; }
      else if i == |y| { }
      else if i < |y| + 1 + |m| { assert DateStamp(d)[i] == m[i - |y| - 1]; }
      else if i == |y| + 1 + |m| { }
      else { assert DateStamp(d)[i] == dd[i - |y| - |m| - 2]; }
    }
  }

  /** `a < b` as Python orders naive datetimes: field by field, from the year
      down to the microsecond. */
  predicate Before(a: DateTime, b: DateTime) {
    if a.year != b.year then a.year < b.year
    else if a.month != b.month then a.month < b.month
    else if a.day != b.day then a.day < b.day
    else if a.hour != b.hour then a.hour < b.hour
    else if a.minute != b.minute then a.minute < b.minute
    else if a.second != b.second then a.second < b.second
    else a.microsecond < b.microsecond
  }

  lemma HourMinuteChars(d: DateTime)
    ensures StampText(HourMinute(d))
  {
    var h, m := Pad2(d.hour), Pad2(d.minute);
    assert StampText(h) && StampText(m) && StampText("-");
    StampTextAppend(h, "-");
    StampTextAppend(h + "-", m);
  }

  /** `%H:%M:%S` of a valid time reads back: two digits each for the hour,
      the minute and the second, separated by `:`. */
  lemma TimeOfDayFields(d: DateTime)
    requires Valid(d)
    ensures var t := TimeOfDay(d);
            && |t| == 8 && t[2] == ':' && t[5] == ':'
            && AllDigits(t[..2]) && DecimalValue(t[..2]) == d.hour
            && AllDigits(t[3..5]) && DecimalValue(t[3..5]) == d.minute
            && AllDigits(t[6..]) && DecimalValue(t[6..]) == d.second
  {
    var h, m, sec := Pad2(d.hour), Pad2(d.minute), Pad2(d.second);
    Pad2Value(d.hour);
    Pad2Value(d.minute);
    Pad2Value(d.second);
    var t := TimeOfDay(d);
    assert t == h + ":" + m + ":" + sec;
    assert t[..2] == h && t[3..5] == m && t[6..] == sec;
  }

  /** `%Y-%m-%d` of a valid date reads back: the year's digits, then two
      digits each for the month and the day, separated by `-`. */
  lemma DateStampFields(d: DateTime)
    requires Valid(d)
    ensures var s := DateStamp(d);
            var k := |s| - 6;
            && k >= 1 && s[k] == '-' && s[k + 3] == '-'
            && AllDigits(s[..k]) && DecimalValue(s[..k]) == d.year
            && AllDigits(s[k + 1..k + 3]) && DecimalValue(s[k + 1..k + 3]) == d.month
            && AllDigits(s[k + 4..]) && DecimalValue(s[k + 4..]) == d.day
  {
    var y, m, dd := Digits(d.year), Pad2(d.month), Pad2(d.day);
    DigitsValue(d.year);
    Pad2Value(d.month);
    Pad2Value(d.day);
    var s := DateStamp(d);
    var k := |y|;
    assert s == y + "-" + m + "-" + dd;
    assert s[..k] == y && s[k + 1..k + 3] == m && s[k + 4..] == dd;
  }

  /** `%Y-%m-%d %H:%M` of a valid time reads back: the date stamp, a space,
      and two digits each for the hour and the minute, separated by `:`. */
  lemma MinuteStampFields(d: DateTime)
    requires Valid(d)
    ensures var s := MinuteStamp(d);
            var k := |DateStamp(d)|;
            && |s| == k + 6 && s[..k] == DateStamp(d) && s[k] == ' ' && s[k + 3] == ':'
            && AllDigits(s[k + 1..k + 3]) && DecimalValue(s[k + 1..k + 3]) == d.hour
            && AllDigits(s[k + 4..]) && DecimalValue(s[k + 4..]) == d.minute
  {
    var date, h, m := DateStamp(d), Pad2(d.hour), Pad2(d.minute);
    Pad2Value(d.hour);
    Pad2Value(d.minute);
    var s := MinuteStamp(d);
    var k := |date|;
    assert s == date + " " + h + ":" + m;
    assert s[..k] == date && s[k + 1..k + 3] == h && s[k + 4..] == m;
  }

  /** A minute stamp holds digits, `-`, a space and `:` only; in
      particular no line break. */
  lemma MinuteStampChars(d: DateTime)
    ensures forall i :: 0 <= i < |MinuteStamp(d)| ==>
              IsDigit(MinuteStamp(d)[i]) || MinuteStamp(d)[i] in "- :"
  {
    var date, h, m := DateStamp(d), Pad2(d.hour), Pad2(d.minute);
    DateStampChars(d);
    var s := MinuteStamp(d);
    assert s == date + " " + h + ":" + m;
    forall i | 0 <= i < |s| ensures IsDigit(s[i]) || s[i] in "- :" {
      if i < |date| { assert s[i] == date[i]; }
      else if i == |date| { }
      else if i < |date| + 1 + |h| { assert s[i] == h[i - |date| - 1]; }
      else if i == |date| + 1 + |h| { }
      else { assert s[i] == m[i - |date| - |h| - 2]; }
    }
  }

  /** `Before` is a strict total order. */
  lemma BeforeStrictTotal(a: DateTime, b: DateTime, c: DateTime)
    ensures !Before(a, a)
    ensures Before(a, b) && Before(b, c) ==> Before(a, c)
    ensures a == b || Before(a, b) || Before(b, a)
  {
  }
}
