/** Calendar dates and their ISO form. */
module Calendar {
  import opened Wrappers

  datatype YearMonthDay = YearMonthDay(year: nat, month: nat, day: nat)

  type Date = d: YearMonthDay |
    1 <= d.year <= 9999 && 1 <= d.month <= 12 && 1 <= d.day <= 31 witness YearMonthDay(1, 1, 1)

  function Digit(n: nat): char
    requires n < 10
  {
    (n + '0' as int) as char
  }

  function TwoDigits(n: nat): string
    requires n < 100
  {
    [Digit(n / 10), Digit(n % 10)]
  }

  /** `d.isoformat()`. */
  function Iso(d: Date): (s: string)
    ensures |s| == 10
  {
    TwoDigits(d.year / 100) + TwoDigits(d.year % 100) + "-" + TwoDigits(d.month) + "-" + TwoDigits(d.day)
  }

  lemma TwoDigitsInjective(a: nat, b: nat)
    requires a < 100 && b < 100 && TwoDigits(a) == TwoDigits(b)
    ensures a == b
  {
    assert TwoDigits(a)[0] == Digit(a / 10) && TwoDigits(b)[0] == Digit(b / 10);
    assert TwoDigits(a)[1] == Digit(a % 10) && TwoDigits(b)[1] == Digit(b % 10);
  }

  lemma IsoInjective(a: Date, b: Date)
    requires Iso(a) == Iso(b)
    ensures a == b
  {
    var s, t := Iso(a), Iso(b);
    assert TwoDigits(a.year / 100) == s[..2] == t[..2] == TwoDigits(b.year / 100);
    assert TwoDigits(a.year % 100) == s[2..4] == t[2..4] == TwoDigits(b.year % 100);
    assert TwoDigits(a.month) == s[5..7] == t[5..7] == TwoDigits(b.month);
    assert TwoDigits(a.day) == s[8..] == t[8..] == TwoDigits(b.day);
    TwoDigitsInjective(a.year / 100, b.year / 100);
    TwoDigitsInjective(a.year % 100, b.year % 100);
    TwoDigitsInjective(a.month, b.month);
    TwoDigitsInjective(a.day, b.day);
  }

  // ----- reading the text back -----

  predicate IsDigit(c: char) {
    '0' <= c <= '9'
  }

  function Number(text: string): nat
    requires forall i :: 0 <= i < |text| ==> IsDigit(text[i])
  {
    if text == "" then 0
    else
      assert IsDigit(text[|text| - 1]);
      10 * Number(text[..|text| - 1]) + (text[|text| - 1] as int - '0' as int)
  }

  /** The date a text of the form YYYY-MM-DD stands for. */
  function ParsedIso(text: string): Option<Date> {
    if && |text| == 10 && text[4] == '-' && text[7] == '-'
       && forall i :: 0 <= i < 10 && i != 4 && i != 7 ==> IsDigit(text[i])
    then
      var year, month, day := Number(text[..4]), Number(text[5..7]), Number(text[8..]);
      if 1 <= year <= 9999 && 1 <= month <= 12 && 1 <= day <= 31 then Some(YearMonthDay(year, month, day)) else None
    else None
  }

  lemma TwoDigitsNumber(n: nat)
    requires n < 100
    ensures forall i :: 0 <= i < 2 ==> IsDigit(TwoDigits(n)[i])
    ensures Number(TwoDigits(n)) == n
  {
    var t := TwoDigits(n);
    assert t[..1] == [Digit(n / 10)] && t[..1][..0] == "";
    assert Number(t[..1]) == n / 10;
  }

  lemma FourDigitsNumber(a: nat, b: nat)
    requires a < 100 && b < 100
    ensures var t := TwoDigits(a) + TwoDigits(b);
      (forall i :: 0 <= i < 4 ==> IsDigit(t[i])) && Number(t) == 100 * a + b
  {
    var t := TwoDigits(a) + TwoDigits(b);
    TwoDigitsNumber(a);
    TwoDigitsNumber(b);
    assert t[..3] == TwoDigits(a) + [Digit(b / 10)];
    assert t[..3][..2] == TwoDigits(a);
    assert Number(t[..3]) == 10 * a + b / 10;
  }

  /** Year, month and day can be read off their places in the text. */
  lemma IsoReadsBack(d: Date)
    ensures ParsedIso(Iso(d)) == Some(d)
  {
    var t := Iso(d);
    FourDigitsNumber(d.year / 100, d.year % 100);
    TwoDigitsNumber(d.month);
    TwoDigitsNumber(d.day);
    assert t[..4] == TwoDigits(d.year / 100) + TwoDigits(d.year % 100);
    assert t[5..7] == TwoDigits(d.month) && t[8..] == TwoDigits(d.day);
    forall i | 0 <= i < 10 && i != 4 && i != 7 ensures IsDigit(t[i]) {
      if i < 4 { assert t[i] == t[..4][i]; }
      else if i < 7 { assert t[i] == t[5..7][i - 5]; }
      else { assert t[i] == t[8..][i - 8]; }
    }
  }

  // ----- the order of the texts -----

  /** The order in which texts sort. */
  predicate TextBefore(s: string, t: string) {
    t != "" && (s == "" || s[0] < t[0] || (s[0] == t[0] && TextBefore(s[1..], t[1..])))
  }

  predicate DateBefore(a: Date, b: Date) {
    a.year < b.year || (a.year == b.year && (a.month < b.month || (a.month == b.month && a.day < b.day)))
  }

  lemma {:induction false} TextBeforeParts(x: string, y: string, s: string, t: string)
    requires |x| == |y|
    ensures TextBefore(x + s, y + t) <==> TextBefore(x, y) || (x == y && TextBefore(s, t))
    decreases |x|
  {
    if x == "" {
      assert x + s == s && y + t == t;
    } else {
      assert (x + s)[1..] == x[1..] + s && (y + t)[1..] == y[1..] + t;
      assert x == [x[0]] + x[1..] && y == [y[0]] + y[1..];
      TextBeforeParts(x[1..], y[1..], s, t);
    }
  }

  lemma DigitOrder(m: nat, n: nat)
    requires m < 10 && n < 10
    ensures (Digit(m) < Digit(n) <==> m < n) && (Digit(m) == Digit(n) <==> m == n)
  {
  }

  lemma TwoDigitsOrder(a: nat, b: nat)
    requires a < 100 && b < 100
    ensures TextBefore(TwoDigits(a), TwoDigits(b)) <==> a < b
  {
    var s, t := TwoDigits(a), TwoDigits(b);
    assert s[1..] == [Digit(a % 10)] && t[1..] == [Digit(b % 10)];
    assert s[1..][1..] == "" && t[1..][1..] == "";
    DigitOrder(a / 10, b / 10);
    DigitOrder(a % 10, b % 10);
    assert TextBefore(s[1..], t[1..]) <==> a % 10 < b % 10;
    assert a < b <==> a / 10 < b / 10 || (a / 10 == b / 10 && a % 10 < b % 10);
  }

  lemma SameTwoDigits(a: nat, b: nat)
    requires a < 100 && b < 100
    ensures TwoDigits(a) == TwoDigits(b) <==> a == b
  {
    if TwoDigits(a) == TwoDigits(b) {
      TwoDigitsInjective(a, b);
    }
  }

  lemma TwoDigitsThen(a: nat, b: nat, s: string, t: string)
    requires a < 100 && b < 100
    ensures TextBefore(TwoDigits(a) + s, TwoDigits(b) + t) <==> a < b || (a == b && TextBefore(s, t))
  {
    TextBeforeParts(TwoDigits(a), TwoDigits(b), s, t);
    TwoDigitsOrder(a, b);
    SameTwoDigits(a, b);
  }

  lemma DashThen(s: string, t: string)
    ensures TextBefore("-" + s, "-" + t) <==> TextBefore(s, t)
  {
    assert ("-" + s)[1..] == s && ("-" + t)[1..] == t;
  }

  /** Sorting the texts sorts the dates. */
  lemma IsoOrders(a: Date, b: Date)
    ensures TextBefore(Iso(a), Iso(b)) <==> DateBefore(a, b)
  {
    var days1, days2 := TwoDigits(a.day), TwoDigits(b.day);
    var months1, months2 := TwoDigits(a.month) + ("-" + days1), TwoDigits(b.month) + ("-" + days2);
    var years1, years2 := TwoDigits(a.year % 100) + ("-" + months1), TwoDigits(b.year % 100) + ("-" + months2);
    TwoDigitsOrder(a.day, b.day);
    DashThen(days1, days2);
    TwoDigitsThen(a.month, b.month, "-" + days1, "-" + days2);
    DashThen(months1, months2);
    TwoDigitsThen(a.year % 100, b.year % 100, "-" + months1, "-" + months2);
    TwoDigitsThen(a.year / 100, b.year / 100, years1, years2);
    assert Iso(a) == TwoDigits(a.year / 100) + years1 && Iso(b) == TwoDigits(b.year / 100) + years2;
  }
}
