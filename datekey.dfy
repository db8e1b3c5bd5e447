/** The string key under which a day's events are stored (`formatDateKey`):
    the year, the 0-based month index and the day of month, written in
    decimal and joined by '-', as a JavaScript template literal renders the
    three numbers. */
module DateKey {
  import opened Dates
  import opened Optional

  predicate IsDigit(c: char) {
    '0' <= c <= '9'
  }

  predicate AllDigits(s: string) {
    forall i :: 0 <= i < |s| ==> IsDigit(s[i])
  }

  function DigitChar(n: nat): (c: char)
    requires n < 10
    ensures IsDigit(c)
  {
    ('0' as int + n) as char
  }

  function DigitValue(c: char): (n: nat)
    requires IsDigit(c)
    ensures n < 10
  {
    c as int - '0' as int
  }

  /** Shortest decimal numeral of `n`, most significant digit first. */
  function NatToDecimal(n: nat): (s: string)
    ensures |s| >= 1 && AllDigits(s)
    ensures s[0] == '0' <==> n == 0
    ensures |s| > 1 ==> s[0] != '0'
  {
    if n < 10 then [DigitChar(n)] else NatToDecimal(n / 10) + [DigitChar(n % 10)]
  }

  /** The value a string of decimal digits denotes. */
  function DecimalValue(s: string): nat
    requires AllDigits(s)
  {
    if s == [] then 0 else DecimalValue(s[..|s| - 1]) * 10 + DigitValue(s[|s| - 1])
  }

  /** How a number is rendered inside a template literal: a leading '-' for
      a negative value, then the decimal digits of its magnitude. */
  function IntToDecimal(x: int): (s: string)
    ensures |s| >= 1
    ensures x < 0 <==> s[0] == '-'
  {
    if x < 0 then "-" + NatToDecimal(-x) else NatToDecimal(x)
  }

  /** `formatDateKey`: "year-monthIndex-day". The key starts with '-'
      exactly for a negative year; `ParseFormatRoundTrip` shows that it
      determines the date. */
  function FormatDateKey(d: Date): (k: string)
    ensures |k| >= 5
    ensures k[0] == '-' <==> d.year < 0
  {
    IntToDecimal(d.year) + "-" + IntToDecimal(d.month) + "-" + IntToDecimal(d.day)
  }

  lemma {:induction false} DecimalRoundTrip(n: nat)
    ensures DecimalValue(NatToDecimal(n)) == n
  {
    var s := NatToDecimal(n);
    if n >= 10 {
      var front := NatToDecimal(n / 10);
      assert s[..|s| - 1] == front;
      DecimalRoundTrip(n / 10);
    }
  }

  /** Index of the first '-' in `s`, or `|s|` when there is none. */
  function DashIndex(s: string): (i: nat)
    ensures i <= |s|
    ensures i < |s| ==> s[i] == '-'
    ensures forall k :: 0 <= k < i ==> s[k] != '-'
  {
    if s == [] then 0 else if s[0] == '-' then 0 else 1 + DashIndex(s[1..])
  }

  /** In a digit block followed by '-', the first '-' is the one right after
      the block. */
  lemma DashAfterDigits(a: string, b: string)
    requires AllDigits(a)
    ensures DashIndex(a + "-" + b) == |a|
  {
    var s := a + "-" + b;
    assert s[|a|] == '-';
    assert forall k :: 0 <= k < |a| ==> s[k] == a[k];
  }

  /** Reads three digit blocks separated by '-'. */
  function ParseFields(t: string): Option<(nat, nat, nat)> {
    var i := DashIndex(t);
    if i == |t| then None
    else
      var rest := t[i + 1..];
      var j := DashIndex(rest);
      if j == |rest| then None
      else
        var ys, ms, ds := t[..i], rest[..j], rest[j + 1..];
        if AllDigits(ys) && AllDigits(ms) && AllDigits(ds) then
          Some((DecimalValue(ys), DecimalValue(ms), DecimalValue(ds)))
        else None
  }

  /** Reads a key back into its date: an optional '-' for a negative year,
      then three digit blocks separated by '-'. */
  function ParseDateKey(s: string): Option<Date> {
    if |s| > 0 && s[0] == '-' then
      match ParseFields(s[1..])
      case Some((y, m, d)) => Some(Date(-(y as int), m, d))
      case None => None
    else
      match ParseFields(s)
      case Some((y, m, d)) => Some(Date(y, m, d))
      case None => None
  }

  /** Splitting three digit blocks joined by '-' gives back their values. */
  lemma ParseDigitBlocks(a: string, b: string, c: string)
    requires AllDigits(a) && AllDigits(b) && AllDigits(c)
    ensures ParseFields(a + "-" + b + "-" + c) == Some((DecimalValue(a), DecimalValue(b), DecimalValue(c)))
  {
    var rest := b + "-" + c;
    var t := a + "-" + b + "-" + c;
    assert t == a + "-" + rest;
    DashAfterDigits(a, rest);
    DashAfterDigits(b, c);
    assert t[..|a|] == a;
    assert t[|a| + 1..] == rest;
    assert rest[..|b|] == b;
    assert rest[|b| + 1..] == c;
  }

  lemma SignedKey(ys: string, ms: string, ds: string)
    ensures ("-" + ys) + "-" + ms + "-" + ds == "-" + (ys + "-" + ms + "-" + ds)
  {
  }

  /** Parsing inverts the rendering of three numbers joined by '-', when
      the second and third are non-negative. */
  lemma KeyRoundTrip(y: int, m: int, dd: int)
    requires m >= 0 && dd >= 0
    ensures ParseDateKey(IntToDecimal(y) + "-" + IntToDecimal(m) + "-" + IntToDecimal(dd)) == Some(Date(y, m, dd))
  {
    var magnitude := if y < 0 then -y else y;
    var ys, ms, ds := NatToDecimal(magnitude), NatToDecimal(m), NatToDecimal(dd);
    DecimalRoundTrip(magnitude);
    DecimalRoundTrip(m);
    DecimalRoundTrip(dd);
    ParseDigitBlocks(ys, ms, ds);
    var t := ys + "-" + ms + "-" + ds;
    var key := IntToDecimal(y) + "-" + IntToDecimal(m) + "-" + IntToDecimal(dd);
    if y < 0 {
      assert IntToDecimal(y) == "-" + ys;
      SignedKey(ys, ms, ds);
      assert key[1..] == t;
    } else {
      assert key == t;
      assert key[0] == ys[0];
    }
  }

  /** Parsing inverts formatting for every date whose month index and day
      are non-negative (in particular every valid date). */
  lemma ParseFormatRoundTrip(d: Date)
    requires d.month >= 0 && d.day >= 0
    ensures ParseDateKey(FormatDateKey(d)) == Some(d)
  {
    KeyRoundTrip(d.year, d.month, d.day);
  }

  /** `formatDateKey` is injective on real dates: two dates share a key
      exactly when they are the same date, so every day has its own event
      list. */
  lemma FormatDateKeyInjective(a: Date, b: Date)
    requires ValidDate(a) && ValidDate(b)
    ensures FormatDateKey(a) == FormatDateKey(b) <==> a == b
  {
    ParseFormatRoundTrip(a);
    ParseFormatRoundTrip(b);
  }

  /** 25 December 2024 is stored under "2024-11-25" (0-based month). */
  lemma ChristmasKey()
    ensures FormatDateKey(Date(2024, 11, 25)) == "2024-11-25"
  {
    assert NatToDecimal(2) == "2";
    assert NatToDecimal(20) == "20";
    assert NatToDecimal(202) == "202";
    assert NatToDecimal(2024) == "2024";
    assert NatToDecimal(1) == "1";
    assert NatToDecimal(11) == "11";
    assert NatToDecimal(25) == "25";
    assert IntToDecimal(2024) + "-" + IntToDecimal(11) + "-" + IntToDecimal(25) == "2024-11-25";
  }
}
