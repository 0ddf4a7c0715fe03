/** The attendance stamp: the wall-clock reading taken at registration, rendered with
    the strftime pattern "%Y-%m-%d %H:%M:%S" (atendimentos.py:49). The clock itself is
    not modelled; its reading is a parameter. */
module Stamp {
  import opened Options
  import opened Decimal

  /** One reading of the local wall clock, as `datetime.now()` reports it. */
  datatype Clock = Clock(year: int, month: int, day: int, hour: int, minute: int, second: int)

  predicate IsLeapYear(y: int) {
    y % 4 == 0 && (y % 100 != 0 || y % 400 == 0)
  }

  function DaysInMonth(y: int, m: int): int {
    if m == 2 then (if IsLeapYear(y) then 29 else 28)
    else if m == 4 || m == 6 || m == 9 || m == 11 then 30
    else 31
  }

  /** A reading `datetime.now()` can return, restricted to four-digit years. */
  predicate ValidClock(c: Clock) {
    && 1000 <= c.year <= 9999
    && 1 <= c.month <= 12
    && 1 <= c.day <= DaysInMonth(c.year, c.month)
    && 0 <= c.hour < 24
    && 0 <= c.minute < 60
    && 0 <= c.second < 60
  }

  /** The positions of the separators in a stamp and the character at each. */
  predicate SeparatorsAt(s: string)
    requires |s| == 19
  {
    s[4] == '-' && s[7] == '-' && s[10] == ' ' && s[13] == ':' && s[16] == ':'
  }

  /** The stamp written into the ATENDIMENTO cell: zero-padded, 24-hour, 19 characters,
      with every position other than the five separators a decimal digit. */
  function Format(c: Clock): (s: string)
    requires ValidClock(c)
    ensures |s| == 19 && SeparatorsAt(s)
    ensures forall i :: 0 <= i < 19 && i != 4 && i != 7 && i != 10 && i != 13 && i != 16 ==> IsDigit(s[i])
  {
    Fixed(c.year, 4) + "-" + Fixed(c.month, 2) + "-" + Fixed(c.day, 2) + " "
      + Fixed(c.hour, 2) + ":" + Fixed(c.minute, 2) + ":" + Fixed(c.second, 2)
  }

  /** Reads a stamp back into the clock reading it was made from; the reference
      definition of what a well-formed stamp is. */
  function Parse(s: string): (r: Option<Clock>)
    ensures r.Some? ==> ValidClock(r.value)
  {
    if |s| == 19 && SeparatorsAt(s)
       && AllDigits(s[0..4]) && AllDigits(s[5..7]) && AllDigits(s[8..10])
       && AllDigits(s[11..13]) && AllDigits(s[14..16]) && AllDigits(s[17..19])
    then
      var c := Clock(Value(s[0..4]), Value(s[5..7]), Value(s[8..10]),
                     Value(s[11..13]), Value(s[14..16]), Value(s[17..19]));
      if ValidClock(c) then Some(c) else None
    else
      None
  }

  /** Every clock reading is recovered from its stamp, so two different readings
      never produce the same stamp. */
  lemma ParseFormat(c: Clock)
    requires ValidClock(c)
    ensures Parse(Format(c)) == Some(c)
  {
    var s := Format(c);
    assert s[0..4] == Fixed(c.year, 4);
    assert s[5..7] == Fixed(c.month, 2);
    assert s[8..10] == Fixed(c.day, 2);
    assert s[11..13] == Fixed(c.hour, 2);
    assert s[14..16] == Fixed(c.minute, 2);
    assert s[17..19] == Fixed(c.second, 2);
    ValueFixed(c.year, 4);
    ValueFixed(c.month, 2);
    ValueFixed(c.day, 2);
    ValueFixed(c.hour, 2);
    ValueFixed(c.minute, 2);
    ValueFixed(c.second, 2);
  }

  /** Every well-formed stamp is the rendering of the reading it parses to. */
  lemma FormatParse(s: string)
    requires Parse(s).Some?
    ensures Format(Parse(s).value) == s
  {
    FixedValue(s[0..4]);
    FixedValue(s[5..7]);
    FixedValue(s[8..10]);
    FixedValue(s[11..13]);
    FixedValue(s[14..16]);
    FixedValue(s[17..19]);
    assert s == s[0..4] + [s[4]] + s[5..7] + [s[7]] + s[8..10] + [s[10]]
              + s[11..13] + [s[13]] + s[14..16] + [s[16]] + s[17..19];
  }

  lemma FixedOfTwoDigits(n: nat)
    requires n < 100
    ensures Fixed(n, 2) == [DigitChar(n / 10), DigitChar(n % 10)]
  {
    var hi := n / 10;
    assert hi < 10 && hi / 10 == 0 && hi % 10 == hi;
    assert Fixed(hi, 1) == Fixed(0, 0) + [DigitChar(hi)];
  }

  lemma ExampleYear()
    ensures Fixed(2025, 4) == "2025"
  {
    assert Fixed(2, 1) == "2";
    assert Fixed(20, 2) == "20";
    assert Fixed(202, 3) == "202";
  }

  lemma ExampleFields()
    ensures Fixed(1, 2) == "01" && Fixed(15, 2) == "15" && Fixed(9, 2) == "09"
    ensures Fixed(30, 2) == "30" && Fixed(0, 2) == "00"
  {
    FixedOfTwoDigits(1);
    FixedOfTwoDigits(15);
    FixedOfTwoDigits(9);
    FixedOfTwoDigits(30);
    FixedOfTwoDigits(0);
  }

  /** A morning reading with single-digit month and hour, and zero seconds: every
      field is padded to its width. */
  lemma ExampleStamp()
    ensures Format(Clock(2025, 1, 15, 9, 30, 0)) == "2025-01-15 09:30:00"
  {
    ExampleYear();
    ExampleFields();
    assert Format(Clock(2025, 1, 15, 9, 30, 0))
        == "2025" + "-" + "01" + "-" + "15" + " " + "09" + ":" + "30" + ":" + "00";
  }
}
