/**
 * The interval grid: 96 half-hour slots covering 48 hours, and the
 * conversion of an "HH:MM" wall-clock string to a slot index.
 */
module IntervalGrid {
  import opened Wrappers

  /** Number of half-hour intervals in the 48-hour horizon. */
  const Intervals: nat := 96

  /** Offset added to a departure interval: departure happens the next day. */
  const NextDay: nat := 48

  /** Splits `s` at every ':' (Python's `str.split(":")`). */
  function Split(s: string): (parts: seq<string>)
    ensures |parts| >= 1
    ensures forall p <- parts :: ':' !in p
    decreases |s|
  {
    if s == [] then [""]
    else if s[0] == ':' then [""] + Split(s[1..])
    else
      var rest := Split(s[1..]);
      [[s[0]] + rest[0]] + rest[1..]
  }

  /** Number of occurrences of ':' in `s`. */
  function Colons(s: string): nat
  {
    if s == [] then 0 else (if s[0] == ':' then 1 else 0) + Colons(s[1..])
  }

  lemma {:induction false} SplitCount(s: string)
    ensures |Split(s)| == Colons(s) + 1
    decreases |s|
  {
    if s != [] {
      SplitCount(s[1..]);
    }
  }

  /** A part without ':' followed by ':' is split off as the first field. */
  lemma {:induction false} SplitAtColon(a: string, b: string)
    requires ':' !in a
    ensures Split(a + ":" + b) == [a] + Split(b)
    decreases |a|
  {
    if a == [] {
      assert a + ":" + b == [':'] + b;
      assert (a + ":" + b)[1..] == b;
    } else {
      assert (a + ":" + b)[1..] == a[1..] + ":" + b;
      SplitAtColon(a[1..], b);
      assert [a[0]] + a[1..] == a;
    }
  }

  lemma {:induction false} SplitNoColon(a: string)
    requires ':' !in a
    ensures Split(a) == [a]
    decreases |a|
  {
    if a != [] {
      SplitNoColon(a[1..]);
      assert [a[0]] + a[1..] == a;
    }
  }

  predicate IsDigit(c: char) { '0' <= c <= '9' }

  predicate AllDigits(s: string) { forall c <- s :: IsDigit(c) }

  /** Value of a string of decimal digits, most significant first. */
  function DigitsValue(s: string): (n: nat)
    requires AllDigits(s)
  {
    if s == [] then 0
    else
      assert IsDigit(s[|s| - 1]);
      DigitsValue(s[..|s| - 1]) * 10 + ((s[|s| - 1] as int) - ('0' as int))
  }

  /** Python's `int()` on an optionally signed run of ASCII digits. */
  function ParseInt(s: string): Option<int>
  {
    if s != [] && (s[0] == '+' || s[0] == '-') then
      var digits := s[1..];
      if digits != [] && AllDigits(digits) then
        var magnitude: int := DigitsValue(digits);
        Some(if s[0] == '-' then -magnitude else magnitude)
      else None
    else if s != [] && AllDigits(s) then Some(DigitsValue(s))
    else None
  }

  /**
   * `int()` accepts exactly a non-empty run of digits, or a sign followed by
   * one; the value is the digits' value, negated after a '-'.
   */
  lemma ParseIntSpec(s: string)
    ensures ParseInt(s).Some? <==>
      s != [] && (AllDigits(s) || ((s[0] == '+' || s[0] == '-') && |s| > 1 && AllDigits(s[1..])))
    ensures ParseInt(s).Some? && AllDigits(s) ==> ParseInt(s).value == DigitsValue(s)
    ensures ParseInt(s).Some? && !AllDigits(s) ==>
      ParseInt(s).value == if s[0] == '-' then -(DigitsValue(s[1..]) as int) else DigitsValue(s[1..])
  {
    if s != [] && (s[0] == '+' || s[0] == '-') {
      assert !IsDigit(s[0]);
    }
  }

  /**
   * `time_to_interval`: "H:M" becomes 2*H + M // 30. Python's floor
   * division by 30 equals Dafny's Euclidean division by a positive divisor.
   * Anything other than exactly two integer fields is InvalidTimeFormat.
   */
  function TimeToInterval(time: string): (r: Result<int, Error>)
    ensures r.Success? <==>
      |Split(time)| == 2 && ParseInt(Split(time)[0]).Some? && ParseInt(Split(time)[1]).Some?
    ensures r.Failure? ==> r.error == InvalidTimeFormat
  {
    var parts := Split(time);
    if |parts| != 2 then Failure(InvalidTimeFormat)
    else
      match (ParseInt(parts[0]), ParseInt(parts[1]))
      case (Some(hour), Some(minute)) => Success(hour * 2 + minute / 30)
      case _ => Failure(InvalidTimeFormat)
  }

  /** Departure interval: the departure time's interval on the following day. */
  function DepartureInterval(time: string): (r: Result<int, Error>)
    ensures r.Success? <==> TimeToInterval(time).Success?
    ensures r.Success? ==> r.value - NextDay == TimeToInterval(time).value
  {
    match TimeToInterval(time)
    case Success(i) => Success(i + NextDay)
    case Failure(e) => Failure(e)
  }

  /** Two-digit zero-padded decimal, as `strftime` prints hours and minutes. */
  function Pad2(n: nat): (s: string)
    requires n < 100
    ensures |s| == 2 && AllDigits(s) && ':' !in s
  {
    [(('0' as int) + n / 10) as char, (('0' as int) + n % 10) as char]
  }

  lemma Pad2Value(n: nat)
    requires n < 100
    ensures DigitsValue(Pad2(n)) == n
  {
    var s := Pad2(n);
    assert s[..1] == [s[0]];
    assert s[..1][..0] == [];
    assert DigitsValue(s[..1]) == n / 10;
  }

  /** A wall-clock time written "HH:MM". */
  function Clock(hour: nat, minute: nat): string
    requires hour < 100 && minute < 100
  {
    Pad2(hour) + ":" + Pad2(minute)
  }

  /**
   * Any "HH:MM" parses to 2*HH + MM // 30; a valid time of day lands in the
   * first day (0..47) and its departure interval in the second (48..95).
   */
  lemma {:induction false} ClockToInterval(hour: nat, minute: nat)
    requires hour < 100 && minute < 100
    ensures TimeToInterval(Clock(hour, minute)) == Success(2 * hour + minute / 30)
    ensures hour <= 23 && minute <= 59 ==>
      0 <= TimeToInterval(Clock(hour, minute)).value < NextDay &&
      NextDay <= DepartureInterval(Clock(hour, minute)).value < Intervals
  {
    SplitAtColon(Pad2(hour), Pad2(minute));
    SplitNoColon(Pad2(minute));
    Pad2Value(hour);
    Pad2Value(minute);
    assert Split(Clock(hour, minute)) == [Pad2(hour), Pad2(minute)];
  }

  /**
   * Any two integer fields around a single ':' give 2*H + M // 30, whatever
   * their padding, sign or size ("7:30", "+3:00", "-1:30", "123:45").
   */
  lemma TimeToIntervalValue(hourText: string, minuteText: string, hour: int, minute: int)
    requires ':' !in hourText && ':' !in minuteText
    requires ParseInt(hourText) == Some(hour) && ParseInt(minuteText) == Some(minute)
    ensures TimeToInterval(hourText + ":" + minuteText) == Success(2 * hour + minute / 30)
  {
    SplitAtColon(hourText, minuteText);
    SplitNoColon(minuteText);
  }

  /** A time with seconds ("HH:MM:SS") or any other extra ':' is rejected. */
  lemma TwoColonsRejected(time: string)
    requires Colons(time) >= 2
    ensures TimeToInterval(time) == Failure(InvalidTimeFormat)
  {
    SplitCount(time);
  }

  /** A string with no ':' at all is rejected. */
  lemma NoColonRejected(time: string)
    requires ':' !in time
    ensures TimeToInterval(time) == Failure(InvalidTimeFormat)
  {
    SplitNoColon(time);
  }
}
