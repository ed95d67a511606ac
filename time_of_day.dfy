/**
 * Time-of-day labels of the result table (`add_time_column`): interval i
 * is labelled with the "HH:MM" of midnight plus 30*i minutes, so labels
 * repeat every 24 hours.
 */
module TimeOfDay {
  import opened Wrappers
  import opened IntervalGrid

  const MinutesPerDay: nat := 24 * 60

  /**
   * The "HH:MM" label of interval `i`: midnight plus 30*i minutes, so the
   * hour of its half hour within the day and minute 00 or 30.
   */
  function Label(i: nat): (text: string)
    ensures text == Clock((i % NextDay) / 2, 30 * (i % 2))
    ensures |text| == 5 && text[2] == ':'
  {
    var minuteOfDay := (30 * i) % MinutesPerDay;
    assert minuteOfDay == 30 * (i % NextDay) by {
      assert 30 * i == MinutesPerDay * (i / NextDay) + 30 * (i % NextDay);
    }
    assert minuteOfDay / 60 == (i % NextDay) / 2 && minuteOfDay % 60 == 30 * (i % 2);
    Clock(minuteOfDay / 60, minuteOfDay % 60)
  }

  /** The TimeOfDay column for a table of `count` intervals. */
  function TimeOfDayColumn(count: nat): (column: seq<string>)
    ensures |column| == count
    ensures forall i :: 0 <= i < count ==> column[i] == Label(i)
  {
    seq(count, i requires 0 <= i => Label(i))
  }

  /** Reading a label back through `time_to_interval` gives the interval within its day. */
  lemma LabelRoundTrip(i: nat)
    ensures TimeToInterval(Label(i)) == Success(i % NextDay)
  {
    var q := i % NextDay;
    ClockToInterval(q / 2, 30 * (i % 2));
    assert i % 2 == q % 2;
  }

  /** The second day repeats the labels of the first. */
  lemma LabelNextDay(i: nat)
    ensures Label(i + NextDay) == Label(i)
  {
    assert 30 * (i + NextDay) == 30 * i + MinutesPerDay;
    assert (30 * (i + NextDay)) % MinutesPerDay == (30 * i) % MinutesPerDay;
  }
}
