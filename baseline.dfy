/**
 * Resampling of the base-load series to the 96 intervals of the horizon,
 * and the placing of that series next to the interval index.
 */
module Baseline {
  import opened Wrappers
  import opened IntervalGrid

  /** Every entry from position `period` on repeats the one `period` places earlier. */
  ghost predicate Periodic(r: seq<real>, period: nat)
  {
    forall i :: period <= i < |r| ==> r[i] == r[i - period]
  }

  /** `k` copies of `s` one after another (`pd.concat([df] * k)`). */
  function Repeat(s: seq<real>, k: nat): (r: seq<real>)
    ensures |r| == |s| * k
    ensures k > 0 ==> r[..|s|] == s
    ensures Periodic(r, |s|)
  {
    if k == 0 then []
    else
      var rest := Repeat(s, k - 1);
      var r := s + rest;
      assert forall i :: |s| <= i < |r| ==> r[i] == rest[i - |s|];
      r
  }

  /** Two periodic series with the same first period agree wherever both are defined. */
  lemma {:induction false} PeriodicAgree(a: seq<real>, b: seq<real>, period: nat, i: nat)
    requires 0 < period <= |a| && period <= |b| && a[..period] == b[..period]
    requires Periodic(a, period) && Periodic(b, period)
    requires i < |a| && i < |b|
    ensures a[i] == b[i]
    decreases i
  {
    if i < period {
      assert a[i] == a[..period][i];
    } else {
      PeriodicAgree(a, b, period, i - period);
    }
  }

  /** The first `n` entries of `s`, or all of it when it is shorter (`iloc[:n]`). */
  function Take(s: seq<real>, n: nat): (r: seq<real>)
    ensures |r| == if |s| <= n then |s| else n
    ensures r == s[..|r|]
  {
    if |s| <= n then s else s[..n]
  }

  /**
   * The resampling as the endpoint writes it: a series shorter than the
   * horizon is concatenated 96 // L times (dividing by zero when it is
   * empty); the result is cut to its first 96 entries.
   */
  function ResampleAsWritten(load: seq<real>): (r: Result<seq<real>, Error>)
    ensures r.Failure? <==> |load| == 0
    ensures r.Success? && |load| < Intervals ==> |r.value| == |load| * (Intervals / |load|)
    ensures r.Success? && |load| >= Intervals ==> r.value == load[..Intervals]
  {
    if |load| < Intervals then
      if |load| == 0 then Failure(InsufficientBaselineData)
      else Success(Take(Repeat(load, Intervals / |load|), Intervals))
    else Success(Take(load, Intervals))
  }

  /**
   * The base-load column as the endpoint builds its table: the resampled
   * series must line up with the 96-row interval index, or the table
   * constructor fails.
   */
  function BaseLoadAsWritten(load: seq<real>): (r: Result<seq<real>, Error>)
    ensures r.Success? ==> |r.value| == Intervals
  {
    match ResampleAsWritten(load)
    case Failure(e) => Failure(e)
    case Success(series) =>
      if |series| == Intervals then Success(series) else Failure(BaselineLengthMismatch)
  }

  /** A series whose length is below 96 and does not divide 96 comes out short and is refused. */
  lemma {:induction false} NonDivisorLengthRefused(load: seq<real>)
    requires 0 < |load| < Intervals && Intervals % |load| != 0
    ensures |ResampleAsWritten(load).value| < Intervals
    ensures BaseLoadAsWritten(load) == Failure(BaselineLengthMismatch)
  {
    var L := |load|;
    assert Intervals == L * (Intervals / L) + Intervals % L;
  }

  /** For instance a 25-entry series yields 75 rows, not 96. */
  lemma TwentyFiveEntriesYieldSeventyFive(load: seq<real>)
    requires |load| == 25
    ensures |ResampleAsWritten(load).value| == 75
    ensures BaseLoadAsWritten(load).Failure?
  {
    NonDivisorLengthRefused(load);
  }

  /**
   * The evidently intended resampling: repeat the series cyclically until
   * it covers the horizon, then cut it to exactly 96 entries.
   */
  function Resample(load: seq<real>): (r: Result<seq<real>, Error>)
    ensures r.Failure? <==> |load| == 0
    ensures r.Failure? ==> r.error == InsufficientBaselineData
    ensures r.Success? ==> |r.value| == Intervals
    ensures r.Success? ==> forall i :: 0 <= i < Intervals && i < |load| ==> r.value[i] == load[i]
    ensures r.Success? ==> Periodic(r.value, |load|)
  {
    if |load| == 0 then Failure(InsufficientBaselineData)
    else if |load| < Intervals then
      var L := |load|;
      var copies := Intervals / L + 1;
      assert Intervals == L * (Intervals / L) + Intervals % L;
      assert L * copies == L * (Intervals / L) + L;
      var series := Repeat(load, copies);
      assert forall i :: 0 <= i < L ==> series[i] == series[..L][i];
      Success(Take(series, Intervals))
    else Success(Take(load, Intervals))
  }

  /**
   * Wherever the endpoint's table can be built at all, it holds exactly
   * the corrected resampling: the two agree when L >= 96 or L divides 96.
   */
  lemma {:induction false} ResampleAgreesAsWritten(load: seq<real>)
    requires |load| > 0
    requires |load| >= Intervals || Intervals % |load| == 0
    ensures BaseLoadAsWritten(load) == Resample(load)
  {
    var L := |load|;
    if L < Intervals {
      assert Intervals == L * (Intervals / L) + Intervals % L;
      var asWritten := Repeat(load, Intervals / L);
      assert |asWritten| == Intervals;
      assert ResampleAsWritten(load).value == asWritten;
      var corrected := Resample(load).value;
      forall i | 0 <= i < Intervals ensures asWritten[i] == corrected[i] {
        assert asWritten[..L] == load;
        assert corrected[..L] == load;
        PeriodicAgree(asWritten, corrected, L, i);
      }
      assert asWritten == corrected;
    }
  }

  /**
   * The endpoint builds its table exactly for a non-empty series at least
   * 96 long or whose length divides 96, and then with the corrected
   * resampling's column.
   */
  lemma AsWrittenBuildsTable(load: seq<real>)
    ensures BaseLoadAsWritten(load).Success? <==>
      0 < |load| && (|load| >= Intervals || Intervals % |load| == 0)
    ensures BaseLoadAsWritten(load).Success? ==> BaseLoadAsWritten(load) == Resample(load)
  {
    if 0 < |load| < Intervals && Intervals % |load| != 0 {
      NonDivisorLengthRefused(load);
    } else if 0 < |load| {
      ResampleAgreesAsWritten(load);
    }
  }
}
