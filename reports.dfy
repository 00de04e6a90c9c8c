/** The "current toolchains" report of reports.js (`createCurrentReport`):
    for each channel, the last listed date before a given date. */
module Reports {
  import opened Wrappers
  import opened StringOrder
  import RustDist

  datatype CurrentReport = CurrentReport(nightly: Option<string>, beta: Option<string>, stable: Option<string>)

  /** The value the loop leaves in `currentXDate`: the last element of
      `dates`, in list order, that compares below `date`. */
  function LastBefore(dates: seq<string>, date: string): Option<string>
    decreases |dates|
  {
    if |dates| == 0 then None
    else if LexLess(dates[|dates| - 1], date) then Some(dates[|dates| - 1])
    else LastBefore(dates[..|dates| - 1], date)
  }

  /** One of the three loops: each date below `date` overwrites the
      current choice, so the last one seen stays. */
  method CurrentDate(dates: seq<string>, date: string) returns (current: Option<string>)
    ensures current == LastBefore(dates, date)
  {
    current := None;
    for i := 0 to |dates|
      invariant current == LastBefore(dates[..i], date)
    {
      assert dates[..i + 1][..i] == dates[..i];
      if LexLess(dates[i], date) {
        current := Some(dates[i]);
      }
    }
    assert dates[..|dates|] == dates;
  }

  /** `createCurrentReport` once the toolchain lists are available; each
      channel's entry is computed from that channel's list alone. */
  method CreateCurrentReport(toolchains: RustDist.Toolchains, date: string) returns (report: CurrentReport)
    ensures report.nightly == LastBefore(toolchains.nightly, date)
    ensures report.beta == LastBefore(toolchains.beta, date)
    ensures report.stable == LastBefore(toolchains.stable, date)
  {
    var currentNightlyDate := CurrentDate(toolchains.nightly, date);
    var currentBetaDate := CurrentDate(toolchains.beta, date);
    var currentStableDate := CurrentDate(toolchains.stable, date);
    report := CurrentReport(currentNightlyDate, currentBetaDate, currentStableDate);
  }

  /** The choice is `None` iff no date is below `date`; otherwise it is an
      element below `date` after which no element is below `date`. */
  lemma {:induction false} LastBeforeSpec(dates: seq<string>, date: string)
    ensures LastBefore(dates, date).None? <==> forall i :: 0 <= i < |dates| ==> !LexLess(dates[i], date)
    ensures LastBefore(dates, date).Some? ==>
              exists i :: 0 <= i < |dates| && dates[i] == LastBefore(dates, date).value
                          && LexLess(dates[i], date)
                          && forall j :: i < j < |dates| ==> !LexLess(dates[j], date)
    decreases |dates|
  {
    if |dates| > 0 && !LexLess(dates[|dates| - 1], date) {
      var init := dates[..|dates| - 1];
      LastBeforeSpec(init, date);
      assert forall i :: 0 <= i < |init| ==> dates[i] == init[i];
      if LastBefore(init, date).Some? {
        var i :| 0 <= i < |init| && init[i] == LastBefore(init, date).value
                 && LexLess(init[i], date)
                 && forall j :: i < j < |init| ==> !LexLess(init[j], date);
        assert forall j :: i < j < |dates| ==> !LexLess(dates[j], date) by {
          forall j | i < j < |dates| ensures !LexLess(dates[j], date) {
            if j < |init| { assert dates[j] == init[j]; }
          }
        }
      }
    }
  }

  /** A date that is reported always lies strictly before `date`. */
  lemma LastBeforeIsBelow(dates: seq<string>, date: string)
    requires LastBefore(dates, date).Some?
    ensures LexLess(LastBefore(dates, date).value, date)
    ensures LastBefore(dates, date).value in dates
  {
    LastBeforeSpec(dates, date);
  }

  /** On a sorted list, as getAvailableToolchains returns them, the choice
      is the greatest date below `date`. */
  lemma LastBeforeSortedIsMax(dates: seq<string>, date: string)
    requires Sorted(dates)
    requires LastBefore(dates, date).Some?
    ensures forall k :: 0 <= k < |dates| && LexLess(dates[k], date) ==> LexLe(dates[k], LastBefore(dates, date).value)
  {
    LastBeforeSpec(dates, date);
    var i :| 0 <= i < |dates| && dates[i] == LastBefore(dates, date).value
             && LexLess(dates[i], date)
             && forall j :: i < j < |dates| ==> !LexLess(dates[j], date);
    forall k | 0 <= k < |dates| && LexLess(dates[k], date)
      ensures LexLe(dates[k], LastBefore(dates, date).value)
    {
      if k < i {
        assert LexLe(dates[k], dates[i]);
      }
    }
  }

  /** Fed with the lists of a distribution index, each channel's entry is
      the greatest listed date of that channel before `date`. */
  lemma CurrentOfIndexIsLatest(index: RustDist.Listing, date: string)
    requires RustDist.AvailableToolchains(index).Ok?
    ensures var t := RustDist.AvailableToolchains(index).value;
            LastBefore(t.nightly, date).Some? ==>
              forall k :: 0 <= k < |t.nightly| && LexLess(t.nightly[k], date) ==>
                LexLe(t.nightly[k], LastBefore(t.nightly, date).value)
    ensures var t := RustDist.AvailableToolchains(index).value;
            LastBefore(t.beta, date).Some? ==>
              forall k :: 0 <= k < |t.beta| && LexLess(t.beta[k], date) ==>
                LexLe(t.beta[k], LastBefore(t.beta, date).value)
    ensures var t := RustDist.AvailableToolchains(index).value;
            LastBefore(t.stable, date).Some? ==>
              forall k :: 0 <= k < |t.stable| && LexLess(t.stable[k], date) ==>
                LexLe(t.stable[k], LastBefore(t.stable, date).value)
  {
    var t := RustDist.AvailableToolchains(index).value;
    if LastBefore(t.nightly, date).Some? { LastBeforeSortedIsMax(t.nightly, date); }
    if LastBefore(t.beta, date).Some? { LastBeforeSortedIsMax(t.beta, date); }
    if LastBefore(t.stable, date).Some? { LastBeforeSortedIsMax(t.stable, date); }
  }
}
