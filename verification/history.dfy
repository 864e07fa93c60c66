/**
 * The history of finished runs, most recent first, and what the dashboard derives from
 * it: the best time shown by `updateStats` (timing/app.js:150-157) and the rows drawn
 * by `updateTable` (timing/app.js:159-182).
 */
module History {
  import opened JsValues

  /** A finished run: its number, its time in seconds, and when it was recorded. */
  datatype Run = Run(number: Number<int>, time: Number<real>, timestamp: int)

  /** A row of the history table: the placeholder of an empty history, or one run with
      its two marks, the "best-time" class on its time and the "new-run" class. */
  datatype Row =
    | Placeholder
    | RunRow(number: Number<int>, time: Number<real>, timestamp: int, best: bool, newRun: bool)

  /** `Math.min(...runs.map(r => r.time))`: NaN when any time is NaN, otherwise the
      least of the times. */
  function MinTime(runs: seq<Run>): (m: Number<real>)
    requires |runs| > 0
    ensures m.NaN? <==> exists i :: 0 <= i < |runs| && runs[i].time.NaN?
    ensures m.Num? ==> exists i :: 0 <= i < |runs| && runs[i].time == m
    ensures m.Num? ==> forall i :: 0 <= i < |runs| ==> runs[i].time.Num? && m.value <= runs[i].time.value
  {
    if |runs| == 1 then runs[0].time
    else
      var m := Min(runs[0].time, MinTime(runs[1..]));
      assert forall i :: 1 <= i < |runs| ==> runs[i] == runs[1..][i - 1];
      m
  }

  /** Run i holds a best time: a number no greater than any time in the history. */
  predicate IsBest(runs: seq<Run>, i: nat)
    requires i < |runs|
  {
    runs[i].time.Num? && forall j :: 0 <= j < |runs| ==> runs[j].time.Num? && runs[i].time.value <= runs[j].time.value
  }

  /**
   * The rows `updateTable` draws: a single placeholder for an empty history, otherwise
   * one row per run in stored order, where a row's time is marked best exactly when it
   * is `===` to the least time, and only the first row is marked new.
   */
  function Rows(runs: seq<Run>): (rows: seq<Row>)
    ensures |runs| == 0 ==> rows == [Placeholder]
    ensures |runs| > 0 ==> |rows| == |runs|
    ensures forall i :: 0 <= i < |runs| ==>
      && rows[i].RunRow?
      && rows[i].number == runs[i].number
      && rows[i].time == runs[i].time
      && rows[i].timestamp == runs[i].timestamp
    ensures forall i :: 0 <= i < |runs| ==> (rows[i].best <==> IsBest(runs, i))
    ensures forall i :: 0 <= i < |runs| ==> (rows[i].newRun <==> i == 0)
  {
    if |runs| == 0 then [Placeholder]
    else
      var least := MinTime(runs);
      seq(|runs|, i requires 0 <= i < |runs| =>
        RunRow(runs[i].number, runs[i].time, runs[i].timestamp, StrictEquals(runs[i].time, least), i == 0))
  }

  /** Ties are marked alike: two runs with the same time are both best or both not. */
  lemma TiesMarkedAlike(runs: seq<Run>, i: nat, j: nat)
    requires i < |runs| && j < |runs| && runs[i].time == runs[j].time
    ensures Rows(runs)[i].best == Rows(runs)[j].best
  {}

  /** With no NaN time in a non-empty history, some row is marked best. */
  lemma SomeRowMarkedBest(runs: seq<Run>)
    requires |runs| > 0
    requires forall i :: 0 <= i < |runs| ==> runs[i].time.Num?
    ensures exists i :: 0 <= i < |runs| && Rows(runs)[i].best
  {
    var m := MinTime(runs);
    var k :| 0 <= k < |runs| && runs[k].time == m;
    assert IsBest(runs, k);
    assert Rows(runs)[k].best;
  }

  /** A NaN time anywhere in the history leaves every row unmarked. */
  lemma NaNMarksNoRow(runs: seq<Run>, j: nat)
    requires j < |runs| && runs[j].time.NaN?
    ensures forall i :: 0 <= i < |runs| ==> !Rows(runs)[i].best
  {}

  /** Recording a run updates the best time incrementally: the new best is the
      `Math.min` of the new time and the old best. */
  lemma BestAfterRecord(run: Run, runs: seq<Run>)
    requires |runs| > 0
    ensures MinTime([run] + runs) == Min(run.time, MinTime(runs))
  {}

  /** A history of one timed run: that time is the best, and its row is marked both
      best and new. */
  lemma SingleRun(run: Run)
    requires run.time.Num?
    ensures MinTime([run]) == run.time
    ensures Rows([run]) == [RunRow(run.number, run.time, run.timestamp, true, true)]
  {}
}
