/**
 * The `TimingDashboard` object of timing/app.js with its DOM and socket plumbing taken
 * off: a run tracker (the run in progress, its start instant and the live-timer handle),
 * the history of finished runs with the count, best time and table it shows, the
 * bounded reconnect counter, and the demo driver's counter and pending runs.
 *
 * The clock is the parameter `now` (milliseconds, as `Date.now()` gives them); the host's
 * timers are modelled by the fields `liveIntervals`, `nextHandle` and `pendingRetries`.
 */
module Dashboard {
  import opened JsValues
  import opened Messages
  import opened History

  /** `maxReconnectAttempts` (timing/app.js:11). */
  const MaxReconnectAttempts: nat := 5

  /** What the connection indicator shows; Unknown is the page's own markup, before the
      dashboard has written to it. */
  datatype Connection = Unknown | Connected | Disconnected

  /** One call of `attemptReconnect` on counter value `a`: the counter afterwards, and
      whether a retry was scheduled. */
  function ReconnectStep(a: nat): (r: (nat, bool))
    ensures r.1 <==> r.0 == a + 1
    ensures !r.1 ==> r.0 == a
    ensures a <= MaxReconnectAttempts ==> r.0 <= MaxReconnectAttempts
  {
    if a < MaxReconnectAttempts then (a + 1, true) else (a, false)
  }

  /** `k` closes in a row with no open between them, from counter value `a`: the counter
      afterwards and the number of retries they schedule. */
  function AfterCloses(a: nat, k: nat): (r: (nat, nat))
    ensures a <= r.0 <= a + k && r.1 <= k
    decreases k
  {
    if k == 0 then (a, 0)
    else
      var (next, scheduled) := ReconnectStep(a);
      var (last, retries) := AfterCloses(next, k - 1);
      (last, if scheduled then retries + 1 else retries)
  }

  function Least(x: int, y: int): int {
    if x <= y then x else y
  }

  /** Closes schedule one retry each until the counter reaches its cap, and none after:
      from a fresh counter, at most five retries in all. */
  lemma {:induction false} RetriesAreBounded(a: nat, k: nat)
    requires a <= MaxReconnectAttempts
    ensures AfterCloses(a, k).0 == Least(a + k, MaxReconnectAttempts)
    ensures AfterCloses(a, k).1 == Least(k, MaxReconnectAttempts - a)
    decreases k
  {
    if k > 0 {
      RetriesAreBounded(ReconnectStep(a).0, k - 1);
    }
  }

  /** `Math.min(...keys)` over the keys of a non-empty map. */
  method MinKey(keys: set<int>) returns (m: int)
    requires keys != {}
    ensures m in keys && forall k :: k in keys ==> m <= k
  {
    // A non-empty set has an element, which the `:|` below needs shown.
    if forall k :: k !in keys { assert false; }
    m :| m in keys;
    var rest := keys - {m};
    while rest != {}
      invariant rest <= keys && m in keys
      invariant forall k :: k in keys && k !in rest ==> m <= k
      decreases |rest|
    {
      // As above: `rest` is non-empty, so it has an element to pick.
      if forall k :: k !in rest { assert false; }
      var k :| k in rest;
      if k < m {
        m := k;
      }
      rest := rest - {k};
    }
  }

  class TimingDashboard {
    // The history and the run tracker (timing/app.js:6-8, 97-106).
    var runs: seq<Run>
    var currentRun: Option<Number<int>>
    var startTime: Option<int>
    var timerInterval: Option<nat>
    // The host's side of the live timer: the intervals created for this dashboard and
    // not yet cleared, and the handle the next `setInterval` returns (always positive).
    var liveIntervals: set<nat>
    var nextHandle: nat
    // Reconnection (timing/app.js:10-11): the counter, its cap, and the retries
    // scheduled with `setTimeout` that have not fired yet.
    var reconnectAttempts: nat
    const maxReconnectAttempts: nat
    var pendingRetries: nat
    // What the page shows: the connection indicator, the total-runs and best-time
    // values and the table rows; None while the page's own markup is still there.
    var connection: Connection
    var shownCount: Option<nat>
    var shownBest: Option<Number<real>>
    var shownRows: Option<seq<Row>>
    // The demo driver's closure variables (timing/app.js:186-187): the last number it
    // handed out and the start instant of each run it has not finished. Demo runs are
    // finished in order, so the pending ones are those after the first `demoFinished`.
    var demoRunNumber: nat
    var pendingRuns: map<int, int>
    ghost var demoFinished: nat

    ghost predicate Valid()
      reads this
    {
      ReconnectValid() && TimerValid() && DisplayValid() && DemoValid()
    }

    /** The counter never passes its cap. */
    ghost predicate ReconnectValid()
      reads this`reconnectAttempts
    {
      maxReconnectAttempts == MaxReconnectAttempts && reconnectAttempts <= maxReconnectAttempts
    }

    /** At most one interval is live, and it is the one `timerInterval` holds. */
    ghost predicate TimerValid()
      reads this`timerInterval, this`liveIntervals, this`nextHandle
    {
      && 0 < nextHandle
      && (timerInterval.Some? ==> 0 < timerInterval.value < nextHandle)
      && liveIntervals == (if timerInterval.Some? then {timerInterval.value} else {})
    }

    /** The page shows the count, best time and rows of the history, or its own markup
        while the history is empty. */
    ghost predicate DisplayValid()
      reads this`runs, this`shownCount, this`shownBest, this`shownRows
    {
      && (runs == [] ==> shownCount.None? && shownBest.None? && shownRows.None?)
      && (runs != [] ==>
           && shownCount == Some(|runs|)
           && shownBest == Some(MinTime(runs))
           && shownRows == Some(Rows(runs)))
    }

    /** The pending demo runs are exactly those numbered after the first `demoFinished`. */
    ghost predicate DemoValid()
      reads this`demoFinished, this`demoRunNumber, this`pendingRuns
    {
      && demoFinished <= demoRunNumber
      && (forall k :: k in pendingRuns ==> demoFinished < k <= demoRunNumber)
      && (forall k :: demoFinished < k <= demoRunNumber ==> k in pendingRuns)
    }

    /** `new TimingDashboard()`: empty history, no run, counter at zero, no demo run;
        `socketThrows` says whether the socket constructor threw. */
    constructor (socketThrows: bool)
      ensures Valid()
      ensures runs == [] && currentRun.None? && startTime.None? && timerInterval.None?
      ensures reconnectAttempts == 0 && pendingRetries == 0
      ensures connection == if socketThrows then Disconnected else Unknown
      ensures demoRunNumber == 0 && pendingRuns == map[]
    {
      runs, currentRun, startTime := [], None, None;
      timerInterval, liveIntervals, nextHandle := None, {}, 1;
      reconnectAttempts, maxReconnectAttempts, pendingRetries := 0, MaxReconnectAttempts, 0;
      connection, shownCount, shownBest, shownRows := Unknown, None, None, None;
      demoRunNumber, pendingRuns, demoFinished := 0, map[], 0;
      new;
      InitWebSocket(socketThrows);
    }

    /** `initWebSocket` as far as the dashboard's state goes: when the socket constructor
        throws, the indicator shows Disconnected and no retry is scheduled; otherwise
        nothing changes until the socket opens or closes. */
    method InitWebSocket(socketThrows: bool)
      modifies this`connection
      ensures connection == if socketThrows then Disconnected else old(connection)
    {
      if socketThrows {
        UpdateConnectionStatus(false);
      }
    }

    method UpdateConnectionStatus(connected: bool)
      modifies this`connection
      ensures connection == if connected then Connected else Disconnected
    {
      connection := if connected then Connected else Disconnected;
    }

    /** The socket's `onopen`: connected, and the counter back to zero. */
    method OnOpen()
      requires Valid()
      modifies this`connection, this`reconnectAttempts
      ensures Valid()
      ensures connection == Connected && reconnectAttempts == 0
    {
      UpdateConnectionStatus(true);
      reconnectAttempts := 0;
    }

    /** The socket's `onclose`: disconnected, then `attemptReconnect`. */
    method OnClose() returns (scheduled: bool)
      requires Valid()
      modifies this`connection, this`reconnectAttempts, this`pendingRetries
      ensures Valid()
      ensures connection == Disconnected
      ensures (reconnectAttempts, scheduled) == ReconnectStep(old(reconnectAttempts))
      ensures pendingRetries == old(pendingRetries) + (if scheduled then 1 else 0)
    {
      UpdateConnectionStatus(false);
      scheduled := AttemptReconnect();
    }

    /** `attemptReconnect`: below the cap, one more attempt is counted and one retry is
        scheduled (`scheduled` says so); at the cap nothing happens. */
    method AttemptReconnect() returns (scheduled: bool)
      requires Valid()
      modifies this`reconnectAttempts, this`pendingRetries
      ensures Valid()
      ensures scheduled <==> old(reconnectAttempts) < maxReconnectAttempts
      ensures reconnectAttempts == old(reconnectAttempts) + (if scheduled then 1 else 0)
      ensures (reconnectAttempts, scheduled) == ReconnectStep(old(reconnectAttempts))
      ensures pendingRetries == old(pendingRetries) + (if scheduled then 1 else 0)
    {
      scheduled := false;
      if reconnectAttempts < maxReconnectAttempts {
        reconnectAttempts := reconnectAttempts + 1;
        pendingRetries := pendingRetries + 1;
        scheduled := true;
      }
    }

    /** A scheduled retry fires and calls `initWebSocket` again. */
    method RetryFires(socketThrows: bool)
      requires Valid() && pendingRetries > 0
      modifies this`pendingRetries, this`connection
      ensures Valid()
      ensures pendingRetries == old(pendingRetries) - 1
      ensures connection == if socketThrows then Disconnected else old(connection)
    {
      pendingRetries := pendingRetries - 1;
      InitWebSocket(socketThrows);
    }

    /** `handleMessage`: a start line starts a run, a result line finishes one, and any
        other line changes nothing. */
    method HandleMessage(data: string, now: int)
      requires Valid()
      modifies this`runs, this`currentRun, this`startTime, this`timerInterval, this`liveIntervals
      modifies this`nextHandle, this`shownCount, this`shownBest, this`shownRows
      ensures Valid()
      ensures Classify(data).Ignored? ==> unchanged(this)
      ensures Classify(data).Start? ==>
        && currentRun == Some(Classify(data).run) && startTime == Some(now)
        && runs == old(runs)
        && timerInterval == Some(old(nextHandle)) && liveIntervals == {old(nextHandle)}
        && nextHandle == old(nextHandle) + 1
      ensures Classify(data).Finish? ==>
        && runs == [Run(Classify(data).run, Classify(data).time, now)] + old(runs)
        && currentRun == old(currentRun) && startTime == old(startTime)
        && timerInterval.None? && liveIntervals == {} && nextHandle == old(nextHandle)
    {
      match Classify(data)
      case Start(run) =>
        HandleStart(run, now);
      case Finish(run, time) =>
        HandleFinish(run, time, now);
      case Ignored =>
    }

    /** `handleStart`: the run and its start instant replace whatever was there, and the
        live timer is (re)started; the history is not touched. */
    method HandleStart(run: Number<int>, now: int)
      requires Valid()
      modifies this`currentRun, this`startTime, this`timerInterval, this`liveIntervals, this`nextHandle
      ensures Valid()
      ensures currentRun == Some(run) && startTime == Some(now)
      ensures timerInterval == Some(old(nextHandle)) && liveIntervals == {old(nextHandle)}
      ensures nextHandle == old(nextHandle) + 1
    {
      currentRun := Some(run);
      startTime := Some(now);
      StartLiveTimer();
    }

    /** `startLiveTimer`: the previous interval, if any, is cleared before a new one is
        created, so exactly one interval is live afterwards. */
    method StartLiveTimer()
      requires Valid()
      modifies this`timerInterval, this`liveIntervals, this`nextHandle
      ensures Valid()
      ensures timerInterval == Some(old(nextHandle)) && liveIntervals == {old(nextHandle)}
      ensures nextHandle == old(nextHandle) + 1
      ensures old(timerInterval).Some? ==> old(timerInterval).value !in liveIntervals
    {
      if timerInterval.Some? {
        liveIntervals := liveIntervals - {timerInterval.value};  // clearInterval
      }
      liveIntervals := liveIntervals + {nextHandle};              // setInterval
      timerInterval := Some(nextHandle);
      nextHandle := nextHandle + 1;
    }

    /** `handleFinish`: the live timer is stopped, the run is put at the front of the
        history, and the count, best time and table are redrawn. The run number is not
        checked against the run in progress, which is left as it was. */
    method HandleFinish(run: Number<int>, time: Number<real>, now: int)
      requires Valid()
      modifies this`runs, this`timerInterval, this`liveIntervals
      modifies this`shownCount, this`shownBest, this`shownRows
      ensures Valid()
      ensures runs == [Run(run, time, now)] + old(runs)
      ensures currentRun == old(currentRun) && startTime == old(startTime)
      ensures timerInterval.None? && liveIntervals == {}
      ensures shownCount == Some(|runs|) && shownBest == Some(MinTime(runs)) && shownRows == Some(Rows(runs))
    {
      if timerInterval.Some? {
        liveIntervals := liveIntervals - {timerInterval.value};  // clearInterval
        timerInterval := None;
      }
      assert TimerValid();
      runs := [Run(run, time, now)] + runs;
      UpdateStats();
      UpdateTable();
      assert DisplayValid();
    }

    /** `updateStats`: the count is the length of the history; the best time is the least
        time, and is left as it was when the history is empty. */
    method UpdateStats()
      modifies this`shownCount, this`shownBest
      ensures shownCount == Some(|runs|)
      ensures shownBest == if runs == [] then old(shownBest) else Some(MinTime(runs))
    {
      shownCount := Some(|runs|);
      if |runs| > 0 {
        shownBest := Some(MinTime(runs));
      }
    }

    /** `updateTable`: the rows of the history. */
    method UpdateTable()
      modifies this`shownRows
      ensures shownRows == Some(Rows(runs))
    {
      shownRows := Some(Rows(runs));
    }

    /** The demo "start" button: the next demo number is handed out, its start instant
        recorded under it, and the run started. */
    method DemoStart(now: int)
      requires Valid()
      modifies this`demoRunNumber, this`pendingRuns
      modifies this`currentRun, this`startTime, this`timerInterval, this`liveIntervals, this`nextHandle
      ensures Valid()
      ensures demoRunNumber == old(demoRunNumber) + 1
      ensures demoRunNumber !in old(pendingRuns)
      ensures pendingRuns == old(pendingRuns)[demoRunNumber := now]
      ensures forall k :: k in pendingRuns ==> 1 <= k <= demoRunNumber
      ensures currentRun == Some(Num(demoRunNumber)) && startTime == Some(now)
      ensures timerInterval == Some(old(nextHandle)) && liveIntervals == {old(nextHandle)}
      ensures nextHandle == old(nextHandle) + 1
    {
      demoRunNumber := demoRunNumber + 1;
      pendingRuns := pendingRuns[demoRunNumber := now];
      HandleStart(Num(demoRunNumber), now);
    }

    /** The demo "finish" button: the pending run with the least number is taken out and
        finished with the seconds elapsed since its start; with no pending run, nothing
        happens. */
    method DemoFinish(now: int)
      requires Valid()
      modifies this`pendingRuns, this`demoFinished
      modifies this`runs, this`timerInterval, this`liveIntervals
      modifies this`shownCount, this`shownBest, this`shownRows
      ensures Valid()
      ensures old(pendingRuns) == map[] ==> unchanged(this)
      ensures old(pendingRuns) != map[] ==>
        var oldest := old(demoFinished) + 1;
        && oldest in old(pendingRuns)
        && (forall k :: k in old(pendingRuns) ==> oldest <= k)
        && pendingRuns == old(pendingRuns) - {oldest}
        && runs == [Run(Num(oldest), Num((now - old(pendingRuns)[oldest]) as real / 1000.0), now)] + old(runs)
      ensures old(pendingRuns) != map[] ==>
        && timerInterval.None? && liveIntervals == {}
        && shownCount == Some(|runs|) && shownBest == Some(MinTime(runs))
        && shownRows == Some(Rows(runs))
    {
      if |pendingRuns| > 0 {
        var oldest, start := TakeOldestPending();
        var elapsed := (now - start) as real / 1000.0;
        HandleFinish(Num(oldest), Num(elapsed), now);
      }
    }

    /** The first half of a demo finish: the least pending number is looked up with its
        start instant and deleted from the map. */
    method TakeOldestPending() returns (oldest: int, start: int)
      requires Valid() && pendingRuns != map[]
      modifies this`pendingRuns, this`demoFinished
      ensures Valid()
      ensures oldest in old(pendingRuns) && start == old(pendingRuns)[oldest]
      ensures forall k :: k in old(pendingRuns) ==> oldest <= k
      ensures oldest == old(demoFinished) + 1
      ensures pendingRuns == old(pendingRuns) - {oldest}
    {
      oldest := MinKey(pendingRuns.Keys);
      assert oldest == demoFinished + 1 by {
        assert demoFinished + 1 in pendingRuns.Keys;
      }
      start := pendingRuns[oldest];
      pendingRuns := pendingRuns - {oldest};
      demoFinished := demoFinished + 1;
    }
  }

  /** A device run as a line exchange: "START:1", then "RESULT:1:2.345" after the run.
      One run is recorded, it is the best, and the table shows it as best and new. */
  method StartThenResult(t0: int, t1: int)
    returns (runs: seq<Run>, count: Option<nat>, best: Option<Number<real>>, rows: Option<seq<Row>>)
    ensures runs == [Run(Num(1), Num(2.345), t1)]
    ensures count == Some(1) && best == Some(Num(2.345))
    ensures rows == Some([RunRow(Num(1), Num(2.345), t1, true, true)])
  {
    var d := new TimingDashboard(false);
    var startLine, resultLine := "START:1", "RESULT:1:2.345";
    assert Classify(startLine) == Start(Num(1)) by { ExampleStartLine(); }
    assert Classify(resultLine) == Finish(Num(1), Num(2.345)) by { ExampleResultLine(); }
    d.HandleMessage(startLine, t0);
    d.HandleMessage(resultLine, t1);
    SingleRun(Run(Num(1), Num(2.345), t1));
    runs, count, best, rows := d.runs, d.shownCount, d.shownBest, d.shownRows;
  }

  /** Two demo starts, then a demo finish: the finish takes the first run, not the run
      started last, and leaves the second one pending. */
  method TwoStartsOneFinish(t0: int, t1: int, t2: int) returns (runs: seq<Run>, pending: map<int, int>)
    ensures runs == [Run(Num(1), Num((t2 - t0) as real / 1000.0), t2)]
    ensures pending == map[2 := t1]
  {
    var d := new TimingDashboard(false);
    d.DemoStart(t0);
    assert d.pendingRuns == map[1 := t0] && d.demoFinished == 0;
    d.DemoStart(t1);
    assert d.pendingRuns == map[1 := t0, 2 := t1];
    d.DemoFinish(t2);
    runs, pending := d.runs, d.pendingRuns;
  }
}
