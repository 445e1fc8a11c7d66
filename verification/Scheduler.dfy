/** The scheduler: daily tasks with a tolerance window, and interval tasks. */
module Scheduler {
  import opened Dicts

  /** Wall-clock time in microseconds, the resolution of datetime. */
  type Micros = int

  const MINUTE: int := 60_000_000
  const DAY: int := 86_400_000_000
  /** _TOLERANCE_MINUTES either side. */
  const TOLERANCE: int := MINUTE

  /** A callable's identity. */
  type Fn = nat

  function DayOf(now: Micros): int {
    now / DAY
  }

  /** A daily task: time of day, None when the string is not HH:MM, and its callable. */
  type Daily = (Option<nat>, Fn)

  predicate Due(at: nat, now: Micros) {
    var d := now - (DayOf(now) * DAY + at);
    -TOLERANCE <= d <= TOLERANCE
  }

  /** Whether a tick fires a registration whose callable last ran on the given day. */
  predicate Fires(at: Option<nat>, last: Option<int>, now: Micros) {
    last != Some(DayOf(now)) && at.Some? && Due(at.value, now)
  }

  function LastRun(lastRun: map<Fn, int>, fn: Fn): Option<int> {
    if fn in lastRun then Some(lastRun[fn]) else None
  }

  /** The daily half of a tick over the first n tasks: the table of last runs, and what fired. */
  function TickDaily(tasks: seq<Daily>, lastRun: map<Fn, int>, now: Micros, n: nat): (map<Fn, int>, seq<Fn>)
    requires n <= |tasks|
  {
    if n == 0 then (lastRun, [])
    else
      var (before, fired) := TickDaily(tasks, lastRun, now, n - 1);
      var (at, fn) := tasks[n - 1];
      if Fires(at, LastRun(before, fn), now) then (before[fn := DayOf(now)], fired + [fn]) else (before, fired)
  }

  /** An interval task: seconds between runs and the time of the last one. */
  datatype Interval = Interval(seconds: real, last: real)

  predicate Elapsed(i: Interval, now: real) {
    now - i.last >= i.seconds
  }

  /** The interval half of a tick: the table after it, and which callables start. */
  function TickIntervals(intervals: map<Fn, Interval>, now: real): (map<Fn, Interval>, set<Fn>) {
    (map fn | fn in intervals :: if Elapsed(intervals[fn], now) then intervals[fn].(last := now) else intervals[fn],
     set fn | fn in intervals && Elapsed(intervals[fn], now))
  }

  class Scheduler {
    var tasks: seq<Daily>
    var lastRun: map<Fn, int>
    var intervals: map<Fn, Interval>

    constructor ()
      ensures tasks == [] && lastRun == map[] && intervals == map[]
    {
      tasks, lastRun, intervals := [], map[], map[];
    }

    method Add(at: Option<nat>, fn: Fn)
      modifies this`tasks
      ensures tasks == old(tasks) + [(at, fn)]
    {
      tasks := tasks + [(at, fn)];
    }

    /**
     * Registering the same callable again replaces its interval. From the registration on it is due once the interval
     * has passed; with run_at_start, as soon as the clock - seconds since 1970 - is past the length of the interval,
     * which is at once for any real clock. No other callable is affected.
     */
    method AddInterval(seconds: real, fn: Fn, runAtStart: bool, now: real)
      modifies this`intervals
      ensures intervals.Keys == old(intervals).Keys + {fn} && intervals[fn].seconds == seconds
      ensures forall k :: k in old(intervals) && k != fn ==> intervals[k] == old(intervals)[k]
      ensures !runAtStart ==> forall t :: Elapsed(intervals[fn], t) <==> t - now >= seconds
      ensures runAtStart ==> forall t :: Elapsed(intervals[fn], t) <==> t >= seconds
      ensures 0.0 < seconds <= now ==> (Elapsed(intervals[fn], now) <==> runAtStart)
    {
      intervals := intervals[fn := Interval(seconds, if runAtStart then 0.0 else now)];
    }

    /** now is the wall clock, epoch the seconds clock; returns the callables started. */
    method Tick(now: Micros, epoch: real) returns (daily: seq<Fn>, periodic: set<Fn>)
      modifies this`lastRun, this`intervals
      ensures (lastRun, daily) == TickDaily(tasks, old(lastRun), now, |tasks|)
      ensures (intervals, periodic) == TickIntervals(old(intervals), epoch)
    {
      daily, periodic := [], {};
      for i := 0 to |tasks|
        invariant (lastRun, daily) == TickDaily(tasks, old(lastRun), now, i)
        invariant intervals == old(intervals)
      {
        var (at, fn) := tasks[i];
        if fn in lastRun && lastRun[fn] == DayOf(now) {
          continue;
        }
        if at.None? {
          continue;
        }
        if Due(at.value, now) {
          lastRun := lastRun[fn := DayOf(now)];
          daily := daily + [fn];
        }
      }
      var todo := intervals.Keys;
      ghost var before := intervals;
      while todo != {}
        invariant todo <= before.Keys == intervals.Keys
        invariant periodic == set fn | fn in before && fn !in todo && Elapsed(before[fn], epoch)
        invariant forall fn :: fn in before ==>
          intervals[fn] == if fn in periodic then before[fn].(last := epoch) else before[fn]
        invariant (lastRun, daily) == TickDaily(tasks, old(lastRun), now, |tasks|)
      {
        var fn :| fn in todo;
        if Elapsed(intervals[fn], epoch) {
          intervals := intervals[fn := intervals[fn].(last := epoch)];
          periodic := periodic + {fn};
        }
        todo := todo - {fn};
      }
      assert intervals == TickIntervals(before, epoch).0 && periodic == TickIntervals(before, epoch).1;
    }
  }

  // ----- the daily half of a tick, callable by callable -----

  /** The times of day at which a callable is registered among the first n tasks. */
  function TimesOf(tasks: seq<Daily>, fn: Fn, n: nat): set<nat>
    requires n <= |tasks|
  {
    if n == 0 then {}
    else
      var (at, f) := tasks[n - 1];
      TimesOf(tasks, fn, n - 1) + if f == fn && at.Some? then {at.value} else {}
  }

  predicate DueAt(times: set<nat>, now: Micros) {
    exists at :: at in times && Due(at, now)
  }

  predicate Starts(times: set<nat>, last: Option<int>, now: Micros) {
    last != Some(DayOf(now)) && DueAt(times, now)
  }

  /**
   * For every list of tasks, however often a callable is in it: a tick starts the callable exactly once if one of its
   * registrations is due and it has not run on that day, and otherwise not at all.
   */
  lemma {:induction false} TickExactly(tasks: seq<Daily>, lastRun: map<Fn, int>, now: Micros, n: nat, fn: Fn)
    requires n <= |tasks|
    ensures var (after, fired) := TickDaily(tasks, lastRun, now, n);
            var starts := Starts(TimesOf(tasks, fn, n), LastRun(lastRun, fn), now);
            && multiset(fired)[fn] == (if starts then 1 else 0)
            && LastRun(after, fn) == if starts then Some(DayOf(now)) else LastRun(lastRun, fn)
  {
    if n > 0 {
      TickExactly(tasks, lastRun, now, n - 1, fn);
      var (at, f) := tasks[n - 1];
      var before, times := TimesOf(tasks, fn, n - 1), TimesOf(tasks, fn, n);
      assert DueAt(times, now) <==> DueAt(before, now) || (f == fn && at.Some? && Due(at.value, now)) by {
        assert forall t :: t in times <==> t in before || (f == fn && at == Some(t));
      }
    }
  }

  /** What a run of ticks since the scheduler was created leaves, and what each tick starts; a restart forgets the table. */
  function DailyTicks(tasks: seq<Daily>, ticks: seq<Micros>, n: nat): (r: (map<Fn, int>, seq<seq<Fn>>))
    requires n <= |ticks|
    ensures |r.1| == n
  {
    if n == 0 then (map[], [])
    else
      var (last, log) := DailyTicks(tasks, ticks, n - 1);
      var (after, fired) := TickDaily(tasks, last, ticks[n - 1], |tasks|);
      (after, log + [fired])
  }

  /** When a callable was started: each tick as often as the tick started it. */
  function StartsOf(log: seq<seq<Fn>>, ticks: seq<Micros>, fn: Fn, n: nat): seq<Micros>
    requires n <= |log| && n <= |ticks|
  {
    if n == 0 then []
    else StartsOf(log, ticks, fn, n - 1) + seq(multiset(log[n - 1])[fn], _ => ticks[n - 1])
  }

  lemma {:induction false} StartsOfPrefix(log: seq<seq<Fn>>, more: seq<seq<Fn>>, ticks: seq<Micros>, fn: Fn, n: nat)
    requires n <= |log| && n <= |ticks|
    ensures StartsOf(log + more, ticks, fn, n) == StartsOf(log, ticks, fn, n)
  {
    if n > 0 {
      StartsOfPrefix(log, more, ticks, fn, n - 1);
    }
  }

  // ----- one callable over a run of ticks -----

  /** Day of the last start and the times of all starts after the first n ticks. */
  function DailyRun(times: set<nat>, ticks: seq<Micros>, n: nat): (Option<int>, seq<Micros>)
    requires n <= |ticks|
  {
    if n == 0 then (None, [])
    else
      var (last, fired) := DailyRun(times, ticks, n - 1);
      if Starts(times, last, ticks[n - 1]) then (Some(DayOf(ticks[n - 1])), fired + [ticks[n - 1]]) else (last, fired)
  }

  /** Over any run of ticks each callable is served as if it were alone, whatever else is registered. */
  lemma {:induction false} StartsAreDailyRun(tasks: seq<Daily>, ticks: seq<Micros>, n: nat, fn: Fn)
    requires n <= |ticks|
    ensures var (last, log) := DailyTicks(tasks, ticks, n);
            (LastRun(last, fn), StartsOf(log, ticks, fn, n)) == DailyRun(TimesOf(tasks, fn, |tasks|), ticks, n)
  {
    if n > 0 {
      StartsAreDailyRun(tasks, ticks, n - 1, fn);
      var (last, log) := DailyTicks(tasks, ticks, n - 1);
      var (after, fired) := TickDaily(tasks, last, ticks[n - 1], |tasks|);
      var times := TimesOf(tasks, fn, |tasks|);
      TickExactly(tasks, last, ticks[n - 1], |tasks|, fn);
      StartsOfPrefix(log, [fired], ticks, fn, n - 1);
      var starts := StartsOf(log, ticks, fn, n - 1);
      if Starts(times, LastRun(last, fn), ticks[n - 1]) {
        assert seq(1, _ => ticks[n - 1]) == [ticks[n - 1]];
      } else {
        assert starts + seq(0, _ => ticks[n - 1]) == starts;
      }
    }
  }

  predicate InOrder(ticks: seq<Micros>) {
    forall i, j :: 0 <= i < j < |ticks| ==> ticks[i] <= ticks[j]
  }

  lemma DayMonotone(a: Micros, b: Micros)
    requires a <= b
    ensures DayOf(a) <= DayOf(b)
  {
  }

  predicate FiredOn(fired: seq<Micros>, day: int) {
    exists i :: 0 <= i < |fired| && DayOf(fired[i]) == day
  }

  /** One of the first n ticks falls on the day and inside the tolerance window. */
  predicate DueOn(times: set<nat>, ticks: seq<Micros>, n: nat, day: int)
    requires n <= |ticks|
  {
    exists i :: 0 <= i < n && DayOf(ticks[i]) == day && DueAt(times, ticks[i])
  }

  /** At most once per calendar day: the days of the starts are strictly increasing. */
  lemma {:induction false} OncePerDay(times: set<nat>, ticks: seq<Micros>, n: nat)
    requires InOrder(ticks) && n <= |ticks|
    ensures var (last, fired) := DailyRun(times, ticks, n);
            && (forall i, j :: 0 <= i < j < |fired| ==> DayOf(fired[i]) < DayOf(fired[j]))
            && last == (if fired == [] then None else Some(DayOf(fired[|fired| - 1])))
            && (fired != [] ==> exists k :: 0 <= k < n && ticks[k] == fired[|fired| - 1])
  {
    if n > 0 {
      OncePerDay(times, ticks, n - 1);
      var (last, fired) := DailyRun(times, ticks, n - 1);
      if fired != [] {
        var k :| 0 <= k < n - 1 && ticks[k] == fired[|fired| - 1];
        DayMonotone(ticks[k], ticks[n - 1]);
      }
    }
  }

  /** It starts exactly on the days on which some tick falls inside the window of some registration. */
  lemma {:induction false} FiresWhenDue(times: set<nat>, ticks: seq<Micros>, n: nat, day: int)
    requires InOrder(ticks) && n <= |ticks|
    ensures FiredOn(DailyRun(times, ticks, n).1, day) <==> DueOn(times, ticks, n, day)
  {
    if n > 0 {
      FiresWhenDue(times, ticks, n - 1, day);
      OncePerDay(times, ticks, n - 1);
      var (last, fired) := DailyRun(times, ticks, n - 1);
      var all := DailyRun(times, ticks, n).1;
      assert forall i :: 0 <= i < |fired| ==> all[i] == fired[i];
      assert DueOn(times, ticks, n, day) <==>
        DueOn(times, ticks, n - 1, day) || (DayOf(ticks[n - 1]) == day && DueAt(times, ticks[n - 1]));
      if Starts(times, last, ticks[n - 1]) {
        assert all[|fired|] == ticks[n - 1];
      }
    }
  }

  /** The number of starts on a day. */
  function StartsOn(starts: seq<Micros>, day: int): nat {
    if starts == [] then 0
    else StartsOn(starts[..|starts| - 1], day) + if DayOf(starts[|starts| - 1]) == day then 1 else 0
  }

  lemma {:induction false} StartsOnCount(starts: seq<Micros>, day: int)
    requires forall i, j :: 0 <= i < j < |starts| ==> DayOf(starts[i]) < DayOf(starts[j])
    ensures StartsOn(starts, day) == if FiredOn(starts, day) then 1 else 0
  {
    if starts != [] {
      var n := |starts| - 1;
      StartsOnCount(starts[..n], day);
      if FiredOn(starts[..n], day) {
        var i :| 0 <= i < n && DayOf(starts[..n][i]) == day;
        assert DayOf(starts[i]) == day;
      }
    }
  }

  /**
   * What one function object gets out of all its registrations, exactly: on each day one start if some tick of the day
   * is inside the window of at least one of them, and none otherwise. A second time of day adds no second run.
   */
  lemma CallableExactly(tasks: seq<Daily>, ticks: seq<Micros>, fn: Fn, day: int)
    requires InOrder(ticks)
    ensures StartsOn(StartsOf(DailyTicks(tasks, ticks, |ticks|).1, ticks, fn, |ticks|), day)
         == if DueOn(TimesOf(tasks, fn, |tasks|), ticks, |ticks|, day) then 1 else 0
  {
    var times := TimesOf(tasks, fn, |tasks|);
    StartsAreDailyRun(tasks, ticks, |ticks|, fn);
    OncePerDay(times, ticks, |ticks|);
    FiresWhenDue(times, ticks, |ticks|, day);
    StartsOnCount(DailyRun(times, ticks, |ticks|).1, day);
  }

  /** So of two times of day, both ticked at on the minute, only the first yields a run. */
  lemma SharedCallableStarves(first: nat, second: nat, fn: Fn, day: int)
    requires first < second < DAY
    ensures var ticks := [day * DAY + first, day * DAY + second];
            StartsOn(StartsOf(DailyTicks([(Some(first), fn), (Some(second), fn)], ticks, 2).1, ticks, fn, 2), day) == 1
  {
    var tasks, ticks := [(Some(first), fn), (Some(second), fn)], [day * DAY + first, day * DAY + second];
    assert tasks[0] == (Some(first), fn) && tasks[1] == (Some(second), fn);
    assert TimesOf(tasks, fn, 1) == TimesOf(tasks, fn, 0) + {first};
    assert TimesOf(tasks, fn, 2) == TimesOf(tasks, fn, 1) + {second};
    DayOfSum(day, first);
    assert Due(first, ticks[0]);
    CallableExactly(tasks, ticks, fn, day);
  }

  lemma DayOfSum(day: int, at: nat)
    requires at < DAY
    ensures DayOf(day * DAY + at) == day
  {
    DayIs(day * DAY + at, day);
  }

  // ----- how far apart ticks may be -----

  /** First and last microsecond of the window, relative to midnight, on the scheduled date. */
  function Opens(at: nat): nat {
    if at < TOLERANCE then 0 else at - TOLERANCE
  }

  function Closes(at: nat): nat {
    if at + TOLERANCE < DAY then at + TOLERANCE else DAY - 1
  }

  predicate Paced(ticks: seq<Micros>, gap: int) {
    forall i :: 0 <= i < |ticks| - 1 ==> ticks[i + 1] - ticks[i] <= gap
  }

  /** The ticks begin before the window opens and go on after it has closed. */
  predicate Spans(at: nat, ticks: seq<Micros>, day: int) {
    ticks != [] && ticks[0] < day * DAY + Opens(at) && day * DAY + Closes(at) < ticks[|ticks| - 1]
  }

  lemma DueIsWindow(at: nat, now: Micros, day: int)
    requires at < DAY
    ensures DayOf(now) == day && Due(at, now) <==> day * DAY + Opens(at) <= now <= day * DAY + Closes(at)
  {
    DayIs(now, day);
  }

  lemma DayIs(now: Micros, day: int)
    ensures DayOf(now) == day <==> day * DAY <= now < day * DAY + DAY
  {
  }

  /** The last tick before a moment. */
  lemma LastBefore(ticks: seq<Micros>, moment: Micros) returns (i: nat)
    requires InOrder(ticks) && ticks != [] && ticks[0] < moment <= ticks[|ticks| - 1]
    ensures i + 1 < |ticks| && ticks[i] < moment <= ticks[i + 1]
  {
    i := 0;
    while ticks[i + 1] < moment
      invariant i + 1 < |ticks| && ticks[i] < moment
      decreases |ticks| - i
    {
      i := i + 1;
    }
  }

  /** Every run of ticks with gaps up to the given one that spans the day's window fires on that day. */
  ghost predicate Guaranteed(at: nat, gap: int, day: int) {
    forall ticks: seq<Micros> :: InOrder(ticks) && Paced(ticks, gap) && Spans(at, ticks, day) ==>
      FiredOn(DailyRun({at}, ticks, |ticks|).1, day)
  }

  /**
   * The daily promise, exactly: a task is sure to run on a day if and only if ticks are never further apart than
   * the part of its tolerance window that lies on that date.
   */
  lemma GuaranteedExactly(at: nat, gap: int, day: int)
    requires at < DAY
    ensures Guaranteed(at, gap, day) <==> gap <= Closes(at) - Opens(at) + 1
  {
    var opens, closes := day * DAY + Opens(at), day * DAY + Closes(at);
    if gap <= Closes(at) - Opens(at) + 1 {
      forall ticks: seq<Micros> | InOrder(ticks) && Paced(ticks, gap) && Spans(at, ticks, day)
        ensures FiredOn(DailyRun({at}, ticks, |ticks|).1, day)
      {
        var i := LastBefore(ticks, opens);
        DueIsWindow(at, ticks[i + 1], day);
        assert DueAt({at}, ticks[i + 1]);
        FiresWhenDue({at}, ticks, |ticks|, day);
      }
    } else {
      var ticks := [opens - 1, closes + 1];
      DueIsWindow(at, ticks[0], day);
      DueIsWindow(at, ticks[1], day);
      FiresWhenDue({at}, ticks, 2, day);
      assert !FiredOn(DailyRun({at}, ticks, |ticks|).1, day);
    }
  }

  /** Scheduled from 00:01 to 23:59, gaps of 120 seconds are safe; at 00:00 only 60 (and one microsecond) are. */
  lemma SafeGaps(at: nat, day: int)
    requires at < DAY && at % MINUTE == 0
    ensures at >= MINUTE ==> Guaranteed(at, 2 * MINUTE, day)
    ensures at == 0 ==> Guaranteed(at, MINUTE, day) && !Guaranteed(at, MINUTE + 2, day)
  {
    GuaranteedExactly(at, 2 * MINUTE, day);
    GuaranteedExactly(at, MINUTE, day);
    GuaranteedExactly(at, MINUTE + 2, day);
    assert DAY % MINUTE == 0;
  }

  // ----- an interval task over a run of ticks -----

  /** The last run and the times of all runs after the first n ticks. */
  function IntervalRun(seconds: real, last: real, ticks: seq<real>, n: nat): (real, seq<real>)
    requires n <= |ticks|
  {
    if n == 0 then (last, [])
    else
      var (before, runs) := IntervalRun(seconds, last, ticks, n - 1);
      if Elapsed(Interval(seconds, before), ticks[n - 1]) then (ticks[n - 1], runs + [ticks[n - 1]]) else (before, runs)
  }

  /** What a run of ticks leaves of the interval table, and what each tick starts. */
  function IntervalTicks(intervals: map<Fn, Interval>, ticks: seq<real>, n: nat): (r: (map<Fn, Interval>, seq<set<Fn>>))
    requires n <= |ticks|
    ensures |r.1| == n
  {
    if n == 0 then (intervals, [])
    else
      var (before, log) := IntervalTicks(intervals, ticks, n - 1);
      var (after, started) := TickIntervals(before, ticks[n - 1]);
      (after, log + [started])
  }

  function RunsOf(log: seq<set<Fn>>, ticks: seq<real>, fn: Fn, n: nat): seq<real>
    requires n <= |log| && n <= |ticks|
  {
    if n == 0 then [] else RunsOf(log, ticks, fn, n - 1) + if fn in log[n - 1] then [ticks[n - 1]] else []
  }

  lemma {:induction false} RunsOfPrefix(log: seq<set<Fn>>, more: seq<set<Fn>>, ticks: seq<real>, fn: Fn, n: nat)
    requires n <= |log| && n <= |ticks|
    ensures RunsOf(log + more, ticks, fn, n) == RunsOf(log, ticks, fn, n)
  {
    if n > 0 {
      RunsOfPrefix(log, more, ticks, fn, n - 1);
    }
  }

  /** Over any run of ticks each interval task runs as if it were alone. */
  lemma {:induction false} RunsAreIntervalRun(intervals: map<Fn, Interval>, ticks: seq<real>, n: nat, fn: Fn)
    requires n <= |ticks| && fn in intervals
    ensures var (after, log) := IntervalTicks(intervals, ticks, n);
            var (last, runs) := IntervalRun(intervals[fn].seconds, intervals[fn].last, ticks, n);
            && fn in after && after[fn] == Interval(intervals[fn].seconds, last)
            && RunsOf(log, ticks, fn, n) == runs
  {
    if n > 0 {
      RunsAreIntervalRun(intervals, ticks, n - 1, fn);
      var (before, log) := IntervalTicks(intervals, ticks, n - 1);
      var (after, started) := TickIntervals(before, ticks[n - 1]);
      RunsOfPrefix(log, [started], ticks, fn, n - 1);
    }
  }

  /** Ticks in order, at most `gap` apart. */
  predicate Steady(ticks: seq<real>, gap: real) {
    forall i :: 0 <= i < |ticks| - 1 ==> 0.0 <= ticks[i + 1] - ticks[i] <= gap
  }

  /** Consecutive runs are at least `low` and less than `high` apart. */
  predicate Apart(runs: seq<real>, low: real, high: real) {
    forall i :: 0 <= i < |runs| - 1 ==> low <= runs[i + 1] - runs[i] < high
  }

  lemma ApartSnoc(runs: seq<real>, low: real, high: real, t: real)
    requires Apart(runs, low, high) && (runs != [] ==> low <= t - runs[|runs| - 1] < high)
    ensures Apart(runs + [t], low, high)
  {
    var longer := runs + [t];
    forall i | 0 <= i < |longer| - 1 ensures low <= longer[i + 1] - longer[i] < high {
      assert i < |runs| - 1 ==> low <= runs[i + 1] - runs[i] < high;
    }
  }

  /**
   * No catch-up bursts, whenever the task last ran before these ticks: consecutive runs are at least the interval and
   * less than the interval plus the tick gap apart, the first one is at least the interval after the last one before,
   * and after every tick the next run is less than an interval away.
   */
  lemma {:induction false} RunsApart(seconds: real, last: real, ticks: seq<real>, gap: real, n: nat)
    requires seconds > 0.0 && n <= |ticks| && Steady(ticks, gap)
    ensures var (now, runs) := IntervalRun(seconds, last, ticks, n);
            && now == (if runs == [] then last else runs[|runs| - 1])
            && (n > 0 ==> ticks[n - 1] - now < seconds)
            && (runs != [] ==> now <= ticks[n - 1])
            && Apart(runs, seconds, seconds + gap)
            && (runs != [] ==> runs[0] - last >= seconds)
  {
    if n > 0 {
      RunsApart(seconds, last, ticks, gap, n - 1);
      var (before, runs) := IntervalRun(seconds, last, ticks, n - 1);
      var t := ticks[n - 1];
      if n > 1 {
        assert 0.0 <= ticks[n - 2 + 1] - ticks[n - 2] <= gap;
      }
      if Elapsed(Interval(seconds, before), t) {
        ApartSnoc(runs, seconds, seconds + gap, t);
      }
    }
  }

  /**
   * When the first run comes: at the first tick when the interval has passed by then - so at once with run_at_start -
   * and within the interval plus a gap of the last run when the ticks begin within a gap of it.
   */
  lemma {:induction false} FirstRun(seconds: real, last: real, ticks: seq<real>, gap: real, n: nat)
    requires seconds > 0.0 && 0 < n <= |ticks| && Steady(ticks, gap)
    ensures var runs := IntervalRun(seconds, last, ticks, n).1;
            && (ticks[0] - last >= seconds ==> runs != [] && runs[0] == ticks[0])
            && (ticks[0] - last <= gap && runs != [] ==> runs[0] - last < seconds + gap)
  {
    if n > 1 {
      FirstRun(seconds, last, ticks, gap, n - 1);
      RunsApart(seconds, last, ticks, gap, n - 1);
      assert ticks[n - 2 + 1] - ticks[n - 2] <= gap;
    }
  }

  lemma {:induction false} RunsBetween(runs: seq<real>, low: real, high: real, i: nat, j: nat)
    requires i <= j < |runs| && Apart(runs, low, high)
    ensures (j - i) as real * low <= runs[j] - runs[i] <= (j - i) as real * high
  {
    if i < j {
      RunsBetween(runs, low, high, i, j - 1);
      var r := (j - 1 - i) as real;
      assert low <= runs[j - 1 + 1] - runs[j - 1] < high;
      assert (j - i) as real == r + 1.0;
      assert (r + 1.0) * low == r * low + low && (r + 1.0) * high == r * high + high;
    }
  }

  /** k runs at least `low` and less than `high` apart fit a span that goes on for less than `low` after the last. */
  predicate Fits(k: nat, low: real, high: real, span: real) {
    k as real * low <= span < k as real * high + low
  }

  lemma SpanTo(runs: seq<real>, low: real, high: real, end: real)
    requires runs != [] && Apart(runs, low, high) && 0.0 <= end - runs[|runs| - 1] < low
    ensures Fits(|runs| - 1, low, high, end - runs[0])
  {
    RunsBetween(runs, low, high, 0, |runs| - 1);
  }

  lemma OneMore(n: nat, low: real, high: real, span: real, first: real)
    requires Fits(n, low, high, span) && low <= first < high
    ensures Fits(n + 1, low, high, first + span)
  {
    var r := n as real;
    assert (n + 1) as real == r + 1.0;
    assert (r + 1.0) * low == r * low + low && (r + 1.0) * high == r * high + high;
  }

  lemma SpanSince(runs: seq<real>, low: real, high: real, last: real, end: real)
    requires runs != [] && Apart(runs, low, high) && 0.0 <= end - runs[|runs| - 1] < low && low <= runs[0] - last < high
    ensures Fits(|runs|, low, high, end - last)
  {
    SpanTo(runs, low, high, end);
    OneMore(|runs| - 1, low, high, end - runs[0], runs[0] - last);
  }

  /**
   * The number of runs over a span S, wherever the task last ran before: from its first run to the last tick, with k
   * further runs, k * I <= S < k * (I + G) + I.
   */
  lemma RunsInSpan(seconds: real, last: real, ticks: seq<real>, gap: real, runs: seq<real>)
    requires seconds > 0.0 && Steady(ticks, gap) && runs == IntervalRun(seconds, last, ticks, |ticks|).1 && runs != []
    ensures Fits(|runs| - 1, seconds, seconds + gap, ticks[|ticks| - 1] - runs[0])
  {
    RunsApart(seconds, last, ticks, gap, |ticks|);
    SpanTo(runs, seconds, seconds + gap, ticks[|ticks| - 1]);
  }

  /** The same counted from the last run before the ticks, for a task that starts waiting. */
  lemma RunsSinceLast(seconds: real, last: real, ticks: seq<real>, gap: real, runs: seq<real>)
    requires seconds > 0.0 && Steady(ticks, gap) && runs == IntervalRun(seconds, last, ticks, |ticks|).1
    requires ticks != [] && 0.0 <= ticks[0] - last <= gap
    ensures Fits(|runs|, seconds, seconds + gap, ticks[|ticks| - 1] - last)
  {
    RunsApart(seconds, last, ticks, gap, |ticks|);
    if runs == [] {
      InOrderEnds(ticks, gap, |ticks| - 1);
    } else {
      FirstRun(seconds, last, ticks, gap, |ticks|);
      SpanSince(runs, seconds, seconds + gap, last, ticks[|ticks| - 1]);
    }
  }

  /** m runs fit a span that has a run on either side. */
  predicate Spread(m: nat, low: real, high: real, span: real) {
    (m - 1) as real * low <= span < (m + 1) as real * high
  }

  /** The runs i, ..., k - 1 are exactly those in the span from a to b. */
  predicate Inside(runs: seq<real>, i: nat, k: nat, a: real, b: real) {
    && 0 < i <= k < |runs| && a <= b
    && runs[i - 1] < a && b < runs[k] && (i < k ==> a <= runs[i] && runs[k - 1] <= b)
  }

  lemma SpreadOf(runs: seq<real>, low: real, high: real, i: nat, k: nat, a: real, b: real)
    requires Apart(runs, low, high) && Inside(runs, i, k, a, b) && low > 0.0
    ensures Spread(k - i, low, high, b - a)
  {
    var m: nat := k - i;
    RunsBetween(runs, low, high, i - 1, k);
    assert k - (i - 1) == m + 1;
    assert b - a < runs[k] - runs[i - 1] <= (m + 1) as real * high;
    if i < k {
      RunsBetween(runs, low, high, i, k - 1);
      assert k - 1 - i == m - 1;
      assert (m - 1) as real * low <= runs[k - 1] - runs[i] <= b - a;
    } else {
      assert (m - 1) as real * low == -low;
    }
  }

  /** In any span [a, b] with a run on either side, m runs satisfy (m - 1) * I <= b - a < (m + 1) * (I + G). */
  lemma RunsInAnySpan(seconds: real, last: real, ticks: seq<real>, gap: real, runs: seq<real>, i: nat, k: nat,
                      a: real, b: real)
    requires seconds > 0.0 && Steady(ticks, gap) && runs == IntervalRun(seconds, last, ticks, |ticks|).1
    requires Inside(runs, i, k, a, b)
    ensures Spread(k - i, seconds, seconds + gap, b - a)
  {
    RunsApart(seconds, last, ticks, gap, |ticks|);
    SpreadOf(runs, seconds, seconds + gap, i, k, a, b);
  }

  lemma {:induction false} InOrderEnds(ticks: seq<real>, gap: real, n: nat)
    requires Steady(ticks, gap) && n < |ticks|
    ensures ticks[0] <= ticks[n]
  {
    if n > 0 {
      InOrderEnds(ticks, gap, n - 1);
      assert 0.0 <= ticks[n - 1 + 1] - ticks[n - 1];
    }
  }
}
