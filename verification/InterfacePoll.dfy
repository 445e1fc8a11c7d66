/** Interface utilisation from counter deltas, with baselines that survive a restart in the store. */
module InterfacePoll {
  import opened Dicts
  import opened Text

  /** Rounding to two decimals: all that is used of it is that it is monotone and fixes 0 and 100. */
  type Rounding = real -> real

  ghost predicate FairRounding(round: Rounding) {
    round(0.0) == 0.0 && round(100.0) == 100.0 && forall x, y :: x <= y ==> round(x) <= round(y)
  }

  /** None on a first sample, without elapsed time or speed, and on a counter reset. */
  function ComputeUtil(round: Rounding, prev: Option<int>, curr: int, elapsed: real, speedMbps: int): Option<real> {
    if prev.None? || elapsed <= 0.0 || speedMbps <= 0 || curr < prev.value then None
    else
      var bits := (curr - prev.value) as real * 8.0;
      var capacity := speedMbps as real * 1000000.0 * elapsed;
      assert capacity > 0.0;
      var percent := bits / capacity * 100.0;
      Some(round(if percent < 100.0 then percent else 100.0))
  }

  predicate InRange(util: Option<real>) {
    util.Some? ==> 0.0 <= util.value <= 100.0
  }

  lemma QuotientSign(a: real, b: real)
    requires a >= 0.0 && b > 0.0
    ensures a / b * 100.0 >= 0.0
  {
    assert a / b >= 0.0;
  }

  /** Every utilisation lies in 0..100, whatever the counters do. */
  lemma UtilInRange(round: Rounding, prev: Option<int>, curr: int, elapsed: real, speedMbps: int)
    requires FairRounding(round)
    ensures InRange(ComputeUtil(round, prev, curr, elapsed, speedMbps))
  {
    if ComputeUtil(round, prev, curr, elapsed, speedMbps).Some? {
      var bits := (curr - prev.value) as real * 8.0;
      var capacity := speedMbps as real * 1000000.0 * elapsed;
      QuotientSign(bits, capacity);
      var percent := bits / capacity * 100.0;
      var capped := if percent < 100.0 then percent else 100.0;
      assert round(0.0) <= round(capped) <= round(100.0);
    }
  }

  lemma ScaleOrder(q: real, b: real)
    requires b > 0.0
    ensures q <= 1.0 ==> q * b <= b
    ensures q > 1.0 ==> q * b > b
  {
  }

  lemma ShareTimes(a: real, b: real)
    requires b > 0.0
    ensures a / b * 100.0 * b == 100.0 * a
    ensures a <= b <==> a / b * 100.0 <= 100.0
  {
    var q := a / b;
    assert q * b == a;
    assert q * 100.0 * b == 100.0 * (q * b);
    ScaleOrder(q, b);
  }

  /**
   * What the number means, rounding aside: it exists exactly for a later sample of a counter that did not go down on
   * an interface with a speed, and is the percentage of the line's capacity that the counted bits are, capped at 100.
   */
  lemma UtilIsShare(prev: Option<int>, curr: int, elapsed: real, speedMbps: int)
    ensures var util := ComputeUtil(x => x, prev, curr, elapsed, speedMbps);
            && (util.Some? <==> prev.Some? && prev.value <= curr && elapsed > 0.0 && speedMbps > 0)
            && (util.Some? ==>
                  var bits, capacity := 8.0 * (curr - prev.value) as real, elapsed * (speedMbps as real * 1000000.0);
                  if bits <= capacity then util.value * capacity == 100.0 * bits else util.value == 100.0)
  {
    if ComputeUtil(x => x, prev, curr, elapsed, speedMbps).Some? {
      var capacity := speedMbps as real * 1000000.0 * elapsed;
      assert capacity == elapsed * (speedMbps as real * 1000000.0);
      ShareTimes((curr - prev.value) as real * 8.0, capacity);
    }
  }

  datatype Row = Row(name: string, speedMbps: int, hcIn: int, hcOut: int)

  /** An interface's counters at a time. */
  datatype Baseline = Baseline(ts: real, hcIn: int, hcOut: int)

  type Baselines = map<string, Baseline>

  /** As stored: counters as decimal strings. */
  datatype Stored = Stored(ts: real, hcIn: string, hcOut: string)

  datatype UtilRow = UtilRow(ifIndex: string, row: Row, inUtil: Option<real>, outUtil: Option<real>)

  datatype Metric = Metric(device: string, metric: string, value: real, ifName: string)

  function Encode(b: Baselines): map<string, Stored> {
    map idx | idx in b :: Stored(b[idx].ts, Str(b[idx].hcIn), Str(b[idx].hcOut))
  }

  /** Entries whose counters do not parse are dropped. */
  function Decode(raw: map<string, Stored>): Baselines {
    map idx | idx in raw && ParseInt(raw[idx].hcIn).Some? && ParseInt(raw[idx].hcOut).Some? ::
      Baseline(raw[idx].ts, ParseInt(raw[idx].hcIn).value, ParseInt(raw[idx].hcOut).value)
  }

  /** Integer to string to integer: what was saved is what is loaded. */
  lemma DecodeEncode(b: Baselines)
    ensures Decode(Encode(b)) == b
  {
    forall idx | idx in b
      ensures ParseInt(Str(b[idx].hcIn)) == Some(b[idx].hcIn) && ParseInt(Str(b[idx].hcOut)) == Some(b[idx].hcOut)
    {
      ParseStr(b[idx].hcIn);
      ParseStr(b[idx].hcOut);
    }
  }

  /** keeps: whether the backend stores counters (MongoDB) or not (JSON). */
  class CounterStore {
    const keeps: bool
    var counters: map<string, map<string, Stored>>
    var metrics: seq<Metric>

    constructor (keeps: bool)
      ensures this.keeps == keeps && counters == map[] && metrics == []
    {
      this.keeps, counters, metrics := keeps, map[], [];
    }

    method SaveCounters(device: string, b: Baselines)
      modifies this`counters
      ensures counters == if keeps then old(counters)[device := Encode(b)] else old(counters)
    {
      if keeps {
        counters := counters[device := Encode(b)];
      }
    }

    method LoadCounters(device: string) returns (raw: Option<map<string, Stored>>)
      ensures raw == if keeps && device in counters then Some(counters[device]) else None
    {
      raw := if keeps && device in counters then Some(counters[device]) else None;
    }

    method RecordMetric(m: Metric)
      modifies this`metrics
      ensures metrics == old(metrics) + [m]
    {
      metrics := metrics + [m];
    }
  }

  datatype Config = Config(round: Rounding, recordMetrics: bool, recordZero: bool)

  // ----- one poll as functions -----

  function UtilOf(c: Config, prev: Baselines, idx: string, r: Row, now: real): UtilRow {
    if idx in prev then
      var p := prev[idx];
      UtilRow(idx, r, ComputeUtil(c.round, Some(p.hcIn), r.hcIn, now - p.ts, r.speedMbps),
              ComputeUtil(c.round, Some(p.hcOut), r.hcOut, now - p.ts, r.speedMbps))
    else UtilRow(idx, r, None, None)
  }

  function Current(c: Config, prev: Baselines, rows: Dict<string, Row>, now: real, n: nat): seq<UtilRow>
    requires n <= |rows|
  {
    if n == 0 then []
    else Current(c, prev, rows, now, n - 1) + [UtilOf(c, prev, rows[n - 1].0, rows[n - 1].1, now)]
  }

  /** Python's string order. */
  predicate TextUpTo(a: string, b: string) {
    a == "" || (b != "" && (a[0] < b[0] || (a[0] == b[0] && TextUpTo(a[1..], b[1..]))))
  }

  /** _sortkey(a) <= _sortkey(b): numbers first, by value, then texts. */
  predicate UpTo(a: string, b: string) {
    var x, y := ParseInt(Strip(a)), ParseInt(Strip(b));
    if x.Some? && y.Some? then x.value <= y.value
    else x.Some? || (y.None? && TextUpTo(a, b))
  }

  function Insert(u: UtilRow, table: seq<UtilRow>): seq<UtilRow> {
    if table == [] || UpTo(u.ifIndex, table[0].ifIndex) then [u] + table else [table[0]] + Insert(u, table[1..])
  }

  /** The stable sort of the shown table by interface index. */
  function SortRows(us: seq<UtilRow>): seq<UtilRow> {
    if us == [] then [] else Insert(us[0], SortRows(us[1..]))
  }

  predicate ByIndex(table: seq<UtilRow>) {
    forall i :: 0 <= i < |table| - 1 ==> UpTo(table[i].ifIndex, table[i + 1].ifIndex)
  }

  lemma {:induction false} TextTotal(a: string, b: string)
    ensures TextUpTo(a, b) || TextUpTo(b, a)
  {
    if a != "" && b != "" && a[0] == b[0] {
      TextTotal(a[1..], b[1..]);
    }
  }

  lemma {:induction false} InsertKeeps(u: UtilRow, table: seq<UtilRow>)
    requires ByIndex(table)
    ensures ByIndex(Insert(u, table)) && multiset(Insert(u, table)) == multiset(table) + multiset{u}
    ensures table != [] ==> Insert(u, table)[0] == if UpTo(u.ifIndex, table[0].ifIndex) then u else table[0]
  {
    if table != [] && !UpTo(u.ifIndex, table[0].ifIndex) {
      TextTotal(u.ifIndex, table[0].ifIndex);
      var rest := table[1..];
      assert forall i :: 0 <= i < |rest| ==> rest[i] == table[i + 1];
      InsertKeeps(u, rest);
      assert table == [table[0]] + rest;
    }
  }

  /** Sorting shows the same rows, in index order. */
  lemma {:induction false} SortRowsIs(us: seq<UtilRow>)
    ensures ByIndex(SortRows(us)) && multiset(SortRows(us)) == multiset(us)
  {
    if us != [] {
      SortRowsIs(us[1..]);
      InsertKeeps(us[0], SortRows(us[1..]));
      assert us == [us[0]] + us[1..];
    }
  }

  /** a comes no later than b in a list of words: they agree up to where a ends or has the smaller character. */
  predicate Lexical(a: string, b: string) {
    exists k :: 0 <= k <= |a| && k <= |b| && a[..k] == b[..k] && (k == |a| || (k < |b| && a[k] < b[k]))
  }

  lemma {:induction false} TextIsLexical(a: string, b: string)
    ensures TextUpTo(a, b) <==> Lexical(a, b)
  {
    if a == "" {
      assert a[..0] == b[..0];
    } else if b != "" && a[0] == b[0] {
      TextIsLexical(a[1..], b[1..]);
      if Lexical(a[1..], b[1..]) {
        var k :| 0 <= k <= |a[1..]| && k <= |b[1..]| && a[1..][..k] == b[1..][..k]
                 && (k == |a[1..]| || (k < |b[1..]| && a[1..][k] < b[1..][k]));
        assert a[..k + 1] == [a[0]] + a[1..][..k] == b[..k + 1];
        assert Lexical(a, b);
      }
      if Lexical(a, b) {
        var k :| 0 <= k <= |a| && k <= |b| && a[..k] == b[..k] && (k == |a| || (k < |b| && a[k] < b[k]));
        assert k > 0 && a[1..][..k - 1] == a[..k][1..] == b[..k][1..] == b[1..][..k - 1];
      }
    } else if b != "" {
      assert a[..0] == b[..0];
      assert forall k :: 0 < k <= |a| && k <= |b| && a[..k] == b[..k] ==> a[..k][0] == b[..k][0];
    }
  }

  lemma {:induction false} TextUpToTrans(a: string, b: string, c: string)
    requires TextUpTo(a, b) && TextUpTo(b, c)
    ensures TextUpTo(a, c)
  {
    if a != "" && a[0] == b[0] && b[0] == c[0] {
      TextUpToTrans(a[1..], b[1..], c[1..]);
    }
  }

  lemma UpToTrans(a: string, b: string, c: string)
    requires UpTo(a, b) && UpTo(b, c)
    ensures UpTo(a, c)
  {
    if ParseInt(Strip(a)).None? {
      TextUpToTrans(a, b, c);
    }
  }

  /** Interface indexes as shown: numbers by value, then everything else as words. */
  predicate InIndexOrder(a: string, b: string) {
    var x, y := ParseInt(Strip(a)), ParseInt(Strip(b));
    && (x.Some? && y.Some? ==> x.value <= y.value)
    && (x.None? ==> y.None? && Lexical(a, b))
  }

  lemma {:induction false} ByIndexAt(table: seq<UtilRow>, i: nat, j: nat)
    requires ByIndex(table) && i < j < |table|
    ensures UpTo(table[i].ifIndex, table[j].ifIndex)
  {
    if i < j - 1 {
      ByIndexAt(table, i, j - 1);
      UpToTrans(table[i].ifIndex, table[j - 1].ifIndex, table[j].ifIndex);
    }
  }

  /** Of any two rows shown, the upper one has no greater index: numbers by value, before all other texts. */
  lemma ShownInOrder(us: seq<UtilRow>, i: nat, j: nat)
    requires i < j < |SortRows(us)|
    ensures InIndexOrder(SortRows(us)[i].ifIndex, SortRows(us)[j].ifIndex)
  {
    SortRowsIs(us);
    ByIndexAt(SortRows(us), i, j);
    TextIsLexical(SortRows(us)[i].ifIndex, SortRows(us)[j].ifIndex);
  }

  lemma SortRowsMembers(us: seq<UtilRow>)
    ensures forall u :: u in SortRows(us) <==> u in us
  {
    SortRowsIs(us);
    forall u ensures u in SortRows(us) <==> u in us {
      assert u in us <==> u in multiset(us);
      assert u in SortRows(us) <==> u in multiset(SortRows(us));
    }
  }

  function Recorded(c: Config, device: string, metric: string, util: Option<real>, ifName: string): seq<Metric> {
    if c.recordMetrics && util.Some? && (c.recordZero || util.value > 0.0)
    then [Metric(device, metric, util.value, ifName)] else []
  }

  function RowMetrics(c: Config, device: string, u: UtilRow): seq<Metric> {
    Recorded(c, device, "if." + u.ifIndex + ".in_util", u.inUtil, u.row.name)
    + Recorded(c, device, "if." + u.ifIndex + ".out_util", u.outUtil, u.row.name)
  }

  function Metrics(c: Config, device: string, us: seq<UtilRow>, n: nat): seq<Metric>
    requires n <= |us|
  {
    if n == 0 then [] else Metrics(c, device, us, n - 1) + RowMetrics(c, device, us[n - 1])
  }

  function NewBaselines(rows: Dict<string, Row>, now: real, n: nat): Baselines
    requires n <= |rows|
  {
    if n == 0 then map[]
    else NewBaselines(rows, now, n - 1)[rows[n - 1].0 := Baseline(now, rows[n - 1].1.hcIn, rows[n - 1].1.hcOut)]
  }

  /** Everything a poll touches. */
  datatype World = World(prev: map<string, Baselines>, current: map<string, seq<UtilRow>>,
                         counters: map<string, map<string, Stored>>, metrics: seq<Metric>)

  /** What the store gives back for a device. */
  function FromStore(counters: map<string, map<string, Stored>>, device: string): Baselines {
    if device in counters then Decode(counters[device]) else map[]
  }

  /** The baselines a poll of a device works from: memory, or else the store. */
  function Effective(w: World, keeps: bool, device: string): Baselines {
    if device in w.prev then w.prev[device] else if keeps then FromStore(w.counters, device) else map[]
  }

  /** One poll; None is a failed SNMP walk. */
  function Poll(c: Config, keeps: bool, w: World, device: string, rows: Option<Dict<string, Row>>, now: real): World {
    if rows.None? then w
    else
      var us := Current(c, Effective(w, keeps, device), rows.value, now, |rows.value|);
      var b := NewBaselines(rows.value, now, |rows.value|);
      World(w.prev[device := b], w.current[device := SortRows(us)],
            if keeps then w.counters[device := Encode(b)] else w.counters,
            w.metrics + Metrics(c, device, us, |us|))
  }

  class InterfacePollTask {
    const config: Config
    const store: CounterStore
    var prev: map<string, Baselines>
    var current: map<string, seq<UtilRow>>

    /** Also what a restart does: memory starts empty, the store is as it was. */
    constructor (config: Config, store: CounterStore)
      ensures this.config == config && this.store == store
      ensures prev == map[] && current == map[]
    {
      this.config, this.store := config, store;
      prev, current := map[], map[];
    }

    ghost function Abs(): World
      reads this, store
    {
      World(prev, current, store.counters, store.metrics)
    }

    /** Hydrates a cold device from the store and caches the result. */
    method LoadPrev(device: string) returns (out: Baselines)
      requires device !in prev
      modifies this`prev
      ensures out == Effective(old(Abs()), store.keeps, device) && prev == old(prev)[device := out]
    {
      var raw := store.LoadCounters(device);
      out := Decode(raw.GetOr(map[]));
      prev := prev[device := out];
    }

    /** The row loop: utilisation of each interface, its metrics, and the new baselines. */
    method ReadRows(device: string, rows: Dict<string, Row>, base: Baselines, now: real)
      returns (us: seq<UtilRow>, newPrev: Baselines)
      modifies store`metrics
      ensures us == Current(config, base, rows, now, |rows|) && |us| == |rows|
      ensures newPrev == NewBaselines(rows, now, |rows|)
      ensures store.metrics == old(store.metrics) + Metrics(config, device, us, |us|)
    {
      us, newPrev := [], map[];
      for i := 0 to |rows|
        invariant us == Current(config, base, rows, now, i) && |us| == i
        invariant newPrev == NewBaselines(rows, now, i)
        invariant store.metrics == old(store.metrics) + Metrics(config, device, us, i)
      {
        var (idx, r) := rows[i];
        var u := UtilOf(config, base, idx, r, now);
        ghost var recorded := store.metrics;
        RecordRow(device, u);
        MetricsSnoc(config, device, us, u);
        RecordedNext(old(store.metrics), Metrics(config, device, us, i), RowMetrics(config, device, u), recorded);
        us := us + [u];
        newPrev := newPrev[idx := Baseline(now, r.hcIn, r.hcOut)];
      }
    }

    /** The baselines to work from: memory's, or hydrated ones. */
    method BaselinesFor(device: string) returns (out: Baselines)
      modifies this`prev
      ensures out == Effective(old(Abs()), store.keeps, device)
      ensures prev == if device in old(prev) then old(prev) else old(prev)[device := out]
    {
      if device in prev {
        return prev[device];
      }
      out := LoadPrev(device);
    }

    /** The number of interfaces polled. */
    method PollOne(device: string, rows: Option<Dict<string, Row>>, now: real) returns (n: nat)
      modifies this, store
      ensures Abs() == Poll(config, store.keeps, old(Abs()), device, rows, now)
      ensures n == if rows.Some? then |rows.value| else 0
      ensures rows.None? ==> Abs() == old(Abs())
      ensures forall d :: d != device ==>
                && (d in prev <==> d in old(prev)) && (d in prev ==> prev[d] == old(prev[d]))
                && (d in current <==> d in old(current)) && (d in current ==> current[d] == old(current[d]))
                && (d in store.counters <==> d in old(store.counters))
                && (d in store.counters ==> store.counters[d] == old(store.counters[d]))
    {
      if rows.None? {
        return 0;
      }
      ghost var w := Abs();
      var base := BaselinesFor(device);
      var us, newPrev := ReadRows(device, rows.value, base, now);
      prev := prev[device := newPrev];
      assert prev == w.prev[device := newPrev];
      current := current[device := SortRows(us)];
      store.SaveCounters(device, newPrev);
      return |us|;
    }

    method RecordRow(device: string, u: UtilRow)
      modifies store`metrics
      ensures store.metrics == old(store.metrics) + RowMetrics(config, device, u)
    {
      Record(device, "if." + u.ifIndex + ".in_util", u.inUtil, u.row.name);
      Record(device, "if." + u.ifIndex + ".out_util", u.outUtil, u.row.name);
    }

    method Record(device: string, metric: string, util: Option<real>, ifName: string)
      modifies store`metrics
      ensures store.metrics == old(store.metrics) + Recorded(config, device, metric, util, ifName)
    {
      if config.recordMetrics && util.Some? && (config.recordZero || util.value > 0.0) {
        store.RecordMetric(Metric(device, metric, util.value, ifName));
      }
    }
  }

  lemma {:induction false} MetricsPrefix(c: Config, device: string, us: seq<UtilRow>, more: seq<UtilRow>, n: nat)
    requires n <= |us|
    ensures Metrics(c, device, us + more, n) == Metrics(c, device, us, n)
  {
    if n > 0 {
      MetricsPrefix(c, device, us, more, n - 1);
    }
  }

  lemma MetricsSnoc(c: Config, device: string, us: seq<UtilRow>, u: UtilRow)
    ensures Metrics(c, device, us + [u], |us| + 1) == Metrics(c, device, us, |us|) + RowMetrics(c, device, u)
  {
    MetricsPrefix(c, device, us, [u], |us|);
  }

  lemma RecordedNext(first: seq<Metric>, done: seq<Metric>, more: seq<Metric>, recorded: seq<Metric>)
    requires recorded == first + done
    ensures recorded + more == first + (done + more)
  {
  }

  // ----- runs with restarts -----

  datatype Event = Polled(device: string, rows: Option<Dict<string, Row>>, now: real) | Restart

  function Next(c: Config, keeps: bool, w: World, e: Event): World {
    match e
    case Polled(device, rows, now) => Poll(c, keeps, w, device, rows, now)
    case Restart => w.(prev := map[], current := map[])
  }

  function After(c: Config, keeps: bool, w: World, events: seq<Event>): World
    decreases |events|
  {
    if events == [] then w else After(c, keeps, Next(c, keeps, w, events[0]), events[1..])
  }

  /** What the polls of a run produce, in order: the table shown after each, None for a failed walk. */
  function Outputs(c: Config, keeps: bool, w: World, events: seq<Event>): seq<Option<seq<UtilRow>>>
    decreases |events|
  {
    if events == [] then []
    else
      var w' := Next(c, keeps, w, events[0]);
      var rest := Outputs(c, keeps, w', events[1..]);
      match events[0]
      case Restart => rest
      case Polled(device, rows, _) => [if rows.Some? then Shown(w'.current, device) else None] + rest
  }

  function Shown(m: map<string, seq<UtilRow>>, k: string): Option<seq<UtilRow>> {
    if k in m then Some(m[k]) else None
  }

  function Erased(events: seq<Event>): seq<Event> {
    if events == [] then []
    else (if events[0].Restart? then [] else [events[0]]) + Erased(events[1..])
  }

  /** What memory holds for a device is what the store would give back. */
  ghost predicate Mirrored(w: World) {
    forall d :: d in w.prev ==> w.prev[d] == FromStore(w.counters, d)
  }

  lemma StoreStep(counters: map<string, map<string, Stored>>, device: string, b: Baselines, d: string)
    ensures FromStore(counters[device := Encode(b)], d) == if d == device then b else FromStore(counters, d)
  {
    DecodeEncode(b);
  }

  lemma MirroredPoll(c: Config, w: World, device: string, rows: Dict<string, Row>, now: real)
    requires Mirrored(w)
    ensures Mirrored(Poll(c, true, w, device, Some(rows), now))
  {
    var w' := Poll(c, true, w, device, Some(rows), now);
    var b := NewBaselines(rows, now, |rows|);
    forall d | d in w'.prev ensures w'.prev[d] == FromStore(w'.counters, d) {
      StoreStep(w.counters, device, b, d);
    }
  }

  /** Worlds that no later poll can tell apart. */
  ghost predicate Alike(v: World, w: World) {
    && v.counters == w.counters && v.metrics == w.metrics && Mirrored(v) && Mirrored(w)
  }

  lemma AlikeStep(c: Config, v: World, w: World, e: Event)
    requires Alike(v, w) && e.Polled?
    ensures Alike(Next(c, true, v, e), Next(c, true, w, e))
    ensures e.rows.Some? ==> Next(c, true, v, e).current[e.device] == Next(c, true, w, e).current[e.device]
  {
    if e.rows.Some? {
      assert Effective(v, true, e.device) == Effective(w, true, e.device);
      MirroredPoll(c, v, e.device, e.rows.value, e.now);
      MirroredPoll(c, w, e.device, e.rows.value, e.now);
    }
  }

  /** Dropping the restarts from one of two alike runs changes no output. */
  lemma {:induction false} AlikeRuns(c: Config, v: World, w: World, events: seq<Event>)
    requires Alike(v, w)
    ensures Outputs(c, true, v, events) == Outputs(c, true, w, Erased(events))
    ensures After(c, true, v, events).metrics == After(c, true, w, Erased(events)).metrics
    decreases |events|
  {
    if events != [] {
      var e := events[0];
      var v' := Next(c, true, v, e);
      if e.Restart? {
        AlikeRuns(c, v', w, events[1..]);
        assert [] + Erased(events[1..]) == Erased(events[1..]);
      } else {
        AlikeStep(c, v, w, e);
        AlikeRuns(c, v', Next(c, true, w, e), events[1..]);
        assert Erased(events)[0] == e && Erased(events)[1..] == Erased(events[1..]);
      }
    }
  }

  /**
   * Restarts are invisible to utilisation: with a counter-keeping store, whatever it holds at first, a run of polls
   * and restarts produces the same tables, and records the same metrics, as the run without its restarts.
   */
  lemma RestartsInvisible(c: Config, counters: map<string, map<string, Stored>>, metrics: seq<Metric>, events: seq<Event>)
    ensures var w := World(map[], map[], counters, metrics);
            && Outputs(c, true, w, events) == Outputs(c, true, w, Erased(events))
            && After(c, true, w, events).metrics == After(c, true, w, Erased(events)).metrics
  {
    var w := World(map[], map[], counters, metrics);
    AlikeRuns(c, w, w, events);
  }

  // ----- what a shown utilisation is, over the whole run -----

  datatype Sample = Sample(rows: Dict<string, Row>, at: real)

  /** A device's last successful poll of a run. */
  function LastPoll(events: seq<Event>, device: string): Option<Sample> {
    if events == [] then None
    else
      var later := LastPoll(events[1..], device);
      if later.Some? then later
      else match events[0]
           case Restart => None
           case Polled(d, rows, now) => if d == device && rows.Some? then Some(Sample(rows.value, now)) else None
  }

  /** The baselines that belong to a poll. */
  function BaselinesOf(poll: Option<Sample>, otherwise: Baselines): Baselines {
    match poll
    case None => otherwise
    case Some(p) => NewBaselines(p.rows, p.at, |p.rows|)
  }

  lemma MirroredStep(c: Config, w: World, e: Event, device: string)
    requires Mirrored(w)
    ensures Mirrored(Next(c, true, w, e))
    ensures Effective(Next(c, true, w, e), true, device)
         == BaselinesOf(LastPoll([e], device), Effective(w, true, device))
  {
    assert [e][1..] == [];
    if e.Polled? && e.rows.Some? {
      MirroredPoll(c, w, e.device, e.rows.value, e.now);
      assert LastPoll([e], device) == if e.device == device then Some(Sample(e.rows.value, e.now)) else None;
      StoreStep(w.counters, e.device, NewBaselines(e.rows.value, e.now, |e.rows.value|), device);
    } else {
      assert LastPoll([e], device) == None;
    }
  }

  /** Whatever restarts lie between, a poll works from the device's last successful poll. */
  lemma {:induction false} BaselinesAreLastPoll(c: Config, w: World, events: seq<Event>, device: string)
    requires Mirrored(w)
    ensures Effective(After(c, true, w, events), true, device)
         == BaselinesOf(LastPoll(events, device), Effective(w, true, device))
    decreases |events|
  {
    if events != [] {
      MirroredStep(c, w, events[0], device);
      BaselinesAreLastPoll(c, Next(c, true, w, events[0]), events[1..], device);
      assert [events[0]][1..] == [];
    }
  }

  predicate HasRestart(events: seq<Event>) {
    events != [] && (events[0].Restart? || HasRestart(events[1..]))
  }

  /** The part of a run that the agent remembers: without kept counters, what follows the last restart. */
  function Remembered(keeps: bool, events: seq<Event>): seq<Event> {
    if keeps || !HasRestart(events) then events else Remembered(keeps, events[1..])
  }

  lemma ForgetfulStep(c: Config, w: World, e: Event, device: string)
    ensures Effective(Next(c, false, w, e), false, device)
         == if e.Restart? then map[] else BaselinesOf(LastPoll([e], device), Effective(w, false, device))
  {
    assert [e][1..] == [];
    if e.Polled? && e.rows.Some? {
      assert LastPoll([e], device) == if e.device == device then Some(Sample(e.rows.value, e.now)) else None;
    } else {
      assert LastPoll([e], device) == None;
    }
  }

  /** Without kept counters it works from the last successful poll since the last restart. */
  lemma {:induction false} BaselinesSinceRestart(c: Config, w: World, events: seq<Event>, device: string)
    ensures Effective(After(c, false, w, events), false, device)
         == BaselinesOf(LastPoll(Remembered(false, events), device),
                        if HasRestart(events) then map[] else Effective(w, false, device))
    decreases |events|
  {
    if events != [] {
      ForgetfulStep(c, w, events[0], device);
      BaselinesSinceRestart(c, Next(c, false, w, events[0]), events[1..], device);
      assert [events[0]][1..] == [];
    }
  }

  /** In every run, whether or not the store keeps counters, a poll works from the last poll that is remembered. */
  lemma BaselinesAreRemembered(c: Config, keeps: bool, events: seq<Event>, device: string)
    ensures Effective(After(c, keeps, World(map[], map[], map[], []), events), keeps, device)
         == BaselinesOf(LastPoll(Remembered(keeps, events), device), map[])
  {
    if keeps {
      BaselinesAreLastPoll(c, World(map[], map[], map[], []), events, device);
    } else {
      BaselinesSinceRestart(c, World(map[], map[], map[], []), events, device);
    }
  }

  lemma {:induction false} BaselineOfRow(rows: Dict<string, Row>, at: real, n: nat, idx: string)
    requires DistinctKeys(rows) && n <= |rows|
    ensures var b, i := NewBaselines(rows, at, n), IndexOf(rows, idx);
            && (idx in b <==> i < n)
            && (idx in b ==> b[idx] == Baseline(at, rows[i].1.hcIn, rows[i].1.hcOut))
  {
    if n > 0 {
      BaselineOfRow(rows, at, n - 1, idx);
      IndexOfAt(rows, n - 1);
    }
  }

  lemma {:induction false} CurrentAt(c: Config, prev: Baselines, rows: Dict<string, Row>, now: real, n: nat, i: nat)
    requires i < n <= |rows|
    ensures |Current(c, prev, rows, now, n)| == n
    ensures Current(c, prev, rows, now, n)[i] == UtilOf(c, prev, rows[i].0, rows[i].1, now)
  {
    if i < n - 1 {
      CurrentAt(c, prev, rows, now, n - 1, i);
    } else if n > 1 {
      CurrentAt(c, prev, rows, now, n - 1, 0);
    }
  }

  /** The counters' change since the last poll, when that had the interface in it. */
  predicate IsDelta(c: Config, last: Option<Sample>, idx: string, r: Row, now: real, shown: UtilRow) {
    && shown.ifIndex == idx && shown.row == r
    && if last.None? || !Has(last.value.rows, idx) then shown.inUtil == None && shown.outUtil == None
       else
         var before, elapsed := Get(last.value.rows, idx), now - last.value.at;
         && shown.inUtil == ComputeUtil(c.round, Some(before.hcIn), r.hcIn, elapsed, r.speedMbps)
         && shown.outUtil == ComputeUtil(c.round, Some(before.hcOut), r.hcOut, elapsed, r.speedMbps)
  }

  lemma UtilOfDelta(c: Config, last: Option<Sample>, base: Baselines, idx: string, r: Row, now: real)
    requires last.Some? ==> DistinctKeys(last.value.rows)
    requires base == BaselinesOf(last, map[])
    ensures IsDelta(c, last, idx, r, now, UtilOf(c, base, idx, r, now))
  {
    if last.Some? {
      BaselineOfRow(last.value.rows, last.value.at, |last.value.rows|, idx);
    }
  }

  lemma ShownSorted(us: seq<UtilRow>, i: nat)
    requires i < |us|
    ensures |SortRows(us)| == |us| && ByIndex(SortRows(us))
    ensures exists j :: 0 <= j < |us| && SortRows(us)[j] == us[i]
  {
    SortRowsIs(us);
    assert |multiset(SortRows(us))| == |multiset(us)|;
    assert us[i] in multiset(us) && us[i] in multiset(SortRows(us));
  }

  /**
   * Over any run of polls and restarts, what a poll shows for an interface is each counter's change since the
   * device's last successful poll that had the interface in it, over the time since then - and nothing when the
   * device was never polled before or its last poll lacked the interface. Without kept counters "before" begins at
   * the last restart.
   */
  lemma UtilisationIsDelta(c: Config, keeps: bool, events: seq<Event>, device: string, rows: Dict<string, Row>, now: real,
                           i: nat)
    requires i < |rows|
    requires var last := LastPoll(Remembered(keeps, events), device); last.Some? ==> DistinctKeys(last.value.rows)
    ensures var w := After(c, keeps, World(map[], map[], map[], []), events);
            var shown := Next(c, keeps, w, Polled(device, Some(rows), now)).current[device];
            && |shown| == |rows| && ByIndex(shown)
            && exists j :: 0 <= j < |shown|
                 && IsDelta(c, LastPoll(Remembered(keeps, events), device), rows[i].0, rows[i].1, now, shown[j])
  {
    var base := Effective(After(c, keeps, World(map[], map[], map[], []), events), keeps, device);
    BaselinesAreRemembered(c, keeps, events, device);
    CurrentAt(c, base, rows, now, |rows|, i);
    UtilOfDelta(c, LastPoll(Remembered(keeps, events), device), base, rows[i].0, rows[i].1, now);
    ShownSorted(Current(c, base, rows, now, |rows|), i);
  }

  // ----- what is recorded, over the whole run -----

  /** The utilisation that a counter's change since the last poll makes; none when that poll lacked the interface. */
  function InDelta(c: Config, last: Option<Sample>, idx: string, r: Row, now: real): Option<real> {
    if last.None? || !Has(last.value.rows, idx) then None
    else ComputeUtil(c.round, Some(Get(last.value.rows, idx).hcIn), r.hcIn, now - last.value.at, r.speedMbps)
  }

  function OutDelta(c: Config, last: Option<Sample>, idx: string, r: Row, now: real): Option<real> {
    if last.None? || !Has(last.value.rows, idx) then None
    else ComputeUtil(c.round, Some(Get(last.value.rows, idx).hcOut), r.hcOut, now - last.value.at, r.speedMbps)
  }

  /** What is recorded of a value: nothing with recording off, and a zero only when zeros are asked for. */
  predicate Kept(c: Config, value: Option<real>) {
    c.recordMetrics && value.Some? && (value.value > 0.0 || c.recordZero)
  }

  /** A metric that a polled interface calls for. */
  predicate CalledFor(c: Config, last: Option<Sample>, device: string, idx: string, r: Row, now: real, m: Metric) {
    && m.device == device && m.ifName == r.name
    && ((m.metric == "if." + idx + ".in_util" && Kept(c, InDelta(c, last, idx, r, now))
         && InDelta(c, last, idx, r, now) == Some(m.value))
        || (m.metric == "if." + idx + ".out_util" && Kept(c, OutDelta(c, last, idx, r, now))
            && OutDelta(c, last, idx, r, now) == Some(m.value)))
  }

  lemma {:induction false} MetricFrom(c: Config, device: string, us: seq<UtilRow>, n: nat, m: Metric) returns (i: nat)
    requires n <= |us| && m in Metrics(c, device, us, n)
    ensures i < n && m in RowMetrics(c, device, us[i])
  {
    i := n - 1;
    if m in Metrics(c, device, us, n - 1) {
      i := MetricFrom(c, device, us, n - 1, m);
    }
  }

  lemma {:induction false} MetricIn(c: Config, device: string, us: seq<UtilRow>, n: nat, i: nat, m: Metric)
    requires i < n <= |us| && m in RowMetrics(c, device, us[i])
    ensures m in Metrics(c, device, us, n)
  {
    if i < n - 1 {
      MetricIn(c, device, us, n - 1, i, m);
    }
  }

  lemma RowMetricsAre(c: Config, last: Option<Sample>, device: string, idx: string, r: Row, now: real, u: UtilRow, m: Metric)
    requires IsDelta(c, last, idx, r, now, u)
    ensures m in RowMetrics(c, device, u) <==> CalledFor(c, last, device, idx, r, now, m)
  {
  }

  /** The names of two interfaces' metrics differ, and so do those of the two directions. */
  lemma NamesApart(a: string, b: string)
    ensures "if." + a + ".in_util" != "if." + b + ".out_util"
    ensures a != b ==> "if." + a + ".in_util" != "if." + b + ".in_util"
    ensures a != b ==> "if." + a + ".out_util" != "if." + b + ".out_util"
  {
    var inA, inB := "if." + a + ".in_util", "if." + b + ".in_util";
    var outA, outB := "if." + a + ".out_util", "if." + b + ".out_util";
    assert inA[3..|inA| - 8] == a && inB[3..|inB| - 8] == b;
    assert outA[3..|outA| - 9] == a && outB[3..|outB| - 9] == b;
    assert inA[|inA| - 6] == 'n' && outB[|outB| - 6] == 't';
  }

  predicate DistinctNames(ms: seq<Metric>) {
    forall i, j :: 0 <= i < j < |ms| ==> ms[i].metric != ms[j].metric
  }

  lemma RowNames(c: Config, device: string, u: UtilRow)
    ensures DistinctNames(RowMetrics(c, device, u))
    ensures forall m :: m in RowMetrics(c, device, u) ==>
              m.metric == "if." + u.ifIndex + ".in_util" || m.metric == "if." + u.ifIndex + ".out_util"
  {
    NamesApart(u.ifIndex, u.ifIndex);
  }

  lemma RowsApart(c: Config, device: string, u: UtilRow, v: UtilRow, m: Metric, n: Metric)
    requires u.ifIndex != v.ifIndex && m in RowMetrics(c, device, u) && n in RowMetrics(c, device, v)
    ensures m.metric != n.metric
  {
    RowNames(c, device, u);
    RowNames(c, device, v);
    NamesApart(u.ifIndex, v.ifIndex);
    NamesApart(v.ifIndex, u.ifIndex);
  }

  lemma DistinctConcat(ms: seq<Metric>, more: seq<Metric>)
    requires DistinctNames(ms) && DistinctNames(more)
    requires forall m, n :: m in ms && n in more ==> m.metric != n.metric
    ensures DistinctNames(ms + more)
  {
  }

  lemma {:induction false} MetricsDistinct(c: Config, device: string, us: seq<UtilRow>, n: nat)
    requires n <= |us| && forall i, j :: 0 <= i < j < |us| ==> us[i].ifIndex != us[j].ifIndex
    ensures DistinctNames(Metrics(c, device, us, n))
  {
    if n > 0 {
      MetricsDistinct(c, device, us, n - 1);
      RowNames(c, device, us[n - 1]);
      forall m, k | m in Metrics(c, device, us, n - 1) && k in RowMetrics(c, device, us[n - 1])
        ensures m.metric != k.metric
      {
        var i := MetricFrom(c, device, us, n - 1, m);
        RowsApart(c, device, us[i], us[n - 1], m, k);
      }
      DistinctConcat(Metrics(c, device, us, n - 1), RowMetrics(c, device, us[n - 1]));
    }
  }

  /**
   * Over any run of polls and restarts, the metrics that a successful poll appends are exactly these, each once: for
   * every polled interface the change of its inbound counter as in_util and of its outbound counter as out_util.
   */
  lemma MetricsAreDeltas(c: Config, keeps: bool, events: seq<Event>, device: string, rows: Dict<string, Row>, now: real)
    requires DistinctKeys(rows)
    requires var last := LastPoll(Remembered(keeps, events), device); last.Some? ==> DistinctKeys(last.value.rows)
    ensures var w := After(c, keeps, World(map[], map[], map[], []), events);
            var recorded := Next(c, keeps, w, Polled(device, Some(rows), now)).metrics;
            && w.metrics <= recorded
            && var added := recorded[|w.metrics|..];
            && DistinctNames(added)
            && forall m :: m in added <==>
                 exists i :: 0 <= i < |rows|
                   && CalledFor(c, LastPoll(Remembered(keeps, events), device), device, rows[i].0, rows[i].1, now, m)
  {
    var w := After(c, keeps, World(map[], map[], map[], []), events);
    var last, base := LastPoll(Remembered(keeps, events), device), Effective(w, keeps, device);
    var us := Current(c, base, rows, now, |rows|);
    BaselinesAreRemembered(c, keeps, events, device);
    forall i | 0 <= i < |rows| ensures |us| == |rows| && IsDelta(c, last, rows[i].0, rows[i].1, now, us[i]) {
      CurrentAt(c, base, rows, now, |rows|, i);
      UtilOfDelta(c, last, base, rows[i].0, rows[i].1, now);
    }
    var added := Metrics(c, device, us, |us|);
    assert Next(c, keeps, w, Polled(device, Some(rows), now)).metrics == w.metrics + added;
    CalledForExactly(c, last, device, rows, now, us);
    MetricsDistinct(c, device, us, |us|);
  }

  lemma CalledForExactly(c: Config, last: Option<Sample>, device: string, rows: Dict<string, Row>, now: real,
                         us: seq<UtilRow>)
    requires |us| == |rows| && forall i :: 0 <= i < |rows| ==> IsDelta(c, last, rows[i].0, rows[i].1, now, us[i])
    ensures forall m :: m in Metrics(c, device, us, |us|) <==>
              exists i :: 0 <= i < |rows| && CalledFor(c, last, device, rows[i].0, rows[i].1, now, m)
  {
    forall m | m in Metrics(c, device, us, |us|)
      ensures exists i :: 0 <= i < |rows| && CalledFor(c, last, device, rows[i].0, rows[i].1, now, m)
    {
      var i := MetricFrom(c, device, us, |us|, m);
      RowMetricsAre(c, last, device, rows[i].0, rows[i].1, now, us[i], m);
    }
    forall m, i | 0 <= i < |rows| && CalledFor(c, last, device, rows[i].0, rows[i].1, now, m)
      ensures m in Metrics(c, device, us, |us|)
    {
      RowMetricsAre(c, last, device, rows[i].0, rows[i].1, now, us[i], m);
      MetricIn(c, device, us, |us|, i, m);
    }
  }

  lemma {:induction false} CurrentInRange(c: Config, prev: Baselines, rows: Dict<string, Row>, now: real, n: nat)
    requires FairRounding(c.round) && n <= |rows|
    ensures forall u :: u in Current(c, prev, rows, now, n) ==> InRange(u.inUtil) && InRange(u.outUtil)
  {
    if n > 0 {
      CurrentInRange(c, prev, rows, now, n - 1);
      var (idx, r) := rows[n - 1];
      if idx in prev {
        UtilInRange(c.round, Some(prev[idx].hcIn), r.hcIn, now - prev[idx].ts, r.speedMbps);
        UtilInRange(c.round, Some(prev[idx].hcOut), r.hcOut, now - prev[idx].ts, r.speedMbps);
      }
    }
  }

  /** In every run, restarts or not, every utilisation shown lies in 0..100. */
  lemma {:induction false} OutputsInRange(c: Config, keeps: bool, w: World, events: seq<Event>)
    requires FairRounding(c.round)
    ensures forall out, u :: out in Outputs(c, keeps, w, events) && out.Some? && u in out.value ==>
              InRange(u.inUtil) && InRange(u.outUtil)
    decreases |events|
  {
    if events != [] {
      OutputsInRange(c, keeps, Next(c, keeps, w, events[0]), events[1..]);
      if events[0].Polled? && events[0].rows.Some? {
        var rows := events[0].rows.value;
        CurrentInRange(c, Effective(w, keeps, events[0].device), rows, events[0].now, |rows|);
        SortRowsMembers(Current(c, Effective(w, keeps, events[0].device), rows, events[0].now, |rows|));
      }
    }
  }

  lemma {:induction false} ColdCurrent(c: Config, rows: Dict<string, Row>, now: real, n: nat)
    requires n <= |rows|
    ensures forall u :: u in Current(c, map[], rows, now, n) ==> u.inUtil == None && u.outUtil == None
  {
    if n > 0 {
      ColdCurrent(c, rows, now, n - 1);
    }
  }

  /** Why the store must keep counters: without it, the first poll after a restart shows no utilisation at all. */
  lemma RestartVisibleWithoutCounters(c: Config, w: World, device: string, rows: Dict<string, Row>, now: real)
    ensures var w' := Next(c, false, Next(c, false, w, Restart), Polled(device, Some(rows), now));
            forall u :: u in w'.current[device] ==> u.inUtil == None && u.outUtil == None
  {
    ColdCurrent(c, rows, now, |rows|);
    SortRowsMembers(Current(c, map[], rows, now, |rows|));
  }

  /** A poll right after another one of the device shows the utilisation of an interface that both have. */
  lemma SecondShows(c: Config, w: World, device: string, rows0: Dict<string, Row>, rows1: Dict<string, Row>,
                    t0: real, t1: real, i: nat)
    requires DistinctKeys(rows0) && i < |rows1| && Has(rows0, rows1[i].0) && t0 < t1
    requires rows1[i].1.speedMbps > 0 && Get(rows0, rows1[i].0).hcIn <= rows1[i].1.hcIn
    ensures var w' := Next(c, false, Next(c, false, w, Polled(device, Some(rows0), t0)), Polled(device, Some(rows1), t1));
            exists u :: u in w'.current[device] && u.inUtil.Some?
  {
    var w1 := Next(c, false, w, Polled(device, Some(rows0), t0));
    var base := Effective(w1, false, device);
    var us := Current(c, base, rows1, t1, |rows1|);
    BaselineOfRow(rows0, t0, |rows0|, rows1[i].0);
    CurrentAt(c, base, rows1, t1, |rows1|, i);
    SortRowsMembers(us);
    assert us[i] in SortRows(us);
  }

  /**
   * Without a counter-keeping store, whatever the agent has seen before: a restart between any two polls of a device
   * shows, as soon as they have one interface in common whose utilisation can be computed.
   */
  lemma RestartShows(c: Config, w: World, device: string, rows0: Dict<string, Row>, rows1: Dict<string, Row>,
                     t0: real, t1: real, i: nat)
    requires DistinctKeys(rows0) && i < |rows1| && Has(rows0, rows1[i].0) && t0 < t1
    requires rows1[i].1.speedMbps > 0 && Get(rows0, rows1[i].0).hcIn <= rows1[i].1.hcIn
    ensures var first, second := Polled(device, Some(rows0), t0), Polled(device, Some(rows1), t1);
            Outputs(c, false, w, [first, Restart, second]) != Outputs(c, false, w, Erased([first, Restart, second]))
  {
    var first, second := Polled(device, Some(rows0), t0), Polled(device, Some(rows1), t1);
    var w1 := Next(c, false, w, first);
    var w2 := Next(c, false, w1, Restart);
    SecondShows(c, w, device, rows0, rows1, t0, t1, i);
    RestartVisibleWithoutCounters(c, w1, device, rows1, t1);
    ErasedPair(first, second);
    OutputsTwo(c, w, first, second);
    assert [first, Restart, second][1..] == [Restart, second] && [Restart, second][1..] == [second];
    OutputsOne(c, w2, second);
    assert Outputs(c, false, w1, [Restart, second]) == Outputs(c, false, w2, [second]);
    var kept := Outputs(c, false, w, [first, Restart, second]);
    assert kept == [Shown(w1.current, device)] + Outputs(c, false, w1, [Restart, second]);
    assert kept[1] == Shown(Next(c, false, w2, second).current, device);
  }

  lemma ErasedPair(first: Event, second: Event)
    requires first.Polled? && second.Polled?
    ensures Erased([first, Restart, second]) == [first, second]
  {
    assert [first, Restart, second][1..] == [Restart, second] && [Restart, second][1..] == [second];
    assert [second][1..] == [] && Erased([second]) == [second] + Erased([]);
    assert Erased([Restart, second]) == [] + Erased([second]);
  }

  lemma OutputsOne(c: Config, w: World, e: Event)
    requires e.Polled? && e.rows.Some?
    ensures Outputs(c, false, w, [e]) == [Shown(Next(c, false, w, e).current, e.device)]
  {
    assert [e][1..] == [];
  }

  lemma OutputsTwo(c: Config, w: World, e: Event, f: Event)
    requires e.Polled? && e.rows.Some? && f.Polled? && f.rows.Some?
    ensures var w' := Next(c, false, w, e);
            Outputs(c, false, w, [e, f]) == [Shown(w'.current, e.device), Shown(Next(c, false, w', f).current, f.device)]
  {
    assert [e, f][1..] == [f];
    OutputsOne(c, Next(c, false, w, e), f);
  }

  /** Restarts are invisible to every run, exactly when the store keeps counters. */
  lemma RestartsInvisibleExactly(c: Config, keeps: bool)
    ensures var w := World(map[], map[], map[], []);
            keeps <==> forall events :: Outputs(c, keeps, w, events) == Outputs(c, keeps, w, Erased(events))
  {
    if keeps {
      forall events
        ensures Outputs(c, true, World(map[], map[], map[], []), events)
             == Outputs(c, true, World(map[], map[], map[], []), Erased(events))
      {
        RestartsInvisible(c, map[], [], events);
      }
    } else {
      var rows := [("", Row("", 1, 0, 0))];
      RestartShows(c, World(map[], map[], map[], []), "", rows, rows, 0.0, 1.0, 0);
    }
  }
}
