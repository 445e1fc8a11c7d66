/**
 * The threshold engine: per-(rule, device, instance) state, updated one observation at a time,
 * against a statement about the whole observation history.
 */
module Thresholds {
  import opened Dicts

  /** A rule as stored; value and duration are None when they do not convert to a number. Scopes are split lists. */
  datatype Rule = Rule(name: string, enabled: bool, metric: string, operator: string, value: Option<real>,
                       duration: Option<int>, included: seq<string>, excluded: seq<string>, severity: string)

  /** A metric sample; value is None when it is missing or does not convert to a number. */
  datatype Sample = Sample(device: string, host: string, metric: string, instance: string, value: Option<real>)

  /** Whether a host address lies in a CIDR pattern, false when either does not parse (the ipaddress library). */
  type InNetwork = (string, string) -> bool

  predicate PatternMatches(inNet: InNetwork, name: string, host: string, p: string) {
    p == name || p == host || ('/' in p && inNet(host, p))
  }

  function HostIn(inNet: InNetwork, name: string, host: string, patterns: seq<string>): (r: bool)
    ensures r <==> exists p :: p in patterns && PatternMatches(inNet, name, host, p)
  {
    if patterns == [] then false
    else
      assert forall q :: q in patterns <==> q == patterns[0] || q in patterns[1..];
      PatternMatches(inNet, name, host, patterns[0]) || HostIn(inNet, name, host, patterns[1..])
  }

  /** Exclusion wins; an empty include list admits every host. */
  function MatchScope(inNet: InNetwork, name: string, host: string, included: seq<string>, excluded: seq<string>): (r: bool)
    ensures (exists p :: p in excluded && (p == name || p == host || ('/' in p && inNet(host, p)))) ==> !r
    ensures r ==> included == [] || exists p :: p in included && (p == name || p == host || ('/' in p && inNet(host, p)))
    ensures !r ==> || (exists p :: p in excluded && (p == name || p == host || ('/' in p && inNet(host, p))))
                   || (included != [] && forall p :: p in included ==>
                         p != name && p != host && !('/' in p && inNet(host, p)))
  {
    if excluded != [] && HostIn(inNet, name, host, excluded) then false
    else if included != [] && !HostIn(inNet, name, host, included) then false
    else true
  }

  /** The comparison of a rule's operator, None for an unknown operator. */
  function Compare(operator: string, a: real, b: real): Option<bool> {
    match operator
    case ">" => Some(a > b)
    case ">=" => Some(a >= b)
    case "<" => Some(a < b)
    case "<=" => Some(a <= b)
    case _ => None
  }

  datatype Key = Key(rule: string, device: string, instance: string)

  datatype St = St(since: real, alerted: bool, value: real, severity: string)

  type State = map<Key, St>

  datatype Kind = Fire | Clear

  datatype Event = Event(kind: Kind, key: Key, host: string, value: real, severity: string, ts: real)

  /** One (rule, sample) pair that the engine looks at. */
  datatype Obs = Obs(key: Key, host: string, now: real, breach: bool, duration: int, value: real, severity: string)

  // ----- which observations one call makes -----

  predicate Usable(rule: Rule) {
    rule.enabled && Compare(rule.operator, 0.0, 0.0).Some? && rule.value.Some? && rule.duration.Some?
  }

  predicate Observed(inNet: InNetwork, rule: Rule, s: Sample) {
    MatchScope(inNet, s.device, s.host, rule.included, rule.excluded) && s.value.Some?
  }

  function Observation(rule: Rule, s: Sample, now: real): Obs
    requires Usable(rule) && s.value.Some?
  {
    Obs(Key(rule.name, s.device, s.instance), s.host, now,
        Compare(rule.operator, s.value.value, rule.value.value).value,
        rule.duration.value, s.value.value, rule.severity)
  }

  function OfMetric(samples: seq<Sample>, metric: string, n: nat): seq<Sample>
    requires n <= |samples|
  {
    if n == 0 then []
    else
      OfMetric(samples, metric, n - 1) + if samples[n - 1].metric == metric then [samples[n - 1]] else []
  }

  function RuleObs(inNet: InNetwork, rule: Rule, samples: seq<Sample>, now: real, n: nat): seq<Obs>
    requires Usable(rule) && n <= |samples|
  {
    if n == 0 then []
    else
      RuleObs(inNet, rule, samples, now, n - 1)
      + if Observed(inNet, rule, samples[n - 1]) then [Observation(rule, samples[n - 1], now)] else []
  }

  /** The observations of the first n rules: rules in order, within a rule the samples of its metric in order. */
  function CallObs(inNet: InNetwork, rules: seq<Rule>, samples: seq<Sample>, now: real, n: nat): seq<Obs>
    requires n <= |rules|
  {
    if n == 0 then []
    else
      var matching := OfMetric(samples, rules[n - 1].metric, |samples|);
      CallObs(inNet, rules, samples, now, n - 1)
      + if Usable(rules[n - 1]) then RuleObs(inNet, rules[n - 1], matching, now, |matching|) else []
  }

  lemma {:induction false} OfMetricIs(samples: seq<Sample>, metric: string, n: nat, s: Sample)
    requires n <= |samples|
    ensures s in OfMetric(samples, metric, n) <==> s in samples[..n] && s.metric == metric
  {
    if n > 0 {
      OfMetricIs(samples, metric, n - 1, s);
      assert samples[..n] == samples[..n - 1] + [samples[n - 1]];
    }
  }

  /** A rule makes an observation of a sample. */
  predicate Makes(inNet: InNetwork, rule: Rule, s: Sample, now: real, o: Obs) {
    Usable(rule) && Observed(inNet, rule, s) && Observation(rule, s, now) == o
  }

  lemma {:induction false} RuleObsIs(inNet: InNetwork, rule: Rule, samples: seq<Sample>, now: real, n: nat, o: Obs)
    requires Usable(rule) && n <= |samples|
    ensures o in RuleObs(inNet, rule, samples, now, n) <==> exists s :: s in samples[..n] && Makes(inNet, rule, s, now, o)
  {
    if n > 0 {
      RuleObsIs(inNet, rule, samples, now, n - 1, o);
      assert samples[..n] == samples[..n - 1] + [samples[n - 1]];
      if Makes(inNet, rule, samples[n - 1], now, o) {
        assert samples[n - 1] in samples[..n];
      }
    }
  }

  /** A call looks at exactly the pairs of a usable rule and a sample of its metric that is in scope and has a value. */
  lemma {:induction false} CallObsIs(inNet: InNetwork, rules: seq<Rule>, samples: seq<Sample>, now: real, n: nat, o: Obs)
    requires n <= |rules|
    ensures o in CallObs(inNet, rules, samples, now, n) <==>
            exists i, s :: 0 <= i < n && s in samples && s.metric == rules[i].metric && Makes(inNet, rules[i], s, now, o)
  {
    if n > 0 {
      CallObsIs(inNet, rules, samples, now, n - 1, o);
      var rule := rules[n - 1];
      var matching := OfMetric(samples, rule.metric, |samples|);
      forall s ensures s in matching <==> s in samples && s.metric == rule.metric {
        OfMetricIs(samples, rule.metric, |samples|, s);
        assert samples[..|samples|] == samples;
      }
      if Usable(rule) {
        RuleObsIs(inNet, rule, matching, now, |matching|, o);
        assert matching[..|matching|] == matching;
      }
    }
  }

  /** A sample's device is admitted by the rule: no pattern excludes it, and one includes it unless none is given. */
  predicate InScope(inNet: InNetwork, rule: Rule, s: Sample) {
    && (forall p :: p in rule.excluded ==> p != s.device && p != s.host && !('/' in p && inNet(s.host, p)))
    && (rule.included == []
        || exists p :: p in rule.included && (p == s.device || p == s.host || ('/' in p && inNet(s.host, p))))
  }

  /** A rule that can be evaluated. */
  predicate Complete(rule: Rule) {
    rule.enabled && rule.operator in {">", ">=", "<", "<="} && rule.value.Some? && rule.duration.Some?
  }

  /** The value is on the side of the number that the operator names. */
  predicate Beyond(operator: string, number: real, value: real) {
    || (operator == ">" && number < value) || (operator == ">=" && number <= value)
    || (operator == "<" && value < number) || (operator == "<=" && value <= number)
  }

  /** What a rule makes of a sample: both sides' names and values, and a breach when the value is beyond the number. */
  predicate Means(inNet: InNetwork, rule: Rule, s: Sample, now: real, o: Obs) {
    && Complete(rule) && InScope(inNet, rule, s) && s.value.Some?
    && o.key.rule == rule.name && o.key.device == s.device && o.key.instance == s.instance
    && o.host == s.host && o.now == now && o.value == s.value.value
    && o.duration == rule.duration.value && o.severity == rule.severity
    && (o.breach <==> Beyond(rule.operator, rule.value.value, s.value.value))
  }

  lemma MakesMeans(inNet: InNetwork, rule: Rule, s: Sample, now: real, o: Obs)
    ensures Makes(inNet, rule, s, now, o) <==> Means(inNet, rule, s, now, o)
  {
  }

  /** The observations of a call, exactly: those that some rule makes of some sample of its metric. */
  lemma ObservationMeans(inNet: InNetwork, rules: seq<Rule>, samples: seq<Sample>, now: real, o: Obs)
    ensures o in CallObs(inNet, rules, samples, now, |rules|) <==>
            exists i, s ::
              0 <= i < |rules| && s in samples && s.metric == rules[i].metric && Means(inNet, rules[i], s, now, o)
  {
    CallObsIs(inNet, rules, samples, now, |rules|, o);
    forall i, s | 0 <= i < |rules| ensures Makes(inNet, rules[i], s, now, o) <==> Means(inNet, rules[i], s, now, o) {
      MakesMeans(inNet, rules[i], s, now, o);
    }
  }

  /** The samples of one part are looked at before those of the next. */
  lemma {:induction false} RuleObsSum(inNet: InNetwork, rule: Rule, a: seq<Sample>, b: seq<Sample>, now: real, n: nat)
    requires Usable(rule) && n <= |b|
    ensures RuleObs(inNet, rule, a + b, now, |a| + n) == RuleObs(inNet, rule, a, now, |a|) + RuleObs(inNet, rule, b, now, n)
  {
    if n == 0 {
      RuleObsPrefix(inNet, rule, a, b, now, |a|);
    } else {
      RuleObsSum(inNet, rule, a, b, now, n - 1);
      assert (a + b)[|a| + n - 1] == b[n - 1];
    }
  }

  lemma {:induction false} RuleObsPrefix(inNet: InNetwork, rule: Rule, a: seq<Sample>, b: seq<Sample>, now: real, n: nat)
    requires Usable(rule) && n <= |a|
    ensures RuleObs(inNet, rule, a + b, now, n) == RuleObs(inNet, rule, a, now, n)
  {
    if n > 0 {
      RuleObsPrefix(inNet, rule, a, b, now, n - 1);
    }
  }

  // ----- one observation -----

  function NextState(st: State, o: Obs): State {
    if o.breach then
      var entry := if o.key in st then st[o.key] else St(o.now, false, o.value, o.severity);
      st[o.key := entry.(value := o.value, alerted := entry.alerted || o.now - entry.since >= o.duration as real)]
    else st - {o.key}
  }

  function NextEvents(st: State, o: Obs): seq<Event> {
    var alerted := o.key in st && st[o.key].alerted;
    if o.breach && !alerted && NextState(st, o)[o.key].alerted
    then [Event(Fire, o.key, o.host, o.value, o.severity, o.now)]
    else if !o.breach && alerted then [Event(Clear, o.key, o.host, o.value, o.severity, o.now)]
    else []
  }

  /** The state after the first n observations of a history that began in state st. */
  function Replay(st: State, obs: seq<Obs>, n: nat): State
    requires n <= |obs|
  {
    if n == 0 then st else NextState(Replay(st, obs, n - 1), obs[n - 1])
  }

  function Emitted(st: State, obs: seq<Obs>, n: nat): seq<Event>
    requires n <= |obs|
  {
    if n == 0 then [] else Emitted(st, obs, n - 1) + NextEvents(Replay(st, obs, n - 1), obs[n - 1])
  }

  lemma {:induction false} ReplayExtend(st: State, a: seq<Obs>, b: seq<Obs>, n: nat)
    requires n <= |a|
    ensures Replay(st, a + b, n) == Replay(st, a, n)
    ensures Emitted(st, a + b, n) == Emitted(st, a, n)
  {
    if n > 0 {
      ReplayExtend(st, a, b, n - 1);
    }
  }

  /** Replaying two histories one after the other. */
  lemma {:induction false} ReplayConcat(st: State, a: seq<Obs>, b: seq<Obs>, n: nat)
    requires n <= |b|
    ensures Replay(st, a + b, |a| + n) == Replay(Replay(st, a, |a|), b, n)
  {
    if n == 0 {
      ReplayExtend(st, a, b, |a|);
    } else {
      ReplayConcat(st, a, b, n - 1);
      assert (a + b)[|a| + n - 1] == b[n - 1];
    }
  }

  /** Two histories that have come to the same state emit the same for the same next observation. */
  lemma EmittedStep(st: State, s: seq<Obs>, m: nat, mid: State, b: seq<Obs>, n: nat, x: seq<Event>)
    requires m < |s| && n < |b| && s[m] == b[n] && Replay(st, s, m) == Replay(mid, b, n)
    requires Emitted(st, s, m) == x + Emitted(mid, b, n)
    ensures Emitted(st, s, m + 1) == x + Emitted(mid, b, n + 1)
  {
    var y, z := Emitted(mid, b, n), NextEvents(Replay(mid, b, n), b[n]);
    assert x + (y + z) == (x + y) + z;
  }

  lemma {:induction false} EmittedConcat(st: State, a: seq<Obs>, b: seq<Obs>, n: nat)
    requires n <= |b|
    ensures Emitted(st, a + b, |a| + n) == Emitted(st, a, |a|) + Emitted(Replay(st, a, |a|), b, n)
  {
    if n == 0 {
      ReplayExtend(st, a, b, |a|);
      assert Emitted(Replay(st, a, |a|), b, 0) == [];
    } else {
      EmittedConcat(st, a, b, n - 1);
      ReplayConcat(st, a, b, n - 1);
      EmittedStep(st, a + b, |a| + n - 1, Replay(st, a, |a|), b, n - 1, Emitted(st, a, |a|));
    }
  }

  lemma ReplayTwice(st: State, a: seq<Obs>, b: seq<Obs>, n: nat)
    requires n == |a| + |b|
    ensures Replay(st, a + b, n) == Replay(Replay(st, a, |a|), b, |b|)
    ensures Emitted(st, a + b, n) == Emitted(st, a, |a|) + Emitted(Replay(st, a, |a|), b, |b|)
  {
    ReplayConcat(st, a, b, |b|);
    EmittedConcat(st, a, b, |b|);
  }

  lemma ReplaySnoc(st: State, obs: seq<Obs>, o: Obs)
    ensures var prior := Replay(st, obs, |obs|);
            && Replay(st, obs + [o], |obs| + 1) == NextState(prior, o)
            && Emitted(st, obs + [o], |obs| + 1) == Emitted(st, obs, |obs|) + NextEvents(prior, o)
  {
    ReplayExtend(st, obs, [o], |obs|);
  }

  function Group(byMetric: map<string, seq<Sample>>, metric: string): seq<Sample> {
    if metric in byMetric then byMetric[metric] else []
  }

  /** Samples by metric, each group in order; a metric without samples has no group. */
  method GroupByMetric(samples: seq<Sample>) returns (byMetric: map<string, seq<Sample>>)
    ensures forall m :: Group(byMetric, m) == OfMetric(samples, m, |samples|)
  {
    byMetric := map[];
    for i := 0 to |samples|
      invariant forall m :: Group(byMetric, m) == OfMetric(samples, m, i)
    {
      var metric, before := samples[i].metric, byMetric;
      byMetric := byMetric[metric := Group(byMetric, metric) + [samples[i]]];
      forall m ensures Group(byMetric, m) == OfMetric(samples, m, i + 1) {
        assert Group(before, m) == OfMetric(samples, m, i);
      }
    }
  }

  class ThresholdEvaluator {
    const inNet: InNetwork
    var state: State

    constructor (inNet: InNetwork)
      ensures state == map[] && this.inNet == inNet
    {
      this.inNet := inNet;
      state := map[];
    }

    /** The body of the inner loop for a sample in scope. */
    method Observe(rule: Rule, s: Sample, now: real) returns (events: seq<Event>)
      requires Usable(rule) && s.value.Some?
      modifies this
      ensures var o := Observation(rule, s, now);
              state == NextState(old(state), o) && events == NextEvents(old(state), o)
    {
      events := [];
      var val, key := s.value.value, Key(rule.name, s.device, s.instance);
      if Compare(rule.operator, val, rule.value.value).value {
        var st := if key in state then state[key] else St(now, false, val, rule.severity);
        st := st.(value := val);
        if !st.alerted && now - st.since >= rule.duration.value as real {
          st := st.(alerted := true);
          events := [Event(Fire, key, s.host, val, rule.severity, now)];
        }
        state := state[key := st];
      } else {
        var alerted := key in state && state[key].alerted;
        state := state - {key};
        if alerted {
          events := [Event(Clear, key, s.host, val, rule.severity, now)];
        }
      }
    }

    /** The inner loop: one rule over the samples of its metric. */
    method EvaluateRule(rule: Rule, matching: seq<Sample>, now: real) returns (events: seq<Event>)
      requires Usable(rule)
      modifies this
      ensures var obs := RuleObs(inNet, rule, matching, now, |matching|);
              state == Replay(old(state), obs, |obs|) && events == Emitted(old(state), obs, |obs|)
    {
      events := [];
      ghost var done: seq<Obs> := [];
      for j := 0 to |matching|
        invariant done == RuleObs(inNet, rule, matching, now, j)
        invariant state == Replay(old(state), done, |done|) && events == Emitted(old(state), done, |done|)
      {
        if !MatchScope(inNet, matching[j].device, matching[j].host, rule.included, rule.excluded)
           || matching[j].value.None? {
          assert done + [] == done;
          continue;
        }
        ghost var o := Observation(rule, matching[j], now);
        ReplaySnoc(old(state), done, o);
        var more := Observe(rule, matching[j], now);
        events := events + more;
        done := done + [o];
      }
    }

    method Evaluate(rules: seq<Rule>, samples: seq<Sample>, now: real) returns (events: seq<Event>)
      modifies this
      ensures var obs := CallObs(inNet, rules, samples, now, |rules|);
              state == Replay(old(state), obs, |obs|) && events == Emitted(old(state), obs, |obs|)
    {
      var byMetric := GroupByMetric(samples);
      events := [];
      ghost var done: seq<Obs> := [];
      for i := 0 to |rules|
        invariant done == CallObs(inNet, rules, samples, now, i)
        invariant state == Replay(old(state), done, |done|) && events == Emitted(old(state), done, |done|)
      {
        if !Usable(rules[i]) {
          assert done + [] == done;
          continue;
        }
        var matching := Group(byMetric, rules[i].metric);
        var more := EvaluateRule(rules[i], matching, now);
        events := events + more;
        ghost var obs := RuleObs(inNet, rules[i], matching, now, |matching|);
        ReplayTwice(old(state), done, obs, |done + obs|);
        done := done + obs;
      }
    }

    /** Currently firing breaches, each key once. */
    method ActiveAlerts() returns (out: seq<(Key, St)>)
      ensures forall k, st :: (k, st) in out <==> k in state && state[k] == st && st.alerted
      ensures forall i, j :: 0 <= i < j < |out| ==> out[i].0 != out[j].0
    {
      out := [];
      var rest := state.Keys;
      while rest != {}
        invariant rest <= state.Keys
        invariant forall k, st :: (k, st) in out <==> k in state && k !in rest && state[k] == st && st.alerted
        invariant forall i, j :: 0 <= i < j < |out| ==> out[i].0 != out[j].0
      {
        var k :| k in rest;
        if state[k].alerted {
          assert forall i :: 0 <= i < |out| ==> (out[i].0, out[i].1) in out;
          out := out + [(k, state[k])];
        }
        rest := rest - {k};
      }
    }
  }

  // ----- the history -----

  /** Observation i belongs to the trailing run of breaches of key k after n observations. */
  ghost predicate InRun(obs: seq<Obs>, n: nat, k: Key, i: nat)
    requires n <= |obs|
  {
    i < n && obs[i].key == k && forall j :: i <= j < n && obs[j].key == k ==> obs[j].breach
  }

  /** The trailing run as the list of its observations. */
  function TrailingRun(obs: seq<Obs>, n: nat, k: Key): (run: seq<nat>)
    requires n <= |obs|
    ensures forall x :: 0 <= x < |run| ==> run[x] < n
    ensures forall x, y :: 0 <= x < y < |run| ==> run[x] < run[y]
  {
    if n == 0 then []
    else if obs[n - 1].key != k then TrailingRun(obs, n - 1, k)
    else if obs[n - 1].breach then TrailingRun(obs, n - 1, k) + [n - 1]
    else []
  }

  /** It holds exactly the observations of the key since its last non-breach, in order. */
  lemma {:induction false} TrailingRunIs(obs: seq<Obs>, n: nat, k: Key)
    requires n <= |obs|
    ensures forall i: nat :: i in TrailingRun(obs, n, k) <==> InRun(obs, n, k, i)
  {
    if n > 0 {
      TrailingRunIs(obs, n - 1, k);
      var run, prev := TrailingRun(obs, n, k), TrailingRun(obs, n - 1, k);
      forall i: nat ensures i in run <==> InRun(obs, n, k, i) {
        assert i in prev <==> InRun(obs, n - 1, k, i);
        if obs[n - 1].key == k && obs[n - 1].breach {
          assert i in run <==> i in prev || i == n - 1;
        }
      }
    }
  }

  /** By observation i the run that began at f had lasted as long as that observation's rule asks. */
  predicate Sustained(obs: seq<Obs>, f: nat, i: nat)
    requires f < |obs| && i < |obs|
  {
    obs[i].now - obs[f].now >= obs[i].duration as real
  }

  predicate Within(obs: seq<Obs>, run: seq<nat>) {
    forall x :: 0 <= x < |run| ==> run[x] < |obs|
  }

  predicate SomeSustained(obs: seq<Obs>, run: seq<nat>)
    requires Within(obs, run)
  {
    exists x :: 0 <= x < |run| && Sustained(obs, run[0], run[x])
  }

  /** What the history says a key's stored entry must be. */
  predicate Describes(obs: seq<Obs>, run: seq<nat>, st: St)
    requires run != [] && Within(obs, run)
  {
    && st.since == obs[run[0]].now
    && st.severity == obs[run[0]].severity
    && st.value == obs[run[|run| - 1]].value
    && (st.alerted <==> SomeSustained(obs, run))
  }

  lemma SustainedSnoc(obs: seq<Obs>, run: seq<nat>, n: nat)
    requires n < |obs| && Within(obs, run)
    ensures SomeSustained(obs, run + [n]) <==> SomeSustained(obs, run) || Sustained(obs, if run == [] then n else run[0], n)
  {
    var longer := run + [n];
    if SomeSustained(obs, longer) && !Sustained(obs, longer[0], n) {
      var x :| 0 <= x < |longer| && Sustained(obs, longer[0], longer[x]);
      assert run[x] == longer[x];
    }
    if SomeSustained(obs, run) {
      var x :| 0 <= x < |run| && Sustained(obs, run[0], run[x]);
      assert longer[x] == run[x];
    }
    assert longer[|run|] == n;
  }

  /**
   * The stored state is a function of the observation history: an entry exists exactly while the trailing run is
   * non-empty; since is the start of that run, and it is alerted exactly when some observation of the run came
   * at least its rule's duration after the start.
   */
  lemma {:induction false} StateIsHistory(obs: seq<Obs>, n: nat, k: Key)
    requires n <= |obs|
    ensures var st, run := Replay(map[], obs, n), TrailingRun(obs, n, k);
            (k in st <==> run != []) && (k in st ==> Describes(obs, run, st[k]))
  {
    if n > 0 {
      var o := obs[n - 1];
      StateIsHistory(obs, n - 1, k);
      if o.key == k && o.breach {
        SustainedSnoc(obs, TrailingRun(obs, n - 1, k), n - 1);
      }
    }
  }

  /**
   * A fire is emitted exactly by the first sustained observation of a run; a clear exactly by the observation
   * that ends a run in which one was sustained.
   */
  lemma EventsAreHistory(obs: seq<Obs>, n: nat)
    requires n < |obs|
    ensures var o := obs[n];
            var run := TrailingRun(obs, n, o.key);
            var events := NextEvents(Replay(map[], obs, n), o);
            && (events != [] && events[0].kind == Fire <==>
                  o.breach && Sustained(obs, if run == [] then n else run[0], n) && !SomeSustained(obs, run))
            && (events != [] && events[0].kind == Clear <==> !o.breach && SomeSustained(obs, run))
            && |events| <= 1
            && (events != [] ==>
                  && events[0].key == o.key && events[0].host == o.host && events[0].value == o.value
                  && events[0].severity == o.severity && events[0].ts == o.now)
  {
    var o := obs[n];
    StateIsHistory(obs, n, o.key);
    StateIsHistory(obs, n + 1, o.key);
    if o.breach {
      SustainedSnoc(obs, TrailingRun(obs, n, o.key), n);
    }
  }

  function EventsOf(events: seq<Event>, k: Key): seq<Event> {
    if events == [] then []
    else
      EventsOf(events[..|events| - 1], k)
      + if events[|events| - 1].key == k then [events[|events| - 1]] else []
  }

  /** Fire, clear, fire, clear, ... */
  predicate Alternates(events: seq<Event>) {
    forall i :: 0 <= i < |events| ==> (events[i].kind == Fire <==> i % 2 == 0)
  }

  lemma EventsOfSnoc(events: seq<Event>, more: seq<Event>, k: Key)
    requires |more| <= 1
    ensures EventsOf(events + more, k) == EventsOf(events, k) + if more != [] && more[0].key == k then more else []
  {
    if more == [] {
      assert events + more == events;
    } else {
      assert (events + more)[..|events|] == events;
      assert more == [more[0]];
    }
  }

  /** An event of the key is a change of its alerted flag. */
  lemma AlertedStep(st: State, o: Obs, k: Key)
    ensures |NextEvents(st, o)| <= 1
    ensures var events, st' := NextEvents(st, o), NextState(st, o);
            var was, is' := k in st && st[k].alerted, k in st' && st'[k].alerted;
            if events != [] && events[0].key == k then was != is' && (events[0].kind == Fire <==> is') else was == is'
  {
  }

  predicate Active(st: State, k: Key) {
    k in st && st[k].alerted
  }

  /** Events alternate, and the last one is an unmatched fire exactly when the key is active. */
  predicate Matched(events: seq<Event>, active: bool) {
    Alternates(events) && (active <==> |events| % 2 == 1)
  }

  lemma MatchedSnoc(events: seq<Event>, more: seq<Event>, was: bool, is': bool)
    requires Matched(events, was) && |more| <= 1
    requires if more == [] then was == is' else was != is' && (more[0].kind == Fire <==> is')
    ensures Matched(events + more, is')
  {
    assert forall i :: 0 <= i < |events| ==> (events + more)[i] == events[i];
  }

  lemma MatchedStep(events: seq<Event>, st: State, o: Obs, k: Key)
    requires Matched(EventsOf(events, k), Active(st, k))
    ensures Matched(EventsOf(events + NextEvents(st, o), k), Active(NextState(st, o), k))
  {
    var more := NextEvents(st, o);
    AlertedStep(st, o, k);
    EventsOfSnoc(events, more, k);
    MatchedSnoc(EventsOf(events, k), if more != [] && more[0].key == k then more else [],
                Active(st, k), Active(NextState(st, o), k));
  }

  lemma MatchedNext(obs: seq<Obs>, n: nat, k: Key, events: seq<Event>, st: State, o: Obs)
    requires n < |obs| && o == obs[n]
    requires events == Emitted(map[], obs, n) && st == Replay(map[], obs, n)
    requires Matched(EventsOf(events, k), Active(st, k))
    ensures Matched(EventsOf(Emitted(map[], obs, n + 1), k), Active(Replay(map[], obs, n + 1), k))
  {
    assert Emitted(map[], obs, n + 1) == events + NextEvents(st, o);
    assert Replay(map[], obs, n + 1) == NextState(st, o);
    MatchedStep(events, st, o, k);
  }

  /** For every history and key: fires and clears alternate from a fire on, and the active alerts are the unmatched fires. */
  lemma {:induction false} FiresAndClearsAlternate(obs: seq<Obs>, n: nat, k: Key)
    requires n <= |obs|
    ensures Matched(EventsOf(Emitted(map[], obs, n), k), Active(Replay(map[], obs, n), k))
  {
    if n == 0 {
      assert Emitted(map[], obs, 0) == [];
    } else {
      FiresAndClearsAlternate(obs, n - 1, k);
      MatchedNext(obs, n - 1, k, Emitted(map[], obs, n - 1), Replay(map[], obs, n - 1), obs[n - 1]);
    }
  }

  /** The history made by a sequence of evaluate calls. */
  datatype Call = Call(rules: seq<Rule>, samples: seq<Sample>, now: real)

  function History(inNet: InNetwork, calls: seq<Call>): seq<Obs> {
    if calls == [] then []
    else
      var c := calls[|calls| - 1];
      History(inNet, calls[..|calls| - 1]) + CallObs(inNet, c.rules, c.samples, c.now, |c.rules|)
  }

  /** The state that the calls leave, one evaluate after the other. */
  function AfterCalls(inNet: InNetwork, calls: seq<Call>): State {
    if calls == [] then map[]
    else
      var c := calls[|calls| - 1];
      var obs := CallObs(inNet, c.rules, c.samples, c.now, |c.rules|);
      Replay(AfterCalls(inNet, calls[..|calls| - 1]), obs, |obs|)
  }

  /** Everything the calls return, in order. */
  function Returned(inNet: InNetwork, calls: seq<Call>): seq<Event> {
    if calls == [] then []
    else
      var c, before := calls[|calls| - 1], calls[..|calls| - 1];
      var obs := CallObs(inNet, c.rules, c.samples, c.now, |c.rules|);
      Returned(inNet, before) + Emitted(AfterCalls(inNet, before), obs, |obs|)
  }

  /** Any sequence of evaluate calls is one replay of its whole history. */
  lemma {:induction false} CallsReplayHistory(inNet: InNetwork, calls: seq<Call>)
    ensures var all := History(inNet, calls);
            && AfterCalls(inNet, calls) == Replay(map[], all, |all|)
            && Returned(inNet, calls) == Emitted(map[], all, |all|)
  {
    if calls != [] {
      var c := calls[|calls| - 1];
      var before := History(inNet, calls[..|calls| - 1]);
      var obs := CallObs(inNet, c.rules, c.samples, c.now, |c.rules|);
      CallsReplayHistory(inNet, calls[..|calls| - 1]);
      ReplayTwice(map[], before, obs, |before + obs|);
    }
  }

  // ----- a call on its own -----

  /** Observation i of a history emits the event. */
  predicate Emits(obs: seq<Obs>, i: nat, e: Event)
    requires i < |obs|
  {
    e in NextEvents(Replay(map[], obs, i), obs[i])
  }

  lemma EmittedNext(obs: seq<Obs>, n: nat, e: Event)
    requires n < |obs|
    ensures e in Emitted(map[], obs, n + 1) <==> e in Emitted(map[], obs, n) || Emits(obs, n, e)
  {
    assert Emitted(map[], obs, n + 1) == Emitted(map[], obs, n) + NextEvents(Replay(map[], obs, n), obs[n]);
  }

  lemma {:induction false} EmittedIs(obs: seq<Obs>, n: nat, e: Event, emitted: bool)
    requires n <= |obs| && emitted == (e in Emitted(map[], obs, n))
    ensures emitted <==> exists i :: 0 <= i < n && Emits(obs, i, e)
  {
    if n > 0 {
      EmittedIs(obs, n - 1, e, e in Emitted(map[], obs, n - 1));
      EmittedNext(obs, n - 1, e);
    }
  }

  /** A key's first observation of a history fires only as a breach, and does when its rule asks for no duration. */
  lemma FirstFires(obs: seq<Obs>, i: nat)
    requires i < |obs| && forall j :: 0 <= j < i ==> obs[j].key != obs[i].key
    ensures forall e :: Emits(obs, i, e) && e.kind == Fire ==> obs[i].breach && e.key == obs[i].key
    ensures obs[i].breach && obs[i].duration <= 0 ==>
              exists e :: Emits(obs, i, e) && e.kind == Fire && e.key == obs[i].key
  {
    var events := NextEvents(Replay(map[], obs, i), obs[i]);
    NoRunBefore(obs, i, obs[i].key);
    EventsAreHistory(obs, i);
    forall e | Emits(obs, i, e) && e.kind == Fire ensures obs[i].breach && e.key == obs[i].key {
      assert e == events[0];
    }
    if events != [] {
      assert Emits(obs, i, events[0]);
    }
  }

  lemma {:induction false} NoRunBefore(obs: seq<Obs>, n: nat, k: Key)
    requires n <= |obs| && forall j :: 0 <= j < n ==> obs[j].key != k
    ensures TrailingRun(obs, n, k) == []
  {
    if n > 0 {
      NoRunBefore(obs, n - 1, k);
    }
  }

  /** No two samples of the metric are of the same device and instance. */
  predicate Apart(samples: seq<Sample>, metric: string) {
    forall i, j :: 0 <= i < j < |samples| && samples[i].metric == metric && samples[j].metric == metric ==>
      samples[i].device != samples[j].device || samples[i].instance != samples[j].instance
  }

  predicate Distinct(m: seq<Sample>) {
    forall i, j :: 0 <= i < j < |m| ==> m[i].device != m[j].device || m[i].instance != m[j].instance
  }

  predicate DistinctKeys(obs: seq<Obs>) {
    forall i, j :: 0 <= i < j < |obs| ==> obs[i].key != obs[j].key
  }

  lemma {:induction false} OfMetricApart(samples: seq<Sample>, metric: string, n: nat)
    requires n <= |samples| && Apart(samples, metric)
    ensures Distinct(OfMetric(samples, metric, n))
  {
    if n > 0 {
      OfMetricApart(samples, metric, n - 1);
      var before := OfMetric(samples, metric, n - 1);
      if samples[n - 1].metric == metric {
        forall i | 0 <= i < |before|
          ensures before[i].device != samples[n - 1].device || before[i].instance != samples[n - 1].instance
        {
          OfMetricIs(samples, metric, n - 1, before[i]);
          assert before[i] in before;
          var j :| 0 <= j < n - 1 && samples[..n - 1][j] == before[i];
          assert samples[j] == before[i];
        }
        assert OfMetric(samples, metric, n) == before + [samples[n - 1]];
      } else {
        assert OfMetric(samples, metric, n) == before;
      }
    }
  }

  lemma {:induction false} RuleObsApart(inNet: InNetwork, rule: Rule, m: seq<Sample>, now: real, n: nat)
    requires Usable(rule) && n <= |m| && Distinct(m)
    ensures DistinctKeys(RuleObs(inNet, rule, m, now, n))
  {
    if n > 0 {
      RuleObsApart(inNet, rule, m, now, n - 1);
      var before := RuleObs(inNet, rule, m, now, n - 1);
      if Observed(inNet, rule, m[n - 1]) {
        var o := Observation(rule, m[n - 1], now);
        forall i | 0 <= i < |before| ensures before[i].key != o.key {
          RuleObsIs(inNet, rule, m, now, n - 1, before[i]);
          assert before[i] in before;
          var s :| s in m[..n - 1] && Makes(inNet, rule, s, now, before[i]);
          var j :| 0 <= j < n - 1 && m[..n - 1][j] == s;
          assert m[j] == s;
        }
        assert RuleObs(inNet, rule, m, now, n) == before + [o];
      } else {
        assert RuleObs(inNet, rule, m, now, n) == before;
      }
    }
  }

  /** A sample the rule applies to, of the given device and instance and beyond the rule's number. */
  ghost predicate Exceeds(inNet: InNetwork, rule: Rule, s: Sample, device: string, instance: string) {
    && s.metric == rule.metric && s.device == device && s.instance == instance
    && s.value.Some? && rule.value.Some? && Beyond(rule.operator, rule.value.value, s.value.value)
    && InScope(inNet, rule, s)
  }

  /**
   * What a threshold does, from rule and samples to events: the first call with an enabled rule that asks for no
   * duration fires for a device and instance exactly when their sample of the metric is in scope and beyond the number.
   */
  lemma FiresBeyond(inNet: InNetwork, rule: Rule, samples: seq<Sample>, now: real, device: string, instance: string)
    requires Complete(rule) && rule.duration.value <= 0 && Apart(samples, rule.metric)
    ensures var obs := CallObs(inNet, [rule], samples, now, 1);
            (exists e :: e in Emitted(map[], obs, |obs|) && e.kind == Fire && e.key == Key(rule.name, device, instance)) <==>
            (exists s :: s in samples && Exceeds(inNet, rule, s, device, instance))
  {
    var obs, k := CallObs(inNet, [rule], samples, now, 1), Key(rule.name, device, instance);
    var m := OfMetric(samples, rule.metric, |samples|);
    OfMetricApart(samples, rule.metric, |samples|);
    RuleObsApart(inNet, rule, m, now, |m|);
    assert CallObs(inNet, [rule], samples, now, 0) == [];
    assert obs == RuleObs(inNet, rule, m, now, |m|);
    if e :| e in Emitted(map[], obs, |obs|) && e.kind == Fire && e.key == k {
      FireHasSample(inNet, rule, samples, now, obs, e);
    }
    if s :| s in samples && Exceeds(inNet, rule, s, device, instance) {
      SampleFires(inNet, rule, samples, now, obs, s);
    }
  }

  lemma MadeExceeds(inNet: InNetwork, rule: Rule, samples: seq<Sample>, now: real, o: Obs)
    requires o in CallObs(inNet, [rule], samples, now, 1) && o.breach
    ensures exists s :: s in samples && Exceeds(inNet, rule, s, o.key.device, o.key.instance)
  {
    CallObsIs(inNet, [rule], samples, now, 1, o);
    var j, s :| 0 <= j < 1 && s in samples && s.metric == [rule][j].metric && Makes(inNet, [rule][j], s, now, o);
    assert Exceeds(inNet, rule, s, o.key.device, o.key.instance);
  }

  lemma ExceedsIsMade(inNet: InNetwork, rule: Rule, samples: seq<Sample>, now: real, s: Sample) returns (o: Obs)
    requires rule.enabled && rule.duration.Some?
    requires s in samples && Exceeds(inNet, rule, s, s.device, s.instance)
    ensures o in CallObs(inNet, [rule], samples, now, 1) && o.breach
    ensures o.key == Key(rule.name, s.device, s.instance) && o.duration == rule.duration.value
  {
    o := Observation(rule, s, now);
    assert Makes(inNet, [rule][0], s, now, o);
    CallObsIs(inNet, [rule], samples, now, 1, o);
  }

  lemma FireHasSample(inNet: InNetwork, rule: Rule, samples: seq<Sample>, now: real, obs: seq<Obs>, e: Event)
    requires obs == CallObs(inNet, [rule], samples, now, 1) && DistinctKeys(obs)
    requires e in Emitted(map[], obs, |obs|) && e.kind == Fire
    ensures exists s :: s in samples && Exceeds(inNet, rule, s, e.key.device, e.key.instance)
  {
    EmittedIs(obs, |obs|, e, true);
    var i :| 0 <= i < |obs| && Emits(obs, i, e);
    FirstFires(obs, i);
    MadeExceeds(inNet, rule, samples, now, obs[i]);
  }

  lemma SampleFires(inNet: InNetwork, rule: Rule, samples: seq<Sample>, now: real, obs: seq<Obs>, s: Sample)
    requires obs == CallObs(inNet, [rule], samples, now, 1) && DistinctKeys(obs)
    requires rule.enabled && rule.duration.Some? && rule.duration.value <= 0
    requires s in samples && Exceeds(inNet, rule, s, s.device, s.instance)
    ensures exists e :: e in Emitted(map[], obs, |obs|) && e.kind == Fire && e.key == Key(rule.name, s.device, s.instance)
  {
    var o := ExceedsIsMade(inNet, rule, samples, now, s);
    var i :| 0 <= i < |obs| && obs[i] == o;
    FirstFires(obs, i);
    var e :| Emits(obs, i, e) && e.kind == Fire && e.key == o.key;
    EmittedIs(obs, |obs|, e, e in Emitted(map[], obs, |obs|));
  }
}
