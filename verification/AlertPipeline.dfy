/** All switch monitors sharing one batcher: the dedup decisions composed with the batcher's interleavings. */
module AlertPipeline {
  import opened Dicts
  import AlertBatcher
  import SwitchMonitor

  type Time = int

  /** A transition of some switch, what was decided, and the event that was or would have been queued. */
  datatype Decision = Decision(
    switch: string, kind: string, muted: bool, verdict: SwitchMonitor.Verdict, event: AlertBatcher.Event)

  /** last: each monitor's timestamps. decisions: everything decided so far. */
  datatype Fleet = Fleet(system: AlertBatcher.System, last: map<string, map<string, Time>>, decisions: seq<Decision>)

  datatype Step =
    | Transition(switch: string, kind: string, muted: bool, name: string, body: string)
    | Batcher(step: AlertBatcher.Step)

  function LastOf(f: Fleet, switch: string): map<string, Time> {
    if switch in f.last then f.last[switch] else map[]
  }

  /** Only monitors add events; every other batcher step may happen at any time. */
  predicate Enabled(f: Fleet, step: Step) {
    step.Batcher? ==> !step.step.Add? && AlertBatcher.Enabled(f.system, step.step)
  }

  function Apply(f: Fleet, dedup: int, window: int, step: Step): Fleet
    requires Enabled(f, step)
  {
    match step
    case Batcher(s) => f.(system := AlertBatcher.Apply(f.system, window, s))
    case Transition(switch, kind, muted, name, body) =>
      var (last, verdict) := SwitchMonitor.Decide(LastOf(f, switch), dedup, kind, f.system.now, muted);
      var decision := Decision(switch, kind, muted, verdict, AlertBatcher.Event(name, body, f.system.now));
      Fleet(if verdict == SwitchMonitor.HandedOff
            then AlertBatcher.Apply(f.system, window, AlertBatcher.Add(kind, name, body)) else f.system,
            f.last[switch := last], f.decisions + [decision])
  }

  function Run(now: Time, dedup: int, window: int, steps: seq<Step>): Option<Fleet> {
    if steps == [] then Some(Fleet(AlertBatcher.Start(now), map[], []))
    else
      var f := Run(now, dedup, window, steps[..|steps| - 1]);
      var step := steps[|steps| - 1];
      if f.Some? && Enabled(f.value, step) then Some(Apply(f.value, dedup, window, step)) else None
  }

  /** The events handed to the batcher for a kind, in order. */
  function HandedOff(decisions: seq<Decision>, kind: string): seq<AlertBatcher.Event> {
    if decisions == [] then []
    else
      var d := decisions[|decisions| - 1];
      HandedOff(decisions[..|decisions| - 1], kind)
      + if d.kind == kind && d.verdict == SwitchMonitor.HandedOff then [d.event] else []
  }

  ghost predicate Invariant(f: Fleet, window: int) {
    && AlertBatcher.Invariant(f.system, window)
    && forall kind :: AlertBatcher.LogOf(f.system.log, kind) == HandedOff(f.decisions, kind)
  }

  lemma BatcherStepKeepsLog(s: AlertBatcher.System, window: int, step: AlertBatcher.Step)
    requires !step.Add? && AlertBatcher.Enabled(s, step)
    ensures AlertBatcher.Apply(s, window, step).log == s.log
  {
  }

  lemma StepKeeps(f: Fleet, dedup: int, window: int, step: Step)
    requires Invariant(f, window) && Enabled(f, step)
    ensures Invariant(Apply(f, dedup, window, step), window)
  {
    var f' := Apply(f, dedup, window, step);
    match step
    case Batcher(s) =>
      AlertBatcher.StepKeeps(f.system, window, s);
      BatcherStepKeepsLog(f.system, window, s);
    case Transition(switch, kind, muted, name, body) =>
      var d := f'.decisions[|f.decisions|];
      AlertBatcher.StepKeeps(f.system, window, AlertBatcher.Add(kind, name, body));
      forall k ensures AlertBatcher.LogOf(f'.system.log, k) == HandedOff(f'.decisions, k) {
        assert f'.decisions[..|f.decisions|] == f.decisions;
        AlertBatcher.LogOfSnoc(f.system.log, (kind, d.event), k);
      }
  }

  lemma {:induction false} RunSafe(now: Time, dedup: int, window: int, steps: seq<Step>)
    ensures var f := Run(now, dedup, window, steps); f.Some? ==> Invariant(f.value, window)
  {
    if steps != [] {
      RunSafe(now, dedup, window, steps[..|steps| - 1]);
      var f := Run(now, dedup, window, steps[..|steps| - 1]);
      if f.Some? && Enabled(f.value, steps[|steps| - 1]) {
        StepKeeps(f.value, dedup, window, steps[|steps| - 1]);
      }
    }
  }

  /**
   * Under every interleaving of monitors, timers and flush_all calls: the hand-offs of a kind, in order, are the
   * popped batches of that kind followed by what is still pending, and every popped batch is sent exactly once.
   */
  lemma HandOffsDelivered(now: Time, dedup: int, window: int, steps: seq<Step>, kind: string)
    requires Run(now, dedup, window, steps).Some?
    ensures var f := Run(now, dedup, window, steps).value;
            && HandedOff(f.decisions, kind)
               == AlertBatcher.Flat(f.system.popped, kind) + AlertBatcher.PendingOf(f.system.shared, kind)
            && multiset(f.system.popped) == f.system.inFlight + multiset(f.system.mailed)
            && forall b :: b in f.system.popped ==> b.entries != []
  {
    RunSafe(now, dedup, window, steps);
    var f := Run(now, dedup, window, steps).value;
    assert AlertBatcher.LogOf(f.system.log, kind) == HandedOff(f.decisions, kind);
  }

  // ----- which transitions are handed off -----

  /** One switch's transitions, and what was decided about them. */
  function OfSwitch(decisions: seq<Decision>, switch: string): seq<SwitchMonitor.Transition> {
    if decisions == [] then []
    else
      var d := decisions[|decisions| - 1];
      OfSwitch(decisions[..|decisions| - 1], switch)
      + if d.switch == switch then [SwitchMonitor.Transition(d.kind, d.event.at, d.muted)] else []
  }

  function VerdictsOf(decisions: seq<Decision>, switch: string): (vs: seq<SwitchMonitor.Verdict>)
    ensures |vs| == |OfSwitch(decisions, switch)|
  {
    if decisions == [] then []
    else
      var d := decisions[|decisions| - 1];
      VerdictsOf(decisions[..|decisions| - 1], switch) + if d.switch == switch then [d.verdict] else []
  }

  lemma OfSwitchSnoc(decisions: seq<Decision>, d: Decision, switch: string)
    ensures OfSwitch(decisions + [d], switch)
         == OfSwitch(decisions, switch)
            + if d.switch == switch then [SwitchMonitor.Transition(d.kind, d.event.at, d.muted)] else []
    ensures VerdictsOf(decisions + [d], switch)
         == VerdictsOf(decisions, switch) + if d.switch == switch then [d.verdict] else []
  {
    assert (decisions + [d])[..|decisions|] == decisions;
  }

  lemma {:induction false} VerdictsPrefix(window: int, ts: seq<SwitchMonitor.Transition>, t: SwitchMonitor.Transition, n: nat)
    requires n <= |ts|
    ensures SwitchMonitor.Verdicts(window, ts + [t], n) == SwitchMonitor.Verdicts(window, ts, n)
  {
    if n > 0 {
      VerdictsPrefix(window, ts, t, n - 1);
    }
  }

  /** Timestamps and verdicts are those of a lone monitor after the transitions, all of them past. */
  ghost predicate Alone(dedup: int, ts: seq<SwitchMonitor.Transition>, last: map<string, Time>,
                        verdicts: seq<SwitchMonitor.Verdict>, now: Time) {
    && SwitchMonitor.Verdicts(dedup, ts, |ts|) == (last, verdicts)
    && SwitchMonitor.InOrder(ts)
    && (forall i :: 0 <= i < |ts| ==> ts[i].at <= now)
  }

  lemma AloneNext(dedup: int, ts: seq<SwitchMonitor.Transition>, last: map<string, Time>,
                  verdicts: seq<SwitchMonitor.Verdict>, now: Time, t: SwitchMonitor.Transition)
    requires Alone(dedup, ts, last, verdicts, now) && t.at == now
    ensures var (last', v) := SwitchMonitor.Decide(last, dedup, t.kind, now, t.muted);
            Alone(dedup, ts + [t], last', verdicts + [v], now)
  {
    VerdictsPrefix(dedup, ts, t, |ts|);
    assert (ts + [t])[|ts|] == t;
    assert forall i :: 0 <= i < |ts| ==> (ts + [t])[i] == ts[i];
  }

  /** A switch's share of the fleet is a run of its own monitor. */
  ghost predicate Projects(f: Fleet, dedup: int, switch: string) {
    Alone(dedup, OfSwitch(f.decisions, switch), LastOf(f, switch), VerdictsOf(f.decisions, switch), f.system.now)
  }

  lemma BatcherStepKeepsTime(s: AlertBatcher.System, window: int, step: AlertBatcher.Step)
    requires AlertBatcher.Enabled(s, step)
    ensures s.now <= AlertBatcher.Apply(s, window, step).now
    ensures !step.Tick? ==> AlertBatcher.Apply(s, window, step).now == s.now
  {
  }

  lemma StepProjects(f: Fleet, dedup: int, window: int, step: Step, switch: string)
    requires Projects(f, dedup, switch) && Enabled(f, step)
    ensures Projects(Apply(f, dedup, window, step), dedup, switch)
  {
    match step
    case Batcher(s) => BatcherStepKeepsTime(f.system, window, s);
    case Transition(w, kind, muted, name, body) =>
      var f' := Apply(f, dedup, window, step);
      var ts, verdicts := OfSwitch(f.decisions, switch), VerdictsOf(f.decisions, switch);
      BatcherStepKeepsTime(f.system, window, AlertBatcher.Add(kind, name, body));
      OfSwitchSnoc(f.decisions, f'.decisions[|f.decisions|], switch);
      if w == switch {
        AloneNext(dedup, ts, LastOf(f, switch), verdicts, f.system.now,
                  SwitchMonitor.Transition(kind, f.system.now, muted));
      } else {
        assert ts + [] == ts && verdicts + [] == verdicts;
      }
  }

  lemma {:induction false} RunProjects(now: Time, dedup: int, window: int, steps: seq<Step>, switch: string)
    requires Run(now, dedup, window, steps).Some?
    ensures Projects(Run(now, dedup, window, steps).value, dedup, switch)
  {
    if steps != [] {
      RunProjects(now, dedup, window, steps[..|steps| - 1], switch);
      StepProjects(Run(now, dedup, window, steps[..|steps| - 1]).value, dedup, window, steps[|steps| - 1], switch);
    }
  }

  /**
   * In every run of the whole fleet, the i-th transition of a switch is handed off if and only if it is unmuted and,
   * for a positive dedup window, no unmuted transition of the same switch and kind came less than the window before.
   */
  lemma HandOffsAreHistory(now: Time, dedup: int, window: int, steps: seq<Step>, switch: string, i: nat)
    requires Run(now, dedup, window, steps).Some?
    requires i < |OfSwitch(Run(now, dedup, window, steps).value.decisions, switch)|
    ensures var decisions := Run(now, dedup, window, steps).value.decisions;
            var ts := OfSwitch(decisions, switch);
            VerdictsOf(decisions, switch)[i] == SwitchMonitor.HandedOff <==>
            !ts[i].muted && !(dedup > 0 && SwitchMonitor.Recent(dedup, ts, i))
  {
    RunProjects(now, dedup, window, steps, switch);
    var ts := OfSwitch(Run(now, dedup, window, steps).value.decisions, switch);
    SwitchMonitor.VerdictsAreHistory(dedup, ts, |ts|, i);
  }
}
