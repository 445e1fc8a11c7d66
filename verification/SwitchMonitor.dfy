/** The reachability poll of one switch, and what becomes of its alerts. */
module SwitchMonitor {
  import opened Dicts
  import opened Text
  import opened AgentState
  import Batching = AlertBatcher

  /** What the probes of one poll would answer; a probe's answer is used only when it is asked. */
  datatype Probes = Probes(snmp: bool, icmp: bool, ssh: bool, rest: bool)

  /** Reachable, and whether SNMP is answering. */
  datatype Outcome = Outcome(ok: bool, snmpOk: bool)

  /** SNMP first; a switch whose SNMP is dead is up only when it answers both ping and SSH. */
  function Reachability(p: Probes): (o: Outcome)
    ensures o.ok <==> p.snmp || (p.icmp && p.ssh)
    ensures !o.snmpOk <==> o.ok && !p.snmp
  {
    if p.snmp then Outcome(true, true)
    else if !p.icmp then Outcome(false, true)
    else if p.ssh then Outcome(true, false)
    else Outcome(false, true)
  }

  /** Which probes a mode uses. */
  function Probe(p: Probes, mode: string, hasSnmp: bool): Outcome {
    if mode == "icmp" then Outcome(p.icmp, true)
    else if hasSnmp && mode in {"snmp_ro", "snmp_rw", "auto", ""} then Reachability(p)
    else Outcome(p.rest, true)
  }

  /** The switch after a managed poll. */
  function Polled(s: SwitchState, o: Outcome, threshold: int, now: Time, clock: string): SwitchState {
    if o.ok then
      s.(lastSeen := Some(now), failures := 0, snmpOk := o.snmpOk, isDown := false,
         lastEvent := UpEvent(o, clock))
    else
      s.(failures := s.failures + 1, isDown := s.isDown || s.failures + 1 >= threshold,
         lastEvent := "Poll failed (" + Str(s.failures + 1) + "x) at " + clock)
  }

  /** "restored" or "down" when the poll changed is_down. */
  function TransitionOf(s: SwitchState, s': SwitchState): Option<string> {
    if s.isDown == s'.isDown then None else Some(if s'.isDown then "down" else "restored")
  }

  /**
   * Memory and store after the record of a poll: the store is written exactly when the poll changed something a reload
   * must give back - SNMP health or is_down.
   */
  function Recorded(h: Host, name: string, s: SwitchState, o: Outcome, threshold: int, now: Time, clock: string): Host {
    var s' := Polled(s, o, threshold, now, clock);
    Changed(h, name, s', CoreOf(s') != CoreOf(s))
  }

  /** Memory and store after a whole poll: an unknown or unmanaged switch is skipped; a transition checks the mute. */
  function PolledHost(h: Host, name: string, o: Outcome, threshold: int, now: Time, clock: string): Host {
    var found := Switch(h.memory, name);
    if found.None? || found.value.unmanaged then h
    else
      var h' := Recorded(h, name, found.value, o, threshold, now, clock);
      if TransitionOf(found.value, Polled(found.value, o, threshold, now, clock)).None? then h'
      else Called(h', CheckMute(name, now))
  }

  datatype Verdict = Muted | Suppressed | HandedOff

  /** The dedup decision for a transition, and the kind's timestamps after it. */
  function Decide(last: map<string, Time>, window: int, kind: string, now: Time, muted: bool): (map<string, Time>, Verdict) {
    if muted then (last, Muted)
    else if window <= 0 then (last, HandedOff)
    else (last[kind := now], if kind in last && now - last[kind] < window then Suppressed else HandedOff)
  }

  /** The update of a successful poll before health and is_down. */
  function UpUpdate(now: Time, event: string): Update {
    Update(None, None, None, Some(0), Some(now), Some(event), None)
  }

  function DownUpdate(isDown: bool): Update {
    Update(None, None, None, None, None, None, Some(isDown))
  }

  function UpEvent(o: Outcome, clock: string): string {
    (if o.snmpOk then "Reachable at " else "Reachable via SSH \U{2014} SNMP not responding at ") + clock
  }

  /** A change, then a flip of is_down: both are saved. */
  lemma ThenFlip(h: Host, name: string, s: SwitchState, save: bool, isDown: bool)
    requires Named(h.memory.switches) && Has(h.memory.switches, name) && s.name == name && s.isDown != isDown
    ensures Called(Changed(h, name, s, save), Call.UpdateSwitch(name, DownUpdate(isDown)))
         == Changed(h, name, s.(isDown := isDown), true)
  {
    ChangedTwice(h, name, s, save, s.(isDown := isDown), true);
    assert Updated(s, DownUpdate(isDown)) == s.(isDown := isDown);
    CalledUpdate(Changed(h, name, s, save), name, s, DownUpdate(isDown));
  }

  /** An update that leaves is_down alone, then the health: saved when the health flips. */
  lemma ThenHealth(h: Host, name: string, s: SwitchState, u: Update, snmpOk: bool)
    requires Named(h.memory.switches) && Switch(h.memory, name) == Some(s) && s.name == name && u.isDown.None?
    ensures Called(Called(h, Call.UpdateSwitch(name, u)), SetSnmpHealth(name, snmpOk))
         == Changed(h, name, Updated(s, u).(snmpOk := snmpOk), s.snmpOk != snmpOk)
  {
    var s1 := Updated(s, u);
    CalledUpdate(h, name, s, u);
    ChangedTwice(h, name, s1, false, s1.(snmpOk := snmpOk), true);
    CalledHealth(Changed(h, name, s1, false), name, s1, snmpOk);
  }

  /** The calls a successful poll makes leave exactly its record. */
  lemma UpRecorded(h: Host, name: string, s: SwitchState, o: Outcome, threshold: int, now: Time, clock: string)
    requires Named(h.memory.switches) && Switch(h.memory, name) == Some(s) && s.name == name && o.ok
    ensures var h1 := Called(h, Call.UpdateSwitch(name, UpUpdate(now, UpEvent(o, clock))));
            var h2 := Called(h1, SetSnmpHealth(name, o.snmpOk));
            (if s.isDown then Called(h2, Call.UpdateSwitch(name, DownUpdate(false))) else h2)
            == Recorded(h, name, s, o, threshold, now, clock)
  {
    var u := UpUpdate(now, UpEvent(o, clock));
    ThenHealth(h, name, s, u, o.snmpOk);
    var s2 := Updated(s, u).(snmpOk := o.snmpOk);
    assert Polled(s, o, threshold, now, clock) == s2.(isDown := false);
    if s.isDown {
      ThenFlip(h, name, s2, s.snmpOk != o.snmpOk, false);
    }
  }

  // ----- what a poll means, from the probes to the switch it leaves -----

  predicate SnmpFirst(mode: string, hasSnmp: bool) {
    hasSnmp && (mode == "" || mode == "auto" || mode == "snmp_ro" || mode == "snmp_rw")
  }

  /** Which answers make a switch count as reachable. */
  predicate Up(p: Probes, mode: string, hasSnmp: bool) {
    || (mode == "icmp" && p.icmp)
    || (mode != "icmp" && SnmpFirst(mode, hasSnmp) && (p.snmp || (p.icmp && p.ssh)))
    || (mode != "icmp" && !SnmpFirst(mode, hasSnmp) && p.rest)
  }

  /** Reachable although SNMP, which the mode asks first, does not answer. */
  predicate SnmpMissing(p: Probes, mode: string, hasSnmp: bool) {
    Up(p, mode, hasSnmp) && mode != "icmp" && SnmpFirst(mode, hasSnmp) && !p.snmp
  }

  /** The switch t a poll leaves of s, field by field. An expired mute goes only with a transition. */
  predicate Means(s: SwitchState, t: SwitchState, up: bool, snmpMissing: bool, threshold: int, now: Time, clock: string) {
    var event :=
      if !up then "Poll failed (" + Str(s.failures + 1) + "x) at "
      else if snmpMissing then "Reachable via SSH \U{2014} SNMP not responding at " else "Reachable at ";
    var expired := t.isDown != s.isDown && s.alertsMuted && s.muteUntil.Some? && s.muteUntil.value <= now;
    && (up ==> t.failures == 0 && !t.isDown && t.lastSeen == Some(now) && (t.snmpOk <==> !snmpMissing))
    && (!up ==> t.failures == s.failures + 1 && t.lastSeen == s.lastSeen && t.snmpOk == s.snmpOk)
    && (!up ==> (t.isDown <==> s.isDown || threshold <= t.failures))
    && t.lastEvent == event + clock
    && (expired ==> !t.alertsMuted && t.muteUntil == None)
    && (!expired ==> t.alertsMuted == s.alertsMuted && t.muteUntil == s.muteUntil)
    && t.name == s.name && t.host == s.host && t.hostname == s.hostname && t.vendor == s.vendor
    && t.osVersion == s.osVersion && t.snmpProfile == s.snmpProfile && t.monitorMode == s.monitorMode
    && t.unmanaged == s.unmanaged
  }

  lemma ProbeMeans(p: Probes, mode: string, hasSnmp: bool)
    ensures Probe(p, mode, hasSnmp).ok <==> Up(p, mode, hasSnmp)
    ensures !Probe(p, mode, hasSnmp).snmpOk <==> SnmpMissing(p, mode, hasSnmp)
  {
  }

  /** The switch after a poll and the mute check of its transition. */
  function Settled(s: SwitchState, o: Outcome, threshold: int, now: Time, clock: string): SwitchState {
    var t := Polled(s, o, threshold, now, clock);
    if TransitionOf(s, t).Some? && t.alertsMuted && !MutedAt(t, now) then t.(alertsMuted := false, muteUntil := None) else t
  }

  lemma SettledMeans(s: SwitchState, o: Outcome, threshold: int, now: Time, clock: string)
    ensures Means(s, Settled(s, o, threshold, now, clock), o.ok, !o.snmpOk, threshold, now, clock)
  {
  }

  lemma MuteSettles(h: Host, name: string, t: SwitchState, now: Time)
    requires Named(h.memory.switches) && Switch(h.memory, name) == Some(t) && t.name == name
    ensures Switch(Called(h, CheckMute(name, now)).memory, name)
         == Some(if t.alertsMuted && !MutedAt(t, now) then t.(alertsMuted := false, muteUntil := None) else t)
  {
    WithFacts(h.memory, name, t.(alertsMuted := false, muteUntil := None));
  }

  lemma PollSettles(h: Host, name: string, s: SwitchState, o: Outcome, threshold: int, now: Time, clock: string)
    requires Named(h.memory.switches) && Switch(h.memory, name) == Some(s) && !s.unmanaged
    ensures Switch(PolledHost(h, name, o, threshold, now, clock).memory, name)
         == Some(Settled(s, o, threshold, now, clock))
  {
    var t := Polled(s, o, threshold, now, clock);
    NameOf(h.memory.switches, name);
    assert t.name == name;
    WithFacts(h.memory, name, t);
    var h1 := Recorded(h, name, s, o, threshold, now, clock);
    assert h1.memory == With(h.memory, name, t);
    if TransitionOf(s, t).Some? {
      MuteSettles(h1, name, t, now);
    }
  }

  /** What a whole poll leaves of a managed switch, whichever of its fields is asked about. */
  lemma PollMeans(h: Host, name: string, s: SwitchState, p: Probes, hasSnmp: bool, threshold: int, now: Time,
                  clock: string)
    requires Named(h.memory.switches) && Switch(h.memory, name) == Some(s) && !s.unmanaged
    ensures var after := Switch(PolledHost(h, name, Probe(p, s.monitorMode, hasSnmp), threshold, now, clock).memory, name);
            && after.Some?
            && Means(s, after.value, Up(p, s.monitorMode, hasSnmp), SnmpMissing(p, s.monitorMode, hasSnmp), threshold, now,
                     clock)
  {
    var o := Probe(p, s.monitorMode, hasSnmp);
    ProbeMeans(p, s.monitorMode, hasSnmp);
    PollSettles(h, name, s, o, threshold, now, clock);
    SettledMeans(s, o, threshold, now, clock);
  }

  function FailedUpdate(failures: int, clock: string): Update {
    Update(None, None, None, Some(failures), None, Some("Poll failed (" + Str(failures) + "x) at " + clock), None)
  }

  /** So do the calls of a failed one. */
  lemma FailureRecorded(h: Host, name: string, s: SwitchState, threshold: int, now: Time, clock: string)
    requires Named(h.memory.switches) && Switch(h.memory, name) == Some(s) && s.name == name
    ensures var h1 := Called(h, Call.UpdateSwitch(name, FailedUpdate(s.failures + 1, clock)));
            (if s.failures + 1 >= threshold && !s.isDown then Called(h1, Call.UpdateSwitch(name, DownUpdate(true))) else h1)
            == Recorded(h, name, s, Outcome(false, true), threshold, now, clock)
  {
    var u := FailedUpdate(s.failures + 1, clock);
    var s1 := Updated(s, u);
    CalledUpdate(h, name, s, u);
    assert s1.isDown == s.isDown && s1.name == name;
    if s.failures + 1 >= threshold && !s.isDown {
      ThenFlip(h, name, s1, false, true);
      assert Polled(s, Outcome(false, true), threshold, now, clock) == s1.(isDown := true);
    } else {
      assert Polled(s, Outcome(false, true), threshold, now, clock) == s1;
    }
  }

  class SwitchMonitor {
    const name: string
    const threshold: int
    const dedup: int
    const hasSnmp: bool
    const state: AgentState
    const batcher: Batching.AlertBatcher
    var lastAlert: map<string, Time>

    constructor (name: string, threshold: int, dedup: int, hasSnmp: bool, state: AgentState,
                 batcher: Batching.AlertBatcher)
      ensures this.name == name && this.threshold == threshold && this.hasSnmp == hasSnmp
      ensures this.dedup == if dedup > 0 then dedup else 0
      ensures this.state == state && this.batcher == batcher && lastAlert == map[]
    {
      this.name, this.threshold, this.hasSnmp := name, threshold, hasSnmp;
      this.dedup := if dedup > 0 then dedup else 0;
      this.state, this.batcher, lastAlert := state, batcher, map[];
    }

    /**
     * Muted, suppressed or handed to the batcher - exactly one of them. `send` is what the batcher returns for
     * immediate sending when batching is disabled.
     */
    method MaybeSendAlert(kind: string, title: string, body: string, now: Time)
      returns (verdict: Verdict, send: Option<Batching.Batch>)
      requires state.Valid()
      modifies this, state`switches, state.store, batcher
      ensures state.Valid() && state.Abs() == MuteChecked(old(state.Abs()), name, now)
      ensures state.State() == Called(old(state.State()), CheckMute(name, now))
      ensures (lastAlert, verdict) == Decide(old(lastAlert), dedup, kind, now, EmailsMuted(old(state.Abs()), name, now))
      ensures verdict != HandedOff ==> batcher.Abs() == old(batcher.Abs()) && send == None
      ensures verdict == HandedOff ==>
        var e := Batching.Event(title, body, now);
        if batcher.window <= 0 then send == Some(Batching.Batch(kind, [e])) && batcher.Abs() == old(batcher.Abs())
        else send == None && batcher.Abs() == Batching.Added(old(batcher.Abs()), batcher.window, kind, e)
    {
      send := None;
      var muted := state.AlertsSuppressed(name, now);
      if muted {
        return Verdict.Muted, None;
      }
      if dedup > 0 {
        if kind in lastAlert && now - lastAlert[kind] < dedup {
          lastAlert := lastAlert[kind := now];   // a suppressed transition also restarts the window
          return Suppressed, None;
        }
        lastAlert := lastAlert[kind := now];
      }
      send := batcher.Add(kind, title, body, now);
      verdict := HandedOff;
    }

    /** The record of a successful poll. */
    method RecordUp(s: SwitchState, o: Outcome, now: Time, clock: string)
      requires state.Valid() && Switch(state.Abs(), name) == Some(s) && s.name == name && o.ok
      modifies state`switches, state.store
      ensures state.Valid() && state.Abs() == With(old(state.Abs()), name, Polled(s, o, threshold, now, clock))
      ensures state.State() == Recorded(old(state.State()), name, s, o, threshold, now, clock)
    {
      UpRecorded(state.State(), name, s, o, threshold, now, clock);
      ghost var h := state.State();
      state.UpdateSwitch(name, UpUpdate(now, UpEvent(o, clock)));
      ghost var h1 := Called(h, Call.UpdateSwitch(name, UpUpdate(now, UpEvent(o, clock))));
      assert state.State() == h1;
      var flipped := state.SetSnmpHealth(name, o.snmpOk);
      assert state.State() == Called(h1, Call.SetSnmpHealth(name, o.snmpOk));
      if s.isDown {
        state.UpdateSwitch(name, DownUpdate(false));
      }
    }

    /** The record of a failed poll. */
    method RecordFailure(s: SwitchState, now: Time, clock: string)
      requires state.Valid() && Switch(state.Abs(), name) == Some(s) && s.name == name
      modifies state`switches, state.store
      ensures state.Valid()
      ensures state.Abs() == With(old(state.Abs()), name, Polled(s, Outcome(false, true), threshold, now, clock))
      ensures state.State() == Recorded(old(state.State()), name, s, Outcome(false, true), threshold, now, clock)
    {
      FailureRecorded(state.State(), name, s, threshold, now, clock);
      ghost var h := state.State();
      state.UpdateSwitch(name, FailedUpdate(s.failures + 1, clock));
      assert state.State() == Called(h, Call.UpdateSwitch(name, FailedUpdate(s.failures + 1, clock)));
      if s.failures + 1 >= threshold && !s.isDown {
        state.UpdateSwitch(name, DownUpdate(true));
      }
    }

    /** The record of a poll. */
    method Record(s: SwitchState, o: Outcome, now: Time, clock: string)
      requires state.Valid() && Switch(state.Abs(), name) == Some(s) && s.name == name && (!o.ok ==> o.snmpOk)
      modifies state`switches, state.store
      ensures state.Valid()
      ensures state.State() == Recorded(old(state.State()), name, s, o, threshold, now, clock)
    {
      if o.ok {
        RecordUp(s, o, now, clock);
      } else {
        RecordFailure(s, now, clock);
      }
    }

    /** A managed poll: the switch's record, then the alert of a transition. */
    method PollManaged(s: SwitchState, o: Outcome, now: Time, clock: string, body: string)
      returns (verdict: Option<Verdict>, send: Option<Batching.Batch>)
      requires state.Valid() && Switch(state.Abs(), name) == Some(s) && !s.unmanaged && (!o.ok ==> o.snmpOk)
      modifies this, state`switches, state.store, batcher
      ensures state.Valid() && state.State() == PolledHost(old(state.State()), name, o, threshold, now, clock)
      ensures var s' := Polled(s, o, threshold, now, clock);
              var muted := EmailsMuted(With(old(state.Abs()), name, s'), name, now);
              Alerted(old(lastAlert), lastAlert, TransitionOf(s, s'), verdict, muted, now)
      ensures Batched(old(batcher.Abs()), batcher.Abs(), batcher.window, TransitionOf(s, Polled(s, o, threshold, now, clock)),
                      verdict, send, Batching.Event(if s.hostname != "" then s.hostname else name, body, now))
    {
      verdict, send := None, None;
      NameOf(state.switches, name);
      Record(s, o, now, clock);
      if (o.ok && s.isDown) || (!o.ok && s.failures + 1 >= threshold && !s.isDown) {
        var v;
        v, send := MaybeSendAlert(if o.ok then "restored" else "down",
                                  if s.hostname != "" then s.hostname else name, body, now);
        verdict := Some(v);
      }
    }

    /** The timestamps and the verdict of a poll with or without a transition. */
    predicate Alerted(last: map<string, Time>, last': map<string, Time>, transition: Option<string>,
                      verdict: Option<Verdict>, muted: bool, now: Time)
    {
      match transition
      case None => verdict == None && last' == last
      case Some(kind) => verdict.Some? && (last', verdict.value) == Decide(last, dedup, kind, now, muted)
    }

    /** The batcher and what is to be sent at once, after a poll with or without a transition. */
    predicate Batched(before: Batching.Shared, after: Batching.Shared, window: int, transition: Option<string>,
                      verdict: Option<Verdict>, send: Option<Batching.Batch>, e: Batching.Event)
    {
      if transition.None? || verdict != Some(HandedOff) then after == before && send == None
      else if window <= 0 then after == before && send == Some(Batching.Batch(transition.value, [e]))
      else after == Batching.Added(before, window, transition.value, e) && send == None
    }

    /** One poll: nothing for an unknown or unmanaged switch. */
    method Poll(probes: Probes, now: Time, clock: string, body: string)
      returns (verdict: Option<Verdict>, send: Option<Batching.Batch>)
      requires state.Valid()
      modifies this, state`switches, state.store, batcher
      ensures state.Valid()
      ensures var found := Switch(old(state.Abs()), name);
              if found.None? || found.value.unmanaged then
                && verdict == None && send == None && state.State() == old(state.State())
                && lastAlert == old(lastAlert) && batcher.Abs() == old(batcher.Abs())
              else
                var s, o := found.value, Probe(probes, found.value.monitorMode, hasSnmp);
                var s' := Polled(s, o, threshold, now, clock);
                var muted := EmailsMuted(With(old(state.Abs()), name, s'), name, now);
                && state.State() == PolledHost(old(state.State()), name, o, threshold, now, clock)
                && Alerted(old(lastAlert), lastAlert, TransitionOf(s, s'), verdict, muted, now)
                && Batched(old(batcher.Abs()), batcher.Abs(), batcher.window, TransitionOf(s, s'), verdict, send,
                           Batching.Event(if s.hostname != "" then s.hostname else name, body, now))
      ensures var found, after := Switch(old(state.Abs()), name), Switch(state.Abs(), name);
              if found.None? || found.value.unmanaged then after == found
              else
                var s := found.value;
                var up := Up(probes, s.monitorMode, hasSnmp);
                && after.Some?
                && Means(s, after.value, up, SnmpMissing(probes, s.monitorMode, hasSnmp), threshold, now, clock)
                && (s.failures >= 0 ==> (after.value.failures == 0 && !after.value.isDown <==> up))
    {
      if !Has(state.switches, name) || Get(state.switches, name).unmanaged {
        return None, None;
      }
      var s := Get(state.switches, name);
      PollMeans(state.State(), name, s, probes, hasSnmp, threshold, now, clock);
      verdict, send := PollManaged(s, Probe(probes, s.monitorMode, hasSnmp), now, clock, body);
    }
  }

  // ----- the polls of one switch -----

  /** A scheduled poll: skipped while the switch is unmanaged. */
  datatype PollEvent = Skipped | Managed(outcome: Outcome, now: Time, clock: string)

  function AfterPolls(s: SwitchState, threshold: int, polls: seq<PollEvent>, n: nat): SwitchState
    requires n <= |polls|
  {
    if n == 0 then s
    else
      var prior := AfterPolls(s, threshold, polls, n - 1);
      match polls[n - 1]
      case Skipped => prior
      case Managed(o, now, clock) => Polled(prior, o, threshold, now, clock)
  }

  function Transitions(s: SwitchState, threshold: int, polls: seq<PollEvent>, n: nat): seq<string>
    requires n <= |polls|
  {
    if n == 0 then []
    else
      var t := TransitionOf(AfterPolls(s, threshold, polls, n - 1), AfterPolls(s, threshold, polls, n));
      Transitions(s, threshold, polls, n - 1) + if t.Some? then [t.value] else []
  }

  /** The length of the trailing run of failed polls. */
  function TrailingFailures(polls: seq<PollEvent>, n: nat): nat
    requires n <= |polls|
  {
    if n == 0 then 0
    else match polls[n - 1]
         case Skipped => TrailingFailures(polls, n - 1)
         case Managed(o, _, _) => if o.ok then 0 else TrailingFailures(polls, n - 1) + 1
  }

  /** Down, restored, down, restored, ... and down now exactly when the last one is unmatched. */
  predicate Alternating(transitions: seq<string>, isDown: bool) {
    && (forall i :: 0 <= i < |transitions| ==> transitions[i] == if i % 2 == 0 then "down" else "restored")
    && (isDown <==> |transitions| % 2 == 1)
  }

  lemma PollStep(prior: SwitchState, o: Outcome, threshold: int, now: Time, clock: string, run: nat, ts: seq<string>)
    requires prior.failures == run && (prior.isDown <==> run >= 1 && run >= threshold)
    requires Alternating(ts, prior.isDown)
    ensures var s := Polled(prior, o, threshold, now, clock);
            var run' := if o.ok then 0 else run + 1;
            var t := TransitionOf(prior, s);
            && s.failures == run' && (s.isDown <==> run' >= 1 && run' >= threshold)
            && Alternating(ts + if t.Some? then [t.value] else [], s.isDown)
  {
  }

  /**
   * From a fresh switch: failures counts the trailing run of failed polls, the switch is down exactly when that
   * run reaches the threshold (one failure for a threshold below one), and DOWN and RESTORED strictly alternate.
   */
  lemma {:induction false} PollsAreHistory(name: string, host: string, mode: string, threshold: int,
                                           polls: seq<PollEvent>, n: nat)
    requires n <= |polls|
    ensures var s := AfterPolls(NewSwitch(name, host, mode), threshold, polls, n);
            var run := TrailingFailures(polls, n);
            && s.failures == run
            && (s.isDown <==> run >= 1 && run >= threshold)
            && Alternating(Transitions(NewSwitch(name, host, mode), threshold, polls, n), s.isDown)
  {
    if n > 0 {
      var brandNew := NewSwitch(name, host, mode);
      PollsAreHistory(name, host, mode, threshold, polls, n - 1);
      var ts := Transitions(brandNew, threshold, polls, n - 1);
      match polls[n - 1]
      case Skipped => assert ts + [] == ts;
      case Managed(o, now, clock) =>
        var prior := AfterPolls(brandNew, threshold, polls, n - 1);
        PollStep(prior, o, threshold, now, clock, TrailingFailures(polls, n - 1), ts);
    }
  }

  // ----- the alerts of one switch -----

  datatype Transition = Transition(kind: string, at: Time, muted: bool)

  /** The timestamps and verdicts after the first n transitions since the monitor was created: a restart forgets both. */
  function Verdicts(window: int, ts: seq<Transition>, n: nat): (r: (map<string, Time>, seq<Verdict>))
    requires n <= |ts|
    ensures |r.1| == n
  {
    if n == 0 then (map[], [])
    else
      var (last, verdicts) := Verdicts(window, ts, n - 1);
      var (last', v) := Decide(last, window, ts[n - 1].kind, ts[n - 1].at, ts[n - 1].muted);
      (last', verdicts + [v])
  }

  predicate InOrder(ts: seq<Transition>) {
    forall i, j :: 0 <= i < j < |ts| ==> ts[i].at <= ts[j].at
  }

  /** An earlier unmuted transition of the same kind lies less than the window before transition i. */
  predicate Recent(window: int, ts: seq<Transition>, i: nat)
    requires i < |ts|
  {
    exists j :: 0 <= j < i && !ts[j].muted && ts[j].kind == ts[i].kind && ts[i].at - ts[j].at < window
  }

  /** The kept timestamp of a kind is that of its last unmuted transition, suppressed or not. */
  lemma {:induction false} LastUnmuted(window: int, ts: seq<Transition>, n: nat, kind: string)
    requires window > 0 && n <= |ts|
    ensures var last := Verdicts(window, ts, n).0;
            && (kind in last <==> exists j :: 0 <= j < n && !ts[j].muted && ts[j].kind == kind)
            && (kind in last ==> exists j :: 0 <= j < n && !ts[j].muted && ts[j].kind == kind && last[kind] == ts[j].at
                                   && forall i :: j < i < n ==> ts[i].muted || ts[i].kind != kind)
  {
    if n > 0 {
      LastUnmuted(window, ts, n - 1, kind);
    }
  }

  /**
   * Every transition gets exactly the verdict its history asks for: muted while muted; otherwise, with a positive
   * window, suppressed if and only if some unmuted transition of its kind came less than the window before.
   */
  lemma {:induction false} VerdictsAreHistory(window: int, ts: seq<Transition>, n: nat, i: nat)
    requires InOrder(ts) && i < n <= |ts|
    ensures Verdicts(window, ts, n).1[i]
         == if ts[i].muted then Muted else if window > 0 && Recent(window, ts, i) then Suppressed else HandedOff
  {
    if i < n - 1 {
      VerdictsAreHistory(window, ts, n - 1, i);
    } else if window > 0 {
      var last, kind := Verdicts(window, ts, i).0, ts[i].kind;
      LastUnmuted(window, ts, i, kind);
      if kind in last {
        var j :| 0 <= j < i && !ts[j].muted && ts[j].kind == kind && last[kind] == ts[j].at
                 && forall x :: j < x < i ==> ts[x].muted || ts[x].kind != kind;
        if Recent(window, ts, i) {
          var x :| 0 <= x < i && !ts[x].muted && ts[x].kind == kind && ts[i].at - ts[x].at < window;
          assert x <= j;
        }
      }
    }
  }
}
