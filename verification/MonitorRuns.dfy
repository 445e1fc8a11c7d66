/** The transitions of one switch among all calls of the agent state, its removal included, and across restarts. */
module MonitorRuns {
  import opened Dicts
  import opened AgentState
  import SwitchMonitor

  /** A poll of the monitored switch, any other call, or a restart of the agent. */
  datatype Step =
    | Poll(outcome: SwitchMonitor.Outcome, now: Time, clock: string)
    | Other(call: Call)
    | Restart

  /** Only the poll updates is_down. */
  predicate Allowed(step: Step) {
    step.Other? && step.call.UpdateSwitch? ==> step.call.update.isDown.None?
  }

  predicate AllAllowed(steps: seq<Step>) {
    forall i :: 0 <= i < |steps| ==> Allowed(steps[i])
  }

  function Next(h: Host, name: string, threshold: int, step: Step): Host {
    match step
    case Poll(o, now, clock) => SwitchMonitor.PolledHost(h, name, o, threshold, now, clock)
    case Other(call) => Called(h, call)
    case Restart => Host(Loaded(h.saved), h.saved)
  }

  function After(h: Host, name: string, threshold: int, steps: seq<Step>): Host
    decreases |steps|
  {
    if steps == [] then h else After(Next(h, name, threshold, steps[0]), name, threshold, steps[1..])
  }

  function Down(h: Host, name: string): bool {
    Switch(h.memory, name).Some? && Switch(h.memory, name).value.isDown
  }

  function Flip(was: bool, is': bool): seq<string> {
    if was == is' then [] else [if is' then "down" else "restored"]
  }

  /** The DOWN and RESTORED transitions that a step's poll sees; other steps see none. */
  function SeenIn(h: Host, name: string, threshold: int, step: Step): seq<string> {
    if !step.Poll? || Switch(h.memory, name).None? || Switch(h.memory, name).value.unmanaged then []
    else
      var s := Switch(h.memory, name).value;
      var t := SwitchMonitor.TransitionOf(s, SwitchMonitor.Polled(s, step.outcome, threshold, step.now, step.clock));
      if t.Some? then [t.value] else []
  }

  function Seen(h: Host, name: string, threshold: int, steps: seq<Step>): seq<string>
    decreases |steps|
  {
    if steps == [] then []
    else SeenIn(h, name, threshold, steps[0]) + Seen(Next(h, name, threshold, steps[0]), name, threshold, steps[1..])
  }

  /** The step takes the switch away while it is down. */
  predicate Loses(h: Host, name: string, threshold: int, step: Step) {
    Down(h, name) && Switch(Next(h, name, threshold, step).memory, name).None?
  }

  predicate LosesDown(h: Host, name: string, threshold: int, steps: seq<Step>)
    decreases |steps|
  {
    steps != [] && (Loses(h, name, threshold, steps[0])
                    || LosesDown(Next(h, name, threshold, steps[0]), name, threshold, steps[1..]))
  }

  // ----- what one step does -----

  lemma RecordedFacts(h: Host, name: string, s: SwitchState, o: SwitchMonitor.Outcome, threshold: int, now: Time,
                      clock: string)
    requires Sound(h) && Switch(h.memory, name) == Some(s)
    ensures var h' := SwitchMonitor.Recorded(h, name, s, o, threshold, now, clock);
            && Sound(h') && Switch(h'.memory, name) == Some(SwitchMonitor.Polled(s, o, threshold, now, clock))
            && Down(h', name) == SwitchMonitor.Polled(s, o, threshold, now, clock).isDown
  {
    var s' := SwitchMonitor.Polled(s, o, threshold, now, clock);
    NameOf(h.memory.switches, name);
    ChangedSound(h, name, s', CoreOf(s') != CoreOf(s));
    WithFacts(h.memory, name, s');
  }

  lemma MuteKeeps(h: Host, name: string, now: Time)
    requires Sound(h)
    ensures var h' := Called(h, CheckMute(name, now));
            && Sound(h')
            && Down(h', name) == Down(h, name)
            && Switch(h'.memory, name).Some? == Switch(h.memory, name).Some?
  {
    CalledSound(h, CheckMute(name, now));
    EditKeepsDown(h, name, name, CheckMute(name, now));
  }

  lemma PollSound(h: Host, name: string, threshold: int, step: Step)
    requires Sound(h) && step.Poll?
    ensures var h' := Next(h, name, threshold, step);
            && Sound(h')
            && SeenIn(h, name, threshold, step) == Flip(Down(h, name), Down(h', name))
            && !Loses(h, name, threshold, step)
  {
    var found := Switch(h.memory, name);
    if found.Some? && !found.value.unmanaged {
      ManagedSound(h, name, found.value, step.outcome, threshold, step.now, step.clock);
    }
  }

  lemma ManagedSound(h: Host, name: string, s: SwitchState, o: SwitchMonitor.Outcome, threshold: int, now: Time,
                     clock: string)
    requires Sound(h) && Switch(h.memory, name) == Some(s) && !s.unmanaged
    ensures var h' := SwitchMonitor.PolledHost(h, name, o, threshold, now, clock);
            && Sound(h') && Switch(h'.memory, name).Some?
            && Down(h', name) == SwitchMonitor.Polled(s, o, threshold, now, clock).isDown
  {
    var h1 := SwitchMonitor.Recorded(h, name, s, o, threshold, now, clock);
    RecordedFacts(h, name, s, o, threshold, now, clock);
    MuteKeeps(h1, name, now);
    if SwitchMonitor.TransitionOf(s, SwitchMonitor.Polled(s, o, threshold, now, clock)).None? {
      assert SwitchMonitor.PolledHost(h, name, o, threshold, now, clock) == h1;
    } else {
      assert SwitchMonitor.PolledHost(h, name, o, threshold, now, clock) == Called(h1, CheckMute(name, now));
    }
  }

  lemma ChangeKeepsDown(h: Host, name: string, other: string, e: Option<(SwitchState, bool)>)
    requires Sound(h) && Has(h.memory.switches, other)
    requires e.Some? ==> e.value.0.name == other && e.value.0.isDown == Get(h.memory.switches, other).isDown
    ensures var h' := ChangedIf(h, other, e);
            && Switch(h'.memory, name).Some? == Switch(h.memory, name).Some?
            && Down(h', name) == Down(h, name)
  {
    if e.Some? {
      WithFacts(h.memory, other, e.value.0);
    }
  }

  /** An edit of any switch leaves the monitored one registered and its is_down alone. */
  lemma EditKeepsDown(h: Host, name: string, other: string, call: Call)
    requires Sound(h) && (call.UpdateSwitch? ==> call.update.isDown.None?)
    ensures var h' := EditedHost(h, other, call);
            && Switch(h'.memory, name).Some? == Switch(h.memory, name).Some?
            && Down(h', name) == Down(h, name)
  {
    if Has(h.memory.switches, other) {
      var s := Get(h.memory.switches, other);
      NameOf(h.memory.switches, other);
      if Edited(s, call).Some? {
        EditedKeeps(s, call);
      }
      ChangeKeepsDown(h, name, other, Edited(s, call));
    }
  }

  lemma RemoveKeepsDown(h: Host, name: string, other: string)
    requires Sound(h)
    ensures Switch(Called(h, Remove(other)).memory, name)
         == if other == name then None else Switch(h.memory, name)
  {
    if Has(h.memory.switches, other) {
      WithoutFacts(h.memory.switches, IndexOf(h.memory.switches, other));
    }
  }

  lemma RegisterKeepsDown(h: Host, name: string, call: Call)
    requires Sound(h) && call.Register?
    ensures var h' := Called(h, call);
            && Down(h', name) == Down(h, name)
            && (Switch(h.memory, name).Some? || name == call.name ==> Switch(h'.memory, name).Some?)
  {
    if Has(h.memory.switches, call.name) {
      EditKeepsDown(h, name, call.name, call);
    } else {
      PutGet(h.memory.switches, call.name, NewSwitch(call.name, call.host, call.mode), name);
    }
  }

  lemma CallKeepsDown(h: Host, name: string, threshold: int, call: Call)
    requires Sound(h) && Allowed(Other(call))
    ensures Sound(Called(h, call))
    ensures Down(Called(h, call), name) == Down(h, name) || Loses(h, name, threshold, Other(call))
    ensures Switch(h.memory, name).Some? && call != Remove(name) ==> Switch(Called(h, call).memory, name).Some?
  {
    CalledSound(h, call);
    match call
    case SetBackupResult(run) =>
    case SetDeviceInventory(devices, at) =>
    case SetArpLastRun(location, at) =>
    case Remove(other) => RemoveKeepsDown(h, name, other);
    case Register(_, _, _) => RegisterKeepsDown(h, name, call);
    case _ => EditKeepsDown(h, name, call.name, call);
  }

  /** A reload gives back every switch that can be stored, down or up as it was, and brings back no other. */
  lemma RestartKeepsDown(h: Host, name: string, threshold: int)
    requires Sound(h)
    ensures var h' := Next(h, name, threshold, Restart);
            && Sound(h')
            && (Down(h', name) == Down(h, name) || Loses(h, name, threshold, Restart))
            && (Switch(h.memory, name).Some? && Storable(Switch(h.memory, name).value) ==> Switch(h'.memory, name).Some?)
  {
    var loaded := Loaded(h.saved);
    if h.saved.Some? {
      LoadedIsNamed(h.saved.value.switches, |h.saved.value.switches|);
      LoadedStorable(h.saved.value.switches, |h.saved.value.switches|);
    }
    if Has(h.memory.switches, name) && Storable(Get(h.memory.switches, name)) {
      SameCore(h.memory, loaded, name);
    } else if Has(loaded.switches, name) {
      SameCore(loaded, h.memory, name);
    }
  }

  lemma StepDown(h: Host, name: string, threshold: int, step: Step)
    requires Sound(h) && Allowed(step)
    ensures var h' := Next(h, name, threshold, step);
            && Sound(h')
            && (Loses(h, name, threshold, step) || SeenIn(h, name, threshold, step) == Flip(Down(h, name), Down(h', name)))
            && (Loses(h, name, threshold, step) ==> SeenIn(h, name, threshold, step) == [] && !Down(h', name))
  {
    match step
    case Poll(_, _, _) => PollSound(h, name, threshold, step);
    case Other(call) => CallKeepsDown(h, name, threshold, call);
    case Restart => RestartKeepsDown(h, name, threshold);
  }

  // ----- alternation -----

  /** Down, restored, down, ... seen from a switch that is now down or up. */
  predicate AlternatesFrom(isDown: bool, transitions: seq<string>)
    decreases |transitions|
  {
    transitions == [] || (transitions[0] == (if isDown then "restored" else "down")
                          && AlternatesFrom(!isDown, transitions[1..]))
  }

  /** Whether the switch is down after a list of alternating transitions. */
  function DownAfter(isDown: bool, transitions: seq<string>): bool {
    if |transitions| % 2 == 0 then isDown else !isDown
  }

  lemma FlipFirst(was: bool, is': bool, rest: seq<string>)
    ensures AlternatesFrom(was, Flip(was, is') + rest) <==> AlternatesFrom(is', rest)
    ensures DownAfter(was, Flip(was, is') + rest) == DownAfter(is', rest)
  {
    if was == is' {
      assert Flip(was, is') + rest == rest;
    } else {
      assert (Flip(was, is') + rest)[1..] == rest;
    }
  }

  lemma AllowedRest(steps: seq<Step>)
    requires AllAllowed(steps) && steps != []
    ensures Allowed(steps[0]) && AllAllowed(steps[1..])
  {
  }

  /**
   * As long as no step takes the switch away while it is down: DOWN and RESTORED strictly alternate, and the switch is
   * down exactly when the last transition seen was DOWN - across restarts, because every flip of is_down is saved.
   */
  lemma {:induction false} TransitionsAlternate(h: Host, name: string, threshold: int, steps: seq<Step>)
    requires Sound(h) && AllAllowed(steps) && !LosesDown(h, name, threshold, steps)
    ensures var seen := Seen(h, name, threshold, steps);
            && AlternatesFrom(Down(h, name), seen)
            && Down(After(h, name, threshold, steps), name) == DownAfter(Down(h, name), seen)
    decreases |steps|
  {
    if steps != [] {
      var h' := Next(h, name, threshold, steps[0]);
      AllowedRest(steps);
      StepDown(h, name, threshold, steps[0]);
      TransitionsAlternate(h', name, threshold, steps[1..]);
      FlipFirst(Down(h, name), Down(h', name), Seen(h', name, threshold, steps[1..]));
    }
  }

  lemma {:induction false} AfterSound(h: Host, name: string, threshold: int, steps: seq<Step>)
    requires Sound(h) && AllAllowed(steps)
    ensures Sound(After(h, name, threshold, steps))
    decreases |steps|
  {
    if steps != [] {
      AllowedRest(steps);
      StepDown(h, name, threshold, steps[0]);
      AfterSound(Next(h, name, threshold, steps[0]), name, threshold, steps[1..]);
    }
  }

  // ----- why a loss while down matters -----

  /** Alternation is broken, or about to be: the switch is up although DOWN was seen last. */
  predicate Broken(isDown: bool, seen: seq<string>, downAfter: bool) {
    !AlternatesFrom(isDown, seen) || (DownAfter(isDown, seen) && !downAfter)
  }

  lemma BrokenFlip(was: bool, is': bool, rest: seq<string>, downAfter: bool)
    requires Broken(is', rest, downAfter)
    ensures Broken(was, Flip(was, is') + rest, downAfter)
  {
    FlipFirst(was, is', rest);
  }

  /** A switch that is up although DOWN was seen last: the next transition, if any, is DOWN again. */
  lemma {:induction false} StaysBroken(h: Host, name: string, threshold: int, steps: seq<Step>)
    requires Sound(h) && AllAllowed(steps) && !Down(h, name)
    ensures Broken(true, Seen(h, name, threshold, steps), Down(After(h, name, threshold, steps), name))
    decreases |steps|
  {
    if steps != [] {
      var h' := Next(h, name, threshold, steps[0]);
      AllowedRest(steps);
      StepDown(h, name, threshold, steps[0]);
      var rest := Seen(h', name, threshold, steps[1..]);
      if Down(h', name) {
        assert (["down"] + rest)[0] == "down";
      } else {
        StaysBroken(h', name, threshold, steps[1..]);
        assert [] + rest == rest;
      }
    }
  }

  lemma {:induction false} LossBreaks(h: Host, name: string, threshold: int, steps: seq<Step>)
    requires Sound(h) && AllAllowed(steps)
    ensures LosesDown(h, name, threshold, steps) ==>
              Broken(Down(h, name), Seen(h, name, threshold, steps), Down(After(h, name, threshold, steps), name))
    decreases |steps|
  {
    if LosesDown(h, name, threshold, steps) {
      var h' := Next(h, name, threshold, steps[0]);
      var rest, downAfter := Seen(h', name, threshold, steps[1..]), Down(After(h', name, threshold, steps[1..]), name);
      AllowedRest(steps);
      StepDown(h, name, threshold, steps[0]);
      if Loses(h, name, threshold, steps[0]) {
        StaysBroken(h', name, threshold, steps[1..]);
        assert [] + rest == rest;
      } else {
        LossBreaks(h', name, threshold, steps[1..]);
        BrokenFlip(Down(h, name), Down(h', name), rest, downAfter);
      }
    }
  }

  const FAILED := SwitchMonitor.Outcome(false, true)

  /** One failed poll of a managed switch that is up. */
  lemma FailOnce(h: Host, name: string, threshold: int, poll: Step)
    requires Sound(h) && Switch(h.memory, name).Some? && poll.Poll? && poll.outcome == FAILED
    requires !Switch(h.memory, name).value.unmanaged && !Down(h, name)
    ensures var s, h' := Switch(h.memory, name).value, Next(h, name, threshold, poll);
            if s.failures + 1 >= threshold then Down(h', name)
            else
              && !Down(h', name) && Switch(h'.memory, name).Some?
              && Switch(h'.memory, name).value.failures == s.failures + 1
              && !Switch(h'.memory, name).value.unmanaged
  {
    var s := Switch(h.memory, name).value;
    RecordedFacts(h, name, s, FAILED, threshold, poll.now, poll.clock);
    MuteKeeps(SwitchMonitor.Recorded(h, name, s, FAILED, threshold, poll.now, poll.clock), name, poll.now);
  }

  lemma OneStep(h: Host, name: string, threshold: int, step: Step, rest: seq<Step>)
    ensures var h', steps := Next(h, name, threshold, step), [step] + rest;
            && Seen(h, name, threshold, steps) == SeenIn(h, name, threshold, step) + Seen(h', name, threshold, rest)
            && After(h, name, threshold, steps) == After(h', name, threshold, rest)
            && (LosesDown(h, name, threshold, steps) <==>
                  Loses(h, name, threshold, step) || LosesDown(h', name, threshold, rest))
  {
    var steps := [step] + rest;
    assert steps[0] == step && steps[1..] == rest;
  }

  /** A managed switch that is up goes down when it fails often enough. */
  lemma {:induction false} FailsUntilDown(h: Host, name: string, threshold: int, now: Time, clock: string)
    returns (polls: seq<Step>)
    requires Sound(h) && Switch(h.memory, name).Some?
    requires !Switch(h.memory, name).value.unmanaged && !Down(h, name)
    ensures AllAllowed(polls) && !LosesDown(h, name, threshold, polls)
    ensures Seen(h, name, threshold, polls) == ["down"] && Down(After(h, name, threshold, polls), name)
    decreases threshold - Switch(h.memory, name).value.failures
  {
    var poll := Poll(FAILED, now, clock);
    var h' := Next(h, name, threshold, poll);
    FailOnce(h, name, threshold, poll);
    PollSound(h, name, threshold, poll);
    var rest: seq<Step> := [];
    if !Down(h', name) {
      rest := FailsUntilDown(h', name, threshold, now, clock);
    }
    OneStep(h, name, threshold, poll, rest);
    polls := [poll] + rest;
    assert ["down"] + [] == ["down"] == [] + ["down"];
  }

  /** A switch that is up - removed, unmanaged or healthy - can be registered, managed and polled until it is down. */
  lemma CanGoDown(h: Host, name: string, threshold: int) returns (steps: seq<Step>)
    requires Sound(h) && !Down(h, name)
    ensures AllAllowed(steps) && !LosesDown(h, name, threshold, steps)
    ensures Seen(h, name, threshold, steps) == ["down"] && Down(After(h, name, threshold, steps), name)
  {
    var register, manage := Other(Register(name, name, "auto")), Other(SetUnmanaged(name, false));
    var h1 := Next(h, name, threshold, register);
    CallKeepsDown(h, name, threshold, register.call);
    RegisterKeepsDown(h, name, register.call);
    var h2 := Next(h1, name, threshold, manage);
    CallKeepsDown(h1, name, threshold, manage.call);
    ManagedThen(h1, name);
    var polls := FailsUntilDown(h2, name, threshold, 0, "");
    Prepend(h1, name, threshold, manage, polls);
    Prepend(h, name, threshold, register, [manage] + polls);
    steps := [register] + ([manage] + polls);
  }

  lemma ManagedThen(h: Host, name: string)
    requires Sound(h) && Switch(h.memory, name).Some?
    ensures var found := Switch(Called(h, SetUnmanaged(name, false)).memory, name);
            found.Some? && !found.value.unmanaged
  {
    NameOf(h.memory.switches, name);
    WithFacts(h.memory, name, Get(h.memory.switches, name).(unmanaged := false));
  }

  /** A step that sees and loses nothing, before others. */
  lemma Prepend(h: Host, name: string, threshold: int, step: Step, rest: seq<Step>)
    requires !step.Poll? && Allowed(step) && !Down(h, name) && AllAllowed(rest)
    ensures var h', steps := Next(h, name, threshold, step), [step] + rest;
            && AllAllowed(steps)
            && Seen(h, name, threshold, steps) == Seen(h', name, threshold, rest)
            && After(h, name, threshold, steps) == After(h', name, threshold, rest)
            && LosesDown(h, name, threshold, steps) == LosesDown(h', name, threshold, rest)
  {
    var seen := Seen(Next(h, name, threshold, step), name, threshold, rest);
    OneStep(h, name, threshold, step, rest);
    assert [] + seen == seen;
  }

  lemma {:induction false} LosesSum(h: Host, name: string, threshold: int, a: seq<Step>, b: seq<Step>, ab: seq<Step>)
    requires ab == a + b
    ensures LosesDown(h, name, threshold, ab) <==>
            LosesDown(h, name, threshold, a) || LosesDown(After(h, name, threshold, a), name, threshold, b)
    decreases |a|
  {
    if a == [] {
      assert ab == b;
    } else {
      var step, rest, restB := a[0], a[1..], ab[1..];
      LosesSum(Next(h, name, threshold, step), name, threshold, rest, b, restB);
      OneStep(h, name, threshold, step, rest);
      OneStep(h, name, threshold, step, restB);
      assert [step] + rest == a && [step] + restB == ab;
    }
  }

  lemma {:induction false} SeenSum(h: Host, name: string, threshold: int, a: seq<Step>, b: seq<Step>, ab: seq<Step>)
    requires ab == a + b
    ensures Seen(h, name, threshold, ab)
         == Seen(h, name, threshold, a) + Seen(After(h, name, threshold, a), name, threshold, b)
    decreases |a|
  {
    if a == [] {
      assert ab == b;
    } else {
      var step, rest, restB := a[0], a[1..], ab[1..];
      var h' := Next(h, name, threshold, step);
      SeenSum(h', name, threshold, rest, b, restB);
      OneStep(h, name, threshold, step, rest);
      OneStep(h, name, threshold, step, restB);
      assert [step] + rest == a && [step] + restB == ab;
      Associative(SeenIn(h, name, threshold, step), Seen(h', name, threshold, rest),
                  Seen(After(h', name, threshold, rest), name, threshold, b));
    }
  }

  lemma Associative(x: seq<string>, y: seq<string>, z: seq<string>)
    ensures x + (y + z) == (x + y) + z
  {
  }

  lemma {:induction false} AlternatesSum(isDown: bool, a: seq<string>, b: seq<string>)
    ensures AlternatesFrom(isDown, a + b) <==> AlternatesFrom(isDown, a) && AlternatesFrom(DownAfter(isDown, a), b)
    decreases |a|
  {
    if a == [] {
      assert a + b == b;
    } else {
      AlternatesSum(!isDown, a[1..], b);
      assert (a + b)[0] == a[0] && (a + b)[1..] == a[1..] + b;
    }
  }

  /** However a run goes on without losing the switch while down, its transitions alternate. */
  ghost predicate KeepsAlternating(h: Host, name: string, threshold: int, steps: seq<Step>) {
    forall more :: AllAllowed(more) && !LosesDown(After(h, name, threshold, steps), name, threshold, more) ==>
      AlternatesFrom(Down(h, name), Seen(h, name, threshold, steps + more))
  }

  /**
   * The condition, exactly: from any state a run's transitions go on alternating if and only if no step of it took the
   * switch away while it was down - by remove_switch, or by a restart when the switch cannot be stored.
   */
  lemma AlternatesExactly(h: Host, name: string, threshold: int, steps: seq<Step>)
    requires Sound(h) && AllAllowed(steps)
    ensures KeepsAlternating(h, name, threshold, steps) <==> !LosesDown(h, name, threshold, steps)
  {
    var h' := After(h, name, threshold, steps);
    AfterSound(h, name, threshold, steps);
    if LosesDown(h, name, threshold, steps) {
      var more := BreaksLater(h, name, threshold, steps);
      assert !AlternatesFrom(Down(h, name), Seen(h, name, threshold, steps + more));
    } else {
      forall more | AllAllowed(more) && !LosesDown(h', name, threshold, more)
        ensures AlternatesFrom(Down(h, name), Seen(h, name, threshold, steps + more))
      {
        LosesSum(h, name, threshold, steps, more, steps + more);
        TransitionsAlternate(h, name, threshold, steps + more);
      }
    }
  }

  lemma BreaksLater(h: Host, name: string, threshold: int, steps: seq<Step>) returns (more: seq<Step>)
    requires Sound(h) && AllAllowed(steps)
    ensures AllAllowed(more) && !LosesDown(After(h, name, threshold, steps), name, threshold, more)
    ensures LosesDown(h, name, threshold, steps) ==>
              !AlternatesFrom(Down(h, name), Seen(h, name, threshold, steps + more))
  {
    var h' := After(h, name, threshold, steps);
    var seen := Seen(h, name, threshold, steps);
    more := [];
    LossBreaks(h, name, threshold, steps);
    if LosesDown(h, name, threshold, steps) && AlternatesFrom(Down(h, name), seen) {
      AfterSound(h, name, threshold, steps);
      more := CanGoDown(h', name, threshold);
      AlternatesSum(Down(h, name), seen, ["down"]);
    }
    SeenSum(h, name, threshold, steps, more, steps + more);
    AlternatesSum(Down(h, name), seen, Seen(h', name, threshold, more));
  }

  /** From any state in which the switch is down: deleted, found again and failing again, its next transition is DOWN. */
  lemma DownAgain(h: Host, name: string, threshold: int) returns (steps: seq<Step>)
    requires Sound(h) && Down(h, name)
    ensures AllAllowed(steps) && Seen(h, name, threshold, steps) == ["down"]
  {
    var remove := Other(Remove(name));
    var h' := Next(h, name, threshold, remove);
    CalledSound(h, remove.call);
    RemoveKeepsDown(h, name, name);
    var rest := CanGoDown(h', name, threshold);
    OneStep(h, name, threshold, remove, rest);
    steps := [remove] + rest;
    assert [] + ["down"] == ["down"];
  }

  /** So DOWN, DOWN is possible, for every threshold. */
  lemma RemovedWhileDown(name: string, threshold: int) returns (steps: seq<Step>)
    ensures AllAllowed(steps) && Seen(Host(EMPTY, None), name, threshold, steps) == ["down", "down"]
  {
    var h := Host(EMPTY, None);
    var first := CanGoDown(h, name, threshold);
    AfterSound(h, name, threshold, first);
    var second := DownAgain(After(h, name, threshold, first), name, threshold);
    steps := first + second;
    SeenSum(h, name, threshold, first, second, steps);
    assert ["down"] + ["down"] == ["down", "down"];
  }
}
