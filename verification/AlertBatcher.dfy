/**
 * The alert batcher as a lock-and-timer protocol. Shared is what the lock protects, plus the timer
 * objects; its three transformations are the critical sections. System interleaves them with the
 * clock, timers that have begun firing, running flush_all calls and mail being sent outside the lock.
 */
module AlertBatcher {
  import opened Dicts

  type Time = int

  /** One queued event; `at` is the clock reading of its add, a history variable. */
  datatype Event = Event(name: string, body: string, at: Time)

  datatype Batch = Batch(kind: string, entries: seq<Event>)

  /** Armed: waiting. Firing: past the point where cancel() can stop it, about to call _flush. */
  datatype Status = Armed | Firing | Done | Cancelled

  datatype Timer = Timer(kind: string, deadline: Time, status: Status)

  /** _pending, _timers (kind to timer number) and every timer ever started. */
  datatype Shared = Shared(pending: map<string, seq<Event>>, timers: map<string, nat>, clocks: seq<Timer>)

  function PendingOf(s: Shared, kind: string): seq<Event> {
    if kind in s.pending then s.pending[kind] else []
  }

  // ----- the critical sections -----

  /** add() under the lock. */
  function Added(s: Shared, window: int, kind: string, e: Event): Shared {
    var pending := s.pending[kind := PendingOf(s, kind) + [e]];
    if kind in s.timers then s.(pending := pending)
    else Shared(pending, s.timers[kind := |s.clocks|], s.clocks + [Timer(kind, e.at + window, Armed)])
  }

  /** _flush() under the lock: the timer entry is dropped, the timer itself is not cancelled. */
  function Flushed(s: Shared, kind: string): Shared {
    s.(pending := s.pending - {kind}, timers := s.timers - {kind})
  }

  /** cancel() on the given timers: only one that is still waiting is stopped. */
  function Cancel(clocks: seq<Timer>, ids: set<nat>): seq<Timer> {
    seq(|clocks|, i requires 0 <= i < |clocks| =>
      if i in ids && clocks[i].status == Armed then clocks[i].(status := Cancelled) else clocks[i])
  }

  /** flush_all() under its first lock. */
  function AllCancelled(s: Shared): Shared {
    s.(timers := map[], clocks := Cancel(s.clocks, s.timers.Values))
  }

  class AlertBatcher {
    const window: int
    var pending: map<string, seq<Event>>
    var timers: map<string, nat>
    var clocks: seq<Timer>

    constructor (windowSeconds: int)
      ensures window == if windowSeconds > 0 then windowSeconds else 0
      ensures Abs() == Shared(map[], map[], [])
    {
      window := if windowSeconds > 0 then windowSeconds else 0;
      pending, timers, clocks := map[], map[], [];
    }

    ghost function Abs(): Shared
      reads this
    {
      Shared(pending, timers, clocks)
    }

    /** Queues an event, or hands it back for sending at once when batching is disabled. */
    method Add(kind: string, name: string, body: string, now: Time) returns (send: Option<Batch>)
      modifies this
      ensures var e := Event(name, body, now);
              if window <= 0 then send == Some(Batch(kind, [e])) && Abs() == old(Abs())
              else send == None && Abs() == Added(old(Abs()), window, kind, e)
    {
      var e := Event(name, body, now);
      if window <= 0 {
        return Some(Batch(kind, [e]));
      }
      pending := pending[kind := (if kind in pending then pending[kind] else []) + [e]];
      if kind !in timers {
        clocks := clocks + [Timer(kind, now + window, Armed)];
        timers := timers[kind := |clocks| - 1];
      }
      send := None;
    }

    /** Pops a kind; a non-empty result is what the caller sends after releasing the lock. */
    method Flush(kind: string) returns (entries: seq<Event>)
      modifies this
      ensures entries == PendingOf(old(Abs()), kind)
      ensures Abs() == Flushed(old(Abs()), kind)
    {
      entries := if kind in pending then pending[kind] else [];
      pending := pending - {kind};
      timers := timers - {kind};
    }

    /** flush_all's first critical section: the kinds to flush, in some order. */
    method BeginFlushAll() returns (kinds: seq<string>)
      requires forall k :: k in timers ==> timers[k] < |clocks|
      modifies this
      ensures Abs() == AllCancelled(old(Abs()))
      ensures timers == map[] && pending == old(pending) && |clocks| == |old(clocks)|
      ensures forall i :: 0 <= i < |clocks| ==>
                var was := old(clocks[i]);
                && clocks[i].kind == was.kind && clocks[i].deadline == was.deadline
                && clocks[i].status
                   == if was.status.Armed? && exists k :: k in old(timers) && old(timers)[k] == i then Cancelled else was.status
      ensures (set k | k in kinds) == old(pending).Keys
    {
      kinds := [];
      var rest := pending.Keys;
      while rest != {}
        invariant rest <= pending.Keys && (set k | k in kinds) == pending.Keys - rest
        invariant Abs() == old(Abs())
      {
        var k :| k in rest;
        assert (set x | x in kinds + [k]) == (set x | x in kinds) + {k};
        kinds, rest := kinds + [k], rest - {k};
      }
      var running := timers.Values;
      while running != {}
        invariant running <= timers.Values && timers == old(timers) && pending == old(pending)
        invariant clocks == Cancel(old(clocks), timers.Values - running)
      {
        var id :| id in running;
        if clocks[id].status == Armed {
          clocks := clocks[id := clocks[id].(status := Cancelled)];
        }
        running := running - {id};
      }
      assert timers.Values - {} == timers.Values;
      timers := map[];
    }
  }

  // ----- the concurrent system -----

  /**
   * todo: the kinds each flush_all call has yet to flush. log: everything added. popped: batches in lock
   * order. inFlight: popped but not yet handed to the notifier. mailed: handed over.
   */
  datatype System = System(
    now: Time, shared: Shared, todo: seq<seq<string>>,
    log: seq<(string, Event)>, popped: seq<Batch>, inFlight: multiset<Batch>, mailed: seq<Batch>)

  datatype Step =
    | Tick(to: Time)
    | Add(kind: string, name: string, body: string)
    | TimerBeginsFiring(id: nat)
    | TimerFlush(id: nat)
    | FlushAllBegin(kinds: seq<string>)
    | FlushAllNext(caller: nat)
    | Send(batch: Batch)

  function Start(now: Time): System {
    System(now, Shared(map[], map[], []), [], [], [], multiset{}, [])
  }

  /** A batch leaves the lock for sending; an empty one is dropped. */
  function Popped(s: System, b: Batch): System {
    if b.entries == [] then s else s.(popped := s.popped + [b], inFlight := s.inFlight + multiset{b})
  }

  function FlushKind(s: System, kind: string): System {
    Popped(s, Batch(kind, PendingOf(s.shared, kind))).(shared := Flushed(s.shared, kind))
  }

  predicate Enabled(s: System, step: Step) {
    match step
    case Tick(to) => s.now <= to
    case Add(_, _, _) => true
    case TimerBeginsFiring(id) =>
      id < |s.shared.clocks| && s.shared.clocks[id].status == Armed && s.shared.clocks[id].deadline <= s.now
    case TimerFlush(id) => id < |s.shared.clocks| && s.shared.clocks[id].status == Firing
    case FlushAllBegin(kinds) => (set k | k in kinds) == s.shared.pending.Keys
    case FlushAllNext(caller) => caller < |s.todo| && s.todo[caller] != []
    case Send(batch) => batch in s.inFlight
  }

  function SetStatus(s: Shared, id: nat, status: Status): Shared
    requires id < |s.clocks|
  {
    s.(clocks := s.clocks[id := s.clocks[id].(status := status)])
  }

  function Apply(s: System, window: int, step: Step): System
    requires Enabled(s, step)
  {
    match step
    case Tick(to) => s.(now := to)
    case Add(kind, name, body) =>
      var e := Event(name, body, s.now);
      var s' := s.(log := s.log + [(kind, e)]);
      if window <= 0 then Popped(s', Batch(kind, [e])) else s'.(shared := Added(s.shared, window, kind, e))
    case TimerBeginsFiring(id) => s.(shared := SetStatus(s.shared, id, Firing))
    case TimerFlush(id) =>
      var s' := FlushKind(s, s.shared.clocks[id].kind);
      s'.(shared := SetStatus(s'.shared, id, Done))
    case FlushAllBegin(kinds) => s.(shared := AllCancelled(s.shared), todo := s.todo + [kinds])
    case FlushAllNext(caller) =>
      FlushKind(s, s.todo[caller][0]).(todo := s.todo[caller := s.todo[caller][1..]])
    case Send(batch) => s.(inFlight := s.inFlight - multiset{batch}, mailed := s.mailed + [batch])
  }

  /** The state after a schedule, or None when some step was not enabled. */
  function Run(now: Time, window: int, steps: seq<Step>): Option<System> {
    if steps == [] then Some(Start(now))
    else
      var s := Run(now, window, steps[..|steps| - 1]);
      var step := steps[|steps| - 1];
      if s.Some? && Enabled(s.value, step) then Some(Apply(s.value, window, step)) else None
  }

  // ----- what every reachable state satisfies -----

  /** The added events of a kind, in order. */
  function LogOf(log: seq<(string, Event)>, kind: string): seq<Event> {
    if log == [] then []
    else
      var last := log[|log| - 1];
      LogOf(log[..|log| - 1], kind) + if last.0 == kind then [last.1] else []
  }

  /** The popped batches of a kind, concatenated in lock order. */
  function Flat(batches: seq<Batch>, kind: string): seq<Event> {
    if batches == [] then []
    else
      var last := batches[|batches| - 1];
      Flat(batches[..|batches| - 1], kind) + if last.kind == kind then last.entries else []
  }

  /** Nothing lost, duplicated or reordered: popped batches followed by what is pending are the added events. */
  ghost predicate Conserved(s: System) {
    forall kind :: LogOf(s.log, kind) == Flat(s.popped, kind) + PendingOf(s.shared, kind)
  }

  /** Every popped batch is non-empty and is sent once: it is in flight or was mailed. */
  ghost predicate SentOnce(s: System) {
    && (forall b :: b in s.popped ==> b.entries != [])
    && multiset(s.popped) == s.inFlight + multiset(s.mailed)
  }

  predicate OnTodo(s: System, kind: string) {
    exists i :: 0 <= i < |s.todo| && kind in s.todo[i]
  }

  /** A timer in the table exists, is for that kind, and is waiting or firing. */
  ghost predicate TimersLive(s: Shared) {
    forall kind :: kind in s.timers ==>
      && s.timers[kind] < |s.clocks|
      && s.clocks[s.timers[kind]].kind == kind
      && s.clocks[s.timers[kind]].status in {Armed, Firing}
  }

  /** The kind's timer will flush the event within the window of its add. */
  ghost predicate Covered(s: Shared, window: int, kind: string, e: Event)
    requires TimersLive(s)
  {
    kind in s.timers && s.clocks[s.timers[kind]].deadline <= e.at + window
  }

  /** No event is stranded: its live timer is due in time, or a running flush_all still has its kind to do. */
  ghost predicate NotStranded(s: System, window: int)
    requires TimersLive(s.shared)
  {
    forall kind, e :: kind in s.shared.pending && e in s.shared.pending[kind] ==>
      Covered(s.shared, window, kind, e) || OnTodo(s, kind)
  }

  ghost predicate Invariant(s: System, window: int) {
    && TimersLive(s.shared)
    && Conserved(s)
    && SentOnce(s)
    && NotStranded(s, window)
    && (forall t :: t in s.shared.clocks ==> t.deadline <= s.now + window)
    && (forall kind :: kind in s.shared.pending ==> s.shared.pending[kind] != [])
    && (window <= 0 ==> s.shared.pending == map[])
  }

  lemma LogOfSnoc(log: seq<(string, Event)>, entry: (string, Event), kind: string)
    ensures LogOf(log + [entry], kind) == LogOf(log, kind) + if entry.0 == kind then [entry.1] else []
  {
    assert (log + [entry])[..|log|] == log;
  }

  lemma FlatSnoc(batches: seq<Batch>, b: Batch, kind: string)
    ensures Flat(batches + [b], kind) == Flat(batches, kind) + if b.kind == kind then b.entries else []
  {
    assert (batches + [b])[..|batches|] == batches;
  }

  lemma PoppedKeeps(s: System, b: Batch)
    requires SentOnce(s)
    ensures SentOnce(Popped(s, b))
    ensures forall kind :: Flat(Popped(s, b).popped, kind) == Flat(s.popped, kind) + if b.kind == kind then b.entries else []
  {
    if b.entries != [] {
      forall kind ensures Flat(s.popped + [b], kind) == Flat(s.popped, kind) + if b.kind == kind then b.entries else [] {
        FlatSnoc(s.popped, b, kind);
      }
    }
  }

  lemma Later(all: seq<Event>, popped: seq<Event>, waiting: seq<Event>, one: seq<Event>)
    requires all == popped + waiting
    ensures all + one == popped + (waiting + one)
  {
  }

  /** Without batching: the event is a batch of its own. */
  lemma SendNowConserves(s: System, kind: string, e: Event)
    requires Conserved(s) && SentOnce(s) && s.shared.pending == map[]
    ensures var s' := Popped(s.(log := s.log + [(kind, e)]), Batch(kind, [e])); Conserved(s') && SentOnce(s')
  {
    var b := Batch(kind, [e]);
    var s' := Popped(s.(log := s.log + [(kind, e)]), b);
    forall k ensures LogOf(s'.log, k) == Flat(s'.popped, k) + PendingOf(s'.shared, k) {
      assert LogOf(s.log, k) == Flat(s.popped, k) + [];
      LogOfSnoc(s.log, (kind, e), k);
      FlatSnoc(s.popped, b, k);
    }
  }

  lemma QueueConserves(s: System, window: int, kind: string, e: Event)
    requires Conserved(s)
    ensures Conserved(s.(log := s.log + [(kind, e)], shared := Added(s.shared, window, kind, e)))
  {
    var s' := s.(log := s.log + [(kind, e)], shared := Added(s.shared, window, kind, e));
    forall k ensures LogOf(s'.log, k) == Flat(s'.popped, k) + PendingOf(s'.shared, k) {
      var one := if k == kind then [e] else [];
      LogOfSnoc(s.log, (kind, e), k);
      assert LogOf(s.log, k) == Flat(s.popped, k) + PendingOf(s.shared, k);
      Later(LogOf(s.log, k), Flat(s.popped, k), PendingOf(s.shared, k), one);
      assert PendingOf(s'.shared, k) == PendingOf(s.shared, k) + one;
    }
  }

  lemma AddConserves(s: System, window: int, kind: string, name: string, body: string)
    requires Conserved(s) && SentOnce(s) && (window <= 0 ==> s.shared.pending == map[])
    ensures var s' := Apply(s, window, Add(kind, name, body)); Conserved(s') && SentOnce(s')
  {
    var e := Event(name, body, s.now);
    if window <= 0 {
      SendNowConserves(s, kind, e);
    } else {
      QueueConserves(s, window, kind, e);
    }
  }

  lemma AddCovers(s: System, window: int, kind: string, name: string, body: string)
    requires Invariant(s, window) && window > 0
    ensures var s' := Apply(s, window, Add(kind, name, body)); TimersLive(s'.shared) && NotStranded(s', window)
  {
    var added := Event(name, body, s.now);
    var s' := Apply(s, window, Add(kind, name, body));
    forall k, e | k in s'.shared.pending && e in s'.shared.pending[k]
      ensures Covered(s'.shared, window, k, e) || OnTodo(s', k)
    {
      if k == kind && e == added {
        if kind in s.shared.timers {
          assert s.shared.clocks[s.shared.timers[kind]] in s.shared.clocks;
        }
      } else {
        assert k in s.shared.pending && e in s.shared.pending[k];
        assert Covered(s.shared, window, k, e) || OnTodo(s, k);
      }
    }
  }

  lemma AddKeeps(s: System, window: int, kind: string, name: string, body: string)
    requires Invariant(s, window)
    ensures Invariant(Apply(s, window, Add(kind, name, body)), window)
  {
    AddConserves(s, window, kind, name, body);
    if window > 0 {
      AddCovers(s, window, kind, name, body);
    }
  }

  lemma FlushConserves(s: System, kind: string)
    requires Conserved(s) && SentOnce(s)
    ensures Conserved(FlushKind(s, kind)) && SentOnce(FlushKind(s, kind))
  {
    var s' := FlushKind(s, kind);
    PoppedKeeps(s, Batch(kind, PendingOf(s.shared, kind)));
    forall k ensures LogOf(s'.log, k) == Flat(s'.popped, k) + PendingOf(s'.shared, k) {
      assert LogOf(s.log, k) == Flat(s.popped, k) + PendingOf(s.shared, k);
    }
  }

  lemma FlushKeeps(s: System, window: int, kind: string)
    requires Invariant(s, window)
    ensures Invariant(FlushKind(s, kind), window)
    ensures kind !in FlushKind(s, kind).shared.pending && kind !in FlushKind(s, kind).shared.timers
  {
    var s' := FlushKind(s, kind);
    FlushConserves(s, kind);
    forall k, e | k in s'.shared.pending && e in s'.shared.pending[k]
      ensures Covered(s'.shared, window, k, e) || OnTodo(s', k)
    {
      assert Covered(s.shared, window, k, e) || OnTodo(s, k);
    }
  }

  lemma FlushAllBeginKeeps(s: System, window: int, kinds: seq<string>)
    requires Invariant(s, window) && Enabled(s, FlushAllBegin(kinds))
    ensures Invariant(Apply(s, window, FlushAllBegin(kinds)), window)
  {
    var s' := Apply(s, window, FlushAllBegin(kinds));
    forall k, e | k in s'.shared.pending && e in s'.shared.pending[k]
      ensures OnTodo(s', k)
    {
      assert k in (set x | x in kinds);
      assert s'.todo[|s.todo|] == kinds;
    }
  }

  lemma StatusKeeps(s: System, window: int, id: nat, status: Status)
    requires Invariant(s, window) && id < |s.shared.clocks|
    requires status == Firing || forall k :: k in s.shared.timers ==> s.shared.timers[k] != id
    ensures Invariant(s.(shared := SetStatus(s.shared, id, status)), window)
  {
    var s' := s.(shared := SetStatus(s.shared, id, status));
    forall k, e | k in s'.shared.pending && e in s'.shared.pending[k]
      ensures Covered(s'.shared, window, k, e) || OnTodo(s', k)
    {
      assert Covered(s.shared, window, k, e) || OnTodo(s, k);
    }
  }

  /** flush_all's next _flush: its kind is popped, every other kind stays on the list. */
  lemma FlushAllNextKeeps(s: System, window: int, caller: nat)
    requires Invariant(s, window) && Enabled(s, FlushAllNext(caller))
    ensures Invariant(Apply(s, window, FlushAllNext(caller)), window)
  {
    var kind := s.todo[caller][0];
    var m, s' := FlushKind(s, kind), Apply(s, window, FlushAllNext(caller));
    FlushKeeps(s, window, kind);
    forall k, e | k in s'.shared.pending && e in s'.shared.pending[k]
      ensures Covered(s'.shared, window, k, e) || OnTodo(s', k)
    {
      assert Covered(m.shared, window, k, e) || OnTodo(m, k);
      if OnTodo(m, k) {
        var i :| 0 <= i < |m.todo| && k in m.todo[i];
        assert k in s'.todo[i];
      }
    }
  }

  lemma StepKeeps(s: System, window: int, step: Step)
    requires Invariant(s, window) && Enabled(s, step)
    ensures Invariant(Apply(s, window, step), window)
  {
    match step
    case Tick(to) =>
      var s' := Apply(s, window, step);
      forall k, e | k in s'.shared.pending && e in s'.shared.pending[k]
        ensures Covered(s'.shared, window, k, e) || OnTodo(s', k)
      {
        assert Covered(s.shared, window, k, e) || OnTodo(s, k);
      }
    case Add(kind, name, body) => AddKeeps(s, window, kind, name, body);
    case TimerBeginsFiring(id) => StatusKeeps(s, window, id, Firing);
    case TimerFlush(id) =>
      var kind := s.shared.clocks[id].kind;
      FlushKeeps(s, window, kind);
      StatusKeeps(FlushKind(s, kind), window, id, Done);
    case FlushAllBegin(kinds) => FlushAllBeginKeeps(s, window, kinds);
    case FlushAllNext(caller) => FlushAllNextKeeps(s, window, caller);
    case Send(batch) =>
      var s' := Apply(s, window, step);
      forall k, e | k in s'.shared.pending && e in s'.shared.pending[k]
        ensures Covered(s'.shared, window, k, e) || OnTodo(s', k)
      {
        assert Covered(s.shared, window, k, e) || OnTodo(s, k);
      }
  }

  /** Every interleaving: nothing lost, duplicated, reordered, sent empty, sent twice or stranded. */
  lemma {:induction false} RunSafe(now: Time, window: int, steps: seq<Step>)
    ensures var s := Run(now, window, steps); s.Some? ==> Invariant(s.value, window)
  {
    if steps != [] {
      RunSafe(now, window, steps[..|steps| - 1]);
      var s := Run(now, window, steps[..|steps| - 1]);
      if s.Some? && Enabled(s.value, steps[|steps| - 1]) {
        StepKeeps(s.value, window, steps[|steps| - 1]);
      }
    }
  }

  // ----- how long events wait -----

  /** No timer that is waiting or firing is overdue by more than `slack`. */
  ghost predicate Punctual(s: System, slack: int) {
    forall t :: t in s.shared.clocks && t.status in {Armed, Firing} ==> s.now <= t.deadline + slack
  }

  /**
   * The delivery bound: with punctual timers no event waits longer than the window plus the timers' slack, unless a
   * running flush_all has taken over its kind.
   */
  lemma WaitBound(now: Time, window: int, steps: seq<Step>, slack: int, kind: string, e: Event)
    requires var s := Run(now, window, steps);
             s.Some? && Punctual(s.value, slack) && kind in s.value.shared.pending && e in s.value.shared.pending[kind]
    ensures var s := Run(now, window, steps).value; s.now <= e.at + window + slack || OnTodo(s, kind)
  {
    RunSafe(now, window, steps);
    var s := Run(now, window, steps).value;
    if !OnTodo(s, kind) {
      assert Covered(s.shared, window, kind, e);
      assert s.shared.clocks[s.shared.timers[kind]] in s.shared.clocks;
    }
  }

  // ----- how early a timer flushes -----

  /** What a timer flush should find: events, the oldest of which has been collected for the whole window. */
  predicate Timely(s: System, window: int, kind: string) {
    var waiting := PendingOf(s.shared, kind);
    waiting != [] && waiting[0].at + window <= s.now
  }

  /** A timer in the table belongs to pending events and is due no earlier than a window after the oldest of them. */
  ghost predicate TableTimersPatient(s: Shared, window: int)
    requires TimersLive(s)
  {
    forall kind :: kind in s.timers ==>
      && PendingOf(s, kind) != []
      && PendingOf(s, kind)[0].at + window <= s.clocks[s.timers[kind]].deadline
  }

  ghost predicate Patient(s: System, window: int) {
    && TimersLive(s.shared) && TableTimersPatient(s.shared, window)
    && (forall kind :: PendingOf(s.shared, kind) != [] ==> PendingOf(s.shared, kind)[0].at <= s.now)
    && (forall t :: t in s.shared.clocks && t.status == Firing ==> t.deadline <= s.now)
  }

  /** Every timer that is still to flush is its kind's table entry. */
  ghost predicate NoStaleTimers(s: Shared) {
    forall id :: 0 <= id < |s.clocks| && s.clocks[id].status in {Armed, Firing} ==>
      s.clocks[id].kind in s.timers && s.timers[s.clocks[id].kind] == id
  }

  lemma AddPatient(s: System, window: int, kind: string, name: string, body: string)
    requires Patient(s, window) && window > 0
    ensures Patient(Apply(s, window, Add(kind, name, body)), window)
    ensures NoStaleTimers(s.shared) ==> NoStaleTimers(Apply(s, window, Add(kind, name, body)).shared)
  {
    var s' := Apply(s, window, Add(kind, name, body));
    forall k ensures PendingOf(s'.shared, k) != [] ==> PendingOf(s'.shared, k)[0].at <= s'.now {
      assert PendingOf(s.shared, k) != [] ==> PendingOf(s.shared, k)[0].at <= s.now;
    }
    forall k | k in s'.shared.timers
      ensures PendingOf(s'.shared, k) != []
              && PendingOf(s'.shared, k)[0].at + window <= s'.shared.clocks[s'.shared.timers[k]].deadline
    {
      assert PendingOf(s.shared, k) != [] ==> PendingOf(s.shared, k)[0].at <= s.now;
    }
  }

  lemma FlushPatient(s: System, window: int, kind: string)
    requires Patient(s, window)
    ensures Patient(FlushKind(s, kind), window)
  {
    var s' := FlushKind(s, kind);
    forall k ensures PendingOf(s'.shared, k) == if k == kind then [] else PendingOf(s.shared, k) {
    }
  }

  lemma StatusPatient(s: System, window: int, id: nat, status: Status)
    requires Patient(s, window) && id < |s.shared.clocks|
    requires if status == Firing then s.shared.clocks[id].deadline <= s.now
             else status == Done && forall k :: k in s.shared.timers ==> s.shared.timers[k] != id
    ensures Patient(s.(shared := SetStatus(s.shared, id, status)), window)
  {
    var s' := s.(shared := SetStatus(s.shared, id, status));
    forall k ensures PendingOf(s'.shared, k) == PendingOf(s.shared, k) {
    }
    forall t | t in s'.shared.clocks && t.status == Firing ensures t.deadline <= s'.now {
      var i :| 0 <= i < |s'.shared.clocks| && s'.shared.clocks[i] == t;
      assert i != id ==> s.shared.clocks[i] == t && t in s.shared.clocks;
    }
  }

  lemma FlushAllBeginPatient(s: System, window: int, kinds: seq<string>)
    requires Patient(s, window) && Enabled(s, FlushAllBegin(kinds))
    ensures Patient(Apply(s, window, FlushAllBegin(kinds)), window)
  {
    var s' := Apply(s, window, FlushAllBegin(kinds));
    forall k ensures PendingOf(s'.shared, k) == PendingOf(s.shared, k) {
    }
    forall t | t in s'.shared.clocks && t.status == Firing ensures t.deadline <= s'.now {
      var i :| 0 <= i < |s'.shared.clocks| && s'.shared.clocks[i] == t;
      assert s.shared.clocks[i] == t && t in s.shared.clocks;
    }
  }

  lemma StepPatient(s: System, window: int, step: Step)
    requires Patient(s, window) && window > 0 && Enabled(s, step)
    ensures Patient(Apply(s, window, step), window)
  {
    match step
    case Tick(to) =>
    case Add(kind, name, body) => AddPatient(s, window, kind, name, body);
    case TimerBeginsFiring(id) => StatusPatient(s, window, id, Firing);
    case TimerFlush(id) =>
      var kind := s.shared.clocks[id].kind;
      FlushPatient(s, window, kind);
      StatusPatient(FlushKind(s, kind), window, id, Done);
    case FlushAllBegin(kinds) => FlushAllBeginPatient(s, window, kinds);
    case FlushAllNext(caller) => FlushPatient(s, window, s.todo[caller][0]);
    case Send(batch) =>
  }

  /** Without flush_all no timer goes stale: the only flush of a kind is by its own table entry. */
  lemma StepFresh(s: System, window: int, step: Step)
    requires Patient(s, window) && window > 0 && Enabled(s, step)
    requires NoStaleTimers(s.shared) && s.todo == [] && !step.FlushAllBegin?
    ensures NoStaleTimers(Apply(s, window, step).shared) && Apply(s, window, step).todo == []
  {
    if step.Add? {
      AddPatient(s, window, step.kind, step.name, step.body);
    }
  }

  predicate UsesFlushAll(steps: seq<Step>) {
    exists i :: 0 <= i < |steps| && steps[i].FlushAllBegin?
  }

  lemma {:induction false} RunPatient(now: Time, window: int, steps: seq<Step>)
    requires window > 0 && Run(now, window, steps).Some?
    ensures var s := Run(now, window, steps).value;
            && Patient(s, window)
            && (!UsesFlushAll(steps) ==> NoStaleTimers(s.shared) && s.todo == [])
  {
    if steps != [] {
      var n := |steps| - 1;
      RunPatient(now, window, steps[..n]);
      var s := Run(now, window, steps[..n]).value;
      StepPatient(s, window, steps[n]);
      if !UsesFlushAll(steps) {
        assert forall i :: 0 <= i < n ==> steps[..n][i] == steps[i];
        StepFresh(s, window, steps[n]);
      }
    }
  }

  /** In every reachable state only a timer that is not its kind's table entry can flush early. */
  lemma TableTimerIsTimely(now: Time, window: int, steps: seq<Step>, id: nat)
    requires window > 0 && Run(now, window, steps).Some?
    requires var s := Run(now, window, steps).value;
             && Enabled(s, TimerFlush(id))
             && s.shared.clocks[id].kind in s.shared.timers && s.shared.timers[s.shared.clocks[id].kind] == id
    ensures var s := Run(now, window, steps).value; Timely(s, window, s.shared.clocks[id].kind)
  {
    RunPatient(now, window, steps);
    var s := Run(now, window, steps).value;
    assert s.shared.clocks[id] in s.shared.clocks;
  }

  /** Whatever the schedule, it leads to no state in which a timer may flush early. */
  ghost predicate NeverEarly(now: Time, window: int, steps: seq<Step>) {
    var s := Run(now, window, steps);
    s.Some? ==> forall id: nat :: Enabled(s.value, TimerFlush(id)) ==>
                  Timely(s.value, window, s.value.shared.clocks[id].kind)
  }

  /**
   * The collection window, exactly: every timer of every schedule lets the oldest event wait for the whole window if
   * and only if flush_all is never called.
   */
  lemma TimelyExactly(window: int, flushAll: bool)
    requires window > 0
    ensures !flushAll <==>
            forall now, steps :: !UsesFlushAll(steps) || flushAll ==> NeverEarly(now, window, steps)
  {
    if flushAll {
      var steps, s := StaleTimerFlushesEarly("down", window);
      assert !NeverEarly(0, window, steps);
    } else {
      forall now, steps | !UsesFlushAll(steps) ensures NeverEarly(now, window, steps) {
        if Run(now, window, steps).Some? {
          RunPatient(now, window, steps);
          var s := Run(now, window, steps).value;
          forall id: nat | Enabled(s, TimerFlush(id)) ensures Timely(s, window, s.shared.clocks[id].kind) {
            TableTimerIsTimely(now, window, steps, id);
          }
        }
      }
    }
  }

  /** A schedule that reaches s can be continued with any step enabled in s. */
  lemma Follow(now: Time, window: int, steps: seq<Step>, s: System, step: Step) returns (longer: seq<Step>)
    requires Run(now, window, steps) == Some(s) && Enabled(s, step)
    ensures Run(now, window, longer) == Some(Apply(s, window, step))
  {
    longer := steps + [step];
    assert longer[..|longer| - 1] == steps;
  }

  /** The value of Added when the kind has no timer. */
  lemma AddedWithoutTimer(s: Shared, window: int, kind: string, e: Event, entries: seq<Event>)
    requires kind !in s.timers && PendingOf(s, kind) + [e] == entries
    ensures Added(s, window, kind, e)
         == Shared(s.pending[kind := entries], s.timers[kind := |s.clocks|], s.clocks + [Timer(kind, e.at + window, Armed)])
  {
  }

  /** What flush_all's next _flush leaves when its kind is all there is. */
  lemma OnlyKindFlushed(s: System, window: int, kind: string, entries: seq<Event>, id: nat, clocks: seq<Timer>)
    requires s.shared == Shared(map[kind := entries], map[kind := id], clocks) && s.todo == [[kind]]
    ensures Apply(s, window, FlushAllNext(0)).shared == Shared(map[], map[], clocks)
    ensures Apply(s, window, FlushAllNext(0)).now == s.now
  {
    assert s.shared.pending.Keys == {kind} && s.shared.timers.Keys == {kind};
    assert s.shared.pending - {kind} == map[] && s.shared.timers - {kind} == map[];
  }

  /** flush_all's _flush drops a timer that was armed after its first critical section, without cancelling it. */
  lemma StaleTimerArmed(kind: string, window: int) returns (steps: seq<Step>, s: System)
    requires window > 0
    ensures Run(0, window, steps) == Some(s)
    ensures && s.now == 0 && s.shared.pending == map[] && s.shared.timers == map[]
            && s.shared.clocks == [Timer(kind, window, Cancelled), Timer(kind, window, Armed)]
  {
    var a, b := Event("a", "", 0), Event("b", "", 0);
    AddedWithoutTimer(Start(0).shared, window, kind, a, [a]);
    steps := Follow(0, window, [], Start(0), Add(kind, "a", ""));
    var s1 := Apply(Start(0), window, Add(kind, "a", ""));
    assert s1.shared == Shared(map[kind := [a]], map[kind := 0], [Timer(kind, window, Armed)]);
    assert (set k | k in [kind]) == {kind} == s1.shared.pending.Keys;
    steps := Follow(0, window, steps, s1, FlushAllBegin([kind]));
    var s2 := Apply(s1, window, FlushAllBegin([kind]));
    assert s1.shared.timers.Values == {0};
    assert s2.shared == Shared(map[kind := [a]], map[], [Timer(kind, window, Cancelled)]);
    AddedWithoutTimer(s2.shared, window, kind, b, [a, b]);
    steps := Follow(0, window, steps, s2, Add(kind, "b", ""));
    var s3 := Apply(s2, window, Add(kind, "b", ""));
    OnlyKindFlushed(s3, window, kind, [a, b], 1, [Timer(kind, window, Cancelled), Timer(kind, window, Armed)]);
    steps := Follow(0, window, steps, s3, FlushAllNext(0));
    s := Apply(s3, window, FlushAllNext(0));
  }

  /** For every window such a stale timer may then flush an event at the very moment it was added. */
  lemma StaleTimerFlushesEarly(kind: string, window: int) returns (steps: seq<Step>, s: System)
    requires window > 0
    ensures Run(0, window, steps) == Some(s) && Enabled(s, TimerFlush(1)) && s.shared.clocks[1].kind == kind
    ensures s.now == window && PendingOf(s.shared, kind) == [Event("c", "", window)]
  {
    var c := Event("c", "", window);
    steps, s := StaleTimerArmed(kind, window);
    steps := Follow(0, window, steps, s, Tick(window));
    var s5 := Apply(s, window, Tick(window));
    AddedWithoutTimer(s5.shared, window, kind, c, [c]);
    steps := Follow(0, window, steps, s5, Add(kind, "c", ""));
    var s6 := Apply(s5, window, Add(kind, "c", ""));
    assert s6.shared.pending == map[kind := [c]] && s6.shared.clocks[1] == Timer(kind, window, Armed);
    steps := Follow(0, window, steps, s6, TimerBeginsFiring(1));
    s := Apply(s6, window, TimerBeginsFiring(1));
  }
}
