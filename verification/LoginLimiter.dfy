/** The login throttle: pruned per-key deques against the full history of attempts. */
module LoginLimiter {

  type Time = real

  datatype Attempt = Failure(ip: string, user: string, at: Time) | Success(ip: string, user: string)

  /** Which of an attempt's two keys a table is for. */
  datatype Side = Ip | User

  function KeyOf(a: Attempt, side: Side): string {
    if side.Ip? then a.ip else a.user
  }

  // ----- full history -----

  /** Times of the failures of a key since its last success, oldest first. */
  function Failures(log: seq<Attempt>, side: Side, key: string): seq<Time> {
    if log == [] then [] else Extended(Failures(log[..|log| - 1], side, key), log[|log| - 1], side, key)
  }

  /** What one more attempt does to them. */
  function Extended(times: seq<Time>, a: Attempt, side: Side, key: string): seq<Time> {
    if KeyOf(a, side) != key then times else if a.Success? then [] else times + [a.at]
  }

  /** How many of the times are no older than the cutoff. */
  function CountFrom(times: seq<Time>, cutoff: Time): nat {
    if times == [] then 0
    else CountFrom(times[..|times| - 1], cutoff) + if times[|times| - 1] >= cutoff then 1 else 0
  }

  /** Failures of a key inside the window since its last success. */
  function InWindow(log: seq<Attempt>, side: Side, key: string, window: Time, now: Time): nat {
    CountFrom(Failures(log, side, key), now - window)
  }

  // ----- the count, read off the history -----

  /** Attempt i is a failure from the address that counts: recent enough, with no success from the address after it. */
  predicate CountsForIp(log: seq<Attempt>, i: nat, ip: string, cutoff: Time)
    requires i < |log|
  {
    && log[i].Failure? && log[i].ip == ip && log[i].at >= cutoff
    && forall j :: i < j < |log| && log[j].Success? ==> log[j].ip != ip
  }

  predicate CountsForUser(log: seq<Attempt>, i: nat, user: string, cutoff: Time)
    requires i < |log|
  {
    && log[i].Failure? && log[i].user == user && log[i].at >= cutoff
    && forall j :: i < j < |log| && log[j].Success? ==> log[j].user != user
  }

  function IpFailures(log: seq<Attempt>, ip: string, cutoff: Time): set<nat> {
    set i: nat | i < |log| && CountsForIp(log, i, ip, cutoff)
  }

  function UserFailures(log: seq<Attempt>, user: string, cutoff: Time): set<nat> {
    set i: nat | i < |log| && CountsForUser(log, i, user, cutoff)
  }

  /** Either of the two, by side. */
  predicate Counts(log: seq<Attempt>, i: nat, side: Side, key: string, cutoff: Time)
    requires i < |log|
  {
    match side
    case Ip => CountsForIp(log, i, key, cutoff)
    case User => CountsForUser(log, i, key, cutoff)
  }

  function Counted(log: seq<Attempt>, side: Side, key: string, cutoff: Time): set<nat> {
    set i: nat | i < |log| && Counts(log, i, side, key, cutoff)
  }

  lemma CountsStep(log: seq<Attempt>, a: Attempt, i: nat, side: Side, key: string, cutoff: Time)
    requires i < |log|
    ensures Counts(log + [a], i, side, key, cutoff)
            <==> Counts(log, i, side, key, cutoff) && !(a.Success? && (if side.Ip? then a.ip else a.user) == key)
  {
    var all := log + [a];
    assert all[i] == log[i] && all[|log|] == a;
    assert forall j :: 0 <= j < |log| ==> all[j] == log[j];
  }

  lemma CountedStep(log: seq<Attempt>, a: Attempt, side: Side, key: string, cutoff: Time)
    ensures var before, after := Counted(log, side, key, cutoff), Counted(log + [a], side, key, cutoff);
            && ((if side.Ip? then a.ip else a.user) != key ==> after == before)
            && ((if side.Ip? then a.ip else a.user) == key && a.Success? ==> after == {})
            && ((if side.Ip? then a.ip else a.user) == key && a.Failure? ==>
                  after == before + if a.at >= cutoff then {|log|} else {})
  {
    var before, after := Counted(log, side, key, cutoff), Counted(log + [a], side, key, cutoff);
    forall i: nat | i < |log|
      ensures i in after <==> i in before && !(a.Success? && (if side.Ip? then a.ip else a.user) == key)
    {
      CountsStep(log, a, i, side, key, cutoff);
    }
    assert (log + [a])[|log|] == a;
  }

  /** The count is the number of failures of the key that are recent and have had no success of the key since. */
  lemma {:induction false} CountedIs(log: seq<Attempt>, side: Side, key: string, cutoff: Time)
    ensures |Counted(log, side, key, cutoff)| == CountFrom(Failures(log, side, key), cutoff)
    decreases |log|
  {
    if log == [] {
      assert Counted(log, side, key, cutoff) == {};
    } else {
      var before, a := log[..|log| - 1], log[|log| - 1];
      assert log == before + [a];
      CountedIs(before, side, key, cutoff);
      CountedStep(before, a, side, key, cutoff);
      assert |before| !in Counted(before, side, key, cutoff);
      if a.Failure? {
        CountSnoc(Failures(before, side, key), a.at, cutoff);
      }
    }
  }

  lemma InWindowIs(log: seq<Attempt>, key: string, window: Time, now: Time)
    ensures InWindow(log, Ip, key, window, now) == |IpFailures(log, key, now - window)|
    ensures InWindow(log, User, key, window, now) == |UserFailures(log, key, now - window)|
  {
    CountedIs(log, Ip, key, now - window);
    CountedIs(log, User, key, now - window);
    assert Counted(log, Ip, key, now - window) == IpFailures(log, key, now - window);
    assert Counted(log, User, key, now - window) == UserFailures(log, key, now - window);
  }

  // ----- pruned deques -----

  /** Oldest first, and none later than the clock. */
  predicate Ascending(times: seq<Time>, clock: Time) {
    times == [] || (times[|times| - 1] <= clock && Ascending(times[..|times| - 1], times[|times| - 1]))
  }

  /** The two lists count alike from any cutoff that can still be asked for. */
  ghost predicate CountAlike(a: seq<Time>, b: seq<Time>, cutoff: Time) {
    forall c :: c >= cutoff ==> CountFrom(a, c) == CountFrom(b, c)
  }

  /** A pruned deque stands for the full list of failures. */
  ghost predicate Holds(deque: seq<Time>, full: seq<Time>, cutoff: Time, clock: Time) {
    Ascending(deque, clock) && CountAlike(deque, full, cutoff)
  }

  lemma {:induction false} AscendingLater(times: seq<Time>, clock: Time, later: Time)
    requires Ascending(times, clock) && clock <= later
    ensures Ascending(times, later)
  {
  }

  lemma {:induction false} AscendingTail(times: seq<Time>, clock: Time)
    requires Ascending(times, clock) && times != []
    ensures Ascending(times[1..], clock)
  {
    var n := |times| - 1;
    if n > 0 {
      AscendingTail(times[..n], times[n]);
      assert times[1..][..n - 1] == times[..n][1..];
    }
  }

  /** Once its front is inside the window, all of a deque is. */
  lemma {:induction false} CountAll(times: seq<Time>, clock: Time, cutoff: Time)
    requires Ascending(times, clock) && (times == [] || times[0] >= cutoff)
    ensures CountFrom(times, cutoff) == |times|
    ensures times != [] ==> clock >= cutoff
  {
    if times != [] {
      var n := |times| - 1;
      CountAll(times[..n], times[n], cutoff);
    }
  }

  lemma {:induction false} CountCons(times: seq<Time>, cutoff: Time)
    requires times != []
    ensures CountFrom(times, cutoff) == CountFrom(times[1..], cutoff) + if times[0] >= cutoff then 1 else 0
  {
    var n := |times| - 1;
    if n > 0 {
      CountCons(times[..n], cutoff);
      assert times[1..][..n - 1] == times[..n][1..];
    }
  }

  lemma CountSnoc(times: seq<Time>, t: Time, cutoff: Time)
    ensures CountFrom(times + [t], cutoff) == CountFrom(times, cutoff) + if t >= cutoff then 1 else 0
  {
    assert (times + [t])[..|times|] == times;
  }

  lemma HoldsSnoc(deque: seq<Time>, full: seq<Time>, before: Time, cutoff: Time, clock: Time, t: Time)
    requires Holds(deque, full, before, clock) && before <= cutoff && clock <= t
    ensures Holds(deque + [t], full + [t], cutoff, t)
  {
    assert (deque + [t])[..|deque|] == deque;
    AscendingLater(deque, clock, t);
    forall c | c >= cutoff ensures CountFrom(deque + [t], c) == CountFrom(full + [t], c) {
      CountSnoc(deque, t, c);
      CountSnoc(full, t, c);
    }
  }

  /** _prune: drops from the front while older than the cutoff. What is left is exactly what counts from the cutoff on. */
  method Prune(deque: seq<Time>, cutoff: Time, ghost clock: Time) returns (pruned: seq<Time>)
    requires Ascending(deque, clock)
    ensures Ascending(pruned, clock) && CountAlike(pruned, deque, cutoff)
    ensures |pruned| == CountFrom(deque, cutoff)
    ensures |pruned| <= |deque| && pruned == deque[|deque| - |pruned|..]
  {
    pruned := deque;
    while pruned != [] && pruned[0] < cutoff
      invariant Ascending(pruned, clock) && CountAlike(pruned, deque, cutoff)
      invariant |pruned| <= |deque| && pruned == deque[|deque| - |pruned|..]
    {
      forall c | c >= cutoff ensures CountFrom(pruned[1..], c) == CountFrom(deque, c) {
        CountCons(pruned, c);
      }
      AscendingTail(pruned, clock);
      pruned := pruned[1..];
    }
    CountAll(pruned, clock, cutoff);
  }

  // ----- tables of deques -----

  /** A missing key is an empty deque. */
  function Deque(m: map<string, seq<Time>>, key: string): seq<Time> {
    if key in m then m[key] else []
  }

  ghost predicate HoldsTable(m: map<string, seq<Time>>, log: seq<Attempt>, side: Side, cutoff: Time, clock: Time) {
    forall key :: Holds(Deque(m, key), Failures(log, side, key), cutoff, clock)
  }

  /** Pruning one key's deque is unobservable, and its new length is the count over the full history. */
  lemma PruneKeeps(m: map<string, seq<Time>>, log: seq<Attempt>, side: Side, window: Time, clock: Time,
                   key: string, pruned: seq<Time>, now: Time)
    requires HoldsTable(m, log, side, clock - window, clock) && clock <= now
    requires Ascending(pruned, clock) && CountAlike(pruned, Deque(m, key), now - window)
    ensures HoldsTable(m[key := pruned], log, side, now - window, now)
    ensures CountFrom(Deque(m, key), now - window) == InWindow(log, side, key, window, now)
  {
    assert Holds(Deque(m, key), Failures(log, side, key), clock - window, clock);
    forall k ensures Holds(Deque(m[key := pruned], k), Failures(log, side, k), now - window, now) {
      assert Holds(Deque(m, k), Failures(log, side, k), clock - window, clock);
      AscendingLater(Deque(m[key := pruned], k), clock, now);
    }
  }

  lemma AppendKeeps(m: map<string, seq<Time>>, log: seq<Attempt>, side: Side, window: Time, clock: Time, a: Attempt)
    requires HoldsTable(m, log, side, clock - window, clock) && a.Failure? && clock <= a.at
    ensures var key := KeyOf(a, side);
            HoldsTable(m[key := Deque(m, key) + [a.at]], log + [a], side, a.at - window, a.at)
  {
    var key := KeyOf(a, side);
    var m' := m[key := Deque(m, key) + [a.at]];
    assert (log + [a])[..|log|] == log;
    forall k ensures Holds(Deque(m', k), Failures(log + [a], side, k), a.at - window, a.at) {
      assert Holds(Deque(m, k), Failures(log, side, k), clock - window, clock);
      assert Failures(log + [a], side, k) == Extended(Failures(log, side, k), a, side, k);
      if k == key {
        HoldsSnoc(Deque(m, k), Failures(log, side, k), clock - window, a.at - window, clock, a.at);
      } else {
        AscendingLater(Deque(m, k), clock, a.at);
      }
    }
  }

  lemma ClearKeeps(m: map<string, seq<Time>>, log: seq<Attempt>, side: Side, cutoff: Time, clock: Time, a: Attempt)
    requires HoldsTable(m, log, side, cutoff, clock) && a.Success?
    ensures HoldsTable(m - {KeyOf(a, side)}, log + [a], side, cutoff, clock)
  {
    var m' := m - {KeyOf(a, side)};
    assert (log + [a])[..|log|] == log;
    forall k ensures Holds(Deque(m', k), Failures(log + [a], side, k), cutoff, clock) {
      assert Holds(Deque(m, k), Failures(log, side, k), cutoff, clock);
      assert Failures(log + [a], side, k) == Extended(Failures(log, side, k), a, side, k);
    }
  }

  /** One of the limiter's two tables: a deque of failure times per key. */
  class Table {
    const side: Side
    const window: Time
    var deques: map<string, seq<Time>>
    /** Every attempt so far, and the clock at the last call. */
    ghost var log: seq<Attempt>
    ghost var clock: Time

    ghost predicate Valid()
      reads this
    {
      HoldsTable(deques, log, side, clock - window, clock)
    }

    constructor (side: Side, window: Time, now: Time)
      ensures Valid() && this.side == side && this.window == window && log == [] && clock == now
    {
      this.side, this.window, deques, log, clock := side, window, map[], [], now;
    }

    /** Prunes a key's deque and returns its length. */
    method Count(key: string, now: Time) returns (n: nat)
      requires Valid() && clock <= now
      modifies this
      ensures Valid() && log == old(log) && clock == now
      ensures n == InWindow(log, side, key, window, now)
    {
      assert Holds(Deque(deques, key), Failures(log, side, key), clock - window, clock);
      var pruned := Prune(Deque(deques, key), now - window, clock);
      PruneKeeps(deques, log, side, window, clock, key, pruned, now);
      deques := deques[key := pruned];
      clock := now;
      n := |pruned|;
    }

    method Append(a: Attempt)
      requires Valid() && a.Failure? && clock <= a.at
      modifies this
      ensures Valid() && log == old(log) + [a] && clock == a.at
    {
      AppendKeeps(deques, log, side, window, clock, a);
      deques := deques[KeyOf(a, side) := Deque(deques, KeyOf(a, side)) + [a.at]];
      log := log + [a];
      clock := a.at;
    }

    method Clear(a: Attempt)
      requires Valid() && a.Success?
      modifies this
      ensures Valid() && log == old(log) + [a] && clock == old(clock)
    {
      ClearKeeps(deques, log, side, clock - window, clock, a);
      deques := deques - {KeyOf(a, side)};
      log := log + [a];
    }
  }

  class LoginRateLimiter {
    const max: int
    const byIp: Table
    const byUser: Table

    ghost predicate Valid()
      reads this, byIp, byUser
    {
      && byIp != byUser && byIp.Valid() && byUser.Valid() && byIp.side == Ip && byUser.side == User
      && byIp.log == byUser.log && byIp.clock == byUser.clock && byIp.window == byUser.window
    }

    constructor (max: int, window: Time, now: Time)
      ensures Valid() && fresh(byIp) && fresh(byUser)
      ensures this.max == max && byIp.window == window && byIp.log == [] && byIp.clock == now
    {
      this.max := max;
      byIp := new Table(Ip, window, now);
      byUser := new Table(User, window, now);
    }

    /**
     * Locked exactly when the full history says so: enough failures inside the window, since the last success, for
     * the address or for the user. Pruning never shows.
     */
    method IsLocked(ip: string, user: string, now: Time) returns (locked: bool)
      requires Valid() && byIp.clock <= now
      modifies byIp, byUser
      ensures Valid() && byIp.log == old(byIp.log) && byIp.clock == now
      ensures locked <==> InWindow(byIp.log, Ip, ip, byIp.window, now) >= max
                          || InWindow(byIp.log, User, user, byIp.window, now) >= max
      ensures locked <==> |IpFailures(byIp.log, ip, now - byIp.window)| >= max
                          || |UserFailures(byIp.log, user, now - byIp.window)| >= max
    {
      InWindowIs(byIp.log, ip, byIp.window, now);
      InWindowIs(byIp.log, user, byIp.window, now);
      var n := byIp.Count(ip, now);
      var m := byUser.Count(user, now);
      locked := n >= max || m >= max;
    }

    method RecordFailure(ip: string, user: string, now: Time)
      requires Valid() && byIp.clock <= now
      modifies byIp, byUser
      ensures Valid() && byIp.log == old(byIp.log) + [Failure(ip, user, now)] && byIp.clock == now
    {
      byIp.Append(Failure(ip, user, now));
      byUser.Append(Failure(ip, user, now));
    }

    /** Forgets the failures of the address and of the user. */
    method RecordSuccess(ip: string, user: string)
      requires Valid()
      modifies byIp, byUser
      ensures Valid() && byIp.log == old(byIp.log) + [Success(ip, user)] && byIp.clock == old(byIp.clock)
    {
      byIp.Clear(Success(ip, user));
      byUser.Clear(Success(ip, user));
    }
  }
}
