/** The trap alert limiter: a map that forgets old entries against one that never does. */
module TrapLimiter {

  type Time = real

  /** (switch, trap name). */
  type Key = (string, string)

  type Recent = map<Key, Time>

  function Last(recent: Recent, key: Key): Time {
    if key in recent then recent[key] else 0.0
  }

  /** The decision of a map that is never pruned. */
  function Decide(full: Recent, window: int, key: Key, now: Time): (r: (Recent, bool)) {
    if now - Last(full, key) < window as real then (full, false) else (full[key := now], true)
  }

  /** recent is full without some entries that have left the window. */
  ghost predicate Forgets(recent: Recent, full: Recent, window: int, clock: Time) {
    && (forall k :: k in recent ==> k in full && recent[k] == full[k])
    && (forall k :: k in full && k !in recent ==> full[k] < clock - window as real)
    && (forall k :: k in full ==> window as real <= full[k] <= clock)
  }

  const CAPACITY := 5000

  class TrapReceiver {
    const window: int
    var recent: Recent
    /** The map without pruning, and the clock at the last call. */
    ghost var full: Recent
    ghost var clock: Time

    ghost predicate Valid()
      reads this
    {
      Forgets(recent, full, window, clock)
    }

    constructor (window: int, now: Time)
      ensures Valid() && this.window == window && full == map[] && clock == now
    {
      this.window, recent, full, clock := window, map[], map[], now;
    }

    /** Pruning is unobservable: the answer is the never-pruned map's, at any time and for any window. */
    method RateOk(switch: string, name: string, now: Time) returns (ok: bool)
      requires Valid() && clock <= now
      modifies this
      ensures Valid() && clock == now
      ensures (full, ok) == Decide(old(full), window, (switch, name), now)
    {
      var key := (switch, name);
      clock := now;
      if now - Last(recent, key) < window as real {
        return false;
      }
      recent := recent[key := now];
      full := full[key := now];
      if |recent| > CAPACITY {
        var cutoff := now - window as real;
        recent := map k | k in recent && recent[k] >= cutoff :: recent[k];
      }
      ok := true;
    }

    /** The limiter is asked only about traps the alert policy wants. */
    method HandleTrap(wanted: bool, switch: string, name: string, now: Time) returns (alerted: bool)
      requires Valid() && clock <= now
      modifies this
      ensures Valid()
      ensures if wanted then (full, alerted) == Decide(old(full), window, (switch, name), now)
              else !alerted && full == old(full)
    {
      alerted := false;
      if wanted {
        alerted := RateOk(switch, name, now);
      }
    }
  }

  // ----- the decisions of a whole run -----

  datatype Query = Query(key: Key, now: Time)

  predicate InOrder(qs: seq<Query>) {
    forall i, j :: 0 <= i < j < |qs| ==> qs[i].now <= qs[j].now
  }

  function After(window: int, qs: seq<Query>, n: nat): Recent
    requires n <= |qs|
  {
    if n == 0 then map[] else Decide(After(window, qs, n - 1), window, qs[n - 1].key, qs[n - 1].now).0
  }

  predicate Accepted(window: int, qs: seq<Query>, i: nat)
    requires i < |qs|
  {
    Decide(After(window, qs, i), window, qs[i].key, qs[i].now).1
  }

  /** The entry of a key is the time of its last accepted email. */
  lemma {:induction false} EntryIsLastAccepted(window: int, qs: seq<Query>, n: nat, key: Key)
    requires n <= |qs|
    ensures var full := After(window, qs, n);
            && (key !in full ==> forall i :: 0 <= i < n && qs[i].key == key ==> !Accepted(window, qs, i))
            && (key in full ==> exists i :: 0 <= i < n && qs[i].key == key && Accepted(window, qs, i) && qs[i].now == full[key]
                                  && forall j :: i < j < n && qs[j].key == key ==> !Accepted(window, qs, j))
  {
    if n > 0 {
      EntryIsLastAccepted(window, qs, n - 1, key);
    }
  }

  /**
   * An email goes out exactly when every earlier email for the same (switch, trap) is at least the window ago;
   * the very first one also needs the clock to have reached the window.
   */
  lemma AcceptedIsHistory(window: int, qs: seq<Query>, i: nat)
    requires InOrder(qs) && i < |qs|
    ensures var earlier := set j | 0 <= j < i && qs[j].key == qs[i].key && Accepted(window, qs, j);
            Accepted(window, qs, i) <==>
              && (forall j :: j in earlier ==> qs[i].now - qs[j].now >= window as real)
              && (earlier == {} ==> qs[i].now >= window as real)
  {
    var earlier := set j | 0 <= j < i && qs[j].key == qs[i].key && Accepted(window, qs, j);
    var full, key := After(window, qs, i), qs[i].key;
    EntryIsLastAccepted(window, qs, i, key);
    if key in full {
      var last :| 0 <= last < i && qs[last].key == key && Accepted(window, qs, last) && qs[last].now == full[key]
                  && forall j :: last < j < i && qs[j].key == key ==> !Accepted(window, qs, j);
      assert last in earlier;
      forall j | j in earlier ensures qs[j].now <= qs[last].now {
      }
    }
  }

  /** Times of the accepted emails of a key. */
  function Emails(window: int, qs: seq<Query>, n: nat, key: Key): seq<Time>
    requires n <= |qs|
  {
    if n == 0 then []
    else
      var before := Emails(window, qs, n - 1, key);
      if qs[n - 1].key == key && Accepted(window, qs, n - 1) then before + [qs[n - 1].now] else before
  }

  /** Emails for one (switch, trap) are at least the window apart. */
  lemma {:induction false} EmailsApart(window: int, qs: seq<Query>, n: nat, key: Key)
    requires n <= |qs|
    ensures var e, full := Emails(window, qs, n, key), After(window, qs, n);
            && (e == [] <==> key !in full)
            && (e != [] ==> full[key] == e[|e| - 1])
            && forall i :: 0 <= i < |e| - 1 ==> e[i + 1] - e[i] >= window as real
  {
    if n > 0 {
      EmailsApart(window, qs, n - 1, key);
    }
  }

  lemma {:induction false} SpanOf(e: seq<Time>, window: int, i: nat, j: nat)
    requires forall k :: 0 <= k < |e| - 1 ==> e[k + 1] - e[k] >= window as real
    requires i <= j < |e|
    ensures (j - i) as real * window as real <= e[j] - e[i]
  {
    if i < j {
      SpanOf(e, window, i, j - 1);
      assert (j - i) as real * window as real == (j - 1 - i) as real * window as real + window as real;
      assert e[j - 1 + 1] - e[j - 1] >= window as real;
    }
  }

  lemma FloorBound(n: nat, window: real, span: real)
    requires window > 0.0 && n as real * window <= span
    ensures n <= (span / window).Floor
  {
    assert span / window * window == span;
    assert n as real <= span / window;
  }

  lemma InSpan(e: seq<Time>, window: int, i: nat, j: nat, span: Time)
    requires window > 0 && i <= j < |e| && e[j] - e[i] <= span
    requires forall k :: 0 <= k < |e| - 1 ==> e[k + 1] - e[k] >= window as real
    ensures j - i <= (span / window as real).Floor
  {
    SpanOf(e, window, i, j);
    FloorBound(j - i, window as real, span);
  }

  /** Any span of length L holds at most floor(L / W) + 1 emails for one (switch, trap). */
  lemma EmailsInSpan(window: int, qs: seq<Query>, key: Key, i: nat, j: nat, span: Time)
    requires window > 0
    requires i <= j < |Emails(window, qs, |qs|, key)|
    requires Emails(window, qs, |qs|, key)[j] - Emails(window, qs, |qs|, key)[i] <= span
    ensures j - i + 1 <= (span / window as real).Floor + 1
  {
    EmailsApart(window, qs, |qs|, key);
    InSpan(Emails(window, qs, |qs|, key), window, i, j, span);
  }
}
