/**
 * The shared agent state and its snapshot. A save writes every field; which mutators save decides which
 * fields a restart can lose.
 */
module AgentState {
  import opened Dicts

  type Time = int

  datatype SwitchState = SwitchState(
    name: string, host: string, hostname: string, vendor: string, osVersion: string, snmpProfile: string,
    monitorMode: string, isDown: bool, failures: int, lastSeen: Option<Time>, lastEvent: string, snmpOk: bool,
    alertsMuted: bool, muteUntil: Option<Time>, unmanaged: bool)

  datatype BackupRun = BackupRun(timestamp: Option<Time>, success: int, failed: int, failedDevices: seq<string>)

  /** What lives in memory. Devices of the inventory are (ip, name) pairs. */
  datatype Memory = Memory(
    switches: Dict<string, SwitchState>, backup: BackupRun, inventory: seq<(string, string)>,
    scannerLastRun: Option<Time>, arpLastRun: map<string, Option<Time>>)

  const EMPTY := Memory([], BackupRun(None, 0, 0, []), [], None, map[])

  /** A stored switch entry; None is an absent field (for a text or a time also a null one). */
  datatype SwitchDoc = SwitchDoc(
    name: Option<string>, host: Option<string>, hostname: Option<string>, vendor: Option<string>,
    osVersion: Option<string>, snmpProfile: Option<string>, monitorMode: Option<string>, isDown: Option<bool>,
    failures: Option<int>, lastSeen: Option<Time>, lastEvent: Option<string>, snmpOk: Option<bool>,
    alertsMuted: Option<bool>, muteUntil: Option<Time>, unmanaged: Option<bool>)

  datatype Snapshot = Snapshot(
    switches: seq<SwitchDoc>, backup: Option<BackupRun>, inventory: Option<seq<(string, string)>>,
    scannerLastRun: Option<Time>, arpLastRun: Option<map<string, Option<Time>>>)

  // ----- _save and _load -----

  function Doc(s: SwitchState): SwitchDoc {
    SwitchDoc(Some(s.name), Some(s.host), Some(s.hostname), Some(s.vendor), Some(s.osVersion), Some(s.snmpProfile),
              Some(s.monitorMode), Some(s.isDown), Some(s.failures), s.lastSeen, Some(s.lastEvent), Some(s.snmpOk),
              Some(s.alertsMuted), s.muteUntil, Some(s.unmanaged))
  }

  function Docs(d: Dict<string, SwitchState>): (docs: seq<SwitchDoc>)
    ensures |docs| == |d| && forall i :: 0 <= i < |d| ==> docs[i] == Doc(d[i].1)
  {
    if d == [] then [] else Docs(d[..|d| - 1]) + [Doc(d[|d| - 1].1)]
  }

  function Saved(m: Memory): Snapshot {
    Snapshot(Docs(m.switches), Some(m.backup), Some(m.inventory), m.scannerLastRun, Some(m.arpLastRun))
  }

  /** `value or default` on an optional string. */
  function Or(value: Option<string>, default: string): string {
    if value.GetOr("") == "" then default else value.value
  }

  /** One entry of the snapshot; without a name or a host it is skipped. */
  function Entry(doc: SwitchDoc): Option<SwitchState> {
    if doc.name.GetOr("") == "" || doc.host.GetOr("") == "" then None
    else
      Some(SwitchState(
        doc.name.value, doc.host.value, Or(doc.hostname, ""), Or(doc.vendor, ""), Or(doc.osVersion, ""),
        Or(doc.snmpProfile, ""), Or(doc.monitorMode, "auto"), doc.isDown.GetOr(false), doc.failures.GetOr(0),
        doc.lastSeen, doc.lastEvent.GetOr("Restored from snapshot"), doc.snmpOk.GetOr(true),
        doc.alertsMuted.GetOr(false), doc.muteUntil, doc.unmanaged.GetOr(false)))
  }

  /** A text field as read: its own value, and the default when it is absent, null or empty. */
  predicate ReadsAs(value: Option<string>, default: string, read: string) {
    (value.Some? && value.value != "" && read == value.value) || ((value == None || value == Some("")) && read == default)
  }

  /** What an entry of a snapshot is read as, field by field. */
  lemma EntryMeans(doc: SwitchDoc)
    ensures Entry(doc).Some? <==> doc.name !in {None, Some("")} && doc.host !in {None, Some("")}
    ensures Entry(doc).Some? ==>
              var s := Entry(doc).value;
              && doc.name == Some(s.name) && doc.host == Some(s.host)
              && ReadsAs(doc.hostname, "", s.hostname) && ReadsAs(doc.vendor, "", s.vendor)
              && ReadsAs(doc.osVersion, "", s.osVersion) && ReadsAs(doc.snmpProfile, "", s.snmpProfile)
              && ReadsAs(doc.monitorMode, "auto", s.monitorMode)
              && (s.isDown <==> doc.isDown == Some(true)) && (s.snmpOk <==> doc.snmpOk != Some(false))
              && (s.alertsMuted <==> doc.alertsMuted == Some(true)) && (s.unmanaged <==> doc.unmanaged == Some(true))
              && (if doc.failures.Some? then doc.failures == Some(s.failures) else s.failures == 0)
              && (if doc.lastEvent.Some? then doc.lastEvent == Some(s.lastEvent) else s.lastEvent == "Restored from snapshot")
              && s.lastSeen == doc.lastSeen && s.muteUntil == doc.muteUntil
  {
  }

  function LoadedSwitches(docs: seq<SwitchDoc>, n: nat): Dict<string, SwitchState>
    requires n <= |docs|
  {
    if n == 0 then []
    else
      var e := Entry(docs[n - 1]);
      if e.None? then LoadedSwitches(docs, n - 1)
      else Put(LoadedSwitches(docs, n - 1), e.value.name, e.value)
  }

  function Loaded(data: Option<Snapshot>): Memory {
    match data
    case None => EMPTY
    case Some(s) =>
      Memory(LoadedSwitches(s.switches, |s.switches|), s.backup.GetOr(EMPTY.backup), s.inventory.GetOr([]),
             s.scannerLastRun, s.arpLastRun.GetOr(map[]))
  }

  /** The registry maps each switch's own name to it. */
  ghost predicate Named(d: Dict<string, SwitchState>) {
    DistinctKeys(d) && forall i :: 0 <= i < |d| ==> d[i].0 == d[i].1.name
  }

  lemma {:induction false} LoadedIsNamed(docs: seq<SwitchDoc>, n: nat)
    requires n <= |docs|
    ensures Named(LoadedSwitches(docs, n))
  {
    if n > 0 {
      LoadedIsNamed(docs, n - 1);
      var e := Entry(docs[n - 1]);
      if e.Some? {
        PutKeepsDistinct(LoadedSwitches(docs, n - 1), e.value.name, e.value);
      }
    }
  }

  /** The entry is read as a switch of this name. */
  predicate Describes(doc: SwitchDoc, name: string) {
    Entry(doc).Some? && doc.name == Some(name)
  }

  lemma LoadedStep(docs: seq<SwitchDoc>, n: nat, name: string)
    requires n < |docs|
    ensures Lookup(LoadedSwitches(docs, n + 1), name)
         == if Describes(docs[n], name) then Entry(docs[n]) else Lookup(LoadedSwitches(docs, n), name)
  {
    var e := Entry(docs[n]);
    LoadedIsNamed(docs, n);
    if e.Some? {
      PutGet(LoadedSwitches(docs, n), e.value.name, e.value, name);
    }
  }

  /** Of several entries with a name the last one counts, and a name without a readable entry is not loaded. */
  lemma {:induction false} LoadedLast(docs: seq<SwitchDoc>, n: nat, name: string)
    requires n <= |docs|
    ensures var read := Lookup(LoadedSwitches(docs, n), name);
            && (read.Some? <==> exists i :: 0 <= i < n && Describes(docs[i], name))
            && (read.Some? ==> exists i :: 0 <= i < n && Describes(docs[i], name) && read == Entry(docs[i])
                                 && forall j :: i < j < n ==> !Describes(docs[j], name))
  {
    if n > 0 {
      LoadedLast(docs, n - 1, name);
      LoadedStep(docs, n - 1, name);
    }
  }

  /** What an absent snapshot, or absent parts of one, are read as. */
  lemma LoadedDefaults(docs: seq<SwitchDoc>, at: Option<Time>)
    ensures var m := Loaded(None);
            && m.switches == [] && m.backup == BackupRun(None, 0, 0, []) && m.inventory == []
            && m.scannerLastRun == None && m.arpLastRun == map[]
    ensures var m := Loaded(Some(Snapshot(docs, None, None, at, None)));
            && m.backup == BackupRun(None, 0, 0, []) && m.inventory == [] && m.scannerLastRun == at && m.arpLastRun == map[]
            && m.switches == Loaded(Some(Snapshot(docs, Some(BackupRun(at, 1, 0, [])), Some([]), at, None))).switches
  {
  }

  predicate Storable(s: SwitchState) {
    s.name != "" && s.host != ""
  }

  /** What a reload makes of one saved switch. */
  function Restored(s: SwitchState): Option<SwitchState> {
    if Storable(s) then Some(s.(monitorMode := if s.monitorMode == "" then "auto" else s.monitorMode)) else None
  }

  /** What a reload makes of the first n switches. */
  function Reloaded(d: Dict<string, SwitchState>, n: nat): (r: Dict<string, SwitchState>)
    requires n <= |d|
    ensures |r| <= n
  {
    if n == 0 then []
    else
      var s := Restored(d[n - 1].1);
      if s.None? then Reloaded(d, n - 1) else Reloaded(d, n - 1) + [(d[n - 1].0, s.value)]
  }

  lemma EntryOfDoc(s: SwitchState)
    ensures Entry(Doc(s)) == Restored(s)
  {
  }

  lemma {:induction false} NotReloaded(d: Dict<string, SwitchState>, n: nat, k: string)
    requires n <= |d| && forall i :: 0 <= i < n ==> d[i].0 != k
    ensures forall j :: 0 <= j < |Reloaded(d, n)| ==> Reloaded(d, n)[j].0 != k
  {
    if n > 0 {
      NotReloaded(d, n - 1, k);
    }
  }

  lemma PutNew(d: Dict<string, SwitchState>, k: string, s: SwitchState)
    requires forall j :: 0 <= j < |d| ==> d[j].0 != k
    ensures Put(d, k, s) == d + [(k, s)]
  {
  }

  /** A reload after a save drops switches without a name or host and turns an empty mode into "auto", no more. */
  lemma {:induction false} LoadAfterSave(d: Dict<string, SwitchState>, n: nat)
    requires Named(d) && n <= |d|
    ensures LoadedSwitches(Docs(d), n) == Reloaded(d, n)
  {
    if n > 0 {
      var s := d[n - 1].1;
      LoadAfterSave(d, n - 1);
      EntryOfDoc(s);
      NotReloaded(d, n - 1, s.name);
      if Storable(s) {
        PutNew(Reloaded(d, n - 1), s.name, Restored(s).value);
      }
    }
  }

  predicate Whole(s: SwitchState) {
    Storable(s) && s.monitorMode != ""
  }

  lemma RestoredWhole(s: SwitchState)
    ensures Restored(s) == Some(s) <==> Whole(s)
  {
  }

  lemma {:induction false} ReloadedWhole(d: Dict<string, SwitchState>, n: nat)
    requires n <= |d|
    ensures Reloaded(d, n) == d[..n] <==> forall i :: 0 <= i < n ==> Whole(d[i].1)
  {
    if n > 0 {
      var r, all := Reloaded(d, n - 1), Reloaded(d, n);
      ReloadedWhole(d, n - 1);
      RestoredWhole(d[n - 1].1);
      assert d[..n] == d[..n - 1] + [d[n - 1]];
      if all == d[..n] {
        assert |all| == n && Restored(d[n - 1].1).Some?;
        assert r == all[..n - 1] && all[n - 1] == d[n - 1];
        assert d[..n][..n - 1] == d[..n - 1];
      }
    }
  }

  /** The round trip restores memory completely if and only if every switch has a name, a host and a mode. */
  lemma SaveLoadRoundTrip(m: Memory)
    requires Named(m.switches)
    ensures Loaded(Some(Saved(m))) == m <==> forall i :: 0 <= i < |m.switches| ==> Whole(m.switches[i].1)
  {
    LoadAfterSave(m.switches, |m.switches|);
    ReloadedWhole(m.switches, |m.switches|);
    assert m.switches[..|m.switches|] == m.switches;
    assert Loaded(Some(Saved(m))) == m.(switches := Reloaded(m.switches, |m.switches|));
  }

  // ----- the part of the state that never lags -----

  datatype Core = Core(name: string, host: string, osVersion: string, isDown: bool, snmpOk: bool,
                       alertsMuted: bool, muteUntil: Option<Time>, unmanaged: bool)

  function CoreOf(s: SwitchState): Core {
    Core(s.name, s.host, s.osVersion, s.isDown, s.snmpOk, s.alertsMuted, s.muteUntil, s.unmanaged)
  }

  /** The cores of the first n switches that can be stored, in registry order. */
  function Cores(d: Dict<string, SwitchState>, n: nat): seq<Core>
    requires n <= |d|
  {
    if n == 0 then []
    else if Storable(d[n - 1].1) then Cores(d, n - 1) + [CoreOf(d[n - 1].1)]
    else Cores(d, n - 1)
  }

  datatype Durable = Durable(cores: seq<Core>, backup: BackupRun, inventory: seq<(string, string)>,
                             scannerLastRun: Option<Time>, arpLastRun: map<string, Option<Time>>)

  function DurableOf(m: Memory): Durable {
    Durable(Cores(m.switches, |m.switches|), m.backup, m.inventory, m.scannerLastRun, m.arpLastRun)
  }

  lemma {:induction false} CoresOfSum(d: Dict<string, SwitchState>, e: Dict<string, SwitchState>, n: nat)
    requires n <= |d|
    ensures Cores(d + e, n) == Cores(d, n)
  {
    if n > 0 {
      CoresOfSum(d, e, n - 1);
    }
  }

  lemma CoresSnoc(d: Dict<string, SwitchState>, k: string, s: SwitchState)
    requires Storable(s)
    ensures Cores(d + [(k, s)], |d| + 1) == Cores(d, |d|) + [CoreOf(s)]
  {
    CoresOfSum(d, [(k, s)], |d|);
  }

  lemma RestoredCore(s: SwitchState)
    requires Storable(s)
    ensures Restored(s).Some? && Storable(Restored(s).value) && CoreOf(Restored(s).value) == CoreOf(s)
  {
  }

  lemma {:induction false} CoresReloaded(d: Dict<string, SwitchState>, n: nat)
    requires n <= |d|
    ensures Cores(Reloaded(d, n), |Reloaded(d, n)|) == Cores(d, n)
  {
    if n > 0 {
      CoresReloaded(d, n - 1);
      var (k, s) := d[n - 1];
      if Storable(s) {
        RestoredCore(s);
        var before, e := Reloaded(d, n - 1), Restored(s).value;
        CoresSnoc(before, k, e);
        assert Reloaded(d, n) == before + [(k, e)] && |Reloaded(d, n)| == |before| + 1;
      }
    }
  }

  /** After a save, a reload has the same durable state as memory. */
  lemma SaveSyncs(m: Memory)
    requires Named(m.switches)
    ensures DurableOf(Loaded(Some(Saved(m)))) == DurableOf(m)
  {
    LoadAfterSave(m.switches, |m.switches|);
    CoresReloaded(m.switches, |m.switches|);
  }

  /** The cores of all switches, whether they can be stored or not. */
  function AllCores(d: Dict<string, SwitchState>, n: nat): (cores: seq<Core>)
    requires n <= |d|
    ensures |cores| == n
  {
    if n == 0 then [] else AllCores(d, n - 1) + [CoreOf(d[n - 1].1)]
  }

  predicate AllStorable(d: Dict<string, SwitchState>, n: nat)
    requires n <= |d|
  {
    forall i :: 0 <= i < n ==> Storable(d[i].1)
  }

  lemma {:induction false} CoresAreAll(d: Dict<string, SwitchState>, n: nat)
    requires n <= |d|
    ensures |Cores(d, n)| <= n
    ensures Cores(d, n) == AllCores(d, n) <==> AllStorable(d, n)
  {
    if n > 0 {
      CoresAreAll(d, n - 1);
      var before, after := Cores(d, n - 1), Cores(d, n);
      if after == AllCores(d, n) {
        assert |after| == n;
        assert before == after[..n - 1] == AllCores(d, n)[..n - 1] == AllCores(d, n - 1);
      }
    }
  }

  lemma {:induction false} LoadedStorable(docs: seq<SwitchDoc>, n: nat)
    requires n <= |docs|
    ensures AllStorable(LoadedSwitches(docs, n), |LoadedSwitches(docs, n)|)
  {
    if n > 0 {
      LoadedStorable(docs, n - 1);
    }
  }

  /**
   * While a reload gives the durable state of memory, it gives all of memory's switches back if and only if each of
   * them has a name and a host.
   */
  lemma ReloadLosesNothing(m: Memory, data: Option<Snapshot>)
    requires DurableOf(Loaded(data)) == DurableOf(m)
    ensures var loaded := Loaded(data).switches;
            AllCores(loaded, |loaded|) == AllCores(m.switches, |m.switches|) <==> AllStorable(m.switches, |m.switches|)
  {
    var loaded := Loaded(data).switches;
    CoresAreAll(loaded, |loaded|);
    CoresAreAll(m.switches, |m.switches|);
    if data.Some? {
      LoadedStorable(data.value.switches, |data.value.switches|);
    }
    assert Cores(loaded, |loaded|) == Cores(m.switches, |m.switches|);
  }

  lemma {:induction false} CoreIn(d: Dict<string, SwitchState>, n: nat, i: nat)
    requires i < n <= |d| && Storable(d[i].1)
    ensures CoreOf(d[i].1) in Cores(d, n)
  {
    if i < n - 1 {
      CoreIn(d, n - 1, i);
    }
  }

  lemma {:induction false} CoreFrom(d: Dict<string, SwitchState>, n: nat, c: Core)
    requires n <= |d| && c in Cores(d, n)
    ensures exists i :: 0 <= i < n && Storable(d[i].1) && CoreOf(d[i].1) == c
  {
    if n > 0 && c in Cores(d, n - 1) {
      CoreFrom(d, n - 1, c);
    }
  }

  /** Two memories with the same durable state agree on the core of every switch that can be stored. */
  lemma SameCore(m: Memory, m': Memory, name: string)
    requires Named(m.switches) && Named(m'.switches) && DurableOf(m) == DurableOf(m')
    requires Has(m.switches, name) && Storable(Get(m.switches, name))
    ensures Has(m'.switches, name) && CoreOf(Get(m'.switches, name)) == CoreOf(Get(m.switches, name))
  {
    var i := IndexOf(m.switches, name);
    CoreIn(m.switches, |m.switches|, i);
    CoreFrom(m'.switches, |m'.switches|, CoreOf(m.switches[i].1));
    var j :| 0 <= j < |m'.switches| && Storable(m'.switches[j].1) && CoreOf(m'.switches[j].1) == CoreOf(m.switches[i].1);
    IndexOfAt(m'.switches, j);
  }

  /** Replacing a switch by one with the same core leaves the durable state alone. */
  lemma {:induction false} LagKeepsCores(d: Dict<string, SwitchState>, i: nat, s: SwitchState, n: nat)
    requires i < |d| && n <= |d| && CoreOf(s) == CoreOf(d[i].1)
    ensures Cores(d[i := (d[i].0, s)], n) == Cores(d, n)
  {
    if n > 0 {
      LagKeepsCores(d, i, s, n - 1);
    }
  }

  // ----- the mutators -----

  /** Field updates of update_switch, as its callers use it; None leaves a field alone. */
  datatype Update = Update(hostname: Option<string>, vendor: Option<string>, snmpProfile: Option<string>,
                           failures: Option<int>, lastSeen: Option<Time>, lastEvent: Option<string>,
                           isDown: Option<bool>)

  function Updated(s: SwitchState, u: Update): SwitchState {
    s.(hostname := u.hostname.GetOr(s.hostname), vendor := u.vendor.GetOr(s.vendor),
       snmpProfile := u.snmpProfile.GetOr(s.snmpProfile), failures := u.failures.GetOr(s.failures),
       lastSeen := if u.lastSeen.Some? then u.lastSeen else s.lastSeen,
       lastEvent := u.lastEvent.GetOr(s.lastEvent), isDown := u.isDown.GetOr(s.isDown))
  }

  function NewSwitch(name: string, host: string, mode: string): SwitchState {
    SwitchState(name, host, "", "", "", "", mode, false, 0, None, "Initializing", true, false, None, false)
  }

  /** A switch nothing is known of yet. */
  predicate BrandNew(s: SwitchState, name: string, host: string, mode: string) {
    && s.name == name && s.host == host && s.monitorMode == mode
    && s.hostname == "" && s.vendor == "" && s.osVersion == "" && s.snmpProfile == ""
    && !s.isDown && s.failures == 0 && s.lastSeen.None? && s.lastEvent == "Initializing" && s.snmpOk
    && !s.alertsMuted && s.muteUntil.None? && !s.unmanaged
  }

  predicate Takes<T(==)>(value: Option<T>, before: T, after: T) {
    (value.Some? ==> after == value.value) && (value.None? ==> after == before)
  }

  /** t is s with just the update's fields replaced. */
  predicate Applied(s: SwitchState, u: Update, t: SwitchState) {
    && Takes(u.hostname, s.hostname, t.hostname) && Takes(u.vendor, s.vendor, t.vendor)
    && Takes(u.snmpProfile, s.snmpProfile, t.snmpProfile) && Takes(u.failures, s.failures, t.failures)
    && (if u.lastSeen == None then t.lastSeen == s.lastSeen else t.lastSeen == u.lastSeen)
    && Takes(u.lastEvent, s.lastEvent, t.lastEvent) && Takes(u.isDown, s.isDown, t.isDown)
    && t.name == s.name && t.host == s.host && t.osVersion == s.osVersion && t.monitorMode == s.monitorMode
    && t.snmpOk == s.snmpOk && t.alertsMuted == s.alertsMuted && t.muteUntil == s.muteUntil && t.unmanaged == s.unmanaged
  }

  lemma UpdatedApplies(s: SwitchState, u: Update)
    ensures Applied(s, u, Updated(s, u))
  {
  }

  /** Memory with one switch replaced; unchanged when the name is unknown. */
  function With(m: Memory, name: string, s: SwitchState): Memory {
    if Has(m.switches, name) then m.(switches := Put(m.switches, name, s)) else m
  }

  function Switch(m: Memory, name: string): Option<SwitchState> {
    Lookup(m.switches, name)
  }

  /** Whether emails of a switch are muted at a time: an expired timed mute is not. */
  predicate MutedAt(s: SwitchState, now: Time) {
    s.alertsMuted && !(s.muteUntil.Some? && now >= s.muteUntil.value)
  }

  lemma WithFacts(m: Memory, name: string, s: SwitchState)
    requires Named(m.switches) && s.name == name
    ensures Named(With(m, name, s).switches)
    ensures forall k :: Switch(With(m, name, s), k)
                     == if k == name && Switch(m, name).Some? then Some(s) else Switch(m, k)
    ensures Has(m.switches, name) && CoreOf(s) == CoreOf(Get(m.switches, name)) ==>
              DurableOf(With(m, name, s)) == DurableOf(m)
  {
    if Has(m.switches, name) {
      var i := IndexOf(m.switches, name);
      PutKeepsDistinct(m.switches, name, s);
      forall k ensures Lookup(Put(m.switches, name, s), k) == if k == name then Some(s) else Lookup(m.switches, k) {
        PutGet(m.switches, name, s, k);
      }
      if CoreOf(s) == CoreOf(m.switches[i].1) {
        LagKeepsCores(m.switches, i, s, |m.switches|);
      }
    }
  }

  /** Of two replacements of a switch the second one counts. */
  lemma WithTwice(m: Memory, name: string, s: SwitchState, t: SwitchState)
    requires Named(m.switches) && s.name == name
    ensures With(With(m, name, s), name, t) == With(m, name, t)
  {
    if Has(m.switches, name) {
      var i := IndexOf(m.switches, name);
      PutKeepsDistinct(m.switches, name, s);
      IndexOfAt(Put(m.switches, name, s), i);
    }
  }

  /** Memory after alerts_suppressed: an expired timed mute is cleared. */
  function MuteChecked(m: Memory, name: string, now: Time): Memory {
    var s := Switch(m, name);
    if s.Some? && s.value.alertsMuted && !MutedAt(s.value, now)
    then With(m, name, s.value.(alertsMuted := false, muteUntil := None))
    else m
  }

  predicate EmailsMuted(m: Memory, name: string, now: Time) {
    Switch(m, name).Some? && MutedAt(Switch(m, name).value, now)
  }

  function Without(d: Dict<string, SwitchState>, i: nat): Dict<string, SwitchState>
    requires i < |d|
  {
    d[..i] + d[i + 1..]
  }

  lemma WithoutNamed(d: Dict<string, SwitchState>, i: nat)
    requires Named(d) && i < |d|
    ensures Named(Without(d, i))
  {
    var r := Without(d, i);
    assert forall j :: 0 <= j < |r| ==> r[j] == d[if j < i then j else j + 1];
  }

  lemma LookupAt(d: Dict<string, SwitchState>, i: nat)
    requires DistinctKeys(d) && i < |d|
    ensures Lookup(d, d[i].0) == Some(d[i].1)
  {
    IndexOfAt(d, i);
  }

  lemma LookupNone(d: Dict<string, SwitchState>, k: string)
    requires forall j :: 0 <= j < |d| ==> d[j].0 != k
    ensures Lookup(d, k) == None
  {
  }

  lemma WithoutLookup(d: Dict<string, SwitchState>, i: nat, k: string)
    requires Named(d) && i < |d|
    ensures Lookup(Without(d, i), k) == if k == d[i].0 then None else Lookup(d, k)
  {
    var r, x := Without(d, i), IndexOf(d, k);
    WithoutNamed(d, i);
    if x < |d| && x != i {
      var y := if x < i then x else x - 1;
      assert r[y] == d[x];
      LookupAt(r, y);
    } else {
      forall j | 0 <= j < |r| ensures r[j].0 != k {
        assert r[j] == d[if j < i then j else j + 1];
        IndexOfAt(d, if j < i then j else j + 1);
      }
      LookupNone(r, k);
    }
  }

  lemma WithoutFacts(d: Dict<string, SwitchState>, i: nat)
    requires Named(d) && i < |d|
    ensures Named(Without(d, i))
    ensures forall k :: Lookup(Without(d, i), k) == if k == d[i].0 then None else Lookup(d, k)
  {
    WithoutNamed(d, i);
    forall k ensures Lookup(Without(d, i), k) == if k == d[i].0 then None else Lookup(d, k) {
      WithoutLookup(d, i, k);
    }
  }

  // ----- every call as data, with what it leaves in the store -----

  /** Memory, and what the store holds. */
  datatype Host = Host(memory: Memory, saved: Option<Snapshot>)

  /** The calls that change the state. */
  datatype Call =
    | Register(name: string, host: string, mode: string)
    | PinVendor(name: string, vendor: string)
    | SetSwitchProfile(name: string, profile: string)
    | SetOsVersion(name: string, version: string)
    | SetSnmpHealth(name: string, snmpOk: bool)
    | SetAlertMute(name: string, muted: bool, until: Option<Time>)
    | CheckMute(name: string, now: Time)
    | SetUnmanaged(name: string, unmanaged: bool)
    | UpdateSwitch(name: string, update: Update)
    | OverwriteMode(name: string, mode: string)
    | Remove(name: string)
    | SetBackupResult(run: BackupRun)
    | SetDeviceInventory(devices: seq<(string, string)>, at: Time)
    | SetArpLastRun(location: string, at: Time)

  /** What a call makes of a known switch and whether it saves; None when it does nothing to it. */
  function Edited(s: SwitchState, call: Call): Option<(SwitchState, bool)> {
    match call
    case Register(_, _, mode) =>
      if mode == "" || s.monitorMode == mode then None else Some((s.(monitorMode := mode), true))
    case PinVendor(_, vendor) => if s.vendor == vendor then None else Some((s.(vendor := vendor), true))
    case SetSwitchProfile(_, profile) => Some((s.(snmpProfile := profile), true))
    case SetOsVersion(_, version) => if s.osVersion == version then None else Some((s.(osVersion := version), true))
    case SetSnmpHealth(_, snmpOk) => if s.snmpOk == snmpOk then None else Some((s.(snmpOk := snmpOk), true))
    case SetAlertMute(_, muted, until) =>
      Some((s.(alertsMuted := muted, muteUntil := if muted then until else None), true))
    case CheckMute(_, now) =>
      if s.alertsMuted && !MutedAt(s, now) then Some((s.(alertsMuted := false, muteUntil := None), true)) else None
    case SetUnmanaged(_, unmanaged) => Some((s.(unmanaged := unmanaged), true))
    case UpdateSwitch(_, u) => Some((Updated(s, u), Updated(s, u).isDown != s.isDown))
    case OverwriteMode(_, mode) => Some((s.(monitorMode := mode), false))
    case _ => None
  }

  /** A memory that has just been saved. */
  function JustSaved(m: Memory): Host {
    Host(m, Some(Saved(m)))
  }

  function Changed(h: Host, name: string, s: SwitchState, save: bool): Host {
    var m := With(h.memory, name, s);
    if save then JustSaved(m) else Host(m, h.saved)
  }

  function ChangedIf(h: Host, name: string, e: Option<(SwitchState, bool)>): Host {
    if e.None? then h else Changed(h, name, e.value.0, e.value.1)
  }

  function EditedHost(h: Host, name: string, call: Call): Host {
    if Switch(h.memory, name).None? then h else ChangedIf(h, name, Edited(Switch(h.memory, name).value, call))
  }

  function Registered(m: Memory, name: string, host: string, mode: string): Memory {
    m.(switches := m.switches + [(name, NewSwitch(name, host, mode))])
  }

  lemma RegisteredFacts(m: Memory, name: string, host: string, mode: string)
    requires Named(m.switches) && !Has(m.switches, name)
    ensures Named(Registered(m, name, host, mode).switches)
    ensures Switch(Registered(m, name, host, mode), name).Some?
    ensures BrandNew(Switch(Registered(m, name, host, mode), name).value, name, host, mode)
  {
    PutKeepsDistinct(m.switches, name, NewSwitch(name, host, mode));
    PutGet(m.switches, name, NewSwitch(name, host, mode), name);
  }

  /** Memory and store after a call. */
  function Called(h: Host, call: Call): Host {
    match call
    case SetBackupResult(run) => JustSaved(h.memory.(backup := run))
    case SetDeviceInventory(devices, at) => JustSaved(h.memory.(inventory := devices, scannerLastRun := Some(at)))
    case SetArpLastRun(location, at) =>
      JustSaved(h.memory.(arpLastRun := h.memory.arpLastRun[location := Some(at)]))
    case Remove(name) =>
      if Has(h.memory.switches, name)
      then JustSaved(h.memory.(switches := Without(h.memory.switches, IndexOf(h.memory.switches, name))))
      else h
    case Register(name, host, mode) =>
      if Has(h.memory.switches, name) then EditedHost(h, name, call)
      else JustSaved(Registered(h.memory, name, host, mode))
    case _ => EditedHost(h, call.name, call)
  }

  /** A reload gives the durable state of memory. */
  ghost predicate Sound(h: Host) {
    Named(h.memory.switches) && DurableOf(Loaded(h.saved)) == DurableOf(h.memory)
  }

  /**
   * An edit keeps the switch's name and host; what it does not save is no part of the core; only an update of is_down
   * flips it.
   */
  lemma EditedKeeps(s: SwitchState, call: Call)
    requires Edited(s, call).Some?
    ensures var (t, save) := Edited(s, call).value;
            && t.name == s.name && t.host == s.host && (save || CoreOf(t) == CoreOf(s))
            && (t.isDown != s.isDown ==> call.UpdateSwitch? && call.update.isDown == Some(t.isDown))
  {
  }

  lemma JustSavedSound(m: Memory)
    requires Named(m.switches)
    ensures Sound(JustSaved(m))
  {
    SaveSyncs(m);
  }

  lemma ChangedSound(h: Host, name: string, s: SwitchState, save: bool)
    requires Sound(h) && s.name == name && Has(h.memory.switches, name)
    requires save || CoreOf(s) == CoreOf(Get(h.memory.switches, name))
    ensures Sound(Changed(h, name, s, save))
  {
    WithFacts(h.memory, name, s);
    if save {
      JustSavedSound(With(h.memory, name, s));
    }
  }

  /** Of two changes of a switch in a row the second one counts, and a save of the second covers the first. */
  lemma ChangedTwice(h: Host, name: string, s: SwitchState, first: bool, t: SwitchState, second: bool)
    requires Named(h.memory.switches) && Has(h.memory.switches, name) && s.name == name
    ensures var h1 := Changed(h, name, s, first);
            && Named(h1.memory.switches) && Switch(h1.memory, name) == Some(s)
            && Changed(h1, name, t, second).memory == With(h.memory, name, t)
            && (second || !first ==> Changed(h1, name, t, second) == Changed(h, name, t, second))
  {
    WithFacts(h.memory, name, s);
    WithTwice(h.memory, name, s, t);
  }

  lemma CalledUpdate(h: Host, name: string, s: SwitchState, u: Update)
    requires Switch(h.memory, name) == Some(s)
    ensures Called(h, Call.UpdateSwitch(name, u)) == Changed(h, name, Updated(s, u), Updated(s, u).isDown != s.isDown)
  {
  }

  lemma CalledHealth(h: Host, name: string, s: SwitchState, snmpOk: bool)
    requires Switch(h.memory, name) == Some(s)
    ensures Called(h, SetSnmpHealth(name, snmpOk))
         == if s.snmpOk == snmpOk then h else Changed(h, name, s.(snmpOk := snmpOk), true)
  {
  }

  lemma NameOf(d: Dict<string, SwitchState>, name: string)
    requires Named(d) && Has(d, name)
    ensures Get(d, name).name == name
  {
  }

  lemma EditedSound(h: Host, name: string, call: Call)
    requires Sound(h)
    ensures Sound(EditedHost(h, name, call))
  {
    if Has(h.memory.switches, name) {
      var s := Get(h.memory.switches, name);
      NameOf(h.memory.switches, name);
      if Edited(s, call).Some? {
        EditedKeeps(s, call);
        ChangedSound(h, name, Edited(s, call).value.0, Edited(s, call).value.1);
      }
    }
  }

  /** Whatever is called, a reload gives the durable state of memory: derived from which calls save, not supposed. */
  lemma CalledSound(h: Host, call: Call)
    requires Sound(h)
    ensures Sound(Called(h, call))
  {
    match call
    case SetBackupResult(run) => JustSavedSound(h.memory.(backup := run));
    case SetDeviceInventory(devices, at) =>
      JustSavedSound(h.memory.(inventory := devices, scannerLastRun := Some(at)));
    case SetArpLastRun(location, at) =>
      JustSavedSound(h.memory.(arpLastRun := h.memory.arpLastRun[location := Some(at)]));
    case Remove(name) =>
      if Has(h.memory.switches, name) {
        var d := h.memory.switches;
        WithoutNamed(d, IndexOf(d, name));
        JustSavedSound(h.memory.(switches := Without(d, IndexOf(d, name))));
      }
    case Register(name, host, mode) =>
      if Has(h.memory.switches, name) {
        EditedSound(h, name, call);
      } else {
        PutKeepsDistinct(h.memory.switches, name, NewSwitch(name, host, mode));
        JustSavedSound(Registered(h.memory, name, host, mode));
      }
    case _ => EditedSound(h, call.name, call);
  }

  function CalledAll(h: Host, calls: seq<Call>): Host {
    if calls == [] then h else Called(CalledAll(h, calls[..|calls| - 1]), calls[|calls| - 1])
  }

  /** After any sequence of calls the store holds the snapshot of some memory with today's durable state. */
  lemma {:induction false} StoreIsSnapshot(h: Host, before: Memory, calls: seq<Call>) returns (m: Memory)
    requires Sound(h) && Named(before.switches) && h.saved == Some(Saved(before))
    ensures Sound(CalledAll(h, calls)) && CalledAll(h, calls).saved == Some(Saved(m))
    ensures Named(m.switches) && DurableOf(m) == DurableOf(CalledAll(h, calls).memory)
  {
    m := before;
    if calls != [] {
      m := StoreIsSnapshot(h, before, calls[..|calls| - 1]);
      var prior, last := CalledAll(h, calls[..|calls| - 1]), calls[|calls| - 1];
      CalledSound(prior, last);
      SavesWhole(prior, last);
      if Called(prior, last).saved != prior.saved {
        m := Called(prior, last).memory;
      }
    }
    SaveSyncs(m);
  }

  /** A call saves all of memory as it leaves it, or leaves the store alone. */
  lemma SavesWhole(h: Host, call: Call)
    ensures Called(h, call).saved == h.saved || Called(h, call).saved == Some(Saved(Called(h, call).memory))
  {
  }

  /** A store whose saves succeed. */
  class SnapshotStore {
    var saved: Option<Snapshot>

    constructor (prior: Option<Snapshot>)
      ensures saved == prior
    {
      saved := prior;
    }

    method Save(s: Snapshot)
      modifies this
      ensures saved == Some(s)
    {
      saved := Some(s);
    }

    method Load() returns (s: Option<Snapshot>)
      ensures s == saved
    {
      s := saved;
    }
  }

  class AgentState {
    const store: SnapshotStore
    var switches: Dict<string, SwitchState>
    var backup: BackupRun
    var inventory: seq<(string, string)>
    var scannerLastRun: Option<Time>
    var arpLastRun: map<string, Option<Time>>

    ghost function Abs(): Memory
      reads this
    {
      Memory(switches, backup, inventory, scannerLastRun, arpLastRun)
    }

    ghost function State(): Host
      reads this, store
    {
      Host(Abs(), store.saved)
    }

    /** Between any two calls, a reload would give the durable state of memory. */
    ghost predicate Valid()
      reads this, store
    {
      Sound(State())
    }

    constructor (store: SnapshotStore)
      ensures this.store == store && Valid() && Abs() == Loaded(store.saved)
    {
      this.store := store;
      switches, backup, inventory, scannerLastRun, arpLastRun := [], EMPTY.backup, [], None, map[];
      new;
      var data := store.Load();
      if data.Some? {
        switches := ReadSwitches(data.value.switches);
        backup := data.value.backup.GetOr(EMPTY.backup);
        inventory := data.value.inventory.GetOr([]);
        scannerLastRun := data.value.scannerLastRun;
        arpLastRun := data.value.arpLastRun.GetOr(map[]);
        LoadedIsNamed(data.value.switches, |data.value.switches|);
      }
    }

    /** The loop over the snapshot's switch entries. */
    static method ReadSwitches(docs: seq<SwitchDoc>) returns (d: Dict<string, SwitchState>)
      ensures d == LoadedSwitches(docs, |docs|)
    {
      d := [];
      for i := 0 to |docs|
        invariant d == LoadedSwitches(docs, i)
      {
        var e := Entry(docs[i]);
        if e.Some? {
          d := Put(d, e.value.name, e.value);
        }
      }
    }

    /** _save. */
    method Persist()
      requires Named(switches)
      modifies store
      ensures Valid() && store.saved == Some(Saved(Abs()))
    {
      store.Save(Saved(Memory(switches, backup, inventory, scannerLastRun, arpLastRun)));
      SaveSyncs(Abs());
    }

    /** Replaces a known switch, saving or not; without a save the core must not change. */
    method Replace(name: string, s: SwitchState, save: bool)
      requires Valid() && Has(switches, name) && s.name == name
      requires save || CoreOf(s) == CoreOf(Get(switches, name))
      modifies this`switches, store
      ensures Valid() && Abs() == With(old(Abs()), name, s)
      ensures store.saved == if save then Some(Saved(Abs())) else old(store.saved)
      ensures State() == Changed(old(State()), name, s, save)
    {
      WithFacts(Abs(), name, s);
      switches := Put(switches, name, s);
      if save {
        Persist();
      }
    }

    /** The entry of a switch that is not known yet. */
    method AddNew(name: string, host: string, mode: string)
      requires Valid() && !Has(switches, name)
      modifies this`switches, store
      ensures Valid() && State() == JustSaved(Registered(old(Abs()), name, host, mode))
      ensures Switch(Abs(), name).Some? && BrandNew(Switch(Abs(), name).value, name, host, mode)
    {
      RegisteredFacts(Abs(), name, host, mode);
      switches := switches + [(name, NewSwitch(name, host, mode))];
      Persist();
    }

    method RegisterSwitch(name: string, host: string, mode: string)
      requires Valid()
      modifies this`switches, store
      ensures Valid()
      ensures match Switch(old(Abs()), name)
              case None => Abs() == old(Abs()).(switches := old(switches) + [(name, NewSwitch(name, host, mode))])
              case Some(s) => Abs() == With(old(Abs()), name, s.(monitorMode := if mode == "" then s.monitorMode else mode))
      ensures Switch(old(Abs()), name).None? ==>
                Switch(Abs(), name).Some? && BrandNew(Switch(Abs(), name).value, name, host, mode)
      ensures store.saved == if Abs() == old(Abs()) then old(store.saved) else Some(Saved(Abs()))
      ensures State() == Called(old(State()), Call.Register(name, host, mode))
    {
      if !Has(switches, name) {
        AddNew(name, host, mode);
      } else {
        var s := Get(switches, name);
        if mode != "" && s.monitorMode != mode {
          Replace(name, s.(monitorMode := mode), true);
        } else {
          assert switches[IndexOf(switches, name) := (name, s)] == switches;
        }
      }
    }

    method PinVendor(name: string, vendor: string)
      requires Valid()
      modifies this`switches, store
      ensures Valid()
      ensures match Switch(old(Abs()), name)
              case None => Abs() == old(Abs())
              case Some(s) => Abs() == With(old(Abs()), name, s.(vendor := vendor))
      ensures store.saved == if Abs() == old(Abs()) then old(store.saved) else Some(Saved(Abs()))
      ensures State() == Called(old(State()), Call.PinVendor(name, vendor))
    {
      if Has(switches, name) {
        var s := Get(switches, name);
        if s.vendor != vendor {
          Replace(name, s.(vendor := vendor), true);
        } else {
          assert switches[IndexOf(switches, name) := (name, s)] == switches;
        }
      }
    }

    method SetSwitchProfile(name: string, profile: string) returns (ok: bool)
      requires Valid()
      modifies this`switches, store
      ensures Valid() && ok == Switch(old(Abs()), name).Some?
      ensures ok ==> Abs() == With(old(Abs()), name, Switch(old(Abs()), name).value.(snmpProfile := profile))
      ensures !ok ==> Abs() == old(Abs())
      ensures store.saved == if ok then Some(Saved(Abs())) else old(store.saved)
      ensures State() == Called(old(State()), Call.SetSwitchProfile(name, profile))
    {
      ok := Has(switches, name);
      if ok {
        Replace(name, Get(switches, name).(snmpProfile := profile), true);
      }
    }

    /** True when the version changed. */
    method SetOsVersion(name: string, version: string) returns (changed: bool)
      requires Valid()
      modifies this`switches, store
      ensures Valid()
      ensures changed == (Switch(old(Abs()), name).Some? && Switch(old(Abs()), name).value.osVersion != version)
      ensures changed ==> Abs() == With(old(Abs()), name, Switch(old(Abs()), name).value.(osVersion := version))
      ensures !changed ==> Abs() == old(Abs())
      ensures store.saved == if Abs() == old(Abs()) then old(store.saved) else Some(Saved(Abs()))
      ensures State() == Called(old(State()), Call.SetOsVersion(name, version))
    {
      changed := Has(switches, name) && Get(switches, name).osVersion != version;
      if changed {
        Replace(name, Get(switches, name).(osVersion := version), true);
      }
    }

    /** True when the health flipped. */
    method SetSnmpHealth(name: string, snmpOk: bool) returns (changed: bool)
      requires Valid()
      modifies this`switches, store
      ensures Valid()
      ensures changed == (Switch(old(Abs()), name).Some? && Switch(old(Abs()), name).value.snmpOk != snmpOk)
      ensures changed ==> Abs() == With(old(Abs()), name, Switch(old(Abs()), name).value.(snmpOk := snmpOk))
      ensures !changed ==> Abs() == old(Abs())
      ensures store.saved == if Abs() == old(Abs()) then old(store.saved) else Some(Saved(Abs()))
      ensures State() == Called(old(State()), Call.SetSnmpHealth(name, snmpOk))
    {
      changed := Has(switches, name) && Get(switches, name).snmpOk != snmpOk;
      if changed {
        Replace(name, Get(switches, name).(snmpOk := snmpOk), true);
      }
    }

    method SetAlertMute(name: string, muted: bool, until: Option<Time>) returns (ok: bool)
      requires Valid()
      modifies this`switches, store
      ensures Valid() && ok == Switch(old(Abs()), name).Some?
      ensures ok ==> Abs() == With(old(Abs()), name, Switch(old(Abs()), name).value.(
                                alertsMuted := muted, muteUntil := if muted then until else None))
      ensures !ok ==> Abs() == old(Abs())
      ensures store.saved == if ok then Some(Saved(Abs())) else old(store.saved)
      ensures State() == Called(old(State()), Call.SetAlertMute(name, muted, until))
    {
      ok := Has(switches, name);
      if ok {
        var s := Get(switches, name);
        var t := s.(alertsMuted := muted, muteUntil := if muted then until else None);
        assert Edited(s, Call.SetAlertMute(name, muted, until)) == Some((t, true));
        Replace(name, t, true);
      }
    }

    /** Whether emails are muted now; an expired timed mute is cleared and the clear is saved. */
    method AlertsSuppressed(name: string, now: Time) returns (muted: bool)
      requires Valid()
      modifies this`switches, store
      ensures Valid()
      ensures muted == EmailsMuted(old(Abs()), name, now)
      ensures var s := Switch(old(Abs()), name);
              && (muted <==> s.Some? && s.value.alertsMuted && (s.value.muteUntil.None? || now < s.value.muteUntil.value))
              && if s.Some? && s.value.alertsMuted && !muted
                 then Abs() == With(old(Abs()), name, s.value.(alertsMuted := false, muteUntil := None))
                 else Abs() == old(Abs())
      ensures Abs() == MuteChecked(old(Abs()), name, now)
      ensures store.saved == if Abs() == old(Abs()) then old(store.saved) else Some(Saved(Abs()))
      ensures State() == Called(old(State()), Call.CheckMute(name, now))
    {
      if !Has(switches, name) || !Get(switches, name).alertsMuted {
        return false;
      }
      var s := Get(switches, name);
      if s.muteUntil.Some? && now >= s.muteUntil.value {
        Replace(name, s.(alertsMuted := false, muteUntil := None), true);
        return false;
      }
      return true;
    }

    method SetUnmanaged(name: string, unmanaged: bool) returns (ok: bool)
      requires Valid()
      modifies this`switches, store
      ensures Valid() && ok == Switch(old(Abs()), name).Some?
      ensures ok ==> Abs() == With(old(Abs()), name, Switch(old(Abs()), name).value.(unmanaged := unmanaged))
      ensures !ok ==> Abs() == old(Abs())
      ensures store.saved == if ok then Some(Saved(Abs())) else old(store.saved)
      ensures State() == Called(old(State()), Call.SetUnmanaged(name, unmanaged))
    {
      ok := Has(switches, name);
      if ok {
        Replace(name, Get(switches, name).(unmanaged := unmanaged), true);
      }
    }

    method RemoveSwitch(name: string) returns (ok: bool)
      requires Valid()
      modifies this`switches, store
      ensures Valid() && ok == Switch(old(Abs()), name).Some?
      ensures Abs().(switches := old(switches)) == old(Abs())
      ensures forall k :: Switch(Abs(), k) == if k == name then None else Switch(old(Abs()), k)
      ensures store.saved == if ok then Some(Saved(Abs())) else old(store.saved)
      ensures State() == Called(old(State()), Call.Remove(name))
    {
      ok := Has(switches, name);
      if ok {
        var i := IndexOf(switches, name);
        WithoutFacts(switches, i);
        switches := Without(switches, i);
        Persist();
      }
    }

    /** Saves only when is_down flips. */
    method UpdateSwitch(name: string, u: Update)
      requires Valid()
      modifies this`switches, store
      ensures Valid()
      ensures match Switch(old(Abs()), name)
              case None => Abs() == old(Abs())
              case Some(s) => Abs() == With(old(Abs()), name, Updated(s, u))
      ensures var s, t := Switch(old(Abs()), name), Switch(Abs(), name);
              && (s.Some? ==> t.Some? && Applied(s.value, u, t.value))
              && store.saved == if s.Some? && t.value.isDown != s.value.isDown then Some(Saved(Abs())) else old(store.saved)
      ensures State() == Called(old(State()), Call.UpdateSwitch(name, u))
    {
      if Has(switches, name) {
        var s := Get(switches, name);
        WithFacts(Abs(), name, Updated(s, u));
        UpdatedApplies(s, u);
        Replace(name, Updated(s, u), Updated(s, u).isDown != s.isDown);
      }
    }

    /** The web UI's direct write of a switch's mode, which does not save. */
    method OverwriteMode(name: string, mode: string)
      requires Valid()
      modifies this`switches, store
      ensures Valid()
      ensures match Switch(old(Abs()), name)
              case None => Abs() == old(Abs())
              case Some(s) => Abs() == With(old(Abs()), name, s.(monitorMode := mode))
      ensures store.saved == old(store.saved)
      ensures State() == Called(old(State()), Call.OverwriteMode(name, mode))
    {
      if Has(switches, name) {
        Replace(name, Get(switches, name).(monitorMode := mode), false);
      }
    }

    method SetBackupResult(success: int, failed: int, failedDevices: seq<string>, now: Time)
      requires Valid()
      modifies this`backup, store
      ensures Valid() && Abs() == old(Abs()).(backup := BackupRun(Some(now), success, failed, failedDevices))
      ensures store.saved == Some(Saved(Abs()))
      ensures State() == Called(old(State()), Call.SetBackupResult(BackupRun(Some(now), success, failed, failedDevices)))
    {
      backup := BackupRun(Some(now), success, failed, failedDevices);
      Persist();
    }

    method SetDeviceInventory(devices: seq<(string, string)>, now: Time)
      requires Valid()
      modifies this`inventory, this`scannerLastRun, store
      ensures Valid() && Abs() == old(Abs()).(inventory := devices, scannerLastRun := Some(now))
      ensures store.saved == Some(Saved(Abs()))
      ensures State() == Called(old(State()), Call.SetDeviceInventory(devices, now))
    {
      inventory, scannerLastRun := devices, Some(now);
      Persist();
    }

    method SetArpLastRun(location: string, now: Time)
      requires Valid()
      modifies this`arpLastRun, store
      ensures Valid() && Abs() == old(Abs()).(arpLastRun := old(arpLastRun)[location := Some(now)])
      ensures store.saved == Some(Saved(Abs()))
      ensures State() == Called(old(State()), Call.SetArpLastRun(location, now))
    {
      arpLastRun := arpLastRun[location := Some(now)];
      Persist();
    }
  }
}
