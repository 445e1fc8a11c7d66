/** The agent state on the MongoDB backend: what a restart gives back, switch by switch. */
module MongoState {
  import opened Dicts
  import opened AgentState
  import Mongo = MongoStore

  /** A runtime value as stored. */
  datatype Value =
    | BackupValue(backup: BackupRun)
    | InventoryValue(inventory: seq<(string, string)>)
    | TimeValue(time: Option<Time>)
    | ArpValue(arp: map<string, Option<Time>>)

  type Payload = Mongo.Payload<SwitchDoc, Value>

  function StoredDoc(d: SwitchDoc): Mongo.Doc<SwitchDoc> {
    Mongo.Doc(d.name.GetOr(""), d)
  }

  /** The payload that a save of the memory hands to the backend. */
  function PayloadOf(m: Memory): Payload {
    var s := Saved(m);
    Mongo.Payload(
      seq(|s.switches|, i requires 0 <= i < |s.switches| => StoredDoc(s.switches[i])),
      map["backup" := BackupValue(m.backup), "device_inventory" := InventoryValue(m.inventory),
          "scanner_last_run" := TimeValue(m.scannerLastRun), "arp_last_run" := ArpValue(m.arpLastRun)])
  }

  /** The snapshot that the loader reads in a payload. */
  function SnapshotOf(p: Payload): Snapshot {
    var o := p.others;
    Snapshot(
      seq(|p.switches|, i requires 0 <= i < |p.switches| => p.switches[i].fields),
      if "backup" in o && o["backup"].BackupValue? then Some(o["backup"].backup) else None,
      if "device_inventory" in o && o["device_inventory"].InventoryValue? then Some(o["device_inventory"].inventory) else None,
      if "scanner_last_run" in o && o["scanner_last_run"].TimeValue? then o["scanner_last_run"].time else None,
      if "arp_last_run" in o && o["arp_last_run"].ArpValue? then Some(o["arp_last_run"].arp) else None)
  }

  /** The entry is usable and for this name. */
  predicate IsFor(doc: SwitchDoc, k: string) {
    Entry(doc).Some? && Entry(doc).value.name == k
  }

  lemma LoadedStep(docs: seq<SwitchDoc>, n: nat, k: string)
    requires n < |docs|
    ensures Lookup(LoadedSwitches(docs, n + 1), k)
         == if IsFor(docs[n], k) then Entry(docs[n]) else Lookup(LoadedSwitches(docs, n), k)
  {
    LoadedIsNamed(docs, n);
    var e := Entry(docs[n]);
    if e.Some? {
      PutGet(LoadedSwitches(docs, n), e.value.name, e.value, k);
    }
  }

  /** What the first n documents leave under a name: nothing without a usable entry ... */
  lemma {:induction false} LoadedNone(docs: seq<SwitchDoc>, n: nat, k: string, found: Option<SwitchState>)
    requires n <= |docs| && found == Lookup(LoadedSwitches(docs, n), k)
    requires forall i :: 0 <= i < n ==> !IsFor(docs[i], k)
    ensures found == None
  {
    if n > 0 {
      LoadedNone(docs, n - 1, k, Lookup(LoadedSwitches(docs, n - 1), k));
      LoadedStep(docs, n - 1, k);
    }
  }

  /** ... and otherwise the last one. */
  lemma {:induction false} LoadedLast(docs: seq<SwitchDoc>, n: nat, k: string, i: nat, found: Option<SwitchState>)
    requires i < n <= |docs| && found == Lookup(LoadedSwitches(docs, n), k)
    requires IsFor(docs[i], k) && forall j :: i < j < n ==> !IsFor(docs[j], k)
    ensures found == Entry(docs[i])
  {
    LoadedStep(docs, n - 1, k);
    if i < n - 1 {
      LoadedLast(docs, n - 1, k, i, Lookup(LoadedSwitches(docs, n - 1), k));
    }
  }

  /** What the backend gives back for a saved payload: the named documents, each once, and the runtime keys. */
  ghost predicate GivenBack(p: Payload, q: Payload) {
    && (forall d :: d in q.switches <==> d in p.switches && d.name != "")
    && Mongo.DistinctNames(q.switches)
    && q.others == Mongo.Runtime(p.others)
  }

  lemma PayloadNames(m: Memory)
    requires Named(m.switches)
    ensures Mongo.DistinctNames(PayloadOf(m).switches)
    ensures forall i :: 0 <= i < |m.switches| ==> PayloadOf(m).switches[i] == Mongo.Doc(m.switches[i].0, Doc(m.switches[i].1))
  {
  }

  /** A document that comes back is one of the memory's switches. */
  lemma ComesFrom(m: Memory, q: Payload, i: nat) returns (x: nat)
    requires Named(m.switches) && GivenBack(PayloadOf(m), q) && i < |q.switches|
    ensures x < |m.switches| && q.switches[i].fields == Doc(m.switches[x].1) && q.switches[i].name == m.switches[x].0
  {
    PayloadNames(m);
    assert q.switches[i] in PayloadOf(m).switches;
    x :| 0 <= x < |PayloadOf(m).switches| && PayloadOf(m).switches[x] == q.switches[i];
  }

  lemma NamedOnce(m: Memory, q: Payload, i: nat, j: nat)
    requires Named(m.switches) && GivenBack(PayloadOf(m), q) && i < j < |q.switches|
    ensures q.switches[i].fields.name != q.switches[j].fields.name
  {
    var x := ComesFrom(m, q, i);
    var y := ComesFrom(m, q, j);
    assert q.switches[i] in q.switches;
  }

  lemma FoundAgain(m: Memory, q: Payload, k: string)
    requires Named(m.switches) && GivenBack(PayloadOf(m), q)
    ensures Switch(Loaded(Some(SnapshotOf(q))), k)
         == if Switch(m, k).Some? then Restored(Switch(m, k).value) else None
  {
    var docs := SnapshotOf(q).switches;
    if Has(m.switches, k) && Storable(Get(m.switches, k)) {
      var i := StoredAt(m, q, k);
      forall j | i < j < |docs| ensures !IsFor(docs[j], k) {
        NamedOnce(m, q, i, j);
      }
      LoadedLast(docs, |docs|, k, i, Lookup(LoadedSwitches(docs, |docs|), k));
    } else {
      forall i | 0 <= i < |docs| ensures !IsFor(docs[i], k) {
        var x := ComesFrom(m, q, i);
        EntryOfDoc(m.switches[x].1);
        IndexOfAt(m.switches, x);
      }
      LoadedNone(docs, |docs|, k, Lookup(LoadedSwitches(docs, |docs|), k));
    }
  }

  /** Where a switch's document comes back. */
  lemma StoredAt(m: Memory, q: Payload, k: string) returns (i: nat)
    requires Named(m.switches) && GivenBack(PayloadOf(m), q)
    requires Has(m.switches, k) && Storable(Get(m.switches, k))
    ensures i < |q.switches| && IsFor(q.switches[i].fields, k)
    ensures Entry(q.switches[i].fields) == Restored(Get(m.switches, k))
  {
    var x := IndexOf(m.switches, k);
    PayloadNames(m);
    var d := PayloadOf(m).switches[x];
    assert d in q.switches;
    i :| 0 <= i < |q.switches| && q.switches[i] == d;
    EntryOfDoc(m.switches[x].1);
  }

  /**
   * Saved to MongoDB and loaded again, in whatever order the documents come: every switch is under its name what the
   * plain snapshot would have restored, and everything else is as it was.
   */
  lemma MongoRestores(m: Memory, q: Payload)
    requires Named(m.switches) && GivenBack(PayloadOf(m), q)
    ensures var m' := Loaded(Some(SnapshotOf(q)));
            && (forall k :: Switch(m', k) == if Switch(m, k).Some? then Restored(Switch(m, k).value) else None)
            && m'.backup == m.backup && m'.inventory == m.inventory
            && m'.scannerLastRun == m.scannerLastRun && m'.arpLastRun == m.arpLastRun
  {
    forall k ensures Switch(Loaded(Some(SnapshotOf(q))), k)
                  == if Switch(m, k).Some? then Restored(Switch(m, k).value) else None {
      FoundAgain(m, q, k);
    }
  }

  /** A save and a restart on a MongoDB store with any prior contents. */
  method SaveAndRestart(m: Memory, store: Mongo.MongoStore<SwitchDoc, Value>) returns (m': Memory)
    requires Named(m.switches)
    modifies store
    ensures forall k :: Switch(m', k) == if Switch(m, k).Some? then Restored(Switch(m, k).value) else None
    ensures m'.backup == m.backup && m'.inventory == m.inventory
    ensures m'.scannerLastRun == m.scannerLastRun && m'.arpLastRun == m.arpLastRun
  {
    PayloadNames(m);
    var p := PayloadOf(m);
    assert "backup" in Mongo.Runtime(p.others);
    var q := store.SaveThenLoad(p);
    MongoRestores(m, q.value);
    m' := Loaded(Some(SnapshotOf(q.value)));
  }

  /** Nothing that must survive a restart is lost: every switch that can be stored comes back under its name with its core. */
  ghost predicate DurableByName(m: Memory, m': Memory) {
    && (forall k :: Switch(m', k).Some? <==> Switch(m, k).Some? && Storable(Switch(m, k).value))
    && (forall k :: Switch(m', k).Some? ==> CoreOf(Switch(m', k).value) == CoreOf(Switch(m, k).value))
    && m'.backup == m.backup && m'.inventory == m.inventory
    && m'.scannerLastRun == m.scannerLastRun && m'.arpLastRun == m.arpLastRun
  }

  lemma OlderRestores(m: Memory, older: Memory, q: Payload, k: string)
    requires Named(m.switches) && Named(older.switches) && DurableOf(older) == DurableOf(m)
    requires GivenBack(PayloadOf(older), q)
    ensures var found := Switch(Loaded(Some(SnapshotOf(q))), k);
            && (found.Some? <==> Switch(m, k).Some? && Storable(Switch(m, k).value))
            && (found.Some? ==> CoreOf(found.value) == CoreOf(Switch(m, k).value))
  {
    FoundAgain(older, q, k);
    if Has(older.switches, k) && Storable(Get(older.switches, k)) {
      RestoredCore(Get(older.switches, k));
      SameCore(older, m, k);
    } else if Has(m.switches, k) && Storable(Get(m.switches, k)) {
      SameCore(m, older, k);
    }
  }

  /**
   * On MongoDB, after any sequence of calls since a first save: the backend holds the payload of some memory, perhaps
   * an older one, and whatever order its documents come back in, a restart loses nothing that must survive it.
   */
  lemma CallsSurvive(h: Host, first: Memory, calls: seq<Call>, q: Payload) returns (older: Memory)
    requires Sound(h) && Named(first.switches) && h.saved == Some(Saved(first))
    ensures CalledAll(h, calls).saved == Some(Saved(older))
    ensures GivenBack(PayloadOf(older), q) ==> DurableByName(CalledAll(h, calls).memory, Loaded(Some(SnapshotOf(q))))
  {
    older := StoreIsSnapshot(h, first, calls);
    var m := CalledAll(h, calls).memory;
    if GivenBack(PayloadOf(older), q) {
      MongoRestores(older, q);
      forall k
        ensures var found := Switch(Loaded(Some(SnapshotOf(q))), k);
                && (found.Some? <==> Switch(m, k).Some? && Storable(Switch(m, k).value))
                && (found.Some? ==> CoreOf(found.value) == CoreOf(Switch(m, k).value))
      {
        OlderRestores(m, older, q, k);
      }
    }
  }
}
