/**
 * The MongoDB backend: one document per named switch and one runtime document, against the plain snapshot
 * they stand for. Collections have no order; unordered bulk operations and cursors may take any.
 */
module MongoStore {
  import opened Dicts

  /** A stored switch: its name (empty when absent) and the rest of its fields. */
  datatype Doc<F> = Doc(name: string, fields: F)

  /** A payload: the switch list, and the other top-level keys. */
  datatype Payload<F, V> = Payload(switches: seq<Doc<F>>, others: map<string, V>)

  const RUNTIME_KEYS := {"backup", "device_inventory", "scanner_last_run", "arp_last_run"}

  /** The names of the switches that have one. */
  function Names<F>(switches: seq<Doc<F>>): set<string> {
    set i | 0 <= i < |switches| && switches[i].name != "" :: switches[i].name
  }

  predicate DistinctNames<F>(switches: seq<Doc<F>>) {
    forall i, j :: 0 <= i < j < |switches| && switches[i].name != "" ==> switches[i].name != switches[j].name
  }

  /** d is one of the payload's documents for a name. */
  predicate OneOf<F(==)>(switches: seq<Doc<F>>, name: string, d: Doc<F>) {
    d in switches && d.name == name && name != ""
  }

  /** The plain snapshot of distinct names as a map. */
  ghost predicate IsByName<F>(switches: seq<Doc<F>>, m: map<string, Doc<F>>) {
    m.Keys == Names(switches) && forall s :: s in switches && s.name != "" ==> s.name in m && m[s.name] == s
  }

  function Runtime<V>(others: map<string, V>): map<string, V> {
    map k | k in others && k in RUNTIME_KEYS :: others[k]
  }

  /** docs holds the document of every id once; ids is the order in which the cursor gave them. */
  ghost predicate Lists<F>(docs: seq<Doc<F>>, ids: seq<string>, devices: map<string, Doc<F>>) {
    && |docs| == |ids|
    && (forall i :: 0 <= i < |ids| ==> ids[i] in devices && docs[i] == devices[ids[i]])
    && (forall i, j :: 0 <= i < j < |ids| ==> ids[i] != ids[j])
    && (forall id :: id in devices ==> id in ids)
  }

  class MongoStore<F(==), V> {
    var devices: map<string, Doc<F>>
    var runtime: Option<map<string, V>>

    constructor (devices: map<string, Doc<F>>, runtime: Option<map<string, V>>)
      ensures this.devices == devices && this.runtime == runtime
    {
      this.devices, this.runtime := devices, runtime;
    }

    /**
     * Whatever was stored before, and in whatever order the unordered upserts happen: exactly the named switches
     * remain, each as one of the payload's documents of that name, and the runtime document holds the payload's.
     */
    method Save(p: Payload<F, V>)
      modifies this
      ensures devices.Keys == Names(p.switches)
      ensures forall name :: name in devices ==> OneOf(p.switches, name, devices[name])
      ensures runtime == Some(Runtime(p.others))
    {
      var ops := set i | 0 <= i < |p.switches| && p.switches[i].name != "";
      var todo := ops;
      while todo != {}
        invariant todo <= ops
        invariant forall i :: i in ops - todo ==>
          p.switches[i].name in devices && OneOf(p.switches, p.switches[i].name, devices[p.switches[i].name])
      {
        var i :| i in todo;
        devices := devices[p.switches[i].name := p.switches[i]];
        todo := todo - {i};
      }
      var names := Names(p.switches);
      forall name | name in names
        ensures name in devices && OneOf(p.switches, name, devices[name])
      {
        var i :| 0 <= i < |p.switches| && p.switches[i].name == name && name != "";
        assert i in ops - todo;
      }
      devices := map name | name in devices && name in names :: devices[name];
      runtime := Some(Runtime(p.others));
    }

    /** None when nothing is stored; otherwise every document once, in some order, and the runtime keys. */
    method Load() returns (p: Option<Payload<F, V>>, ghost ids: seq<string>)
      ensures p.None? <==> devices == map[] && runtime.GetOr(map[]) == map[]
      ensures p.Some? ==> Lists(p.value.switches, ids, devices) && p.value.others == Runtime(runtime.GetOr(map[]))
    {
      var docs: seq<Doc<F>> := [];
      ids := [];
      var rest := devices.Keys;
      while rest != {}
        invariant rest <= devices.Keys
        invariant |docs| == |ids| && forall i :: 0 <= i < |ids| ==> ids[i] in devices && docs[i] == devices[ids[i]]
        invariant forall i, j :: 0 <= i < j < |ids| ==> ids[i] != ids[j]
        invariant forall id :: id in devices ==> (id in rest <==> id !in ids)
      {
        var id :| id in rest;
        assert forall x :: x in ids + [id] <==> x in ids || x == id;
        docs, ids, rest := docs + [devices[id]], ids + [id], rest - {id};
      }
      if docs == [] && runtime.GetOr(map[]) == map[] {
        assert forall id :: id !in devices;
        return None, ids;
      }
      assert docs != [] ==> ids[0] in devices;
      return Some(Payload(docs, Runtime(runtime.GetOr(map[])))), ids;
    }

    /** The refinement: a save of distinct names, then a load, is the plain snapshot - whatever was stored before. */
    method SaveThenLoad(p: Payload<F, V>) returns (q: Option<Payload<F, V>>)
      requires DistinctNames(p.switches)
      modifies this
      ensures q.None? <==> Names(p.switches) == {} && Runtime(p.others) == map[]
      ensures q.Some? ==>
        && (forall d :: d in q.value.switches <==> d in p.switches && d.name != "")
        && DistinctNames(q.value.switches)
        && q.value.others == Runtime(p.others)
    {
      Save(p);
      ghost var ids;
      q, ids := Load();
      DistinctDocs(p.switches, devices);
      if q.Some? {
        ghost var docs := q.value.switches;
        forall d ensures d in docs <==> d in p.switches && d.name != "" {
          if d in p.switches && d.name != "" {
            var i :| 0 <= i < |ids| && ids[i] == d.name;
            assert docs[i] == d;
          }
        }
      }
    }
  }

  /** With distinct names, a document stored under a name is the payload's only document of that name. */
  lemma DistinctDocs<F>(switches: seq<Doc<F>>, m: map<string, Doc<F>>)
    requires DistinctNames(switches) && m.Keys == Names(switches)
    requires forall name :: name in m ==> OneOf(switches, name, m[name])
    ensures IsByName(switches, m)
  {
    forall s | s in switches && s.name != "" ensures s.name in m && m[s.name] == s {
      assert s.name in Names(switches);
      var i :| 0 <= i < |switches| && switches[i] == s;
      var j :| 0 <= j < |switches| && switches[j] == m[s.name];
    }
  }
}
