/** The stored forwarding tables of all devices, and the edge-port search over them. */
module MacSearch {
  import opened Dicts
  import Fdb

  datatype Row = Row(device: string, mac: string, ifIndex: string, count: nat)

  function OfDevice(device: string, records: seq<Fdb.Record>): (rows: seq<Row>)
    ensures |rows| == |records|
    ensures forall i :: 0 <= i < |rows| ==>
              rows[i] == Row(device, records[i].mac, records[i].ifIndex, records[i].portMacCount)
  {
    if records == [] then []
    else [Row(device, records[0].mac, records[0].ifIndex, records[0].portMacCount)] + OfDevice(device, records[1..])
  }

  function Others(rows: seq<Row>, device: string): (r: seq<Row>)
    ensures forall x :: x in r <==> x in rows && x.device != device
  {
    if rows == [] then [] else (if rows[0].device != device then [rows[0]] else []) + Others(rows[1..], device)
  }

  /** One device's rows, in stored order. */
  function RowsFor(rows: seq<Row>, device: string): seq<Row> {
    if rows == [] then [] else OneFor(rows[0], device) + RowsFor(rows[1..], device)
  }

  function OneFor(r: Row, device: string): seq<Row> {
    if r.device == device then [r] else []
  }

  lemma RowsForCons(r: Row, rows: seq<Row>, device: string)
    ensures RowsFor([r] + rows, device) == OneFor(r, device) + RowsFor(rows, device)
  {
    assert ([r] + rows)[1..] == rows;
  }

  lemma {:induction false} RowsForSum(a: seq<Row>, b: seq<Row>, device: string)
    ensures RowsFor(a + b, device) == RowsFor(a, device) + RowsFor(b, device)
  {
    if a == [] {
      assert a + b == b;
    } else {
      var rest := a[1..];
      assert a + b == [a[0]] + (rest + b);
      RowsForSum(rest, b, device);
      RowsForCons(a[0], rest + b, device);
      var h, x, y := OneFor(a[0], device), RowsFor(rest, device), RowsFor(b, device);
      assert h + (x + y) == (h + x) + y;
    }
  }

  lemma {:induction false} RowsForOthers(rows: seq<Row>, gone: string, device: string)
    ensures RowsFor(Others(rows, gone), device) == if device == gone then [] else RowsFor(rows, device)
  {
    if rows != [] {
      RowsForOthers(rows[1..], gone, device);
      var head := if rows[0].device != gone then [rows[0]] else [];
      RowsForSum(head, Others(rows[1..], gone), device);
      RowsForCons(rows[0], [], device);
      assert [rows[0]] + [] == [rows[0]];
    }
  }

  lemma {:induction false} RowsForOne(records: seq<Fdb.Record>, owner: string, device: string)
    ensures RowsFor(OfDevice(owner, records), device) == if device == owner then OfDevice(owner, records) else []
  {
    if records != [] {
      RowsForOne(records[1..], owner, device);
      assert OfDevice(owner, records)[1..] == OfDevice(owner, records[1..]);
    }
  }

  /** After a save the device has exactly its records' rows, and every other device what it had. */
  lemma SavedRows(rows: seq<Row>, owner: string, records: seq<Fdb.Record>, device: string)
    ensures RowsFor(Others(rows, owner) + OfDevice(owner, records), device)
         == if device == owner then OfDevice(owner, records) else RowsFor(rows, device)
  {
    RowsForSum(Others(rows, owner), OfDevice(owner, records), device);
    RowsForOthers(rows, owner, device);
    RowsForOne(records, owner, device);
  }

  ghost predicate Ascending(rows: seq<Row>) {
    forall i, j :: 0 <= i < j < |rows| ==> rows[i].count <= rows[j].count
  }

  /** The positions of an address's rows. */
  function Matching(rows: seq<Row>, mac: string): set<nat> {
    set i | 0 <= i < |rows| && rows[i].mac == mac
  }

  /** A cursor's limit counts by its size: a negative one only asks for a single batch; 0 is no limit. */
  function Cap(limit: int): nat {
    if limit < 0 then -limit else limit
  }

  /**
   * A sorted and limited cursor: distinct matching rows in ascending order, ties in any order; what the limit cut
   * off is nowhere smaller, and nothing is cut off below the limit (0 means no limit).
   */
  ghost predicate IsCursor(rows: seq<Row>, mac: string, limit: int, out: seq<Row>, picked: seq<nat>) {
    && |out| == |picked| && (limit != 0 ==> |out| <= Cap(limit))
    && (forall x :: 0 <= x < |out| ==> picked[x] in Matching(rows, mac) && out[x] == rows[picked[x]])
    && (forall x, y :: 0 <= x < y < |picked| ==> picked[x] != picked[y])
    && Ascending(out)
    && (forall i :: i in Matching(rows, mac) && i !in picked ==>
          limit != 0 && |out| == Cap(limit) && forall x :: 0 <= x < |out| ==> out[x].count <= rows[i].count)
  }

  lemma SmallestExists(rows: seq<Row>, rest: set<nat>)
    requires rest != {} && forall i :: i in rest ==> i < |rows|
    ensures exists m :: m in rest && forall i :: i in rest ==> rows[m].count <= rows[i].count
  {
    LeastExists(rest, map i: nat | i < |rows| :: rows[i].count as int);
  }

  /** The matching rows split into those given so far, ascending, and the rest, none of them smaller. */
  ghost predicate Given(rows: seq<Row>, mac: string, out: seq<Row>, picked: seq<nat>, rest: set<nat>) {
    && rest <= Matching(rows, mac) && |out| == |picked|
    && (forall x :: 0 <= x < |out| ==>
          picked[x] in Matching(rows, mac) && picked[x] !in rest && out[x] == rows[picked[x]])
    && (forall x, y :: 0 <= x < y < |picked| ==> picked[x] != picked[y])
    && Ascending(out)
    && (forall i, x :: i in rest && 0 <= x < |out| ==> out[x].count <= rows[i].count)
    && (forall i :: i in Matching(rows, mac) && i !in rest ==> i in picked)
  }

  lemma GiveNext(rows: seq<Row>, mac: string, out: seq<Row>, picked: seq<nat>, rest: set<nat>, m: nat)
    requires Given(rows, mac, out, picked, rest) && m in rest
    requires forall i :: i in rest ==> rows[m].count <= rows[i].count
    ensures Given(rows, mac, out + [rows[m]], picked + [m], rest - {m})
  {
    assert forall i :: i in picked || i == m ==> i in picked + [m];
  }

  class FdbStore {
    var rows: seq<Row>

    constructor ()
      ensures rows == []
    {
      rows := [];
    }

    /** This device's rows are exactly the records, in order; every other device keeps its rows in order. */
    method SaveFdb(device: string, records: seq<Fdb.Record>)
      modifies this
      ensures RowsFor(rows, device) == OfDevice(device, records)
      ensures forall other :: other != device ==> RowsFor(rows, other) == RowsFor(old(rows), other)
      ensures Others(old(rows), device) <= rows && |rows| == |Others(old(rows), device)| + |records|
    {
      forall d ensures RowsFor(Others(rows, device) + OfDevice(device, records), d)
                    == if d == device then OfDevice(device, records) else RowsFor(rows, d) {
        SavedRows(rows, device, records, d);
      }
      rows := Others(rows, device) + OfDevice(device, records);
    }

    /** find, sort by port_mac_count, limit - whatever order the server gives equal counts. */
    method SearchFdb(mac: string, limit: int) returns (out: seq<Row>, ghost picked: seq<nat>)
      ensures IsCursor(rows, mac, limit, out, picked)
      ensures Ascending(out) && forall r :: r in out ==> r in rows && r.mac == mac
      ensures (limit > 0 ==> |out| <= limit) && (limit < 0 ==> |out| <= -limit)
      ensures limit == 0 || (limit > 0 && |out| < limit) || (limit < 0 && |out| < -limit) ==>
                forall r :: r in rows && r.mac == mac ==> r in out
    {
      out, picked := [], [];
      var rest, cap := Matching(rows, mac), Cap(limit);
      while rest != {} && (cap == 0 || |out| < cap)
        invariant Given(rows, mac, out, picked, rest) && (limit != 0 ==> |out| <= cap)
        decreases |rest|
      {
        SmallestExists(rows, rest);
        var m :| m in rest && forall i :: i in rest ==> rows[m].count <= rows[i].count;
        GiveNext(rows, mac, out, picked, rest, m);
        out, picked, rest := out + [rows[m]], picked + [m], rest - {m};
      }
      forall r | r in rows && r.mac == mac && rest == {} ensures r in out {
        var i :| 0 <= i < |rows| && rows[i] == r;
        assert i in picked;
      }
    }
  }

  /** sorted(..., key=port_mac_count): a stable insertion sort. */
  function Insert(r: Row, sorted: seq<Row>): seq<Row> {
    if sorted == [] || r.count <= sorted[0].count then [r] + sorted else [sorted[0]] + Insert(r, sorted[1..])
  }

  function Sorted(rows: seq<Row>): seq<Row> {
    if rows == [] then [] else Insert(rows[0], Sorted(rows[1..]))
  }

  /** Sorting an ascending list changes nothing. */
  lemma {:induction false} SortedAscending(rows: seq<Row>)
    requires Ascending(rows)
    ensures Sorted(rows) == rows
  {
    if rows != [] {
      SortedAscending(rows[1..]);
    }
  }

  /** best after the first n rows: the first row of each device, replaced by any strictly smaller later one. */
  function Best(rows: seq<Row>, n: nat): Dict<string, Row>
    requires n <= |rows|
  {
    if n == 0 then []
    else
      var best, r := Best(rows, n - 1), rows[n - 1];
      if !Has(best, r.device) || r.count < Get(best, r.device).count then Put(best, r.device, r) else best
  }

  function Values(best: Dict<string, Row>): (rows: seq<Row>)
    ensures |rows| == |best| && forall i :: 0 <= i < |best| ==> rows[i] == best[i].1
  {
    if best == [] then [] else [best[0].1] + Values(best[1..])
  }

  /** Best keeps one entry per device, filed under its device. */
  lemma {:induction false} BestKeys(rows: seq<Row>, n: nat)
    requires n <= |rows|
    ensures DistinctKeys(Best(rows, n)) && |Best(rows, n)| <= n
    ensures forall x :: 0 <= x < |Best(rows, n)| ==> Best(rows, n)[x].1.device == Best(rows, n)[x].0
  {
    if n > 0 {
      BestKeys(rows, n - 1);
      PutKeepsDistinct(Best(rows, n - 1), rows[n - 1].device, rows[n - 1]);
    }
  }

  /** Every entry is one of the rows. */
  lemma {:induction false} BestFrom(rows: seq<Row>, n: nat, x: nat) returns (i: nat)
    requires n <= |rows| && x < |Best(rows, n)|
    ensures i < n && rows[i] == Best(rows, n)[x].1
  {
    var prev := Best(rows, n - 1);
    if x < |prev| && Best(rows, n)[x] == prev[x] {
      i := BestFrom(rows, n - 1, x);
    } else {
      i := n - 1;
    }
  }

  lemma BestStep(rows: seq<Row>, n: nat, device: string)
    requires n < |rows|
    ensures var before, r := Lookup(Best(rows, n), device), rows[n];
            Lookup(Best(rows, n + 1), device)
            == if r.device == device && (before.None? || r.count < before.value.count) then Some(r) else before
  {
    BestKeys(rows, n);
    PutGet(Best(rows, n), rows[n].device, rows[n], device);
  }

  /** Every row's device has an entry, and no row of the device is smaller than it. */
  lemma {:induction false} BestIsSmallest(rows: seq<Row>, n: nat, i: nat)
    requires i < n <= |rows|
    ensures var found := Lookup(Best(rows, n), rows[i].device);
            found.Some? && found.value.count <= rows[i].count
  {
    BestStep(rows, n - 1, rows[i].device);
    if i < n - 1 {
      BestIsSmallest(rows, n - 1, i);
    }
  }

  lemma AscendingSnoc(rows: seq<Row>, r: Row)
    requires Ascending(rows) && forall i :: 0 <= i < |rows| ==> rows[i].count <= r.count
    ensures Ascending(rows + [r])
  {
  }

  lemma ValuesSnoc(best: Dict<string, Row>, k: string, r: Row)
    ensures Values(best + [(k, r)]) == Values(best) + [r]
  {
  }

  /** Over ascending rows no entry is ever replaced. */
  lemma BestGrows(rows: seq<Row>, n: nat)
    requires Ascending(rows) && n < |rows|
    ensures Best(rows, n + 1) == Best(rows, n) || Best(rows, n + 1) == Best(rows, n) + [(rows[n].device, rows[n])]
    ensures forall x :: 0 <= x < |Best(rows, n)| ==> Best(rows, n)[x].1.count <= rows[n].count
  {
    forall x | 0 <= x < |Best(rows, n)| ensures Best(rows, n)[x].1.count <= rows[n].count {
      var i := BestFrom(rows, n, x);
    }
  }

  lemma {:induction false} EntriesAscend(before: Dict<string, Row>, after: Dict<string, Row>, r: Row)
    requires Ascending(Values(before)) && (after == before || after == before + [(r.device, r)])
    requires forall x :: 0 <= x < |before| ==> before[x].1.count <= r.count
    ensures Ascending(Values(after))
  {
    if after != before {
      ValuesSnoc(before, r.device, r);
      AscendingSnoc(Values(before), r);
    }
  }

  /** So the entries ascend too. */
  lemma {:induction false} BestAscends(rows: seq<Row>, n: nat, best: Dict<string, Row>)
    requires Ascending(rows) && n <= |rows| && best == Best(rows, n)
    ensures Ascending(Values(best))
  {
    if n > 0 {
      var before := Best(rows, n - 1);
      BestAscends(rows, n - 1, before);
      BestGrows(rows, n - 1);
      EntriesAscend(before, best, rows[n - 1]);
    }
  }

  /** The rows a search for edge ports keeps. */
  function EdgeRows(rows: seq<Row>): seq<Row> {
    Sorted(Values(Best(rows, |rows|)))
  }

  lemma EdgeRowsAre(rows: seq<Row>)
    requires Ascending(rows)
    ensures EdgeRows(rows) == Values(Best(rows, |rows|))
    ensures Ascending(EdgeRows(rows)) && |EdgeRows(rows)| <= |rows|
    ensures forall i, j :: 0 <= i < j < |EdgeRows(rows)| ==> EdgeRows(rows)[i].device != EdgeRows(rows)[j].device
  {
    BestKeys(rows, |rows|);
    BestAscends(rows, |rows|, Best(rows, |rows|));
    SortedAscending(Values(Best(rows, |rows|)));
  }

  /** The smallest of all the stored rows its device has for the address. */
  predicate IsEdge(rows: seq<Row>, mac: string, r: Row) {
    r in rows && r.mac == mac && forall s :: s in rows && s.mac == mac && s.device == r.device ==> r.count <= s.count
  }

  /** A limited cursor still shows the smallest row of every device it shows. */
  lemma EdgeRowIsEdge(rows: seq<Row>, mac: string, limit: int, out: seq<Row>, picked: seq<nat>, k: nat)
    requires IsCursor(rows, mac, limit, out, picked) && k < |EdgeRows(out)|
    ensures IsEdge(rows, mac, EdgeRows(out)[k])
  {
    EdgeRowsAre(out);
    BestKeys(out, |out|);
    var best, r := Best(out, |out|), EdgeRows(out)[k];
    var y := BestFrom(out, |out|, k);
    forall s | s in rows && s.mac == mac && s.device == r.device ensures r.count <= s.count {
      var i :| 0 <= i < |rows| && rows[i] == s;
      assert i in Matching(rows, mac);
      if i in picked {
        var x :| 0 <= x < |picked| && picked[x] == i;
        assert out[x] == s;
        BestIsSmallest(out, |out|, x);
        IndexOfAt(best, k);
      }
    }
  }

  /** A limit that covers all matching rows cuts none of them off. */
  lemma NoneCutOff(rows: seq<Row>, mac: string, limit: int, out: seq<Row>, picked: seq<nat>, i: nat)
    requires IsCursor(rows, mac, limit, out, picked)
    requires limit == 0 || |Matching(rows, mac)| <= Cap(limit)
    requires i in Matching(rows, mac)
    ensures i in picked
  {
    if i !in picked {
      WithinSize(picked + [i], Matching(rows, mac));
    }
  }

  /** Then every device that holds the address appears in the answer. */
  lemma EveryDeviceShown(rows: seq<Row>, mac: string, limit: int, out: seq<Row>, picked: seq<nat>, s: Row)
    requires IsCursor(rows, mac, limit, out, picked)
    requires limit == 0 || |Matching(rows, mac)| <= Cap(limit)
    requires s in rows && s.mac == mac
    ensures exists r :: r in EdgeRows(out) && r.device == s.device
  {
    var i :| 0 <= i < |rows| && rows[i] == s;
    NoneCutOff(rows, mac, limit, out, picked, i);
    var x :| 0 <= x < |picked| && picked[x] == i;
    assert out[x] == s;
    EdgeRowsAre(out);
    BestKeys(out, |out|);
    BestIsSmallest(out, |out|, x);
    var k := IndexOf(Best(out, |out|), s.device);
    assert EdgeRows(out)[k].device == s.device;
  }

  /**
   * One row per device, ascending, each the smallest among all the device's stored rows for the address although the
   * store truncates its answer; while the limit covers the matching rows no device with the address is missing.
   */
  ghost predicate IsEdgeAnswer(rows: seq<Row>, mac: string, limit: int, result: seq<Row>) {
    && Ascending(result) && (limit != 0 ==> |result| <= Cap(limit))
    && (forall i, j :: 0 <= i < j < |result| ==> result[i].device != result[j].device)
    && (forall k :: 0 <= k < |result| ==> IsEdge(rows, mac, result[k]))
    && (limit == 0 || |Matching(rows, mac)| <= Cap(limit) ==>
          forall s :: s in rows && s.mac == mac ==> exists r :: r in result && r.device == s.device)
  }

  lemma EdgeAnswer(rows: seq<Row>, mac: string, limit: int, out: seq<Row>, picked: seq<nat>)
    requires IsCursor(rows, mac, limit, out, picked)
    ensures IsEdgeAnswer(rows, mac, limit, EdgeRows(out))
  {
    EdgeRowsAre(out);
    forall k | 0 <= k < |EdgeRows(out)| ensures IsEdge(rows, mac, EdgeRows(out)[k]) {
      EdgeRowIsEdge(rows, mac, limit, out, picked, k);
    }
    if limit == 0 || |Matching(rows, mac)| <= Cap(limit) {
      forall s | s in rows && s.mac == mac ensures exists r :: r in EdgeRows(out) && r.device == s.device {
        EveryDeviceShown(rows, mac, limit, out, picked, s);
      }
    }
  }

  lemma {:induction false} RowsForIn(rows: seq<Row>, device: string, r: Row)
    ensures r in RowsFor(rows, device) <==> r in rows && r.device == device
  {
    if rows != [] {
      RowsForIn(rows[1..], device, r);
    }
  }

  /**
   * From the walk to the answer: an address that a cell of a device's table says is on an interface is found by every
   * spelling of its octets - the edge search names the device while the limit covers the matching rows.
   */
  lemma WalkedIsFound(rows: seq<Row>, device: string, records: seq<Fdb.Record>, cells: Dict<string, string>,
                      vlanAware: bool, baseIf: Dict<string, string>, i: nat, vlan: int, octets: seq<int>, ifIndex: string,
                      query: string, mac: string, limit: int, result: seq<Row>)
    requires RowsFor(rows, device) == OfDevice(device, records) && Fdb.AllListed(records, cells, vlanAware, baseIf)
    requires i < |cells|
    ensures Fdb.Says(cells[i], vlanAware, baseIf, vlan, octets, ifIndex) && Fdb.Reads(mac, octets)
            && Fdb.Spells(query, mac) ==>
              && Fdb.NormalizeMac(query) == Some(mac)
              && (exists r :: r in rows && r.device == device && r.mac == mac && r.ifIndex == ifIndex)
              && (IsEdgeAnswer(rows, mac, limit, result) && (limit == 0 || |Matching(rows, mac)| <= Cap(limit)) ==>
                    exists r :: r in result && r.device == device)
  {
    if Fdb.Says(cells[i], vlanAware, baseIf, vlan, octets, ifIndex) && Fdb.Reads(mac, octets) && Fdb.Spells(query, mac) {
      Fdb.NormalizeExactly(query, mac);
      assert Fdb.Listed(records, octets, ifIndex);
      var j :| 0 <= j < |records| && Fdb.Reads(records[j].mac, octets) && records[j].ifIndex == ifIndex;
      Fdb.ReadsUnique(records[j].mac, mac, octets);
      var r := OfDevice(device, records)[j];
      assert r in RowsFor(rows, device);
      RowsForIn(rows, device, r);
    }
  }

  /** Looks an address up in any spelling: all stored rows the cursor gives, or the edge ports only. */
  method Search(store: FdbStore, query: string, edgeOnly: bool, limit: int) returns (result: seq<Row>)
    ensures Fdb.NormalizeMac(query).None? ==> result == []
    ensures Fdb.NormalizeMac(query).Some? && edgeOnly ==>
      IsEdgeAnswer(store.rows, Fdb.NormalizeMac(query).value, limit, result)
    ensures Fdb.NormalizeMac(query).Some? && !edgeOnly ==>
      exists picked :: IsCursor(store.rows, Fdb.NormalizeMac(query).value, limit, result, picked)
    ensures (limit > 0 ==> |result| <= limit) && (limit < 0 ==> |result| <= -limit)
  {
    var canon := Fdb.NormalizeMac(query);
    if canon.None? {
      return [];
    }
    ghost var picked;
    var rows;
    rows, picked := store.SearchFdb(canon.value, limit);
    if !edgeOnly {
      return rows;
    }
    var best: Dict<string, Row> := [];
    for i := 0 to |rows|
      invariant best == Best(rows, i)
    {
      var r := rows[i];
      if !Has(best, r.device) || r.count < Get(best, r.device).count {
        best := Put(best, r.device, r);
      }
    }
    result := Sorted(Values(best));
    EdgeAnswer(store.rows, canon.value, limit, rows, picked);
  }

  /** Distinct members of a set are at most as many as the set. */
  lemma {:induction false} WithinSize(picked: seq<nat>, all: set<nat>)
    requires forall x, y :: 0 <= x < y < |picked| ==> picked[x] != picked[y]
    requires forall x :: 0 <= x < |picked| ==> picked[x] in all
    ensures |picked| <= |all|
  {
    if picked != [] {
      var n := |picked| - 1;
      WithinSize(picked[..n], all - {picked[n]});
    }
  }
}
