/**
 * The GETBULK table walk: single-page replies are continued from the last OID until the
 * column's subtree ends, the row cap is reached or the agent stops making progress.
 */
module BulkWalk {
  import opened Dicts
  import opened Text
  import opened Oids

  datatype Cell = Cell(oid: string, value: string)

  /** One item of a bulkCmd reply; Skipped is None or something that is not a 4-tuple. */
  datatype Item = Skipped | Pdu(engineError: bool, pduError: bool, cells: seq<Cell>)

  datatype Reply = Raised | Replied(items: seq<Item>)

  /** The network: request number, start OID and max-repetitions give a reply. Nothing else is assumed of it. */
  type Agent = (nat, string, nat) -> Reply

  /** One column's walk: its row dict so far and the loop's variables. */
  datatype Column = Column(
    rows: Dict<string, string>, startOid: string, seen: nat, advanced: bool, stop: bool, error: string)

  /** A finished column (None when the call raised) and the number of the next request. */
  datatype Walked = Walked(column: Option<Column>, requests: nat)

  // ----- the walk as functions -----

  /** _pairs: cells whose name starts with a digit. */
  function Pairs(cells: seq<Cell>): seq<Cell> {
    if cells == [] then []
    else
      var c := cells[|cells| - 1];
      Pairs(cells[..|cells| - 1]) + if c.oid != "" && IsDigit(c.oid[0]) then [c] else []
  }

  /** Exactly the cells with a numeric name are kept, in order. */
  lemma {:induction false} PairsAre(a: seq<Cell>, c: Cell, b: seq<Cell>)
    ensures Pairs(a + [c] + b)
         == Pairs(a) + (if c.oid != "" && '0' <= c.oid[0] <= '9' then [c] else []) + Pairs(b)
    decreases |b|
  {
    var all := a + [c] + b;
    if b == [] {
      assert all[..|all| - 1] == a;
    } else {
      var n := |b| - 1;
      PairsAre(a, c, b[..n]);
      assert all[..|all| - 1] == a + [c] + b[..n] && all[|all| - 1] == b[n];
    }
  }

  function TakeCell(base: string, c: Cell, col: Column): Column {
    if InSubtreeText(c.oid, base)
    then col.(rows := Put(col.rows, SuffixText(c.oid, base), c.value),
              startOid := c.oid, advanced := true, seen := col.seen + 1)
    else col.(stop := true)
  }

  /** The first k cells of a page, one by one. */
  function TakeCells(base: string, cells: seq<Cell>, k: nat, col: Column): (c: Column)
    requires k <= |cells|
    ensures c.seen >= col.seen && (c.advanced && !col.advanced ==> c.seen > col.seen)
  {
    if k == 0 then col else TakeCell(base, cells[k - 1], TakeCells(base, cells, k - 1, col))
  }

  function TakeItem(base: string, item: Item, col: Column): (c: Column)
    ensures c.seen >= col.seen && (c.advanced && !col.advanced ==> c.seen > col.seen)
  {
    match item
    case Skipped => col
    case Pdu(engineError, pduError, cells) =>
      if engineError then col.(error := "engine_error", stop := true)
      else if pduError then col.(error := "pdu_error", stop := true)
      else TakeCells(base, Pairs(cells), |Pairs(cells)|, col)
  }

  /** The items of a reply from the j-th on, until one of them stops the column. */
  function TakeItems(base: string, items: seq<Item>, j: nat, col: Column): (c: Column)
    requires j <= |items|
    ensures c.seen >= col.seen && (c.advanced && !col.advanced ==> c.seen > col.seen)
    decreases |items| - j
  {
    if j == |items| || col.stop then col
    else TakeItems(base, items, j + 1, TakeItem(base, items[j], col))
  }

  function WalkColumn(agent: Agent, base: string, n: nat, col: Column, maxRep: nat, maxRows: nat): (w: Walked)
    ensures n <= w.requests <= n + if col.seen < maxRows then maxRows - col.seen else 0
    decreases maxRows - col.seen
  {
    if col.seen >= maxRows then Walked(Some(col), n)
    else
      match agent(n, col.startOid, maxRep)
      case Raised => Walked(None, n + 1)
      case Replied(items) =>
        var c := TakeItems(base, items, 0, col.(advanced := false, stop := false));
        if c.stop || !c.advanced then Walked(Some(c), n + 1)
        else WalkColumn(agent, base, n + 1, c, maxRep, maxRows)
  }

  function Begin(base: string, rows: Dict<string, string>, error: string): Column {
    Column(rows, base, 0, false, false, error)
  }

  type Results = map<string, Dict<string, string>>

  /** The whole call from the i-th base on: results (None when raised), last_error, requests made. */
  function WalkAll(agent: Agent, bases: seq<string>, n: nat, results: Results, error: string,
                   maxRep: nat, maxRows: nat): (r: (Option<Results>, string, nat))
    requires forall b :: b in bases ==> b in results
    ensures n <= r.2 <= n + |bases| * maxRows
    ensures r.0.Some? ==> r.0.value.Keys == results.Keys
  {
    if bases == [] then (Some(results), error, n)
    else
      var w := WalkColumn(agent, bases[0], n, Begin(bases[0], results[bases[0]], error), maxRep, maxRows);
      assert |bases| * maxRows == maxRows + |bases[1..]| * maxRows;
      if w.column.None? then (None, "engine_error", w.requests)
      else WalkAll(agent, bases[1..], w.requests, results[bases[0] := w.column.value.rows],
                   w.column.value.error, maxRep, maxRows)
  }

  // ----- what any agent's raised calls and errors lead to -----

  /** Whatever OID it asks for, request k raises; some OID makes it raise. */
  ghost predicate AlwaysRaises(agent: Agent, k: nat, r: nat) {
    forall o :: agent(k, o, r).Raised?
  }

  ghost predicate MayRaise(agent: Agent, k: nat, r: nat) {
    exists o :: agent(k, o, r).Raised?
  }

  predicate IsError(item: Item, error: string) {
    item.Pdu? && if item.engineError then error == "engine_error" else item.pduError && error == "pdu_error"
  }

  /** The first item of a reply that is not skipped reports the error. */
  predicate BeginsWithError(reply: Reply, error: string) {
    reply.Replied? && exists j :: 0 <= j < |reply.items| && IsError(reply.items[j], error)
                                  && forall i :: 0 <= i < j ==> reply.items[i].Skipped?
  }

  predicate HasError(items: seq<Item>, error: string) {
    exists j :: 0 <= j < |items| && IsError(items[j], error)
  }

  ghost predicate AlwaysFails(agent: Agent, k: nat, r: nat, error: string) {
    forall o :: BeginsWithError(agent(k, o, r), error)
  }

  ghost predicate MayFail(agent: Agent, k: nat, r: nat, error: string) {
    exists o :: agent(k, o, r).Replied? && HasError(agent(k, o, r).items, error)
  }

  /** A column whose call raises has no rows and makes no further request, and only such a column has none. */
  lemma {:induction false} ColumnRaises(agent: Agent, base: string, n: nat, col: Column, maxRep: nat, maxRows: nat,
                                        k: nat)
    ensures var w := WalkColumn(agent, base, n, col, maxRep, maxRows);
            && (n <= k < w.requests && AlwaysRaises(agent, k, maxRep) ==> w.column.None? && w.requests == k + 1)
            && (w.column.None? ==> n < w.requests && MayRaise(agent, w.requests - 1, maxRep))
    decreases maxRows - col.seen
  {
    if col.seen < maxRows {
      var reply := agent(n, col.startOid, maxRep);
      if reply.Replied? {
        var c := TakeItems(base, reply.items, 0, col.(advanced := false, stop := false));
        if !c.stop && c.advanced {
          ColumnRaises(agent, base, n + 1, c, maxRep, maxRows, k);
        }
      }
    }
  }

  lemma ColumnOutcome(agent: Agent, base: string, n: nat, col: Column, maxRep: nat, maxRows: nat)
    ensures var w := WalkColumn(agent, base, n, col, maxRep, maxRows);
            && (forall k: nat :: n <= k < w.requests && AlwaysRaises(agent, k, maxRep) ==>
                  w.column.None? && w.requests == k + 1)
            && (w.column.None? ==> n < w.requests && MayRaise(agent, w.requests - 1, maxRep))
  {
    ColumnRaises(agent, base, n, col, maxRep, maxRows, n);
    var w := WalkColumn(agent, base, n, col, maxRep, maxRows);
    forall k: nat | n <= k < w.requests && AlwaysRaises(agent, k, maxRep)
      ensures w.column.None? && w.requests == k + 1
    {
      ColumnRaises(agent, base, n, col, maxRep, maxRows, k);
    }
  }

  /** A raised call makes the whole walk None with "engine_error" and ends it; and nothing else makes it None. */
  lemma {:induction false} CallRaises(agent: Agent, bases: seq<string>, n: nat, results: Results, error: string,
                                      maxRep: nat, maxRows: nat, k: nat)
    requires forall b :: b in bases ==> b in results
    ensures var (table, last, requests) := WalkAll(agent, bases, n, results, error, maxRep, maxRows);
            && (n <= k < requests && AlwaysRaises(agent, k, maxRep) ==>
                  table == None && last == "engine_error" && requests == k + 1)
            && (table == None ==> last == "engine_error" && n < requests && MayRaise(agent, requests - 1, maxRep))
    decreases |bases|
  {
    if bases != [] {
      var col := Begin(bases[0], results[bases[0]], error);
      ColumnRaises(agent, bases[0], n, col, maxRep, maxRows, k);
      var w := WalkColumn(agent, bases[0], n, col, maxRep, maxRows);
      if w.column.Some? {
        CallRaises(agent, bases[1..], w.requests, results[bases[0] := w.column.value.rows], w.column.value.error,
                   maxRep, maxRows, k);
      }
    }
  }

  lemma {:induction false} SkipItems(base: string, items: seq<Item>, j: nat, col: Column)
    requires j <= |items| && !col.stop && forall i :: 0 <= i < j ==> items[i].Skipped?
    ensures TakeItems(base, items, 0, col) == TakeItems(base, items, j, col)
  {
    if j > 0 {
      SkipItems(base, items, j - 1, col);
    }
  }

  /** A reply that begins with an error gives its column no row and ends it, with the error recorded. */
  lemma ErrorStops(agent: Agent, base: string, n: nat, col: Column, maxRep: nat, maxRows: nat, error: string)
    requires col.seen < maxRows && BeginsWithError(agent(n, col.startOid, maxRep), error)
    ensures var w := WalkColumn(agent, base, n, col, maxRep, maxRows);
            && w.requests == n + 1 && w.column.Some?
            && w.column.value.rows == col.rows && w.column.value.error == error
  {
    var items := agent(n, col.startOid, maxRep).items;
    var j :| 0 <= j < |items| && IsError(items[j], error) && forall i :: 0 <= i < j ==> items[i].Skipped?;
    var col0 := col.(advanced := false, stop := false);
    SkipItems(base, items, j, col0);
    assert TakeItems(base, items, j, col0) == TakeItems(base, items, j + 1, TakeItem(base, items[j], col0));
  }

  lemma {:induction false} TakeCellsError(base: string, cells: seq<Cell>, k: nat, col: Column)
    requires k <= |cells|
    ensures TakeCells(base, cells, k, col).error == col.error
  {
    if k > 0 {
      TakeCellsError(base, cells, k - 1, col);
    }
  }

  /** The error after a reply is what it was, or one that the reply reports. */
  lemma {:induction false} TakeItemsError(base: string, items: seq<Item>, j: nat, col: Column)
    requires j <= |items|
    ensures var e := TakeItems(base, items, j, col).error; e == col.error || HasError(items, e)
    decreases |items| - j
  {
    if j < |items| && !col.stop {
      var c := TakeItem(base, items[j], col);
      TakeItemsError(base, items, j + 1, c);
      if items[j].Pdu? && !items[j].engineError && !items[j].pduError {
        TakeCellsError(base, Pairs(items[j].cells), |Pairs(items[j].cells)|, col);
      } else if items[j].Pdu? {
        assert IsError(items[j], c.error);
      }
    }
  }

  /** The error of a column is the one it began with or one that its last reply reported. */
  lemma {:induction false} ColumnErrors(agent: Agent, base: string, n: nat, col: Column, maxRep: nat, maxRows: nat)
    ensures var w := WalkColumn(agent, base, n, col, maxRep, maxRows);
            w.column.Some? ==>
              || w.column.value.error == col.error
              || (n < w.requests && MayFail(agent, w.requests - 1, maxRep, w.column.value.error))
    decreases maxRows - col.seen
  {
    if col.seen < maxRows {
      var reply := agent(n, col.startOid, maxRep);
      if reply.Replied? {
        var col0 := col.(advanced := false, stop := false);
        var c := TakeItems(base, reply.items, 0, col0);
        TakeItemsError(base, reply.items, 0, col0);
        if !c.stop && c.advanced {
          GoesOnWithoutError(base, reply.items, 0, col0);
          ColumnErrors(agent, base, n + 1, c, maxRep, maxRows);
        }
      }
    }
  }

  /** A reported error ends the column. */
  lemma {:induction false} ColumnFails(agent: Agent, base: string, n: nat, col: Column, maxRep: nat, maxRows: nat,
                                       k: nat, error: string)
    ensures var w := WalkColumn(agent, base, n, col, maxRep, maxRows);
            n <= k < w.requests && AlwaysFails(agent, k, maxRep, error) ==>
              w.column.Some? && w.requests == k + 1 && w.column.value.error == error
    decreases maxRows - col.seen
  {
    if col.seen < maxRows {
      var reply := agent(n, col.startOid, maxRep);
      if k == n && AlwaysFails(agent, n, maxRep, error) {
        ErrorStops(agent, base, n, col, maxRep, maxRows, error);
      } else if reply.Replied? {
        var c := TakeItems(base, reply.items, 0, col.(advanced := false, stop := false));
        if !c.stop && c.advanced {
          ColumnFails(agent, base, n + 1, c, maxRep, maxRows, k, error);
        }
      }
    }
  }

  /** A reply after which the column goes on reported no error. */
  lemma {:induction false} GoesOnWithoutError(base: string, items: seq<Item>, j: nat, col: Column)
    requires j <= |items| && !TakeItems(base, items, j, col).stop
    ensures TakeItems(base, items, j, col).error == col.error
    decreases |items| - j
  {
    if j < |items| && !col.stop {
      GoesOnWithoutError(base, items, j + 1, TakeItem(base, items[j], col));
      if items[j].Pdu? && !items[j].engineError && !items[j].pduError {
        TakeCellsError(base, Pairs(items[j].cells), |Pairs(items[j].cells)|, col);
      }
    }
  }

  /** Some request of the call may have led to the error. */
  ghost predicate Blamed(agent: Agent, from: nat, to: nat, r: nat, error: string) {
    exists k: nat :: from <= k < to && (MayFail(agent, k, r, error) || (error == "engine_error" && MayRaise(agent, k, r)))
  }

  /** last_error of the whole call: set when a request reports an error, never cleared, and only ever a reported one. */
  lemma {:induction false} CallErrors(agent: Agent, bases: seq<string>, n: nat, results: Results, error: string,
                                      maxRep: nat, maxRows: nat, k: nat, reported: string)
    requires forall b :: b in bases ==> b in results
    ensures var (table, last, requests) := WalkAll(agent, bases, n, results, error, maxRep, maxRows);
            && (last == error || Blamed(agent, n, requests, maxRep, last))
            && (error != "" ==> last != "")
            && (n <= k < requests && AlwaysFails(agent, k, maxRep, reported) ==> last != "")
    decreases |bases|
  {
    if bases != [] {
      var col := Begin(bases[0], results[bases[0]], error);
      var w := WalkColumn(agent, bases[0], n, col, maxRep, maxRows);
      ColumnErrors(agent, bases[0], n, col, maxRep, maxRows);
      ColumnFails(agent, bases[0], n, col, maxRep, maxRows, k, reported);
      ColumnRaises(agent, bases[0], n, col, maxRep, maxRows, k);
      if AlwaysFails(agent, k, maxRep, reported) {
        assert BeginsWithError(agent(k, "", maxRep), reported);
      }
      if w.column.Some? {
        var e := w.column.value.error;
        if e != error {
          var o :| agent(w.requests - 1, o, maxRep).Replied? && HasError(agent(w.requests - 1, o, maxRep).items, e);
          assert e != "";
        }
        CallErrors(agent, bases[1..], w.requests, results[bases[0] := w.column.value.rows], e, maxRep, maxRows, k,
                   reported);
      }
    }
  }

  // ----- the loops -----

  /** The loop over one reply's items and their cells. */
  method ReadReply(base: string, items: seq<Item>, col: Column) returns (c: Column)
    requires !col.stop
    ensures c == TakeItems(base, items, 0, col)
  {
    c := col;
    var j := 0;
    while j < |items| && !c.stop
      invariant 0 <= j <= |items|
      invariant TakeItems(base, items, 0, col) == TakeItems(base, items, j, c)
    {
      match items[j] {
        case Skipped =>
        case Pdu(engineError, pduError, cells) =>
          if engineError {
            c := c.(error := "engine_error", stop := true);
          } else if pduError {
            c := c.(error := "pdu_error", stop := true);
          } else {
            var pairs := Pairs(cells);
            ghost var entry := c;
            for k := 0 to |pairs|
              invariant c == TakeCells(base, pairs, k, entry)
            {
              if InSubtreeText(pairs[k].oid, base) {
                c := c.(rows := Put(c.rows, SuffixText(pairs[k].oid, base), pairs[k].value),
                        startOid := pairs[k].oid, advanced := true, seen := c.seen + 1);
              } else {
                c := c.(stop := true);   // the column has ended
              }
            }
          }
      }
      j := j + 1;
    }
  }

  /** The paging loop of one column: re-issue from the last OID until the subtree ends. */
  method ReadColumn(agent: Agent, base: string, rows: Dict<string, string>, error: string, n: nat,
                    maxRep: nat, maxRows: nat) returns (w: Walked)
    ensures w == WalkColumn(agent, base, n, Begin(base, rows, error), maxRep, maxRows)
    ensures forall k: nat :: n <= k < w.requests && AlwaysRaises(agent, k, maxRep) ==> w.column.None? && w.requests == k + 1
    ensures w.column.None? ==> n < w.requests && MayRaise(agent, w.requests - 1, maxRep)
  {
    ColumnOutcome(agent, base, n, Begin(base, rows, error), maxRep, maxRows);
    var col, requests := Begin(base, rows, error), n;
    while col.seen < maxRows
      invariant WalkColumn(agent, base, n, Begin(base, rows, error), maxRep, maxRows)
             == WalkColumn(agent, base, requests, col, maxRep, maxRows)
      decreases maxRows - col.seen
    {
      var reply := agent(requests, col.startOid, maxRep);
      if reply.Raised? {
        return Walked(None, requests + 1);
      }
      var c := ReadReply(base, reply.items, col.(advanced := false, stop := false));
      if c.stop || !c.advanced {
        return Walked(Some(c), requests + 1);
      }
      col, requests := c, requests + 1;
    }
    return Walked(Some(col), requests);
  }

  /** What the outcome of a call says about its requests. */
  lemma WalkOutcome(agent: Agent, bases: seq<string>, maxRep: nat, maxRows: nat)
    ensures var (table, last, requests) := WalkAll(agent, bases, 0, map b | b in bases :: [], "", maxRep, maxRows);
            && (forall k: nat :: k < requests && AlwaysRaises(agent, k, maxRep) ==>
                  table == None && last == "engine_error" && requests == k + 1)
            && (table == None ==> last == "engine_error" && 0 < requests && MayRaise(agent, requests - 1, maxRep))
            && (forall k: nat, e :: k < requests && AlwaysFails(agent, k, maxRep, e) ==> last != "")
            && (last == "" || Blamed(agent, 0, requests, maxRep, last))
  {
    var results: Results := map b | b in bases :: [];
    CallRaises(agent, bases, 0, results, "", maxRep, maxRows, 0);
    CallErrors(agent, bases, 0, results, "", maxRep, maxRows, 0, "");
    var requests := WalkAll(agent, bases, 0, results, "", maxRep, maxRows).2;
    forall k: nat | k < requests && AlwaysRaises(agent, k, maxRep)
      ensures var (table, last, _) := WalkAll(agent, bases, 0, results, "", maxRep, maxRows);
              table == None && last == "engine_error" && requests == k + 1
    {
      CallRaises(agent, bases, 0, results, "", maxRep, maxRows, k);
    }
    forall k: nat, e | k < requests && AlwaysFails(agent, k, maxRep, e)
      ensures WalkAll(agent, bases, 0, results, "", maxRep, maxRows).1 != ""
    {
      CallErrors(agent, bases, 0, results, "", maxRep, maxRows, k, e);
    }
  }

  class SnmpAgent {
    var lastError: string

    constructor ()
      ensures lastError == ""
    {
      lastError := "";
    }

    /** requests counts the GETBULKs sent; it numbers the calls to the oracle. */
    method BulkWalk(agent: Agent, bases: seq<string>, maxRep: nat, maxRows: nat)
      returns (results: Option<Results>, requests: nat)
      modifies this
      ensures (results, lastError, requests)
           == WalkAll(agent, bases, 0, map b | b in bases :: [], "", maxRep, maxRows)
      ensures requests <= |bases| * maxRows
      ensures forall k: nat :: k < requests && AlwaysRaises(agent, k, maxRep) ==>
                results == None && lastError == "engine_error" && requests == k + 1
      ensures results == None ==>
                lastError == "engine_error" && 0 < requests && MayRaise(agent, requests - 1, maxRep)
      ensures forall k: nat, e :: k < requests && AlwaysFails(agent, k, maxRep, e) ==> lastError != ""
      ensures lastError == "" || Blamed(agent, 0, requests, maxRep, lastError)
    {
      WalkOutcome(agent, bases, maxRep, maxRows);
      lastError, requests := "", 0;
      var table: Results := map b | b in bases :: [];
      ghost var table0 := table;
      for i := 0 to |bases|
        invariant table.Keys == table0.Keys
        invariant WalkAll(agent, bases, 0, table0, "", maxRep, maxRows)
               == WalkAll(agent, bases[i..], requests, table, lastError, maxRep, maxRows)
      {
        var w := ReadColumn(agent, bases[i], table[bases[i]], lastError, requests, maxRep, maxRows);
        requests := w.requests;
        if w.column.None? {
          lastError := "engine_error";
          return None, requests;
        }
        assert bases[i..][1..] == bases[i + 1..];
        table := table[bases[i] := w.column.value.rows];
        lastError := w.column.value.error;
      }
      return Some(table), requests;
    }
  }

  // ----- a MIB served one page at a time -----

  type Mib = seq<(Oid, string)>

  ghost predicate Sorted(mib: Mib) {
    forall i, j :: 0 <= i < j < |mib| ==> Less(mib[i].0, mib[j].0)
  }

  /** The entries after an OID. */
  function Beyond(mib: Mib, o: Oid): Mib {
    if mib == [] then []
    else (if Less(o, mib[0].0) then [mib[0]] else []) + Beyond(mib[1..], o)
  }

  function Take(mib: Mib, r: nat): Mib {
    if r < |mib| then mib[..r] else mib
  }

  function Cells(entries: Mib): (cells: seq<Cell>)
    ensures |cells| == |entries|
    ensures forall i :: 0 <= i < |entries| ==> cells[i] == Cell(Dotted(entries[i].0), entries[i].1)
  {
    if entries == [] then []
    else [Cell(Dotted(entries[0].0), entries[0].1)] + Cells(entries[1..])
  }

  /** The agent answers every GETBULK with the next max-repetitions entries of the MIB (section 4.2.3 of RFC 3416). */
  ghost predicate Serves(agent: Agent, mib: Mib) {
    forall n: nat, o: Oid, r: nat ::
      agent(n, Dotted(o), r) == Replied([Pdu(false, false, Cells(Take(Beyond(mib, o), r)))])
  }

  predicate Below(base: Oid, o: Oid) {
    base <= o && base != o
  }

  /** The subtree listing: in MIB order, every entry strictly below the base. */
  function Listing(mib: Mib, base: Oid): Mib {
    if mib == [] then []
    else (if Below(base, mib[0].0) then [mib[0]] else []) + Listing(mib[1..], base)
  }

  /** A listing as rows: remaining arcs as text, and the value. */
  function Rows(entries: Mib, base: Oid): (rows: seq<(string, string)>)
    requires forall e :: e in entries ==> base <= e.0
    ensures |rows| == |entries|
    ensures forall i :: 0 <= i < |entries| ==> rows[i] == (Dotted(entries[i].0[|base|..]), entries[i].1)
  {
    if entries == [] then []
    else [(Dotted(entries[0].0[|base|..]), entries[0].1)] + Rows(entries[1..], base)
  }

  /** Adding whole pages of r rows from `at` until the row cap is reached. */
  function WholePages(at: nat, r: nat, maxRows: nat): (cap: nat)
    requires r > 0
    ensures at <= cap && maxRows <= cap && (at < maxRows + r ==> cap < maxRows + r)
    decreases maxRows - at
  {
    if at >= maxRows then at else WholePages(at + r, r, maxRows)
  }

  /** How many rows a walk of a subtree of the given size collects. */
  function RowsCollected(size: nat, r: nat, maxRows: nat): nat {
    if r == 0 then 0 else Reaches(size, 0, r, maxRows)
  }

  lemma {:induction false} BeyondAll(mib: Mib, o: Oid)
    requires forall e :: e in mib ==> Less(o, e.0)
    ensures Beyond(mib, o) == mib
  {
    if mib != [] {
      assert mib[0] in mib;
      BeyondAll(mib[1..], o);
    }
  }

  /** In a sorted MIB the entries after an OID are a tail. */
  lemma {:induction false} BeyondIsTail(mib: Mib, o: Oid)
    requires Sorted(mib)
    ensures |Beyond(mib, o)| <= |mib|
    ensures Beyond(mib, o) == mib[|mib| - |Beyond(mib, o)|..]
    ensures forall e :: e in Beyond(mib, o) ==> Less(o, e.0)
  {
    if mib != [] {
      if Less(o, mib[0].0) {
        forall e | e in mib ensures Less(o, e.0) {
          var i :| 0 <= i < |mib| && mib[i] == e;
          if i > 0 {
            LessTransitive(o, mib[0].0, mib[i].0);
          }
        }
        BeyondAll(mib, o);
      } else {
        BeyondIsTail(mib[1..], o);
      }
    }
  }

  /** Continuing from the k-th entry gives exactly the entries behind it. */
  lemma {:induction false} BeyondEntry(mib: Mib, k: nat)
    requires Sorted(mib) && k < |mib|
    ensures Beyond(mib, mib[k].0) == mib[k + 1..]
  {
    if k == 0 {
      LessIrreflexive(mib[0].0);
      BeyondAll(mib[1..], mib[0].0);
    } else {
      if Less(mib[k].0, mib[0].0) {
        LessTransitive(mib[0].0, mib[k].0, mib[0].0);
        LessIrreflexive(mib[0].0);
      }
      BeyondEntry(mib[1..], k - 1);
    }
  }

  /** The listing is one contiguous block right after the base. */
  lemma {:induction false} ListingIsBlock(tail: Mib, base: Oid)
    requires Sorted(tail) && forall e :: e in tail ==> Less(base, e.0)
    ensures Listing(tail, base) <= tail
    ensures forall i :: 0 <= i < |tail| ==> (Below(base, tail[i].0) <==> i < |Listing(tail, base)|)
  {
    if tail != [] {
      ListingIsBlock(tail[1..], base);
      assert tail[0] in tail;
      LessIrreflexive(base);
      if !Below(base, tail[0].0) {
        forall i | 0 <= i < |tail| ensures !Below(base, tail[i].0) {
          if i > 0 && Below(base, tail[i].0) {
            SubtreeIsConvex(base, tail[0].0, tail[i].0);
          }
        }
        assert forall i :: 0 <= i < |tail[1..]| ==> tail[1..][i] == tail[i + 1];
        assert Listing(tail[1..], base) == [];
      } else {
        assert Listing(tail, base) == [tail[0]] + Listing(tail[1..], base);
        assert tail == [tail[0]] + tail[1..];
      }
    }
  }

  /** Entries of the listing all lie behind the base. */
  lemma {:induction false} ListingBeyond(mib: Mib, base: Oid)
    ensures Listing(mib, base) == Listing(Beyond(mib, base), base)
  {
    if mib != [] {
      ListingBeyond(mib[1..], base);
      if Below(base, mib[0].0) {
        BelowIsAfter(base, mib[0].0);
      }
      var rest := Beyond(mib[1..], base);
      if Less(base, mib[0].0) {
        assert ([mib[0]] + rest)[1..] == rest;
      } else {
        assert [] + rest == rest;
      }
    }
  }

  // ----- the walk over a table of cells -----

  /** The cells after a base: the first |rows| of them are the column, none of the others is below the base. */
  ghost predicate Tabled(base: string, cells: seq<Cell>, rows: seq<(string, string)>) {
    && |rows| <= |cells|
    && (forall i :: 0 <= i < |cells| ==>
          && cells[i].oid != "" && IsDigit(cells[i].oid[0])
          && (InSubtreeText(cells[i].oid, base) <==> i < |rows|)
          && (i < |rows| ==> rows[i] == (SuffixText(cells[i].oid, base), cells[i].value)))
  }

  /** Where a request starts after `seen` cells. */
  function StartOf(base: string, cells: seq<Cell>, seen: nat): string
    requires seen <= |cells|
  {
    if seen == 0 then base else cells[seen - 1].oid
  }

  function Window(cells: seq<Cell>, seen: nat, r: nat): seq<Cell>
    requires seen <= |cells|
  {
    cells[seen..if seen + r <= |cells| then seen + r else |cells|]
  }

  lemma WindowNumeric(base: string, cells: seq<Cell>, rows: seq<(string, string)>, seen: nat, r: nat)
    requires Tabled(base, cells, rows) && seen <= |cells|
    ensures forall i :: 0 <= i < |Window(cells, seen, r)| ==>
              Window(cells, seen, r)[i].oid != "" && IsDigit(Window(cells, seen, r)[i].oid[0])
  {
    WindowIs(cells, seen, r);
  }

  lemma WindowIs(cells: seq<Cell>, seen: nat, r: nat)
    requires seen <= |cells|
    ensures |Window(cells, seen, r)| == Min(r, |cells| - seen)
    ensures forall i :: 0 <= i < |Window(cells, seen, r)| ==> Window(cells, seen, r)[i] == cells[seen + i]
  {
  }

  /** The agent pages through the cells. */
  ghost predicate Pages(agent: Agent, base: string, cells: seq<Cell>) {
    forall n: nat, seen: nat, r: nat | seen <= |cells| ::
      agent(n, StartOf(base, cells, seen), r) == Replied([Pdu(false, false, Window(cells, seen, r))])
  }

  /** The column after `seen` rows. */
  ghost predicate At(base: string, cells: seq<Cell>, rows: seq<(string, string)>, rows0: Dict<string, string>,
                     col: Column)
    requires |rows| <= |cells|
  {
    && col.seen <= |rows|
    && col.startOid == StartOf(base, cells, col.seen)
    && col.rows == PutAll(rows0, rows, col.seen)
  }

  lemma {:induction false} PairsKeepsAll(cells: seq<Cell>)
    requires forall i :: 0 <= i < |cells| ==> cells[i].oid != "" && IsDigit(cells[i].oid[0])
    ensures Pairs(cells) == cells
  {
    if cells != [] {
      PairsKeepsAll(cells[..|cells| - 1]);
      assert cells == cells[..|cells| - 1] + [cells[|cells| - 1]];
    }
  }

  function Min(a: nat, b: nat): nat {
    if a < b then a else b
  }

  /** c is what col has become after the cells up to the i-th. */
  ghost predicate Read(base: string, cells: seq<Cell>, rows: seq<(string, string)>, rows0: Dict<string, string>,
                       col: Column, i: nat, c: Column)
    requires |rows| <= |cells|
  {
    && At(base, cells, rows, rows0, c)
    && c.seen == Min(i, |rows|)
    && c.stop == (col.stop || i > |rows|)
    && c.advanced == (col.advanced || c.seen > col.seen)
    && c.error == col.error
  }

  /** The i-th cell becomes the next row, or the column is already complete and the cell only sets `stop`. */
  lemma CellStep(base: string, cells: seq<Cell>, rows: seq<(string, string)>, rows0: Dict<string, string>,
                 col: Column, i: nat, c: Column, cell: Cell)
    requires Tabled(base, cells, rows) && Read(base, cells, rows, rows0, col, i, c)
    requires col.seen <= i < |cells| && cells[i] == cell
    ensures Read(base, cells, rows, rows0, col, i + 1, TakeCell(base, cell, c))
  {
    assert InSubtreeText(cells[i].oid, base) <==> i < |rows|;
  }

  /** What one page does: its in-subtree cells become rows, the rest adds nothing. */
  lemma {:induction false} PageStep(base: string, cells: seq<Cell>, rows: seq<(string, string)>,
                                    rows0: Dict<string, string>, col: Column, page: seq<Cell>, k: nat)
    requires Tabled(base, cells, rows) && At(base, cells, rows, rows0, col)
    requires k <= |page| && col.seen + |page| <= |cells|
    requires forall i :: 0 <= i < |page| ==> page[i] == cells[col.seen + i]
    ensures Read(base, cells, rows, rows0, col, col.seen + k, TakeCells(base, page, k, col))
  {
    if k > 0 {
      PageStep(base, cells, rows, rows0, col, page, k - 1);
      var i, c := col.seen + k - 1, TakeCells(base, page, k - 1, col);
      CellStep(base, cells, rows, rows0, col, i, c, page[k - 1]);
      assert TakeCells(base, page, k, col) == TakeCell(base, page[k - 1], c);
    }
  }

  /** A reply with a single error-free item is that item's cells, all with a numeric name. */
  lemma TakeOnePage(base: string, page: seq<Cell>, col: Column)
    requires !col.stop && forall i :: 0 <= i < |page| ==> page[i].oid != "" && IsDigit(page[i].oid[0])
    ensures TakeItems(base, [Pdu(false, false, page)], 0, col) == TakeCells(base, page, |page|, col)
  {
    PairsKeepsAll(page);
    var item := Pdu(false, false, page);
    assert TakeItems(base, [item], 0, col) == TakeItems(base, [item], 1, TakeItem(base, item, col));
  }

  lemma ReplyIs(agent: Agent, base: string, cells: seq<Cell>, rows: seq<(string, string)>, n: nat, col: Column, r: nat)
    requires Pages(agent, base, cells) && Tabled(base, cells, rows) && !col.stop
    requires col.seen <= |cells| && col.startOid == StartOf(base, cells, col.seen)
    ensures var page := Window(cells, col.seen, r);
            && agent(n, col.startOid, r) == Replied([Pdu(false, false, page)])
            && TakeItems(base, [Pdu(false, false, page)], 0, col) == TakeCells(base, page, |page|, col)
  {
    assert agent(n, StartOf(base, cells, col.seen), r) == Replied([Pdu(false, false, Window(cells, col.seen, r))]);
    WindowNumeric(base, cells, rows, col.seen, r);
    TakeOnePage(base, Window(cells, col.seen, r), col);
  }

  /** A column that has read up to `i`, the end of a page of r or of all cells. */
  lemma ReadWhole(base: string, cells: seq<Cell>, rows: seq<(string, string)>, rows0: Dict<string, string>,
                  col: Column, i: nat, r: nat, c: Column)
    requires |rows| <= |cells| && col.seen <= |rows| && !col.stop && !col.advanced
    requires i == Min(col.seen + r, |cells|) && Read(base, cells, rows, rows0, col, i, c)
    ensures c.seen == Min(col.seen + r, |rows|) && c.error == col.error
    ensures c.stop || !c.advanced ==> r == 0 || (c.seen == |rows| && |rows| < col.seen + r)
  {
  }

  /** The column after a whole page. */
  lemma PageIs(base: string, cells: seq<Cell>, rows: seq<(string, string)>, rows0: Dict<string, string>,
               col: Column, r: nat, c: Column)
    requires Tabled(base, cells, rows) && At(base, cells, rows, rows0, col) && !col.stop && !col.advanced
    requires var page := Window(cells, col.seen, r); c == TakeCells(base, page, |page|, col)
    ensures At(base, cells, rows, rows0, c) && c.seen == Min(col.seen + r, |rows|) && c.error == col.error
    ensures c.stop || !c.advanced ==> r == 0 || (c.seen == |rows| && |rows| < col.seen + r)
  {
    var page := Window(cells, col.seen, r);
    WindowIs(cells, col.seen, r);
    PageStep(base, cells, rows, rows0, col, page, |page|);
    ReadWhole(base, cells, rows, rows0, col, col.seen + |page|, r, c);
  }

  /** One request: the reply, and the column after it. */
  lemma RequestStep(agent: Agent, base: string, cells: seq<Cell>, rows: seq<(string, string)>,
                    rows0: Dict<string, string>, n: nat, col: Column, r: nat)
    requires Pages(agent, base, cells) && Tabled(base, cells, rows) && At(base, cells, rows, rows0, col)
    ensures var reply := agent(n, col.startOid, r);
            && reply.Replied?
            && var c := TakeItems(base, reply.items, 0, col.(advanced := false, stop := false));
            && At(base, cells, rows, rows0, c)
            && c.seen == Min(col.seen + r, |rows|)
            && (c.stop || !c.advanced ==> r == 0 || (c.seen == |rows| && |rows| < col.seen + r))
            && c.error == col.error
  {
    var page, col0 := Window(cells, col.seen, r), col.(advanced := false, stop := false);
    ReplyIs(agent, base, cells, rows, n, col0, r);
    PageIs(base, cells, rows, rows0, col0, r, TakeCells(base, page, |page|, col0));
  }

  /** How many rows of a column a walk that has read up to `at` ends with. */
  function Reaches(size: nat, at: nat, r: nat, maxRows: nat): nat
    requires r > 0
  {
    Min(size, WholePages(at, r, maxRows))
  }

  /** One more page changes nothing about where the walk ends; it ends at the cap or where the column does. */
  lemma ReachesStep(size: nat, at: nat, r: nat, maxRows: nat)
    requires r > 0
    ensures Min(at, size) >= maxRows ==> Reaches(size, at, r, maxRows) == Min(at, size)
    ensures Min(at, size) < maxRows ==> Reaches(size, at, r, maxRows) == Reaches(size, at + r, r, maxRows)
    ensures Min(at, size) < maxRows && at + r >= size ==> Reaches(size, at, r, maxRows) == size
  {
  }

  /** A walk from a page boundary collects the rows up to the cap rounded up to whole pages. */
  lemma {:induction false} WalkTable(agent: Agent, base: string, cells: seq<Cell>, rows: seq<(string, string)>,
                                     rows0: Dict<string, string>, n: nat, col: Column, at: nat, r: nat, maxRows: nat,
                                     size: nat)
    requires Pages(agent, base, cells) && Tabled(base, cells, rows) && At(base, cells, rows, rows0, col)
    requires r > 0 && col.seen == Min(at, |rows|) && size == Reaches(|rows|, at, r, maxRows)
    ensures var w := WalkColumn(agent, base, n, col, r, maxRows);
            && w.column.Some?
            && w.column.value.error == col.error
            && w.column.value.seen == size
            && At(base, cells, rows, rows0, w.column.value)
    decreases maxRows - col.seen
  {
    ReachesStep(|rows|, at, r, maxRows);
    if col.seen < maxRows {
      RequestStep(agent, base, cells, rows, rows0, n, col, r);
      var c := TakeItems(base, agent(n, col.startOid, r).items, 0, col.(advanced := false, stop := false));
      if !c.stop && c.advanced {
        WalkTable(agent, base, cells, rows, rows0, n + 1, c, at + r, r, maxRows, size);
      }
    }
  }

  /** The same for any page size; with max-repetitions 0 nothing ever advances. */
  lemma WalkFromStart(agent: Agent, base: string, cells: seq<Cell>, rows: seq<(string, string)>,
                      rows0: Dict<string, string>, n: nat, error: string, r: nat, maxRows: nat)
    requires Pages(agent, base, cells) && Tabled(base, cells, rows)
    ensures var w := WalkColumn(agent, base, n, Begin(base, rows0, error), r, maxRows);
            && w.column.Some?
            && w.column.value.error == error
            && w.column.value.rows == PutAll(rows0, rows, RowsCollected(|rows|, r, maxRows))
  {
    var col := Begin(base, rows0, error);
    if r > 0 {
      WalkTable(agent, base, cells, rows, rows0, n, col, 0, r, maxRows, Reaches(|rows|, 0, r, maxRows));
    } else if maxRows > 0 {
      RequestStep(agent, base, cells, rows, rows0, n, col, 0);
    }
  }

  // ----- the walk over a MIB -----

  lemma WindowCells(entries: Mib, seen: nat, r: nat)
    requires seen <= |entries|
    ensures Window(Cells(entries), seen, r) == Cells(Take(entries[seen..], r))
  {
    WindowIs(Cells(entries), seen, r);
    var page, part := Window(Cells(entries), seen, r), Take(entries[seen..], r);
    assert |page| == |part| && forall i :: 0 <= i < |part| ==> part[i] == entries[seen + i];
  }

  /** Continuing after a part of the entries behind an OID gives the other part. */
  lemma BeyondPart(mib: Mib, base: Oid, seen: nat)
    requires Sorted(mib) && 0 < seen <= |Beyond(mib, base)|
    ensures Beyond(mib, Beyond(mib, base)[seen - 1].0) == Beyond(mib, base)[seen..]
  {
    BeyondIsTail(mib, base);
    var lo := |mib| - |Beyond(mib, base)|;
    BeyondEntry(mib, lo + seen - 1);
    assert mib[lo..][seen - 1] == mib[lo + seen - 1] && mib[lo..][seen..] == mib[lo + seen..];
  }

  lemma MibPage(agent: Agent, mib: Mib, base: Oid, n: nat, seen: nat, r: nat)
    requires Serves(agent, mib) && Sorted(mib) && seen <= |Beyond(mib, base)|
    ensures var cells := Cells(Beyond(mib, base));
            agent(n, StartOf(Dotted(base), cells, seen), r) == Replied([Pdu(false, false, Window(cells, seen, r))])
  {
    var tail := Beyond(mib, base);
    var o := if seen == 0 then base else tail[seen - 1].0;
    if seen > 0 {
      BeyondPart(mib, base, seen);
    }
    WindowCells(tail, seen, r);
    assert agent(n, Dotted(o), r) == Replied([Pdu(false, false, Cells(Take(Beyond(mib, o), r)))]);
  }

  lemma MibPages(agent: Agent, mib: Mib, base: Oid)
    requires Serves(agent, mib) && Sorted(mib)
    ensures Pages(agent, Dotted(base), Cells(Beyond(mib, base)))
  {
    var cells := Cells(Beyond(mib, base));
    forall n: nat, seen: nat, r: nat | seen <= |cells|
      ensures agent(n, StartOf(Dotted(base), cells, seen), r)
           == Replied([Pdu(false, false, Window(cells, seen, r))])
    {
      MibPage(agent, mib, base, n, seen, r);
    }
  }

  lemma {:induction false} ListingBelow(mib: Mib, base: Oid)
    ensures forall e :: e in Listing(mib, base) ==> Below(base, e.0)
  {
    if mib != [] {
      ListingBelow(mib[1..], base);
    }
  }

  /** A base's column: the subtree listing as rows. */
  function ColumnRows(mib: Mib, base: Oid): seq<(string, string)> {
    ListingBelow(mib, base);
    Rows(Listing(mib, base), base)
  }

  lemma MibTabled(mib: Mib, base: Oid)
    requires Sorted(mib) && base != []
    ensures Tabled(Dotted(base), Cells(Beyond(mib, base)), ColumnRows(mib, base))
  {
    var tail := Beyond(mib, base);
    var cells := Cells(tail);
    var rows := ColumnRows(mib, base);
    BeyondIsTail(mib, base);
    ListingBeyond(mib, base);
    ListingIsBlock(tail, base);
    forall i | 0 <= i < |cells|
      ensures && cells[i].oid != "" && IsDigit(cells[i].oid[0])
              && (InSubtreeText(cells[i].oid, Dotted(base)) <==> i < |rows|)
              && (i < |rows| ==> rows[i] == (SuffixText(cells[i].oid, Dotted(base)), cells[i].value))
    {
      var o := tail[i].0;
      assert tail[i] in tail;
      LessIrreflexive(base);
      DottedNonEmpty(o);
      SubtreeTest(o, base);
      if i < |rows| {
        SuffixOfArcs(o, base);
      }
    }
  }

  lemma {:induction false} DottedInjective(a: Oid, b: Oid)
    requires Dotted(a) == Dotted(b)
    ensures a == b
  {
    EmptyHasNoText(a);
    EmptyHasNoText(b);
    if a != [] {
      DottedDots(a);
      DottedDots(b);
      DotsPrefix(a, b);
      DotsPrefix(b, a);
    }
  }

  /** Rows of a column never share a suffix. */
  lemma ColumnRowsDistinct(mib: Mib, base: Oid)
    requires Sorted(mib)
    ensures DistinctKeys(ColumnRows(mib, base))
  {
    var tail := Beyond(mib, base);
    BeyondIsTail(mib, base);
    ListingBeyond(mib, base);
    ListingIsBlock(tail, base);
    ListingBelow(mib, base);
    var l := Listing(mib, base);
    forall i, j | 0 <= i < j < |l| ensures Dotted(l[i].0[|base|..]) != Dotted(l[j].0[|base|..]) {
      assert l[i].0 != l[j].0 by { LessIrreflexive(l[i].0); }
      if Dotted(l[i].0[|base|..]) == Dotted(l[j].0[|base|..]) {
        DottedInjective(l[i].0[|base|..], l[j].0[|base|..]);
      }
    }
  }

  /**
   * Against a finite sorted MIB a column comes back as a leading part of the subtree listing, in order:
   * the whole listing, or the row cap rounded up to whole pages.
   */
  lemma ColumnIsPrefix(agent: Agent, mib: Mib, base: Oid, n: nat, error: string, r: nat, maxRows: nat)
    requires Serves(agent, mib) && Sorted(mib) && base != []
    ensures var w := WalkColumn(agent, Dotted(base), n, Begin(Dotted(base), [], error), r, maxRows);
            && w.column.Some?
            && w.column.value.error == error
            && w.column.value.rows == ColumnRows(mib, base)[..RowsCollected(|ColumnRows(mib, base)|, r, maxRows)]
  {
    MibPages(agent, mib, base);
    MibTabled(mib, base);
    ColumnRowsDistinct(mib, base);
    var rows := ColumnRows(mib, base);
    WalkFromStart(agent, Dotted(base), Cells(Beyond(mib, base)), rows, [], n, error, r, maxRows);
    PutAllFresh(rows, RowsCollected(|rows|, r, maxRows));
  }

  /** The size of what is collected: the documented cap is exceeded by less than a page, and a column within it is whole. */
  lemma CollectedBounds(size: nat, r: nat, maxRows: nat)
    requires r > 0
    ensures Min(size, maxRows) <= RowsCollected(size, r, maxRows) <= size
    ensures RowsCollected(size, r, maxRows) < maxRows + r
    ensures size <= maxRows ==> RowsCollected(size, r, maxRows) == size
  {
  }

  /** What the whole call returns for each requested base, repeated bases included. */
  ghost predicate Expected(mib: Mib, base: Oid, r: nat, maxRows: nat, rows: Dict<string, string>) {
    rows == ColumnRows(mib, base)[..RowsCollected(|ColumnRows(mib, base)|, r, maxRows)]
  }

  /** The walk of one base, from scratch or over an earlier walk of the same base. */
  lemma WalkBase(agent: Agent, mib: Mib, base: Oid, rows0: Dict<string, string>, n: nat, r: nat, maxRows: nat)
    requires Serves(agent, mib) && Sorted(mib) && base != []
    requires rows0 == [] || Expected(mib, base, r, maxRows, rows0)
    ensures var w := WalkColumn(agent, Dotted(base), n, Begin(Dotted(base), rows0, ""), r, maxRows);
            && w.column.Some? && w.column.value.error == ""
            && Expected(mib, base, r, maxRows, w.column.value.rows)
  {
    var rows := ColumnRows(mib, base);
    var size := RowsCollected(|rows|, r, maxRows);
    MibPages(agent, mib, base);
    MibTabled(mib, base);
    ColumnRowsDistinct(mib, base);
    WalkFromStart(agent, Dotted(base), Cells(Beyond(mib, base)), rows, rows0, n, "", r, maxRows);
    PutAllFresh(rows, size);
    PutAllAgain(rows[..size], rows, size);
  }

  lemma {:induction false} WalkAllFrom(agent: Agent, mib: Mib, bases: seq<Oid>, texts: seq<string>, n: nat,
                                       results: Results, r: nat, maxRows: nat, done: set<Oid>)
    requires Serves(agent, mib) && Sorted(mib)
    requires |texts| == |bases| && forall i :: 0 <= i < |bases| ==> bases[i] != [] && texts[i] == Dotted(bases[i])
    requires forall t :: t in texts ==> t in results
    requires forall b :: b in done ==> Dotted(b) in results && Expected(mib, b, r, maxRows, results[Dotted(b)])
    requires forall i :: 0 <= i < |bases| && bases[i] !in done ==> results[texts[i]] == []
    ensures var w := WalkAll(agent, texts, n, results, "", r, maxRows);
            && w.0.Some? && w.1 == ""
            && (forall b :: b in bases || b in done ==>
                  Dotted(b) in w.0.value && Expected(mib, b, r, maxRows, w.0.value[Dotted(b)]))
  {
    if bases != [] {
      var base, text := bases[0], texts[0];
      WalkBase(agent, mib, base, results[text], n, r, maxRows);
      var w := WalkColumn(agent, text, n, Begin(text, results[text], ""), r, maxRows);
      var results' := results[text := w.column.value.rows];
      forall b | b in done + {base}
        ensures Dotted(b) in results' && Expected(mib, b, r, maxRows, results'[Dotted(b)])
      {
        if Dotted(b) == text {
          DottedInjective(b, base);
        }
      }
      forall i | 0 <= i < |bases[1..]| && bases[1..][i] !in done + {base}
        ensures results'[texts[1..][i]] == []
      {
        if texts[1..][i] == text {
          DottedInjective(bases[1..][i], base);
        }
      }
      WalkAllFrom(agent, mib, bases[1..], texts[1..], w.requests, results', r, maxRows, done + {base});
      assert forall b :: b in bases ==> b == base || b in bases[1..];
    }
  }

  /**
   * The call as a whole: against a sorted MIB it succeeds without an error, and every requested column holds
   * exactly its leading part of the subtree listing - nothing from a neighbouring column.
   */
  lemma WalkIsExact(agent: Agent, mib: Mib, bases: seq<Oid>, texts: seq<string>, r: nat, maxRows: nat)
    requires Serves(agent, mib) && Sorted(mib)
    requires |texts| == |bases| && forall i :: 0 <= i < |bases| ==> bases[i] != [] && texts[i] == Dotted(bases[i])
    ensures var w := WalkAll(agent, texts, 0, map t | t in texts :: [], "", r, maxRows);
            && w.0.Some? && w.1 == ""
            && w.0.value.Keys == (set t | t in texts)
            && (forall b :: b in bases ==>
                  Dotted(b) in w.0.value && Expected(mib, b, r, maxRows, w.0.value[Dotted(b)]))
  {
    WalkAllFrom(agent, mib, bases, texts, 0, map t | t in texts :: [], r, maxRows, {});
  }
}
