/** Keyset-paginated synchronisation of a source table into case events
    (apps/history-worker/src/main.rs, sync_alerts and sync_detections). Rows are added and never
    changed.

    A pass may stop with an error at any statement; what was already written stays. The order is
    (created_at, id), ids compared code point by code point. */
module HistoryWorker {
  import opened Common

  datatype Row = Row(createdAt: int, id: string, payload: string)

  datatype Offset = Offset(ts: int, id: string)

  /** Where a pass fails. A failing statement may or may not have taken effect. */
  datatype Fault = NoFault | BeforeRows | AtRow(index: nat, inserted: bool) | AtSave(saved: bool)

  /** `offset` is the row of ingest_offsets, `events` the case events by source key. */
  datatype Store = Store(offset: Option<Offset>, events: map<string, Row>)

  // ---- the keyset order ----

  predicate Less(a: string, b: string) {
    b != "" && (a == "" || a[0] < b[0] || (a[0] == b[0] && Less(a[1..], b[1..])))
  }

  predicate After(o: Offset, r: Row) {
    r.createdAt > o.ts || (r.createdAt == o.ts && Less(o.id, r.id))
  }

  function OffsetOf(r: Row): Offset {
    Offset(r.createdAt, r.id)
  }

  predicate Precedes(q: Row, r: Row) {
    After(OffsetOf(q), r)
  }

  /** The two texts have the first n characters in common, and then the first one ends or is smaller. */
  ghost predicate DiffersAt(a: string, b: string, n: int) {
    && 0 <= n <= |a| && n < |b| && a[..n] == b[..n]
    && (n < |a| ==> a[n] < b[n])
  }

  lemma {:induction false} LessExactly(a: string, b: string)
    ensures Less(a, b) <==> exists n :: DiffersAt(a, b, n)
    decreases a
  {
    if b != "" && (a == "" || a[0] < b[0]) {
      assert DiffersAt(a, b, 0);
    } else if b != "" && a[0] == b[0] {
      LessExactly(a[1..], b[1..]);
      if n :| DiffersAt(a[1..], b[1..], n) {
        assert a[..n + 1] == [a[0]] + a[1..][..n] && b[..n + 1] == [b[0]] + b[1..][..n];
        assert DiffersAt(a, b, n + 1);
      }
      if n :| DiffersAt(a, b, n) && n > 0 {
        assert a[1..][..n - 1] == a[..n][1..] && b[1..][..n - 1] == b[..n][1..];
        assert DiffersAt(a[1..], b[1..], n - 1);
      }
    } else if b != "" {
      forall n | 0 < n <= |a| && n <= |b| ensures a[..n] != b[..n] {
        assert a[..n][0] != b[..n][0];
      }
    }
  }

  /** Without a saved position a pass starts before every row but those dated before 1970 or at its start
      under the empty id. */
  lemma StartOfEmptyStore(r: Row)
    ensures After(Start(Store(None, map[])), r) <==> r.createdAt > 0 || (r.createdAt == 0 && r.id != "")
  {
  }

  lemma {:induction false} LessTotal(a: string, b: string)
    ensures Less(a, b) || Less(b, a) || a == b
    ensures !(Less(a, b) && Less(b, a)) && !Less(a, a)
    decreases a
  {
    if a != "" {
      LessTotal(a[1..], a[1..]);
      if b != "" {
        LessTotal(a[1..], b[1..]);
        assert a == [a[0]] + a[1..] && b == [b[0]] + b[1..];
      }
    }
  }

  lemma {:induction false} LessTransitive(a: string, b: string, c: string)
    requires Less(a, b) && Less(b, c)
    ensures Less(a, c)
    decreases a
  {
    if a != "" && a[0] == b[0] == c[0] {
      LessTransitive(a[1..], b[1..], c[1..]);
    }
  }

  lemma AfterTransitive(o: Offset, q: Row, r: Row)
    requires After(o, q) && Precedes(q, r)
    ensures After(o, r)
  {
    if o.ts == q.createdAt == r.createdAt {
      LessTransitive(o.id, q.id, r.id);
    }
  }

  lemma PrecedesTotal(q: Row, r: Row)
    ensures q.id != r.id ==> Precedes(q, r) || Precedes(r, q)
    ensures !Precedes(q, q) && !(Precedes(q, r) && Precedes(r, q))
  {
    LessTotal(q.id, r.id);
    LessTotal(q.id, q.id);
  }

  // ---- the page query ----

  ghost predicate UniqueIds(table: seq<Row>) {
    forall q, r :: q in table && r in table && q.id == r.id ==> q == r
  }

  /** WHERE after the offset, ORDER BY (created_at, id), LIMIT batch. */
  ghost predicate IsPage(table: seq<Row>, offset: Offset, batch: nat, page: seq<Row>) {
    && |page| <= batch
    && (forall i :: 0 <= i < |page| ==> page[i] in table && After(offset, page[i]))
    && (forall i, j :: 0 <= i < j < |page| ==> Precedes(page[i], page[j]))
    && (forall r :: r in table && After(offset, r) && r !in page ==>
          |page| == batch && forall i :: 0 <= i < |page| ==> Precedes(page[i], r))
  }

  /** The least row after `cursor`, if there is one. */
  method NextRow(table: seq<Row>, cursor: Offset) returns (next: Option<Row>)
    requires UniqueIds(table)
    ensures next.None? ==> forall r :: r in table ==> !After(cursor, r)
    ensures next.Some? ==> next.value in table && After(cursor, next.value)
    ensures next.Some? ==> forall r :: r in table && After(cursor, r) && r != next.value ==> Precedes(next.value, r)
  {
    next := None;
    for i := 0 to |table|
      invariant next.None? ==> forall k :: 0 <= k < i ==> !After(cursor, table[k])
      invariant next.Some? ==> next.value in table && After(cursor, next.value)
      invariant next.Some? ==>
        forall k :: 0 <= k < i && After(cursor, table[k]) && table[k] != next.value ==> Precedes(next.value, table[k])
    {
      var row := table[i];
      if After(cursor, row) {
        if next.None? {
          next := Some(row);
        } else if Precedes(row, next.value) {
          var beaten := next.value;
          forall k | 0 <= k < i && After(cursor, table[k]) && table[k] != beaten ensures Precedes(row, table[k]) {
            AfterTransitive(OffsetOf(row), beaten, table[k]);
          }
          next := Some(row);
        } else {
          PrecedesTotal(row, next.value);
        }
      }
    }
  }

  /** Every table with unique ids has a page for every offset and limit. */
  method Query(table: seq<Row>, offset: Offset, batch: nat) returns (page: seq<Row>)
    requires UniqueIds(table)
    ensures IsPage(table, offset, batch, page)
  {
    page := [];
    var cursor := offset;
    while |page| < batch
      invariant |page| <= batch
      invariant cursor == if page == [] then offset else OffsetOf(page[|page| - 1])
      invariant forall i :: 0 <= i < |page| ==> page[i] in table && After(offset, page[i])
      invariant forall i, j :: 0 <= i < j < |page| ==> Precedes(page[i], page[j])
      invariant forall r :: r in table && After(offset, r) && r !in page ==> After(cursor, r)
    {
      var next := NextRow(table, cursor);
      if next.None? {
        break;
      }
      var row := next.value;
      ExtendsPage(table, offset, page, cursor, row);
      page := page + [row];
      cursor := OffsetOf(row);
    }
    forall r, i | r in table && After(offset, r) && r !in page && 0 <= i < |page| ensures Precedes(page[i], r) {
      if i < |page| - 1 {
        AfterTransitive(OffsetOf(page[i]), page[|page| - 1], r);
      }
    }
  }

  lemma ExtendsPage(table: seq<Row>, offset: Offset, page: seq<Row>, cursor: Offset, row: Row)
    requires cursor == if page == [] then offset else OffsetOf(page[|page| - 1])
    requires forall i :: 0 <= i < |page| ==> After(offset, page[i])
    requires forall i, j :: 0 <= i < j < |page| ==> Precedes(page[i], page[j])
    requires After(cursor, row)
    ensures After(offset, row)
    ensures forall i :: 0 <= i < |page| ==> Precedes(page[i], row)
  {
    if page != [] {
      AfterTransitive(offset, page[|page| - 1], row);
      forall i | 0 <= i < |page| ensures Precedes(page[i], row) {
        if i < |page| - 1 {
          AfterTransitive(OffsetOf(page[i]), page[|page| - 1], row);
        }
      }
    }
  }

  // ---- one pass ----

  const EPOCH: Offset := Offset(0, "")

  function Start(s: Store): Offset {
    if s.offset.Some? then s.offset.value else EPOCH
  }

  /** INSERT ... ON CONFLICT (source_table, source_pk) DO NOTHING. */
  function Insert(events: map<string, Row>, r: Row): map<string, Row> {
    if r.id in events then events else events[r.id := r]
  }

  function InsertAll(events: map<string, Row>, rows: seq<Row>): map<string, Row> {
    if rows == [] then events
    else Insert(InsertAll(events, rows[..|rows| - 1]), rows[|rows| - 1])
  }

  /** How many rows of the page get their event. */
  function Visited(page: seq<Row>, fault: Fault): nat {
    match fault
    case NoFault => |page|
    case BeforeRows => 0
    case AtRow(i, inserted) => if i >= |page| then |page| else if inserted then i + 1 else i
    case AtSave(_) => |page|
  }

  predicate Saves(page: seq<Row>, fault: Fault) {
    page != [] &&
    match fault
    case NoFault => true
    case BeforeRows => false
    case AtRow(i, _) => i >= |page|
    case AtSave(saved) => saved
  }

  predicate Completes(page: seq<Row>, fault: Fault) {
    match fault
    case NoFault => true
    case BeforeRows => false
    case AtRow(i, _) => i >= |page|
    case AtSave(_) => page == []
  }

  function Sync(s: Store, page: seq<Row>, fault: Fault): Store {
    Store(if Saves(page, fault) then Some(OffsetOf(page[|page| - 1])) else s.offset,
          InsertAll(s.events, page[..Visited(page, fault)]))
  }

  class Worker {
    var offset: Option<Offset>
    var events: map<string, Row>

    function Value(): Store
      reads this
    {
      Store(offset, events)
    }

    constructor ()
      ensures Value() == Store(None, map[])
    {
      offset := None;
      events := map[];
    }

    /** Inserts the rows' events one by one until the fault strikes; `cursor` follows the rows. */
    method VisitRows(page: seq<Row>, fault: Fault, start: Offset) returns (failed: bool, cursor: Offset)
      modifies this`events
      ensures failed <==> fault.AtRow? && fault.index < |page|
      ensures failed ==> events == InsertAll(old(events), page[..if fault.inserted then fault.index + 1 else fault.index])
      ensures !failed ==> events == InsertAll(old(events), page)
      ensures !failed && page != [] ==> cursor == OffsetOf(page[|page| - 1])
    {
      cursor := start;
      for i := 0 to |page|
        invariant fault.AtRow? ==> i <= fault.index
        invariant events == InsertAll(old(events), page[..i])
        invariant i > 0 ==> cursor == OffsetOf(page[i - 1])
      {
        assert page[..i + 1][..i] == page[..i];
        if fault.AtRow? && fault.index == i {
          if fault.inserted {
            events := Insert(events, page[i]);
          }
          return true, cursor;
        }
        events := Insert(events, page[i]);
        cursor := OffsetOf(page[i]);
      }
      assert page[..|page|] == page;
      return false, cursor;
    }

    /** Returns the number of rows read, or None when the pass failed. */
    method SyncTable(table: seq<Row>, batch: nat, fault: Fault) returns (count: Option<nat>, page: seq<Row>)
      requires UniqueIds(table)
      modifies this
      ensures IsPage(table, Start(old(Value())), batch, page)
      ensures Value() == Sync(old(Value()), page, fault)
      ensures count == if Completes(page, fault) then Some(|page|) else None
    {
      var start := if offset.Some? then offset.value else EPOCH;
      page := Query(table, start, batch);
      assert page[..0] == [] && page[..|page|] == page;
      if fault.BeforeRows? {
        return None, page;
      }
      var failed, cursor := VisitRows(page, fault, start);
      if failed {
        return None, page;
      }
      if page != [] {
        if fault.AtSave? {
          if fault.saved {
            offset := Some(cursor);
          }
          return None, page;
        }
        offset := Some(cursor);
      }
      return Some(|page|), page;
    }
  }

  // ---- runs: the table grows, passes come and fail ----

  datatype Step = Grow(rows: seq<Row>) | Pass(page: seq<Row>, fault: Fault)

  datatype World = World(table: seq<Row>, store: Store)

  function Next(w: World, step: Step): World {
    match step
    case Grow(rows) => w.(table := w.table + rows)
    case Pass(page, fault) => w.(store := Sync(w.store, page, fault))
  }

  /** New rows keep ids unique and may lie anywhere; pages are answers of the query. */
  ghost predicate Allowed(w: World, batch: nat, step: Step) {
    match step
    case Grow(rows) => UniqueIds(w.table + rows)
    case Pass(page, _) => IsPage(w.table, Start(w.store), batch, page)
  }

  function Run(w: World, steps: seq<Step>): World {
    if steps == [] then w else Next(Run(w, steps[..|steps| - 1]), steps[|steps| - 1])
  }

  ghost predicate AllAllowed(w: World, batch: nat, steps: seq<Step>) {
    forall i :: 0 <= i < |steps| ==> Allowed(Run(w, steps[..i]), batch, steps[i])
  }

  /** No row of the run appears at or before the position saved at that time. */
  ghost predicate NoLateRows(w: World, steps: seq<Step>) {
    forall i, r :: 0 <= i < |steps| && steps[i].Grow? && r in steps[i].rows ==> After(Start(Run(w, steps[..i]).store), r)
  }

  /** Every row at or before the saved position has its event, and every event is the one event of
      a table row. */
  ghost predicate NothingMissed(w: World) {
    && UniqueIds(w.table)
    && (forall r :: r in w.table && !After(Start(w.store), r) ==> r.id in w.store.events)
    && (forall id :: id in w.store.events ==> w.store.events[id] in w.table && w.store.events[id].id == id)
  }

  lemma {:induction false} InsertAllLookup(events: map<string, Row>, rows: seq<Row>, id: string)
    ensures id in InsertAll(events, rows) <==> id in events || exists i :: 0 <= i < |rows| && rows[i].id == id
    ensures id in events ==> InsertAll(events, rows)[id] == events[id]
    ensures id !in events && id in InsertAll(events, rows) ==>
      InsertAll(events, rows)[id] in rows && InsertAll(events, rows)[id].id == id
  {
    if rows != [] {
      var prior, last := rows[..|rows| - 1], rows[|rows| - 1];
      InsertAllLookup(events, prior, id);
      assert rows == prior + [last];
      if i :| 0 <= i < |prior| && prior[i].id == id { assert rows[i].id == id; }
      if i :| 0 <= i < |rows| && rows[i].id == id && i < |prior| { assert prior[i].id == id; }
    }
  }

  /** The saved position only moves forward. */
  lemma OffsetAdvances(w: World, batch: nat, step: Step, r: Row)
    requires Allowed(w, batch, step) && After(Start(Next(w, step).store), r)
    ensures After(Start(w.store), r)
  {
    match step
    case Grow(_) =>
    case Pass(page, fault) =>
      if Saves(page, fault) {
        AfterTransitive(Start(w.store), page[|page| - 1], r);
      }
  }

  lemma PassMissesNothing(w: World, batch: nat, page: seq<Row>, fault: Fault)
    requires NothingMissed(w) && IsPage(w.table, Start(w.store), batch, page)
    ensures NothingMissed(Next(w, Pass(page, fault)))
  {
    var next := Next(w, Pass(page, fault));
    var rows := page[..Visited(page, fault)];
    forall r | r in w.table && !After(Start(next.store), r) ensures r.id in next.store.events {
      InsertAllLookup(w.store.events, rows, r.id);
      if After(Start(w.store), r) {
        assert Saves(page, fault) && rows == page;
        if r !in page {
          assert Precedes(page[|page| - 1], r);
        } else {
          var i :| 0 <= i < |page| && page[i] == r;
          assert rows[i].id == r.id;
        }
      }
    }
    forall id | id in next.store.events
      ensures next.store.events[id] in w.table && next.store.events[id].id == id
    {
      InsertAllLookup(w.store.events, rows, id);
    }
  }

  lemma GrowthMissesNothing(w: World, rows: seq<Row>)
    requires NothingMissed(w) && UniqueIds(w.table + rows) && forall r :: r in rows ==> After(Start(w.store), r)
    ensures NothingMissed(Next(w, Grow(rows)))
  {
  }

  lemma PriorNoLateRows(w: World, steps: seq<Step>)
    requires steps != [] && NoLateRows(w, steps)
    ensures NoLateRows(w, steps[..|steps| - 1])
  {
    var prior := steps[..|steps| - 1];
    forall i, r | 0 <= i < |prior| && prior[i].Grow? && r in prior[i].rows
      ensures After(Start(Run(w, prior[..i]).store), r)
    {
      assert prior[..i] == steps[..i] && prior[i] == steps[i];
    }
  }

  /** Whatever fails and wherever, over every run without late rows no row at or before the saved
      position lacks its event and no row has two. */
  lemma {:induction false} RunsMissNothing(w: World, batch: nat, steps: seq<Step>)
    requires NothingMissed(w) && AllAllowed(w, batch, steps) && NoLateRows(w, steps)
    ensures NothingMissed(Run(w, steps))
  {
    if steps != [] {
      var prior, last := steps[..|steps| - 1], steps[|steps| - 1];
      PriorAllowed(w, batch, steps);
      PriorNoLateRows(w, steps);
      RunsMissNothing(w, batch, prior);
      match last
      case Grow(rows) =>
        assert forall r :: r in rows ==> After(Start(Run(w, prior).store), r);
        GrowthMissesNothing(Run(w, prior), rows);
      case Pass(page, fault) => PassMissesNothing(Run(w, prior), batch, page, fault);
    }
  }

  lemma PriorAllowed(w: World, batch: nat, steps: seq<Step>)
    requires steps != [] && AllAllowed(w, batch, steps)
    ensures AllAllowed(w, batch, steps[..|steps| - 1])
    ensures Allowed(Run(w, steps[..|steps| - 1]), batch, steps[|steps| - 1])
  {
    var prior := steps[..|steps| - 1];
    forall i | 0 <= i < |prior| ensures Allowed(Run(w, prior[..i]), batch, prior[i]) {
      assert prior[..i] == steps[..i];
    }
  }

  lemma EmptyWorldMissesNothing(table: seq<Row>)
    requires UniqueIds(table) && forall r :: r in table ==> After(EPOCH, r)
    ensures NothingMissed(World(table, Store(None, map[])))
  {
  }

  /** A pass that reads 0 rows has caught up, and then the case events are exactly the rows. */
  lemma ZeroMeansCaughtUp(w: World, batch: nat, page: seq<Row>)
    requires NothingMissed(w) && batch >= 1 && IsPage(w.table, Start(w.store), batch, page)
    ensures page == [] <==> forall r :: r in w.table ==> !After(Start(w.store), r)
    ensures page == [] ==> w.store.events.Keys == (set r | r in w.table :: r.id)
    ensures page == [] ==> forall r :: r in w.table ==> Get(w.store.events, r.id) == Some(r)
  {
    if page != [] {
      assert page[0] in w.table && After(Start(w.store), page[0]);
    } else {
      forall r | r in w.table ensures Get(w.store.events, r.id) == Some(r) {
        assert r.id in w.store.events;
      }
    }
  }

  // ---- progress ----

  ghost function PendingRows(w: World): set<Row> {
    set r | r in w.table && After(Start(w.store), r)
  }

  lemma {:induction false} DistinctCount(rows: seq<Row>)
    requires forall i, j :: 0 <= i < j < |rows| ==> rows[i] != rows[j]
    ensures |set r | r in rows| == |rows|
  {
    if rows != [] {
      var prior, last := rows[..|rows| - 1], rows[|rows| - 1];
      DistinctCount(prior);
      assert rows == prior + [last];
      assert (set r | r in rows) == (set r | r in prior) + {last};
    }
  }

  lemma PageDistinct(page: seq<Row>)
    requires forall i, j :: 0 <= i < j < |page| ==> Precedes(page[i], page[j])
    ensures |set r | r in page| == |page|
  {
    forall i, j | 0 <= i < j < |page| ensures page[i] != page[j] {
      PrecedesTotal(page[i], page[j]);
    }
    DistinctCount(page);
  }

  lemma LeftBehind(table: seq<Row>, offset: Offset, batch: nat, page: seq<Row>, r: Row)
    requires IsPage(table, offset, batch, page) && page != [] && r in table
    ensures Precedes(page[|page| - 1], r) <==> After(offset, r) && r !in page
  {
    var last := page[|page| - 1];
    if Precedes(last, r) {
      AfterTransitive(offset, last, r);
      if i :| 0 <= i < |page| && page[i] == r {
        PrecedesTotal(last, r);
      }
    }
  }

  /** A pass that saves its position leaves exactly its page behind. */
  lemma SavedPassConsumesPage(w: World, batch: nat, page: seq<Row>, fault: Fault)
    requires UniqueIds(w.table) && IsPage(w.table, Start(w.store), batch, page) && Saves(page, fault)
    ensures |PendingRows(Next(w, Pass(page, fault)))| == |PendingRows(w)| - |page|
  {
    var next := Next(w, Pass(page, fault));
    var taken := set r | r in page;
    PageDistinct(page);
    forall r | r in w.table ensures r in PendingRows(next) <==> r in PendingRows(w) && r !in taken {
      LeftBehind(w.table, Start(w.store), batch, page, r);
    }
    assert PendingRows(next) == PendingRows(w) - taken;
    assert taken <= PendingRows(w);
  }

  lemma CompletePassProgress(w: World, batch: nat, page: seq<Row>, fault: Fault)
    requires UniqueIds(w.table) && IsPage(w.table, Start(w.store), batch, page)
    ensures |PendingRows(Next(w, Pass(page, fault)))| <= |PendingRows(w)|
    ensures Completes(page, fault) && |PendingRows(w)| > 0 && batch >= 1 ==>
      |PendingRows(Next(w, Pass(page, fault)))|
      == if |PendingRows(w)| <= batch then 0 else |PendingRows(w)| - batch
  {
    if Saves(page, fault) {
      SavedPassConsumesPage(w, batch, page, fault);
    }
    if Completes(page, fault) && |PendingRows(w)| > 0 && batch >= 1 {
      var r :| r in PendingRows(w);
      assert r in page || |page| == batch;
      if |page| < batch {
        assert forall r :: r in PendingRows(w) ==> r in page;
        assert PendingRows(w) == set r | r in page;
        PageDistinct(page);
      }
    }
  }

  ghost function CompletePasses(steps: seq<Step>): nat {
    if steps == [] then 0
    else
      var last := steps[|steps| - 1];
      CompletePasses(steps[..|steps| - 1]) + (if last.Pass? && Completes(last.page, last.fault) then 1 else 0)
  }

  ghost predicate NoGrowth(steps: seq<Step>) {
    forall i :: 0 <= i < |steps| ==> steps[i].Pass?
  }

  /** Once the table stops growing, enough complete passes, with any failures in between, leave
      nothing after the saved position. */
  lemma {:induction false} PassesCatchUp(w: World, batch: nat, steps: seq<Step>)
    requires UniqueIds(w.table) && batch >= 1 && AllAllowed(w, batch, steps) && NoGrowth(steps)
    ensures |PendingRows(Run(w, steps))| == 0
         || |PendingRows(Run(w, steps))| + batch * CompletePasses(steps) <= |PendingRows(w)|
    ensures Run(w, steps).table == w.table
  {
    if steps != [] {
      var prior, last := steps[..|steps| - 1], steps[|steps| - 1];
      PriorAllowed(w, batch, steps);
      PassesCatchUp(w, batch, prior);
      CompletePassProgress(Run(w, prior), batch, last.page, last.fault);
      var done := CompletePasses(prior);
      OneMoreBatch(batch, done);
      assert CompletePasses(steps) == if Completes(last.page, last.fault) then done + 1 else done;
    }
  }

  lemma OneMoreBatch(batch: nat, n: nat)
    ensures batch * (n + 1) == batch * n + batch
  {
  }

  // ---- which rows are visited ----

  /** One step and one row: a row that the saved position passes over has its event afterwards. */
  lemma PassedRowHasEvent(w: World, batch: nat, step: Step, r: Row)
    requires UniqueIds(w.table) && Allowed(w, batch, step) && r in w.table
    requires After(Start(w.store), r) && !After(Start(Next(w, step).store), r)
    ensures r.id in Next(w, step).store.events
  {
    match step
    case Grow(_) => assert false;
    case Pass(page, fault) =>
      assert Saves(page, fault) && page[..Visited(page, fault)] == page;
      LeftBehind(w.table, Start(w.store), batch, page, r);
      InsertAllLookup(w.store.events, page, r.id);
      assert r in page;
  }

  lemma EventsStay(w: World, step: Step, id: string)
    requires id in w.store.events
    ensures id in Next(w, step).store.events
  {
    if step.Pass? {
      InsertAllLookup(w.store.events, step.page[..Visited(step.page, step.fault)], id);
    }
  }

  /** Over every run, growing or not: a row that was after the saved position and no longer is has its event. */
  lemma {:induction false} PassedRowsHaveEvents(w: World, batch: nat, steps: seq<Step>, r: Row)
    requires UniqueIds(w.table) && AllAllowed(w, batch, steps) && r in w.table
    requires r.id in w.store.events || After(Start(w.store), r)
    ensures
      var last := Run(w, steps);
      r in last.table && UniqueIds(last.table) && (r.id in last.store.events || After(Start(last.store), r))
  {
    if steps != [] {
      var prior, step := steps[..|steps| - 1], steps[|steps| - 1];
      var before := Run(w, prior);
      PriorAllowed(w, batch, steps);
      PassedRowsHaveEvents(w, batch, prior, r);
      if r.id in before.store.events {
        EventsStay(before, step, r.id);
      } else if !After(Start(Next(before, step).store), r) {
        PassedRowHasEvent(before, batch, step, r);
      }
    }
  }

  /** A row that becomes visible at or before the saved position is never visited, however many
      passes follow. */
  lemma {:induction false} LateRowIsNeverVisited(w: World, batch: nat, steps: seq<Step>, r: Row)
    requires UniqueIds(w.table) && AllAllowed(w, batch, steps)
    requires r in w.table && !After(Start(w.store), r) && r.id !in w.store.events
    ensures
      var last := Run(w, steps);
      && r in last.table && UniqueIds(last.table)
      && !After(Start(last.store), r) && r.id !in last.store.events
  {
    if steps != [] {
      var prior, step := steps[..|steps| - 1], steps[|steps| - 1];
      PriorAllowed(w, batch, steps);
      LateRowIsNeverVisited(w, batch, prior, r);
      var before := Run(w, prior);
      if After(Start(Next(before, step).store), r) {
        OffsetAdvances(before, batch, step, r);
      }
      if step.Pass? {
        InsertAllLookup(before.store.events, step.page[..Visited(step.page, step.fault)], r.id);
      }
    }
  }

  /** Which rows end up with an event, whatever was missed before: after any run, in which rows may
      appear anywhere, and then enough complete passes, exactly the rows that had one or lay after
      the saved position. */
  lemma RowIsVisitedExactly(w: World, batch: nat, steps: seq<Step>, more: seq<Step>, r: Row)
    requires UniqueIds(w.table) && batch >= 1 && r in w.table
    requires AllAllowed(w, batch, steps) && AllAllowed(Run(w, steps), batch, more) && NoGrowth(more)
    requires batch * CompletePasses(more) >= |PendingRows(Run(w, steps))|
    ensures r.id in Run(Run(w, steps), more).store.events
       <==> r.id in w.store.events || After(Start(w.store), r)
  {
    var middle := Run(w, steps);
    if r.id in w.store.events || After(Start(w.store), r) {
      PassedRowsHaveEvents(w, batch, steps, r);
      PassesCatchUp(middle, batch, more);
      PassedRowsHaveEvents(middle, batch, more, r);
      var last := Run(middle, more);
      assert r !in PendingRows(last);
    } else {
      LateRowIsNeverVisited(w, batch, steps, r);
      LateRowIsNeverVisited(middle, batch, more, r);
    }
  }

  // ---- from the worker's initial store ----

  /** Starting with nothing saved, after any run without late rows and then enough complete passes, the
      case events are exactly the rows of the table, each under its own id. */
  lemma FirstSyncCopiesTable(table: seq<Row>, batch: nat, steps: seq<Step>, more: seq<Step>)
    requires UniqueIds(table) && batch >= 1
    requires forall r :: r in table ==> r.createdAt > 0 || (r.createdAt == 0 && r.id != "")
    requires AllAllowed(World(table, Store(None, map[])), batch, steps)
    requires NoLateRows(World(table, Store(None, map[])), steps)
    requires
      var middle := Run(World(table, Store(None, map[])), steps);
      AllAllowed(middle, batch, more) && NoGrowth(more) && batch * CompletePasses(more) >= |PendingRows(middle)|
    ensures
      var last := Run(Run(World(table, Store(None, map[])), steps), more);
      && (forall r :: r in last.table ==> Get(last.store.events, r.id) == Some(r))
      && (forall id :: id in last.store.events ==> last.store.events[id] in last.table && last.store.events[id].id == id)
  {
    var first := World(table, Store(None, map[]));
    var middle := Run(first, steps);
    var last := Run(middle, more);
    forall r | r in table ensures After(EPOCH, r) { StartOfEmptyStore(r); }
    EmptyWorldMissesNothing(table);
    RunsMissNothing(first, batch, steps);
    RunsMissNothing(middle, batch, more);
    PassesCatchUp(middle, batch, more);
    forall r | r in last.table ensures Get(last.store.events, r.id) == Some(r) {
      assert r !in PendingRows(last);
      assert r.id in last.store.events;
    }
  }
}
