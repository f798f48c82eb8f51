/** AzureBatchingTableStorageSink: turns each batch of log events into table
    rows and inserts them in batch operations, one per run of consecutive
    rows that share a partition key (a table batch may only touch one
    partition). */
module AzureBatchingTableStorageSink {
  import opened Common
  import opened SerilogEvents
  import opened DefaultKeyGenerator
  import opened LogEventEntity

  type Entity = LogEventEntity

  // ---------------------------------------------------------------------------
  // Runs of equal partition keys
  // ---------------------------------------------------------------------------

  /** The batches concatenated. */
  function Flatten(rs: seq<seq<Entity>>): seq<Entity>
  {
    if rs == [] then [] else rs[0] + Flatten(rs[1..])
  }

  lemma {:induction false} FlattenAppend(rs: seq<seq<Entity>>, g: seq<Entity>)
    ensures Flatten(rs + [g]) == Flatten(rs) + g
  {
    if rs == [] {
      assert [] + [g] == [g];
      assert Flatten([g]) == g + Flatten([]);
    } else {
      assert (rs + [g])[1..] == rs[1..] + [g];
      FlattenAppend(rs[1..], g);
    }
  }

  /** The grouping the loop of EmitBatchAsync performs, written over the
      inserted rows from the last one back: a row joins the current batch
      when its partition key equals the previous row's, and starts a new
      batch otherwise. */
  function Runs(es: seq<Entity>): (rs: seq<seq<Entity>>)
    ensures (rs == []) <==> (es == [])
    decreases |es|
  {
    if es == [] then []
    else
      var p := es[..|es| - 1];
      var e := es[|es| - 1];
      var rp := Runs(p);
      if p != [] && p[|p| - 1].partitionKey == e.partitionKey then rp[..|rp| - 1] + [rp[|rp| - 1] + [e]]
      else rp + [[e]]
  }

  /** A row with the previous row's key joins the last batch. */
  lemma RunsExtendSame(es: seq<Entity>, e: Entity)
    requires es != [] && es[|es| - 1].partitionKey == e.partitionKey
    ensures Runs(es) != []
    ensures Runs(es + [e]) == Runs(es)[..|Runs(es)| - 1] + [Runs(es)[|Runs(es)| - 1] + [e]]
  {
    assert (es + [e])[..|es|] == es;
  }

  /** A first row, or one with a new key, starts a batch of its own. */
  lemma RunsExtendNew(es: seq<Entity>, e: Entity)
    requires es == [] || es[|es| - 1].partitionKey != e.partitionKey
    ensures Runs(es + [e]) == Runs(es) + [[e]]
  {
    assert (es + [e])[..|es|] == es;
  }

  /** rs splits es into non-empty batches, each of one partition key, where
      neighbouring batches have different keys: the maximal runs. */
  predicate IsRunPartition(rs: seq<seq<Entity>>, es: seq<Entity>)
  {
    && Flatten(rs) == es
    && (forall k :: 0 <= k < |rs| ==> rs[k] != [])
    && (forall k, i :: 0 <= k < |rs| && 0 <= i < |rs[k]| ==> rs[k][i].partitionKey == rs[k][0].partitionKey)
    && (forall k :: 0 <= k < |rs| - 1 ==> rs[k][0].partitionKey != rs[k + 1][0].partitionKey)
  }

  lemma {:induction false} RunsArePartition(es: seq<Entity>)
    ensures IsRunPartition(Runs(es), es)
    decreases |es|
  {
    if es != [] {
      var p := es[..|es| - 1];
      var e := es[|es| - 1];
      RunsArePartition(p);
      assert es == p + [e];
      if p != [] && p[|p| - 1].partitionKey == e.partitionKey {
        RunsExtendSame(p, e);
        PartitionJoin(Runs(p), p, e);
      } else {
        RunsExtendNew(p, e);
        PartitionStart(Runs(p), p, e);
      }
    }
  }

  /** A row with the last row's key, added to the last batch, keeps a run partition. */
  lemma PartitionJoin(rp: seq<seq<Entity>>, p: seq<Entity>, e: Entity)
    requires IsRunPartition(rp, p) && p != [] && p[|p| - 1].partitionKey == e.partitionKey
    ensures rp != [] && IsRunPartition(rp[..|rp| - 1] + [rp[|rp| - 1] + [e]], p + [e])
  {
    LastRowOfPartition(rp, p);
    FlattenJoin(rp, e);
    JoinKeys(rp, e);
  }

  /** The last row is the last row of the last batch. */
  lemma LastRowOfPartition(rp: seq<seq<Entity>>, p: seq<Entity>)
    requires IsRunPartition(rp, p) && p != []
    ensures rp != [] && rp[|rp| - 1] != [] && p[|p| - 1] == rp[|rp| - 1][|rp[|rp| - 1]| - 1]
  {
    assert Flatten([]) == [];
    var n := |rp| - 1;
    assert rp == rp[..n] + [rp[n]];
    LastOfFlatten(rp[..n], rp[n]);
  }

  /** The concatenation is that of all batches but the last, then the last. */
  lemma FlattenSplit(rp: seq<seq<Entity>>)
    requires rp != []
    ensures Flatten(rp) == Flatten(rp[..|rp| - 1]) + rp[|rp| - 1]
  {
    assert rp == rp[..|rp| - 1] + [rp[|rp| - 1]];
    FlattenAppend(rp[..|rp| - 1], rp[|rp| - 1]);
  }

  lemma FlattenJoin(rp: seq<seq<Entity>>, e: Entity)
    requires rp != []
    ensures Flatten(rp[..|rp| - 1] + [rp[|rp| - 1] + [e]]) == Flatten(rp) + [e]
  {
    var init, g := rp[..|rp| - 1], rp[|rp| - 1];
    FlattenSplit(rp);
    FlattenAppend(init, g + [e]);
    assert Flatten(init) + (g + [e]) == (Flatten(init) + g) + [e];
  }

  /** The key conditions of a run partition survive adding e to its last
      batch when e has the key of that batch's last row. */
  lemma JoinKeys(rp: seq<seq<Entity>>, e: Entity)
    requires rp != [] && rp[|rp| - 1] != []
    requires rp[|rp| - 1][|rp[|rp| - 1]| - 1].partitionKey == e.partitionKey
    requires forall k :: 0 <= k < |rp| ==> rp[k] != []
    requires forall k, i :: 0 <= k < |rp| && 0 <= i < |rp[k]| ==> rp[k][i].partitionKey == rp[k][0].partitionKey
    requires forall k :: 0 <= k < |rp| - 1 ==> rp[k][0].partitionKey != rp[k + 1][0].partitionKey
    ensures var rs := rp[..|rp| - 1] + [rp[|rp| - 1] + [e]];
      && (forall k :: 0 <= k < |rs| ==> rs[k] != [])
      && (forall k, i :: 0 <= k < |rs| && 0 <= i < |rs[k]| ==> rs[k][i].partitionKey == rs[k][0].partitionKey)
      && (forall k :: 0 <= k < |rs| - 1 ==> rs[k][0].partitionKey != rs[k + 1][0].partitionKey)
  {
    var n := |rp| - 1;
    var g := rp[n];
    var rs: seq<seq<Entity>> := rp[..n] + [g + [e]];
    forall k | 0 <= k < |rs|
      ensures rs[k] != []
    {
      if k < n {
        assert rs[k] == rp[k];
      }
    }
    forall k, i | 0 <= k < |rs| && 0 <= i < |rs[k]|
      ensures rs[k][i].partitionKey == rs[k][0].partitionKey
    {
      if k < n {
        assert rs[k] == rp[k];
      } else {
        assert rs[k] == g + [e];
        assert g[|g| - 1].partitionKey == g[0].partitionKey;
      }
    }
    forall k | 0 <= k < |rs| - 1
      ensures rs[k][0].partitionKey != rs[k + 1][0].partitionKey
    {
      assert rs[k] == rp[k];
      assert rs[k + 1][0] == rp[k + 1][0];
    }
  }

  /** A first row, or a row with a new key, added as a batch of its own, keeps a run partition. */
  lemma PartitionStart(rp: seq<seq<Entity>>, p: seq<Entity>, e: Entity)
    requires IsRunPartition(rp, p) && (p == [] || p[|p| - 1].partitionKey != e.partitionKey)
    ensures IsRunPartition(rp + [[e]], p + [e])
  {
    var rs: seq<seq<Entity>> := rp + [[e]];
    FlattenAppend(rp, [e]);
    forall k | 0 <= k < |rs| - 1
      ensures rs[k][0].partitionKey != rs[k + 1][0].partitionKey
    {
      assert rs[k] == rp[k];
      if k + 1 < |rp| {
        assert rs[k + 1] == rp[k + 1];
      } else {
        var g: seq<Entity> := rp[k];
        LastOfFlatten(rp[..k], g);
        assert rp == rp[..k] + [g];
        assert p[|p| - 1] == g[|g| - 1];
        assert g[|g| - 1].partitionKey == g[0].partitionKey;
      }
    }
  }

  /** The last row of a flattening whose last batch is non-empty is that batch's last row. */
  lemma LastOfFlatten(front: seq<seq<Entity>>, g: seq<Entity>)
    requires g != []
    ensures Flatten(front + [g]) != [] && Flatten(front + [g])[|Flatten(front + [g])| - 1] == g[|g| - 1]
  {
    FlattenAppend(front, g);
  }

  /** Splitting off the first batch leaves a run partition of the remaining rows. */
  lemma TailIsPartition(rs: seq<seq<Entity>>, es: seq<Entity>)
    requires IsRunPartition(rs, es) && rs != []
    ensures |rs[0]| <= |es| && es[..|rs[0]|] == rs[0] && IsRunPartition(rs[1..], es[|rs[0]|..])
  {
    assert es == rs[0] + Flatten(rs[1..]);
    assert es[|rs[0]|..] == Flatten(rs[1..]);
    forall k | 0 <= k < |rs[1..]| - 1
      ensures rs[1..][k][0].partitionKey != rs[1..][k + 1][0].partitionKey
    {
      assert rs[1..][k] == rs[k + 1] && rs[1..][k + 1] == rs[k + 2];
    }
  }

  /** Non-empty batches: there are no more batches than rows. */
  lemma {:induction false} FlattenLength(rs: seq<seq<Entity>>)
    requires forall k :: 0 <= k < |rs| ==> rs[k] != []
    ensures |Flatten(rs)| >= |rs|
  {
    if rs != [] {
      FlattenLength(rs[1..]);
    }
  }

  /** The length of the run of rows that share the first row's partition key. */
  function FirstRunLength(es: seq<Entity>): (n: nat)
    ensures n <= |es|
  {
    if |es| <= 1 then |es|
    else if es[1].partitionKey == es[0].partitionKey then 1 + FirstRunLength(es[1..])
    else 1
  }

  /** A prefix of one key that is followed by a different key (or by nothing) is the first run. */
  lemma {:induction false} FirstRunIs(es: seq<Entity>, n: nat)
    requires 1 <= n <= |es|
    requires forall i :: 0 <= i < n ==> es[i].partitionKey == es[0].partitionKey
    requires n == |es| || es[n].partitionKey != es[0].partitionKey
    ensures FirstRunLength(es) == n
  {
    if n > 1 {
      FirstRunIs(es[1..], n - 1);
    }
  }

  /** In a run partition the first batch is exactly the first run. */
  lemma FirstBatchIsFirstRun(rs: seq<seq<Entity>>, es: seq<Entity>)
    requires IsRunPartition(rs, es) && rs != []
    ensures |rs[0]| == FirstRunLength(es)
  {
    TailIsPartition(rs, es);
    var a := rs[0];
    forall i | 0 <= i < |a|
      ensures es[i].partitionKey == es[0].partitionKey
    {
      assert es[i] == a[i] && es[0] == a[0];
    }
    if |a| < |es| {
      var rest := es[|a|..];
      assert Flatten(rs[1..]) == rest;
      assert rs[1..] != [];
      assert Flatten(rs[1..]) == rs[1] + Flatten(rs[2..]) by {
        assert rs[1..][0] == rs[1] && rs[1..][1..] == rs[2..];
      }
      assert es[|a|] == rest[0] == rs[1][0];
    }
    FirstRunIs(es, |a|);
  }

  /** The batches are determined by the rows: the maximal runs are the only
      run partition. */
  lemma {:induction false} RunPartitionUnique(rs: seq<seq<Entity>>, ss: seq<seq<Entity>>, es: seq<Entity>)
    requires IsRunPartition(rs, es) && IsRunPartition(ss, es)
    ensures rs == ss
    decreases |rs|
  {
    FlattenLength(rs);
    FlattenLength(ss);
    if es != [] {
      assert Flatten([]) == [];
      assert rs != [] && ss != [];
      FirstBatchIsFirstRun(rs, es);
      FirstBatchIsFirstRun(ss, es);
      TailIsPartition(rs, es);
      TailIsPartition(ss, es);
      RunPartitionUnique(rs[1..], ss[1..], es[|rs[0]|..]);
      assert rs == [rs[0]] + rs[1..] && ss == [ss[0]] + ss[1..];
    }
  }

  /** Every batch holds at most as many rows as the events it came from; the
      periodic batching base class hands over at most batchSizeLimit events,
      so a limit of at most 100 keeps each batch within the 100 operations a
      table batch allows. */
  lemma {:induction false} RunsBounded(es: seq<Entity>, limit: nat)
    requires |es| <= limit
    ensures forall k :: 0 <= k < |Runs(es)| ==> 0 < |Runs(es)[k]| <= limit
  {
    var rs := Runs(es);
    RunsArePartition(es);
    forall k | 0 <= k < |rs|
      ensures |rs[k]| <= |es|
    {
      FlattenHolds(rs, k);
    }
  }

  lemma {:induction false} FlattenHolds(rs: seq<seq<Entity>>, k: nat)
    requires k < |rs|
    ensures |rs[k]| <= |Flatten(rs)|
  {
    if k > 0 {
      FlattenHolds(rs[1..], k - 1);
      assert rs[1..][k - 1] == rs[k];
    }
  }

  /** The state of the grouping loop after rows: the batches flushed so far
      and the open batch are the maximal runs of rows, the open batch being
      the last run (and empty only before the first row). */
  predicate Pending(flushed: seq<seq<Entity>>, operation: seq<Entity>, rows: seq<Entity>)
  {
    && (rows == [] ==> flushed == [] && operation == [])
    && (rows != [] ==> operation != [] && flushed + [operation] == Runs(rows))
  }

  /** A row with the previous row's key goes into the open batch. */
  lemma PendingJoin(flushed: seq<seq<Entity>>, operation: seq<Entity>, rows: seq<Entity>, e: Entity)
    requires Pending(flushed, operation, rows)
    requires rows != [] && rows[|rows| - 1].partitionKey == e.partitionKey
    ensures Pending(flushed, operation + [e], rows + [e])
  {
    RunsExtendSame(rows, e);
    var rs := Runs(rows);
    assert rs[..|rs| - 1] == flushed && rs[|rs| - 1] == operation;
  }

  /** A first row, or a row with a new key, flushes the open batch (if any)
      and opens a batch of its own. */
  lemma PendingStart(flushed: seq<seq<Entity>>, operation: seq<Entity>, rows: seq<Entity>, e: Entity)
    requires Pending(flushed, operation, rows)
    requires rows == [] || rows[|rows| - 1].partitionKey != e.partitionKey
    ensures Pending(if operation == [] then flushed else flushed + [operation], [e], rows + [e])
  {
    RunsExtendNew(rows, e);
    if rows == [] {
      assert Runs([e]) == Runs(rows + [e]);
    }
  }

  /** One row more: it joins the open batch when it has the previous row's
      key, and otherwise the open batch (if any) is flushed and it opens a new one. */
  lemma PendingStep(flushed: seq<seq<Entity>>, operation: seq<Entity>, rows: seq<Entity>, e: Entity)
    requires Pending(flushed, operation, rows)
    ensures rows != [] && rows[|rows| - 1].partitionKey == e.partitionKey ==>
      Pending(flushed, operation + [e], rows + [e])
    ensures !(rows != [] && rows[|rows| - 1].partitionKey == e.partitionKey) ==>
      Pending(if operation == [] then flushed else flushed + [operation], [e], rows + [e])
  {
    if rows != [] && rows[|rows| - 1].partitionKey == e.partitionKey {
      PendingJoin(flushed, operation, rows, e);
    } else {
      PendingStart(flushed, operation, rows, e);
    }
  }

  /** Flushing a non-empty open batch at the end leaves exactly the runs. */
  lemma PendingFinish(flushed: seq<seq<Entity>>, operation: seq<Entity>, rows: seq<Entity>)
    requires Pending(flushed, operation, rows)
    ensures (if operation == [] then flushed else flushed + [operation]) == Runs(rows)
  {
  }

  // ---------------------------------------------------------------------------
  // The table and the sink
  // ---------------------------------------------------------------------------

  /** A CloudTable reference: its name and the batches executed against it. */
  class CloudTable {
    const name: string
    var batches: seq<seq<Entity>>

    constructor (name: string)
      ensures this.name == name && batches == []
    {
      this.name := name;
      batches := [];
    }

    /** ExecuteBatchAsync(operation): one insert per row, as one batch. */
    method ExecuteBatch(operation: seq<Entity>)
      modifies this
      ensures batches == old(batches) + [operation]
    {
      batches := batches + [operation];
    }
  }

  const BatchSizeMessage: string := "batchSizeLimit must be between 1 and 100 for Azure Table Storage"

  /** string.IsNullOrEmpty(storageTableName) ? typeof(LogEventEntity).Name : storageTableName. */
  function TableNameOrDefault(storageTableName: Option<string>): (name: string)
    ensures |name| > 0
    ensures IsNullOrEmpty(storageTableName) ==> name == "LogEventEntity"
    ensures !IsNullOrEmpty(storageTableName) ==> name == storageTableName.value
  {
    if IsNullOrEmpty(storageTableName) then "LogEventEntity" else storageTableName.value
  }

  /** Whether the constructor accepts a batch size. */
  predicate ValidBatchSizeLimit(batchSizeLimit: int32)
  {
    1 <= batchSizeLimit <= 100
  }

  /** rows[j] is the entity built for events[j] from the partition key of
      the clock reading number count0 + j and the row key of counter value
      start + j + 1, for every j; written from the back so that appending
      one row unfolds it once. */
  ghost predicate Emitted(
    rows: seq<Entity>, events: seq<LogEvent>, partitionKeyOf: (LogEvent, Ticks) -> string, readings: nat -> Ticks, count0: nat,
    rowKeyOf: (LogEvent, int64) -> string, start: int64, renderers: Renderers)
    decreases |rows|
  {
    && |rows| == |events|
    && (rows != [] ==>
         var n := |rows| - 1;
         && BuiltFrom(rows[n], events[n], partitionKeyOf(events[n], readings(count0 + n)),
                      rowKeyOf(events[n], IdAfter(start, n + 1)), renderers)
         && Emitted(rows[..n], events[..n], partitionKeyOf, readings, count0, rowKeyOf, start, renderers))
  }

  /** Appending the row built for the next event extends Emitted. */
  lemma EmittedStep(
    rows: seq<Entity>, events: seq<LogEvent>, i: nat, row: Entity, partitionKeyOf: (LogEvent, Ticks) -> string,
    readings: nat -> Ticks, count0: nat, rowKeyOf: (LogEvent, int64) -> string, start: int64, renderers: Renderers)
    requires i < |events|
    requires Emitted(rows, events[..i], partitionKeyOf, readings, count0, rowKeyOf, start, renderers)
    requires BuiltFrom(row, events[i], partitionKeyOf(events[i], readings(count0 + i)),
                       rowKeyOf(events[i], IdAfter(start, i + 1)), renderers)
    ensures Emitted(rows + [row], events[..i + 1], partitionKeyOf, readings, count0, rowKeyOf, start, renderers)
  {
    assert (rows + [row])[..i] == rows && events[..i + 1][..i] == events[..i];
  }

  lemma {:induction false} EmittedAll(
    rows: seq<Entity>, events: seq<LogEvent>, partitionKeyOf: (LogEvent, Ticks) -> string, readings: nat -> Ticks, count0: nat,
    rowKeyOf: (LogEvent, int64) -> string, start: int64, renderers: Renderers)
    requires Emitted(rows, events, partitionKeyOf, readings, count0, rowKeyOf, start, renderers)
    ensures |rows| == |events|
    ensures forall j :: 0 <= j < |rows| ==>
      BuiltFrom(rows[j], events[j], partitionKeyOf(events[j], readings(count0 + j)),
                rowKeyOf(events[j], IdAfter(start, j + 1)), renderers)
    decreases |rows|
  {
    if rows != [] {
      var n := |rows| - 1;
      EmittedAll(rows[..n], events[..n], partitionKeyOf, readings, count0, rowKeyOf, start, renderers);
      forall j | 0 <= j < n
        ensures BuiltFrom(rows[j], events[j], partitionKeyOf(events[j], readings(count0 + j)),
                          rowKeyOf(events[j], IdAfter(start, j + 1)), renderers)
      {
        assert rows[..n][j] == rows[j] && events[..n][j] == events[j];
      }
    }
  }

  /** The row at position k of an emitted batch, read out of Emitted. */
  lemma EmittedRow(
    rows: seq<Entity>, events: seq<LogEvent>, partitionKeyOf: (LogEvent, Ticks) -> string, readings: nat -> Ticks,
    count0: nat, rowKeyOf: (LogEvent, int64) -> string, start: int64, renderers: Renderers, k: nat)
    requires Emitted(rows, events, partitionKeyOf, readings, count0, rowKeyOf, start, renderers)
    requires k < |rows|
    ensures k < |events|
    ensures rows[k].offeredRowKey == rowKeyOf(events[k], IdAfter(start, k + 1))
    ensures rows[k].partitionKey == partitionKeyOf(events[k], readings(count0 + k))
  {
    EmittedAll(rows, events, partitionKeyOf, readings, count0, rowKeyOf, start, renderers);
  }

  /** With a row-key function that separates counters (the default one does,
      by RowKeyTextSeparates), the rows of one batch were offered pairwise
      distinct row keys. The stored key may still repeat, since a
      SourceContext property overrides it. */
  lemma EmittedRowKeysDistinct(
    rows: seq<Entity>, events: seq<LogEvent>, partitionKeyOf: (LogEvent, Ticks) -> string, readings: nat -> Ticks,
    count0: nat, rowKeyOf: (LogEvent, int64) -> string, start: int64, renderers: Renderers, i: nat, j: nat)
    requires Emitted(rows, events, partitionKeyOf, readings, count0, rowKeyOf, start, renderers)
    requires SeparatesCounters(rowKeyOf)
    requires i < j < |rows| <= 0x1_0000_0000_0000_0000
    ensures rows[i].offeredRowKey != rows[j].offeredRowKey
  {
    EmittedRow(rows, events, partitionKeyOf, readings, count0, rowKeyOf, start, renderers, i);
    EmittedRow(rows, events, partitionKeyOf, readings, count0, rowKeyOf, start, renderers, j);
    IdsDistinct(start, i + 1, j + 1);
  }

  /** With the default partition keys and a clock that never goes back, a
      later row's partition key is the same as an earlier row's or sorts
      before it. */
  lemma EmittedPartitionKeysFall(
    rows: seq<Entity>, events: seq<LogEvent>, readings: nat -> Ticks, count0: nat,
    rowKeyOf: (LogEvent, int64) -> string, start: int64, renderers: Renderers, i: nat, j: nat)
    requires Emitted(rows, events, PartitionKeyAt, readings, count0, rowKeyOf, start, renderers)
    requires i < j < |rows| && readings(count0 + i) <= readings(count0 + j)
    ensures rows[j].partitionKey == rows[i].partitionKey || LexLess(rows[j].partitionKey, rows[i].partitionKey)
  {
    EmittedRow(rows, events, PartitionKeyAt, readings, count0, rowKeyOf, start, renderers, i);
    EmittedRow(rows, events, PartitionKeyAt, readings, count0, rowKeyOf, start, renderers, j);
    PartitionKeyOrder(events[i], events[j], readings(count0 + i), readings(count0 + j));
  }

  class AzureBatchingTableStorageSink {
    const batchSizeLimit: int32
    const renderers: Renderers
    const keyGenerator: DefaultKeyGenerator
    const table: CloudTable

    constructor Init(batchSizeLimit: int32, renderers: Renderers, keyGenerator: DefaultKeyGenerator, table: CloudTable)
      ensures this.batchSizeLimit == batchSizeLimit && this.renderers == renderers
      ensures this.keyGenerator == keyGenerator && this.table == table
    {
      this.batchSizeLimit := batchSizeLimit;
      this.renderers := renderers;
      this.keyGenerator := keyGenerator;
      this.table := table;
    }

    /** The constructors: a batch size outside 1..100 is refused with an
        ArgumentException; otherwise the given key generator (a new default
        one when none is given) and the table of the given name, or of the
        default name, are used. */
    static method Create(
      batchSizeLimit: int32, renderers: Renderers, storageTableName: Option<string>,
      keyGenerator: Option<DefaultKeyGenerator>)
      returns (r: Result<AzureBatchingTableStorageSink>)
      ensures r.Failure? <==> !ValidBatchSizeLimit(batchSizeLimit)
      ensures r.Failure? ==> r.error == Argument(BatchSizeMessage)
      ensures r.Success? ==>
        && fresh(r.value) && fresh(r.value.table)
        && r.value.batchSizeLimit == batchSizeLimit && r.value.renderers == renderers
        && r.value.table.name == TableNameOrDefault(storageTableName) && r.value.table.batches == []
      ensures r.Success? && keyGenerator.Some? ==> r.value.keyGenerator == keyGenerator.value
      ensures r.Success? && keyGenerator.None? ==>
        && fresh(r.value.keyGenerator) && r.value.keyGenerator.rowId == 0
        && r.value.keyGenerator.partitionKeyOf == PartitionKeyAt && r.value.keyGenerator.rowKeyOf == RowKeyText
    {
      if batchSizeLimit < 1 || batchSizeLimit > 100 {
        return Failure(Argument(BatchSizeMessage));
      }
      var generator: DefaultKeyGenerator;
      if keyGenerator.Some? {
        generator := keyGenerator.value;
      } else {
        generator := new DefaultKeyGenerator();
      }
      var table := new CloudTable(TableNameOrDefault(storageTableName));
      var sink := new AzureBatchingTableStorageSink.Init(batchSizeLimit, renderers, generator, table);
      r := Success(sink);
    }

    /** One turn of the loop of EmitBatchAsync: the event's partition key
        from the next clock reading; when it differs from the previous key,
        the open batch (if any) is executed and a new one begun; then the
        row, keyed by the next counter value, joins the open batch. */
    method EmitOne(logEvent: LogEvent, clock: Clock, operation: seq<Entity>, lastPartitionKey: Option<string>)
      returns (operation': seq<Entity>, lastPartitionKey': Option<string>, row: Entity)
      modifies table, keyGenerator, clock
      ensures clock.readCount == old(clock.readCount) + 1
      ensures keyGenerator.rowId == Increment64(old(keyGenerator.rowId))
      ensures BuiltFrom(row, logEvent, keyGenerator.partitionKeyOf(logEvent, clock.readings(old(clock.readCount))),
                        keyGenerator.rowKeyOf(logEvent, keyGenerator.rowId), renderers)
      ensures lastPartitionKey' == Some(row.partitionKey)
      ensures lastPartitionKey == Some(row.partitionKey) ==>
        table.batches == old(table.batches) && operation' == operation + [row]
      ensures lastPartitionKey != Some(row.partitionKey) ==>
        && table.batches == old(table.batches) + (if operation == [] then [] else [operation])
        && operation' == [row]
    {
      var partitionKey := keyGenerator.GeneratePartitionKey(logEvent, clock);
      operation', lastPartitionKey' := operation, lastPartitionKey;
      if lastPartitionKey' != Some(partitionKey) {
        lastPartitionKey' := Some(partitionKey);
        if |operation'| > 0 {
          table.ExecuteBatch(operation');
          operation' := [];
        }
      }
      var rowKey := keyGenerator.GenerateRowKey(logEvent, None);
      row := new LogEventEntity(logEvent, partitionKey, rowKey, renderers);
      operation' := operation' + [row];
    }

    /** EmitBatchAsync: for each event in turn, a partition key from the
        next clock reading, a row key from the next counter value, and a row
        built from both; the rows go to the table as their maximal runs of
        equal partition key, and nothing is executed for an empty batch. */
    method EmitBatch(events: seq<LogEvent>, clock: Clock) returns (ghost inserted: seq<Entity>)
      modifies table, keyGenerator, clock
      ensures |inserted| == |events|
      ensures Emitted(inserted, events, keyGenerator.partitionKeyOf, clock.readings, old(clock.readCount), keyGenerator.rowKeyOf, old(keyGenerator.rowId), renderers)
      ensures table.batches == old(table.batches) + Runs(inserted)
      ensures keyGenerator.rowId == IdAfter(old(keyGenerator.rowId), |events|)
      ensures clock.readCount == old(clock.readCount) + |events|
    {
      ghost var count0 := clock.readCount;
      ghost var start := keyGenerator.rowId;
      ghost var batches0 := table.batches;
      ghost var flushed: seq<seq<Entity>> := [];
      var operation: seq<Entity> := [];
      var lastPartitionKey: Option<string> := None;
      inserted := [];
      var i := 0;
      while i < |events|
        invariant 0 <= i <= |events|
        invariant Emitted(inserted, events[..i], keyGenerator.partitionKeyOf, clock.readings, count0, keyGenerator.rowKeyOf, start, renderers)
        invariant keyGenerator.rowId == IdAfter(start, i)
        invariant clock.readCount == count0 + i
        invariant table.batches == batches0 + flushed
        invariant Pending(flushed, operation, inserted)
        invariant lastPartitionKey == if i == 0 then None else Some(inserted[i - 1].partitionKey)
      {
        ghost var flushed0, operation0 := flushed, operation;
        ghost var previous := lastPartitionKey;
        var row;
        operation, lastPartitionKey, row := EmitOne(events[i], clock, operation, lastPartitionKey);
        IdAfterStep(start, i);
        EmittedStep(inserted, events, i, row, keyGenerator.partitionKeyOf, clock.readings, count0, keyGenerator.rowKeyOf,
                    start, renderers);
        PendingStep(flushed0, operation0, inserted, row);
        if previous != Some(row.partitionKey) && operation0 != [] {
          flushed := flushed + [operation0];
        }
        inserted := inserted + [row];
        i := i + 1;
      }
      assert events[..i] == events;
      PendingFinish(flushed, operation, inserted);
      if |operation| > 0 {
        table.ExecuteBatch(operation);
      }
    }
  }

  /** An emitted batch, read back from the table: its batches are exactly the
      maximal runs of the inserted rows, whatever grouping is proposed. */
  lemma EmittedBatchesAreMaximalRuns(inserted: seq<Entity>, proposed: seq<seq<Entity>>)
    requires IsRunPartition(proposed, inserted)
    ensures proposed == Runs(inserted)
  {
    RunsArePartition(inserted);
    RunPartitionUnique(proposed, Runs(inserted), inserted);
  }
}
