/** The object table and bucket counters of internal/metadata/sqlite/store.go.  A statement batch
    runs in one transaction, so an operation that does not commit changes nothing. */
module MetadataStore {

  datatype ObjectRow = ObjectRow(size: int, etag: string, version: int, status: string, deleted: bool)

  datatype Bucket = Bucket(objectCount: int, totalSize: int, rows: map<string, ObjectRow>)

  datatype Error = NoError | InvalidArgument | BucketNotFound | StoreFailure

  const EMPTY_BUCKET := Bucket(0, 0, map[])

  // ---------------------------------------------------------------- one bucket, one operation

  function OldSize(b: Bucket, key: string): int {
    if key in b.rows then b.rows[key].size else 0
  }

  function PutRow(b: Bucket, key: string, row: ObjectRow): Bucket {
    var isUpdate := key in b.rows;
    var stored :=
      if isUpdate then row
      else row.(version := if row.version == 0 then 1 else row.version,
                status := if row.status == "" then "replicated" else row.status);
    var countDelta := if !isUpdate && !row.deleted then 1 else 0;
    Bucket(b.objectCount + countDelta, b.totalSize + (row.size - OldSize(b, key)), b.rows[key := stored])
  }

  function BuryRow(b: Bucket, key: string, version: int): Bucket {
    var rows := b.rows[key := ObjectRow(0, "", version, "replicated", true)];
    if key in b.rows && !b.rows[key].deleted
    then Bucket(b.objectCount - 1, b.totalSize - b.rows[key].size, rows)
    else b.(rows := rows)
  }

  function DropRow(b: Bucket, key: string): Bucket {
    if key in b.rows
    then Bucket(b.objectCount - 1, b.totalSize - b.rows[key].size, b.rows - {key})
    else b
  }

  /** The table, with the operations as the code runs them. */
  class Store {
    var buckets: map<string, Bucket>

    constructor ()
      ensures buckets == map[]
    {
      buckets := map[];
    }

    method PutObject(bucket: string, key: string, row: ObjectRow, commits: bool) returns (e: Error)
      modifies this
      ensures e == (if bucket == "" || key == "" then InvalidArgument
                    else if bucket !in old(buckets) then BucketNotFound
                    else if commits then NoError else StoreFailure)
      ensures buckets == if e == NoError then old(buckets)[bucket := PutRow(old(buckets)[bucket], key, row)]
                         else old(buckets)
    {
      if bucket == "" || key == "" {
        return InvalidArgument;
      }
      if bucket !in buckets {
        return BucketNotFound;
      }
      if !commits {
        return StoreFailure;
      }
      var b := buckets[bucket];
      var oldSize, isUpdate := 0, key in b.rows;
      var obj := row;
      if isUpdate {
        oldSize := b.rows[key].size;
      } else {
        if obj.version == 0 {
          obj := obj.(version := 1);
        }
        if obj.status == "" {
          obj := obj.(status := "replicated");
        }
      }
      var sizeDelta, countDelta := obj.size - oldSize, 0;
      if !isUpdate && !obj.deleted {
        countDelta := 1;
      }
      b := Bucket(b.objectCount + countDelta, b.totalSize + sizeDelta, b.rows[key := obj]);
      buckets := buckets[bucket := b];
      return NoError;
    }

    method PutTombstone(bucket: string, key: string, version: int, commits: bool) returns (e: Error)
      modifies this
      ensures e == (if bucket !in old(buckets) then BucketNotFound else if commits then NoError else StoreFailure)
      ensures buckets == if e == NoError then old(buckets)[bucket := BuryRow(old(buckets)[bucket], key, version)]
                         else old(buckets)
    {
      if bucket !in buckets {
        return BucketNotFound;
      }
      if !commits {
        return StoreFailure;
      }
      var b := buckets[bucket];
      var wasLive := key in b.rows && !b.rows[key].deleted;
      var oldSize := if key in b.rows then b.rows[key].size else 0;
      b := b.(rows := b.rows[key := ObjectRow(0, "", version, "replicated", true)]);
      if wasLive {
        b := b.(objectCount := b.objectCount - 1, totalSize := b.totalSize - oldSize);
      }
      buckets := buckets[bucket := b];
      return NoError;
    }

    method DeleteObject(bucket: string, key: string, commits: bool) returns (e: Error)
      modifies this
      ensures e == (if bucket in old(buckets) && key in old(buckets)[bucket].rows && !commits then StoreFailure else NoError)
      ensures buckets == if e == NoError && bucket in old(buckets)
                         then old(buckets)[bucket := DropRow(old(buckets)[bucket], key)] else old(buckets)
    {
      if bucket !in buckets || key !in buckets[bucket].rows {
        return NoError;
      }
      if !commits {
        return StoreFailure;
      }
      var b := buckets[bucket];
      b := Bucket(b.objectCount - 1, b.totalSize - b.rows[key].size, b.rows - {key});
      buckets := buckets[bucket := b];
      return NoError;
    }
  }

  // ---------------------------------------------------------------- what the counters summarise

  ghost function SumSizes(rows: map<string, ObjectRow>): int {
    if rows == map[] then 0
    else var k :| k in rows; rows[k].size + SumSizes(rows - {k})
  }

  ghost function LiveKeys(rows: map<string, ObjectRow>): set<string> {
    set k | k in rows && !rows[k].deleted
  }

  lemma {:induction false} SumWithout(rows: map<string, ObjectRow>, key: string)
    requires key in rows
    ensures SumSizes(rows) == rows[key].size + SumSizes(rows - {key})
    decreases |rows|
  {
    var k :| k in rows && SumSizes(rows) == rows[k].size + SumSizes(rows - {k});
    if k != key {
      assert |rows - {k}| < |rows| by { assert (rows - {k}).Keys == rows.Keys - {k}; }
      assert |rows - {key}| < |rows| by { assert (rows - {key}).Keys == rows.Keys - {key}; }
      SumWithout(rows - {k}, key);
      SumWithout(rows - {key}, k);
      assert rows - {k} - {key} == rows - {key} - {k};
    }
  }

  lemma SumUpdate(rows: map<string, ObjectRow>, key: string, row: ObjectRow)
    ensures SumSizes(rows[key := row]) ==
            SumSizes(rows) + row.size - (if key in rows then rows[key].size else 0)
  {
    SumWithout(rows[key := row], key);
    if key in rows {
      SumWithout(rows, key);
      assert rows[key := row] - {key} == rows - {key};
    } else {
      assert rows[key := row] - {key} == rows;
    }
  }

  lemma LiveUpdate(rows: map<string, ObjectRow>, key: string, row: ObjectRow)
    ensures |LiveKeys(rows[key := row])| ==
            |LiveKeys(rows)| + (if row.deleted then 0 else 1)
            - (if key in rows && !rows[key].deleted then 1 else 0)
  {
    var rest := LiveKeys(rows) - {key};
    if row.deleted {
      assert LiveKeys(rows[key := row]) == rest;
    } else {
      assert LiveKeys(rows[key := row]) == rest + {key};
    }
    if key in rows && !rows[key].deleted {
      assert LiveKeys(rows) == rest + {key};
    } else {
      assert LiveKeys(rows) == rest;
    }
  }

  lemma LiveWithout(rows: map<string, ObjectRow>, key: string)
    requires key in rows
    ensures |LiveKeys(rows - {key})| == |LiveKeys(rows)| - (if rows[key].deleted then 0 else 1)
  {
    assert LiveKeys(rows - {key}) == LiveKeys(rows) - {key};
  }

  // ---------------------------------------------------------------- conservation over every history

  datatype TableOp = RowPut(key: string, row: ObjectRow) | RowBuried(key: string, version: int) | RowDropped(key: string)

  function Apply(b: Bucket, op: TableOp): Bucket {
    match op
    case RowPut(key, row) => PutRow(b, key, row)
    case RowBuried(key, version) => BuryRow(b, key, version)
    case RowDropped(key) => DropRow(b, key)
  }

  /** The bucket after the operations in order. */
  function ApplyAll(ops: seq<TableOp>): Bucket {
    if ops == [] then EMPTY_BUCKET else Apply(ApplyAll(ops[..|ops| - 1]), ops[|ops| - 1])
  }

  /** What an operation leaves in the table: only its own row changes; a put stores the row it is given,
      a new row never with version 0 or without a status; a tombstone is an empty deleted row. */
  lemma ApplyRows(b: Bucket, op: TableOp, k: string)
    ensures k != op.key ==> (k in Apply(b, op).rows <==> k in b.rows)
    ensures k != op.key && k in b.rows ==> Apply(b, op).rows[k] == b.rows[k]
    ensures op.RowPut? ==>
              && op.key in Apply(b, op).rows
              && var row := Apply(b, op).rows[op.key];
                 && row.size == op.row.size && row.etag == op.row.etag && row.deleted == op.row.deleted
                 && (op.row.version != 0 || op.key in b.rows ==> row.version == op.row.version)
                 && (op.row.status != "" || op.key in b.rows ==> row.status == op.row.status)
                 && (op.key !in b.rows && op.row.version == 0 ==> row.version == 1)
                 && (op.key !in b.rows && op.row.status == "" ==> row.status == "replicated")
    ensures op.RowBuried? ==>
              op.key in Apply(b, op).rows && Apply(b, op).rows[op.key] == ObjectRow(0, "", op.version, "replicated", true)
    ensures op.RowDropped? ==> op.key !in Apply(b, op).rows
  {
  }

  predicate HoldsTombstone(b: Bucket, key: string) {
    key in b.rows && b.rows[key].deleted
  }

  predicate HoldsLive(b: Bucket, key: string) {
    key in b.rows && !b.rows[key].deleted
  }

  /** How many operations of a history meet a condition on the bucket they act on. */
  function CountWhen(ops: seq<TableOp>, when: (Bucket, TableOp) -> bool): nat {
    if ops == [] then 0
    else
      var before := ops[..|ops| - 1];
      CountWhen(before, when) + if when(ApplyAll(before), ops[|ops| - 1]) then 1 else 0
  }

  predicate PutOnTombstone(b: Bucket, op: TableOp) {
    op.RowPut? && !op.row.deleted && HoldsTombstone(b, op.key)
  }

  predicate TombstoneDropped(b: Bucket, op: TableOp) {
    op.RowDropped? && HoldsTombstone(b, op.key)
  }

  /** A row put already marked deleted; no caller does this. */
  predicate DeletedPutOnLive(b: Bucket, op: TableOp) {
    op.RowPut? && op.row.deleted && HoldsLive(b, op.key)
  }

  /** One operation moves the counter with the live rows, except in the three listed cases. */
  lemma ApplyCounts(b: Bucket, op: TableOp)
    ensures var b' := Apply(b, op);
            b'.objectCount - b.objectCount ==
              |LiveKeys(b'.rows)| - |LiveKeys(b.rows)|
              - (if PutOnTombstone(b, op) then 1 else 0)
              - (if TombstoneDropped(b, op) then 1 else 0)
              + (if DeletedPutOnLive(b, op) then 1 else 0)
  {
    match op
    case RowPut(key, row) => LiveUpdate(b.rows, key, Apply(b, op).rows[key]);
    case RowBuried(key, version) => LiveUpdate(b.rows, key, Apply(b, op).rows[key]);
    case RowDropped(key) => if key in b.rows { LiveWithout(b.rows, key); }
  }

  /** Conservation of object_count, for every sequence of operations. */
  lemma {:induction false} ObjectCountConserved(ops: seq<TableOp>)
    ensures var b := ApplyAll(ops);
            b.objectCount == |LiveKeys(b.rows)|
              - CountWhen(ops, PutOnTombstone) - CountWhen(ops, TombstoneDropped) + CountWhen(ops, DeletedPutOnLive)
  {
    if ops == [] {
      assert LiveKeys(map[]) == {};
    } else {
      var before := ops[..|ops| - 1];
      ObjectCountConserved(before);
      ApplyCounts(ApplyAll(before), ops[|ops| - 1]);
    }
  }

  /** The sizes that burying already deleted rows leaves in total_size. */
  function SizeLeftBehind(ops: seq<TableOp>): int {
    if ops == [] then 0
    else
      var before, op := ops[..|ops| - 1], ops[|ops| - 1];
      var b := ApplyAll(before);
      SizeLeftBehind(before) + if op.RowBuried? && HoldsTombstone(b, op.key) then b.rows[op.key].size else 0
  }

  /** Conservation of total_size, for every sequence of operations. */
  lemma {:induction false} TotalSizeConserved(ops: seq<TableOp>)
    ensures var b := ApplyAll(ops); b.totalSize == SumSizes(b.rows) + SizeLeftBehind(ops)
  {
    if ops != [] {
      var before, op := ops[..|ops| - 1], ops[|ops| - 1];
      TotalSizeConserved(before);
      var b := ApplyAll(before);
      match op
      case RowPut(key, row) => SumUpdate(b.rows, key, Apply(b, op).rows[key]);
      case RowBuried(key, version) => SumUpdate(b.rows, key, Apply(b, op).rows[key]);
      case RowDropped(key) => if key in b.rows { SumWithout(b.rows, key); }
    }
  }

  ghost predicate TombstonesEmpty(b: Bucket) {
    forall k | k in b.rows && b.rows[k].deleted :: b.rows[k].size == 0
  }

  /** For the operations callers issue, total_size is the sum of the row sizes. */
  lemma {:induction false} TotalSizeExact(ops: seq<TableOp>)
    requires forall op | op in ops && op.RowPut? :: !op.row.deleted
    ensures var b := ApplyAll(ops); b.totalSize == SumSizes(b.rows) && TombstonesEmpty(b) && SizeLeftBehind(ops) == 0
  {
    TotalSizeConserved(ops);
    if ops != [] {
      var before := ops[..|ops| - 1];
      assert ops[|ops| - 1] in ops && forall x | x in before :: x in ops;
      TotalSizeExact(before);
    }
  }

  /** For the operations callers issue, the counter is the number of live rows exactly when no put
      has landed on a tombstone and no tombstone row has been deleted. */
  lemma CounterExactIff(ops: seq<TableOp>)
    requires forall op | op in ops && op.RowPut? :: !op.row.deleted
    ensures var b := ApplyAll(ops);
            b.objectCount == |LiveKeys(b.rows)| <==>
            CountWhen(ops, PutOnTombstone) == 0 && CountWhen(ops, TombstoneDropped) == 0
  {
    ObjectCountConserved(ops);
    NeverCounted(ops);
  }

  lemma {:induction false} NeverCounted(ops: seq<TableOp>)
    requires forall op | op in ops && op.RowPut? :: !op.row.deleted
    ensures CountWhen(ops, DeletedPutOnLive) == 0
  {
    if ops != [] {
      var before := ops[..|ops| - 1];
      assert ops[|ops| - 1] in ops && forall x | x in before :: x in ops;
      NeverCounted(before);
    }
  }

  /** A live key that is deleted and written again is live as before but counted once less. */
  lemma RewrittenKeyLosesItsCount(b: Bucket, key: string, version: int, row: ObjectRow)
    requires HoldsLive(b, key) && !row.deleted
    ensures var b' := Apply(Apply(b, RowBuried(key, version)), RowPut(key, row));
            && LiveKeys(b'.rows) == LiveKeys(b.rows)
            && b'.objectCount == b.objectCount - 1
            && b'.totalSize == b.totalSize - b.rows[key].size + row.size
  {
  }
}
