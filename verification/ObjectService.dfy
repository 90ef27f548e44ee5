/** The object service of one node (internal/object/service.go) over its metadata table and its
    blob files (internal/storage/filesystem/storage.go): each operation changes the blob first
    and the row second, and undoes the blob when a later call fails. */
module ObjectService {
  import opened Basics
  import opened Validation
  import opened MetadataStore
  import Replica

  /** What reading the request body yields. */
  datatype Upload = Received(bytes: Bytes) | TooLarge | Broken

  /** Which calls of an operation fail. */
  datatype Faults = Faults(lookup: bool, disk: bool, blob: bool, hasher: bool, row: bool, cleanup: bool)

  datatype Outcome =
    | Done
    | InvalidKey
    | NoSuchBucket
    | EntityTooLarge
    | StaleWrite
    | VersionConflict
    | ChecksumMismatch
    | Failed

  datatype Node = Node(buckets: map<string, Bucket>, blobs: map<Address, Bytes>)

  datatype Op =
    | Put(bucket: string, key: string, upload: Upload, version: int, status: string, faults: Faults)
    | PutReplica(bucket: string, key: string, version: int, expected: string, upload: Upload, faults: Faults)
    | Bury(bucket: string, key: string, version: int, faults: Faults)
    | BuryReplica(bucket: string, key: string, version: int, faults: Faults)
    | Delete(bucket: string, key: string, faults: Faults)

  // ---------------------------------------------------------------- specification

  predicate HasRow(n: Node, bucket: string, key: string) {
    bucket in n.buckets && key in n.buckets[bucket].rows
  }

  function RowAt(n: Node, bucket: string, key: string): ObjectRow
    requires HasRow(n, bucket, key)
  {
    n.buckets[bucket].rows[key]
  }

  predicate HasLiveRow(n: Node, bucket: string, key: string) {
    HasRow(n, bucket, key) && !RowAt(n, bucket, key).deleted
  }

  function Unlink(n: Node, a: Address, fails: bool): Node {
    if fails then n else n.(blobs := n.blobs - {a})
  }

  /** The end of both puts: rename the blob into place, check it, commit the row. */
  function Store(md5: Bytes -> string, n: Node, bucket: string, key: string, bytes: Bytes, expected: string,
                 version: int, status: string, f: Faults): (Node, Outcome)
    requires bucket in n.buckets
  {
    var a := BlobAddress(bucket, key);
    var written := n.(blobs := n.blobs[a := bytes]);
    if f.hasher then (Unlink(written, a, f.cleanup), Failed)
    else if md5(bytes) != expected then (Unlink(written, a, f.cleanup), ChecksumMismatch)
    else if f.row || bucket == "" then (Unlink(written, a, f.cleanup), Failed)
    else
      var row := ObjectRow(|bytes|, md5(bytes), version, status, false);
      (written.(buckets := n.buckets[bucket := PutRow(n.buckets[bucket], key, row)]), Done)
  }

  function UploadFailure(u: Upload): Outcome
    requires !u.Received?
  {
    if u.TooLarge? then EntityTooLarge else Failed
  }

  function DoPut(md5: Bytes -> string, n: Node, op: Op): (Node, Outcome)
    requires op.Put?
  {
    if !ValidKey(op.key) then (n, InvalidKey)
    else if op.bucket !in n.buckets then (n, NoSuchBucket)
    else if op.faults.disk then (n, EntityTooLarge)
    else if op.faults.blob then (n, Failed)
    else match op.upload
      case Received(bytes) =>
        Store(md5, n, op.bucket, op.key, bytes, md5(bytes), op.version, op.status, op.faults)
      case _ => (n, UploadFailure(op.upload))
  }

  function DoPutReplica(md5: Bytes -> string, n: Node, op: Op): (Node, Outcome)
    requires op.PutReplica?
  {
    if !ValidKey(op.key) then (n, InvalidKey)
    else if op.bucket !in n.buckets then (n, NoSuchBucket)
    else if op.faults.lookup then (n, Failed)
    else if HasRow(n, op.bucket, op.key) && op.version < RowAt(n, op.bucket, op.key).version then (n, StaleWrite)
    else if HasRow(n, op.bucket, op.key) && op.version == RowAt(n, op.bucket, op.key).version then
      var row := RowAt(n, op.bucket, op.key);
      (n, if row.deleted then StaleWrite else if row.etag == op.expected then Done else VersionConflict)
    else if op.faults.blob || !op.upload.Received? then (n, Failed)
    else Store(md5, n, op.bucket, op.key, op.upload.bytes, op.expected, op.version, "replicated", op.faults)
  }

  /** The end of both tombstones: drop the live blob, then record the marker. */
  function Entomb(n: Node, bucket: string, key: string, version: int, f: Faults): (Node, Outcome) {
    var n' := if HasLiveRow(n, bucket, key) then Unlink(n, BlobAddress(bucket, key), f.cleanup) else n;
    if bucket !in n.buckets then (n', NoSuchBucket)
    else if f.row then (n', Failed)
    else (n'.(buckets := n.buckets[bucket := BuryRow(n.buckets[bucket], key, version)]), Done)
  }

  function DoBury(n: Node, op: Op): (Node, Outcome)
    requires op.Bury?
  {
    if op.bucket !in n.buckets then (n, Done)
    else if op.faults.lookup then (n, Failed)
    else Entomb(n, op.bucket, op.key, op.version, op.faults)
  }

  function DoBuryReplica(n: Node, op: Op): (Node, Outcome)
    requires op.BuryReplica?
  {
    if op.faults.lookup then (n, Failed)
    else if HasRow(n, op.bucket, op.key) && op.version < RowAt(n, op.bucket, op.key).version then (n, StaleWrite)
    else if HasRow(n, op.bucket, op.key) && op.version == RowAt(n, op.bucket, op.key).version then
      (n, if RowAt(n, op.bucket, op.key).deleted then Done else VersionConflict)
    else Entomb(n, op.bucket, op.key, op.version, op.faults)
  }

  function DoDelete(n: Node, op: Op): (Node, Outcome)
    requires op.Delete?
  {
    if op.faults.lookup then (n, Failed)
    else if !HasRow(n, op.bucket, op.key) then (n, Done)
    else if op.faults.row then (n, Failed)
    else
      var n' := n.(buckets := n.buckets[op.bucket := DropRow(n.buckets[op.bucket], op.key)]);
      (Unlink(n', BlobAddress(op.bucket, op.key), op.faults.cleanup), if op.faults.cleanup then Failed else Done)
  }

  function Exec(md5: Bytes -> string, n: Node, op: Op): (Node, Outcome) {
    match op
    case Put(_, _, _, _, _, _) => DoPut(md5, n, op)
    case PutReplica(_, _, _, _, _, _) => DoPutReplica(md5, n, op)
    case Bury(_, _, _, _) => DoBury(n, op)
    case BuryReplica(_, _, _, _) => DoBuryReplica(n, op)
    case Delete(_, _, _) => DoDelete(n, op)
  }

  function ExecAll(md5: Bytes -> string, n: Node, ops: seq<Op>): Node {
    if ops == [] then n else Exec(md5, ExecAll(md5, n, ops[..|ops| - 1]), ops[|ops| - 1]).0
  }

  // ---------------------------------------------------------------- the service

  class Service {
    const md5: Bytes -> string
    const store: MetadataStore.Store
    var blobs: map<Address, Bytes>

    ghost function Model(): Node
      reads this, store
    {
      Node(store.buckets, blobs)
    }

    constructor (md5: Bytes -> string, store: MetadataStore.Store)
      ensures this.md5 == md5 && this.store == store && blobs == map[]
    {
      this.md5, this.store, blobs := md5, store, map[];
    }

    method RemoveBlob(a: Address, fails: bool)
      modifies this
      ensures blobs == if fails then old(blobs) else old(blobs) - {a}
    {
      if !fails {
        blobs := blobs - {a};
      }
    }

    /** A write by the primary at a version it has assigned. */
    method PutObjectWithVersion(bucket: string, key: string, upload: Upload, version: int, status: string, f: Faults)
      returns (out: Outcome)
      modifies this, store
      ensures (Model(), out) == Exec(md5, old(Model()), Put(bucket, key, upload, version, status, f))
    {
      if !ValidKey(key) {
        return InvalidKey;
      }
      if bucket !in store.buckets {
        return NoSuchBucket;
      }
      if f.disk {
        return EntityTooLarge;
      }
      if f.blob {
        return Failed;
      }
      if !upload.Received? {
        return UploadFailure(upload);
      }
      var a := BlobAddress(bucket, key);
      blobs := blobs[a := upload.bytes];
      if f.hasher {
        RemoveBlob(a, f.cleanup);
        return Failed;
      }
      var etag := md5(upload.bytes);
      var e := store.PutObject(bucket, key, ObjectRow(|upload.bytes|, etag, version, status, false), !f.row);
      if e != NoError {
        RemoveBlob(a, f.cleanup);
        return Failed;
      }
      return Done;
    }

    /** A replicate-put: version guards, checksum, blob, row. */
    method PutReplica(bucket: string, key: string, version: int, expected: string, upload: Upload, f: Faults)
      returns (out: Outcome)
      modifies this, store
      ensures (Model(), out) == Exec(md5, old(Model()), Op.PutReplica(bucket, key, version, expected, upload, f))
    {
      if !ValidKey(key) {
        return InvalidKey;
      }
      if bucket !in store.buckets {
        return NoSuchBucket;
      }
      if f.lookup {
        return Failed;
      }
      if key in store.buckets[bucket].rows {
        var existing := store.buckets[bucket].rows[key];
        if version < existing.version {
          return StaleWrite;
        }
        if version == existing.version {
          if existing.deleted {
            return StaleWrite;
          }
          if existing.etag == expected {
            return Done;
          }
          return VersionConflict;
        }
      }
      if f.blob || !upload.Received? {
        return Failed;
      }
      var a := BlobAddress(bucket, key);
      blobs := blobs[a := upload.bytes];
      if f.hasher {
        RemoveBlob(a, f.cleanup);
        return Failed;
      }
      var etag := md5(upload.bytes);
      if etag != expected {
        RemoveBlob(a, f.cleanup);
        return ChecksumMismatch;
      }
      var e := store.PutObject(bucket, key, ObjectRow(|upload.bytes|, etag, version, "replicated", false), !f.row);
      if e != NoError {
        RemoveBlob(a, f.cleanup);
        return Failed;
      }
      return Done;
    }

    method Bury(bucket: string, key: string, version: int, f: Faults) returns (out: Outcome)
      modifies this, store
      ensures (Model(), out) == Entomb(old(Model()), bucket, key, version, f)
    {
      if bucket in store.buckets && key in store.buckets[bucket].rows && !store.buckets[bucket].rows[key].deleted {
        RemoveBlob(BlobAddress(bucket, key), f.cleanup);
      }
      var e := store.PutTombstone(bucket, key, version, !f.row);
      return if e == NoError then Done else if e == BucketNotFound then NoSuchBucket else Failed;
    }

    /** A delete by the primary at a version it has assigned. */
    method PutTombstone(bucket: string, key: string, version: int, f: Faults) returns (out: Outcome)
      modifies this, store
      ensures (Model(), out) == Exec(md5, old(Model()), Op.Bury(bucket, key, version, f))
    {
      if bucket !in store.buckets {
        return Done;
      }
      if f.lookup {
        return Failed;
      }
      out := Bury(bucket, key, version, f);
    }

    /** A replicate-delete. */
    method PutTombstoneReplica(bucket: string, key: string, version: int, f: Faults) returns (out: Outcome)
      modifies this, store
      ensures (Model(), out) == Exec(md5, old(Model()), BuryReplica(bucket, key, version, f))
    {
      if f.lookup {
        return Failed;
      }
      if bucket in store.buckets && key in store.buckets[bucket].rows {
        var existing := store.buckets[bucket].rows[key];
        if version < existing.version {
          return StaleWrite;
        }
        if version == existing.version && existing.deleted {
          return Done;
        }
        if version == existing.version && !existing.deleted {
          return VersionConflict;
        }
      }
      out := Bury(bucket, key, version, f);
    }

    /** The unreplicated delete: the row first, then the blob. */
    method DeleteObject(bucket: string, key: string, f: Faults) returns (out: Outcome)
      modifies this, store
      ensures (Model(), out) == Exec(md5, old(Model()), Delete(bucket, key, f))
    {
      if f.lookup {
        return Failed;
      }
      if bucket !in store.buckets || key !in store.buckets[bucket].rows {
        return Done;
      }
      var e := store.DeleteObject(bucket, key, !f.row);
      if e != NoError {
        return Failed;
      }
      RemoveBlob(BlobAddress(bucket, key), f.cleanup);
      return if f.cleanup then Failed else Done;
    }
  }

  // ---------------------------------------------------------------- one replica of the protocol

  /** The row as the replication protocol sees it. */
  ghost function RowView(n: Node, bucket: string, key: string): Replica.Row
    requires HasRow(n, bucket, key) ==> RowAt(n, bucket, key).version >= 0
  {
    if !HasRow(n, bucket, key) then Replica.Absent
    else
      var row := RowAt(n, bucket, key);
      Replica.Row(row.version, if row.deleted then Replica.Tombstone else Replica.Live(row.etag))
  }

  function ReplyOf(out: Outcome): Replica.Reply {
    match out
    case Done => Replica.Ok
    case StaleWrite => Replica.Stale
    case VersionConflict => Replica.Conflict
    case _ => Replica.Failed
  }

  /** A replicate-put on a node that has the bucket is the protocol's replica step, accepted when
      the bytes match their checksum and no call fails. */
  lemma PutReplicaIsHandle(md5: Bytes -> string, n: Node, op: Op)
    requires op.PutReplica? && ValidKey(op.key) && op.bucket in n.buckets && op.bucket != ""
    requires op.version >= 1 && (HasRow(n, op.bucket, op.key) ==> RowAt(n, op.bucket, op.key).version >= 0)
    requires !op.faults.lookup
    ensures var (n', out) := Exec(md5, n, op);
            var accepted := op.upload.Received? && md5(op.upload.bytes) == op.expected
                            && !op.faults.blob && !op.faults.hasher && !op.faults.row;
            && (HasRow(n', op.bucket, op.key) ==> RowAt(n', op.bucket, op.key).version >= 0)
            && (RowView(n', op.bucket, op.key), ReplyOf(out)) ==
               Replica.Handle(RowView(n, op.bucket, op.key), Replica.Message(op.version, Replica.Live(op.expected)), accepted)
  {
  }

  /** Likewise for a replicate-delete. */
  lemma BuryReplicaIsHandle(md5: Bytes -> string, n: Node, op: Op)
    requires op.BuryReplica? && op.bucket in n.buckets
    requires op.version >= 1 && (HasRow(n, op.bucket, op.key) ==> RowAt(n, op.bucket, op.key).version >= 0)
    requires !op.faults.lookup
    ensures var (n', out) := Exec(md5, n, op);
            && (HasRow(n', op.bucket, op.key) ==> RowAt(n', op.bucket, op.key).version >= 0)
            && (RowView(n', op.bucket, op.key), ReplyOf(out)) ==
               Replica.Handle(RowView(n, op.bucket, op.key), Replica.Message(op.version, Replica.Tombstone), !op.faults.row)
  {
  }

  // ---------------------------------------------------------------- what an operation stores

  /** A put that nothing hinders leaves the bytes at the key's address and a live row of exactly that
      size, digest, version and status: the row the primary's write step writes. */
  lemma PutIsWrite(md5: Bytes -> string, n: Node, op: Op)
    requires op.Put? && ValidKey(op.key) && op.bucket in n.buckets && op.bucket != "" && op.upload.Received?
    requires op.version >= 1 && op.status != "" && !op.faults.disk && !op.faults.blob && !op.faults.hasher && !op.faults.row
    ensures var (n', out) := Exec(md5, n, op);
            var bytes := op.upload.bytes;
            && out == Done && HasRow(n', op.bucket, op.key)
            && RowAt(n', op.bucket, op.key) == ObjectRow(|bytes|, md5(bytes), op.version, op.status, false)
            && RowView(n', op.bucket, op.key) == Replica.Row(op.version, Replica.Live(md5(bytes)))
            && n'.blobs == n.blobs[BlobAddress(op.bucket, op.key) := bytes]
  {
  }

  /** A newer replica put whose bytes match their checksum leaves a replicated row of its own version. */
  lemma PutReplicaStores(md5: Bytes -> string, n: Node, op: Op)
    requires op.PutReplica? && ValidKey(op.key) && op.bucket in n.buckets && op.bucket != "" && op.upload.Received?
    requires op.version >= 1 && !op.faults.lookup && !op.faults.blob && !op.faults.hasher && !op.faults.row
    requires md5(op.upload.bytes) == op.expected
    requires HasRow(n, op.bucket, op.key) ==> op.version > RowAt(n, op.bucket, op.key).version
    ensures var (n', out) := Exec(md5, n, op);
            var bytes := op.upload.bytes;
            && out == Done && HasRow(n', op.bucket, op.key)
            && RowAt(n', op.bucket, op.key) == ObjectRow(|bytes|, op.expected, op.version, "replicated", false)
            && n'.blobs == n.blobs[BlobAddress(op.bucket, op.key) := bytes]
  {
  }

  /** A tombstone that nothing hinders replaces the row by an empty marker of its version and removes
      the bytes of a live one. */
  lemma BuryIsWrite(md5: Bytes -> string, n: Node, op: Op)
    requires (op.Bury? || op.BuryReplica?) && op.bucket in n.buckets && op.version >= 0
    requires !op.faults.lookup && !op.faults.row && !op.faults.cleanup
    requires op.BuryReplica? && HasRow(n, op.bucket, op.key) ==> op.version > RowAt(n, op.bucket, op.key).version
    ensures var (n', out) := Exec(md5, n, op);
            && out == Done && HasRow(n', op.bucket, op.key)
            && RowAt(n', op.bucket, op.key) == ObjectRow(0, "", op.version, "replicated", true)
            && RowView(n', op.bucket, op.key) == Replica.Row(op.version, Replica.Tombstone)
            && n'.blobs == if HasLiveRow(n, op.bucket, op.key) then n.blobs - {BlobAddress(op.bucket, op.key)} else n.blobs
  {
  }

  /** A delete that nothing hinders leaves neither row nor bytes. */
  lemma DeleteIsGone(md5: Bytes -> string, n: Node, op: Op)
    requires op.Delete? && !op.faults.lookup && !op.faults.row && !op.faults.cleanup
    ensures var (n', out) := Exec(md5, n, op);
            && out == Done && !HasRow(n', op.bucket, op.key)
            && n'.blobs == if HasRow(n, op.bucket, op.key) then n.blobs - {BlobAddress(op.bucket, op.key)} else n.blobs
  {
  }

  /** What the answer to a put means: done, that its row is committed; too large, that there was no room
      or the limit was passed; mismatch, that a replica got other bytes than announced. */
  lemma PutOutcomeMeans(md5: Bytes -> string, n: Node, op: Op)
    requires (op.Put? || op.PutReplica?) && PassesChecks(n, op) && op.bucket != "" && op.version >= 1
    requires op.PutReplica? ==> !op.faults.lookup
    ensures var (n', out) := Exec(md5, n, op);
            var f := op.faults;
            && (out == Done <==> op.upload.Received? && !(op.Put? && f.disk) && !f.blob && !f.hasher && !f.row
                                 && (op.PutReplica? ==> md5(op.upload.bytes) == op.expected))
            && (out == Done ==> HasLiveRow(n', op.bucket, op.key) && RowAt(n', op.bucket, op.key).version == op.version)
            && (out != Done ==> n'.buckets == n.buckets)
            && (out == EntityTooLarge <==> op.Put? && (f.disk || (!f.blob && op.upload == TooLarge)))
            && (out == ChecksumMismatch <==> op.PutReplica? && WritesBlob(n, op) && !f.hasher && md5(op.upload.bytes) != op.expected)
  {
  }

  /** The operation gets past its own checks. */
  predicate PassesChecks(n: Node, op: Op) {
    match op
    case Put(_, _, _, _, _, _) => ValidKey(op.key) && op.bucket in n.buckets
    case PutReplica(_, _, _, _, _, _) =>
      && ValidKey(op.key) && op.bucket in n.buckets
      && (HasRow(n, op.bucket, op.key) ==> op.version > RowAt(n, op.bucket, op.key).version)
    case BuryReplica(_, _, _, _) =>
      && op.bucket in n.buckets
      && (HasRow(n, op.bucket, op.key) ==> op.version > RowAt(n, op.bucket, op.key).version)
    case Bury(_, _, _, _) => op.bucket in n.buckets
    case Delete(_, _, _) => HasRow(n, op.bucket, op.key)
  }

  /** An operation refused by its checks changes nothing. */
  lemma RefusedChangesNothing(md5: Bytes -> string, n: Node, op: Op)
    requires !PassesChecks(n, op)
    ensures Exec(md5, n, op).0 == n
    ensures (op.Put? || op.PutReplica?) && !ValidKey(op.key) ==> Exec(md5, n, op).1 == InvalidKey
    ensures (op.Put? || op.PutReplica?) && ValidKey(op.key) && op.bucket !in n.buckets ==> Exec(md5, n, op).1 == NoSuchBucket
  {
  }

  // ---------------------------------------------------------------- never wrong bytes

  /** A live row's blob is absent or hashes to the row's ETag. */
  ghost predicate RowSound(md5: Bytes -> string, n: Node, bucket: string, key: string) {
    var a := BlobAddress(bucket, key);
    HasLiveRow(n, bucket, key) && a in n.blobs ==> md5(n.blobs[a]) == RowAt(n, bucket, key).etag
  }

  ghost predicate Sound(md5: Bytes -> string, n: Node) {
    forall bucket, key :: RowSound(md5, n, bucket, key)
  }

  /** All rows belong to keys of `keys`. */
  ghost predicate Within(n: Node, keys: set<(string, string)>) {
    forall bucket, key | HasRow(n, bucket, key) :: (bucket, key) in keys
  }

  /** The put passes its guards and renames its bytes into place. */
  predicate WritesBlob(n: Node, op: Op) {
    && (op.Put? || op.PutReplica?)
    && ValidKey(op.key) && op.bucket in n.buckets
    && !op.faults.blob && op.upload.Received?
    && (op.Put? ==> !op.faults.disk)
    && (op.PutReplica? ==> !op.faults.lookup)
    && (op.PutReplica? && HasRow(n, op.bucket, op.key) ==> op.version > RowAt(n, op.bucket, op.key).version)
  }

  /** The put renames its bytes into place and then does not commit its row. */
  predicate FailsAfterRename(md5: Bytes -> string, n: Node, op: Op) {
    && WritesBlob(n, op)
    && (op.faults.hasher || op.faults.row || op.bucket == "" || (op.PutReplica? && md5(op.upload.bytes) != op.expected))
  }

  /** Nor does it then remove the bytes. */
  predicate LeavesBytes(md5: Bytes -> string, n: Node, op: Op) {
    FailsAfterRename(md5, n, op) && op.faults.cleanup
  }

  /** The bytes left behind are not those the still live row names. */
  predicate Spoils(md5: Bytes -> string, n: Node, op: Op) {
    LeavesBytes(md5, n, op) && HasLiveRow(n, op.bucket, op.key) && md5(op.upload.bytes) != RowAt(n, op.bucket, op.key).etag
  }

  /** Only the row of the operation's own key changes, and only the blob at its address. */
  lemma ExecFrame(md5: Bytes -> string, n: Node, op: Op, bucket: string, key: string)
    requires (bucket, key) != (op.bucket, op.key)
    ensures var n' := Exec(md5, n, op).0;
            && HasRow(n', bucket, key) == HasRow(n, bucket, key)
            && (HasRow(n, bucket, key) ==> RowAt(n', bucket, key) == RowAt(n, bucket, key))
  {
  }

  lemma BlobFrame(md5: Bytes -> string, n: Node, op: Op, a: Address)
    requires a != BlobAddress(op.bucket, op.key)
    ensures var n' := Exec(md5, n, op).0;
            (a in n'.blobs <==> a in n.blobs) && (a in n.blobs ==> n'.blobs[a] == n.blobs[a])
  {
  }

  /** The operation keeps its own row sound exactly when it does not leave behind bytes that the
      still live row does not name. */
  lemma OwnRowSoundIff(md5: Bytes -> string, n: Node, op: Op)
    requires RowSound(md5, n, op.bucket, op.key)
    ensures RowSound(md5, Exec(md5, n, op).0, op.bucket, op.key) <==>
            !Spoils(md5, n, op)
  {
  }

  /** With no two keys sharing a blob, one operation keeps every row sound under the same condition. */
  lemma StepSoundIff(md5: Bytes -> string, n: Node, op: Op, keys: set<(string, string)>)
    requires Sound(md5, n) && Within(n, keys) && (op.bucket, op.key) in keys && NoAliases(keys)
    ensures Within(Exec(md5, n, op).0, keys)
    ensures Sound(md5, Exec(md5, n, op).0) <==>
            !Spoils(md5, n, op)
  {
    var n' := Exec(md5, n, op).0;
    forall bucket, key
      ensures HasRow(n', bucket, key) ==> (bucket, key) in keys
      ensures (bucket, key) != (op.bucket, op.key) ==> RowSound(md5, n', bucket, key)
    {
      assert RowSound(md5, n, bucket, key);
      if (bucket, key) != (op.bucket, op.key) {
        ExecFrame(md5, n, op, bucket, key);
        if HasRow(n, bucket, key) {
          var x, y := (bucket, key), (op.bucket, op.key);
          assert BlobAddress(x.0, x.1) != BlobAddress(y.0, y.1);
          BlobFrame(md5, n, op, BlobAddress(bucket, key));
        }
      }
    }
    assert RowSound(md5, n, op.bucket, op.key);
    OwnRowSoundIff(md5, n, op);
  }

  ghost predicate OnKeys(ops: seq<Op>, keys: set<(string, string)>) {
    forall op | op in ops :: (op.bucket, op.key) in keys
  }

  /** No live row names bytes it does not hold, at any moment of the history. */
  ghost predicate SoundThroughout(md5: Bytes -> string, n: Node, ops: seq<Op>) {
    forall i | 0 <= i <= |ops| :: Sound(md5, ExecAll(md5, n, ops[..i]))
  }

  /** No operation of the history spoils its own row. */
  ghost predicate NoneSpoils(md5: Bytes -> string, n: Node, ops: seq<Op>) {
    forall i | 0 <= i < |ops| :: !Spoils(md5, ExecAll(md5, n, ops[..i]), ops[i])
  }

  lemma ExecNone(md5: Bytes -> string, n: Node, ops: seq<Op>)
    requires ops == []
    ensures ExecAll(md5, n, ops) == n
  {
  }

  lemma ExecAllAt(md5: Bytes -> string, n: Node, ops: seq<Op>, i: nat)
    requires i < |ops|
    ensures ExecAll(md5, n, ops[..i + 1]) == Exec(md5, ExecAll(md5, n, ops[..i]), ops[i]).0
  {
    assert ops[..i + 1][..i] == ops[..i];
  }

  lemma {:induction false} RunWithin(md5: Bytes -> string, n: Node, ops: seq<Op>, keys: set<(string, string)>)
    requires Within(n, keys) && OnKeys(ops, keys)
    ensures Within(ExecAll(md5, n, ops), keys)
  {
    if ops != [] {
      var before, op := ops[..|ops| - 1], ops[|ops| - 1];
      assert op in ops && forall x | x in before :: x in ops;
      RunWithin(md5, n, before, keys);
      StepWithin(md5, ExecAll(md5, n, before), op, keys);
    }
  }

  lemma StepWithin(md5: Bytes -> string, n: Node, op: Op, keys: set<(string, string)>)
    requires Within(n, keys) && (op.bucket, op.key) in keys
    ensures Within(Exec(md5, n, op).0, keys)
  {
    forall bucket, key | HasRow(Exec(md5, n, op).0, bucket, key)
      ensures (bucket, key) in keys
    {
      if (bucket, key) != (op.bucket, op.key) {
        ExecFrame(md5, n, op, bucket, key);
      }
    }
  }

  lemma SoundEnd(md5: Bytes -> string, n: Node, ops: seq<Op>)
    requires SoundThroughout(md5, n, ops)
    ensures Sound(md5, ExecAll(md5, n, ops))
  {
    assert ops[..|ops|] == ops;
  }

  lemma WithinAt(md5: Bytes -> string, n: Node, ops: seq<Op>, keys: set<(string, string)>, i: nat)
    requires Within(n, keys) && OnKeys(ops, keys) && i < |ops|
    ensures Within(ExecAll(md5, n, ops[..i]), keys) && (ops[i].bucket, ops[i].key) in keys
  {
    assert ops[i] in ops && forall x | x in ops[..i] :: x in ops;
    RunWithin(md5, n, ops[..i], keys);
  }

  /** One operation of a history that was sound before it. */
  lemma SoundAtIff(md5: Bytes -> string, n: Node, ops: seq<Op>, keys: set<(string, string)>, i: nat)
    requires Within(n, keys) && NoAliases(keys) && OnKeys(ops, keys) && i < |ops|
    requires Sound(md5, ExecAll(md5, n, ops[..i]))
    ensures Sound(md5, ExecAll(md5, n, ops[..i + 1])) <==> !Spoils(md5, ExecAll(md5, n, ops[..i]), ops[i])
  {
    WithinAt(md5, n, ops, keys, i);
    ExecAllAt(md5, n, ops, i);
    StepSoundIff(md5, ExecAll(md5, n, ops[..i]), ops[i], keys);
  }

  lemma {:induction false} SoundUpTo(md5: Bytes -> string, n: Node, ops: seq<Op>, keys: set<(string, string)>, i: nat)
    requires Sound(md5, n) && Within(n, keys) && NoAliases(keys) && OnKeys(ops, keys) && i <= |ops|
    requires NoneSpoils(md5, n, ops)
    ensures Sound(md5, ExecAll(md5, n, ops[..i]))
  {
    if i > 0 {
      SoundUpTo(md5, n, ops, keys, i - 1);
      SoundAtIff(md5, n, ops, keys, i - 1);
    } else {
      ExecNone(md5, n, ops[..i]);
    }
  }

  /** With no two keys sharing a blob, over every history and through every failure exit, failed
      clean-ups included, all live rows stay sound if and only if no operation leaves behind bytes
      that its own still live row does not name. */
  lemma SoundThroughoutIff(md5: Bytes -> string, n: Node, ops: seq<Op>, keys: set<(string, string)>)
    requires Sound(md5, n) && Within(n, keys) && NoAliases(keys) && OnKeys(ops, keys)
    ensures SoundThroughout(md5, n, ops) <==> NoneSpoils(md5, n, ops)
  {
    if SoundThroughout(md5, n, ops) {
      forall i | 0 <= i < |ops| ensures !Spoils(md5, ExecAll(md5, n, ops[..i]), ops[i]) {
        SoundAtIff(md5, n, ops, keys, i);
      }
    }
    if NoneSpoils(md5, n, ops) {
      forall i | 0 <= i <= |ops| ensures Sound(md5, ExecAll(md5, n, ops[..i])) {
        SoundUpTo(md5, n, ops, keys, i);
      }
    }
  }

  /** While the clean-ups of puts succeed nothing is spoilt. */
  lemma CleanPutsSpoilNothing(md5: Bytes -> string, n: Node, ops: seq<Op>)
    requires forall op | op in ops && (op.Put? || op.PutReplica?) :: !op.faults.cleanup
    ensures NoneSpoils(md5, n, ops)
  {
    forall i | 0 <= i < |ops|
      ensures !Spoils(md5, ExecAll(md5, n, ops[..i]), ops[i])
    {
      assert ops[i] in ops;
    }
  }

  const NO_FAULTS := Faults(false, false, false, false, false, false)

  /** Storing one key and then the other. */
  function PutBoth(x: (string, string), y: (string, string), b0: Bytes, b1: Bytes): seq<Op> {
    [Put(x.0, x.1, Received(b0), 1, "", NO_FAULTS), Put(y.0, y.1, Received(b1), 1, "", NO_FAULTS)]
  }

  /** Two keys at one address: storing the second destroys the bytes of the first. */
  lemma AliasBreaksSoundness(md5: Bytes -> string, n: Node, x: (string, string), y: (string, string), b0: Bytes, b1: Bytes)
    requires x != y && BlobAddress(x.0, x.1) == BlobAddress(y.0, y.1) && md5(b0) != md5(b1)
    requires x.0 in n.buckets && x.0 != "" && ValidKey(x.1) && ValidKey(y.1)
    ensures !Sound(md5, ExecAll(md5, n, PutBoth(x, y, b0, b1)))
  {
    var px, py := Put(x.0, x.1, Received(b0), 1, "", NO_FAULTS), Put(y.0, y.1, Received(b1), 1, "", NO_FAULTS);
    assert [px, py][..1] == [px] && [px][..0] == [];
    var n1 := Exec(md5, n, px).0;
    assert ExecAll(md5, n, [px]) == n1 by { assert ExecAll(md5, n, []) == n; }
    var n2 := Exec(md5, n1, py).0;
    ExecFrame(md5, n1, py, x.0, x.1);
    assert !RowSound(md5, n2, x.0, x.1);
  }

  /** Histories on the keys in which nothing is spoilt are sound throughout. */
  ghost predicate UnspoiltIsSound(md5: Bytes -> string, n: Node, keys: set<(string, string)>) {
    forall ops | OnKeys(ops, keys) && NoneSpoils(md5, n, ops) :: SoundThroughout(md5, n, ops)
  }

  lemma PutBothClean(md5: Bytes -> string, n: Node, x: (string, string), y: (string, string), b0: Bytes, b1: Bytes, keys: set<(string, string)>)
    requires x in keys && y in keys
    ensures OnKeys(PutBoth(x, y, b0, b1), keys) && NoneSpoils(md5, n, PutBoth(x, y, b0, b1))
  {
    CleanPutsSpoilNothing(md5, n, PutBoth(x, y, b0, b1));
  }

  lemma AliasesNotSound(md5: Bytes -> string, n: Node, keys: set<(string, string)>, b0: Bytes, b1: Bytes)
    requires md5(b0) != md5(b1) && !NoAliases(keys)
    requires forall k | k in keys :: k.0 in n.buckets && k.0 != "" && ValidKey(k.1)
    ensures !UnspoiltIsSound(md5, n, keys)
  {
    var x, y :| x in keys && y in keys && BlobAddress(x.0, x.1) == BlobAddress(y.0, y.1) && x != y;
    var ops := PutBoth(x, y, b0, b1);
    AliasBreaksSoundness(md5, n, x, y, b0, b1);
    PutBothClean(md5, n, x, y, b0, b1, keys);
    if SoundThroughout(md5, n, ops) { SoundEnd(md5, n, ops); }
  }

  /** From a sound node, on every history in which nothing is spoilt no live row ever names bytes it
      does not hold, exactly when no two of the keys used share a blob. */
  lemma NeverWrongBytesIff(md5: Bytes -> string, n: Node, keys: set<(string, string)>, b0: Bytes, b1: Bytes)
    requires md5(b0) != md5(b1) && Sound(md5, n) && Within(n, keys)
    requires forall k | k in keys :: k.0 in n.buckets && k.0 != "" && ValidKey(k.1)
    ensures NoAliases(keys) <==> UnspoiltIsSound(md5, n, keys)
  {
    if NoAliases(keys) {
      forall ops | OnKeys(ops, keys) && NoneSpoils(md5, n, ops)
        ensures SoundThroughout(md5, n, ops)
      {
        SoundThroughoutIff(md5, n, ops, keys);
      }
    } else {
      AliasesNotSound(md5, n, keys, b0, b1);
    }
  }

  /** The spoilt case is real: an overwrite whose row and clean-up both fail leaves the new bytes
      under the old row. */
  lemma FailedCleanupLeavesWrongBytes(md5: Bytes -> string, n: Node, op: Op)
    requires op.Put? && WritesBlob(n, op) && op.bucket != "" && op.faults.row && op.faults.cleanup && !op.faults.hasher
    requires HasLiveRow(n, op.bucket, op.key) && md5(op.upload.bytes) != RowAt(n, op.bucket, op.key).etag
    ensures var (n', out) := Exec(md5, n, op);
            out == Failed && HasLiveRow(n', op.bucket, op.key) && !RowSound(md5, n', op.bucket, op.key)
  {
  }

  // ---------------------------------------------------------------- never missing bytes

  /** A live row's blob is there and hashes to the row's ETag. */
  ghost predicate RowWhole(md5: Bytes -> string, n: Node, bucket: string, key: string) {
    var a := BlobAddress(bucket, key);
    HasLiveRow(n, bucket, key) ==> a in n.blobs && md5(n.blobs[a]) == RowAt(n, bucket, key).etag
  }

  ghost predicate Whole(md5: Bytes -> string, n: Node) {
    forall bucket, key :: RowWhole(md5, n, bucket, key)
  }

  /** The tombstone passes its guards, removes the live blob and then fails to record the marker. */
  predicate DropsThenFails(n: Node, op: Op) {
    && (op.Bury? || op.BuryReplica?)
    && !op.faults.lookup && op.faults.row && !op.faults.cleanup
    && (op.BuryReplica? && HasRow(n, op.bucket, op.key) ==> op.version > RowAt(n, op.bucket, op.key).version)
  }

  /** The operation takes the bytes from under its own row, which stays live. */
  predicate Damages(md5: Bytes -> string, n: Node, op: Op) {
    && HasLiveRow(n, op.bucket, op.key)
    && (|| (FailsAfterRename(md5, n, op)
            && !(op.faults.cleanup && md5(op.upload.bytes) == RowAt(n, op.bucket, op.key).etag))
        || DropsThenFails(n, op))
  }

  lemma OwnRowWholeIff(md5: Bytes -> string, n: Node, op: Op)
    requires RowWhole(md5, n, op.bucket, op.key)
    ensures RowWhole(md5, Exec(md5, n, op).0, op.bucket, op.key) <==> !Damages(md5, n, op)
  {
    if op.Put? || op.PutReplica? {
      OwnPutWholeIff(md5, n, op);
    } else if op.Bury? || op.BuryReplica? {
      OwnBuryWholeIff(md5, n, op);
    }
  }

  lemma OwnPutWholeIff(md5: Bytes -> string, n: Node, op: Op)
    requires RowWhole(md5, n, op.bucket, op.key) && (op.Put? || op.PutReplica?)
    ensures RowWhole(md5, Exec(md5, n, op).0, op.bucket, op.key) <==> !Damages(md5, n, op)
  {
  }

  lemma OwnBuryWholeIff(md5: Bytes -> string, n: Node, op: Op)
    requires RowWhole(md5, n, op.bucket, op.key) && (op.Bury? || op.BuryReplica?)
    ensures RowWhole(md5, Exec(md5, n, op).0, op.bucket, op.key) <==> !Damages(md5, n, op)
  {
  }

  lemma StepWholeIff(md5: Bytes -> string, n: Node, op: Op, keys: set<(string, string)>)
    requires Whole(md5, n) && Within(n, keys) && (op.bucket, op.key) in keys && NoAliases(keys)
    ensures Whole(md5, Exec(md5, n, op).0) <==> !Damages(md5, n, op)
  {
    var n' := Exec(md5, n, op).0;
    forall bucket, key | (bucket, key) != (op.bucket, op.key)
      ensures RowWhole(md5, n', bucket, key)
    {
      assert RowWhole(md5, n, bucket, key);
      ExecFrame(md5, n, op, bucket, key);
      if HasRow(n, bucket, key) {
        var x, y := (bucket, key), (op.bucket, op.key);
        assert BlobAddress(x.0, x.1) != BlobAddress(y.0, y.1);
        BlobFrame(md5, n, op, BlobAddress(bucket, key));
      }
    }
    assert RowWhole(md5, n, op.bucket, op.key);
    OwnRowWholeIff(md5, n, op);
  }

  /** Every live row has its bytes, at every moment of the history. */
  ghost predicate WholeThroughout(md5: Bytes -> string, n: Node, ops: seq<Op>) {
    forall i | 0 <= i <= |ops| :: Whole(md5, ExecAll(md5, n, ops[..i]))
  }

  ghost predicate NoneDamages(md5: Bytes -> string, n: Node, ops: seq<Op>) {
    forall i | 0 <= i < |ops| :: !Damages(md5, ExecAll(md5, n, ops[..i]), ops[i])
  }

  lemma WholeAtIff(md5: Bytes -> string, n: Node, ops: seq<Op>, keys: set<(string, string)>, i: nat)
    requires Within(n, keys) && NoAliases(keys) && OnKeys(ops, keys) && i < |ops|
    requires Whole(md5, ExecAll(md5, n, ops[..i]))
    ensures Whole(md5, ExecAll(md5, n, ops[..i + 1])) <==> !Damages(md5, ExecAll(md5, n, ops[..i]), ops[i])
  {
    WithinAt(md5, n, ops, keys, i);
    ExecAllAt(md5, n, ops, i);
    StepWholeIff(md5, ExecAll(md5, n, ops[..i]), ops[i], keys);
  }

  lemma {:induction false} WholeUpTo(md5: Bytes -> string, n: Node, ops: seq<Op>, keys: set<(string, string)>, i: nat)
    requires Whole(md5, n) && Within(n, keys) && NoAliases(keys) && OnKeys(ops, keys) && i <= |ops|
    requires NoneDamages(md5, n, ops)
    ensures Whole(md5, ExecAll(md5, n, ops[..i]))
  {
    if i > 0 {
      WholeUpTo(md5, n, ops, keys, i - 1);
      WholeAtIff(md5, n, ops, keys, i - 1);
    } else {
      ExecNone(md5, n, ops[..i]);
    }
  }

  /** With no two keys sharing a blob, over every history and through every failure exit, every live
      row keeps its own bytes if and only if no operation takes them from under it. */
  lemma WholeThroughoutIff(md5: Bytes -> string, n: Node, ops: seq<Op>, keys: set<(string, string)>)
    requires Whole(md5, n) && Within(n, keys) && NoAliases(keys) && OnKeys(ops, keys)
    ensures WholeThroughout(md5, n, ops) <==> NoneDamages(md5, n, ops)
  {
    if WholeThroughout(md5, n, ops) {
      forall i | 0 <= i < |ops| ensures !Damages(md5, ExecAll(md5, n, ops[..i]), ops[i]) {
        WholeAtIff(md5, n, ops, keys, i);
      }
    }
    if NoneDamages(md5, n, ops) {
      forall i | 0 <= i <= |ops| ensures Whole(md5, ExecAll(md5, n, ops[..i])) {
        WholeUpTo(md5, n, ops, keys, i);
      }
    }
  }

  /** Histories on the keys in which nothing is damaged are whole throughout. */
  ghost predicate UndamagedIsWhole(md5: Bytes -> string, n: Node, keys: set<(string, string)>) {
    forall ops | OnKeys(ops, keys) && NoneDamages(md5, n, ops) :: WholeThroughout(md5, n, ops)
  }

  lemma FaultlessPutsDamageNothing(md5: Bytes -> string, n: Node, ops: seq<Op>)
    requires forall op | op in ops :: op.Put? && op.faults == NO_FAULTS && op.bucket != ""
    ensures NoneDamages(md5, n, ops)
  {
    forall i | 0 <= i < |ops|
      ensures !Damages(md5, ExecAll(md5, n, ops[..i]), ops[i])
    {
      assert ops[i] in ops;
    }
  }

  lemma WholeIsSound(md5: Bytes -> string, n: Node)
    requires Whole(md5, n)
    ensures Sound(md5, n)
  {
    forall bucket, key ensures RowSound(md5, n, bucket, key) {
      assert RowWhole(md5, n, bucket, key);
    }
  }

  lemma WholeEnd(md5: Bytes -> string, n: Node, ops: seq<Op>)
    requires WholeThroughout(md5, n, ops)
    ensures Sound(md5, ExecAll(md5, n, ops))
  {
    assert ops[..|ops|] == ops;
    WholeIsSound(md5, ExecAll(md5, n, ops));
  }

  lemma AliasesNotWhole(md5: Bytes -> string, n: Node, keys: set<(string, string)>, b0: Bytes, b1: Bytes)
    requires md5(b0) != md5(b1) && !NoAliases(keys)
    requires forall k | k in keys :: k.0 in n.buckets && k.0 != "" && ValidKey(k.1)
    ensures !UndamagedIsWhole(md5, n, keys)
  {
    var x, y :| x in keys && y in keys && BlobAddress(x.0, x.1) == BlobAddress(y.0, y.1) && x != y;
    var ops := PutBoth(x, y, b0, b1);
    AliasBreaksSoundness(md5, n, x, y, b0, b1);
    PutBothClean(md5, n, x, y, b0, b1, keys);
    FaultlessPutsDamageNothing(md5, n, ops);
    if WholeThroughout(md5, n, ops) { WholeEnd(md5, n, ops); }
  }

  /** From a whole node, on every history in which nothing is damaged every live row keeps its own
      bytes, exactly when no two of the keys used share a blob. */
  lemma NeverMissingBytesIff(md5: Bytes -> string, n: Node, keys: set<(string, string)>, b0: Bytes, b1: Bytes)
    requires md5(b0) != md5(b1) && Whole(md5, n) && Within(n, keys)
    requires forall k | k in keys :: k.0 in n.buckets && k.0 != "" && ValidKey(k.1)
    ensures NoAliases(keys) <==> UndamagedIsWhole(md5, n, keys)
  {
    if NoAliases(keys) {
      forall ops | OnKeys(ops, keys) && NoneDamages(md5, n, ops)
        ensures WholeThroughout(md5, n, ops)
      {
        WholeThroughoutIff(md5, n, ops, keys);
      }
    } else {
      AliasesNotWhole(md5, n, keys, b0, b1);
    }
  }

  /** A tombstone removes the blob before it records the marker: when the row write then fails, the row
      is still live and its bytes are gone. */
  lemma FailedTombstoneLosesBlob(md5: Bytes -> string, n: Node, op: Op)
    requires DropsThenFails(n, op) && HasLiveRow(n, op.bucket, op.key)
    ensures var (n', out) := Exec(md5, n, op);
            && out == Failed && HasLiveRow(n', op.bucket, op.key)
            && BlobAddress(op.bucket, op.key) !in n'.blobs
  {
  }

  /** An overwrite whose row fails, and whose clean-up succeeds, removes the blob the old row names. */
  lemma FailedOverwriteLosesBlob(md5: Bytes -> string, n: Node, op: Op)
    requires FailsAfterRename(md5, n, op) && !op.faults.cleanup && HasLiveRow(n, op.bucket, op.key)
    ensures var (n', out) := Exec(md5, n, op);
            && out != Done && HasLiveRow(n', op.bucket, op.key)
            && BlobAddress(op.bucket, op.key) !in n'.blobs
  {
  }

  /** In particular a replicate-put with the wrong bytes removes the blob that the live row still names. */
  lemma MismatchLosesBlob(md5: Bytes -> string, n: Node, op: Op)
    requires op.PutReplica? && WritesBlob(n, op) && !op.faults.cleanup
    requires HasLiveRow(n, op.bucket, op.key) && !op.faults.hasher && md5(op.upload.bytes) != op.expected
    ensures var (n', out) := Exec(md5, n, op);
            && out == ChecksumMismatch
            && HasLiveRow(n', op.bucket, op.key)
            && BlobAddress(op.bucket, op.key) !in n'.blobs
  {
  }
}
