/** The durable hint table (internal/metadata/sqlite/hints.go), the payload files staged for it
    (internal/storage/filesystem/hint_staging.go), the enqueueing of
    internal/replication/coordinator.go and the worker of internal/replication/hints_worker.go,
    over all keys of a primary. */
module Hints {
  import opened Basics

  /** The columns the table is unique on. */
  datatype HintKey = HintKey(target: string, bucket: string, key: string, version: nat, kind: HintKind)

  datatype HintInfo = HintInfo(id: nat, etag: string, staged: bool, attempts: nat, nextAttempt: int)

  /** A staged payload file: {base}/_hints/{target}/{bucket}/{version}/{key with "/" as "_"}.blob */
  datatype Path = Path(target: string, bucket: string, version: nat, name: string)

  datatype Object = Object(version: nat, bytes: Bytes)

  /** The current live objects of the primary, the hint table, the staged files and, per target and
      key, the newest version known to have reached it. */
  datatype Queue = Queue(
    objects: map<(string, string), Object>,
    table: map<HintKey, HintInfo>,
    files: map<Path, Bytes>,
    held: map<(string, string, string), nat>,
    nextId: nat)

  const EMPTY_QUEUE := Queue(map[], map[], map[], map[], 0)

  function Underscored(key: string): string {
    seq(|key|, i requires 0 <= i < |key| => if key[i] == '/' then '_' else key[i])
  }

  function PayloadPath(k: HintKey): Path {
    Path(k.target, k.bucket, k.version, Underscored(k.key))
  }

  predicate TargetHolds(q: Queue, k: HintKey) {
    (k.target, k.bucket, k.key) in q.held && q.held[(k.target, k.bucket, k.key)] >= k.version
  }

  /** How the copy into the payload file ends: complete, never started, or failed half way, in which
      case the file is removed. */
  datatype Copy = Copied | NotStarted | CopyFailed

  // ---------------------------------------------------------------- specification

  /** Staging happens for put and repair hints whose source is this node and still has bytes. */
  predicate Stages(q: Queue, k: HintKey, local: bool) {
    !k.kind.TombstoneHint? && local && (k.bucket, k.key) in q.objects
  }

  function StageFile(q: Queue, k: HintKey, copy: Copy): map<Path, Bytes>
    requires (k.bucket, k.key) in q.objects
  {
    match copy
    case Copied => q.files[PayloadPath(k) := q.objects[(k.bucket, k.key)].bytes]
    case NotStarted => q.files
    case CopyFailed => q.files - {PayloadPath(k)}
  }

  /** The upsert: an existing row keeps its id and attempt count. */
  function Upsert(q: Queue, k: HintKey, etag: string, staged: bool, now: int): Queue {
    if k in q.table
    then q.(table := q.table[k := HintInfo(q.table[k].id, etag, staged, q.table[k].attempts, now)])
    else q.(table := q.table[k := HintInfo(q.nextId, etag, staged, 0, now)], nextId := q.nextId + 1)
  }

  function Enqueue(q: Queue, k: HintKey, etag: string, local: bool, copy: Copy, stored: bool, now: int): Queue {
    var stages := Stages(q, k, local);
    var q' := if stages then q.(files := StageFile(q, k, copy)) else q;
    if stored then Upsert(q', k, etag, stages && copy.Copied?, now) else q'
  }

  /** The worker's treatment of a hint it listed with the given id and payload. */
  function Finish(q: Queue, k: HintKey, id: nat, staged: bool, delivered: bool, next: int): Queue {
    if delivered then
      q.(table := if k in q.table && q.table[k].id == id then q.table - {k} else q.table,
         files := if staged then q.files - {PayloadPath(k)} else q.files,
         held := if TargetHolds(q, k) then q.held else q.held[(k.target, k.bucket, k.key) := k.version])
    else if k in q.table && q.table[k].id == id then
      q.(table := q.table[k := q.table[k].(attempts := q.table[k].attempts + 1, nextAttempt := next)])
    else q
  }

  function ResetTarget(q: Queue, target: string, now: int): Queue {
    q.(table := map k | k in q.table ::
         if k.target == target then q.table[k].(attempts := 0, nextAttempt := now) else q.table[k])
  }

  // ---------------------------------------------------------------- the queue as code

  class HintQueue {
    var q: Queue

    constructor ()
      ensures q == EMPTY_QUEUE
    {
      q := EMPTY_QUEUE;
    }

    method StageHintCopy(k: HintKey, copy: Copy) returns (staged: bool)
      requires (k.bucket, k.key) in q.objects
      modifies this
      ensures q == old(q).(files := StageFile(old(q), k, copy)) && staged == copy.Copied?
    {
      match copy
      case Copied =>
        q := q.(files := q.files[PayloadPath(k) := q.objects[(k.bucket, k.key)].bytes]);
        return true;
      case NotStarted =>
        return false;
      case CopyFailed =>
        q := q.(files := q.files - {PayloadPath(k)});
        return false;
    }

    method CreateHint(k: HintKey, etag: string, staged: bool, now: int)
      modifies this
      ensures q == Upsert(old(q), k, etag, staged, now)
    {
      if k in q.table {
        var row := q.table[k];
        q := q.(table := q.table[k := row.(etag := etag, staged := staged, nextAttempt := now)]);
      } else {
        q := q.(table := q.table[k := HintInfo(q.nextId, etag, staged, 0, now)], nextId := q.nextId + 1);
      }
    }

    method EnqueueHint(k: HintKey, etag: string, local: bool, copy: Copy, stored: bool, now: int)
      modifies this
      ensures q == Enqueue(old(q), k, etag, local, copy, stored, now)
    {
      var staged := false;
      if (k.kind.PutHint? || k.kind.RepairHint?) && local && (k.bucket, k.key) in q.objects {
        staged := StageHintCopy(k, copy);
      }
      if stored {
        CreateHint(k, etag, staged, now);
      }
    }

    /** What a recovered peer triggers. */
    method ResetHintsForTarget(target: string, now: int)
      modifies this
      ensures q == ResetTarget(old(q), target, now)
    {
      q := q.(table := map k | k in q.table ::
             if k.target == target then q.table[k].(attempts := 0, nextAttempt := now) else q.table[k]);
    }

    /** The worker's loop over the due hints. */
    method ProcessDue(due: seq<DueHint>, now: int)
      modifies this
      ensures q == FinishAll(old(q), due, now)
    {
      for i := 0 to |due|
        invariant q == FinishAll(old(q), due[..i], now)
      {
        assert due[..i + 1][..i] == due[..i];
        var h := due[i];
        var delay := NextHintDelay(h.attempts);
        FinishHint(h.key, h.id, h.staged, h.delivered, now + delay);
      }
      assert due[..|due|] == due;
    }

    /** One iteration of the worker's loop. */
    method FinishHint(k: HintKey, id: nat, staged: bool, delivered: bool, next: int)
      modifies this
      ensures q == Finish(old(q), k, id, staged, delivered, next)
    {
      if delivered {
        if !TargetHolds(q, k) {
          q := q.(held := q.held[(k.target, k.bucket, k.key) := k.version]);
        }
        if k in q.table && q.table[k].id == id {
          q := q.(table := q.table - {k});
        }
        if staged {
          q := q.(files := q.files - {PayloadPath(k)});
        }
      } else if k in q.table && q.table[k].id == id {
        var row := q.table[k];
        q := q.(table := q.table[k := row.(attempts := row.attempts + 1, nextAttempt := next)]);
      }
    }
  }

  // ---------------------------------------------------------------- what the operations leave

  /** An upsert writes its own row only: over an existing row id and attempts stay, a new row gets a
      fresh id and no attempts; either way it is due at once, with the given ETag and path. */
  lemma UpsertMeans(q: Queue, k: HintKey, etag: string, staged: bool, now: int)
    ensures var q' := Upsert(q, k, etag, staged, now);
            && q'.table.Keys == q.table.Keys + {k}
            && (forall k' | k' in q.table && k' != k :: q'.table[k'] == q.table[k'])
            && q'.table[k].etag == etag && q'.table[k].staged == staged && q'.table[k].nextAttempt == now
            && (k in q.table ==> q'.table[k].id == q.table[k].id && q'.table[k].attempts == q.table[k].attempts && q'.nextId == q.nextId)
            && (k !in q.table ==> q'.table[k].id == q.nextId && q'.table[k].attempts == 0 && q'.nextId == q.nextId + 1)
            && q'.files == q.files && q'.objects == q.objects && q'.held == q.held
  {
  }

  /** An enqueue stages exactly for put and repair hints of this node's own objects, the current bytes
      at the path of target, bucket, version and underscored key, and the row has a path exactly if the
      copy is complete. */
  lemma EnqueueMeans(q: Queue, k: HintKey, etag: string, local: bool, copy: Copy, stored: bool, now: int)
    ensures var q' := Enqueue(q, k, etag, local, copy, stored, now);
            var path := Path(k.target, k.bucket, k.version, Underscored(k.key));
            var tries := local && k.kind != TombstoneHint && (k.bucket, k.key) in q.objects;
            && (stored ==> k in q'.table && q'.table[k].etag == etag && (q'.table[k].staged <==> tries && copy == Copied))
            && (!stored ==> q'.table == q.table)
            && (tries && copy == Copied ==> q'.files == q.files[path := q.objects[(k.bucket, k.key)].bytes])
            && (tries && copy == CopyFailed ==> q'.files == q.files - {path})
            && (!tries || copy == NotStarted ==> q'.files == q.files)
  {
  }

  /** A delivery removes the row with the listed id, the staged file if there is one, and nothing else;
      a failure adds an attempt and puts the row off. */
  lemma FinishMeans(q: Queue, k: HintKey, id: nat, staged: bool, delivered: bool, next: int)
    ensures var q' := Finish(q, k, id, staged, delivered, next);
            && (forall k' | k' != k :: (k' in q'.table <==> k' in q.table) && (k' in q.table ==> q'.table[k'] == q.table[k']))
            && (k in q.table && q.table[k].id == id && delivered ==> k !in q'.table)
            && (k in q.table && q.table[k].id == id && !delivered ==>
                  k in q'.table && q'.table[k] == q.table[k].(attempts := q.table[k].attempts + 1, nextAttempt := next))
            && q'.files == (if delivered && staged then q.files - {PayloadPath(k)} else q.files)
            && (delivered ==> TargetHolds(q', k)) && (!delivered ==> q'.held == q.held)
            && q'.objects == q.objects
  {
  }

  /** A reset makes all hints of the target due at once with no attempts, and touches no other. */
  lemma ResetMeans(q: Queue, target: string, now: int, k: HintKey)
    ensures var q' := ResetTarget(q, target, now);
            && (k in q'.table <==> k in q.table)
            && (k in q.table && k.target == target ==> q'.table[k] == q.table[k].(attempts := 0, nextAttempt := now))
            && (k in q.table && k.target != target ==> q'.table[k] == q.table[k])
            && q'.files == q.files && q'.held == q.held
  {
  }

  /** Slashes of a key become underscores in its payload name, and nothing else changes. */
  lemma UnderscoredMeans(key: string, i: nat)
    requires i < |key|
    ensures |Underscored(key)| == |key| && Underscored(key)[i] == if key[i] == '/' then '_' else key[i]
  {
  }

  // ---------------------------------------------------------------- staged payloads

  type Digests = (string, string, nat) -> string

  /** The file of hint `k` holds bytes with the digest of its own version. */
  ghost predicate FileAgrees(md5: Bytes -> string, digest: Digests, q: Queue, k: HintKey) {
    && PayloadPath(k) in q.files
    && md5(q.files[PayloadPath(k)]) == digest(k.bucket, k.key, k.version)
  }

  /** A pending hint with a source path still has its bytes, or its target already has the version. */
  ghost predicate PayloadKept(md5: Bytes -> string, digest: Digests, q: Queue, k: HintKey) {
    k in q.table && q.table[k].staged ==> FileAgrees(md5, digest, q, k) || TargetHolds(q, k)
  }

  ghost predicate PayloadsKept(md5: Bytes -> string, digest: Digests, q: Queue) {
    forall k :: PayloadKept(md5, digest, q, k)
  }

  /** The keys, by bucket, whose hints never share a payload file. */
  ghost predicate NoPathAliases(keys: set<(string, string)>) {
    forall x, y | x in keys && y in keys && x.0 == y.0 && Underscored(x.1) == Underscored(y.1) :: x == y
  }

  /** Only put and repair hints have a payload, and all hints belong to the given keys. */
  ghost predicate TableInv(q: Queue, keys: set<(string, string)>) {
    forall k | k in q.table ::
      (k.bucket, k.key) in keys && (q.table[k].staged ==> !k.kind.TombstoneHint?)
  }

  /** The other kind of hint that shares the payload file of a put or repair hint. */
  function Twin(k: HintKey): HintKey {
    k.(kind := match k.kind case PutHint => RepairHint case RepairHint => PutHint case TombstoneHint => TombstoneHint)
  }

  predicate Staged(q: Queue, k: HintKey) {
    k in q.table && q.table[k].staged
  }

  /** After the enqueue some pending hint points at the payload file. */
  predicate PointedAt(q: Queue, k: HintKey, copy: Copy, stored: bool) {
    Staged(q, Twin(k)) || (if stored then copy.Copied? else Staged(q, k))
  }

  lemma PathOwner(keys: set<(string, string)>, k: HintKey, k': HintKey)
    requires NoPathAliases(keys) && (k.bucket, k.key) in keys && (k'.bucket, k'.key) in keys
    requires PayloadPath(k) == PayloadPath(k') && !k.kind.TombstoneHint? && !k'.kind.TombstoneHint?
    ensures k' == k || k' == Twin(k)
  {
    var x, y := (k.bucket, k.key), (k'.bucket, k'.key);
    assert x.0 == y.0 && Underscored(x.1) == Underscored(y.1);
  }

  /** Hints other than the enqueued one and its twin keep their payload. */
  lemma EnqueueKeepsOthers(md5: Bytes -> string, digest: Digests, q: Queue, keys: set<(string, string)>,
                           k: HintKey, etag: string, local: bool, copy: Copy, stored: bool, now: int, k': HintKey)
    requires PayloadKept(md5, digest, q, k') && TableInv(q, keys) && NoPathAliases(keys) && (k.bucket, k.key) in keys
    requires k' != k && k' != Twin(k)
    ensures PayloadKept(md5, digest, Enqueue(q, k, etag, local, copy, stored, now), k')
  {
    if Staged(q, k') && !k.kind.TombstoneHint? && PayloadPath(k') == PayloadPath(k) {
      PathOwner(keys, k, k');
    }
  }

  /** The staging condition of one enqueue, as its caller can see it. */
  predicate StagesSafely(md5: Bytes -> string, digest: Digests, q: Queue, k: HintKey, local: bool, copy: Copy, stored: bool) {
    || !Stages(q, k, local) || copy.NotStarted?
    || TargetHolds(q, k)
    || (copy.Copied? && md5(q.objects[(k.bucket, k.key)].bytes) == digest(k.bucket, k.key, k.version))
    || !PointedAt(q, k, copy, stored)
  }

  lemma EnqueueKeepsOwnIff(md5: Bytes -> string, digest: Digests, q: Queue,
                           k: HintKey, etag: string, local: bool, copy: Copy, stored: bool, now: int)
    requires PayloadKept(md5, digest, q, k) && PayloadKept(md5, digest, q, Twin(k))
    ensures var q' := Enqueue(q, k, etag, local, copy, stored, now);
            PayloadKept(md5, digest, q', k) && PayloadKept(md5, digest, q', Twin(k)) <==>
            StagesSafely(md5, digest, q, k, local, copy, stored)
  {
    var q' := Enqueue(q, k, etag, local, copy, stored, now);
    assert PayloadPath(Twin(k)) == PayloadPath(k);
    if Stages(q, k, local) && !copy.NotStarted? {
      assert PointedAt(q, k, copy, stored) <==> Staged(q', k) || Staged(q', Twin(k));
      assert FileAgrees(md5, digest, q', k) <==>
             copy.Copied? && md5(q.objects[(k.bucket, k.key)].bytes) == digest(k.bucket, k.key, k.version);
    }
  }

  /** With no shared payload names, one enqueue keeps all payloads exactly when it leaves the file
      alone, or its target already has the version, or it stages bytes of the hinted version, or no
      pending hint points at the file afterwards. */
  lemma EnqueueKeepsPayloadsIff(md5: Bytes -> string, digest: Digests, q: Queue, keys: set<(string, string)>,
                                k: HintKey, etag: string, local: bool, copy: Copy, stored: bool, now: int)
    requires PayloadsKept(md5, digest, q) && TableInv(q, keys) && NoPathAliases(keys) && (k.bucket, k.key) in keys
    ensures PayloadsKept(md5, digest, Enqueue(q, k, etag, local, copy, stored, now)) <==>
            StagesSafely(md5, digest, q, k, local, copy, stored)
  {
    var q' := Enqueue(q, k, etag, local, copy, stored, now);
    forall k' | k' != k && k' != Twin(k)
      ensures PayloadKept(md5, digest, q', k')
    {
      assert PayloadKept(md5, digest, q, k');
      EnqueueKeepsOthers(md5, digest, q, keys, k, etag, local, copy, stored, now, k');
    }
    assert PayloadKept(md5, digest, q, k) && PayloadKept(md5, digest, q, Twin(k));
    EnqueueKeepsOwnIff(md5, digest, q, k, etag, local, copy, stored, now);
  }

  /** A repair whose copy fails half way removes the payload of the pending put hint of the same
      version. */
  lemma FailedRepairLosesPayload(q: Queue, k: HintKey, etag: string, now: int)
    requires k.kind.RepairHint? && Stages(q, k, true) && Staged(q, Twin(k))
    ensures var q' := Enqueue(q, k, etag, true, CopyFailed, true, now);
            Staged(q', Twin(k)) && PayloadPath(Twin(k)) !in q'.files
  {
  }

  // ---------------------------------------------------------------- every history

  datatype Event =
    | Write(bucket: string, key: string, stored: Object)
    | Remove(bucket: string, key: string)
    | Hinted(hint: HintKey, etag: string, local: bool, copy: Copy, created: bool, now: int)
    | Finished(hint: HintKey, id: nat, staged: bool, delivered: bool, next: int)
    | Reset(target: string, now: int)
    | Reached(target: string, bucket: string, key: string, version: nat)

  /** A version reached its target otherwise than by a hint: by the fan-out of a write. */
  function RaiseHeld(q: Queue, target: string, bucket: string, key: string, version: nat): Queue {
    var x := (target, bucket, key);
    if x in q.held && q.held[x] >= version then q else q.(held := q.held[x := version])
  }

  function Apply(q: Queue, e: Event): Queue {
    match e
    case Write(bucket, key, o) => q.(objects := q.objects[(bucket, key) := o])
    case Remove(bucket, key) => q.(objects := q.objects - {(bucket, key)})
    case Hinted(k, etag, local, copy, stored, now) => Enqueue(q, k, etag, local, copy, stored, now)
    case Finished(k, id, staged, delivered, next) => Finish(q, k, id, staged, delivered, next)
    case Reset(target, now) => ResetTarget(q, target, now)
    case Reached(target, bucket, key, version) => RaiseHeld(q, target, bucket, key, version)
  }

  function ApplyAll(es: seq<Event>): Queue {
    if es == [] then EMPTY_QUEUE else Apply(ApplyAll(es[..|es| - 1]), es[|es| - 1])
  }

  /** The event is about one of the keys; payloads belong to put and repair hints. */
  ghost predicate OnKeys(keys: set<(string, string)>, e: Event) {
    match e
    case Hinted(k, _, _, _, _, _) => (k.bucket, k.key) in keys
    case Finished(k, _, staged, _, _) => staged ==> (k.bucket, k.key) in keys && !k.kind.TombstoneHint?
    case _ => true
  }

  ghost predicate HistoryOnKeys(keys: set<(string, string)>, es: seq<Event>) {
    forall i | 0 <= i < |es| :: OnKeys(keys, es[i])
  }

  /** An enqueue that stages safely; any other event. */
  ghost predicate Safe(md5: Bytes -> string, digest: Digests, q: Queue, e: Event) {
    e.Hinted? ==> StagesSafely(md5, digest, q, e.hint, e.local, e.copy, e.created)
  }

  ghost predicate AllSafe(md5: Bytes -> string, digest: Digests, es: seq<Event>) {
    forall i | 0 <= i < |es| :: Safe(md5, digest, ApplyAll(es[..i]), es[i])
  }

  /** No pending payload is lost at any moment of the history. */
  ghost predicate KeptThroughout(md5: Bytes -> string, digest: Digests, es: seq<Event>) {
    forall i | 0 <= i <= |es| :: PayloadsKept(md5, digest, ApplyAll(es[..i]))
  }

  lemma FinishKeepsPayloads(md5: Bytes -> string, digest: Digests, q: Queue, keys: set<(string, string)>,
                            k: HintKey, id: nat, staged: bool, delivered: bool, next: int)
    requires PayloadsKept(md5, digest, q) && TableInv(q, keys) && NoPathAliases(keys)
    requires staged ==> (k.bucket, k.key) in keys && !k.kind.TombstoneHint?
    ensures PayloadsKept(md5, digest, Finish(q, k, id, staged, delivered, next))
  {
    var q' := Finish(q, k, id, staged, delivered, next);
    forall k'
      ensures PayloadKept(md5, digest, q', k')
    {
      assert PayloadKept(md5, digest, q, k');
      if Staged(q, k') && staged && PayloadPath(k') == PayloadPath(k) {
        PathOwner(keys, k, k');
      }
    }
  }

  /** One event keeps all payloads exactly when it is safe. */
  lemma ApplyKeepsPayloadsIff(md5: Bytes -> string, digest: Digests, keys: set<(string, string)>, q: Queue, e: Event)
    requires PayloadsKept(md5, digest, q) && TableInv(q, keys) && NoPathAliases(keys) && OnKeys(keys, e)
    ensures PayloadsKept(md5, digest, Apply(q, e)) <==> Safe(md5, digest, q, e)
  {
    match e
    case Hinted(k, etag, local, copy, stored, now) =>
      EnqueueKeepsPayloadsIff(md5, digest, q, keys, k, etag, local, copy, stored, now);
    case Finished(k, id, staged, delivered, next) =>
      FinishKeepsPayloads(md5, digest, q, keys, k, id, staged, delivered, next);
    case _ =>
      forall k
        ensures PayloadKept(md5, digest, Apply(q, e), k)
      {
        assert PayloadKept(md5, digest, q, k);
      }
  }

  lemma EnqueueKeepsTable(q: Queue, keys: set<(string, string)>,
                          k: HintKey, etag: string, local: bool, copy: Copy, stored: bool, now: int)
    requires TableInv(q, keys) && (k.bucket, k.key) in keys
    ensures TableInv(Enqueue(q, k, etag, local, copy, stored, now), keys)
  {
  }

  lemma {:induction false} HistoryKeepsTable(keys: set<(string, string)>, es: seq<Event>)
    requires HistoryOnKeys(keys, es)
    ensures TableInv(ApplyAll(es), keys)
  {
    if es != [] {
      var before, e := es[..|es| - 1], es[|es| - 1];
      HistoryKeepsTable(keys, before);
      if e.Hinted? {
        EnqueueKeepsTable(ApplyAll(before), keys, e.hint, e.etag, e.local, e.copy, e.created, e.now);
      }
    }
  }

  lemma ApplyAllAt(es: seq<Event>, i: nat)
    requires i < |es|
    ensures ApplyAll(es[..i + 1]) == Apply(ApplyAll(es[..i]), es[i])
  {
    assert es[..i + 1][..i] == es[..i];
  }

  /** One event of a history that had kept all payloads before it. */
  lemma KeptAtIff(md5: Bytes -> string, digest: Digests, keys: set<(string, string)>, es: seq<Event>, i: nat)
    requires NoPathAliases(keys) && HistoryOnKeys(keys, es) && i < |es|
    requires PayloadsKept(md5, digest, ApplyAll(es[..i]))
    ensures PayloadsKept(md5, digest, ApplyAll(es[..i + 1])) <==> Safe(md5, digest, ApplyAll(es[..i]), es[i])
  {
    HistoryKeepsTable(keys, es[..i]);
    ApplyAllAt(es, i);
    ApplyKeepsPayloadsIff(md5, digest, keys, ApplyAll(es[..i]), es[i]);
  }

  lemma {:induction false} KeptUpTo(md5: Bytes -> string, digest: Digests, keys: set<(string, string)>, es: seq<Event>, i: nat)
    requires NoPathAliases(keys) && HistoryOnKeys(keys, es) && AllSafe(md5, digest, es) && i <= |es|
    ensures PayloadsKept(md5, digest, ApplyAll(es[..i]))
  {
    if i > 0 {
      KeptUpTo(md5, digest, keys, es, i - 1);
      KeptAtIff(md5, digest, keys, es, i - 1);
    }
  }

  /** Over every history, with no shared payload names, pending put and repair hints keep their own
      bytes staged, or their target has the version, at every moment if and only if every enqueue of
      the history stages safely. */
  lemma PayloadsKeptThroughoutIff(md5: Bytes -> string, digest: Digests, keys: set<(string, string)>, es: seq<Event>)
    requires NoPathAliases(keys) && HistoryOnKeys(keys, es)
    ensures KeptThroughout(md5, digest, es) <==> AllSafe(md5, digest, es)
  {
    if KeptThroughout(md5, digest, es) {
      forall i | 0 <= i < |es| ensures Safe(md5, digest, ApplyAll(es[..i]), es[i]) {
        KeptAtIff(md5, digest, keys, es, i);
      }
    }
    if AllSafe(md5, digest, es) {
      forall i | 0 <= i <= |es| ensures PayloadsKept(md5, digest, ApplyAll(es[..i])) {
        KeptUpTo(md5, digest, keys, es, i);
      }
    }
  }

  // ---------------------------------------------------------------- which enqueues are safe

  /** The object's bytes have the digest of the object's version. */
  ghost predicate ObjectAgrees(md5: Bytes -> string, digest: Digests, q: Queue, x: (string, string)) {
    x in q.objects ==> md5(q.objects[x].bytes) == digest(x.0, x.1, q.objects[x].version)
  }

  /** Hinting the current version of a key is safe while the copy does not break off. */
  lemma CurrentVersionIsSafe(md5: Bytes -> string, digest: Digests, q: Queue, k: HintKey, local: bool, copy: Copy, stored: bool)
    requires ObjectAgrees(md5, digest, q, (k.bucket, k.key)) && !copy.CopyFailed?
    requires Stages(q, k, local) ==> q.objects[(k.bucket, k.key)].version == k.version
    ensures StagesSafely(md5, digest, q, k, local, copy, stored)
  {
  }

  /** Staging copies the current bytes whatever version is hinted: a repair of a version that has been
      overwritten replaces the payload of the pending put hint of that version. */
  lemma StaleRepairLosesPayload(md5: Bytes -> string, digest: Digests, q: Queue, put: HintKey, etag: string, now: int)
    requires put.kind.PutHint? && Staged(q, put) && !TargetHolds(q, put) && Stages(q, Twin(put), true)
    requires md5(q.objects[(put.bucket, put.key)].bytes) != digest(put.bucket, put.key, put.version)
    ensures !PayloadKept(md5, digest, Enqueue(q, Twin(put), etag, true, Copied, true, now), put)
  {
    assert PayloadPath(Twin(put)) == PayloadPath(put);
  }

  /** Such a repair is queued: the target holds an older version `u`, so a read that sampled `v` before
      it was overwritten by `w` queues its repair of `v` afterwards. */
  lemma LateRepairLosesPayload(md5: Bytes -> string, digest: Digests, x: (string, string), target: string,
                               u: nat, v: nat, w: nat, bv: Bytes, bw: Bytes)
    requires u < v < w && md5(bv) == digest(x.0, x.1, v) && md5(bw) == digest(x.0, x.1, w) && md5(bv) != md5(bw)
    ensures var es := LateRepair(x, target, u, v, w, bv, bw, md5(bv));
            && HistoryOnKeys({x}, es) && NoPathAliases({x})
            && PayloadsKept(md5, digest, ApplyAll(es[..4]))
            && !PayloadKept(md5, digest, ApplyAll(es), HintKey(target, x.0, x.1, v, PutHint))
  {
    var es, put := LateRepair(x, target, u, v, w, bv, bw, md5(bv)), HintKey(target, x.0, x.1, v, PutHint);
    FiveEvents(es[0], es[1], es[2], es[3], es[4]);
    BeforeLateRepair(x, target, u, v, w, bv, bw, md5(bv));
    LateRepairOnKeys(x, target, u, v, w, bv, bw, md5(bv));
    var q := ApplyAll(es[..4]);
    KeptBeforeLateRepair(md5, digest, q, put, bv);
    assert !TargetHolds(q, put) && q.objects[x].bytes == bw;
    StaleRepairLosesPayload(md5, digest, q, put, md5(bv), 0);
    assert ApplyAll(es) == Enqueue(q, Twin(put), md5(bv), true, Copied, true, 0);
  }

  lemma LateRepairOnKeys(x: (string, string), target: string, u: nat, v: nat, w: nat, bv: Bytes, bw: Bytes, etag: string)
    ensures HistoryOnKeys({x}, LateRepair(x, target, u, v, w, bv, bw, etag)) && NoPathAliases({x})
  {
  }

  lemma BeforeLateRepair(x: (string, string), target: string, u: nat, v: nat, w: nat, bv: Bytes, bw: Bytes, etag: string)
    ensures var es, put := LateRepair(x, target, u, v, w, bv, bw, etag), HintKey(target, x.0, x.1, v, PutHint);
            var q := Apply(Apply(Apply(Apply(EMPTY_QUEUE, es[0]), es[1]), es[2]), es[3]);
            && q.table == map[put := HintInfo(0, etag, true, 0, 0)] && q.files == map[PayloadPath(put) := bv]
            && q.objects == map[x := Object(w, bw)] && q.held == map[(target, x.0, x.1) := u]
  {
  }

  lemma KeptBeforeLateRepair(md5: Bytes -> string, digest: Digests, q: Queue, put: HintKey, bv: Bytes)
    requires put in q.table && q.table.Keys == {put} && PayloadPath(put) in q.files && q.files[PayloadPath(put)] == bv
    requires md5(bv) == digest(put.bucket, put.key, put.version)
    ensures PayloadsKept(md5, digest, q)
  {
  }

  function LateRepair(x: (string, string), target: string, u: nat, v: nat, w: nat, bv: Bytes, bw: Bytes, etag: string): seq<Event> {
    var put := HintKey(target, x.0, x.1, v, PutHint);
    [ Reached(target, x.0, x.1, u),
      Write(x.0, x.1, Object(v, bv)),
      Hinted(put, etag, true, Copied, true, 0),
      Write(x.0, x.1, Object(w, bw)),
      Hinted(Twin(put), etag, true, Copied, true, 0) ]
  }

  lemma FiveEvents(e1: Event, e2: Event, e3: Event, e4: Event, e5: Event)
    ensures var es, q4 := [e1, e2, e3, e4, e5], Apply(Apply(Apply(Apply(EMPTY_QUEUE, e1), e2), e3), e4);
            ApplyAll(es[..4]) == q4 && ApplyAll(es) == Apply(q4, e5)
  {
    var es := [e1, e2, e3, e4, e5];
    assert es[..4] == [e1, e2, e3, e4] && [e1, e2, e3, e4][..3] == [e1, e2, e3];
    assert [e1, e2, e3][..2] == [e1, e2] && [e1, e2][..1] == [e1] && [e1][..0] == [];
    assert ApplyAll([e1]) == Apply(EMPTY_QUEUE, e1);
    assert ApplyAll([e1, e2]) == Apply(ApplyAll([e1]), e2);
    assert ApplyAll([e1, e2, e3]) == Apply(ApplyAll([e1, e2]), e3);
    assert ApplyAll([e1, e2, e3, e4]) == Apply(ApplyAll([e1, e2, e3]), e4);
  }

  // ---------------------------------------------------------------- shared payload names

  /** Whatever the objects' contents, no history of safe enqueues on these keys loses a payload. */
  ghost predicate SafeIsEnough(md5: Bytes -> string, keys: set<(string, string)>) {
    forall digest: Digests, es: seq<Event> | HistoryOnKeys(keys, es) && AllSafe(md5, digest, es) ::
      KeptThroughout(md5, digest, es)
  }

  lemma SafeNext(md5: Bytes -> string, digest: Digests, keys: set<(string, string)>, es: seq<Event>, e: Event)
    requires HistoryOnKeys(keys, es) && AllSafe(md5, digest, es)
    requires OnKeys(keys, e) && Safe(md5, digest, ApplyAll(es), e)
    ensures HistoryOnKeys(keys, es + [e]) && AllSafe(md5, digest, es + [e])
    ensures ApplyAll(es + [e]) == Apply(ApplyAll(es), e)
  {
    var all := es + [e];
    assert all[..|es|] == es && all[..|all|] == all;
    ApplyAllAt(all, |es|);
    forall i | 0 <= i < |all| ensures Safe(md5, digest, ApplyAll(all[..i]), all[i]) {
      assert i < |es| ==> all[..i] == es[..i] && all[i] == es[i];
    }
  }

  lemma HintAfterWrite(q: Queue, x: (string, string), bytes: Bytes, etag: string)
    ensures var k := HintKey("t", x.0, x.1, 1, PutHint);
            var q1 := Apply(q, Write(x.0, x.1, Object(1, bytes)));
            var q2 := Apply(q1, Hinted(k, etag, true, Copied, true, 0));
            && x in q1.objects && q1.objects[x].bytes == bytes
            && q2.files == q.files[PayloadPath(k) := bytes] && q2.held == q.held
            && Staged(q2, k) && forall k' | Staged(q, k') :: Staged(q2, k')
  {
  }

  /** Writing a key and hinting it to a target stages its bytes. */
  lemma WriteAndHint(md5: Bytes -> string, digest: Digests, keys: set<(string, string)>, es: seq<Event>,
                     x: (string, string), bytes: Bytes)
    returns (es': seq<Event>)
    requires HistoryOnKeys(keys, es) && AllSafe(md5, digest, es) && x in keys && md5(bytes) == digest(x.0, x.1, 1)
    ensures HistoryOnKeys(keys, es') && AllSafe(md5, digest, es')
    ensures var q, q', k := ApplyAll(es), ApplyAll(es'), HintKey("t", x.0, x.1, 1, PutHint);
            && q'.files == q.files[PayloadPath(k) := bytes] && q'.held == q.held
            && Staged(q', k) && forall k' | Staged(q, k') :: Staged(q', k')
  {
    var k := HintKey("t", x.0, x.1, 1, PutHint);
    var e, e' := Write(x.0, x.1, Object(1, bytes)), Hinted(k, md5(bytes), true, Copied, true, 0);
    HintAfterWrite(ApplyAll(es), x, bytes, md5(bytes));
    SafeNext(md5, digest, keys, es, e);
    SafeNext(md5, digest, keys, es + [e], e');
    es' := es + [e] + [e'];
  }

  /** Two keys with one payload name: hinting the second overwrites the payload of the first. */
  lemma AliasLosesPayload(md5: Bytes -> string, x: (string, string), y: (string, string), b0: Bytes, b1: Bytes,
                          keys: set<(string, string)>)
    requires x != y && x.0 == y.0 && Underscored(x.1) == Underscored(y.1) && md5(b0) != md5(b1)
    requires x in keys && y in keys
    ensures !SafeIsEnough(md5, keys)
  {
    var digest: Digests := (b: string, k: string, v: nat) => if (b, k) == x then md5(b0) else md5(b1);
    var es := WriteAndHint(md5, digest, keys, [], x, b0);
    var es' := WriteAndHint(md5, digest, keys, es, y, b1);
    var kx := HintKey("t", x.0, x.1, 1, PutHint);
    assert !PayloadKept(md5, digest, ApplyAll(es'), kx);
    assert es'[..|es'|] == es';
  }

  /** Staging safely is enough on every history exactly when no two keys of a bucket become equal
      once "/" is written "_". */
  lemma SafeIsEnoughIff(md5: Bytes -> string, keys: set<(string, string)>, b0: Bytes, b1: Bytes)
    requires md5(b0) != md5(b1)
    ensures NoPathAliases(keys) <==> SafeIsEnough(md5, keys)
  {
    if NoPathAliases(keys) {
      forall digest: Digests, es: seq<Event> | HistoryOnKeys(keys, es) && AllSafe(md5, digest, es)
        ensures KeptThroughout(md5, digest, es)
      {
        PayloadsKeptThroughoutIff(md5, digest, keys, es);
      }
    } else {
      var x, y :| x in keys && y in keys && x.0 == y.0 && Underscored(x.1) == Underscored(y.1) && x != y;
      AliasLosesPayload(md5, x, y, b0, b1, keys);
    }
  }

  // ---------------------------------------------------------------- the worker's pass

  function Pow2(n: nat): nat {
    if n == 0 then 1 else 2 * Pow2(n - 1)
  }

  lemma {:induction false} Pow2Monotone(a: nat, b: nat)
    requires a <= b
    ensures Pow2(a) <= Pow2(b)
  {
    if a < b {
      Pow2Monotone(a, b - 1);
    }
  }

  const MAX_BACKOFF := 300

  function Backoff(attempts: nat): nat {
    if Pow2(attempts) <= 300 then Pow2(attempts) else 300
  }

  /** Seconds until the next attempt: doubling from one second, capped at five minutes. */
  method NextHintDelay(attempts: nat) returns (delay: nat)
    ensures delay == Backoff(attempts)
  {
    delay := 1;
    for i := 0 to attempts
      invariant delay == Pow2(i) <= MAX_BACKOFF
    {
      delay := delay * 2;
      if delay > MAX_BACKOFF {
        Pow2Monotone(i + 1, attempts);
        delay := MAX_BACKOFF;
        break;
      }
    }
  }

  /** A hint as ListDueHints returned it, and whether its delivery then succeeds. */
  datatype DueHint = DueHint(key: HintKey, id: nat, staged: bool, attempts: nat, delivered: bool)

  function FinishOne(q: Queue, h: DueHint, now: int): Queue {
    Finish(q, h.key, h.id, h.staged, h.delivered, now + Backoff(h.attempts))
  }

  function FinishAll(q: Queue, due: seq<DueHint>, now: int): Queue {
    if due == [] then q else FinishOne(FinishAll(q, due[..|due| - 1], now), due[|due| - 1], now)
  }

  /** The hints are rows of the table, each listed once. */
  ghost predicate ListedFrom(q: Queue, due: seq<DueHint>) {
    && (forall i | 0 <= i < |due| :: due[i].key in q.table && q.table[due[i].key].id == due[i].id
                                     && q.table[due[i].key].attempts == due[i].attempts)
    && forall i, j | 0 <= i < j < |due| :: due[i].key != due[j].key
  }

  /** What a pass leaves of one listed hint: nothing once delivered, else the row with one more attempt
      and its next time put off. */
  ghost predicate Processed(q: Queue, q': Queue, h: DueHint, now: int)
    requires h.key in q.table
  {
    if h.delivered then h.key !in q'.table && TargetHolds(q', h.key)
    else h.key in q'.table && q'.table[h.key] ==
           q.table[h.key].(attempts := h.attempts + 1, nextAttempt := now + Backoff(h.attempts))
  }

  predicate SameRow(q: Queue, q': Queue, k: HintKey) {
    (k in q'.table <==> k in q.table) && (k in q.table ==> q'.table[k] == q.table[k])
  }

  /** A pass leaves the rows it was not given alone. */
  lemma {:induction false} PassKeepsOthers(q: Queue, due: seq<DueHint>, now: int, k: HintKey)
    requires forall i | 0 <= i < |due| :: due[i].key != k
    ensures SameRow(q, FinishAll(q, due, now), k)
  {
    if due != [] {
      var init := due[..|due| - 1];
      PassKeepsOthers(q, init, now, k);
      FinishOther(FinishAll(q, init, now), due[|due| - 1], now, k);
    }
  }

  /** A pass settles every hint it was given. */
  lemma {:induction false} PassProcesses(q: Queue, due: seq<DueHint>, now: int, i: nat)
    requires ListedFrom(q, due) && i < |due|
    ensures Processed(q, FinishAll(q, due, now), due[i], now)
  {
    var init, last := due[..|due| - 1], due[|due| - 1];
    assert forall j | 0 <= j < |init| :: init[j] == due[j];
    if i < |init| {
      PassProcesses(q, init, now, i);
      FinishOther(FinishAll(q, init, now), last, now, due[i].key);
    } else {
      PassKeepsOthers(q, init, now, last.key);
    }
  }

  lemma FinishOther(q: Queue, h: DueHint, now: int, k: HintKey)
    requires k != h.key
    ensures var q' := FinishOne(q, h, now);
            SameRow(q, q', k) && (TargetHolds(q, k) ==> TargetHolds(q', k))
  {
  }
}
