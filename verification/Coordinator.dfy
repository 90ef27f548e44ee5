/** The primary's coordinator (internal/replication/coordinator.go) with the fan-out of
    internal/replication/replicator.go and the delivery loop of
    internal/replication/hints_worker.go, as code that drives the protocol: every method only
    takes steps of `Protocol`, interleaved with anything the other nodes, reads and hint
    deliveries do meanwhile, so each object carries a behavior to which `ProtocolTheorems`
    applies. */
module Coordinators {
  import opened Orders
  import opened Quorum
  import opened Replica
  import opened Protocol
  import opened ProtocolInvariant
  import opened ProtocolTheorems

  datatype WriteResult = Success(version: nat) | LocalFailure | QuorumNotMet(written: nat) | NothingToDelete

  datatype ReadResult = Winner(state: ReplicaState) | ReadQuorumNotMet

  datatype GetResult = Found(version: nat, etag: ETag) | NotFound(deletedAt: nat) | Unavailable

  /** What goes wrong around a write: the local store, reopening the stored object, replies that do not
      come back, hints and the status that cannot be stored. */
  datatype Faults = Faults(local: bool, reopen: bool, lost: set<NodeId>, unstored: set<NodeId>, status: bool)

  /** The acknowledgements collected by a fan-out. */
  datatype WriteAckResult = WriteAckResult(acks: nat, success: seq<NodeId>, failures: seq<NodeId>)

  /** Each replica heard of so far is in exactly one of the two lists, once, and the counter is the
      number of successes. */
  ghost predicate Tallied(c: Cluster, acked: set<NodeId>, failed: set<NodeId>, r: WriteAckResult) {
    && acked !! failed && acked + failed <= c.nodes && c.primary in acked
    && NoDuplicates(r.success) && Elems(r.success) == acked - {c.primary}
    && NoDuplicates(r.failures) && Elems(r.failures) == failed
    && r.acks == |r.success| == |acked| - 1
  }

  lemma TallySuccess(c: Cluster, acked: set<NodeId>, failed: set<NodeId>, r: WriteAckResult, n: NodeId)
    requires Tallied(c, acked, failed, r) && n in c.nodes - acked - failed
    ensures Tallied(c, acked + {n}, failed, r.(success := r.success + [n], acks := r.acks + 1))
  {
    ElemsSnoc(r.success, n);
  }

  lemma TallyFailure(c: Cluster, acked: set<NodeId>, failed: set<NodeId>, r: WriteAckResult, n: NodeId)
    requires Tallied(c, acked, failed, r) && n in c.nodes - acked - failed
    ensures Tallied(c, acked, failed + {n}, r.(failures := r.failures + [n]))
  {
    ElemsSnoc(r.failures, n);
  }

  /** From step `i` on, replica `n` was counted once: as a success exactly when it had answered Ok at
      version `v` by then and the reply came back. */
  ghost predicate CountedAs(acts: seq<Action>, b: seq<State>, i: nat, v: nat, lost: set<NodeId>, n: NodeId, ok: bool) {
    exists k ::
      && i <= k < |acts| && k < |b|
      && acts[k] == (if ok then Ack(n) else Miss(n))
      && (ok <==> n !in lost && (n, v) in b[k].oks)
  }

  ghost predicate AllCounted(acts: seq<Action>, b: seq<State>, i: nat, v: nat, lost: set<NodeId>, acked: set<NodeId>, failed: set<NodeId>) {
    && (forall n | n in acked :: CountedAs(acts, b, i, v, lost, n, true))
    && (forall n | n in failed :: CountedAs(acts, b, i, v, lost, n, false))
  }

  lemma AllCountedStays(acts: seq<Action>, b: seq<State>, acts': seq<Action>, b': seq<State>, i: nat, v: nat,
                        lost: set<NodeId>, acked: set<NodeId>, failed: set<NodeId>)
    requires AllCounted(acts, b, i, v, lost, acked, failed) && acts <= acts' && b <= b'
    ensures AllCounted(acts', b', i, v, lost, acked, failed)
  {
    forall n, ok | CountedAs(acts, b, i, v, lost, n, ok)
      ensures CountedAs(acts', b', i, v, lost, n, ok)
    {
      var k :| && i <= k < |acts| && k < |b|
               && acts[k] == (if ok then Ack(n) else Miss(n)) && (ok <==> n !in lost && (n, v) in b[k].oks);
      assert acts'[k] == acts[k] && b'[k] == b[k];
    }
  }

  /** The replies to write `v` were counted at step `k`: all of them, each once, those counted as
      successes being those that came back Ok. */
  ghost predicate CountedAt(c: Cluster, acts: seq<Action>, b: seq<State>, i: nat, k: nat, v: nat, lost: set<NodeId>) {
    && i <= k < |acts| && |b| == |acts| + 1 && acts[k] == CountAcks
    && b[k].op.Writing? && b[k].op.version == v
    && b[k].op.acked !! b[k].op.failed && b[k].op.acked + b[k].op.failed == c.nodes && c.primary in b[k].op.acked
    && AllCounted(acts, b, i, v, lost, b[k].op.acked - {c.primary}, b[k].op.failed)
  }

  lemma CountedEarlier(c: Cluster, acts: seq<Action>, b: seq<State>, i: nat, j: nat, k: nat, v: nat, lost: set<NodeId>)
    requires i <= j && CountedAt(c, acts, b, j, k, v, lost)
    ensures CountedAt(c, acts, b, i, k, v, lost)
  {
    forall n, ok | CountedAs(acts, b, j, v, lost, n, ok)
      ensures CountedAs(acts, b, i, v, lost, n, ok)
    {
    }
  }

  /** The hint was in the queue at some moment from `i` on. */
  ghost predicate WasQueued(b: seq<State>, i: nat, x: Hint) {
    exists k :: i <= k < |b| && x in b[k].hints
  }

  /** Each of the nodes has the write, or a pending hint that brings it. */
  ghost predicate HeldOrHinted(s: State, ns: set<NodeId>, v: nat, content: Content) {
    forall n | n in ns :: n in s.nodes && (s.nodes[n].Version() >= v || HintFor(n, v, content) in s.hints)
  }

  lemma QueuedIsHeldOrHinted(c: Cluster, acts: seq<Action>, b: seq<State>, i: nat, ns: set<NodeId>, v: nat, content: Content)
    requires c.Valid() && Behavior(c, acts, b) && ns <= c.nodes
    requires forall n | n in ns :: WasQueued(b, i, HintFor(n, v, content))
    ensures HeldOrHinted(b[|acts|], ns, v, content)
  {
    forall n | n in ns
      ensures n in b[|acts|].nodes && (b[|acts|].nodes[n].Version() >= v || HintFor(n, v, content) in b[|acts|].hints)
    {
      var x := HintFor(n, v, content);
      var k :| i <= k < |b| && x in b[k].hints;
      RowRecorded(c, acts, b, |acts|, n);
      HintPendingOrHeld(c, acts, b, k, |acts|, x);
    }
  }

  lemma QueuedStays(b: seq<State>, b': seq<State>, i: nat)
    requires b <= b'
    ensures forall x | WasQueued(b, i, x) :: WasQueued(b', i, x)
  {
    forall x | WasQueued(b, i, x)
      ensures WasQueued(b', i, x)
    {
      var k :| i <= k < |b| && x in b[k].hints;
      assert x in b'[k].hints;
    }
  }

  lemma FailedWereQueued(b: seq<State>, i: nat, failures: seq<NodeId>, failed: set<NodeId>, unstored: set<NodeId>, v: nat, content: Content)
    requires Elems(failures) == failed
    requires forall n | n in failures && n !in unstored :: WasQueued(b, i, HintFor(n, v, content))
    ensures forall n | n in failed - unstored :: WasQueued(b, i, HintFor(n, v, content))
  {
    forall n | n in failed - unstored
      ensures WasQueued(b, i, HintFor(n, v, content))
    {
      assert n in Elems(failures);
    }
  }

  lemma BackgroundFrame(c: Cluster, s: State, a: Action)
    requires s.nodes.Keys == c.nodes && c.primary in c.nodes && Background(a)
    ensures var s' := Step(c, s, a);
            && s'.op == s.op && s'.history == s.history && s'.committed == s.committed
            && s'.replicated == s.replicated && s'.unqueued == s.unqueued
  {
    WorkerFrame(s, a);
    ReaderFrame(c, s, a);
  }

  /** No step but a read's own sampling changes what it has sampled. */
  lemma OthersKeepQueries(c: Cluster, s: State, a: Action, mine: set<nat>)
    requires s.nodes.Keys == c.nodes && c.primary in c.nodes && !(a.Sample? && a.id in mine)
    ensures var s' := Step(c, s, a);
            forall id | id in mine && id in s.queries :: id in s'.queries && s'.queries[id] == s.queries[id]
  {
    CountingFrame(c, s, a);
    QueueingFrame(s, a);
    HealerFrame(c, s, a);
    WorkerFrame(s, a);
  }

  class Coordinator {
    const c: Cluster
    var s: State
    ghost var acts: seq<Action>
    ghost var b: seq<State>

    ghost predicate Valid()
      reads this
    {
      c.Valid() && Behavior(c, acts, b) && s == b[|acts|]
    }

    constructor (c: Cluster)
      requires c.Valid()
      ensures Valid() && this.c == c && s == Init(c)
    {
      this.c := c;
      s := Init(c);
      acts, b := [], [Init(c)];
    }

    /** The behavior so far is extended, never rewritten. */
    twostate predicate Extends()
      reads this
    {
      old(acts) <= acts && old(b) <= b
    }

    /** One protocol step. */
    method Take(a: Action)
      requires Valid()
      modifies this
      ensures Valid() && Extends()
      ensures s == Step(c, old(s), a)
      ensures acts == old(acts) + [a] && b == old(b) + [s]
      ensures old(s).nodes.Keys == c.nodes
    {
      RowRecorded(c, acts, b, |acts|, c.primary);
      s := Step(c, s, a);
      acts, b := acts + [a], b + [s];
    }

    /** Any number of steps by replicas, the network, the hint worker and reads: what the primary's one
        write or healing pass runs against. */
    method Interfere()
      requires Valid()
      modifies this
      ensures Valid() && Extends()
      ensures s.op == old(s.op) && s.history == old(s.history) && s.committed == old(s.committed)
      ensures s.replicated == old(s.replicated) && s.unqueued == old(s.unqueued)
    {
      var more: nat := *;
      while more > 0
        invariant Valid() && Extends()
        invariant s.op == old(s.op) && s.history == old(s.history) && s.committed == old(s.committed)
        invariant s.replicated == old(s.replicated) && s.unqueued == old(s.unqueued)
      {
        var a: Action := *;
        if Background(a) {
          TakeBackground(a);
        }
        more := more - 1;
      }
    }

    method TakeBackground(a: Action)
      requires Valid() && Background(a)
      modifies this
      ensures Valid() && Extends()
      ensures s.op == old(s.op) && s.history == old(s.history) && s.committed == old(s.committed)
      ensures s.replicated == old(s.replicated) && s.unqueued == old(s.unqueued)
    {
      RowRecorded(c, acts, b, |acts|, c.primary);
      BackgroundFrame(c, s, a);
      Take(a);
    }

    /** Any number of steps of any kind by anyone, writes and healing passes included, other than the
        sampling of the reads `mine`: what reads and hint deliveries run against. */
    method InterfereFreely(mine: set<nat>)
      requires Valid()
      modifies this
      ensures Valid() && Extends()
      ensures forall id | id in mine && id in old(s.queries) :: id in s.queries && s.queries[id] == old(s.queries[id])
    {
      var more: nat := *;
      while more > 0
        invariant Valid() && Extends()
        invariant forall id | id in mine && id in old(s.queries) :: id in s.queries && s.queries[id] == old(s.queries[id])
      {
        var a: Action := *;
        if !(a.Sample? && a.id in mine) {
          RowRecorded(c, acts, b, |acts|, c.primary);
          OthersKeepQueries(c, s, a, mine);
          Take(a);
        }
        more := more - 1;
      }
    }

    // -------------------------------------------------------------- writes

    /** One goroutine of the fan-out ends: its reply is Ok and comes back, or it counts as a failure. */
    method AwaitReply(n: NodeId, lost: set<NodeId>) returns (ok: bool)
      requires Valid() && s.op.Writing? && n in c.nodes - s.op.acked - s.op.failed
      modifies this
      ensures Valid() && Extends() && acts == old(acts) + [if ok then Ack(n) else Miss(n)]
      ensures ok <==> n !in lost && (n, old(s.op.version)) in old(s.oks)
      ensures s == old(s).(op := if ok then Writing(old(s.op.version), old(s.op.acked) + {n}, old(s.op.failed))
                                 else Writing(old(s.op.version), old(s.op.acked), old(s.op.failed) + {n}))
    {
      ok := (n, s.op.version) in s.oks && n !in lost;
      if ok {
        Take(Ack(n));
      } else {
        Take(Miss(n));
      }
    }

    /** The next goroutine to end, whichever it is, adds itself to the result. */
    method AwaitNext(r: WriteAckResult, lost: set<NodeId>, ghost i: nat) returns (r': WriteAckResult)
      requires Valid() && s.op.Writing? && Tallied(c, s.op.acked, s.op.failed, r) && i <= |acts|
      requires c.nodes - s.op.acked - s.op.failed != {}
      requires AllCounted(acts, b, i, s.op.version, lost, s.op.acked - {c.primary}, s.op.failed)
      modifies this
      ensures Valid() && Extends()
      ensures s.op.Writing? && s.op.version == old(s.op.version) && Tallied(c, s.op.acked, s.op.failed, r')
      ensures c.nodes - s.op.acked - s.op.failed < old(c.nodes - s.op.acked - s.op.failed)
      ensures s.history == old(s.history) && s.committed == old(s.committed) && s.replicated == old(s.replicated)
      ensures AllCounted(acts, b, i, s.op.version, lost, s.op.acked - {c.primary}, s.op.failed)
    {
      Interfere();
      var n :| n in c.nodes - s.op.acked - s.op.failed;
      TallySuccess(c, s.op.acked, s.op.failed, r, n);
      TallyFailure(c, s.op.acked, s.op.failed, r, n);
      ghost var k, v := |acts|, s.op.version;
      ghost var acked, failed := s.op.acked - {c.primary}, s.op.failed;
      var ok := AwaitReply(n, lost);
      AllCountedStays(old(acts), old(b), acts, b, i, v, lost, acked, failed);
      assert acts[k] == (if ok then Ack(n) else Miss(n)) && (ok <==> n !in lost && (n, v) in b[k].oks);
      assert CountedAs(acts, b, i, v, lost, n, ok);
      if ok {
        r' := r.(success := r.success + [n], acks := r.acks + 1);
      } else {
        r' := r.(failures := r.failures + [n]);
      }
    }

    /** The fan-out of a write, under every schedule of its goroutines: a replica is counted as a success
        exactly when it has answered Ok by the time its goroutine ends and the reply comes back. */
    method FanOut(lost: set<NodeId>) returns (r: WriteAckResult)
      requires Valid() && s.op.Writing? && s.op.acked == {c.primary} && s.op.failed == {}
      modifies this
      ensures Valid() && Extends()
      ensures s.op.Writing? && s.op.version == old(s.op.version) && Tallied(c, s.op.acked, s.op.failed, r)
      ensures s.op.acked + s.op.failed == c.nodes
      ensures s.history == old(s.history) && s.committed == old(s.committed) && s.replicated == old(s.replicated)
      ensures AllCounted(acts, b, |old(acts)|, s.op.version, lost, s.op.acked - {c.primary}, s.op.failed)
    {
      r := WriteAckResult(0, [], []);
      while c.nodes - s.op.acked - s.op.failed != {}
        invariant Valid() && Extends() && |old(acts)| <= |acts|
        invariant s.op.Writing? && s.op.version == old(s.op.version) && Tallied(c, s.op.acked, s.op.failed, r)
        invariant s.history == old(s.history) && s.committed == old(s.committed) && s.replicated == old(s.replicated)
        invariant AllCounted(acts, b, |old(acts)|, s.op.version, lost, s.op.acked - {c.primary}, s.op.failed)
        decreases c.nodes - s.op.acked - s.op.failed
      {
        r := AwaitNext(r, lost, |old(acts)|);
      }
      assert c.nodes - (s.op.acked + s.op.failed) == {};
      NothingLeft(c.nodes, s.op.acked + s.op.failed);
    }

    /** The local write: the next version, on the primary's own row, before any replica is asked; then the
        request is on its way to every replica. */
    method WriteLocally(content: Content) returns (v: nat)
      requires Valid() && s.op.Idle?
      requires content.Tombstone? ==> c.primary in s.nodes && s.nodes[c.primary].Row?
      modifies this
      ensures Valid() && Extends() && c.primary in old(s).nodes && v == NextVersion(old(s).nodes[c.primary])
      ensures s.op == Writing(v, {c.primary}, {}) && s.history == old(s.history)[v := content]
      ensures s.committed == old(s.committed) && v !in s.committed && v !in old(s.history)
      ensures c.primary in s.nodes && s.nodes[c.primary] == Row(v, content) && s.replicated == content.Tombstone?
      ensures forall n | n in c.nodes && n != c.primary :: (n, Message(v, content)) in s.net
    {
      BehaviorInv(c, acts, b, |acts|);
      v := NextVersion(s.nodes[c.primary]);
      Take(BeginWrite(content));
    }

    method CountReplies(acks: int) returns (met: bool)
      requires Valid() && s.op.Writing? && c.nodes <= s.op.acked + s.op.failed && acks == |s.op.acked|
      modifies this
      ensures Valid() && Extends() && acts == old(acts) + [CountAcks]
      ensures met == c.quorum.WriteSatisfied(acks)
      ensures s == old(s).(op := if met then Queueing(old(s.op.version), old(s.op.acked), old(s.op.failed)) else Idle)
    {
      met := c.quorum.WriteSatisfied(acks);
      Take(CountAcks);
    }

    method EnqueueHint(n: NodeId, unstored: set<NodeId>)
      requires Valid() && s.op.Queueing? && n in s.op.todo
      modifies this
      ensures Valid() && Extends()
      ensures s.op == Queueing(old(s.op.version), old(s.op.acked), old(s.op.todo) - {n})
      ensures s.history == old(s.history) && s.committed == old(s.committed) && s.replicated == old(s.replicated)
      ensures old(s.op.version) in s.history
      ensures n !in unstored ==> HintFor(n, old(s.op.version), s.history[old(s.op.version)]) in s.hints
      ensures n in unstored ==> s.hints == old(s.hints)
    {
      BehaviorInv(c, acts, b, |acts|);
      Take(Enqueue(n, n !in unstored));
    }

    /** A durable hint for each replica that missed the write, save those that cannot be stored. */
    method EnqueueHints(failures: seq<NodeId>, unstored: set<NodeId>)
      requires Valid() && s.op.Queueing? && NoDuplicates(failures) && Elems(failures) == s.op.todo && s.op.version in s.history
      modifies this
      ensures Valid() && Extends()
      ensures s.op == Queueing(old(s.op.version), old(s.op.acked), {})
      ensures s.history == old(s.history) && s.committed == old(s.committed) && s.replicated == old(s.replicated)
      ensures forall n | n in failures && n !in unstored ::
                WasQueued(b, |old(acts)|, HintFor(n, old(s.op.version), s.history[old(s.op.version)]))
    {
      ghost var v := s.op.version;
      for i := 0 to |failures|
        invariant Valid() && Extends() && |old(acts)| <= |acts|
        invariant s.op == Queueing(v, old(s.op.acked), Elems(failures[i..]))
        invariant s.history == old(s.history) && s.committed == old(s.committed) && s.replicated == old(s.replicated)
        invariant forall j | 0 <= j < i && failures[j] !in unstored :: WasQueued(b, |old(acts)|, HintFor(failures[j], v, s.history[v]))
      {
        ghost var before := b;
        EnqueueNext(failures, i, unstored);
        QueuedStays(before, b, |old(acts)|);
        assert s == b[|acts|];
      }
      assert failures[|failures|..] == [];
    }

    method EnqueueNext(failures: seq<NodeId>, i: nat, unstored: set<NodeId>)
      requires Valid() && s.op.Queueing? && NoDuplicates(failures) && i < |failures| && Elems(failures[i..]) == s.op.todo
      modifies this
      ensures Valid() && Extends() && |old(acts)| <= |acts|
      ensures s.op == Queueing(old(s.op.version), old(s.op.acked), Elems(failures[i + 1..]))
      ensures s.history == old(s.history) && s.committed == old(s.committed) && s.replicated == old(s.replicated)
      ensures old(s.op.version) in s.history
      ensures failures[i] !in unstored ==> HintFor(failures[i], old(s.op.version), s.history[old(s.op.version)]) in s.hints
    {
      Interfere();
      assert failures[i..] == [failures[i]] + failures[i + 1..];
      assert failures[i] !in Elems(failures[i + 1..]);
      EnqueueHint(failures[i], unstored);
      assert s.op.todo == Elems(failures[i + 1..]);
    }

    method Commit(statusFails: bool)
      requires Valid() && s.op.Queueing? && s.op.todo == {}
      modifies this
      ensures Valid() && Extends() && s.op.Idle?
      ensures s.history == old(s.history) && s.committed == old(s.committed)[old(s.op.version) := old(s.op.acked)]
      ensures s.replicated == (old(s.replicated) || !statusFails)
    {
      Take(ReportSuccess(!statusFails));
    }

    method Abort()
      requires Valid()
      modifies this
      ensures Valid() && Extends() && s == old(s).(op := Idle)
    {
      Take(Abandon);
    }

    /** The replicated part of a write that is already on the primary: it succeeds exactly when, counting
        the primary, at least W nodes answered Ok; then every other node has the write or its hint. */
    method Replicate(v: nat, f: Faults) returns (result: WriteResult, ghost k: nat)
      requires Valid() && s.op == Writing(v, {c.primary}, {}) && v !in s.committed && v in s.history
      modifies this
      ensures Valid() && Extends() && s.op.Idle? && s.history == old(s.history)
      ensures result == Success(v) || result == QuorumNotMet(v)
      ensures CountedAt(c, acts, b, |old(acts)|, k, v, f.lost)
      ensures result.Success? <==> c.quorum.WriteSatisfied(|b[k].op.acked|)
      ensures result.Success? ==> s.committed == old(s.committed)[v := b[k].op.acked]
      ensures result.Success? ==> HeldOrHinted(s, b[k].op.failed - f.unstored, v, s.history[v])
      ensures result.Success? ==> s.replicated == (old(s.replicated) || !f.status)
      ensures result.QuorumNotMet? ==> s.committed == old(s.committed) && s.replicated == old(s.replicated)
    {
      var r := FanOut(f.lost);
      k := |acts|;
      ghost var acked, failed := s.op.acked, s.op.failed;
      ghost var acts1, b1 := acts, b;
      var acks := 1 + r.acks;
      var met := CountReplies(acks);
      if met {
        QueueAndCommit(r.failures, f);
      }
      AllCountedStays(acts1, b1, acts, b, |old(acts)|, v, f.lost, acked - {c.primary}, failed);
      assert acts[k] == CountAcks && b[k] == b1[k];
      result := if met then Success(v) else QuorumNotMet(v);
    }

    /** The quorum is met: hints for the failed replicas, then the status. */
    method QueueAndCommit(failures: seq<NodeId>, f: Faults)
      requires Valid() && s.op.Queueing? && NoDuplicates(failures) && Elems(failures) == s.op.todo && s.op.todo <= c.nodes
      requires s.op.version in s.history
      modifies this
      ensures Valid() && Extends() && s.op.Idle? && s.history == old(s.history)
      ensures s.committed == old(s.committed)[old(s.op.version) := old(s.op.acked)]
      ensures s.replicated == (old(s.replicated) || !f.status)
      ensures HeldOrHinted(s, old(s.op.todo) - f.unstored, old(s.op.version), s.history[old(s.op.version)])
    {
      ghost var i, v, failed := |acts|, s.op.version, s.op.todo;
      EnqueueHints(failures, f.unstored);
      FailedWereQueued(b, i, failures, failed, f.unstored, v, s.history[v]);
      ghost var b2 := b;
      Interfere();
      Commit(f.status);
      QueuedStays(b2, b, i);
      QueuedIsHeldOrHinted(c, acts, b, i, failed - f.unstored, v, s.history[v]);
    }

    /** PUT: it assigns the next version, sends it to every replica and succeeds exactly when W nodes,
        the primary among them, have acknowledged it; after a missed quorum the version may stand on some
        nodes but is never reported. */
    method PutObject(etag: ETag, f: Faults) returns (result: WriteResult, ghost k: nat)
      requires Valid() && s.op.Idle?
      modifies this
      ensures Valid() && Extends() && s.op.Idle? && c.primary in old(s).nodes
      ensures result.LocalFailure? <==> f.local || f.reopen
      ensures f.local ==> s == old(s)
      ensures !f.local ==> s.history == old(s.history)[NextVersion(old(s).nodes[c.primary]) := Live(etag)]
      ensures !result.LocalFailure? ==> WriteOutcome(old(s), |old(acts)|, result, k, Live(etag), f)
      ensures result.Success? ==> s.replicated == !f.status
      ensures !result.Success? ==> s.committed == old(s.committed)
    {
      RowRecorded(c, acts, b, |acts|, c.primary);
      k := 0;
      if f.local {
        return LocalFailure, k;
      }
      if f.reopen {
        var v := WriteLocally(Live(etag));
        Abort();
        return LocalFailure, k;
      }
      result, k := WriteAndReplicate(Live(etag), f);
    }

    /** The write on the primary, then on the replicas. */
    method WriteAndReplicate(content: Content, f: Faults) returns (result: WriteResult, ghost k: nat)
      requires Valid() && s.op.Idle?
      requires content.Tombstone? ==> c.primary in s.nodes && s.nodes[c.primary].Row?
      modifies this
      ensures Valid() && Extends() && s.op.Idle? && c.primary in old(s).nodes
      ensures WriteOutcome(old(s), |old(acts)|, result, k, content, f)
      ensures s.replicated == (content.Tombstone? || (result.Success? && !f.status))
    {
      var v := WriteLocally(content);
      ghost var j := |acts|;
      result, k := Replicate(v, f);
      NetStays(j, v, content);
      CountedEarlier(c, acts, b, |old(acts)|, j, k, v, f.lost);
    }

    /** What was sent stays sent. */
    lemma NetStays(j: nat, v: nat, content: Content)
      requires Valid() && j <= |acts| && forall n | n in c.nodes && n != c.primary :: (n, Message(v, content)) in b[j].net
      ensures forall n | n in c.nodes && n != c.primary :: (n, Message(v, content)) in s.net
    {
      BehaviorGrows(c, acts, b, j, |acts|);
    }

    /** How a write that got past the primary ended. */
    ghost predicate WriteOutcome(s0: State, i: nat, result: WriteResult, k: nat, content: Content, f: Faults)
      requires c.primary in s0.nodes
      reads this
    {
      var v := NextVersion(s0.nodes[c.primary]);
      && s.history == s0.history[v := content]
      && (forall n | n in c.nodes && n != c.primary :: (n, Message(v, content)) in s.net)
      && CountedAt(c, acts, b, i, k, v, f.lost)
      && result == (if c.quorum.WriteSatisfied(|b[k].op.acked|) then Success(v) else QuorumNotMet(v))
      && s.committed == (if result.Success? then s0.committed[v := b[k].op.acked] else s0.committed)
      && (result.Success? ==> HeldOrHinted(s, b[k].op.failed - f.unstored, v, content))
    }

    /** DELETE: as a PUT of a tombstone; deleting a key the primary never held does nothing. */
    method DeleteObject(f: Faults) returns (result: WriteResult, ghost k: nat)
      requires Valid() && s.op.Idle?
      modifies this
      ensures Valid() && Extends() && s.op.Idle? && c.primary in old(s).nodes
      ensures result.NothingToDelete? <==> old(s).nodes[c.primary].Absent?
      ensures result.LocalFailure? <==> old(s).nodes[c.primary].Row? && f.local
      ensures result.NothingToDelete? || result.LocalFailure? ==> s == old(s)
      ensures result.Success? || result.QuorumNotMet? ==> WriteOutcome(old(s), |old(acts)|, result, k, Tombstone, f)
    {
      RowRecorded(c, acts, b, |acts|, c.primary);
      k := 0;
      if s.nodes[c.primary].Absent? {
        return NothingToDelete, k;
      }
      if f.local {
        return LocalFailure, k;
      }
      result, k := WriteAndReplicate(Tombstone, f);
    }

    // -------------------------------------------------------------- quorum reads

    method StartRead(id: nat)
      requires Valid() && id !in s.queries
      modifies this
      ensures Valid() && Extends() && acts == old(acts) + [BeginRead(id)]
      ensures id in s.queries && s.queries[id] == Read(old(s.committed).Keys, map[])
    {
      Take(BeginRead(id));
    }

    /** One node is asked; without an answer it counts as not found. */
    method PollNode(id: nat, n: NodeId, silent: set<NodeId>) returns (state: ReplicaState)
      requires Valid() && id in s.queries && n in c.nodes && n !in s.queries[id].sampled
      modifies this
      ensures Valid() && Extends() && id in s.queries && s.queries[id].floor == old(s.queries[id].floor)
      ensures s.queries[id].sampled.Keys == old(s.queries[id].sampled.Keys) + ({n} - silent)
      ensures forall m | m in old(s.queries[id].sampled) :: s.queries[id].sampled[m] == old(s.queries[id].sampled[m])
      ensures state == Report(n, if n in s.queries[id].sampled then s.queries[id].sampled[n] else Absent)
    {
      InterfereFreely({id});
      if n !in silent {
        Take(Sample(id, n));
        state := Report(n, s.queries[id].sampled[n]);
      } else {
        state := Report(n, Absent);
      }
    }

    /** The concurrent lookups of the other nodes: they end in any order, each answer goes to its
        node's place. */
    method FetchReplicaStates(id: nat, remotes: seq<NodeId>, silent: set<NodeId>) returns (states: seq<ReplicaState>)
      requires Valid() && id in s.queries && Elems(remotes) <= c.nodes && Elems(remotes) !! s.queries[id].sampled.Keys
      modifies this
      ensures Valid() && Extends() && id in s.queries
      ensures s.queries[id].sampled.Keys == old(s.queries[id].sampled.Keys) + (Elems(remotes) - silent)
      ensures Keeps(old(s.queries[id].sampled), s.queries[id].sampled)
      ensures states == PolledStates(remotes, s.queries[id].sampled)
    {
      var pending := set n | n in remotes;
      var answers: map<NodeId, ReplicaState> := map[];
      while pending != {}
        invariant Valid() && Extends() && id in s.queries && pending <= Elems(remotes)
        invariant pending !! s.queries[id].sampled.Keys
        invariant s.queries[id].sampled.Keys == old(s.queries[id].sampled.Keys) + (Elems(remotes) - pending - silent)
        invariant Keeps(old(s.queries[id].sampled), s.queries[id].sampled)
        invariant Answered(answers, Elems(remotes) - pending, s.queries[id].sampled)
        decreases pending
      {
        var n :| n in pending;
        ghost var before := s.queries[id].sampled;
        var state := PollNode(id, n, silent);
        AnsweredNext(answers, Elems(remotes) - pending, before, s.queries[id].sampled, n, state);
        assert Elems(remotes) - (pending - {n}) == Elems(remotes) - pending + {n};
        answers := answers[n := state];
        pending := pending - {n};
      }
      assert forall i | 0 <= i < |remotes| :: remotes[i] in Elems(remotes) - pending;
      states := seq(|remotes|, i requires 0 <= i < |remotes| => answers[remotes[i]]);
    }

    /** The loop over the replica set: the local lookup is made, the other nodes are set aside. */
    method LookUpLocally(id: nat, local: NodeId, nodes: seq<NodeId>, silent: set<NodeId>) returns (states: seq<ReplicaState>, remotes: seq<NodeId>)
      requires Valid() && id in s.queries && s.queries[id].sampled == map[]
      requires NoDuplicates(nodes) && Elems(nodes) <= c.nodes
      modifies this
      ensures Valid() && Extends() && id in s.queries
      ensures s.queries[id].sampled.Keys == Elems(OnlyLocal(nodes, local)) - silent
      ensures remotes == Others(nodes, local)
      ensures states == PolledStates(OnlyLocal(nodes, local), s.queries[id].sampled)
    {
      states, remotes := [], [];
      ghost var asked := false;
      for i := 0 to |nodes|
        invariant Valid() && Extends() && id in s.queries
        invariant remotes == Others(nodes[..i], local) && (asked <==> local in nodes[..i])
        invariant OwnState(states, s.queries[id].sampled, local, asked, silent)
      {
        assert nodes[i] in Elems(nodes);
        assert nodes[..i + 1][..i] == nodes[..i] && nodes[..i + 1] == nodes[..i] + [nodes[i]];
        if nodes[i] == local {
          assert local !in nodes[..i];
          states := PollOwn(id, local, silent);
          asked := true;
        } else {
          remotes := remotes + [nodes[i]];
        }
      }
      assert nodes[..|nodes|] == nodes;
      OwnIsPolled(states, s.queries[id].sampled, nodes, local, silent);
    }

    method PollOwn(id: nat, local: NodeId, silent: set<NodeId>) returns (states: seq<ReplicaState>)
      requires Valid() && id in s.queries && s.queries[id].sampled == map[] && local in c.nodes
      modifies this
      ensures Valid() && Extends() && id in s.queries && OwnState(states, s.queries[id].sampled, local, true, silent)
    {
      var state := PollNode(id, local, silent);
      states := [state];
    }

    /** The local lookup comes first in the list, the others follow in the order of the replica set. */
    method CollectReplicaStates(id: nat, local: NodeId, nodes: seq<NodeId>, silent: set<NodeId>) returns (states: seq<ReplicaState>)
      requires Valid() && id in s.queries && s.queries[id].sampled == map[]
      requires NoDuplicates(nodes) && Elems(nodes) <= c.nodes
      modifies this
      ensures Valid() && Extends() && id in s.queries
      ensures states == PolledStates(LocalFirst(nodes, local), s.queries[id].sampled)
      ensures s.queries[id].sampled.Keys == Elems(nodes) - silent
    {
      var remotes: seq<NodeId>;
      states, remotes := LookUpLocally(id, local, nodes, silent);
      OthersElems(nodes, local);
      ghost var own := s.queries[id].sampled;
      var remoteStates := FetchReplicaStates(id, remotes, silent);
      CollectedStates(nodes, local, own, s.queries[id].sampled);
      states := states + remoteStates;
    }

    /** The quorum read: at least R found states, of which the newest wins.  The winner is at least
        as new as every write reported successful before the call, and is exactly what the primary
        wrote at its version. */
    method QuorumRead(id: nat, local: NodeId, nodes: seq<NodeId>, silent: set<NodeId>)
      returns (result: ReadResult, states: seq<ReplicaState>)
      requires Valid() && id !in s.queries
      requires NoDuplicates(nodes) && Elems(nodes) <= c.nodes
      modifies this
      ensures Valid() && Extends() && id in s.queries
      ensures states == PolledStates(LocalFirst(nodes, local), s.queries[id].sampled)
      ensures s.queries[id].sampled.Keys == Elems(nodes) - silent
      ensures result.Winner? <==> c.quorum.ReadSatisfied(|FoundStates(states)|)
      ensures result.Winner? ==> IsWinner(FoundStates(states), result.state)
      ensures result.Winner? ==>
        var w := result.state;
        && w.version in s.history && w == Report(w.node, Row(w.version, s.history[w.version]))
        && forall v | v in old(s.committed) :: w.version >= v
    {
      StartRead(id);
      ghost var i0 := |old(acts)|;
      assert acts[i0] == BeginRead(id) && old(b)[i0] == old(s);
      states := CollectReplicaStates(id, local, nodes, silent);
      ghost var order := LocalFirst(nodes, local);
      LocalFirstDistinct(nodes, local);
      var found := FilterFound(states);
      if !c.quorum.ReadSatisfied(|found|) {
        return ReadQuorumNotMet, states;
      }
      assert found[0] in found;
      var w, ok := PickNewestState(found);
      if !ok {
        return ReadQuorumNotMet, states;
      }
      assert acts[i0] == BeginRead(id) && b[i0] == old(s);
      ReadIsRecorded(c, acts, b, |acts|, id, order, w);
      forall v | v in old(s.committed)
        ensures w.version >= v
      {
        QuorumReadSafety(c, acts, b, i0, |acts|, id, v, order, w);
      }
      return Winner(w), states;
    }

    /** GET and HEAD: unavailable exactly when fewer than R of the nodes that answer have the key; else
        the winner, a tombstone as not found, and a live one with a repair for each stale node. */
    method GetObject(id: nat, local: NodeId, nodes: seq<NodeId>, silent: set<NodeId>, unstored: set<NodeId>)
      returns (result: GetResult, states: seq<ReplicaState>)
      requires Valid() && id !in s.queries
      requires NoDuplicates(nodes) && Elems(nodes) <= c.nodes
      modifies this
      ensures Valid() && Extends() && id in s.queries && s.queries[id].sampled.Keys == Elems(nodes) - silent
      ensures states == PolledStates(LocalFirst(nodes, local), s.queries[id].sampled)
      ensures result.Unavailable? <==> !c.quorum.ReadSatisfied(|FoundStates(states)|)
      ensures !result.Unavailable? ==>
                exists w :: && IsWinner(FoundStates(states), w) && w.version >= 0
                            && result == (if w.deleted then NotFound(w.version) else Found(w.version, w.etag))
                            && (!w.deleted ==> Repairs(w, states, unstored) <= s.hints)
      ensures match result
              case Found(v, etag) =>
                v in s.history && s.history[v] == Live(etag) && forall v' | v' in old(s.committed) :: v >= v'
              case NotFound(v) =>
                v in s.history && s.history[v] == Tombstone && forall v' | v' in old(s.committed) :: v >= v'
              case Unavailable => true
    {
      var r: ReadResult;
      r, states := QuorumRead(id, local, nodes, silent);
      match r
      case ReadQuorumNotMet => return Unavailable, states;
      case Winner(w) =>
        if w.deleted {
          return NotFound(w.version), states;
        }
        ghost var k := |acts|;
        InterfereFreely({id});
        BehaviorGrows(c, acts, b, k, |acts|);
        ScheduleReadRepair(id, w, states, LocalFirst(nodes, local), unstored);
        return Found(w.version, w.etag), states;
    }

    method QueueRepair(id: nat, w: ReplicaState, n: NodeId)
      requires Valid() && id in s.queries && w.found && !w.deleted && w.version >= 0
      requires w.node in s.queries[id].sampled && w == Report(w.node, s.queries[id].sampled[w.node])
      requires n in s.queries[id].sampled && NeedsRepair(w, Report(n, s.queries[id].sampled[n]))
      modifies this
      ensures Valid() && Extends() && s == WithHints(old(s), {RepairFor(n, w)})
    {
      Take(ReadRepair(id, n, w));
    }

    /** One state of the loop. */
    method RepairOne(id: nat, w: ReplicaState, st: ReplicaState, unstored: set<NodeId>)
      requires Valid() && id in s.queries && Winning(s.queries[id].sampled, w) && Sampled(s.queries[id].sampled, st)
      modifies this
      ensures Valid() && Extends() && s == WithHints(old(s), Repairs(w, [st], unstored))
    {
      RepairsOfOne(w, st, unstored);
      if !st.found || st.node == w.node {
        return;
      }
      if st.version >= w.version && st.etag == w.etag && st.deleted == w.deleted {
        return;
      }
      if st.node !in unstored {
        QueueRepair(id, w, st.node);
      }
    }

    method RepairAll(id: nat, w: ReplicaState, states: seq<ReplicaState>, unstored: set<NodeId>)
      requires Valid() && id in s.queries && Winning(s.queries[id].sampled, w)
      requires forall i | 0 <= i < |states| :: Sampled(s.queries[id].sampled, states[i])
      modifies this
      ensures Valid() && Extends() && s == WithHints(old(s), Repairs(w, states, unstored))
    {
      ghost var start := s;
      for i := 0 to |states|
        invariant Valid() && Extends() && s == WithHints(start, Repairs(w, states[..i], unstored))
      {
        RepairOne(id, w, states[i], unstored);
        MoreRepairs(start, w, states, i, unstored);
      }
      assert states[..|states|] == states;
    }

    /** Read repair: a hint with the winner's version and ETag for each answering node that is stale,
        save those whose hint cannot be stored, and for no other. */
    method ScheduleReadRepair(id: nat, w: ReplicaState, states: seq<ReplicaState>, ghost order: seq<NodeId>, unstored: set<NodeId>)
      requires Valid() && id in s.queries && states == PolledStates(order, s.queries[id].sampled)
      requires IsWinner(FoundStates(states), w) && !w.deleted && w.version >= 0
      modifies this
      ensures Valid() && Extends() && s == WithHints(old(s), Repairs(w, states, unstored))
    {
      ghost var n := FoundIsSampled(order, s.queries[id].sampled, w);
      PolledAreSampled(order, s.queries[id].sampled);
      RepairAll(id, w, states, unstored);
    }

    // -------------------------------------------------------------- hint delivery

    /** Delivering one pending hint: it is dropped only on an Ok, and then its target holds it. */
    method DeliverHint(x: Hint, lost: set<Hint>) returns (delivered: bool)
      requires Valid()
      modifies this
      ensures Valid() && Extends()
      ensures acts[|old(acts)|..] != [] && acts[|old(acts)|] == SendHint(x)
      ensures x in old(s.hints) ==> (x.target, x.Request()) in s.net
      ensures delivered <==> x !in lost && (x.target, x.version) in s.oks
      ensures delivered ==> x !in s.hints && x.target in s.nodes && s.nodes[x.target].Version() >= x.version
      ensures x in old(s.hints) ==> x in s.hints || (x.target in s.nodes && s.nodes[x.target].Version() >= x.version)
    {
      ghost var i0 := |acts|;
      Take(SendHint(x));
      ghost var sent := |acts|;
      InterfereFreely({});
      BehaviorGrows(c, acts, b, sent, |acts|);
      delivered := x !in lost && (x.target, x.version) in s.oks;
      if delivered {
        OkStillHeld(c, acts, b, |acts|, |acts|, x.target, x.version);
        Take(RetireHint(x));
      }
      if x in old(s.hints) {
        HintPendingOrHeld(c, acts, b, i0, |acts|, x);
      }
    }

    /** One pass of the hint worker: every due hint is sent; one whose target has answered Ok, and whose
        reply comes back, leaves the queue, and its target holds it; any other that was pending stays
        pending until its target does. */
    method ProcessDue(due: seq<Hint>, lost: set<Hint>) returns (delivered: set<Hint>)
      requires Valid() && NoDuplicates(due)
      modifies this
      ensures Valid() && Extends() && |old(acts)| <= |acts|
      ensures forall x | x in due :: Tried(acts, b, |old(acts)|, x, lost, x in delivered)
      ensures forall x | x in delivered :: x in due && x.target in s.nodes && s.nodes[x.target].Version() >= x.version
      ensures forall x | x in delivered :: LeftQueue(b, |old(acts)|, |acts|, x)
      ensures forall x | x in old(s.hints) :: x in s.hints || (x.target in s.nodes && s.nodes[x.target].Version() >= x.version)
    {
      delivered := {};
      ghost var i0 := |acts|;
      for i := 0 to |due|
        invariant Valid() && Extends() && i0 <= |acts|
        invariant forall x | x in delivered :: x in due[..i] && x.target in s.nodes && s.nodes[x.target].Version() >= x.version
        invariant forall x | x in delivered :: LeftQueue(b, i0, |acts|, x)
        invariant forall j | 0 <= j < i :: Tried(acts, b, i0, due[j], lost, due[j] in delivered)
      {
        ghost var k, before, done := |acts|, b, acts;
        var ok := DeliverHint(due[i], lost);
        BehaviorGrows(c, acts, b, k, |acts|);
        LeftQueueStays(before, b, i0, k, |acts|);
        TriedStays(done, before, acts, b, i0, lost);
        assert acts[k] == SendHint(due[i]) && b[|acts|] == s;
        assert Tried(acts, b, i0, due[i], lost, ok);
        assert due[i] !in due[..i] && due[..i + 1] == due[..i] + [due[i]];
        if ok {
          assert LeftQueue(b, i0, |acts|, due[i]);
          delivered := delivered + {due[i]};
        }
      }
      assert due[..|due|] == due;
      forall x | x in old(s.hints)
        ensures x in s.hints || (x.target in s.nodes && s.nodes[x.target].Version() >= x.version)
      {
        HintPendingOrHeld(c, acts, b, i0, |acts|, x);
      }
    }

    // -------------------------------------------------------------- healing

    method PollForHealing(n: NodeId, silent: set<NodeId>) returns (state: ReplicaState)
      requires Valid() && s.op.Healing? && n in c.nodes && n !in s.op.polled
      modifies this
      ensures Valid() && Extends() && |old(acts)| <= |acts|
      ensures s.op.Healing? && n in s.op.polled && s.op == Healing(old(s.op.polled)[n := s.op.polled[n]])
      ensures state == Report(n, s.op.polled[n])
      ensures s.history == old(s.history) && s.replicated == old(s.replicated)
      ensures PolledAs(acts, b, |old(acts)|, n, s.op.polled[n], silent)
    {
      Interfere();
      ghost var k := |acts|;
      Take(Poll(n, n !in silent));
      assert acts[k] == Poll(n, n !in silent) && b[k].nodes.Keys == c.nodes;
      state := Report(n, s.op.polled[n]);
    }

    /** The lookups of a healing pass, which end in any order. */
    method PollAll(order: seq<NodeId>, silent: set<NodeId>) returns (states: seq<ReplicaState>)
      requires Valid() && s.op == Healing(map[]) && Elems(order) == c.nodes
      modifies this
      ensures Valid() && Extends() && |old(acts)| <= |acts|
      ensures s.op.Healing? && s.op.polled.Keys == c.nodes && states == PolledStates(order, s.op.polled)
      ensures s.history == old(s.history) && s.replicated == old(s.replicated)
      ensures forall n | n in c.nodes :: PolledAs(acts, b, |old(acts)|, n, s.op.polled[n], silent)
    {
      while c.nodes - s.op.polled.Keys != {}
        invariant Valid() && Extends() && |old(acts)| <= |acts| && s.op.Healing? && s.op.polled.Keys <= c.nodes
        invariant s.history == old(s.history) && s.replicated == old(s.replicated)
        invariant forall n | n in s.op.polled :: PolledAs(acts, b, |old(acts)|, n, s.op.polled[n], silent)
        decreases c.nodes - s.op.polled.Keys
      {
        var n :| n in c.nodes - s.op.polled.Keys;
        ghost var k, done, before := |acts|, acts, b;
        var state := PollForHealing(n, silent);
        PolledAsStays(done, before, acts, b, |old(acts)|, k, silent);
      }
      NothingLeft(c.nodes, s.op.polled.Keys);
      states := PolledStates(order, s.op.polled);
    }

    /** The end of a healing pass: exactly the repairs of the stale answering nodes are queued, and the row
        is marked exactly when all states are in sync and the status can be stored. */
    method FinishHealing(winning: ReplicaState, states: seq<ReplicaState>, order: seq<NodeId>, unstored: set<NodeId>, statusFails: bool)
      returns (marked: bool)
      requires Valid() && s.op.Healing? && s.op.polled.Keys == c.nodes && Elems(order) == c.nodes
      requires c.primary in s.nodes && winning == Report(c.primary, s.nodes[c.primary])
      requires states == PolledStates(order, s.op.polled)
      modifies this
      ensures Valid() && Extends() && s.op.Idle? && |acts| == |old(acts)| + 1
      ensures s.replicated == (old(s.replicated) || marked)
      ensures marked <==> !statusFails && forall st | st in states :: InSyncWith(winning, st)
      ensures s.history == old(s.history) && s.nodes == old(s.nodes)
      ensures winning.version >= 0 && s.hints == old(s.hints) + Repairs(winning, states, unstored)
    {
      var inSync := ReplicasInSync(winning, states);
      HealEffect(c, s, order, winning, unstored, !statusFails);
      EndHealing(unstored, !statusFails);
      marked := inSync && !statusFails;
    }

    method EndHealing(unstored: set<NodeId>, statusStored: bool)
      requires Valid() && s.op.Healing? && s.op.polled.Keys == c.nodes && c.primary in s.nodes
      modifies this
      ensures Valid() && Extends() && s == DoEndHeal(c, old(s), c.nodes - unstored, statusStored) && |acts| == |old(acts)| + 1
    {
      Take(EndHeal(c.nodes - unstored, statusStored));
    }

    /** Healing a live row: every node of the set is asked; those that answer with an older version get a
        repair, save where it cannot be stored; and the row is marked replicated exactly when all of them
        answered with it and the status can be stored. */
    method HealObject(nodes: seq<NodeId>, silent: set<NodeId>, unstored: set<NodeId>, statusFails: bool)
      returns (marked: bool, ghost polled: Rows)
      requires Valid() && s.op.Idle? && Elems(nodes) == c.nodes
      modifies this
      ensures Valid() && Extends() && s.op.Idle? && s.history == old(s.history)
      ensures s.replicated == (old(s.replicated) || marked)
      ensures c.primary in old(s).nodes && c.primary in s.nodes
      ensures var row := old(s).nodes[c.primary];
              if row.Row? && row.content.Live? then
                && polled.Keys == c.nodes && s.nodes[c.primary] == row
                && (forall n | n in c.nodes :: PolledAs(acts, b, |old(acts)|, n, polled[n], silent))
                && RepairsOf(polled, Report(c.primary, row), unstored) <= s.hints
                && (marked <==> !statusFails && forall n | n in c.nodes :: InSyncWith(Report(c.primary, row), Report(n, polled[n])))
              else !marked && s == old(s)
      ensures marked ==> AllHold(s.nodes, c.nodes, s.nodes[c.primary].Version())
    {
      RowRecorded(c, acts, b, |acts|, c.primary);
      var row := s.nodes[c.primary];
      if row.Absent? || row.content.Tombstone? {
        return false, map[];
      }
      marked, polled := HealLive(nodes, silent, unstored, statusFails);
    }

    method HealLive(nodes: seq<NodeId>, silent: set<NodeId>, unstored: set<NodeId>, statusFails: bool)
      returns (marked: bool, ghost polled: Rows)
      requires Valid() && s.op.Idle? && Elems(nodes) == c.nodes
      requires c.primary in s.nodes && s.nodes[c.primary].Row? && s.nodes[c.primary].content.Live?
      modifies this
      ensures Valid() && Extends() && s.op.Idle? && s.history == old(s.history)
      ensures s.replicated == (old(s.replicated) || marked)
      ensures c.primary in s.nodes && s.nodes[c.primary] == old(s).nodes[c.primary] && polled.Keys == c.nodes
      ensures forall n | n in c.nodes :: PolledAs(acts, b, |old(acts)|, n, polled[n], silent)
      ensures RepairsOf(polled, Report(c.primary, s.nodes[c.primary]), unstored) <= s.hints
      ensures marked <==> !statusFails && forall n | n in c.nodes :: InSyncWith(Report(c.primary, s.nodes[c.primary]), Report(n, polled[n]))
      ensures marked ==> AllHold(s.nodes, c.nodes, s.nodes[c.primary].Version())
    {
      var order := LocalFirst(nodes, c.primary);
      LocalFirstElems(nodes, c.primary);
      var states := CollectForHealing(order, silent);
      HealingRecorded(c, acts, b, |acts|);
      var winning := Report(c.primary, s.nodes[c.primary]);
      polled := s.op.polled;
      ghost var done, before := acts, b;
      marked := FinishHealing(winning, states, order, unstored, statusFails);
      PolledAsStays(done, before, acts, b, |old(acts)|, |old(acts)|, silent);
      HealRepairs(order, polled, winning, unstored);
      AllInSyncIff(order, polled, winning);
      if marked {
        HeldWhenInSync(c, order, s.nodes, polled, winning);
      }
    }

    method CollectForHealing(order: seq<NodeId>, silent: set<NodeId>) returns (states: seq<ReplicaState>)
      requires Valid() && s.op.Idle? && Elems(order) == c.nodes && c.primary in s.nodes
      requires s.nodes[c.primary].Row? && s.nodes[c.primary].content.Live?
      modifies this
      ensures Valid() && Extends() && |old(acts)| <= |acts|
      ensures s.op.Healing? && s.op.polled.Keys == c.nodes && states == PolledStates(order, s.op.polled)
      ensures s.history == old(s.history) && s.replicated == old(s.replicated)
      ensures c.primary in s.nodes && s.nodes[c.primary] == old(s).nodes[c.primary]
      ensures forall n | n in c.nodes :: PolledAs(acts, b, |old(acts)|, n, s.op.polled[n], silent)
    {
      ghost var i := |acts|;
      StartHealing();
      states := PollAll(order, silent);
      PolledAsEarlier(acts, b, i, i + 1, silent);
      PrimaryKept(i);
    }

    /** The primary's row is still what it was while the history is. */
    lemma PrimaryKept(i: nat)
      requires Valid() && i <= |acts| && b[i].history == s.history
      ensures c.primary in b[i].nodes && c.primary in s.nodes && s.nodes[c.primary] == b[i].nodes[c.primary]
    {
      SameHistorySamePrimary(c, acts, b, i, |acts|);
    }

    method StartHealing()
      requires Valid() && s.op.Idle? && c.primary in s.nodes
      requires s.nodes[c.primary].Row? && s.nodes[c.primary].content.Live?
      modifies this
      ensures Valid() && Extends() && s == old(s).(op := Healing(map[])) && |acts| == |old(acts)| + 1
    {
      Take(BeginHeal);
    }
  }

  lemma NothingLeft(all: set<NodeId>, done: set<NodeId>)
    requires all - done == {} && done <= all
    ensures done == all
  {
    assert forall n | n in all :: n in done || n in all - done;
  }

  // ---------------------------------------------------------------- the order of replica states

  function Others(nodes: seq<NodeId>, local: NodeId): seq<NodeId> {
    if nodes == [] then []
    else Others(nodes[..|nodes| - 1], local) + if nodes[|nodes| - 1] == local then [] else [nodes[|nodes| - 1]]
  }

  function OnlyLocal(nodes: seq<NodeId>, local: NodeId): seq<NodeId> {
    if local in nodes then [local] else []
  }

  /** The node itself, if it is one of the set, then the others in their order. */
  function LocalFirst(nodes: seq<NodeId>, local: NodeId): seq<NodeId> {
    OnlyLocal(nodes, local) + Others(nodes, local)
  }

  lemma {:induction false} OthersElems(nodes: seq<NodeId>, local: NodeId)
    ensures Elems(Others(nodes, local)) == Elems(nodes) - {local}
  {
    if nodes != [] {
      var init, last := nodes[..|nodes| - 1], nodes[|nodes| - 1];
      assert nodes == init + [last];
      OthersElems(init, local);
      ElemsSnoc(init, last);
      ElemsSnoc(Others(init, local), last);
    }
  }

  lemma {:induction false} OthersDistinct(nodes: seq<NodeId>, local: NodeId)
    requires NoDuplicates(nodes)
    ensures NoDuplicates(Others(nodes, local))
  {
    if nodes != [] {
      var init, last := nodes[..|nodes| - 1], nodes[|nodes| - 1];
      OthersDistinct(init, local);
      OthersElems(init, local);
      assert last !in Elems(init);
      ElemsSnoc(Others(init, local), last);
    }
  }

  lemma LocalFirstElems(nodes: seq<NodeId>, local: NodeId)
    ensures Elems(LocalFirst(nodes, local)) == Elems(nodes)
  {
    OthersElems(nodes, local);
    var own, rest := OnlyLocal(nodes, local), Others(nodes, local);
    assert forall n :: n in own + rest <==> n in Elems(own) || n in Elems(rest);
  }

  lemma LocalFirstDistinct(nodes: seq<NodeId>, local: NodeId)
    requires NoDuplicates(nodes)
    ensures NoDuplicates(LocalFirst(nodes, local))
  {
    OthersElems(nodes, local);
    OthersDistinct(nodes, local);
    assert forall i | 0 <= i < |Others(nodes, local)| :: Others(nodes, local)[i] in Elems(Others(nodes, local));
  }

  /** The node itself comes first, and the others follow as they are listed. */
  lemma {:induction false} LocalFirstMeans(nodes: seq<NodeId>, local: NodeId, more: seq<NodeId>)
    ensures local in nodes ==> LocalFirst(nodes, local)[0] == local && LocalFirst(nodes, local)[1..] == Others(nodes, local)
    ensures local !in nodes ==> LocalFirst(nodes, local) == nodes
    ensures Others(nodes + more, local) == Others(nodes, local) + Others(more, local)
  {
    if local !in nodes { OthersAll(nodes, local); }
    if more == [] {
      assert nodes + more == nodes;
    } else {
      var init := more[..|more| - 1];
      assert (nodes + more)[..|nodes + more| - 1] == nodes + init;
      LocalFirstMeans(nodes, local, init);
    }
  }

  lemma {:induction false} OthersAll(nodes: seq<NodeId>, local: NodeId)
    requires local !in nodes
    ensures Others(nodes, local) == nodes
  {
    if nodes != [] {
      assert nodes == nodes[..|nodes| - 1] + [nodes[|nodes| - 1]];
      OthersAll(nodes[..|nodes| - 1], local);
    }
  }

  ghost predicate Keeps(before: Rows, after: Rows) {
    forall n | n in before :: n in after && after[n] == before[n]
  }

  /** The nodes heard of so far are in `answers` with what was sampled of them. */
  ghost predicate Answered(answers: map<NodeId, ReplicaState>, done: set<NodeId>, sampled: Rows) {
    forall n | n in done :: n in answers && answers[n] == Report(n, if n in sampled then sampled[n] else Absent)
  }

  lemma AnsweredNext(answers: map<NodeId, ReplicaState>, done: set<NodeId>, before: Rows, after: Rows, n: NodeId, state: ReplicaState)
    requires Answered(answers, done, before) && n !in done && Keeps(before, after) && after.Keys <= before.Keys + {n}
    requires state == Report(n, if n in after then after[n] else Absent)
    ensures Answered(answers[n := state], done + {n}, after)
  {
  }

  /** What was sampled of the node itself stays while the others answer. */
  lemma CollectedStates(nodes: seq<NodeId>, local: NodeId, before: Rows, after: Rows)
    requires before.Keys <= {local} && Keeps(before, after) && after.Keys <= before.Keys + Elems(Others(nodes, local))
    requires local !in Elems(Others(nodes, local))
    ensures PolledStates(LocalFirst(nodes, local), after) ==
            PolledStates(OnlyLocal(nodes, local), before) + PolledStates(Others(nodes, local), after)
  {
    PolledConcat(OnlyLocal(nodes, local), Others(nodes, local), after);
    assert local in after <==> local in before;
    assert PolledStates(OnlyLocal(nodes, local), after) == PolledStates(OnlyLocal(nodes, local), before);
  }

  lemma PolledConcat(a: seq<NodeId>, z: seq<NodeId>, sampled: Rows)
    ensures PolledStates(a + z, sampled) == PolledStates(a, sampled) + PolledStates(z, sampled)
  {
  }

  /** The repairs a read schedules. */
  function Repairs(w: ReplicaState, states: seq<ReplicaState>, unstored: set<NodeId>): set<Hint>
    requires w.version >= 0
  {
    set st | st in states && NeedsRepair(w, st) && st.node !in unstored :: RepairFor(st.node, w)
  }

  lemma RepairsNext(w: ReplicaState, states: seq<ReplicaState>, i: nat, unstored: set<NodeId>)
    requires w.version >= 0 && i < |states|
    ensures Repairs(w, states[..i + 1], unstored) == Repairs(w, states[..i], unstored) + Repairs(w, [states[i]], unstored)
  {
    assert states[..i + 1] == states[..i] + [states[i]];
  }

  function WithHints(s: State, more: set<Hint>): State {
    s.(hints := s.hints + more)
  }

  lemma RepairsOfOne(w: ReplicaState, st: ReplicaState, unstored: set<NodeId>)
    requires w.version >= 0
    ensures NeedsRepair(w, st) && st.node !in unstored ==> Repairs(w, [st], unstored) == {RepairFor(st.node, w)}
    ensures !(NeedsRepair(w, st) && st.node !in unstored) ==> Repairs(w, [st], unstored) == {}
  {
    assert st in [st];
  }

  lemma MoreRepairs(s: State, w: ReplicaState, states: seq<ReplicaState>, i: nat, unstored: set<NodeId>)
    requires w.version >= 0 && i < |states|
    ensures WithHints(WithHints(s, Repairs(w, states[..i], unstored)), Repairs(w, [states[i]], unstored)) ==
            WithHints(s, Repairs(w, states[..i + 1], unstored))
  {
    RepairsNext(w, states, i, unstored);
    var x, y := Repairs(w, states[..i], unstored), Repairs(w, [states[i]], unstored);
    assert s.hints + x + y == s.hints + (x + y);
  }

  /** The list of the node's own state: empty until it has been asked. */
  ghost predicate OwnState(states: seq<ReplicaState>, sampled: Rows, local: NodeId, asked: bool, silent: set<NodeId>) {
    if asked then sampled.Keys == {local} - silent && states == [Report(local, if local in sampled then sampled[local] else Absent)]
    else sampled == map[] && states == []
  }

  lemma OwnIsPolled(states: seq<ReplicaState>, sampled: Rows, nodes: seq<NodeId>, local: NodeId, silent: set<NodeId>)
    requires OwnState(states, sampled, local, local in nodes, silent)
    ensures states == PolledStates(OnlyLocal(nodes, local), sampled) && sampled.Keys == Elems(OnlyLocal(nodes, local)) - silent
  {
  }

  /** A found state is what was sampled of its node. */
  ghost predicate Sampled(sampled: Rows, st: ReplicaState) {
    st.found ==> st.node in sampled && st == Report(st.node, sampled[st.node])
  }

  ghost predicate Winning(sampled: Rows, w: ReplicaState) {
    w.found && !w.deleted && w.version >= 0 && Sampled(sampled, w)
  }

  lemma PolledAreSampled(order: seq<NodeId>, sampled: Rows)
    ensures var states := PolledStates(order, sampled); forall i | 0 <= i < |states| :: Sampled(sampled, states[i])
  {
  }

  /** From step `i` on the hint was sent, and then found delivered exactly when its target had answered
      Ok and the reply came back. */
  ghost predicate Tried(acts: seq<Action>, b: seq<State>, i: nat, x: Hint, lost: set<Hint>, ok: bool) {
    exists k, m ::
      i <= k < m <= |acts| && m < |b| && acts[k] == SendHint(x) && (ok <==> x !in lost && (x.target, x.version) in b[m].oks)
  }

  lemma TriedStays(acts: seq<Action>, b: seq<State>, acts': seq<Action>, b': seq<State>, i: nat, lost: set<Hint>)
    requires acts <= acts' && b <= b'
    ensures forall x, ok | Tried(acts, b, i, x, lost, ok) :: Tried(acts', b', i, x, lost, ok)
  {
    forall x, ok | Tried(acts, b, i, x, lost, ok)
      ensures Tried(acts', b', i, x, lost, ok)
    {
      var k, m :| i <= k < m <= |acts| && m < |b| && acts[k] == SendHint(x) && (ok <==> x !in lost && (x.target, x.version) in b[m].oks);
      assert acts'[k] == SendHint(x) && b'[m] == b[m];
    }
  }

  /** At some moment from `i` to `j` the hint is not in the queue. */
  ghost predicate LeftQueue(b: seq<State>, i: nat, j: nat, x: Hint) {
    exists k :: i <= k <= j && k < |b| && x !in b[k].hints
  }

  lemma LeftQueueStays(b: seq<State>, b': seq<State>, i: nat, j: nat, j': nat)
    requires b <= b' && j <= j'
    ensures forall x | LeftQueue(b, i, j, x) :: LeftQueue(b', i, j', x)
  {
    forall x | LeftQueue(b, i, j, x)
      ensures LeftQueue(b', i, j', x)
    {
      var k :| i <= k <= j && k < |b| && x !in b[k].hints;
      assert x !in b'[k].hints;
    }
  }

  /** From step `i` on node `n` was asked once, and `row` is its row at that moment, or absent if it
      did not answer. */
  ghost predicate PolledAs(acts: seq<Action>, b: seq<State>, i: nat, n: NodeId, row: Row, silent: set<NodeId>) {
    exists k ::
      && i <= k < |acts| && k < |b| && acts[k] == Poll(n, n !in silent) && n in b[k].nodes
      && row == if n in silent then Absent else b[k].nodes[n]
  }

  lemma PolledAsStays(acts: seq<Action>, b: seq<State>, acts': seq<Action>, b': seq<State>, i: nat, j: nat, silent: set<NodeId>)
    requires acts <= acts' && b <= b' && i <= j
    ensures forall n, row | PolledAs(acts, b, i, n, row, silent) :: PolledAs(acts', b', i, n, row, silent)
    ensures forall n, row | PolledAs(acts', b', j, n, row, silent) :: PolledAs(acts', b', i, n, row, silent)
  {
    forall n, row | PolledAs(acts, b, i, n, row, silent)
      ensures PolledAs(acts', b', i, n, row, silent)
    {
      var k :| && i <= k < |acts| && k < |b| && acts[k] == Poll(n, n !in silent) && n in b[k].nodes
               && row == if n in silent then Absent else b[k].nodes[n];
      assert acts'[k] == acts[k] && b'[k] == b[k];
    }
    PolledAsEarlier(acts', b', i, j, silent);
  }

  lemma PolledAsEarlier(acts: seq<Action>, b: seq<State>, i: nat, j: nat, silent: set<NodeId>)
    requires i <= j
    ensures forall n, row | PolledAs(acts, b, j, n, row, silent) :: PolledAs(acts, b, i, n, row, silent)
  {
  }

  /** What the invariant says of a healing pass. */
  lemma HealingRecorded(c: Cluster, acts: seq<Action>, b: seq<State>, j: nat)
    requires c.Valid() && Behavior(c, acts, b) && j <= |acts| && b[j].op.Healing?
    ensures b[j].nodes.Keys == c.nodes && c.primary in b[j].nodes && b[j].nodes[c.primary].Row?
    ensures PolledInv(b[j].nodes, b[j].history, b[j].op.polled)
  {
    BehaviorInv(c, acts, b, j);
  }

  lemma HeldWhenInSync(c: Cluster, order: seq<NodeId>, rows: Rows, polled: Rows, winning: ReplicaState)
    requires c.primary in rows && winning == Report(c.primary, rows[c.primary]) && rows[c.primary].Row?
    requires Elems(order) == c.nodes == polled.Keys == rows.Keys
    requires forall n | n in polled :: polled[n].Version() <= rows[n].Version()
    requires forall st | st in PolledStates(order, polled) :: InSyncWith(winning, st)
    ensures AllHold(rows, c.nodes, rows[c.primary].Version())
  {
    PolledMembers(order, polled);
    forall n | n in c.nodes
      ensures rows[n].Version() >= rows[c.primary].Version()
    {
      assert Report(n, polled[n]) in PolledStates(order, polled);
    }
  }

  /** The repairs and the mark of a healing pass, in terms of the states it collected. */
  lemma HealEffect(c: Cluster, s: State, order: seq<NodeId>, winning: ReplicaState, unstored: set<NodeId>, statusStored: bool)
    requires s.op.Healing? && s.op.polled.Keys == c.nodes == Elems(order) && order != []
    requires c.primary in s.nodes && winning == Report(c.primary, s.nodes[c.primary])
    ensures var states, s' := PolledStates(order, s.op.polled), DoEndHeal(c, s, c.nodes - unstored, statusStored);
            && winning.version >= 0 && s'.hints == s.hints + Repairs(winning, states, unstored)
            && s'.replicated == (s.replicated || ((forall st | st in states :: InSyncWith(winning, st)) && statusStored))
            && s'.op.Idle? && s'.history == s.history && s'.nodes == s.nodes
  {
    HealRepairs(order, s.op.polled, winning, unstored);
    PolledMembers(order, s.op.polled);
  }

  /** The repairs `DoEndHeal` queues for the polled rows. */
  function RepairsOf(polled: Rows, winning: ReplicaState, unstored: set<NodeId>): set<Hint>
    requires winning.version >= 0
  {
    set n | n in polled.Keys - unstored && n in polled && NeedsRepair(winning, Report(n, polled[n])) :: RepairFor(n, winning)
  }

  lemma StateRepairsAmong(order: seq<NodeId>, polled: Rows, winning: ReplicaState, unstored: set<NodeId>, x: Hint)
    requires Elems(order) == polled.Keys && winning.version >= 0
    requires x in Repairs(winning, PolledStates(order, polled), unstored)
    ensures x in RepairsOf(polled, winning, unstored)
  {
    PolledMembers(order, polled);
    var states := PolledStates(order, polled);
    var st :| st in states && NeedsRepair(winning, st) && st.node !in unstored && x == RepairFor(st.node, winning);
    var n :| n in polled && st == Report(n, polled[n]);
    assert n == st.node;
  }

  lemma RowRepairsAmong(order: seq<NodeId>, polled: Rows, winning: ReplicaState, unstored: set<NodeId>, x: Hint)
    requires Elems(order) == polled.Keys && winning.version >= 0
    requires x in RepairsOf(polled, winning, unstored)
    ensures x in Repairs(winning, PolledStates(order, polled), unstored)
  {
    PolledMembers(order, polled);
    var n :| n in polled.Keys - unstored && n in polled && NeedsRepair(winning, Report(n, polled[n])) && x == RepairFor(n, winning);
    assert Report(n, polled[n]) in PolledStates(order, polled) && Report(n, polled[n]).node == n;
  }

  lemma HealRepairs(order: seq<NodeId>, polled: Rows, winning: ReplicaState, unstored: set<NodeId>)
    requires Elems(order) == polled.Keys && winning.version >= 0
    ensures Repairs(winning, PolledStates(order, polled), unstored) == RepairsOf(polled, winning, unstored)
  {
    forall x ensures x in Repairs(winning, PolledStates(order, polled), unstored) <==> x in RepairsOf(polled, winning, unstored) {
      if x in Repairs(winning, PolledStates(order, polled), unstored) { StateRepairsAmong(order, polled, winning, unstored, x); }
      if x in RepairsOf(polled, winning, unstored) { RowRepairsAmong(order, polled, winning, unstored, x); }
    }
  }

  lemma AllInSyncIff(order: seq<NodeId>, polled: Rows, winning: ReplicaState)
    requires Elems(order) == polled.Keys
    ensures (forall st | st in PolledStates(order, polled) :: InSyncWith(winning, st)) <==>
            forall n | n in polled :: InSyncWith(winning, Report(n, polled[n]))
  {
    PolledMembers(order, polled);
  }

  lemma PolledMembers(order: seq<NodeId>, polled: Rows)
    requires Elems(order) == polled.Keys
    ensures forall st :: st in PolledStates(order, polled) <==> exists n :: n in polled && st == Report(n, polled[n])
  {
    var states := PolledStates(order, polled);
    forall n | n in polled
      ensures Report(n, polled[n]) in states
    {
      var i :| 0 <= i < |order| && order[i] == n;
      assert states[i] == Report(n, polled[n]);
    }
    forall st | st in states
      ensures exists n :: n in polled && st == Report(n, polled[n])
    {
      var i :| 0 <= i < |states| && states[i] == st;
      assert order[i] in polled;
    }
  }

  /** Whatever wins a read is what the primary wrote at that version. */
  lemma ReadIsRecorded(c: Cluster, acts: seq<Action>, b: seq<State>, j: nat, id: nat, order: seq<NodeId>, w: ReplicaState)
    requires c.Valid() && Behavior(c, acts, b) && j <= |acts| && id in b[j].queries
    requires w in FoundStates(PolledStates(order, b[j].queries[id].sampled))
    ensures w.version in b[j].history && w == Report(w.node, Row(w.version, b[j].history[w.version]))
  {
    BehaviorInv(c, acts, b, j);
    assert ReadInv(c, b[j].history, b[j].committed, b[j].queries[id]);
    var n := FoundIsSampled(order, b[j].queries[id].sampled, w);
  }

  /** The loop that keeps the found states. */
  method FilterFound(states: seq<ReplicaState>) returns (found: seq<ReplicaState>)
    ensures found == FoundStates(states)
  {
    found := [];
    for i := 0 to |states|
      invariant found == FoundStates(states[..i])
    {
      assert states[..i + 1][..i] == states[..i];
      if states[i].found {
        found := found + [states[i]];
      }
    }
    assert states[..|states|] == states;
  }
}
