/** What the replication protocol guarantees on every run. */
module ProtocolTheorems {
  import opened Orders
  import opened Quorum
  import opened Replica
  import opened Protocol
  import opened ProtocolInvariant

  /** What the invariant says of one node's row. */
  lemma RowRecorded(c: Cluster, acts: seq<Action>, b: seq<State>, j: nat, n: NodeId)
    requires c.Valid() && Behavior(c, acts, b) && j <= |acts| && n in c.nodes
    ensures && b[j].nodes.Keys == c.nodes
            && Recorded(b[j].history, b[j].nodes[n])
            && b[j].nodes[n].Version() <= b[j].nodes[c.primary].Version()
  {
    BehaviorInv(c, acts, b, j);
  }

  // ---------------------------------------------------------------- quorum reads

  /** The states a read works with: one per polled node, not found for a node without an answer. */
  function PolledStates(order: seq<NodeId>, sampled: Rows): seq<ReplicaState> {
    seq(|order|, i requires 0 <= i < |order| =>
      Report(order[i], if order[i] in sampled then sampled[order[i]] else Absent))
  }

  function FoundStates(states: seq<ReplicaState>): (found: seq<ReplicaState>)
    ensures forall s :: s in found <==> s in states && s.found
  {
    if states == [] then []
    else
      var init, last := states[..|states| - 1], states[|states| - 1];
      assert states == init + [last];
      FoundStates(init) + if last.found then [last] else []
  }

  /** With no node polled twice, the found states count distinct nodes. */
  lemma {:induction false} FoundAreDistinct(order: seq<NodeId>, sampled: Rows) returns (ns: set<NodeId>)
    requires NoDuplicates(order)
    ensures |ns| == |FoundStates(PolledStates(order, sampled))|
    ensures forall n | n in ns :: n in order && n in sampled && sampled[n].Row?
  {
    if order == [] {
      ns := {};
    } else {
      var init, last := order[..|order| - 1], order[|order| - 1];
      var states := PolledStates(order, sampled);
      assert states[..|states| - 1] == PolledStates(init, sampled);
      ns := FoundAreDistinct(init, sampled);
      if last in sampled && sampled[last].Row? {
        assert last !in init;
        ns := ns + {last};
      }
    }
  }

  lemma FoundIsSampled(order: seq<NodeId>, sampled: Rows, w: ReplicaState) returns (n: NodeId)
    requires w in FoundStates(PolledStates(order, sampled))
    ensures n in sampled && sampled[n].Row? && w == Report(n, sampled[n])
  {
    var states := PolledStates(order, sampled);
    var k :| 0 <= k < |states| && states[k] == w;
    n := order[k];
  }

  lemma SampledIsFound(order: seq<NodeId>, sampled: Rows, n: NodeId)
    requires n in order && n in sampled && sampled[n].Row?
    ensures Report(n, sampled[n]) in FoundStates(PolledStates(order, sampled))
  {
    var states := PolledStates(order, sampled);
    var i :| 0 <= i < |order| && order[i] == n;
    assert states[i] == Report(n, sampled[n]);
  }

  /** The quorum that acknowledged `v` meets the nodes that answered, so the winner is at least `v`. */
  lemma OverlapGivesSafety(c: Cluster, h: History, ws: set<NodeId>, sampled: Rows, order: seq<NodeId>,
                           w: ReplicaState, v: nat)
    requires c.Valid() && ws <= c.nodes && c.quorum.WriteSatisfied(|ws|) && sampled.Keys <= c.nodes
    requires forall n | n in ws && n in sampled :: sampled[n].Version() >= v
    requires forall n | n in sampled :: Recorded(h, sampled[n])
    requires NoDuplicates(order)
    requires c.quorum.ReadSatisfied(|FoundStates(PolledStates(order, sampled))|)
    requires IsWinner(FoundStates(PolledStates(order, sampled)), w)
    ensures w.version >= v && w.version in h
    ensures w == Report(w.node, Row(w.version, h[w.version]))
  {
    var rs := FoundAreDistinct(order, sampled);
    QuorumsIntersect(c.quorum, c.nodes, ws, rs);
    var n :| n in ws && n in rs;
    SampledIsFound(order, sampled, n);
    var m := FoundIsSampled(order, sampled, w);
    assert Recorded(h, sampled[m]);
  }

  lemma StepKeepsFloor(c: Cluster, s: State, id: nat, a: Action)
    requires id in s.queries
    ensures var s' := Step(c, s, a);
            id in s'.queries && s'.queries[id].floor == s.queries[id].floor
  {
    if s.nodes.Keys == c.nodes && c.primary in c.nodes {
      CountingFrame(c, s, a);
      QueueingFrame(s, a);
      HealerFrame(c, s, a);
      WorkerFrame(s, a);
    }
  }

  lemma {:induction false} FloorStays(c: Cluster, acts: seq<Action>, b: seq<State>, i: nat, j: nat, id: nat)
    requires Behavior(c, acts, b) && i <= j <= |acts| && id in b[i].queries
    ensures id in b[j].queries && b[j].queries[id].floor == b[i].queries[id].floor
    decreases j
  {
    if i < j {
      FloorStays(c, acts, b, i, j - 1, id);
      assert Moment(j - 1);
      StepKeepsFloor(c, b[j - 1], id, acts[j - 1]);
    }
  }

  lemma FloorIsCommitted(c: Cluster, acts: seq<Action>, b: seq<State>, i: nat, j: nat, id: nat)
    requires c.Valid() && Behavior(c, acts, b) && i < j <= |acts|
    requires acts[i] == BeginRead(id) && id !in b[i].queries
    ensures id in b[j].queries && b[j].queries[id].floor == b[i].committed.Keys
  {
    RowRecorded(c, acts, b, i, c.primary);
    assert Moment(i);
    FloorStays(c, acts, b, i + 1, j, id);
  }

  /** What the invariant says of a read in progress. */
  lemma ReadRecorded(c: Cluster, acts: seq<Action>, b: seq<State>, j: nat, id: nat, v: nat)
    requires c.Valid() && Behavior(c, acts, b) && j <= |acts|
    requires id in b[j].queries && v in b[j].queries[id].floor
    ensures var s, r := b[j], b[j].queries[id];
            && v in s.committed && s.committed[v] <= c.nodes && c.quorum.WriteSatisfied(|s.committed[v]|)
            && r.sampled.Keys <= c.nodes
            && (forall n | n in r.sampled :: Recorded(s.history, r.sampled[n]))
            && (forall n | n in s.committed[v] && n in r.sampled :: r.sampled[n].Version() >= v)
  {
    BehaviorInv(c, acts, b, j);
    assert ReadInv(c, b[j].history, b[j].committed, b[j].queries[id]);
  }

  /** Quorum read safety.  Write `v` was reported successful before read `id` began at step `i`;
      by step `j` at least R nodes have answered it, each sampled at a moment of its own.  Then
      the winner's version is at least `v`, and its ETag and delete flag are exactly those the
      primary wrote at that version. */
  lemma QuorumReadSafety(c: Cluster, acts: seq<Action>, b: seq<State>, i: nat, j: nat, id: nat, v: nat,
                         order: seq<NodeId>, w: ReplicaState)
    requires c.Valid() && Behavior(c, acts, b) && i < j <= |acts|
    requires v in b[i].committed
    requires acts[i] == BeginRead(id) && id !in b[i].queries && id in b[j].queries
    requires NoDuplicates(order)
    requires var found := FoundStates(PolledStates(order, b[j].queries[id].sampled));
             c.quorum.ReadSatisfied(|found|) && IsWinner(found, w)
    ensures w.version >= v && w.version in b[j].history
    ensures w == Report(w.node, Row(w.version, b[j].history[w.version]))
  {
    FloorIsCommitted(c, acts, b, i, j, id);
    ReadRecorded(c, acts, b, j, id, v);
    var s := b[j];
    OverlapGivesSafety(c, s.history, s.committed[v], s.queries[id].sampled, order, w, v);
  }

  lemma StepKeepsSample(c: Cluster, s: State, id: nat, n: NodeId, a: Action)
    requires id in s.queries && n in s.queries[id].sampled
    ensures var s' := Step(c, s, a);
            id in s'.queries && n in s'.queries[id].sampled && s'.queries[id].sampled[n] == s.queries[id].sampled[n]
  {
    if s.nodes.Keys == c.nodes && c.primary in c.nodes {
      CountingFrame(c, s, a);
      QueueingFrame(s, a);
      HealerFrame(c, s, a);
      WorkerFrame(s, a);
    }
  }

  lemma {:induction false} SampleStays(c: Cluster, acts: seq<Action>, b: seq<State>, i: nat, j: nat, id: nat, n: NodeId)
    requires Behavior(c, acts, b) && i <= j <= |acts| && id in b[i].queries && n in b[i].queries[id].sampled
    ensures id in b[j].queries && n in b[j].queries[id].sampled
    ensures b[j].queries[id].sampled[n] == b[i].queries[id].sampled[n]
    decreases j
  {
    if i < j {
      SampleStays(c, acts, b, i, j - 1, id, n);
      assert Moment(j - 1);
      StepKeepsSample(c, b[j - 1], id, n, acts[j - 1]);
    }
  }

  /** A node's answer is its row at the moment it is asked, from then on. */
  lemma SampledAt(c: Cluster, acts: seq<Action>, b: seq<State>, k: nat, j: nat, id: nat, n: NodeId)
    requires c.Valid() && Behavior(c, acts, b) && k < j <= |acts| && n in c.nodes
    requires acts[k] == Sample(id, n) && id in b[k].queries && n !in b[k].queries[id].sampled
    ensures n in b[k].nodes && id in b[j].queries && n in b[j].queries[id].sampled
    ensures b[j].queries[id].sampled[n] == b[k].nodes[n]
  {
    RowRecorded(c, acts, b, k, n);
    assert Moment(k);
    SampleStays(c, acts, b, k + 1, j, id, n);
  }

  /** Nothing a read has sampled is newer than the primary. */
  lemma SamplesBehindPrimary(c: Cluster, acts: seq<Action>, b: seq<State>, j: nat, id: nat, n: NodeId)
    requires c.Valid() && Behavior(c, acts, b) && j <= |acts| && id in b[j].queries && n in b[j].queries[id].sampled
    ensures c.primary in b[j].nodes && b[j].queries[id].sampled[n].Version() <= b[j].nodes[c.primary].Version()
  {
    BehaviorInv(c, acts, b, j);
    assert ReadInv(c, b[j].history, b[j].committed, b[j].queries[id]);
  }

  /** The first of the polled states wins when no other found one is newer. */
  lemma FirstWins(order: seq<NodeId>, sampled: Rows, w: ReplicaState)
    requires order != [] && order[0] in sampled && sampled[order[0]].Row?
    requires IsWinner(FoundStates(PolledStates(order, sampled)), w)
    ensures w.version >= sampled[order[0]].version
    ensures (forall n | n in sampled :: sampled[n].Version() <= sampled[order[0]].version) ==>
              w == Report(order[0], sampled[order[0]])
  {
    var states := PolledStates(order, sampled);
    var found := FoundStates(states);
    var p := Report(order[0], sampled[order[0]]);
    FoundFirst(states);
    if forall n | n in sampled :: sampled[n].Version() <= p.version {
      forall i | 0 <= i < |found|
        ensures found[i].version <= p.version
      {
        var n := FoundIsSampled(order, sampled, found[i]);
      }
      assert IsWinner(found, p);
      WinnerUnique(found, p, w);
    }
  }

  /** A read that polls the primary first, and gets its answer at step `k`, never falls behind that
      answer, whenever the others are sampled; and while no write begins before the read ends at
      step `j`, what it returns is the primary's own row. */
  lemma QuorumReadIsPrimaryRead(c: Cluster, acts: seq<Action>, b: seq<State>, k: nat, j: nat, id: nat,
                                order: seq<NodeId>, w: ReplicaState)
    requires c.Valid() && Behavior(c, acts, b) && k < j <= |acts|
    requires acts[k] == Sample(id, c.primary) && id in b[k].queries && c.primary !in b[k].queries[id].sampled
    requires c.primary in b[k].nodes && b[k].nodes[c.primary].Row?
    requires order != [] && order[0] == c.primary
    requires id in b[j].queries && IsWinner(FoundStates(PolledStates(order, b[j].queries[id].sampled)), w)
    ensures w.version >= b[k].nodes[c.primary].version
    ensures (forall i | k <= i < j :: !acts[i].BeginWrite?) ==>
              c.primary in b[j].nodes && w == Report(c.primary, b[j].nodes[c.primary])
  {
    SampledAt(c, acts, b, k, j, id, c.primary);
    var sampled := b[j].queries[id].sampled;
    FirstWins(order, sampled, w);
    if forall i | k <= i < j :: !acts[i].BeginWrite? {
      PrimaryStays(c, acts, b, k, j);
      forall n | n in sampled
        ensures sampled[n].Version() <= sampled[c.primary].version
      {
        SamplesBehindPrimary(c, acts, b, j, id, n);
      }
    }
  }

  lemma {:induction false} FoundFirst(states: seq<ReplicaState>)
    requires states != [] && states[0].found
    ensures var found := FoundStates(states); found != [] && found[0] == states[0]
  {
    if |states| > 1 {
      var init := states[..|states| - 1];
      FoundFirst(init);
    } else {
      assert FoundStates(states[..0]) == [];
    }
  }

  // ---------------------------------------------------------------- replicas agree

  /** No replica is ahead of the primary, nodes at one version agree, and rows never go back. */
  lemma ReplicasAgree(c: Cluster, acts: seq<Action>, b: seq<State>, i: nat, j: nat, n: NodeId, m: NodeId)
    requires c.Valid() && Behavior(c, acts, b) && i <= j <= |acts| && n in c.nodes && m in c.nodes
    ensures b[i].nodes.Keys == c.nodes == b[j].nodes.Keys
    ensures b[i].nodes[n].Version() <= b[i].nodes[c.primary].Version()
    ensures b[i].nodes[n].Version() == b[i].nodes[m].Version() && b[i].nodes[n].Row? && b[i].nodes[m].Row? ==>
              b[i].nodes[n] == b[i].nodes[m]
    ensures b[i].nodes[n].Version() <= b[j].nodes[n].Version()
    ensures HistoryGrows(b[i].history, b[j].history)
  {
    RowRecorded(c, acts, b, i, n);
    RowRecorded(c, acts, b, i, m);
    BehaviorGrows(c, acts, b, i, j);
  }

  /** The same-version conflict answers never happen: a reply to a sent request is Ok, a storage
      failure, or Stale for a strictly older version. */
  lemma NoConflictReply(c: Cluster, acts: seq<Action>, b: seq<State>, j: nat, n: NodeId, m: Message, accepted: bool)
    requires c.Valid() && Behavior(c, acts, b) && j <= |acts| && n in c.nodes && (n, m) in b[j].net
    ensures n in b[j].nodes
    ensures var reply := Handle(b[j].nodes[n], m, accepted).1;
            && reply != Conflict
            && (reply == Stale ==> m.version < b[j].nodes[n].Version())
  {
    BehaviorInv(c, acts, b, j);
    assert Recorded(b[j].history, b[j].nodes[n]);
  }

  /** A live row marked replicated on the primary is held, at that version or newer, by W nodes. */
  lemma ReplicatedStatusSound(c: Cluster, acts: seq<Action>, b: seq<State>, j: nat)
    requires c.Valid() && Behavior(c, acts, b) && j <= |acts|
    ensures c.primary in b[j].nodes
    ensures var row := b[j].nodes[c.primary];
            row.Row? && row.content.Live? && b[j].replicated ==> QuorumHolds(c, b[j].nodes, row.version)
  {
    BehaviorInv(c, acts, b, j);
  }

  // ---------------------------------------------------------------- hints

  /** Storing the hint of write `v` for node `n` failed before step `j`. */
  ghost predicate HintNotStored(acts: seq<Action>, b: seq<State>, j: nat, n: NodeId, v: nat)
    requires |b| == |acts| + 1 && j <= |acts|
  {
    exists i | 0 <= i < j :: acts[i] == Enqueue(n, false) && b[i].op.Queueing? && b[i].op.version == v
  }

  lemma StepUnqueued(c: Cluster, s: State, a: Action, n: NodeId, v: nat)
    requires (n, v) !in s.unqueued && !(a == Enqueue(n, false) && s.op.Queueing? && s.op.version == v)
    ensures (n, v) !in Step(c, s, a).unqueued
  {
    if s.nodes.Keys == c.nodes && c.primary in c.nodes {
      CountingFrame(c, s, a);
      HealerFrame(c, s, a);
      WorkerFrame(s, a);
      ReaderFrame(c, s, a);
    }
  }

  lemma {:induction false} NotUnqueued(c: Cluster, acts: seq<Action>, b: seq<State>, j: nat, n: NodeId, v: nat)
    requires Behavior(c, acts, b) && j <= |acts| && !HintNotStored(acts, b, j, n, v)
    ensures (n, v) !in b[j].unqueued
  {
    if j > 0 {
      assert !HintNotStored(acts, b, j - 1, n, v);
      NotUnqueued(c, acts, b, j - 1, n, v);
      assert Moment(j - 1);
      StepUnqueued(c, b[j - 1], acts[j - 1], n, v);
    }
  }

  /** Unless storing that very hint failed, each node of the set has every write reported successful
      or a pending hint that brings it, whatever became of other writes, nodes and hints. */
  lemma HintCoverage(c: Cluster, acts: seq<Action>, b: seq<State>, j: nat, v: nat, n: NodeId)
    requires c.Valid() && Behavior(c, acts, b) && j <= |acts| && n in c.nodes && v in b[j].committed
    requires !HintNotStored(acts, b, j, n, v)
    ensures n in b[j].nodes && v in b[j].history
    ensures b[j].nodes[n].Version() >= v || HintFor(n, v, b[j].history[v]) in b[j].hints
  {
    BehaviorInv(c, acts, b, j);
    NotUnqueued(c, acts, b, j, n, v);
    assert AllCovered(Standing(b[j]), c.nodes, v, b[j].history[v]);
    assert Covered(Standing(b[j]), n, v, b[j].history[v]);
  }

  lemma OkIsHeld(c: Cluster, s: State, a: Action, n: NodeId, v: nat)
    requires s.nodes.Keys == c.nodes && c.primary in c.nodes
    requires (n, v) !in s.oks && (n, v) in Step(c, s, a).oks
    ensures n in Step(c, s, a).nodes
    ensures var row := Step(c, s, a).nodes[n]; row.Row? && row.version == v
  {
    if !a.BeginWrite? && !a.Deliver? {
      CountingFrame(c, s, a);
      QueueingFrame(s, a);
      HealerFrame(c, s, a);
      WorkerFrame(s, a);
      ReaderFrame(c, s, a);
    }
  }

  /** A reply Ok at a version was given by a node holding exactly that version. */
  lemma {:induction false} OkWasHeld(c: Cluster, acts: seq<Action>, b: seq<State>, j: nat, n: NodeId, v: nat)
    returns (i: nat)
    requires c.Valid() && Behavior(c, acts, b) && j <= |acts| && (n, v) in b[j].oks
    ensures i <= j && n in b[i].nodes && b[i].nodes[n].Row? && b[i].nodes[n].version == v
  {
    if j > 0 && (n, v) in b[j - 1].oks {
      i := OkWasHeld(c, acts, b, j - 1, n, v);
    } else {
      i := j;
      if j > 0 {
        RowRecorded(c, acts, b, j - 1, c.primary);
        assert Moment(j - 1);
        OkIsHeld(c, b[j - 1], acts[j - 1], n, v);
      }
    }
  }

  lemma HintRemoval(c: Cluster, s: State, a: Action, x: Hint)
    requires s.nodes.Keys == c.nodes && c.primary in c.nodes
    requires x in s.hints && x !in Step(c, s, a).hints
    ensures (x.target, x.version) in s.oks
  {
    CountingFrame(c, s, a);
    HealerFrame(c, s, a);
    ReaderFrame(c, s, a);
  }

  /** A hint leaves the queue only after its target held exactly the hinted version, with the
      content the primary wrote at it. */
  lemma HintRetiredAfterHeld(c: Cluster, acts: seq<Action>, b: seq<State>, j: nat, x: Hint) returns (i: nat)
    requires c.Valid() && Behavior(c, acts, b) && j < |acts| && x in b[j].hints && x !in b[j + 1].hints
    ensures i <= j && x.target in b[i].nodes && b[i].nodes[x.target] == Row(x.version, x.Request().content)
  {
    BehaviorInv(c, acts, b, j);
    assert Moment(j);
    HintRemoval(c, b[j], acts[j], x);
    i := OkWasHeld(c, acts, b, j, x.target, x.version);
    BehaviorInv(c, acts, b, i);
    RowRecorded(c, acts, b, i, x.target);
    BehaviorGrows(c, acts, b, i, j);
  }

  lemma OkStillHeld(c: Cluster, acts: seq<Action>, b: seq<State>, i: nat, j: nat, n: NodeId, v: nat)
    requires c.Valid() && Behavior(c, acts, b) && i <= j <= |acts| && (n, v) in b[i].oks
    ensures n in b[j].nodes && b[j].nodes[n].Version() >= v
  {
    BehaviorInv(c, acts, b, i);
    BehaviorGrows(c, acts, b, i, j);
  }

  /** A pending hint stays pending until its target holds the hinted version or a newer one. */
  lemma {:induction false} HintPendingOrHeld(c: Cluster, acts: seq<Action>, b: seq<State>, i: nat, j: nat, x: Hint)
    requires c.Valid() && Behavior(c, acts, b) && i <= j <= |acts| && x in b[i].hints
    ensures x in b[j].hints || (x.target in b[j].nodes && b[j].nodes[x.target].Version() >= x.version)
    decreases j
  {
    if i < j {
      HintPendingOrHeld(c, acts, b, i, j - 1, x);
      if x !in b[j - 1].hints {
        BehaviorGrows(c, acts, b, j - 1, j);
      } else if x !in b[j].hints {
        RowRecorded(c, acts, b, j - 1, c.primary);
        assert Moment(j - 1);
        HintRemoval(c, b[j - 1], acts[j - 1], x);
        OkStillHeld(c, acts, b, j - 1, j, x.target, x.version);
      }
    }
  }

  // ---------------------------------------------------------------- convergence

  lemma StepKeepsPrimary(c: Cluster, s: State, a: Action)
    requires Inv(c, s) && !a.BeginWrite?
    ensures Step(c, s, a).nodes.Keys == s.nodes.Keys && Step(c, s, a).nodes[c.primary] == s.nodes[c.primary]
  {
    if a.Deliver? {
      if (a.node, a.message) in s.net && a.node in s.nodes {
        DeliverKeepsRows(c, s, a.node, a.message, a.accepted);
      }
    } else {
      CountingFrame(c, s, a);
      QueueingFrame(s, a);
      HealerFrame(c, s, a);
      WorkerFrame(s, a);
      ReaderFrame(c, s, a);
    }
  }

  /** Only a write of its own changes the primary's row. */
  lemma {:induction false} PrimaryStays(c: Cluster, acts: seq<Action>, b: seq<State>, i: nat, j: nat)
    requires c.Valid() && Behavior(c, acts, b) && i <= j <= |acts|
    requires forall k | i <= k < j :: !acts[k].BeginWrite?
    ensures c.primary in b[i].nodes && c.primary in b[j].nodes
    ensures b[j].nodes[c.primary] == b[i].nodes[c.primary]
    decreases j
  {
    if i < j {
      PrimaryStays(c, acts, b, i, j - 1);
      BehaviorInv(c, acts, b, j - 1);
      assert Moment(j - 1);
      StepKeepsPrimary(c, b[j - 1], acts[j - 1]);
    } else {
      RowRecorded(c, acts, b, i, c.primary);
    }
  }

  lemma VersionFromHistory(c: Cluster, rows: Rows, rows': Rows, h: History)
    requires RowsInv(c, rows, h) && RowsInv(c, rows', h)
    ensures rows[c.primary] == rows'[c.primary]
  {
    var v, v' := rows[c.primary].Version(), rows'[c.primary].Version();
    assert v >= 1 ==> v in h;
    assert v' >= 1 ==> v' in h;
    assert v == v';
    assert Recorded(h, rows[c.primary]) && Recorded(h, rows'[c.primary]);
  }

  /** While nothing is written the primary's row is the same. */
  lemma SameHistorySamePrimary(c: Cluster, acts: seq<Action>, b: seq<State>, i: nat, j: nat)
    requires c.Valid() && Behavior(c, acts, b) && i <= |acts| && j <= |acts| && b[i].history == b[j].history
    ensures c.primary in b[i].nodes && c.primary in b[j].nodes && b[j].nodes[c.primary] == b[i].nodes[c.primary]
  {
    BehaviorInv(c, acts, b, i);
    BehaviorInv(c, acts, b, j);
    VersionFromHistory(c, b[i].nodes, b[j].nodes, b[i].history);
  }

  /** Between steps `i` and `j` the request of hint `x` is delivered, and accepted, at least once. */
  ghost predicate DeliveredDuring(acts: seq<Action>, b: seq<State>, i: nat, j: nat, x: Hint)
    requires |b| == |acts| + 1 && i <= j <= |acts|
  {
    exists k | i <= k < j ::
      acts[k] == Deliver(x.target, x.Request(), true) && (x.target, x.Request()) in b[k].net
  }

  lemma StepDelivers(c: Cluster, s: State, n: NodeId, m: Message)
    requires s.nodes.Keys == c.nodes && c.primary in c.nodes && n in c.nodes && (n, m) in s.net
    ensures var s' := Step(c, s, Deliver(n, m, true));
            n in s'.nodes && s'.nodes[n].Version() >= m.version
  {
  }

  lemma DeliveredAt(c: Cluster, acts: seq<Action>, b: seq<State>, k: nat, x: Hint)
    requires c.Valid() && Behavior(c, acts, b) && k < |acts| && x.target in c.nodes
    requires acts[k] == Deliver(x.target, x.Request(), true) && (x.target, x.Request()) in b[k].net
    ensures x.target in b[k + 1].nodes && b[k + 1].nodes[x.target].Version() >= x.version
  {
    RowRecorded(c, acts, b, k, x.target);
    assert Moment(k);
    StepDelivers(c, b[k], x.target, x.Request());
  }

  lemma DeliveryHolds(c: Cluster, acts: seq<Action>, b: seq<State>, i: nat, j: nat, x: Hint)
    requires c.Valid() && Behavior(c, acts, b) && i <= j <= |acts| && x.target in c.nodes
    requires DeliveredDuring(acts, b, i, j, x)
    ensures x.target in b[j].nodes && b[j].nodes[x.target].Version() >= x.version
  {
    var k :| i <= k < j && acts[k] == Deliver(x.target, x.Request(), true) && (x.target, x.Request()) in b[k].net;
    DeliveredAt(c, acts, b, k, x);
    BehaviorGrows(c, acts, b, k + 1, j);
  }

  /** The primary's last write was reported successful by step `i` and nothing is written until
      step `j`.  If the hints then pending for it at node `n` are delivered in between, in any order
      and mixed with any late, repeated or stale deliveries, `n` ends with the primary's row. */
  lemma HintsConverge(c: Cluster, acts: seq<Action>, b: seq<State>, i: nat, j: nat, n: NodeId)
    requires c.Valid() && Behavior(c, acts, b) && i <= j <= |acts| && n in c.nodes
    requires c.primary in b[i].nodes && b[i].nodes[c.primary].Version() in b[i].committed
    requires !HintNotStored(acts, b, i, n, b[i].nodes[c.primary].Version())
    requires forall k | i <= k < j :: !acts[k].BeginWrite?
    requires forall x | x in b[i].hints && x.version == b[i].nodes[c.primary].Version() && x.target == n ::
               DeliveredDuring(acts, b, i, j, x)
    ensures n in b[j].nodes && b[j].nodes[n] == b[i].nodes[c.primary]
  {
    var v := b[i].nodes[c.primary].Version();
    PrimaryStays(c, acts, b, i, j);
    HintCoverage(c, acts, b, i, v, n);
    BehaviorGrows(c, acts, b, i, j);
    if b[i].nodes[n].Version() < v {
      DeliveryHolds(c, acts, b, i, j, HintFor(n, v, b[i].history[v]));
    }
    BehaviorInv(c, acts, b, j);
    RowRecorded(c, acts, b, j, n);
    RowRecorded(c, acts, b, j, c.primary);
  }

  // ---------------------------------------------------------------- why writes run one at a time

  /** Nothing spans choosing the next version and writing it, so two overlapping writes choose the
      same one.  Replicas at the row it was chosen on, or behind it, that get the two requests in
      different orders then agree only if both writes carry the same content. */
  lemma OverlappingWritesAgreeIff(row: Row, replica: Row, x: Content, y: Content)
    requires replica.Absent? || replica.version < NextVersion(row)
    ensures var v := NextVersion(row);
            var ab, ba := HandleAll(replica, [Message(v, x), Message(v, y)]), HandleAll(replica, [Message(v, y), Message(v, x)]);
            ab == ba <==> x == y
  {
    var v := NextVersion(row);
    var first, second := Message(v, x), Message(v, y);
    FirstOfTwo(replica, first, second);
    FirstOfTwo(replica, second, first);
  }

  lemma FirstOfTwo(replica: Row, first: Message, second: Message)
    requires replica.Absent? || replica.version < first.version
    requires second.version == first.version
    ensures HandleAll(replica, [first, second]) == Row(first.version, first.content)
  {
    assert [first, second][..1] == [first] && [first][..0] == [];
    assert HandleAll(replica, [first]) == Row(first.version, first.content);
  }
}
