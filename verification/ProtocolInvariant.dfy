/** Every step of the replication protocol keeps its invariant. */
module ProtocolInvariant {
  import opened Quorum
  import opened Replica
  import opened Protocol

  // ---------------------------------------------------------------- facts that growth keeps

  lemma AllHoldGrows(rows: Rows, rows': Rows, ns: set<NodeId>, v: nat)
    requires RowsGrow(rows, rows') && AllHold(rows, ns, v)
    ensures AllHold(rows', ns, v)
  {
  }

  lemma QuorumHoldsGrows(c: Cluster, rows: Rows, rows': Rows, v: nat)
    requires RowsGrow(rows, rows') && QuorumHolds(c, rows, v)
    ensures QuorumHolds(c, rows', v)
  {
    var ns :| ns <= c.nodes && c.quorum.WriteSatisfied(|ns|) && AllHold(rows, ns, v);
    AllHoldGrows(rows, rows', ns, v);
  }

  /** A hint leaves the queue only for a target that answered Ok at its version. */
  ghost predicate PlacesGrow(p: Places, p': Places) {
    && RowsGrow(p.rows, p'.rows)
    && p.unqueued <= p'.unqueued
    && forall x | x in p.hints && x !in p'.hints :: (x.target, x.version) in p.oks
  }

  lemma AllCoveredGrows(p: Places, p': Places, ns: set<NodeId>, v: nat, content: Content)
    requires PlacesGrow(p, p') && OksInv(p.rows, p.oks) && AllCovered(p, ns, v, content)
    ensures AllCovered(p', ns, v, content)
  {
    forall n | n in ns
      ensures Covered(p', n, v, content)
    {
      assert Covered(p, n, v, content);
      var x := HintFor(n, v, content);
      assert x in p.hints && x !in p'.hints ==> (n, v) in p.oks;
    }
  }

  lemma CommittedInvGrows(c: Cluster, h: History, h': History, p: Places, p': Places, m: map<nat, set<NodeId>>)
    requires CommittedInv(c, h, p, m) && OksInv(p.rows, p.oks)
    requires HistoryGrows(h, h') && PlacesGrow(p, p')
    ensures CommittedInv(c, h', p', m)
  {
    forall v | v in m
      ensures && v in h' && m[v] <= c.nodes && c.quorum.WriteSatisfied(|m[v]|)
              && AllHold(p'.rows, m[v], v) && AllCovered(p', c.nodes, v, h'[v])
    {
      AllHoldGrows(p.rows, p'.rows, m[v], v);
      AllCoveredGrows(p, p', c.nodes, v, h[v]);
    }
  }

  lemma QueriesInvGrows(c: Cluster, h: History, h': History, m: map<nat, set<NodeId>>, m': map<nat, set<NodeId>>,
                        qs: map<nat, Read>)
    requires QueriesInv(c, h, m, qs) && HistoryGrows(h, h') && CommittedGrows(m, m')
    ensures QueriesInv(c, h', m', qs)
  {
    forall id | id in qs
      ensures ReadInv(c, h', m', qs[id])
    {
      assert ReadInv(c, h, m, qs[id]);
    }
  }

  // ---------------------------------------------------------------- writes and deliveries

  lemma WriteKeepsRows(c: Cluster, s: State, content: Content)
    requires RowsInv(c, s.nodes, s.history) && OksInv(s.nodes, s.oks)
    ensures var s' := DoWrite(c, s, content);
            RowsInv(c, s'.nodes, s'.history) && OksInv(s'.nodes, s'.oks)
  {
  }

  lemma WriteKeepsNet(c: Cluster, s: State, content: Content)
    requires RowsInv(c, s.nodes, s.history) && NetInv(s.history, s.net) && HintsInv(s.history, s.hints)
    ensures var s' := DoWrite(c, s, content);
            NetInv(s'.history, s'.net) && HintsInv(s'.history, s'.hints)
  {
    assert NextVersion(s.nodes[c.primary]) !in s.history;
  }

  lemma WriteKeepsInv(c: Cluster, s: State, content: Content)
    requires Inv(c, s) && s.op.Idle?
    ensures Inv(c, DoWrite(c, s, content))
  {
    var s' := DoWrite(c, s, content);
    WriteGrows(c, s, content);
    WriteKeepsRows(c, s, content);
    WriteKeepsNet(c, s, content);
    CommittedInvGrows(c, s.history, s'.history, Standing(s), Standing(s'), s.committed);
    QueriesInvGrows(c, s.history, s'.history, s.committed, s'.committed, s.queries);
  }

  lemma DeliverKeepsRows(c: Cluster, s: State, n: NodeId, m: Message, accepted: bool)
    requires Inv(c, s) && n in s.nodes && (n, m) in s.net
    ensures var s' := DoDeliver(s, n, m, accepted);
            && RowsInv(c, s'.nodes, s'.history) && OksInv(s'.nodes, s'.oks)
            && s'.nodes[c.primary] == s.nodes[c.primary]
  {
    HandleGrows(s.nodes[n], m, accepted);
  }

  lemma DeliverKeepsInv(c: Cluster, s: State, n: NodeId, m: Message, accepted: bool)
    requires Inv(c, s) && n in s.nodes && (n, m) in s.net
    ensures Inv(c, DoDeliver(s, n, m, accepted))
  {
    var s' := DoDeliver(s, n, m, accepted);
    DeliverGrows(s, n, m, accepted);
    DeliverKeepsRows(c, s, n, m, accepted);
    CommittedInvGrows(c, s.history, s'.history, Standing(s), Standing(s'), s.committed);
    if s.op.Writing? {
      AllHoldGrows(s.nodes, s'.nodes, s.op.acked, s.op.version);
    }
    if s.op.Queueing? {
      AllHoldGrows(s.nodes, s'.nodes, s.op.acked, s.op.version);
      AllCoveredGrows(Standing(s), Standing(s'), c.nodes - s.op.todo, s.op.version, s.history[s.op.version]);
    }
    var row := s.nodes[c.primary];
    if row.Row? && row.content.Live? && s.replicated {
      QuorumHoldsGrows(c, s.nodes, s'.nodes, row.version);
    }
  }

  // ---------------------------------------------------------------- counting, queueing, reporting

  lemma CountingKeepsInv(c: Cluster, s: State, a: Action)
    requires Inv(c, s)
    ensures Inv(c, CountingStep(c, s, a))
  {
    var s' := CountingStep(c, s, a);
    CountingFrame(c, s, a);
    if s'.op != s.op && a.CountAcks? && s'.op.Queueing? {
      assert AllCovered(Standing(s'), c.nodes - s'.op.todo, s'.op.version, s.history[s'.op.version]);
    }
  }

  lemma EnqueueKeepsInv(c: Cluster, s: State, n: NodeId, stored: bool)
    requires Inv(c, s) && s.op.Queueing?
    ensures Inv(c, DoEnqueue(s, n, stored))
  {
    var s' := DoEnqueue(s, n, stored);
    var v := s.op.version;
    CommittedInvGrows(c, s.history, s.history, Standing(s), Standing(s'), s.committed);
    AllCoveredGrows(Standing(s), Standing(s'), c.nodes - s.op.todo, v, s.history[v]);
    assert Covered(Standing(s'), n, v, s.history[v]);
    assert AllCovered(Standing(s'), c.nodes - s'.op.todo, v, s.history[v]);
  }

  lemma ReportKeepsInv(c: Cluster, s: State, statusStored: bool)
    requires Inv(c, s) && s.op.Queueing? && s.op.todo == {}
    ensures Inv(c, DoReport(s, statusStored))
  {
    var s' := DoReport(s, statusStored);
    assert c.nodes - {} == c.nodes;
    assert CommittedGrows(s.committed, s'.committed);
    QueriesInvGrows(c, s.history, s.history, s.committed, s'.committed, s.queries);
    assert QuorumHolds(c, s.nodes, s.op.version);
  }

  lemma QueueingKeepsInv(c: Cluster, s: State, a: Action)
    requires Inv(c, s)
    ensures Inv(c, QueueingStep(s, a))
  {
    match a
    case Enqueue(n, stored) => if s.op.Queueing? { EnqueueKeepsInv(c, s, n, stored); }
    case ReportSuccess(statusStored) => if s.op.Queueing? && s.op.todo == {} { ReportKeepsInv(c, s, statusStored); }
    case _ =>
  }

  // ---------------------------------------------------------------- healing, hints and reads

  lemma MoreHintsKeepInv(c: Cluster, s: State, more: set<Hint>)
    requires Inv(c, s) && HintsInv(s.history, more)
    ensures Inv(c, s.(hints := s.hints + more))
  {
    var s' := s.(hints := s.hints + more);
    CommittedInvGrows(c, s.history, s.history, Standing(s), Standing(s'), s.committed);
    if s.op.Queueing? {
      AllCoveredGrows(Standing(s), Standing(s'), c.nodes - s.op.todo, s.op.version, s.history[s.op.version]);
    }
  }

  lemma RepairIsRecorded(h: History, n: NodeId, w: ReplicaState, row: Row)
    requires w == Report(w.node, row) && w.found && Recorded(h, row)
    ensures var r := RepairFor(n, w); r.version in h && r.Request().content == h[r.version]
  {
  }

  /** When every polled node agrees with the primary's row, all of them hold its version. */
  lemma InSyncMeansHeld(c: Cluster, s: State)
    requires c.Valid() && Inv(c, s) && s.op.Healing? && s.op.polled.Keys == c.nodes
    requires forall n | n in s.op.polled ::
      InSyncWith(Report(c.primary, s.nodes[c.primary]), Report(n, s.op.polled[n]))
    ensures QuorumHolds(c, s.nodes, s.nodes[c.primary].version)
  {
    var v := s.nodes[c.primary].version;
    forall n | n in c.nodes
      ensures s.nodes[n].Version() >= v
    {
      assert n in s.op.polled;
    }
    assert AllHold(s.nodes, c.nodes, v);
  }

  lemma EndHealKeepsInv(c: Cluster, s: State, queued: set<NodeId>, statusStored: bool)
    requires c.Valid() && Inv(c, s) && s.op.Healing? && s.op.polled.Keys == c.nodes
    ensures Inv(c, DoEndHeal(c, s, queued, statusStored))
  {
    var row := s.nodes[c.primary];
    var winning := Report(c.primary, row);
    var polled := s.op.polled;
    var repairs := set n | n in queued && n in polled && NeedsRepair(winning, Report(n, polled[n])) ::
                     RepairFor(n, winning);
    forall x | x in repairs
      ensures x.version in s.history && s.history[x.version] == x.Request().content
    {
      RepairIsRecorded(s.history, x.target, winning, row);
    }
    MoreHintsKeepInv(c, s, repairs);
    if forall n | n in polled :: InSyncWith(winning, Report(n, polled[n])) {
      InSyncMeansHeld(c, s);
    }
  }

  lemma PollKeepsInv(c: Cluster, s: State, n: NodeId, answered: bool)
    requires Inv(c, s) && s.op.Healing? && n in c.nodes
    ensures Inv(c, s.(op := Healing(s.op.polled[n := if answered then s.nodes[n] else Absent])))
  {
  }

  lemma HealerKeepsInv(c: Cluster, s: State, a: Action)
    requires c.Valid() && Inv(c, s)
    ensures Inv(c, HealerStep(c, s, a))
  {
    match a
    case Poll(n, answered) =>
      if s.op.Healing? && n in c.nodes { PollKeepsInv(c, s, n, answered); }
    case EndHeal(queued, statusStored) =>
      if s.op.Healing? && s.op.polled.Keys == c.nodes { EndHealKeepsInv(c, s, queued, statusStored); }
    case _ =>
  }

  lemma WorkerKeepsInv(c: Cluster, s: State, a: Action)
    requires Inv(c, s)
    ensures Inv(c, WorkerStep(s, a))
  {
    var s' := WorkerStep(s, a);
    WorkerFrame(s, a);
    CommittedInvGrows(c, s.history, s.history, Standing(s), Standing(s'), s.committed);
    if s.op.Queueing? {
      AllCoveredGrows(Standing(s), Standing(s'), c.nodes - s.op.todo, s.op.version, s.history[s.op.version]);
    }
  }

  lemma SampleKeepsInv(c: Cluster, s: State, id: nat, n: NodeId)
    requires Inv(c, s) && n in c.nodes && id in s.queries
    ensures var r := s.queries[id];
            Inv(c, s.(queries := s.queries[id := Read(r.floor, r.sampled[n := s.nodes[n]])]))
  {
    var r := s.queries[id];
    forall v | v in r.floor && n in s.committed[v]
      ensures s.nodes[n].Version() >= v
    {
      assert AllHold(s.nodes, s.committed[v], v);
    }
    assert ReadInv(c, s.history, s.committed, Read(r.floor, r.sampled[n := s.nodes[n]]));
  }

  lemma ReadRepairKeepsInv(c: Cluster, s: State, id: nat, n: NodeId, w: ReplicaState)
    requires Inv(c, s) && id in s.queries && w.node in s.queries[id].sampled
    requires w == Report(w.node, s.queries[id].sampled[w.node]) && w.found
    ensures Inv(c, s.(hints := s.hints + {RepairFor(n, w)}))
  {
    assert ReadInv(c, s.history, s.committed, s.queries[id]);
    RepairIsRecorded(s.history, n, w, s.queries[id].sampled[w.node]);
    MoreHintsKeepInv(c, s, {RepairFor(n, w)});
  }

  lemma BeginReadKeepsInv(c: Cluster, s: State, id: nat)
    requires Inv(c, s)
    ensures Inv(c, s.(queries := s.queries[id := Read(s.committed.Keys, map[])]))
  {
  }

  lemma ReaderKeepsInv(c: Cluster, s: State, a: Action)
    requires Inv(c, s)
    ensures Inv(c, ReaderStep(c, s, a))
  {
    match a
    case BeginRead(id) => BeginReadKeepsInv(c, s, id);
    case Sample(id, n) =>
      if id in s.queries && n in c.nodes { SampleKeepsInv(c, s, id, n); }
    case ReadRepair(id, n, w) =>
      if id in s.queries && w.node in s.queries[id].sampled {
        if w == Report(w.node, s.queries[id].sampled[w.node]) && w.found {
          ReadRepairKeepsInv(c, s, id, n, w);
        }
      }
    case _ =>
  }

  // ---------------------------------------------------------------- every step, every run

  lemma InitInv(c: Cluster)
    requires c.Valid()
    ensures Inv(c, Init(c))
  {
  }

  lemma StepKeepsInv(c: Cluster, s: State, a: Action)
    requires c.Valid() && Inv(c, s)
    ensures Inv(c, Step(c, s, a))
  {
    if a.BeginWrite? {
      if s.op.Idle? { WriteKeepsInv(c, s, a.content); }
    } else if a.Deliver? {
      if a.node in s.nodes && (a.node, a.message) in s.net {
        DeliverKeepsInv(c, s, a.node, a.message, a.accepted);
      }
    } else {
      CountingKeepsInv(c, s, a);
      QueueingKeepsInv(c, s, a);
      HealerKeepsInv(c, s, a);
      WorkerKeepsInv(c, s, a);
      ReaderKeepsInv(c, s, a);
    }
  }

  /** The invariant holds in every state of every behavior. */
  lemma {:induction false} BehaviorInv(c: Cluster, acts: seq<Action>, b: seq<State>, j: nat)
    requires c.Valid() && Behavior(c, acts, b) && j <= |acts|
    ensures Inv(c, b[j])
  {
    if j == 0 {
      InitInv(c);
    } else {
      BehaviorInv(c, acts, b, j - 1);
      assert Moment(j - 1);
      StepKeepsInv(c, b[j - 1], acts[j - 1]);
    }
  }

  lemma GrowsTransitive(s: State, t: State, u: State)
    requires Grows(s, t) && Grows(t, u)
    ensures Grows(s, u)
  {
  }

  /** Versions never go back, and nothing written or reported is ever forgotten. */
  lemma {:induction false} BehaviorGrows(c: Cluster, acts: seq<Action>, b: seq<State>, i: nat, j: nat)
    requires c.Valid() && Behavior(c, acts, b) && i <= j <= |acts|
    ensures Grows(b[i], b[j])
    decreases j
  {
    if i == j {
      GrowsRefl(b[i]);
    } else {
      BehaviorGrows(c, acts, b, i, j - 1);
      BehaviorInv(c, acts, b, j - 1);
      assert Moment(j - 1);
      StepGrows(c, b[j - 1], acts[j - 1]);
      GrowsTransitive(b[i], b[j - 1], b[j]);
    }
  }
}
