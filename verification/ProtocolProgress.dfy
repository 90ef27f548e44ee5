/** What the replication protocol can do from every reachable state, and what it can never do. */
module ProtocolProgress {
  import opened Basics
  import opened Quorum
  import opened Replica
  import opened Protocol
  import opened ProtocolInvariant
  import opened ProtocolTheorems

  lemma Extend(c: Cluster, acts: seq<Action>, b: seq<State>, a: Action) returns (acts': seq<Action>, b': seq<State>)
    requires Behavior(c, acts, b)
    ensures acts' == acts + [a] && b' == b + [Step(c, b[|acts|], a)] && Behavior(c, acts', b')
  {
    acts', b' := acts + [a], b + [Step(c, b[|acts|], a)];
    forall i: nat | i < |acts'| && Moment(i)
      ensures b'[i + 1] == Step(c, b'[i], acts'[i])
    {
      if i < |acts| { assert Moment(i); }
    }
  }

  // ---------------------------------------------------------------- a write can be committed

  /** Write `v` is under way: its requests are sent, and the acknowledging nodes hold it. */
  ghost predicate UnderWay(c: Cluster, s: State, v: nat, content: Content, acked: set<NodeId>, failed: set<NodeId>) {
    && s.op == Writing(v, acked, failed) && Written(c, s, v, content, acked)
    && forall n | n in c.nodes && n != c.primary :: (n, Message(v, content)) in s.net
  }

  ghost predicate Written(c: Cluster, s: State, v: nat, content: Content, ns: set<NodeId>) {
    && s.nodes.Keys == c.nodes && v in s.history && s.history[v] == content
    && forall n | n in ns :: n in s.nodes && s.nodes[n] == Row(v, content)
  }

  lemma WriteStarts(c: Cluster, s: State, content: Content)
    requires Inv(c, s) && s.op.Idle? && (content.Tombstone? ==> s.nodes[c.primary].Row?)
    ensures UnderWay(c, Step(c, s, BeginWrite(content)), NextVersion(s.nodes[c.primary]), content, {c.primary}, {})
  {
  }

  /** A node that gets the request holds the write and answers Ok. */
  lemma NodeTakes(c: Cluster, s: State, v: nat, content: Content, acked: set<NodeId>, failed: set<NodeId>, n: NodeId)
    requires RowsInv(c, s.nodes, s.history) && UnderWay(c, s, v, content, acked, failed) && n in c.nodes && n != c.primary
    requires s.nodes[c.primary].Version() == v
    ensures var s' := Step(c, s, Deliver(n, Message(v, content), true));
            UnderWay(c, s', v, content, acked, failed) && (n, v) in s'.oks && s'.nodes[n] == Row(v, content)
  {
    var m := Message(v, content);
    assert (n, m) in s.net;
    assert Recorded(s.history, s.nodes[n]);
    ReplyMeans(s.nodes[n], m, true);
    assert Step(c, s, Deliver(n, m, true)) == DoDeliver(s, n, m, true);
  }

  lemma NodeCounts(c: Cluster, s: State, v: nat, content: Content, acked: set<NodeId>, failed: set<NodeId>, n: NodeId)
    requires c.primary in c.nodes && UnderWay(c, s, v, content, acked, failed) && n in c.nodes - acked - failed
    requires (n, v) in s.oks && s.nodes[n] == Row(v, content)
    ensures UnderWay(c, Step(c, s, Ack(n)), v, content, acked + {n}, failed)
  {
  }

  lemma NodeMissed(c: Cluster, s: State, v: nat, content: Content, acked: set<NodeId>, failed: set<NodeId>, n: NodeId)
    requires c.primary in c.nodes && UnderWay(c, s, v, content, acked, failed) && n in c.nodes - acked - failed
    ensures UnderWay(c, Step(c, s, Miss(n)), v, content, acked, failed + {n})
  {
  }

  /** What the invariant says of a write under way. */
  lemma UnderWayRows(c: Cluster, acts: seq<Action>, b: seq<State>, v: nat, content: Content, acked: set<NodeId>, failed: set<NodeId>)
    requires c.Valid() && Behavior(c, acts, b) && UnderWay(c, b[|acts|], v, content, acked, failed)
    ensures RowsInv(c, b[|acts|].nodes, b[|acts|].history) && b[|acts|].nodes[c.primary].Version() == v
  {
    BehaviorInv(c, acts, b, |acts|);
  }

  lemma AckOne(c: Cluster, acts: seq<Action>, b: seq<State>, v: nat, content: Content, acked: set<NodeId>, n: NodeId)
    returns (acts': seq<Action>, b': seq<State>)
    requires c.Valid() && Behavior(c, acts, b) && UnderWay(c, b[|acts|], v, content, acked, {})
    requires c.primary in acked && n in c.nodes - acked
    ensures Behavior(c, acts', b') && acts <= acts' && b <= b' && UnderWay(c, b'[|acts'|], v, content, acked + {n}, {})
  {
    UnderWayRows(c, acts, b, v, content, acked, {});
    NodeTakes(c, b[|acts|], v, content, acked, {}, n);
    acts', b' := Extend(c, acts, b, Deliver(n, Message(v, content), true));
    NodeCounts(c, b'[|acts'|], v, content, acked, {}, n);
    acts', b' := Extend(c, acts', b', Ack(n));
  }

  lemma AckAll(c: Cluster, acts: seq<Action>, b: seq<State>, v: nat, content: Content, ws: set<NodeId>)
    returns (acts': seq<Action>, b': seq<State>)
    requires c.Valid() && Behavior(c, acts, b) && ws <= c.nodes && c.primary in ws
    requires UnderWay(c, b[|acts|], v, content, {c.primary}, {})
    ensures Behavior(c, acts', b') && acts <= acts' && b <= b' && UnderWay(c, b'[|acts'|], v, content, ws, {})
  {
    acts', b' := acts, b;
    var acked := {c.primary};
    while acked != ws
      invariant Behavior(c, acts', b') && acts <= acts' && b <= b' && c.primary in acked && acked <= ws
      invariant UnderWay(c, b'[|acts'|], v, content, acked, {})
      decreases ws - acked
    {
      assert exists n :: n in ws && n !in acked;
      var n :| n in ws && n !in acked;
      acts', b' := AckOne(c, acts', b', v, content, acked, n);
      acked := acked + {n};
    }
  }

  lemma MissRest(c: Cluster, acts: seq<Action>, b: seq<State>, v: nat, content: Content, ws: set<NodeId>)
    returns (acts': seq<Action>, b': seq<State>)
    requires c.Valid() && Behavior(c, acts, b) && ws <= c.nodes && UnderWay(c, b[|acts|], v, content, ws, {})
    ensures Behavior(c, acts', b') && acts <= acts' && b <= b' && UnderWay(c, b'[|acts'|], v, content, ws, c.nodes - ws)
  {
    acts', b' := acts, b;
    var failed: set<NodeId> := {};
    while failed != c.nodes - ws
      invariant Behavior(c, acts', b') && acts <= acts' && b <= b' && failed <= c.nodes - ws
      invariant UnderWay(c, b'[|acts'|], v, content, ws, failed)
      decreases c.nodes - ws - failed
    {
      assert exists n :: n in c.nodes - ws && n !in failed;
      var n :| n in c.nodes - ws && n !in failed;
      NodeMissed(c, b'[|acts'|], v, content, ws, failed, n);
      acts', b' := Extend(c, acts', b', Miss(n));
      failed := failed + {n};
    }
  }

  ghost predicate Hinting(c: Cluster, s: State, v: nat, content: Content, ws: set<NodeId>, todo: set<NodeId>) {
    s.op == Queueing(v, ws, todo) && Written(c, s, v, content, ws)
  }

  lemma HintRest(c: Cluster, acts: seq<Action>, b: seq<State>, v: nat, content: Content, ws: set<NodeId>, todo: set<NodeId>)
    returns (acts': seq<Action>, b': seq<State>)
    requires c.Valid() && Behavior(c, acts, b) && Hinting(c, b[|acts|], v, content, ws, todo)
    ensures Behavior(c, acts', b') && acts <= acts' && b <= b' && Hinting(c, b'[|acts'|], v, content, ws, {})
    decreases todo
  {
    if todo == {} {
      return acts, b;
    }
    var n :| n in todo;
    acts', b' := Extend(c, acts, b, Enqueue(n, true));
    acts', b' := HintRest(c, acts', b', v, content, ws, todo - {n});
  }

  lemma CountingEnds(c: Cluster, s: State, v: nat, content: Content, ws: set<NodeId>)
    requires c.primary in c.nodes && ws <= c.nodes && UnderWay(c, s, v, content, ws, c.nodes - ws) && c.quorum.WriteSatisfied(|ws|)
    ensures Hinting(c, Step(c, s, CountAcks), v, content, ws, c.nodes - ws)
  {
  }

  lemma ReportEnds(c: Cluster, s: State, v: nat, content: Content, ws: set<NodeId>)
    requires c.primary in c.nodes && Hinting(c, s, v, content, ws, {})
    ensures var s' := Step(c, s, ReportSuccess(true));
            Written(c, s', v, content, ws) && v in s'.committed && s'.committed[v] == ws && s'.op.Idle?
  {
  }

  /** The write reaches exactly the nodes of `ws`. */
  lemma WriteReaches(c: Cluster, acts: seq<Action>, b: seq<State>, content: Content, ws: set<NodeId>)
    returns (acts': seq<Action>, b': seq<State>)
    requires c.Valid() && Behavior(c, acts, b) && b[|acts|].op.Idle? && c.primary in b[|acts|].nodes
    requires content.Tombstone? ==> b[|acts|].nodes[c.primary].Row?
    requires ws <= c.nodes && c.primary in ws
    ensures Behavior(c, acts', b') && acts <= acts' && b <= b'
    ensures UnderWay(c, b'[|acts'|], NextVersion(b[|acts|].nodes[c.primary]), content, ws, c.nodes - ws)
  {
    var v := NextVersion(b[|acts|].nodes[c.primary]);
    BehaviorInv(c, acts, b, |acts|);
    WriteStarts(c, b[|acts|], content);
    acts', b' := Extend(c, acts, b, BeginWrite(content));
    acts', b' := AckAll(c, acts', b', v, content, ws);
    acts', b' := MissRest(c, acts', b', v, content, ws);
  }

  /** From every reachable state in which the primary is idle, and for every set of W nodes that includes
      it, there is a run in which the write is sent, taken by exactly these nodes and committed. */
  lemma WriteCanCommit(c: Cluster, acts: seq<Action>, b: seq<State>, content: Content, ws: set<NodeId>)
    returns (acts': seq<Action>, b': seq<State>)
    requires c.Valid() && Behavior(c, acts, b) && b[|acts|].op.Idle? && c.primary in b[|acts|].nodes
    requires content.Tombstone? ==> b[|acts|].nodes[c.primary].Row?
    requires ws <= c.nodes && c.primary in ws && c.quorum.WriteSatisfied(|ws|)
    ensures Behavior(c, acts', b') && acts <= acts' && b <= b'
    ensures var v, s := NextVersion(b[|acts|].nodes[c.primary]), b'[|acts'|];
            Written(c, s, v, content, ws) && v in s.committed && s.committed[v] == ws && s.op.Idle?
  {
    var v := NextVersion(b[|acts|].nodes[c.primary]);
    acts', b' := WriteReaches(c, acts, b, content, ws);
    CountingEnds(c, b'[|acts'|], v, content, ws);
    acts', b' := Extend(c, acts', b', CountAcks);
    acts', b' := HintRest(c, acts', b', v, content, ws, c.nodes - ws);
    ReportEnds(c, b'[|acts'|], v, content, ws);
    acts', b' := Extend(c, acts', b', ReportSuccess(true));
  }

  // ---------------------------------------------------------------- when a hint can leave the queue

  /** The hint has been answered Ok already, or its target is not past its version. */
  ghost predicate Deliverable(s: State, x: Hint) {
    (x.target, x.version) in s.oks || (x.target in s.nodes && s.nodes[x.target].Version() <= x.version)
  }

  lemma StepSupersedes(c: Cluster, s: State, a: Action, n: NodeId, v: nat)
    requires s.nodes.Keys == c.nodes && c.primary in c.nodes && n in c.nodes
    requires RowsInv(c, s.nodes, s.history) && (s.op.Queueing? ==> s.op.version !in s.committed)
    requires (n, v) !in s.oks && s.nodes[n].Version() > v
    ensures var s' := Step(c, s, a); n in s'.nodes && (n, v) !in s'.oks && s'.nodes[n].Version() > v
  {
    StepGrows(c, s, a);
    if a.Deliver? {
      if a.node in s.nodes { ReplyMeans(s.nodes[a.node], a.message, a.accepted); }
    } else if !a.BeginWrite? {
      CountingFrame(c, s, a);
      QueueingFrame(s, a);
      HealerFrame(c, s, a);
      WorkerFrame(s, a);
      ReaderFrame(c, s, a);
    }
  }

  lemma StepKeepsSuperseded(c: Cluster, s: State, a: Action, x: Hint)
    requires s.nodes.Keys == c.nodes && c.primary in c.nodes && x in s.hints && (x.target, x.version) !in s.oks
    ensures x in Step(c, s, a).hints
  {
    if x !in Step(c, s, a).hints { HintRemoval(c, s, a, x); }
  }

  /** A hint that is no longer deliverable is pending for ever, and its target never holds its version. */
  lemma {:induction false} SupersededHintStays(c: Cluster, acts: seq<Action>, b: seq<State>, i: nat, j: nat, x: Hint)
    requires c.Valid() && Behavior(c, acts, b) && i <= j <= |acts|
    requires x in b[i].hints && x.target in c.nodes && !Deliverable(b[i], x)
    ensures x in b[j].hints && x.target in b[j].nodes
    ensures (x.target, x.version) !in b[j].oks && b[j].nodes[x.target].Version() > x.version
    decreases j
  {
    RowRecorded(c, acts, b, i, x.target);
    if i < j {
      SupersededHintStays(c, acts, b, i, j - 1, x);
      BehaviorInv(c, acts, b, j - 1);
      assert Moment(j - 1);
      StepSupersedes(c, b[j - 1], acts[j - 1], x.target, x.version);
      StepKeepsSuperseded(c, b[j - 1], acts[j - 1], x);
    }
  }

  lemma DeliveryAnswersOk(c: Cluster, s: State, x: Hint)
    requires RowsInv(c, s.nodes, s.history) && HintsInv(s.history, s.hints)
    requires x in s.hints && x.target in c.nodes && s.nodes[x.target].Version() <= x.version
    requires (x.target, x.Request()) in s.net
    ensures (x.target, x.version) in Step(c, s, Deliver(x.target, x.Request(), true)).oks
  {
    assert Recorded(s.history, s.nodes[x.target]);
    ReplyMeans(s.nodes[x.target], x.Request(), true);
  }

  lemma HintIsSent(c: Cluster, s: State, x: Hint)
    requires s.nodes.Keys == c.nodes && c.primary in c.nodes && x in s.hints
    ensures Step(c, s, SendHint(x)) == s.(net := s.net + {(x.target, x.Request())})
  {
  }

  lemma HintRetires(c: Cluster, s: State, x: Hint)
    requires s.nodes.Keys == c.nodes && c.primary in c.nodes && (x.target, x.version) in s.oks
    ensures x !in Step(c, s, RetireHint(x)).hints
  {
  }

  lemma HintCanBeAnswered(c: Cluster, acts: seq<Action>, b: seq<State>, x: Hint) returns (acts': seq<Action>, b': seq<State>)
    requires c.Valid() && Behavior(c, acts, b) && x in b[|acts|].hints && x.target in c.nodes
    requires x.target in b[|acts|].nodes && b[|acts|].nodes[x.target].Version() <= x.version
    ensures Behavior(c, acts', b') && acts <= acts' && b <= b' && (x.target, x.version) in b'[|acts'|].oks
  {
    BehaviorInv(c, acts, b, |acts|);
    HintIsSent(c, b[|acts|], x);
    acts', b' := Extend(c, acts, b, SendHint(x));
    DeliveryAnswersOk(c, b'[|acts'|], x);
    acts', b' := Extend(c, acts', b', Deliver(x.target, x.Request(), true));
  }

  lemma HintCanRetire(c: Cluster, acts: seq<Action>, b: seq<State>, x: Hint) returns (acts': seq<Action>, b': seq<State>)
    requires c.Valid() && Behavior(c, acts, b) && x in b[|acts|].hints && x.target in c.nodes && Deliverable(b[|acts|], x)
    ensures Behavior(c, acts', b') && acts <= acts' && b <= b' && x !in b'[|acts'|].hints
  {
    acts', b' := acts, b;
    if (x.target, x.version) !in b[|acts|].oks {
      acts', b' := HintCanBeAnswered(c, acts, b, x);
    }
    RowRecorded(c, acts', b', |acts'|, c.primary);
    HintRetires(c, b'[|acts'|], x);
    acts', b' := Extend(c, acts', b', RetireHint(x));
  }

  ghost predicate CanLeave(c: Cluster, acts: seq<Action>, b: seq<State>, x: Hint) {
    exists acts': seq<Action>, b': seq<State> :: Behavior(c, acts', b') && acts <= acts' && b <= b' && x !in b'[|acts'|].hints
  }

  /** A pending hint can leave the queue exactly when its target is not past the hinted version, or has
      already answered Ok to it: a superseded hint is retried for ever. */
  lemma HintCanLeaveIff(c: Cluster, acts: seq<Action>, b: seq<State>, x: Hint)
    requires c.Valid() && Behavior(c, acts, b) && x in b[|acts|].hints && x.target in c.nodes
    ensures CanLeave(c, acts, b, x) <==> Deliverable(b[|acts|], x)
  {
    if Deliverable(b[|acts|], x) {
      var acts', b' := HintCanRetire(c, acts, b, x);
    } else {
      forall acts': seq<Action>, b': seq<State> | Behavior(c, acts', b') && acts <= acts' && b <= b'
        ensures x in b'[|acts'|].hints
      {
        assert b'[|acts|] == b[|acts|];
        SupersededHintStays(c, acts', b', |acts|, |acts'|, x);
      }
    }
  }
}
