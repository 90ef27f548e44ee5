/** The quorum replication of one key as a transition system: the primary's coordinator
    (internal/replication/coordinator.go), the replica handlers (internal/object/service.go),
    the network between them, the hint queue and its worker, healing and quorum reads.

    Messages are never removed from `net`, so each one may be delivered late, repeatedly, in any
    order or never; replies in `oks` may likewise be noticed or missed.  The primary runs one
    write or healing pass at a time (`op`); reads and hint deliveries interleave freely. */
module Protocol {
  import opened Basics
  import opened Quorum
  import opened Replica

  datatype Cluster = Cluster(primary: NodeId, nodes: set<NodeId>, quorum: Config) {
    ghost predicate Valid() {
      primary in nodes && |nodes| == quorum.n && quorum.Validate() == Accepted
    }
  }

  datatype Hint = Hint(target: NodeId, version: nat, kind: HintKind, etag: ETag) {
    /** The request that delivering this hint sends. */
    function Request(): Message {
      Message(version, if kind.TombstoneHint? then Tombstone else Live(etag))
    }
  }

  /** What the coordinator is busy with. */
  datatype Op =
    | Idle
    | Writing(version: nat, acked: set<NodeId>, failed: set<NodeId>)
    | Queueing(version: nat, acked: set<NodeId>, todo: set<NodeId>)
    | Healing(polled: map<NodeId, Row>)

  /** A quorum read in progress: the writes already reported successful when it began, and the
      rows it has sampled. */
  datatype Read = Read(floor: set<nat>, sampled: map<NodeId, Row>)

  datatype State = State(
    nodes: map<NodeId, Row>,
    history: map<nat, Content>,
    net: set<(NodeId, Message)>,
    oks: set<(NodeId, nat)>,
    op: Op,
    committed: map<nat, set<NodeId>>,
    hints: set<Hint>,
    unqueued: set<(NodeId, nat)>,
    replicated: bool,
    queries: map<nat, Read>)

  function Init(c: Cluster): State {
    State(map n | n in c.nodes :: Absent, map[], {}, {}, Idle, map[], {}, {}, false, map[])
  }

  datatype Action =
    | BeginWrite(content: Content)
    | Deliver(node: NodeId, message: Message, accepted: bool)
    | Ack(node: NodeId)
    | Miss(node: NodeId)
    | CountAcks
    | Enqueue(node: NodeId, stored: bool)
    | ReportSuccess(statusStored: bool)
    | Abandon
    | BeginHeal
    | Poll(node: NodeId, answered: bool)
    | EndHeal(queued: set<NodeId>, statusStored: bool)
    | SendHint(hint: Hint)
    | RetireHint(hint: Hint)
    | BeginRead(id: nat)
    | Sample(id: nat, node: NodeId)
    | ReadRepair(id: nat, node: NodeId, winning: ReplicaState)

  /** Actions other than the primary's own writing and healing steps. */
  predicate Background(a: Action) {
    a.Deliver? || a.SendHint? || a.RetireHint? || a.BeginRead? || a.Sample? || a.ReadRepair?
  }

  /** The version the primary assigns next. */
  function NextVersion(row: Row): nat {
    if row.Absent? then 1 else row.version + 1
  }

  /** The hint that carries a write missed by `n`. */
  function HintFor(n: NodeId, v: nat, content: Content): Hint {
    match content
    case Live(etag) => Hint(n, v, PutHint, etag)
    case Tombstone => Hint(n, v, TombstoneHint, "")
  }

  /** The hint that repairs `n` from a live winner. */
  function RepairFor(n: NodeId, w: ReplicaState): Hint
    requires w.version >= 0
  {
    Hint(n, w.version, if w.deleted then TombstoneHint else RepairHint, w.etag)
  }

  // ---------------------------------------------------------------- steps

  function DoWrite(c: Cluster, s: State, content: Content): State
    requires c.primary in s.nodes
  {
    var v := NextVersion(s.nodes[c.primary]);
    s.(nodes := s.nodes[c.primary := Row(v, content)],
       history := s.history[v := content],
       net := s.net + (set n | n in c.nodes && n != c.primary :: (n, Message(v, content))),
       op := Writing(v, {c.primary}, {}),
       replicated := content.Tombstone?)
  }

  function DoDeliver(s: State, n: NodeId, m: Message, accepted: bool): State
    requires n in s.nodes
  {
    var (row, reply) := Handle(s.nodes[n], m, accepted);
    s.(nodes := s.nodes[n := row],
       oks := if reply.Ok? then s.oks + {(n, m.version)} else s.oks)
  }

  function DoCountAcks(c: Cluster, s: State): State
    requires s.op.Writing?
  {
    if c.quorum.WriteSatisfied(|s.op.acked|)
    then s.(op := Queueing(s.op.version, s.op.acked, s.op.failed))
    else s.(op := Idle)
  }

  function DoEnqueue(s: State, n: NodeId, stored: bool): State
    requires s.op.Queueing? && s.op.version in s.history
  {
    var v := s.op.version;
    var s' := s.(op := Queueing(v, s.op.acked, s.op.todo - {n}));
    if stored then s'.(hints := s.hints + {HintFor(n, v, s.history[v])})
    else s'.(unqueued := s.unqueued + {(n, v)})
  }

  function DoReport(s: State, statusStored: bool): State
    requires s.op.Queueing?
  {
    s.(op := Idle,
       committed := s.committed[s.op.version := s.op.acked],
       replicated := s.replicated || statusStored)
  }

  function DoEndHeal(c: Cluster, s: State, queued: set<NodeId>, statusStored: bool): State
    requires s.op.Healing? && c.primary in s.nodes
  {
    var winning := Report(c.primary, s.nodes[c.primary]);
    var polled := s.op.polled;
    var repairs := set n | n in queued && n in polled && NeedsRepair(winning, Report(n, polled[n])) ::
                     RepairFor(n, winning);
    var inSync := forall n | n in polled :: InSyncWith(winning, Report(n, polled[n]));
    s.(op := Idle,
       hints := s.hints + repairs,
       replicated := s.replicated || (inSync && statusStored))
  }

  // An action that is not enabled changes nothing.

  /** The coordinator collecting the replies to a write and counting them. */
  function CountingStep(c: Cluster, s: State, a: Action): State {
    match a
    case Ack(n) =>
      if s.op.Writing? && n in c.nodes - s.op.acked - s.op.failed && (n, s.op.version) in s.oks
      then s.(op := Writing(s.op.version, s.op.acked + {n}, s.op.failed)) else s
    case Miss(n) =>
      if s.op.Writing? && n in c.nodes - s.op.acked - s.op.failed
      then s.(op := Writing(s.op.version, s.op.acked, s.op.failed + {n})) else s
    case CountAcks =>
      if s.op.Writing? && c.nodes <= s.op.acked + s.op.failed then DoCountAcks(c, s) else s
    case _ => s
  }

  /** The coordinator queueing hints for the nodes that missed a write, and reporting it. */
  function QueueingStep(s: State, a: Action): State {
    match a
    case Enqueue(n, stored) =>
      if s.op.Queueing? && n in s.op.todo && s.op.version in s.history then DoEnqueue(s, n, stored) else s
    case ReportSuccess(statusStored) =>
      if s.op.Queueing? && s.op.todo == {} then DoReport(s, statusStored) else s
    case Abandon =>
      s.(op := Idle)
    case _ => s
  }

  /** The healing pass over the primary's live row. */
  function HealerStep(c: Cluster, s: State, a: Action): State
    requires c.primary in s.nodes && s.nodes.Keys == c.nodes
  {
    match a
    case BeginHeal =>
      if s.op.Idle? && s.nodes[c.primary].Row? && s.nodes[c.primary].content.Live?
      then s.(op := Healing(map[])) else s
    case Poll(n, answered) =>
      if s.op.Healing? && n in c.nodes - s.op.polled.Keys
      then s.(op := Healing(s.op.polled[n := if answered then s.nodes[n] else Absent])) else s
    case EndHeal(queued, statusStored) =>
      if s.op.Healing? && s.op.polled.Keys == c.nodes then DoEndHeal(c, s, queued, statusStored) else s
    case _ => s
  }

  /** The hint worker sending a pending hint, and dropping one whose target answered Ok. */
  function WorkerStep(s: State, a: Action): State {
    match a
    case SendHint(h) =>
      if h in s.hints then s.(net := s.net + {(h.target, h.Request())}) else s
    case RetireHint(h) =>
      if (h.target, h.version) in s.oks then s.(hints := s.hints - {h}) else s
    case _ => s
  }

  /** Quorum reads, each sampling the nodes one by one, and the repairs they schedule. */
  function ReaderStep(c: Cluster, s: State, a: Action): State
    requires s.nodes.Keys == c.nodes
  {
    match a
    case BeginRead(id) =>
      if id !in s.queries then s.(queries := s.queries[id := Read(s.committed.Keys, map[])]) else s
    case Sample(id, n) =>
      if id in s.queries && n in c.nodes - s.queries[id].sampled.Keys
      then var r := s.queries[id];
           s.(queries := s.queries[id := Read(r.floor, r.sampled[n := s.nodes[n]])])
      else s
    case ReadRepair(id, n, w) =>
      if && id in s.queries && n in s.queries[id].sampled && w.node in s.queries[id].sampled
         && w == Report(w.node, s.queries[id].sampled[w.node]) && w.found && !w.deleted
         && NeedsRepair(w, Report(n, s.queries[id].sampled[n]))
      then s.(hints := s.hints + {RepairFor(n, w)}) else s
    case _ => s
  }

  function Step(c: Cluster, s: State, a: Action): State {
    if s.nodes.Keys != c.nodes || c.primary !in c.nodes then s
    else if a.BeginWrite? then
      if s.op.Idle? && (a.content.Tombstone? ==> s.nodes[c.primary].Row?) then DoWrite(c, s, a.content) else s
    else if a.Deliver? then
      if (a.node, a.message) in s.net && a.node in s.nodes then DoDeliver(s, a.node, a.message, a.accepted) else s
    else if a.BeginHeal? || a.Poll? || a.EndHeal? then HealerStep(c, s, a)
    else if a.SendHint? || a.RetireHint? then WorkerStep(s, a)
    else if a.BeginRead? || a.Sample? || a.ReadRepair? then ReaderStep(c, s, a)
    else if a.Ack? || a.Miss? || a.CountAcks? then CountingStep(c, s, a)
    else QueueingStep(s, a)
  }

  /** Names a moment of a behavior, so that its step is looked at only where a proof says so. */
  ghost predicate Moment(i: nat) {
    true
  }

  /** The states `b` visited by taking `acts` one after the other from an empty cluster. */
  ghost predicate Behavior(c: Cluster, acts: seq<Action>, b: seq<State>) {
    && |b| == |acts| + 1
    && b[0] == Init(c)
    && forall i: nat {:trigger Moment(i)} | i < |acts| && Moment(i) :: b[i + 1] == Step(c, b[i], acts[i])
  }

  // ---------------------------------------------------------------- invariant

  type Rows = map<NodeId, Row>
  type History = map<nat, Content>

  /** The row is what the primary wrote at the row's version. */
  ghost predicate Recorded(h: History, row: Row) {
    row.Row? ==> row.version in h && h[row.version] == row.content
  }

  ghost predicate RowsInv(c: Cluster, rows: Rows, h: History) {
    && rows.Keys == c.nodes
    && c.primary in c.nodes
    && (forall v :: v in h <==> 1 <= v <= rows[c.primary].Version())
    && (rows[c.primary].Row? ==> rows[c.primary].version > 0)
    && (forall n | n in c.nodes :: Recorded(h, rows[n]))
  }

  /** Requests and hints carry what the primary wrote at their version. */
  ghost predicate NetInv(h: History, net: set<(NodeId, Message)>) {
    forall p | p in net :: p.1.version in h && h[p.1.version] == p.1.content
  }

  ghost predicate HintsInv(h: History, hints: set<Hint>) {
    forall x | x in hints :: x.version in h && h[x.version] == x.Request().content
  }

  /** Every node of `ns` holds version `v` or newer. */
  ghost predicate AllHold(rows: Rows, ns: set<NodeId>, v: nat) {
    forall n | n in ns :: n in rows && rows[n].Version() >= v
  }

  ghost predicate OksInv(rows: Rows, oks: set<(NodeId, nat)>) {
    forall p | p in oks :: p.0 in rows && rows[p.0].Version() >= p.1
  }

  /** Where a write may stand at a node: in its row, in a hint that brings it, or in the list of
      writes whose hint could not be stored. */
  datatype Places = Places(rows: Rows, oks: set<(NodeId, nat)>, hints: set<Hint>, unqueued: set<(NodeId, nat)>)

  ghost predicate Covered(p: Places, n: NodeId, v: nat, content: Content) {
    || (n in p.rows && p.rows[n].Version() >= v)
    || HintFor(n, v, content) in p.hints
    || (n, v) in p.unqueued
  }

  ghost predicate AllCovered(p: Places, ns: set<NodeId>, v: nat, content: Content) {
    forall n | n in ns :: Covered(p, n, v, content)
  }

  function Standing(s: State): Places {
    Places(s.nodes, s.oks, s.hints, s.unqueued)
  }

  ghost predicate WritingInv(c: Cluster, s: State)
    requires s.op.Writing? && c.primary in s.nodes
  {
    var Writing(v, acked, failed) := s.op;
    && c.primary in acked
    && v in s.history && v == s.nodes[c.primary].Version() && v !in s.committed
    && acked + failed <= c.nodes && AllHold(s.nodes, acked, v)
  }

  ghost predicate QueueingInv(c: Cluster, s: State)
    requires s.op.Queueing? && c.primary in s.nodes
  {
    var Queueing(v, acked, todo) := s.op;
    && v in s.history && v == s.nodes[c.primary].Version() && v !in s.committed
    && acked <= c.nodes && AllHold(s.nodes, acked, v) && c.quorum.WriteSatisfied(|acked|)
    && AllCovered(Standing(s), c.nodes - todo, v, s.history[v])
  }

  ghost predicate PolledInv(rows: Rows, h: History, polled: Rows) {
    forall n | n in polled :: n in rows && Recorded(h, polled[n]) && polled[n].Version() <= rows[n].Version()
  }

  ghost predicate OpInv(c: Cluster, s: State)
    requires c.primary in s.nodes
  {
    match s.op
    case Idle => true
    case Writing(_, _, _) => WritingInv(c, s)
    case Queueing(_, _, _) => QueueingInv(c, s)
    case Healing(polled) =>
      && s.nodes[c.primary].Row? && s.nodes[c.primary].content.Live?
      && PolledInv(s.nodes, s.history, polled)
  }

  ghost predicate CommittedInv(c: Cluster, h: History, p: Places, committed: map<nat, set<NodeId>>) {
    forall v | v in committed ::
      && v in h
      && committed[v] <= c.nodes && c.quorum.WriteSatisfied(|committed[v]|)
      && AllHold(p.rows, committed[v], v)
      && AllCovered(p, c.nodes, v, h[v])
  }

  /** At least W nodes hold version `v` or newer. */
  ghost predicate QuorumHolds(c: Cluster, rows: Rows, v: nat) {
    exists ns: set<NodeId> :: ns <= c.nodes && c.quorum.WriteSatisfied(|ns|) && AllHold(rows, ns, v)
  }

  /** A live row marked replicated is held by a write quorum. */
  ghost predicate StatusInv(c: Cluster, rows: Rows, replicated: bool)
    requires c.primary in rows
  {
    var row := rows[c.primary];
    row.Row? && row.content.Live? && replicated ==> QuorumHolds(c, rows, row.version)
  }

  ghost predicate ReadInv(c: Cluster, h: History, committed: map<nat, set<NodeId>>, r: Read) {
    && r.sampled.Keys <= c.nodes
    && r.floor <= committed.Keys
    && (forall n | n in r.sampled :: Recorded(h, r.sampled[n]))
    && (forall v, n | v in r.floor && n in committed[v] && n in r.sampled :: r.sampled[n].Version() >= v)
  }

  ghost predicate QueriesInv(c: Cluster, h: History, committed: map<nat, set<NodeId>>, qs: map<nat, Read>) {
    forall id | id in qs :: ReadInv(c, h, committed, qs[id])
  }

  ghost predicate Inv(c: Cluster, s: State) {
    && RowsInv(c, s.nodes, s.history)
    && NetInv(s.history, s.net)
    && HintsInv(s.history, s.hints)
    && OksInv(s.nodes, s.oks)
    && OpInv(c, s)
    && CommittedInv(c, s.history, Standing(s), s.committed)
    && StatusInv(c, s.nodes, s.replicated)
    && QueriesInv(c, s.history, s.committed, s.queries)
  }

  // ---------------------------------------------------------------- growth

  ghost predicate RowsGrow(rows: Rows, rows': Rows) {
    && rows'.Keys == rows.Keys
    && forall n | n in rows :: rows[n].Version() <= rows'[n].Version()
  }

  ghost predicate HistoryGrows(h: History, h': History) {
    forall v | v in h :: v in h' && h'[v] == h[v]
  }

  ghost predicate CommittedGrows(m: map<nat, set<NodeId>>, m': map<nat, set<NodeId>>) {
    forall v | v in m :: v in m' && m'[v] == m[v]
  }

  /** Rows only gain versions; what was written or reported stays written and reported. */
  ghost predicate Grows(s: State, s': State) {
    && RowsGrow(s.nodes, s'.nodes)
    && HistoryGrows(s.history, s'.history)
    && CommittedGrows(s.committed, s'.committed)
    && s.oks <= s'.oks && s.unqueued <= s'.unqueued && s.net <= s'.net
  }

  lemma HandleGrows(row: Row, m: Message, accepted: bool)
    ensures var (row', reply) := Handle(row, m, accepted);
            && row.Version() <= row'.Version()
            && (row' == row || row' == Row(m.version, m.content))
            && (reply.Ok? ==> row'.Version() >= m.version)
  {
  }

  lemma WriteGrows(c: Cluster, s: State, content: Content)
    requires RowsInv(c, s.nodes, s.history)
    ensures Grows(s, DoWrite(c, s, content))
  {
  }

  lemma DeliverGrows(s: State, n: NodeId, m: Message, accepted: bool)
    requires n in s.nodes
    ensures Grows(s, DoDeliver(s, n, m, accepted))
  {
    HandleGrows(s.nodes[n], m, accepted);
  }

  lemma GrowsRefl(s: State)
    ensures Grows(s, s)
  {
  }

  /** Every step except a write and a delivery leaves the rows, the history and the replies alone. */
  ghost predicate SameData(s: State, s': State) {
    && s'.nodes == s.nodes && s'.history == s.history && s'.oks == s.oks
    && s.net <= s'.net && s.unqueued <= s'.unqueued
  }

  lemma CountingFrame(c: Cluster, s: State, a: Action)
    ensures var s' := CountingStep(c, s, a); s' == s.(op := s'.op)
  {
  }

  lemma QueueingFrame(s: State, a: Action)
    ensures var s' := QueueingStep(s, a);
            && SameData(s, s')
            && s'.net == s.net && s'.queries == s.queries
            && (s'.committed == s.committed || (a.ReportSuccess? && s.op.Queueing? && s' == DoReport(s, a.statusStored)))
            && (s'.hints == s.hints || a.Enqueue?)
            && (s'.replicated == s.replicated || a.ReportSuccess?)
  {
  }

  lemma HealerFrame(c: Cluster, s: State, a: Action)
    requires c.primary in s.nodes && s.nodes.Keys == c.nodes
    ensures var s' := HealerStep(c, s, a);
            && SameData(s, s')
            && s'.net == s.net && s'.queries == s.queries && s'.committed == s.committed
            && s'.unqueued == s.unqueued && s.hints <= s'.hints
            && (a.EndHeal? || (s'.replicated == s.replicated && s'.hints == s.hints))
  {
  }

  lemma WorkerFrame(s: State, a: Action)
    ensures var s' := WorkerStep(s, a);
            && SameData(s, s')
            && s'.queries == s.queries && s'.committed == s.committed && s'.unqueued == s.unqueued
            && s'.op == s.op && s'.replicated == s.replicated
  {
  }

  lemma ReaderFrame(c: Cluster, s: State, a: Action)
    requires s.nodes.Keys == c.nodes
    ensures var s' := ReaderStep(c, s, a);
            && SameData(s, s')
            && s'.net == s.net && s'.committed == s.committed && s'.unqueued == s.unqueued
            && s'.op == s.op && s'.replicated == s.replicated && s.hints <= s'.hints
            && (s'.hints == s.hints || a.ReadRepair?)
  {
  }

  lemma StepGrows(c: Cluster, s: State, a: Action)
    requires RowsInv(c, s.nodes, s.history)
    requires s.op.Queueing? ==> s.op.version !in s.committed
    ensures Grows(s, Step(c, s, a))
  {
    GrowsRefl(s);
    if a.BeginWrite? {
      WriteGrows(c, s, a.content);
    } else if a.Deliver? {
      if a.node in s.nodes { DeliverGrows(s, a.node, a.message, a.accepted); }
    } else {
      CountingFrame(c, s, a);
      QueueingFrame(s, a);
      HealerFrame(c, s, a);
      WorkerFrame(s, a);
      ReaderFrame(c, s, a);
    }
  }
}
