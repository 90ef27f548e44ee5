/** One key on one node: the stored row, the replica write guards of
    internal/object/service.go and the replica states compared by
    internal/replication/state.go and internal/replication/coordinator.go. */
module Replica {

  type NodeId = string
  type ETag = string

  /** What a version holds: live bytes named by their digest, or a delete marker. */
  datatype Content = Live(etag: ETag) | Tombstone

  datatype Row = Absent | Row(version: nat, content: Content) {
    function Version(): nat {
      if Absent? then 0 else version
    }
  }

  /** A replicate-put (live content) or replicate-delete (tombstone) request. */
  datatype Message = Message(version: nat, content: Content)

  datatype Reply = Ok | Stale | Conflict | Failed

  /** A replica's answer to one request.  `accepted` stands for everything the guards do not
      decide: the body matches its checksum and the storage calls succeed. */
  function Handle(row: Row, m: Message, accepted: bool): (Row, Reply) {
    if row.Absent? || m.version > row.version then
      if accepted then (Row(m.version, m.content), Ok) else (row, Failed)
    else if m.version < row.version then
      (row, Stale)
    else match m.content
      case Live(etag) =>
        if row.content.Tombstone? then (row, Stale)
        else if row.content.etag == etag then (row, Ok)
        else (row, Conflict)
      case Tombstone =>
        if row.content.Tombstone? then (row, Ok) else (row, Conflict)
  }

  /** What a reply says: Ok, that the row now is exactly what was requested; Failed, that a newer request
      was not taken; Stale and Conflict, that the row stayed and is newer, or as new with other content.
      A newer request is taken exactly when it is accepted, any other changes nothing. */
  lemma ReplyMeans(row: Row, m: Message, accepted: bool)
    ensures var (row', reply) := Handle(row, m, accepted);
            var newer := row.Absent? || m.version > row.version;
            && (reply == Ok <==> row' == Row(m.version, m.content))
            && (reply == Failed <==> newer && !accepted)
            && (reply == Stale <==> !newer && (m.version < row.version || (row.content == Tombstone && m.content != Tombstone)))
            && (reply == Conflict <==> !newer && m.version == row.version && row.content != Tombstone && m.content != row.content)
            && row' == if newer && accepted then Row(m.version, m.content) else row
  {
  }

  /** A row after any sequence of requests, each accepted. */
  function HandleAll(row: Row, ms: seq<Message>): Row {
    if ms == [] then row
    else Handle(HandleAll(row, ms[..|ms| - 1]), ms[|ms| - 1], true).0
  }

  // ---------------------------------------------------------------- order independence

  ghost predicate SameMessages(a: seq<Message>, b: seq<Message>) {
    forall m :: m in a <==> m in b
  }

  ghost predicate IsNewest(ms: seq<Message>, m: Message) {
    m in ms && forall x | x in ms :: x.version <= m.version
  }

  /** The newest version among the requests is requested with one content only. */
  ghost predicate NewestAgree(ms: seq<Message>) {
    forall m, m' | IsNewest(ms, m) && IsNewest(ms, m') :: m == m'
  }

  /** The row left by requests sent to an empty replica is one of the newest requested. */
  lemma {:induction false} HandleAllNewest(ms: seq<Message>)
    requires ms != []
    ensures var r := HandleAll(Absent, ms);
            r.Row? && IsNewest(ms, Message(r.version, r.content))
  {
    var init := ms[..|ms| - 1];
    var last := ms[|ms| - 1];
    assert ms == init + [last];
    if init != [] {
      HandleAllNewest(init);
    }
  }

  /** Order and repetition of requests never matter exactly when the newest ones agree. */
  lemma OrderIndependentIff(ms: seq<Message>)
    ensures NewestAgree(ms) <==>
            forall ms' | SameMessages(ms, ms') :: HandleAll(Absent, ms') == HandleAll(Absent, ms)
  {
    if NewestAgree(ms) {
      forall ms' | SameMessages(ms, ms')
        ensures HandleAll(Absent, ms') == HandleAll(Absent, ms)
      {
        assert ms' != [] ==> ms'[0] in ms;
        if ms != [] {
          assert ms[0] in ms';
          HandleAllNewest(ms);
          HandleAllNewest(ms');
          var r, r' := HandleAll(Absent, ms), HandleAll(Absent, ms');
          var m, m' := Message(r.version, r.content), Message(r'.version, r'.content);
          assert m in ms' && m' in ms;
          assert IsNewest(ms, m');
        }
      }
    } else {
      var m, m' :| IsNewest(ms, m) && IsNewest(ms, m') && m != m';
      FirstNewestWins(m, ms);
      FirstNewestWins(m', ms);
      assert SameMessages(ms, [m] + ms) && SameMessages(ms, [m'] + ms);
    }
  }

  lemma {:induction false} FirstNewestWins(m: Message, rest: seq<Message>)
    requires forall x | x in rest :: x.version <= m.version
    ensures HandleAll(Absent, [m] + rest) == Row(m.version, m.content)
  {
    if rest == [] {
      assert ([m] + rest)[..0] == [];
      assert HandleAll(Absent, []) == Absent;
    } else {
      var init := rest[..|rest| - 1];
      FirstNewestWins(m, init);
      assert ([m] + rest)[..|rest|] == [m] + init;
      assert rest[|rest| - 1] in rest;
    }
  }

  /** A tombstone outlives every older or equal request, in any order. */
  lemma TombstoneNotUndone(v: nat, before: seq<Message>, after: seq<Message>)
    requires forall x | x in before + after && x.version >= v :: x == Message(v, Tombstone)
    ensures HandleAll(Absent, before + [Message(v, Tombstone)] + after) == Row(v, Tombstone)
  {
    var ms := before + [Message(v, Tombstone)] + after;
    HandleAllNewest(ms);
    var r := HandleAll(Absent, ms);
    assert Message(v, Tombstone) in ms;
    assert forall x | x in ms :: x == Message(v, Tombstone) || x in before + after;
    assert r.version >= v;
  }

  // ---------------------------------------------------------------- the guard is one step

  /** The row written by a handler that checked the guards against `seen` but commits when the
      row is already `now`: nothing spans the check and the write. */
  function CommitAfterCheck(seen: Row, now: Row, m: Message): Row {
    if Handle(seen, m, true).0 != seen then Row(m.version, m.content) else now
  }

  /** A write that passed its check lands as one atomic handler call would exactly when the row
      it overwrites is still older (or already is what it writes). */
  lemma SplitHandlerSafeIff(seen: Row, now: Row, m: Message)
    requires Handle(seen, m, true).0 != seen
    ensures CommitAfterCheck(seen, now, m) == Handle(now, m, true).0 <==>
            now.Absent? || now.version < m.version || now == Row(m.version, m.content)
  {
  }

  /** Two overlapping handlers can undo an acknowledged newer version. */
  lemma SplitHandlerLosesUpdate()
    ensures var older, newer := Message(1, Live("a")), Message(2, Live("b"));
            var afterNewer := CommitAfterCheck(Absent, Absent, newer);
            && Handle(Absent, newer, true).1 == Ok
            && afterNewer.Version() == 2
            && CommitAfterCheck(Absent, afterNewer, older).Version() == 1
  {
  }

  // ---------------------------------------------------------------- comparing replica states

  datatype ReplicaState = ReplicaState(node: NodeId, found: bool, version: int, etag: ETag, deleted: bool)

  /** The state a node reports for its row. */
  function Report(n: NodeId, row: Row): ReplicaState {
    match row
    case Absent => ReplicaState(n, false, 0, "", false)
    case Row(v, Live(etag)) => ReplicaState(n, true, v, etag, false)
    case Row(v, Tombstone) => ReplicaState(n, true, v, "", true)
  }

  /** `best` is the first of the found states with the greatest version. */
  ghost predicate IsWinner(states: seq<ReplicaState>, best: ReplicaState) {
    exists i | 0 <= i < |states| ::
      && states[i] == best && best.found
      && (forall j | 0 <= j < |states| && states[j].found :: states[j].version <= best.version)
      && (forall j | 0 <= j < i && states[j].found :: states[j].version < best.version)
  }

  lemma WinnerUnique(states: seq<ReplicaState>, a: ReplicaState, b: ReplicaState)
    requires IsWinner(states, a) && IsWinner(states, b)
    ensures a == b
  {
  }

  method PickNewestState(states: seq<ReplicaState>) returns (best: ReplicaState, ok: bool)
    ensures ok <==> exists s :: s in states && s.found
    ensures ok ==> IsWinner(states, best)
  {
    best := ReplicaState("", false, 0, "", false);
    ok := false;
    for i := 0 to |states|
      invariant !ok ==> forall j | 0 <= j < i :: !states[j].found
      invariant ok ==> IsWinner(states[..i], best)
    {
      assert states[..i + 1] == states[..i] + [states[i]];
      if states[i].found && (!ok || states[i].version > best.version) {
        best, ok := states[i], true;
        assert states[..i + 1][i] == best;
      } else if ok {
        var k :| 0 <= k < i && states[..i][k] == best
          && (forall j | 0 <= j < k && states[..i][j].found :: states[..i][j].version < best.version);
        assert states[..i + 1][k] == best;
      }
    }
    assert states[..|states|] == states;
    if ok {
      assert best in states;
    }
  }

  /** A replica whose report differs from the winner's and is not ahead of it. */
  predicate NeedsRepair(winning: ReplicaState, s: ReplicaState) {
    && s.found && s.node != winning.node
    && !(s.version >= winning.version && s.etag == winning.etag && s.deleted == winning.deleted)
  }

  predicate InSyncWith(winning: ReplicaState, s: ReplicaState) {
    && s.found
    && s.version >= winning.version
    && (s.version == winning.version ==> s.etag == winning.etag)
    && s.deleted == winning.deleted
  }

  /** Where nodes at one version agree and none is newer than the winner, the nodes that need repair are
      exactly the answering ones behind it. */
  lemma NeedsRepairIff(w: NodeId, n: NodeId, winning: Row, row: Row)
    requires winning.Row? && row.Version() <= winning.version
    requires row.Row? && row.version == winning.version ==> row == winning
    ensures NeedsRepair(Report(w, winning), Report(n, row)) <==> n != w && row.Row? && row.version < winning.version
  {
  }

  /** And the nodes in sync with a live winner are exactly those that hold its row. */
  lemma InSyncIff(w: NodeId, n: NodeId, winning: Row, row: Row)
    requires winning.Row? && row.Version() <= winning.version
    requires row.Row? && row.version == winning.version ==> row == winning
    requires winning.version > 0
    ensures InSyncWith(Report(w, winning), Report(n, row)) <==> row == winning
  {
  }

  method ReplicasInSync(winning: ReplicaState, states: seq<ReplicaState>) returns (inSync: bool)
    ensures inSync <==> states != [] && forall s | s in states :: InSyncWith(winning, s)
  {
    for i := 0 to |states|
      invariant forall j | 0 <= j < i :: InSyncWith(winning, states[j])
    {
      var s := states[i];
      assert s in states;
      if !s.found {
        return false;
      }
      if s.version < winning.version || (s.version == winning.version && s.etag != winning.etag) {
        return false;
      }
      if s.deleted != winning.deleted {
        return false;
      }
    }
    return |states| > 0;
  }
}
