/** Peer reachability: internal/cluster/peer_health.go. */
module PeerHealth {

  /** What the tracker's three maps say of one peer. */
  datatype Peer = Peer(up: bool, failures: int, successes: int)

  const FRESH := Peer(true, 0, 0)

  function Succeed(p: Peer, recover: int): Peer {
    if p.up then Peer(true, 0, 0)
    else if p.successes + 1 >= recover then Peer(true, 0, 0)
    else Peer(false, 0, p.successes + 1)
  }

  function Fail(p: Peer, fail: int): Peer {
    if p.up && p.failures + 1 >= fail then Peer(false, 0, 0)
    else Peer(p.up, p.failures + 1, 0)
  }

  function Probe(p: Peer, ok: bool, fail: int, recover: int): Peer {
    if ok then Succeed(p, recover) else Fail(p, fail)
  }

  /** A peer after the probe results `h`, oldest first. */
  function After(h: seq<bool>, fail: int, recover: int): Peer {
    if h == [] then FRESH else Probe(After(h[..|h| - 1], fail, recover), h[|h| - 1], fail, recover)
  }

  // ---------------------------------------------------------------- what the counters mean

  /** The last `n` results before place `i` are all `ok`. */
  ghost predicate RunBefore(h: seq<bool>, ok: bool, n: int, i: int) {
    0 <= n <= i <= |h| && forall k | i - n <= k < i :: h[k] == ok
  }

  /** A run of `fail` consecutive failures that no run of `recover` consecutive successes follows. */
  ghost predicate DownSince(h: seq<bool>, fail: int, recover: int, i: int) {
    RunBefore(h, false, fail, i) && forall j | i <= j <= |h| :: !RunBefore(h, true, recover, j)
  }

  ghost predicate MarkedDown(h: seq<bool>, fail: int, recover: int) {
    exists i :: DownSince(h, fail, recover, i)
  }

  /** `n` is the length of the longest run of `ok` that ends the history. */
  ghost predicate Trailing(h: seq<bool>, ok: bool, n: int) {
    RunBefore(h, ok, n, |h|) && (n < |h| ==> h[|h| - 1 - n] != ok)
  }

  lemma TrailingIsLongest(h: seq<bool>, ok: bool, n: int, m: int)
    requires Trailing(h, ok, n) && RunBefore(h, ok, m, |h|)
    ensures m <= n
  {
  }

  lemma RunBeforeNext(h: seq<bool>, x: bool, ok: bool, n: int, i: int)
    requires i <= |h|
    ensures RunBefore(h + [x], ok, n, i) <==> RunBefore(h, ok, n, i)
  {
    if RunBefore(h + [x], ok, n, i) {
      forall k | i - n <= k < i
        ensures h[k] == ok
      {
        assert (h + [x])[k] == ok;
      }
    }
  }

  lemma TrailingNext(h: seq<bool>, x: bool, ok: bool, n: int)
    requires Trailing(h, ok, n)
    ensures Trailing(h + [x], ok, if x == ok then n + 1 else 0)
  {
  }

  /** One more result adds at most one more place where a run can end. */
  lemma MarkedDownNext(h: seq<bool>, x: bool, fail: int, recover: int)
    requires fail >= 1 && recover >= 1
    ensures MarkedDown(h + [x], fail, recover) <==>
              || RunBefore(h + [x], false, fail, |h| + 1)
              || (MarkedDown(h, fail, recover) && !RunBefore(h + [x], true, recover, |h| + 1))
  {
    var g := h + [x];
    forall i | i <= |h|
      ensures RunBefore(g, false, fail, i) <==> RunBefore(h, false, fail, i)
      ensures RunBefore(g, true, recover, i) <==> RunBefore(h, true, recover, i)
    {
      RunBeforeNext(h, x, false, fail, i);
      RunBeforeNext(h, x, true, recover, i);
    }
    if RunBefore(g, false, fail, |g|) {
      assert g[|g| - 1] == false;
      assert DownSince(g, fail, recover, |g|);
    }
    if i :| DownSince(g, fail, recover, i) && i <= |h| {
      assert DownSince(h, fail, recover, i);
    }
    if MarkedDown(h, fail, recover) && !RunBefore(g, true, recover, |g|) {
      var i :| DownSince(h, fail, recover, i);
      assert DownSince(g, fail, recover, i);
    }
  }

  /** The counter that is in use measures the run at the end of the history, below its threshold. */
  ghost predicate Measures(p: Peer, h: seq<bool>, fail: int, recover: int) {
    if p.up then p.failures < fail && Trailing(h, false, p.failures)
    else p.successes < recover && Trailing(h, true, p.successes)
  }

  lemma ProbeMeasures(p: Peer, h: seq<bool>, x: bool, fail: int, recover: int)
    requires fail >= 1 && recover >= 1 && Measures(p, h, fail, recover)
    ensures Measures(Probe(p, x, fail, recover), h + [x], fail, recover)
    ensures Probe(p, x, fail, recover).up <==>
              if p.up then !RunBefore(h + [x], false, fail, |h| + 1) else RunBefore(h + [x], true, recover, |h| + 1)
  {
    var g := h + [x];
    if p.up {
      TrailingNext(h, x, false, p.failures);
      var n := if x then 0 else p.failures + 1;
      if RunBefore(g, false, fail, |g|) { TrailingIsLongest(g, false, n, fail); }
      assert n >= fail ==> RunBefore(g, false, fail, |g|);
    } else {
      TrailingNext(h, x, true, p.successes);
      var n := if x then p.successes + 1 else 0;
      if RunBefore(g, true, recover, |g|) { TrailingIsLongest(g, true, n, recover); }
      assert n >= recover ==> RunBefore(g, true, recover, |g|);
    }
  }

  /** After any probe history a peer is unreachable exactly when some run of `fail` consecutive
      failures is not followed by a run of `recover` consecutive successes. */
  lemma {:induction false} Hysteresis(h: seq<bool>, fail: int, recover: int)
    requires fail >= 1 && recover >= 1
    ensures Measures(After(h, fail, recover), h, fail, recover)
    ensures !After(h, fail, recover).up <==> MarkedDown(h, fail, recover)
  {
    if h == [] {
      assert forall i :: !RunBefore(h, false, fail, i);
    } else {
      var init, x := h[..|h| - 1], h[|h| - 1];
      assert h == init + [x];
      var p := After(init, fail, recover);
      Hysteresis(init, fail, recover);
      ProbeMeasures(p, init, x, fail, recover);
      MarkedDownNext(init, x, fail, recover);
      assert RunBefore(h, false, fail, |h|) ==> !h[|h| - 1];
    }
  }

  // ---------------------------------------------------------------- reports

  /** What recordSuccess returns. */
  predicate ReportsRecovery(p: Peer, recover: int) {
    !p.up && p.successes + 1 >= recover
  }

  /** What recordFailure returns. */
  predicate ReportsLoss(p: Peer, fail: int) {
    p.up && p.failures + 1 >= fail
  }

  /** How many probes of a history reported the peer lost, and how many reported it recovered. */
  function Losses(h: seq<bool>, fail: int, recover: int): nat {
    if h == [] then 0
    else
      var init := h[..|h| - 1];
      Losses(init, fail, recover) + if !h[|h| - 1] && ReportsLoss(After(init, fail, recover), fail) then 1 else 0
  }

  function Recoveries(h: seq<bool>, fail: int, recover: int): nat {
    if h == [] then 0
    else
      var init := h[..|h| - 1];
      Recoveries(init, fail, recover) + if h[|h| - 1] && ReportsRecovery(After(init, fail, recover), recover) then 1 else 0
  }

  lemma {:induction false} ReportsBalance(h: seq<bool>, fail: int, recover: int)
    ensures Losses(h, fail, recover) == Recoveries(h, fail, recover) + if After(h, fail, recover).up then 0 else 1
  {
    if h != [] { ReportsBalance(h[..|h| - 1], fail, recover); }
  }

  /** Reports alternate, starting with a loss: after any history one more loss than recovery has been
      reported if some run of failures is not followed by a run of successes, and as many otherwise. */
  lemma ReportsAlternate(h: seq<bool>, fail: int, recover: int)
    requires fail >= 1 && recover >= 1
    ensures Losses(h, fail, recover) == Recoveries(h, fail, recover) + if MarkedDown(h, fail, recover) then 1 else 0
  {
    ReportsBalance(h, fail, recover);
    Hysteresis(h, fail, recover);
  }

  /** A success reports a recovery exactly when it completes the first run of successes since the peer
      was marked down, a failure a loss exactly when it completes a run of failures while it is up. */
  lemma ReportIff(h: seq<bool>, fail: int, recover: int)
    requires fail >= 1 && recover >= 1
    ensures ReportsRecovery(After(h, fail, recover), recover) <==>
              MarkedDown(h, fail, recover) && RunBefore(h + [true], true, recover, |h| + 1)
    ensures ReportsLoss(After(h, fail, recover), fail) <==>
              !MarkedDown(h, fail, recover) && RunBefore(h + [false], false, fail, |h| + 1)
  {
    Hysteresis(h, fail, recover);
    ProbeMeasures(After(h, fail, recover), h, true, fail, recover);
    ProbeMeasures(After(h, fail, recover), h, false, fail, recover);
  }

  lemma FailureEndsRun(h: seq<bool>, n: int)
    requires n >= 1
    ensures !RunBefore(h + [false], true, n, |h| + 1)
  {
    assert (h + [false])[|h|] == false;
  }

  // ---------------------------------------------------------------- the tracker

  function Lookup<T>(m: map<string, T>, id: string, missing: T): T {
    if id in m then m[id] else missing
  }

  class PeerHealthTracker {
    const localID: string
    var reachable: map<string, bool>
    var failures: map<string, int>
    var successes: map<string, int>

    constructor (local: string, nodes: seq<string>)
      ensures localID == local
      ensures reachable.Keys == (set id | id in nodes && id != local)
      ensures forall id | id in nodes && id != local :: View(id) == FRESH
    {
      localID := local;
      reachable, failures, successes := map[], map[], map[];
      new;
      for i := 0 to |nodes|
        invariant localID == local && failures == map[] && successes == map[]
        invariant reachable.Keys == set id | id in nodes[..i] && id != local
        invariant forall id | id in reachable :: reachable[id]
      {
        assert nodes[..i + 1] == nodes[..i] + [nodes[i]];
        if nodes[i] != local {
          reachable := reachable[nodes[i] := true];
        }
      }
      assert nodes[..|nodes|] == nodes;
    }

    function View(id: string): Peer
      reads this
    {
      Peer(Lookup(reachable, id, false), Lookup(failures, id, 0), Lookup(successes, id, 0))
    }

    /** A peer the tracker was not built with counts as reachable; so does the node itself. */
    function IsReachable(id: string): (r: bool)
      reads this
      ensures id != localID && id in reachable ==> r == View(id).up
      ensures id == localID || id !in reachable ==> r
    {
      if id == localID || id !in reachable then true else reachable[id]
    }

    method RecordSuccess(id: string, recover: int) returns (recovered: bool)
      modifies this
      ensures View(id) == Succeed(old(View(id)), recover)
      ensures recovered == ReportsRecovery(old(View(id)), recover)
      ensures recovered <==> !old(View(id).up) && View(id).up
      ensures forall other | other != id :: View(other) == old(View(other))
      ensures reachable.Keys == old(reachable.Keys) + if recovered then {id} else {}
    {
      failures := failures[id := 0];
      if !Lookup(reachable, id, false) {
        successes := successes[id := Lookup(successes, id, 0) + 1];
        if successes[id] >= recover {
          reachable := reachable[id := true];
          successes := successes[id := 0];
          return true;
        }
        return false;
      }
      successes := successes[id := 0];
      return false;
    }

    method RecordFailure(id: string, fail: int) returns (lost: bool)
      modifies this
      ensures View(id) == Fail(old(View(id)), fail)
      ensures lost == ReportsLoss(old(View(id)), fail)
      ensures lost <==> old(View(id).up) && !View(id).up
      ensures forall other | other != id :: View(other) == old(View(other))
      ensures reachable.Keys == old(reachable.Keys)
    {
      successes := successes[id := 0];
      if Lookup(reachable, id, false) {
        failures := failures[id := Lookup(failures, id, 0) + 1];
        if failures[id] >= fail {
          reachable := reachable[id := false];
          failures := failures[id := 0];
          return true;
        }
        return false;
      }
      failures := failures[id := Lookup(failures, id, 0) + 1];
      return false;
    }
  }

  // ---------------------------------------------------------------- the monitor

  function Threshold(configured: int, fallback: int): int {
    if configured <= 0 then fallback else configured
  }

  /** The prober of one node: its members other than itself, and all their probe results so far. */
  class PeerHealthMonitor {
    const nodes: seq<string>
    const tracker: PeerHealthTracker
    const failThreshold: int
    const recoverThreshold: int
    ghost var history: map<string, seq<bool>>

    ghost predicate Probed(id: string) {
      id in nodes && id != tracker.localID
    }

    /** Every peer stands where its own probe results put it. */
    ghost predicate Valid()
      reads this, tracker
    {
      && failThreshold >= 1 && recoverThreshold >= 1
      && (forall i, j | 0 <= i < j < |nodes| :: nodes[i] != nodes[j])
      && tracker.reachable.Keys == (set id | id in nodes && id != tracker.localID)
      && forall id | Probed(id) ::
          id in history && tracker.View(id) == After(history[id], failThreshold, recoverThreshold)
    }

    constructor (local: string, ids: seq<string>, fail: int, recover: int)
      requires forall i, j | 0 <= i < j < |ids| :: ids[i] != ids[j]
      ensures Valid() && fresh(tracker) && nodes == ids && tracker.localID == local
      ensures (fail >= 1 ==> failThreshold == fail) && (fail <= 0 ==> failThreshold == 3)
      ensures (recover >= 1 ==> recoverThreshold == recover) && (recover <= 0 ==> recoverThreshold == 2)
      ensures forall id | Probed(id) :: history[id] == []
    {
      nodes := ids;
      tracker := new PeerHealthTracker(local, ids);
      failThreshold := Threshold(fail, 3);
      recoverThreshold := Threshold(recover, 2);
      history := map id | id in ids :: [];
    }

    /** The result that turns `before` into `after` completes a recovery. */
    ghost predicate Recovers(before: seq<bool>, after: seq<bool>) {
      MarkedDown(before, failThreshold, recoverThreshold) && RunBefore(after, true, recoverThreshold, |after|)
    }

    method ProbePeer(id: string, ok: bool) returns (recovered: bool)
      requires Valid() && Probed(id)
      modifies this, tracker
      ensures Valid() && history == old(history)[id := old(history[id]) + [ok]]
      ensures recovered <==> Recovers(old(history[id]), history[id])
    {
      ghost var h := history[id];
      assert (h + [ok])[..|h|] == h;
      ReportIff(h, failThreshold, recoverThreshold);
      FailureEndsRun(h, recoverThreshold);
      recovered := false;
      if ok {
        recovered := tracker.RecordSuccess(id, recoverThreshold);
      } else {
        var lost := tracker.RecordFailure(id, failThreshold);
      }
      history := history[id := h + [ok]];
    }

    /** How far a round has come: the first `n` nodes have their results, and `recovered` lists those
        among them that came back. */
    ghost predicate Progress(before: map<string, seq<bool>>, now: map<string, seq<bool>>, n: nat,
                             recovered: seq<string>, healthy: string -> bool) {
      && n <= |nodes|
      && (forall id | Probed(id) :: id in before && id in now)
      && (forall id | Probed(id) :: now[id] == if id in nodes[..n] then before[id] + [healthy(id)] else before[id])
      && (forall id :: id in recovered <==> Probed(id) && id in nodes[..n] && Recovers(before[id], now[id]))
      && forall i, j | 0 <= i < j < |recovered| :: recovered[i] != recovered[j]
    }

    lemma ProgressNext(before: map<string, seq<bool>>, now: map<string, seq<bool>>, n: nat,
                       recovered: seq<string>, healthy: string -> bool)
      requires Progress(before, now, n, recovered, healthy) && n < |nodes| && nodes[n] !in nodes[..n]
      ensures nodes[n] == tracker.localID ==> Progress(before, now, n + 1, recovered, healthy)
      ensures nodes[n] != tracker.localID ==>
                var next := now[nodes[n] := now[nodes[n]] + [healthy(nodes[n])]];
                var back := if Recovers(now[nodes[n]], next[nodes[n]]) then [nodes[n]] else [];
                Progress(before, next, n + 1, recovered + back, healthy)
    {
      assert nodes[..n + 1] == nodes[..n] + [nodes[n]];
    }

    method ProbeNth(n: nat, healthy: string -> bool, ghost before: map<string, seq<bool>>, found: seq<string>)
      returns (recovered: seq<string>)
      requires Valid() && n < |nodes| && Progress(before, history, n, found, healthy)
      modifies this, tracker
      ensures Valid() && Progress(before, history, n + 1, recovered, healthy)
    {
      assert nodes[n] !in nodes[..n];
      ProgressNext(before, history, n, found, healthy);
      recovered := found;
      if nodes[n] != tracker.localID {
        var back := ProbePeer(nodes[n], healthy(nodes[n]));
        if back {
          recovered := recovered + [nodes[n]];
        }
      }
    }

    /** One round: each peer gets its own result, and onRecovered is called for exactly the peers
        whose result completes a recovery. */
    method ProbeOnce(healthy: string -> bool) returns (recovered: seq<string>)
      requires Valid()
      modifies this, tracker
      ensures Valid()
      ensures forall id | Probed(id) :: history[id] == old(history[id]) + [healthy(id)]
      ensures forall id :: id in recovered <==> Probed(id) && Recovers(old(history[id]), history[id])
      ensures forall i, j | 0 <= i < j < |recovered| :: recovered[i] != recovered[j]
    {
      recovered := [];
      ghost var before := history;
      for n := 0 to |nodes|
        invariant Valid() && Progress(before, history, n, recovered, healthy)
      {
        recovered := ProbeNth(n, healthy, before, recovered);
      }
    }

    /** Reachability as the rest of the node sees it. */
    method Reachable(id: string) returns (r: bool)
      requires Valid()
      ensures Probed(id) ==> (r <==> !MarkedDown(history[id], failThreshold, recoverThreshold))
      ensures !Probed(id) ==> r
    {
      if id in nodes && id != tracker.localID {
        Hysteresis(history[id], failThreshold, recoverThreshold);
      }
      r := tracker.IsReachable(id);
    }
  }
}
