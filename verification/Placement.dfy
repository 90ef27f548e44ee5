/** Static membership and rendezvous placement: internal/cluster/membership.go and
    internal/cluster/placement.go.  `score` stands for the hash of one object key with a node ID. */
module Placement {
  import opened Orders

  datatype Node = Node(id: string, address: string, status: string)

  datatype Result<T> = Ok(value: T) | Err(error: Error)

  datatype Error = EmptyMembership | MissingId | MissingAddress | DuplicateId | LocalNotMember
                 | EmptyCluster | ReplicationFactorTooLarge

  // ---------------------------------------------------------------- membership

  predicate ById(a: Node, b: Node) {
    Less(a.id, b.id)
  }

  ghost predicate UniqueIds(nodes: set<Node>) {
    forall a, b | a in nodes && b in nodes && a.id == b.id :: a == b
  }

  function Activated(n: Node): Node {
    n.(status := if n.status == "" then "active" else n.status)
  }

  ghost predicate WellFormed(n: Node) {
    n.id != "" && n.address != ""
  }

  lemma ByIdTotal(nodes: set<Node>)
    requires UniqueIds(nodes)
    ensures StrictTotalOn(ById, nodes)
  {
    StringsTotal(set n | n in nodes :: n.id);
    forall x, y | x in nodes && y in nodes && x != y ensures ById(x, y) || ById(y, x) { LessConnected(x.id, y.id); }
    forall x, y, z | x in nodes && y in nodes && z in nodes && ById(x, y) && ById(y, z) ensures ById(x, z) { LessTransitive(x.id, y.id, z.id); }
    forall x | x in nodes ensures !ById(x, x) { LessIrreflexive(x.id); }
  }

  /** The configured nodes as the membership keeps them. */
  ghost function Kept(nodes: seq<Node>): set<Node> {
    set i | 0 <= i < |nodes| :: Activated(nodes[i])
  }

  /** Members keep their ID and address; one configured without a status is active. */
  lemma KeptMeans(nodes: seq<Node>, i: nat)
    requires i < |nodes|
    ensures exists n :: n in Kept(nodes) && n.id == nodes[i].id && n.address == nodes[i].address
                        && n.status == (if nodes[i].status == "" then "active" else nodes[i].status)
  {
    assert Activated(nodes[i]) in Kept(nodes);
  }

  lemma MembersSorted(nodes: seq<Node>, listed: seq<Node>)
    requires |listed| == |nodes| && forall j | 0 <= j < |nodes| :: listed[j] == Activated(nodes[j])
    requires forall i, j | 0 <= i < j < |nodes| :: nodes[i].id != nodes[j].id
    ensures Ascending(ById, SortBy(ById, listed)) && Elems(SortBy(ById, listed)) == Kept(nodes)
    ensures UniqueIds(Kept(nodes))
  {
    assert Elems(listed) == Kept(nodes);
    forall a, b | a in Elems(listed) && b in Elems(listed) && a.id == b.id
      ensures a == b
    {
      var i :| 0 <= i < |listed| && listed[i] == a;
      var j :| 0 <= j < |listed| && listed[j] == b;
    }
    ByIdTotal(Elems(listed));
    SortByAscending(ById, listed);
  }

  /** The configuration is accepted exactly when the IDs are present and distinct, the addresses are
      present and the local node is listed; the list kept is then the configured nodes by ID, the
      same for every order of configuration. */
  method NewStaticMembership(localId: string, nodes: seq<Node>) returns (r: Result<seq<Node>>)
    ensures r.Ok? <==>
            && nodes != []
            && (forall i | 0 <= i < |nodes| :: WellFormed(nodes[i]))
            && (forall i, j | 0 <= i < j < |nodes| :: nodes[i].id != nodes[j].id)
            && (exists i | 0 <= i < |nodes| :: nodes[i].id == localId)
    ensures r.Ok? ==> Ascending(ById, r.value) && Elems(r.value) == Kept(nodes) && UniqueIds(Kept(nodes))
    ensures r.Ok? ==> |r.value| == |nodes|
  {
    if |nodes| == 0 {
      return Err(EmptyMembership);
    }
    var byId: map<string, Node> := map[];
    var listed: seq<Node> := [];
    for i := 0 to |nodes|
      invariant |listed| == i && forall j | 0 <= j < i :: listed[j] == Activated(nodes[j])
      invariant forall j | 0 <= j < i :: WellFormed(nodes[j])
      invariant forall j, k | 0 <= j < k < i :: nodes[j].id != nodes[k].id
      invariant forall id :: id in byId <==> exists j | 0 <= j < i :: nodes[j].id == id
    {
      var n := nodes[i];
      if n.id == "" {
        return Err(MissingId);
      }
      if n.address == "" {
        return Err(MissingAddress);
      }
      if n.id in byId {
        return Err(DuplicateId);
      }
      byId := byId[n.id := Activated(n)];
      listed := listed + [Activated(n)];
    }
    if localId !in byId {
      return Err(LocalNotMember);
    }
    MembersSorted(nodes, listed);
    return Ok(SortBy(ById, listed));
  }

  // ---------------------------------------------------------------- ranking

  type Score = string -> nat

  /** Higher scores first, ties by smaller ID. */
  predicate Outranks(score: Score, a: Node, b: Node) {
    if score(a.id) != score(b.id) then score(a.id) > score(b.id) else Less(a.id, b.id)
  }

  function ByRank(score: Score): (Node, Node) -> bool {
    (a, b) => Outranks(score, a, b)
  }

  lemma RankTotal(score: Score, nodes: set<Node>)
    requires UniqueIds(nodes)
    ensures StrictTotalOn(ByRank(score), nodes)
  {
    forall x, y | x in nodes && y in nodes && x != y ensures Outranks(score, x, y) || Outranks(score, y, x) {
      LessConnected(x.id, y.id);
    }
    forall x, y, z | x in nodes && y in nodes && z in nodes && Outranks(score, x, y) && Outranks(score, y, z)
      ensures Outranks(score, x, z)
    {
      if score(x.id) == score(y.id) == score(z.id) { LessTransitive(x.id, y.id, z.id); }
    }
    forall x | x in nodes ensures !Outranks(score, x, x) { LessIrreflexive(x.id); }
  }

  function Ranking(score: Score, nodes: seq<Node>): seq<Node> {
    SortBy(ByRank(score), nodes)
  }

  lemma RankingAscending(score: Score, nodes: seq<Node>)
    requires NoDuplicates(nodes) && UniqueIds(Elems(nodes))
    ensures Ascending(ByRank(score), Ranking(score, nodes)) && Elems(Ranking(score, nodes)) == Elems(nodes)
    ensures |Ranking(score, nodes)| == |nodes| && StrictTotalOn(ByRank(score), Elems(nodes))
  {
    RankTotal(score, Elems(nodes));
    SortByAscending(ByRank(score), nodes);
  }

  /** The node with the highest score comes first, and of two with one score the smaller ID. */
  lemma RankingMeans(score: Score, nodes: seq<Node>, i: nat, j: nat)
    requires NoDuplicates(nodes) && UniqueIds(Elems(nodes)) && i < j < |nodes|
    ensures |Ranking(score, nodes)| == |nodes|
    ensures var a, b := Ranking(score, nodes)[i].id, Ranking(score, nodes)[j].id;
            score(a) > score(b) || (score(a) == score(b) && Less(a, b))
  {
    RankingAscending(score, nodes);
    var r := Ranking(score, nodes);
    assert ByRank(score)(r[i], r[j]);
  }

  datatype PlacementResult = PlacementResult(primary: Node, replicas: seq<Node>) {
    function ReplicaSet(): seq<Node> {
      [primary] + replicas
    }
  }

  lemma PrefixDistinct(score: Score, nodes: seq<Node>, k: nat)
    requires NoDuplicates(nodes) && UniqueIds(Elems(nodes)) && k <= |nodes|
    ensures var top := Ranking(score, nodes)[..k]; NoDuplicates(top) && Elems(top) <= Elems(nodes)
  {
    RankingAscending(score, nodes);
    var r := Ranking(score, nodes);
    forall i, j | 0 <= i < j < k ensures r[i] != r[j] {
      IndexOrder(ByRank(score), r, i, j);
    }
    forall n | n in Elems(r[..k]) ensures n in Elems(nodes) {
      assert n in Elems(r);
    }
  }

  /** The placement of one object: the best ranked node and the next ones, `rf` in all. */
  method Locate(score: Score, nodes: seq<Node>, rf: int) returns (r: Result<PlacementResult>)
    requires NoDuplicates(nodes) && UniqueIds(Elems(nodes)) && rf >= 1
    ensures nodes == [] ==> r == Err(EmptyCluster)
    ensures 0 < |nodes| < rf ==> r == Err(ReplicationFactorTooLarge)
    ensures |nodes| >= rf ==> r.Ok? && r.value.ReplicaSet() == Ranking(score, nodes)[..rf]
    ensures |nodes| >= rf ==> NoDuplicates(r.value.ReplicaSet()) && Elems(r.value.ReplicaSet()) <= Elems(nodes)
  {
    if |nodes| == 0 {
      return Err(EmptyCluster);
    }
    if rf > |nodes| {
      return Err(ReplicationFactorTooLarge);
    }
    RankingAscending(score, nodes);
    var ranked := SortBy(ByRank(score), nodes);
    var primary := ranked[0];
    var replicas: seq<Node> := [];
    for i := 1 to rf
      invariant replicas == ranked[1..i]
    {
      replicas := replicas + [ranked[i]];
    }
    PrefixDistinct(score, nodes, rf);
    return Ok(PlacementResult(primary, replicas));
  }

  function Ids(nodes: seq<Node>): (ids: seq<string>)
    ensures |ids| == |nodes| && forall i | 0 <= i < |nodes| :: ids[i] == nodes[i].id
  {
    seq(|nodes|, i requires 0 <= i < |nodes| => nodes[i].id)
  }

  /** The rank order, on IDs. */
  function ByIdRank(score: Score): (string, string) -> bool {
    (a, b) => if score(a) != score(b) then score(a) > score(b) else Less(a, b)
  }

  lemma IdRankTotal(score: Score, ids: set<string>)
    ensures StrictTotalOn(ByIdRank(score), ids)
  {
    var less := ByIdRank(score);
    forall x, y | x in ids && y in ids && x != y ensures less(x, y) || less(y, x) { LessConnected(x, y); }
    forall x, y, z | x in ids && y in ids && z in ids && less(x, y) && less(y, z)
      ensures less(x, z)
    {
      if score(x) == score(y) == score(z) { LessTransitive(x, y, z); }
    }
    forall x | x in ids ensures !less(x, x) { LessIrreflexive(x); }
  }

  lemma SameIds(a: seq<Node>, b: seq<Node>)
    requires Elems(a) == Elems(b)
    ensures Elems(Ids(a)) == Elems(Ids(b))
  {
    IdsAmong(a, b);
    IdsAmong(b, a);
  }

  lemma IdsAmong(a: seq<Node>, b: seq<Node>)
    requires Elems(a) <= Elems(b)
    ensures Elems(Ids(a)) <= Elems(Ids(b))
  {
    forall id | id in Elems(Ids(a))
      ensures id in Elems(Ids(b))
    {
      var i :| 0 <= i < |a| && Ids(a)[i] == id;
      assert a[i] in Elems(a);
      assert a[i] in Elems(b);
      var j :| 0 <= j < |b| && b[j] == a[i];
      assert Ids(b)[j] == id;
    }
  }

  lemma RankedIds(score: Score, nodes: seq<Node>)
    requires NoDuplicates(nodes) && UniqueIds(Elems(nodes))
    ensures Ascending(ByIdRank(score), Ids(Ranking(score, nodes))) && Elems(Ids(Ranking(score, nodes))) == Elems(Ids(nodes))
  {
    RankingAscending(score, nodes);
    var r := Ranking(score, nodes);
    SameIds(r, nodes);
    forall i, j | 0 <= i < j < |r|
      ensures ByIdRank(score)(Ids(r)[i], Ids(r)[j])
    {
      assert ByRank(score)(r[i], r[j]);
    }
  }

  /** Placement depends on the set of IDs only: not on the order in which members are listed, nor on
      their addresses and statuses. */
  lemma RankingOrderFree(score: Score, a: seq<Node>, b: seq<Node>)
    requires NoDuplicates(a) && UniqueIds(Elems(a)) && NoDuplicates(b) && UniqueIds(Elems(b))
    requires Elems(Ids(a)) == Elems(Ids(b))
    ensures Ids(Ranking(score, a)) == Ids(Ranking(score, b))
    ensures Elems(a) == Elems(b) ==> Ranking(score, a) == Ranking(score, b)
  {
    RankedIds(score, a);
    RankedIds(score, b);
    IdRankTotal(score, Elems(Ids(a)));
    AscendingUnique(ByIdRank(score), Ids(Ranking(score, a)), Ids(Ranking(score, b)));
    if Elems(a) == Elems(b) {
      RankingAscending(score, a);
      RankingAscending(score, b);
      AscendingUnique(ByRank(score), Ranking(score, a), Ranking(score, b));
    }
  }

  /** The members of the first `k` are those outranked by fewer than `k` members. */
  lemma TopRankedIff(score: Score, nodes: seq<Node>, k: nat, n: Node)
    requires NoDuplicates(nodes) && UniqueIds(Elems(nodes)) && k <= |nodes| && n in nodes
    ensures |Ranking(score, nodes)| == |nodes|
    ensures n in Ranking(score, nodes)[..k] <==>
            |set m | m in nodes && Outranks(score, m, n)| < k
  {
    var r := Ranking(score, nodes);
    RankingAscending(score, nodes);
    assert n in Elems(r);
    var i :| 0 <= i < |r| && r[i] == n;
    RankIsPlace(score, r, i);
    InPrefixIff(ByRank(score), r, i, k);
    assert (set m | m in nodes && Outranks(score, m, n)) == set m | m in Elems(r) && Outranks(score, m, n) by {
      assert forall m :: m in nodes <==> m in Elems(r);
    }
  }

  lemma InPrefixIff(less: (Node, Node) -> bool, r: seq<Node>, i: nat, k: nat)
    requires Ascending(less, r) && StrictTotalOn(less, Elems(r)) && i < |r| && k <= |r|
    ensures r[i] in r[..k] <==> i < k
  {
    if i < k {
      assert r[..k][i] == r[i];
    } else {
      forall j | 0 <= j < k
        ensures r[..k][j] != r[i]
      {
        IndexOrder(less, r, j, i);
      }
    }
  }

  lemma RankIsPlace(score: Score, r: seq<Node>, i: nat)
    requires Ascending(ByRank(score), r) && StrictTotalOn(ByRank(score), Elems(r)) && i < |r|
    ensures |set m | m in Elems(r) && Outranks(score, m, r[i])| == i
  {
    AboveIsPrefix(score, r, i);
    assert (set m | m in Elems(r) && Outranks(score, m, r[i])) == Elems(r[..i]);
    TotalOnSubset(ByRank(score), Elems(r), Elems(r[..i]));
    DistinctCount(ByRank(score), r[..i]);
  }

  lemma AboveIsPrefix(score: Score, r: seq<Node>, i: nat)
    requires Ascending(ByRank(score), r) && StrictTotalOn(ByRank(score), Elems(r)) && i < |r|
    ensures forall m :: m in Elems(r[..i]) <==> m in Elems(r) && Outranks(score, m, r[i])
  {
    forall m
      ensures m in Elems(r[..i]) <==> m in Elems(r) && Outranks(score, m, r[i])
    {
      if m in Elems(r) {
        var j :| 0 <= j < |r| && r[j] == m;
        IndexOrder(ByRank(score), r, j, i);
        if j < i {
          assert r[..i][j] == m;
        } else {
          forall j' | 0 <= j' < i
            ensures r[..i][j'] != m
          {
            IndexOrder(ByRank(score), r, j', j);
          }
        }
      }
    }
  }

  // ---------------------------------------------------------------- minimal disruption

  /** `after` is `before` with `x` inserted and the last element pushed out. */
  ghost predicate Displaces(before: seq<Node>, after: seq<Node>, x: Node) {
    exists p | 0 <= p < |before| :: after == before[..p] + [x] + before[p..|before| - 1]
  }

  lemma RankingWithNew(score: Score, nodes: seq<Node>, x: Node)
    requires NoDuplicates(nodes) && x !in nodes && UniqueIds(Elems(nodes) + {x})
    ensures NoDuplicates(nodes + [x]) && UniqueIds(Elems(nodes + [x]))
    ensures Ranking(score, nodes + [x]) == Insert(ByRank(score), x, Ranking(score, nodes))
  {
    var more := nodes + [x];
    assert Elems(more) == Elems(nodes) + {x};
    RankingAscending(score, nodes);
    RankingAscending(score, more);
    var r := Ranking(score, nodes);
    assert x !in r by { assert x !in Elems(r); }
    InsertElems(ByRank(score), x, r);
    InsertAscending(ByRank(score), x, r);
    AscendingUnique(ByRank(score), Ranking(score, more), Insert(ByRank(score), x, r));
  }

  lemma TakeOfInsert(r: seq<Node>, x: Node, p: nat, k: nat)
    requires p <= |r| && k <= |r|
    ensures var full := r[..p] + [x] + r[p..];
            full[..k] == if p < k then r[..k][..p] + [x] + r[..k][p..k - 1] else r[..k]
  {
  }

  lemma InsertDisplaces(r: seq<Node>, x: Node, p: nat, k: nat)
    requires p <= |r| && k <= |r| && x !in r
    ensures var full := r[..p] + [x] + r[p..];
            if p < k then Displaces(r[..k], full[..k], x) else full[..k] == r[..k] && x !in full[..k]
  {
    TakeOfInsert(r, x, p, k);
  }

  lemma RemovalAppends(r: seq<Node>, x: Node, p: nat, k: nat)
    requires p <= |r| && 1 <= k <= |r| && x !in r
    ensures var full := r[..p] + [x] + r[p..];
            if p < k then full[..k][p] == x && r[..k] == full[..k][..p] + full[..k][p + 1..] + [full[k]]
            else full[..k] == r[..k] && x !in full[..k]
  {
    TakeOfInsert(r, x, p, k);
  }

  /** Adding a member leaves the ordered replica set as it was, or inserts the new member and drops
      exactly the last ranked one. */
  lemma AddingNodeDisruptsLittle(score: Score, nodes: seq<Node>, x: Node, k: nat)
    requires NoDuplicates(nodes) && x !in nodes && UniqueIds(Elems(nodes) + {x}) && k <= |nodes|
    ensures |Ranking(score, nodes)| == |nodes| && |Ranking(score, nodes + [x])| == |nodes| + 1
    ensures var before, after := Ranking(score, nodes)[..k], Ranking(score, nodes + [x])[..k];
            (after == before && x !in after) || Displaces(before, after, x)
  {
    RankingAscending(score, nodes);
    RankingWithNew(score, nodes, x);
    var r := Ranking(score, nodes);
    assert x !in Elems(r);
    var p := InsertPlace(ByRank(score), x, r);
    InsertDisplaces(r, x, p, k);
  }

  /** Removing a member leaves the ordered replica set as it was, or deletes it there and appends
      the next ranked member. */
  lemma RemovingNodeDisruptsLittle(score: Score, nodes: seq<Node>, x: Node, k: nat)
    requires NoDuplicates(nodes) && x !in nodes && UniqueIds(Elems(nodes) + {x}) && 1 <= k <= |nodes|
    ensures |Ranking(score, nodes)| == |nodes| && |Ranking(score, nodes + [x])| == |nodes| + 1
    ensures var before, after := Ranking(score, nodes + [x])[..k], Ranking(score, nodes)[..k];
            || (x !in before && after == before)
            || exists p | 0 <= p < k ::
                 before[p] == x && after == before[..p] + before[p + 1..] + [Ranking(score, nodes + [x])[k]]
  {
    RankingAscending(score, nodes);
    RankingWithNew(score, nodes, x);
    var r := Ranking(score, nodes);
    assert x !in Elems(r);
    var p := InsertPlace(ByRank(score), x, r);
    RemovalAppends(r, x, p, k);
  }
}
