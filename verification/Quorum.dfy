/** Quorum thresholds of one replica set: internal/quorum/quorum.go. */
module Quorum {

  /** The reason a configuration is refused at start-up, in the order the checks are made. */
  datatype Verdict = Accepted | BadReplicationFactor | BadWriteQuorum | BadReadQuorum | NoOverlap

  datatype Config = Config(n: int, w: int, r: int) {

    function Validate(): Verdict {
      if n < 1 then BadReplicationFactor
      else if w < 1 || w > n then BadWriteQuorum
      else if r < 1 || r > n then BadReadQuorum
      else if w + r <= n then NoOverlap
      else Accepted
    }

    predicate WriteSatisfied(acks: int) {
      acks >= w
    }

    predicate ReadSatisfied(responses: int) {
      responses >= r
    }
  }

  /** The write and read quorum used when none is configured. */
  function DefaultsForN(n: int): (int, int) {
    if n >= 3 then (2, 2) else (n, n)
  }

  /** Every write quorum meets every read quorum. */
  ghost predicate QuorumsMeet<T(!new)>(c: Config, nodes: set<T>) {
    forall ws: set<T>, rs: set<T> |
      ws <= nodes && rs <= nodes && c.WriteSatisfied(|ws|) && c.ReadSatisfied(|rs|) ::
      ws * rs != {}
  }

  lemma SubsetSize<T>(a: set<T>, b: set<T>)
    requires a <= b
    ensures |a| <= |b|
  {
    assert b == a + (b - a);
  }

  /** Two quorums of one replica set share a node. */
  lemma QuorumsIntersect<T>(c: Config, nodes: set<T>, ws: set<T>, rs: set<T>)
    requires |nodes| == c.n && c.w + c.r > c.n
    requires ws <= nodes && rs <= nodes
    requires c.WriteSatisfied(|ws|) && c.ReadSatisfied(|rs|)
    ensures exists n :: n in ws && n in rs
  {
    if ws * rs == {} {
      assert |ws + rs| == |ws| + |rs|;
      SubsetSize(ws + rs, nodes);
      assert false;
    }
    var n :| n in ws * rs;
    assert n in ws && n in rs;
  }

  lemma {:induction false} SubsetOfSize<T>(s: set<T>, k: nat) returns (t: set<T>)
    requires k <= |s|
    ensures t <= s && |t| == k
  {
    if k == 0 {
      t := {};
    } else {
      var x :| x in s;
      var u := SubsetOfSize(s - {x}, k - 1);
      t := u + {x};
    }
  }

  /** The documented rule W + R > N is exactly what makes every pair of quorums meet. */
  lemma OverlapIff<T(!new)>(c: Config, nodes: set<T>)
    requires |nodes| == c.n && 1 <= c.w <= c.n && 1 <= c.r <= c.n
    ensures QuorumsMeet(c, nodes) <==> c.w + c.r > c.n
    ensures QuorumsMeet(c, nodes) <==> c.Validate() == Accepted
  {
    if c.w + c.r > c.n {
      forall ws: set<T>, rs: set<T> |
        ws <= nodes && rs <= nodes && c.WriteSatisfied(|ws|) && c.ReadSatisfied(|rs|)
        ensures ws * rs != {}
      {
        QuorumsIntersect(c, nodes, ws, rs);
        var n :| n in ws && n in rs;
        assert n in ws * rs;
      }
    } else {
      var ws := SubsetOfSize(nodes, c.w);
      assert |nodes - ws| == c.n - c.w;
      var rs := SubsetOfSize(nodes - ws, c.r);
      assert ws * rs == {};
    }
  }

  /** A configuration is accepted exactly when, on a set of N nodes, no empty set is a quorum, the
      whole set is one, and every write quorum meets every read quorum. */
  lemma AcceptedIff<T(!new)>(c: Config, nodes: set<T>)
    requires |nodes| == c.n
    ensures c.Validate() == Accepted <==>
              && !c.WriteSatisfied(0) && !c.ReadSatisfied(0)
              && c.WriteSatisfied(|nodes|) && c.ReadSatisfied(|nodes|)
              && QuorumsMeet(c, nodes)
  {
    if 1 <= c.w <= c.n && 1 <= c.r <= c.n {
      OverlapIff(c, nodes);
    }
  }

  /** Which fault is reported: the first of replication factor, write quorum, read quorum and overlap. */
  lemma VerdictMeans(c: Config)
    ensures c.Validate() == BadReplicationFactor <==> c.n < 1
    ensures c.Validate() == BadWriteQuorum <==> c.n >= 1 && !(1 <= c.w <= c.n)
    ensures c.Validate() == BadReadQuorum <==> c.n >= 1 && 1 <= c.w <= c.n && !(1 <= c.r <= c.n)
    ensures c.Validate() == NoOverlap <==> c.n >= 1 && 1 <= c.w <= c.n && 1 <= c.r <= c.n && c.w + c.r <= c.n
  {
  }

  /** The defaults pass validation for one, two and three nodes and for no other size. */
  lemma DefaultsAcceptedIff(n: int)
    ensures var (w, r) := DefaultsForN(n);
            Config(n, w, r).Validate() == Accepted <==> 1 <= n <= 3
  {
  }

  /** Where they pass they are the smallest majority. */
  lemma DefaultsAreMajority(n: int)
    requires 1 <= n <= 3
    ensures DefaultsForN(n) == (n / 2 + 1, n / 2 + 1)
  {
  }
}
