/** Majority quorums over the peers 0 .. n-1 of a cluster. */
module Quorum {

  /** The indices of all peers of a cluster of n peers. */
  function Peers(n: nat): (p: set<nat>)
    ensures forall i: nat :: i in p <==> i < n
  {
    if n == 0 then {} else Peers(n - 1) + {n - 1}
  }

  /** The quorum test of an election: `votes > length/2`, with Go's truncating division
      (both operands are non-negative here, so it agrees with Dafny's). */
  function Majority(votes: int, length: nat): (b: bool)
    ensures b <==> 2 * votes > length
  {
    votes > length / 2
  }

  lemma {:induction false} PeersCard(n: nat)
    ensures |Peers(n)| == n
  {
    if n > 0 {
      PeersCard(n - 1);
    }
  }

  /** A set of peers never outnumbers the cluster. */
  lemma SubsetOfPeersCard(a: set<nat>, n: nat)
    requires a <= Peers(n)
    ensures |a| <= n
  {
    PeersCard(n);
    SubsetCard(a, Peers(n));
  }

  lemma {:induction false} SubsetCard(a: set<nat>, b: set<nat>)
    requires a <= b
    ensures |a| <= |b|
  {
    if a != {} {
      var x :| x in a;
      SubsetCard(a - {x}, b - {x});
    }
  }

  /** Two majorities of the same cluster always share a peer. */
  lemma MajoritiesIntersect(a: set<nat>, b: set<nat>, n: nat)
    requires a <= Peers(n) && b <= Peers(n)
    requires Majority(|a|, n) && Majority(|b|, n)
    ensures a * b != {}
  {
    if a * b == {} {
      assert |a + b| == |a| + |b|;
      SubsetOfPeersCard(a + b, n);
      assert false;
    }
  }

  /** Sets of peers with no peer in common are never both majorities; in particular
      two candidates holding 2 of 4 votes each are both short of a quorum. */
  lemma DisjointNotBothMajorities(a: set<nat>, b: set<nat>, n: nat)
    requires a <= Peers(n) && b <= Peers(n) && a * b == {}
    ensures !(Majority(|a|, n) && Majority(|b|, n))
  {
    if Majority(|a|, n) && Majority(|b|, n) {
      MajoritiesIntersect(a, b, n);
    }
  }

  /** Election safety for one term: when each peer casts at most one ballot in that term
      (`ballot[v]` is the candidate peer v voted for), two candidates that each collected
      a majority of those ballots are the same candidate. */
  lemma AtMostOneWinner(n: nat, ballot: map<nat, int>, w1: set<nat>, w2: set<nat>, c1: int, c2: int)
    requires w1 <= Peers(n) && w2 <= Peers(n)
    requires forall v :: v in w1 ==> v in ballot && ballot[v] == c1
    requires forall v :: v in w2 ==> v in ballot && ballot[v] == c2
    requires Majority(|w1|, n) && Majority(|w2|, n)
    ensures c1 == c2
  {
    MajoritiesIntersect(w1, w2, n);
    var v :| v in w1 * w2;
  }
}
