/** Which processes the broker signals when it stops: the fixpoint over a snapshot of parent ids. */
module Descendants {

  /** k parent steps lead from the process to the broker. */
  ghost predicate Steps(parents: map<int, int>, pid: int, broker: int, k: nat)
    decreases k
  {
    if k == 0 then pid == broker else pid in parents && Steps(parents, parents[pid], broker, k - 1)
  }

  /** The parent chain of the process, in the snapshot, reaches the broker. Chains may run in circles. */
  ghost predicate Reaches(parents: map<int, int>, pid: int, broker: int) {
    exists k: nat :: Steps(parents, pid, broker, k)
  }

  function ChildrenOf(parents: map<int, int>, owned: set<int>): set<int> {
    set pid | pid in parents && parents[pid] in owned
  }

  lemma ChildReaches(parents: map<int, int>, pid: int, broker: int)
    requires pid in parents && Reaches(parents, parents[pid], broker)
    ensures Reaches(parents, pid, broker)
  {
    var k: nat :| Steps(parents, parents[pid], broker, k);
    assert Steps(parents, pid, broker, k + 1);
  }

  /** A set that holds the broker and all children of its members holds everything that reaches it. */
  lemma {:induction false} ClosedHoldsAll(parents: map<int, int>, owned: set<int>, pid: int, broker: int, k: nat)
    requires broker in owned && ChildrenOf(parents, owned) <= owned && Steps(parents, pid, broker, k)
    ensures pid in owned
    decreases k
  {
    if k > 0 {
      ClosedHoldsAll(parents, owned, parents[pid], broker, k - 1);
      assert pid in ChildrenOf(parents, owned);
    }
  }

  lemma ProperSubset(a: set<int>, b: set<int>)
    requires a < b
    ensures |a| < |b|
  {
    assert b == a + (b - a);
    assert |b - a| > 0;
  }

  /** `descendants`, for any snapshot of parent ids. */
  method Descendants(parents: map<int, int>, broker: int) returns (found: set<int>)
    ensures forall pid :: pid in found <==> pid != broker && Reaches(parents, pid, broker)
  {
    var owned := {broker};
    assert Steps(parents, broker, broker, 0);
    while true
      invariant broker in owned && owned <= parents.Keys + {broker}
      invariant forall pid | pid in owned :: Reaches(parents, pid, broker)
      decreases |parents.Keys + {broker}| - |owned|
    {
      var extended := owned + ChildrenOf(parents, owned);
      if extended == owned {
        forall pid | Reaches(parents, pid, broker) ensures pid in owned {
          var k: nat :| Steps(parents, pid, broker, k);
          ClosedHoldsAll(parents, owned, pid, broker, k);
        }
        return owned - {broker};
      }
      forall pid | pid in extended ensures Reaches(parents, pid, broker) {
        if pid !in owned {
          ChildReaches(parents, pid, broker);
        }
      }
      ProperSubset(owned, extended);
      SubsetSize(extended, parents.Keys + {broker});
      owned := extended;
    }
  }

  lemma SubsetSize(a: set<int>, b: set<int>)
    requires a <= b
    ensures |a| <= |b|
  {
    assert b == a + (b - a);
  }
}
