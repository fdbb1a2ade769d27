/**
 The two-level admission gate on Console executions. Each method body is one critical
 section of the gate's mutex, so an interleaving of threads is a sequence of these calls,
 and what every call keeps holds over every interleaving.
 */
module ExecutionGate {
  import opened Common

  type Agent = nat

  /** The sum of the counts a map holds. */
  ghost function Sum(m: map<Agent, nat>): (n: nat) {
    if m == map[] then 0
    else
      var a :| a in m;
      m[a] + Sum(m - {a})
  }

  /** The sum does not depend on the order in which the keys are taken. */
  lemma SumWithout(m: map<Agent, nat>, a: Agent)
    requires a in m
    ensures Sum(m) == m[a] + Sum(m - {a})
  {
    var b :| b in m && Sum(m) == m[b] + Sum(m - {b});
    if a != b {
      SumWithout(m - {b}, a);
      SumWithout(m - {a}, b);
      assert m - {a} - {b} == m - {b} - {a};
    }
  }

  lemma SumOfUpdate(m: map<Agent, nat>, a: Agent, n: nat)
    ensures Sum(m[a := n]) == Sum(m - {a}) + n
  {
    SumWithout(m[a := n], a);
    assert m[a := n] - {a} == m - {a};
  }

  class Gate {
    const totalLimit: nat
    const perAgentLimit: nat
    var total: nat
    var byAgent: map<Agent, nat>
    ghost var live: multiset<Agent>   // one entry per permit not yet dropped

    ghost predicate Valid()
      reads this
    {
      && 0 < totalLimit && 0 < perAgentLimit
      && total == |live| == Sum(byAgent)
      && total <= totalLimit
      && (forall a :: a in byAgent <==> a in live)
      && (forall a :: a in byAgent ==> 0 < byAgent[a] == live[a] <= perAgentLimit)
    }

    constructor (totalLimit: nat, perAgentLimit: nat)
      requires 0 < totalLimit && 0 < perAgentLimit
      ensures Valid() && live == multiset{}
      ensures this.totalLimit == totalLimit && this.perAgentLimit == perAgentLimit
    {
      this.totalLimit, this.perAgentLimit := totalLimit, perAgentLimit;
      total, byAgent, live := 0, map[], multiset{};
    }

    /** Refused exactly when one of the two limits is reached; never waits. */
    method TryAcquire(agent: Agent) returns (permit: bool)
      requires Valid()
      modifies this
      ensures Valid()
      ensures permit <==> |old(live)| < totalLimit && old(live)[agent] < perAgentLimit
      ensures live == if permit then old(live) + multiset{agent} else old(live)
    {
      hide Sum;
      var count := if agent in byAgent then byAgent[agent] else 0;
      if total >= totalLimit || count >= perAgentLimit {
        return false;
      }
      SumOfUpdate(byAgent, agent, count + 1);
      if agent in byAgent {
        SumWithout(byAgent, agent);
      } else {
        assert byAgent - {agent} == byAgent;
      }
      total := total + 1;
      byAgent := byAgent[agent := count + 1];
      live := live + multiset{agent};
      return true;
    }

    /** Dropping a permit gives back exactly what it took; the subtraction never saturates. */
    method Drop(agent: Agent)
      requires Valid() && agent in live
      modifies this
      ensures Valid() && live == old(live) - multiset{agent}
      ensures total + 1 == old(total)
    {
      hide Sum;
      SumWithout(byAgent, agent);
      total := SaturatingSub(total, 1);
      if agent in byAgent {
        if byAgent[agent] > 1 {
          SumOfUpdate(byAgent, agent, byAgent[agent] - 1);
          byAgent := byAgent[agent := byAgent[agent] - 1];
        } else {
          byAgent := byAgent - {agent};
        }
      }
      live := live - multiset{agent};
    }
  }
}
