/**
 The pool of control connections parked for reuse. Every method is one critical section of
 the pool's mutex, and `clock` is the latest instant any of them has seen.
 */
module IdlePool {
  import opened Common

  type Home = nat
  type Connection = nat

  const MAX_IDLE_AGE: nat := 30_000
  const MAX_IDLE_PER_HOME: nat := 4

  datatype Idle = Idle(io: Connection, since: nat)

  predicate Fresh(idle: Idle, now: nat) {
    now - idle.since < MAX_IDLE_AGE
  }

  class Pool {
    var parked: map<Home, seq<Idle>>
    var clock: nat

    ghost predicate Valid()
      reads this
    {
      forall h :: h in parked ==>
        && |parked[h]| <= MAX_IDLE_PER_HOME
        && (forall i :: 0 <= i < |parked[h]| ==> parked[h][i].since <= clock)
        && (forall i, j :: 0 <= i < j < |parked[h]| ==> parked[h][i].since <= parked[h][j].since)
    }

    ghost function At(home: Home): (s: seq<Idle>)
      reads this
    {
      if home in parked then parked[home] else []
    }

    constructor ()
      ensures Valid() && parked == map[] && clock == 0
    {
      parked, clock := map[], 0;
    }

    /**
     The newest parked connection, if it is still within the reuse window. Otherwise every
     parked connection is past it, and all of them are dropped.
     */
    method TakeIdle(home: Home, now: nat) returns (r: Option<Connection>)
      requires Valid() && clock <= now
      modifies this
      ensures Valid() && clock == now
      ensures forall h :: h != home ==> At(h) == old(At(h))
      ensures r.None? <==> forall i :: 0 <= i < |old(At(home))| ==> now - old(At(home))[i].since >= 30_000
      ensures r.None? ==> At(home) == []
      ensures r.Some? ==>
                var was := old(At(home));
                && was != [] && r.value == was[|was| - 1].io && now - was[|was| - 1].since < 30_000
                && At(home) == was[..|was| - 1]
    {
      clock := now;
      if home !in parked {
        return None;
      }
      var list := parked[home];
      while list != []
        invariant home in parked && clock == now
        invariant list <= parked[home]
        invariant parked == old(parked)
        // Parked later means fresher: once one is too old, all of them are.
        invariant list == parked[home] || forall i :: 0 <= i < |parked[home]| ==> !Fresh(parked[home][i], now)
        decreases |list|
      {
        var idle := list[|list| - 1];
        if Fresh(idle, now) {
          assert old(At(home))[|list| - 1] == idle;
          list := list[..|list| - 1];
          parked := parked[home := list];
          return Some(idle.io);
        }
        list := list[..|list| - 1];
      }
      parked := parked[home := []];
      return None;
    }

    /** Park a connection that answered cleanly, or drop it when the home has enough. */
    method Checkin(home: Home, io: Connection, now: nat)
      requires Valid() && clock <= now
      modifies this
      ensures Valid() && clock == now
      ensures forall h :: h != home ==> At(h) == old(At(h))
      ensures |At(home)| <= 4
      ensures At(home) == if |old(At(home))| < 4 then old(At(home)) + [Idle(io, now)]
                          else old(At(home))
    {
      clock := now;
      var list := if home in parked then parked[home] else [];
      if |list| < MAX_IDLE_PER_HOME {
        list := list + [Idle(io, now)];
      }
      parked := parked[home := list];
    }
  }
}
