/**
 Launchers and daemons racing over one home. A launcher runs the ensure path: probe, evict
 if it must, wait for both claims of the old daemon to go, spawn, and wait for an answer.
 A daemon takes the lock, names itself, serves, drains and exits. Every step of every
 process is one step here, so a run is an arbitrary interleaving, with crashes.

 The lock is the operating system's: exclusive for a daemon, shared for the moment a
 launcher's probe of it lasts. The endpoint is up exactly while a daemon serves it.
 */
module DaemonLifecycle {
  import opened Common

  type Pid = nat

  const GONE_POLLS: nat := 100
  const START_POLLS: nat := 100
  const GRACE_POLLS: nat := 12

  datatype DaemonPhase = Starting | Locked | Serving | Draining | Exited

  datatype LauncherPhase =
    | Probing
    | Evicting
    | AwaitingGone(polls: nat)
    | ProbingLock(polls: nat)
    | ReleasingLock
    | ReadyToSpawn
    | Waiting(child: Pid, polls: nat)
    | Grace(polls: nat)
    | Returned(ok: bool)
    | Dead

  datatype System = System(
    holder: Option<Pid>,
    readers: set<Pid>,
    endpoint: Option<Pid>,
    pidFile: Option<Pid>,
    daemons: map<Pid, DaemonPhase>,
    launchers: map<Pid, LauncherPhase>,
    tookOver: set<Pid>)

  ghost predicate Initial(s: System) {
    s == System(None, {}, None, None, map[], map[], {})
  }

  datatype Event =
    | Launch(l: Pid)
    | FindHealthy(l: Pid)
    | FindStale(l: Pid)
    | FindForeign(l: Pid)
    | FindAbsent(l: Pid)
    | AskToStop(l: Pid)
    | PollAbsent(l: Pid)
    | PollPresent(l: Pid)
    | LockBusy(l: Pid)
    | LockShared(l: Pid)
    | LockReleased(l: Pid)
    | GiveUp(l: Pid)
    | Spawn(l: Pid, d: Pid)
    | WaitHealthy(l: Pid)
    | WaitMore(l: Pid)
    | ChildExited(l: Pid)
    | LauncherDies(l: Pid)
    | Acquire(d: Pid)
    | WritePid(d: Pid)
    | LockRefused(d: Pid)
    | Bind(d: Pid)
    | Drain(d: Pid)
    | Exit(d: Pid)

  ghost predicate At(s: System, l: Pid, p: LauncherPhase) {
    l in s.launchers && s.launchers[l] == p
  }

  function To(s: System, l: Pid, p: LauncherPhase): (t: System) {
    s.(launchers := s.launchers[l := p])
  }

  ghost predicate LauncherStep(s: System, e: Event, t: System)
  {
    match e
    case Launch(l) => l !in s.launchers && l !in s.daemons && t == To(s, l, Probing)
    case FindHealthy(l) => At(s, l, Probing) && s.endpoint.Some? && t == To(s, l, Returned(true))
    case FindStale(l) => At(s, l, Probing) && s.endpoint.Some? && t == To(s, l, Evicting)
    case FindForeign(l) => At(s, l, Probing) && t == To(s, l, Returned(false))
    case FindAbsent(l) => At(s, l, Probing) && s.endpoint.None? && t == To(s, l, ReadyToSpawn)
    case AskToStop(l) =>
      At(s, l, Evicting) && t == To(s, l, AwaitingGone(GONE_POLLS)).(tookOver := s.tookOver + {l})
    case PollAbsent(l) =>
      l in s.launchers && s.launchers[l].AwaitingGone? && s.launchers[l].polls > 0 && s.endpoint.None?
      && t == To(s, l, ProbingLock(s.launchers[l].polls))
    case PollPresent(l) =>
      l in s.launchers && s.launchers[l].AwaitingGone? && s.launchers[l].polls > 0
      && t == To(s, l, AwaitingGone(s.launchers[l].polls - 1))
    case LockBusy(l) =>
      l in s.launchers && s.launchers[l].ProbingLock? && s.launchers[l].polls > 0 && s.holder.Some?
      && t == To(s, l, AwaitingGone(s.launchers[l].polls - 1))
    case LockShared(l) =>
      l in s.launchers && s.launchers[l].ProbingLock? && s.holder.None?
      && t == To(s, l, ReleasingLock).(readers := s.readers + {l})
    case LockReleased(l) =>
      At(s, l, ReleasingLock) && t == To(s, l, ReadyToSpawn).(readers := s.readers - {l})
    case GiveUp(l) =>
      (At(s, l, AwaitingGone(0)) || At(s, l, Grace(0)) || (l in s.launchers && s.launchers[l].Waiting? && s.launchers[l].polls == 0))
      && t == To(s, l, Returned(false))
    case Spawn(l, d) =>
      At(s, l, ReadyToSpawn) && d !in s.daemons && d !in s.launchers
      && t == To(s, l, Waiting(d, START_POLLS)).(daemons := s.daemons[d := Starting])
    case WaitHealthy(l) =>
      l in s.launchers && (s.launchers[l].Waiting? || s.launchers[l].Grace?) && s.launchers[l].polls > 0
      && s.endpoint.Some? && t == To(s, l, Returned(true))
    case WaitMore(l) =>
      l in s.launchers && (s.launchers[l].Waiting? || s.launchers[l].Grace?) && s.launchers[l].polls > 0
      && t == To(s, l, s.launchers[l].(polls := s.launchers[l].polls - 1))
    case ChildExited(l) =>
      l in s.launchers && s.launchers[l].Waiting?
      && s.launchers[l].child in s.daemons && s.daemons[s.launchers[l].child].Exited?
      && t == To(s, l, Grace(GRACE_POLLS))
    case LauncherDies(l) =>
      l in s.launchers && !s.launchers[l].Dead? && t == To(s, l, Dead).(readers := s.readers - {l})
    case _ => false
  }

  ghost predicate DaemonStep(s: System, e: Event, t: System)
  {
    match e
    case Acquire(d) =>
      d in s.daemons && s.daemons[d].Starting? && s.holder.None? && s.readers == {}
      && t == s.(holder := Some(d), daemons := s.daemons[d := Locked])
    case WritePid(d) =>
      d in s.daemons && s.daemons[d].Locked? && t == s.(pidFile := Some(d))
    case LockRefused(d) =>
      d in s.daemons && s.daemons[d].Starting? && (s.holder.Some? || s.readers != {})
      && t == s.(daemons := s.daemons[d := Exited])
    case Bind(d) =>
      d in s.daemons && s.daemons[d].Locked?
      && t == s.(endpoint := Some(d), daemons := s.daemons[d := Serving])
    case Drain(d) =>
      d in s.daemons && s.daemons[d].Serving?
      && t == s.(endpoint := None, daemons := s.daemons[d := Draining])
    case Exit(d) =>
      d in s.daemons
      && t == s.(holder := if s.holder == Some(d) then None else s.holder,
                 endpoint := if s.endpoint == Some(d) then None else s.endpoint,
                 daemons := s.daemons[d := Exited])
    case _ => false
  }

  ghost predicate Step(s: System, e: Event, t: System) {
    LauncherStep(s, e, t) || DaemonStep(s, e, t)
  }

  ghost predicate Next(s: System, t: System) {
    exists e :: Step(s, e, t)
  }

  ghost predicate IsRun(run: seq<System>) {
    |run| > 0 && Initial(run[0]) && forall i :: 0 <= i < |run| - 1 ==> Next(run[i], run[i + 1])
  }

  // ---- the lock ---------------------------------------------------------------------------

  predicate Holding(p: DaemonPhase) {
    p.Locked? || p.Serving? || p.Draining?
  }

  ghost predicate LockInv(s: System) {
    && (forall d :: d in s.daemons && Holding(s.daemons[d]) ==> s.holder == Some(d))
    && (s.holder.Some? ==> s.holder.value in s.daemons && Holding(s.daemons[s.holder.value]) && s.readers == {})
    && (forall d :: d in s.daemons && s.daemons[d].Serving? ==> s.endpoint == Some(d))
    && (s.endpoint.Some? ==> s.endpoint.value in s.daemons && s.daemons[s.endpoint.value].Serving?)
  }

  /** Who is probing the lock, and who has evicted, can be read off a launcher's phase. */
  ghost predicate PhaseAt(s: System, l: Pid) {
    && (l in s.readers <==> At(s, l, ReleasingLock))
    && (l in s.tookOver ==> l in s.launchers)
    && (l in s.launchers && TakingOver(s.launchers[l]) ==> l in s.tookOver)
    && (l in s.launchers && s.launchers[l].ProbingLock? ==> s.launchers[l].polls > 0)
    && (l in s.launchers && (s.launchers[l].Probing? || s.launchers[l].Evicting?) ==> l !in s.tookOver)
  }

  ghost predicate PhaseInv(s: System) {
    forall l :: PhaseAt(s, l)
  }

  ghost predicate Inv(s: System) {
    LockInv(s) && PhaseInv(s)
  }

  /** The phases between asking a daemon to stop and being clear to spawn. */
  predicate TakingOver(p: LauncherPhase) {
    p.AwaitingGone? || p.ProbingLock? || p.ReleasingLock?
  }

  lemma LauncherStepKeepsLock(s: System, e: Event, t: System)
    requires LockInv(s) && LauncherStep(s, e, t)
    ensures LockInv(t)
  {
  }

  /** A launcher's step is its own: no other launcher's part of the state moves. */
  lemma OthersStay(s: System, e: Event, t: System, k: Pid)
    requires LauncherStep(s, e, t) && k != e.l
    ensures k in s.launchers <==> k in t.launchers
    ensures k in s.launchers ==> t.launchers[k] == s.launchers[k]
    ensures (k in s.readers <==> k in t.readers) && (k in s.tookOver <==> k in t.tookOver)
  {
  }

  lemma OwnPhase(s: System, e: Event, t: System)
    requires LauncherStep(s, e, t) && PhaseAt(s, e.l)
    ensures PhaseAt(t, e.l)
  {
  }

  lemma LauncherStepKeepsPhases(s: System, e: Event, t: System)
    requires PhaseInv(s) && LauncherStep(s, e, t)
    ensures PhaseInv(t)
  {
    forall l
      ensures PhaseAt(t, l)
    {
      assert PhaseAt(s, l);
      if l == e.l {
        OwnPhase(s, e, t);
      } else {
        OthersStay(s, e, t, l);
        hide LauncherStep;
      }
    }
  }

  lemma DaemonStepKeepsInv(s: System, e: Event, t: System)
    requires Inv(s) && DaemonStep(s, e, t)
    ensures Inv(t)
  {
    forall l
      ensures PhaseAt(t, l)
    {
      assert PhaseAt(s, l);
    }
  }

  lemma {:induction false} RunInvariant(run: seq<System>, i: nat)
    requires IsRun(run) && i < |run|
    ensures Inv(run[i])
  {
    if i > 0 {
      RunInvariant(run, i - 1);
      assert Next(run[i - 1], run[i - 1 + 1]);
      var e :| Step(run[i - 1], e, run[i]);
      if LauncherStep(run[i - 1], e, run[i]) {
        LauncherStepKeepsLock(run[i - 1], e, run[i]);
        LauncherStepKeepsPhases(run[i - 1], e, run[i]);
      } else {
        DaemonStepKeepsInv(run[i - 1], e, run[i]);
      }
    }
  }

  /** At most one daemon is past the lock, whatever it is doing there, and only it can answer. */
  lemma OneDaemon(run: seq<System>, i: nat, c: Pid, d: Pid)
    requires IsRun(run) && i < |run|
    requires c in run[i].daemons && d in run[i].daemons
    requires Holding(run[i].daemons[c]) && Holding(run[i].daemons[d])
    ensures c == d && run[i].holder == Some(c)
    ensures run[i].endpoint.Some? ==> run[i].endpoint == Some(c)
  {
    RunInvariant(run, i);
  }

  /** The pid file only ever comes to name the process that holds the lock at that moment. */
  lemma PidNamesHolder(run: seq<System>, i: nat)
    requires IsRun(run) && i + 1 < |run| && run[i + 1].pidFile != run[i].pidFile
    ensures run[i + 1].pidFile.Some? && run[i].holder == run[i + 1].holder == run[i + 1].pidFile
  {
    RunInvariant(run, i);
    assert Next(run[i], run[i + 1]);
  }

  // ---- what a launcher must have seen -------------------------------------------------------

  /** The step by which a launcher came to the phase it is in. */
  lemma {:induction false} LastEntered(run: seq<System>, i: nat, l: Pid) returns (j: nat)
    requires IsRun(run) && i < |run| && l in run[i].launchers
    ensures j < i && !At(run[j], l, run[i].launchers[l])
    ensures forall m :: j < m <= i ==> At(run[m], l, run[i].launchers[l])
  {
    if i > 0 && At(run[i - 1], l, run[i].launchers[l]) {
      j := LastEntered(run, i - 1, l);
    } else {
      j := i - 1;
    }
  }

  /** Which steps lead into the phases that matter, and whose they are. */
  lemma EnteredBy(s: System, e: Event, t: System, l: Pid)
    requires Step(s, e, t) && l in t.launchers && !At(s, l, t.launchers[l])
    ensures t.launchers[l].ReadyToSpawn? ==> e == FindAbsent(l) || e == LockReleased(l)
    ensures t.launchers[l].ReleasingLock? ==> e == LockShared(l)
    ensures t.launchers[l].ProbingLock? ==> e == PollAbsent(l)
    ensures t.launchers[l] == Returned(true) ==> e == FindHealthy(l) || e == WaitHealthy(l)
    ensures t.launchers[l] == Returned(false) ==> e == FindForeign(l) || e == GiveUp(l)
  {
    if LauncherStep(s, e, t) && l != e.l {
      OthersStay(s, e, t, l);
      hide LauncherStep;
    }
  }

  /** What the state was when a launcher took one of those steps. */
  lemma StepSaw(s: System, e: Event, t: System)
    requires Step(s, e, t)
    ensures e.FindAbsent? ==> At(s, e.l, Probing) && s.endpoint.None?
    ensures e.PollAbsent? ==> s.endpoint.None?
    ensures e.LockShared? ==> s.holder.None? && e.l in s.launchers && s.launchers[e.l].ProbingLock?
    ensures e.LockReleased? ==> At(s, e.l, ReleasingLock)
    ensures e.Spawn? ==> At(s, e.l, ReadyToSpawn)
    ensures e.FindHealthy? || e.WaitHealthy? ==> s.endpoint.Some?
    ensures e.FindForeign? ==> At(s, e.l, Probing)
    ensures e.GiveUp? ==> e.l in s.launchers && OutOfPolls(s.launchers[e.l])
    ensures s.tookOver <= t.tookOver
    ensures forall l :: l in t.tookOver && l !in s.tookOver ==> At(s, l, Evicting)
  {
  }

  lemma EnteringStep(run: seq<System>, i: nat, l: Pid) returns (j: nat, e: Event)
    requires IsRun(run) && i < |run| && l in run[i].launchers
    ensures j < i && Step(run[j], e, run[j + 1]) && !At(run[j], l, run[i].launchers[l])
    ensures forall m :: j < m <= i ==> At(run[m], l, run[i].launchers[l])
    ensures run[i].launchers[l].ReadyToSpawn? ==> e == FindAbsent(l) || e == LockReleased(l)
    ensures run[i].launchers[l].ReleasingLock? ==> e == LockShared(l)
    ensures run[i].launchers[l].ProbingLock? ==> e == PollAbsent(l)
    ensures run[i].launchers[l] == Returned(true) ==> e == FindHealthy(l) || e == WaitHealthy(l)
    ensures run[i].launchers[l] == Returned(false) ==> e == FindForeign(l) || e == GiveUp(l)
  {
    hide Step;
    j := LastEntered(run, i, l);
    assert Next(run[j], run[j + 1]);
    e :| Step(run[j], e, run[j + 1]);
    assert At(run[j + 1], l, run[i].launchers[l]);
    EnteredBy(run[j], e, run[j + 1], l);
  }

  /**
   A launcher that evicted nobody spawns on the look that found the endpoint down, and does
   nothing in between.
   */
  lemma SpawnFollowsAbsence(run: seq<System>, i: nat, l: Pid, d: Pid) returns (j: nat)
    requires IsRun(run) && i + 1 < |run| && Step(run[i], Spawn(l, d), run[i + 1]) && l !in run[i].tookOver
    ensures j < i && run[j].endpoint.None? && Step(run[j], FindAbsent(l), run[j + 1])
    ensures forall m :: j < m <= i ==> At(run[m], l, ReadyToSpawn)
  {
    hide Step, Inv;
    StepSaw(run[i], Spawn(l, d), run[i + 1]);
    var e: Event;
    j, e := EnteringStep(run, i, l);
    StepSaw(run[j], e, run[j + 1]);
    if e == LockReleased(l) {
      ReleasersTookOver(run, j, l);
      KeptTookOver(run, j, i, l);
    }
  }

  /**
   One that evicted spawns on a look that found the endpoint down, followed by a look that
   found the lock free, with nothing of its own in between but letting go of its probe.
   */
  lemma TakeoverFollowsRelease(run: seq<System>, i: nat, l: Pid, d: Pid) returns (j: nat, k: nat)
    requires IsRun(run) && i + 1 < |run| && Step(run[i], Spawn(l, d), run[i + 1]) && l in run[i].tookOver
    ensures j < k < i
    ensures run[j].endpoint.None? && Step(run[j], PollAbsent(l), run[j + 1])
    ensures run[k].holder.None? && Step(run[k], LockShared(l), run[k + 1])
    ensures forall m :: j < m <= k ==> l in run[m].launchers && run[m].launchers[l].ProbingLock?
    ensures forall m :: k < m <= i ==> At(run[m], l, ReleasingLock) || At(run[m], l, ReadyToSpawn)
  {
    hide Step;
    StepSaw(run[i], Spawn(l, d), run[i + 1]);
    var n, e := EnteringStep(run, i, l);
    StepSaw(run[n], e, run[n + 1]);
    if e == FindAbsent(l) {
      ProbersAreNew(run, n, i, l);
    }
    k, e := EnteringStep(run, n, l);
    StepSaw(run[k], e, run[k + 1]);
    j, e := EnteringStep(run, k, l);
    StepSaw(run[j], e, run[j + 1]);
  }

  lemma {:induction false} KeptTookOver(run: seq<System>, i: nat, j: nat, l: Pid)
    requires IsRun(run) && i <= j < |run| && l in run[i].tookOver
    ensures l in run[j].tookOver
  {
    hide IsRun;
    if i < j {
      KeptTookOver(run, i, j - 1, l);
      NextTookOver(run, j - 1, l);
    }
  }

  lemma NextTookOver(run: seq<System>, i: nat, l: Pid)
    requires IsRun(run) && i + 1 < |run|
    ensures l in run[i].tookOver ==> l in run[i + 1].tookOver
    ensures l in run[i + 1].tookOver && l !in run[i].tookOver ==> At(run[i], l, Evicting)
  {
    hide Step;
    assert Next(run[i], run[i + 1]);
    var e :| Step(run[i], e, run[i + 1]);
    StepSaw(run[i], e, run[i + 1]);
  }

  lemma ReleasersTookOver(run: seq<System>, i: nat, l: Pid)
    requires IsRun(run) && i < |run| && l in run[i].launchers
    ensures run[i].launchers[l].ReleasingLock? ==> l in run[i].tookOver
    ensures run[i].launchers[l].Probing? ==> l !in run[i].tookOver
  {
    RunInvariant(run, i);
    assert PhaseAt(run[i], l);
  }

  /** A launcher that finds nobody and goes straight to spawning has evicted nobody since. */
  lemma {:induction false} ProbersAreNew(run: seq<System>, n: nat, i: nat, l: Pid)
    requires IsRun(run) && n < i < |run| && At(run[n], l, Probing)
    requires forall m :: n < m <= i ==> At(run[m], l, ReadyToSpawn)
    ensures l !in run[i].tookOver
  {
    hide IsRun;
    ReleasersTookOver(run, n, l);
    if n + 1 < i {
      ProbersAreNew(run, n, i - 1, l);
    }
    NextTookOver(run, i - 1, l);
  }

  /** Ensure answers Ok on an answer: a daemon, its own child or another's, serves at that very step. */
  lemma OkFollowsAnswer(run: seq<System>, i: nat, l: Pid) returns (j: nat)
    requires IsRun(run) && i < |run| && At(run[i], l, Returned(true))
    ensures j < i && !At(run[j], l, Returned(true)) && At(run[j + 1], l, Returned(true))
    ensures Step(run[j], FindHealthy(l), run[j + 1]) || Step(run[j], WaitHealthy(l), run[j + 1])
    ensures run[j].endpoint.Some? && run[j].endpoint.value in run[j].daemons
            && run[j].daemons[run[j].endpoint.value].Serving?
  {
    var e: Event;
    hide Step;
    j, e := EnteringStep(run, i, l);
    StepSaw(run[j], e, run[j + 1]);
    RunInvariant(run, j);
  }

  /** A wait that has used up its polls: for the old daemon to go, for its own to answer, or for the winner's. */
  predicate OutOfPolls(p: LauncherPhase) {
    (p.AwaitingGone? || p.Waiting? || p.Grace?) && p.polls == 0
  }

  /** How long each wait lasts: a hundred looks for the old daemon and the new, twelve for the winner of a race. */
  lemma WaitsAreBounded(s: System, e: Event, t: System)
    requires Step(s, e, t)
    ensures e.AskToStop? ==> At(t, e.l, AwaitingGone(100))
    ensures e.Spawn? ==> At(t, e.l, Waiting(e.d, 100))
    ensures e.ChildExited? ==> At(t, e.l, Grace(12))
  {
  }

  /** Ensure fails only on a daemon it must not touch, or when a wait has run out; never because its child died. */
  lemma FailureFollowsWait(run: seq<System>, i: nat, l: Pid) returns (j: nat)
    requires IsRun(run) && i < |run| && At(run[i], l, Returned(false))
    ensures j < i && !At(run[j], l, Returned(false))
    ensures || (Step(run[j], FindForeign(l), run[j + 1]) && At(run[j], l, Probing))
            || (Step(run[j], GiveUp(l), run[j + 1]) && l in run[j].launchers && OutOfPolls(run[j].launchers[l]))
  {
    var e: Event;
    hide Step;
    j, e := EnteringStep(run, i, l);
    StepSaw(run[j], e, run[j + 1]);
  }

  // ---- a launcher always comes to an end ------------------------------------------------------

  function LauncherRank(p: LauncherPhase): (r: nat) {
    match p
    case Probing => 500
    case Evicting => 499
    case AwaitingGone(n) => 251 + 2 * n
    case ProbingLock(n) => 250 + 2 * n
    case ReleasingLock => 240
    case ReadyToSpawn => 239
    case Waiting(_, n) => 100 + n
    case Grace(n) => 20 + n
    case Returned(_) => 1
    case Dead => 0
  }

  /** Every step a launcher takes lowers its rank and moves no other launcher: it takes at most 500. */
  lemma LauncherStepsDescend(s: System, e: Event, t: System)
    requires LauncherStep(s, e, t) && !e.Launch?
    ensures e.l in s.launchers && e.l in t.launchers
    ensures LauncherRank(t.launchers[e.l]) < LauncherRank(s.launchers[e.l])
    ensures forall k :: k != e.l ==> (k in s.launchers <==> k in t.launchers)
    ensures forall k :: k != e.l && k in s.launchers ==> t.launchers[k] == s.launchers[k]
  {
  }

  lemma UnusedPid(s: set<Pid>) returns (d: Pid)
    ensures forall x :: x in s ==> x < d
  {
    if s == {} {
      d := 0;
    } else {
      var x :| x in s;
      d := UnusedPid(s - {x});
      assert forall y :: y in s ==> y == x || y in s - {x};
      if d <= x {
        d := x + 1;
      }
    }
  }

  /**
   A launcher is never stuck: in every reachable state it has a step of its own, and the
   step does what it saw says. An answer ends the wait in Ok, a wait that has run out in
   failure, and anything else costs one look.
   */
  lemma LauncherGoesOn(run: seq<System>, i: nat, l: Pid) returns (e: Event, t: System)
    requires IsRun(run) && i < |run| && l in run[i].launchers
    requires !run[i].launchers[l].Returned? && !run[i].launchers[l].Dead?
    ensures LauncherStep(run[i], e, t) && !e.Launch? && !e.LauncherDies? && e.l == l && l in t.launchers
    ensures var p, q := run[i].launchers[l], t.launchers[l];
            match p
            case Probing => q == if run[i].endpoint.Some? then Returned(true) else ReadyToSpawn
            case Evicting => q.AwaitingGone?
            case AwaitingGone(n) =>
              q == if n == 0 then Returned(false) else if run[i].endpoint.Some? then AwaitingGone(n - 1) else ProbingLock(n)
            case ProbingLock(n) => n > 0 && q == if run[i].holder.Some? then AwaitingGone(n - 1) else ReleasingLock
            case ReleasingLock => q == ReadyToSpawn && l !in t.readers
            case ReadyToSpawn => q.Waiting? && q.child in t.daemons && q.child !in run[i].daemons
            case Waiting(d, n) =>
              q == if n == 0 then Returned(false) else if run[i].endpoint.Some? then Returned(true) else Waiting(d, n - 1)
            case Grace(n) =>
              q == if n == 0 then Returned(false) else if run[i].endpoint.Some? then Returned(true) else Grace(n - 1)
            case _ => true
  {
    RunInvariant(run, i);
    assert PhaseAt(run[i], l);
    var s := run[i];
    match s.launchers[l]
    case Probing =>
      if s.endpoint.Some? {
        e, t := FindHealthy(l), To(s, l, Returned(true));
      } else {
        e, t := FindAbsent(l), To(s, l, ReadyToSpawn);
      }
    case Evicting =>
      e, t := AskToStop(l), To(s, l, AwaitingGone(GONE_POLLS)).(tookOver := s.tookOver + {l});
    case AwaitingGone(n) =>
      e, t := TakeoverStep(s, l);
    case ProbingLock(n) =>
      e, t := TakeoverStep(s, l);
    case ReleasingLock =>
      e, t := TakeoverStep(s, l);
    case ReadyToSpawn =>
      var d := UnusedPid(s.daemons.Keys + s.launchers.Keys);
      e, t := Spawn(l, d), To(s, l, Waiting(d, START_POLLS)).(daemons := s.daemons[d := Starting]);
    case Waiting(d, n) =>
      e, t := WaitStep(s, l);
    case Grace(n) =>
      e, t := WaitStep(s, l);
  }

  lemma TakeoverStep(s: System, l: Pid) returns (e: Event, t: System)
    requires l in s.launchers && TakingOver(s.launchers[l]) && (s.launchers[l].ProbingLock? ==> s.launchers[l].polls > 0)
    ensures LauncherStep(s, e, t) && !e.Launch? && !e.LauncherDies? && e.l == l && l in t.launchers
    ensures var p, q := s.launchers[l], t.launchers[l];
            && (p.AwaitingGone? ==>
                  q == if p.polls == 0 then Returned(false) else if s.endpoint.Some? then AwaitingGone(p.polls - 1) else ProbingLock(p.polls))
            && (p.ProbingLock? ==> q == if s.holder.Some? then AwaitingGone(p.polls - 1) else ReleasingLock)
            && (p.ReleasingLock? ==> q == ReadyToSpawn && l !in t.readers)
  {
    match s.launchers[l]
    case AwaitingGone(n) =>
      if n == 0 {
        e, t := GiveUp(l), To(s, l, Returned(false));
      } else if s.endpoint.Some? {
        e, t := PollPresent(l), To(s, l, AwaitingGone(n - 1));
      } else {
        e, t := PollAbsent(l), To(s, l, ProbingLock(n));
      }
    case ProbingLock(n) =>
      if s.holder.Some? {
        e, t := LockBusy(l), To(s, l, AwaitingGone(n - 1));
      } else {
        e, t := LockShared(l), To(s, l, ReleasingLock).(readers := s.readers + {l});
      }
    case ReleasingLock =>
      e, t := LockReleased(l), To(s, l, ReadyToSpawn).(readers := s.readers - {l});
  }

  lemma WaitStep(s: System, l: Pid) returns (e: Event, t: System)
    requires l in s.launchers && (s.launchers[l].Waiting? || s.launchers[l].Grace?)
    ensures LauncherStep(s, e, t) && !e.Launch? && !e.LauncherDies? && e.l == l && l in t.launchers
    ensures var p := s.launchers[l];
            t.launchers[l] == if p.polls == 0 then Returned(false)
                              else if s.endpoint.Some? then Returned(true)
                              else p.(polls := p.polls - 1)
  {
    var p := s.launchers[l];
    if p.polls == 0 {
      e, t := GiveUp(l), To(s, l, Returned(false));
    } else if s.endpoint.Some? {
      e, t := WaitHealthy(l), To(s, l, Returned(true));
    } else {
      e, t := WaitMore(l), To(s, l, p.(polls := p.polls - 1));
    }
  }

  /** A daemon's life: past the lock it may name itself, serve, drain and go, whatever launchers do. */
  lemma DaemonGoesOn(s: System, d: Pid)
    requires d in s.daemons
    ensures s.daemons[d].Locked? ==> Step(s, WritePid(d), s.(pidFile := Some(d)))
    ensures s.daemons[d].Locked? ==> Step(s, Bind(d), s.(endpoint := Some(d), daemons := s.daemons[d := Serving]))
    ensures s.daemons[d].Serving? ==> Step(s, Drain(d), s.(endpoint := None, daemons := s.daemons[d := Draining]))
    ensures exists t :: Step(s, Exit(d), t) && t.holder != Some(d) && t.endpoint != Some(d) && t.daemons == s.daemons[d := Exited]
  {
    var t := s.(holder := if s.holder == Some(d) then None else s.holder,
                endpoint := if s.endpoint == Some(d) then None else s.endpoint,
                daemons := s.daemons[d := Exited]);
    assert Step(s, Exit(d), t);
  }

  // ---- a refusal that names nobody ------------------------------------------------------------

  /**
   A starting daemon can be refused on a home no daemon holds exactly while a launcher that
   evicted is between taking and letting go of its probe. So where nothing was ever evicted,
   a refusal always means another daemon.
   */
  lemma SpuriousRefusalIff(run: seq<System>, i: nat, d: Pid)
    requires IsRun(run) && i < |run| && d in run[i].daemons && run[i].daemons[d].Starting?
    ensures run[i].holder.None? && (exists t :: Step(run[i], LockRefused(d), t)) <==>
              exists l :: l in run[i].tookOver && At(run[i], l, ReleasingLock)
    ensures run[i].tookOver == {} && (exists t :: Step(run[i], LockRefused(d), t)) ==>
              exists h :: h != d && run[i].holder == Some(h) && h in run[i].daemons && Holding(run[i].daemons[h])
  {
    RunInvariant(run, i);
    var s := run[i];
    forall l
      ensures l in s.readers <==> l in s.tookOver && At(s, l, ReleasingLock)
    {
      assert PhaseAt(s, l);
    }
    if l :| l in s.tookOver && At(s, l, ReleasingLock) {
      assert l in s.readers;
      assert Step(s, LockRefused(d), s.(daemons := s.daemons[d := Exited]));
    }
    if s.holder.None? && exists t :: Step(s, LockRefused(d), t) {
      var l :| l in s.readers;
      assert At(s, l, ReleasingLock) && l in s.tookOver;
    }
    if s.tookOver == {} && exists t :: Step(s, LockRefused(d), t) {
      assert s.holder.Some?;
      assert s.holder == Some(s.holder.value);
    }
  }

  lemma Extend(run: seq<System>, e: Event, t: System)
    requires IsRun(run) && Step(run[|run| - 1], e, t)
    ensures IsRun(run + [t])
  {
    var longer := run + [t];
    forall i | 0 <= i < |longer| - 1
      ensures Next(longer[i], longer[i + 1])
    {
      if i < |run| - 1 {
        assert Next(run[i], run[i + 1]);
      }
    }
  }

  const SERVED := System(None, {}, None, None, map[], map[], {})
    .(launchers := map[1 := Waiting(10, START_POLLS)], daemons := map[10 := Serving], holder := Some(10), endpoint := Some(10))

  /** Launcher 1 starts daemon 10, which serves. */
  lemma RunToServed() returns (run: seq<System>)
    ensures IsRun(run) && run[|run| - 1] == SERVED
  {
    var s0 := System(None, {}, None, None, map[], map[], {});
    run := [s0];
    var s1 := To(s0, 1, Probing);
    Extend(run, Launch(1), s1);
    var s2 := To(s1, 1, ReadyToSpawn);
    Extend(run + [s1], FindAbsent(1), s2);
    var s3 := To(s2, 1, Waiting(10, START_POLLS)).(daemons := map[10 := Starting]);
    Extend(run + [s1] + [s2], Spawn(1, 10), s3);
    var s4 := s3.(holder := Some(10), daemons := s3.daemons[10 := Locked]);
    Extend(run + [s1] + [s2] + [s3], Acquire(10), s4);
    Extend(run + [s1] + [s2] + [s3] + [s4], Bind(10), SERVED);
    run := run + [s1] + [s2] + [s3] + [s4] + [SERVED];
  }

  const ASKED := SERVED.(launchers := SERVED.launchers[2 := AwaitingGone(GONE_POLLS)], tookOver := {2})

  /** Launcher 2 finds that daemon stale and asks it to stop. */
  lemma RunToAsked() returns (run: seq<System>)
    ensures IsRun(run) && run[|run| - 1] == ASKED
  {
    run := RunToServed();
    var s1 := To(SERVED, 2, Probing);
    Extend(run, Launch(2), s1);
    var s2 := To(s1, 2, Evicting);
    Extend(run + [s1], FindStale(2), s2);
    Extend(run + [s1] + [s2], AskToStop(2), ASKED);
    run := run + [s1] + [s2] + [ASKED];
  }

  const VACATED := ASKED
    .(launchers := ASKED.launchers[2 := ProbingLock(GONE_POLLS)],
      holder := None, endpoint := None, daemons := map[10 := Exited])

  /** The daemon exits, and launcher 2 goes on to probe the lock. */
  lemma RunToVacated() returns (run: seq<System>)
    ensures IsRun(run) && run[|run| - 1] == VACATED
  {
    run := RunToAsked();
    var s1 := ASKED.(holder := None, endpoint := None, daemons := ASKED.daemons[10 := Exited]);
    Extend(run, Exit(10), s1);
    Extend(run + [s1], PollAbsent(2), VACATED);
    run := run + [s1] + [VACATED];
  }

  const CROSSED := VACATED
    .(launchers := VACATED.launchers[3 := Waiting(30, START_POLLS)], daemons := VACATED.daemons[30 := Starting])

  /** Launcher 3 finds nobody there and starts daemon 30. */
  lemma RunToCrossed() returns (run: seq<System>)
    ensures IsRun(run) && run[|run| - 1] == CROSSED
  {
    run := RunToVacated();
    var s1 := To(VACATED, 3, Probing);
    Extend(run, Launch(3), s1);
    var s2 := To(s1, 3, ReadyToSpawn);
    Extend(run + [s1], FindAbsent(3), s2);
    Extend(run + [s1] + [s2], Spawn(3, 30), CROSSED);
    run := run + [s1] + [s2] + [CROSSED];
  }

  /**
   The probe of the lock is not invisible. Here launcher 3's daemon starts on a home that no
   daemon holds, meets launcher 2's momentary shared lock, and exits saying another is running.
   */
  lemma RefusedByAProbe() returns (run: seq<System>)
    ensures IsRun(run) && |run| >= 2
    ensures run[|run| - 2].holder.None? && Step(run[|run| - 2], LockRefused(30), run[|run| - 1])
  {
    run := RunToCrossed();
    var s1 := To(CROSSED, 2, ReleasingLock).(readers := CROSSED.readers + {2});
    Extend(run, LockShared(2), s1);
    var s2 := s1.(daemons := s1.daemons[30 := Exited]);
    Extend(run + [s1], LockRefused(30), s2);
    run := run + [s1] + [s2];
  }

  const LOST := System(None, {}, None, None, map[], map[], {})
    .(launchers := map[1 := Waiting(10, START_POLLS), 2 := Waiting(20, START_POLLS)],
      daemons := map[10 := Locked, 20 := Exited], holder := Some(10))

  const BOTH_READY := System(None, {}, None, None, map[], map[1 := ReadyToSpawn, 2 := ReadyToSpawn], {})

  /** Two launchers find nobody. */
  lemma RunToBothReady() returns (run: seq<System>)
    ensures IsRun(run) && run[|run| - 1] == BOTH_READY
  {
    var s0 := System(None, {}, None, None, map[], map[], {});
    run := [s0];
    var s1 := To(s0, 1, Probing);
    Extend(run, Launch(1), s1);
    var s2 := To(s1, 2, Probing);
    Extend(run + [s1], Launch(2), s2);
    var s3 := To(s2, 1, ReadyToSpawn);
    Extend(run + [s1] + [s2], FindAbsent(1), s3);
    Extend(run + [s1] + [s2] + [s3], FindAbsent(2), BOTH_READY);
    run := run + [s1] + [s2] + [s3] + [BOTH_READY];
  }

  const BOTH_SPAWNED := System(None, {}, None, None, map[], map[], {})
    .(launchers := map[1 := Waiting(10, START_POLLS), 2 := Waiting(20, START_POLLS)],
      daemons := map[10 := Starting, 20 := Starting])

  lemma RunToBothSpawned() returns (run: seq<System>)
    ensures IsRun(run) && run[|run| - 1] == BOTH_SPAWNED
  {
    run := RunToBothReady();
    var s1 := To(BOTH_READY, 1, Waiting(10, START_POLLS)).(daemons := map[10 := Starting]);
    Extend(run, Spawn(1, 10), s1);
    Extend(run + [s1], Spawn(2, 20), BOTH_SPAWNED);
    run := run + [s1] + [BOTH_SPAWNED];
  }

  /** Daemon 10 takes the lock and daemon 20 is refused. */
  lemma RunToLost() returns (run: seq<System>)
    ensures IsRun(run) && run[|run| - 1] == LOST
  {
    run := RunToBothSpawned();
    var s1 := BOTH_SPAWNED.(holder := Some(10), daemons := map[10 := Locked, 20 := Starting]);
    Extend(run, Acquire(10), s1);
    Extend(run + [s1], LockRefused(20), LOST);
    run := run + [s1] + [LOST];
  }

  /** Losing the race is success: launcher 2's child is gone, the winner's daemon comes up, and ensure is Ok. */
  lemma LoserAnswersOk() returns (run: seq<System>)
    ensures IsRun(run) && At(run[|run| - 1], 2, Returned(true))
    ensures run[|run| - 1].holder == Some(10) && 20 in run[|run| - 1].daemons && run[|run| - 1].daemons[20] == Exited
  {
    run := RunToLost();
    var s1 := To(LOST, 2, Grace(GRACE_POLLS));
    Extend(run, ChildExited(2), s1);
    var s2 := s1.(endpoint := Some(10), daemons := s1.daemons[10 := Serving]);
    Extend(run + [s1], Bind(10), s2);
    var s3 := To(s2, 2, Returned(true));
    Extend(run + [s1] + [s2], WaitHealthy(2), s3);
    run := run + [s1] + [s2] + [s3];
  }
}
