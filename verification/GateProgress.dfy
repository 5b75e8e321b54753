/** Absence of wait cycles in the failpoint gate, over every disciplined interleaving. */
module GateProgress {
  import opened Basics
  import opened FailpointGate
  import opened GateIsolation

  predicate Started(th: Thread) {
    !th.pc.Unborn?
  }

  /** Thread `t` cannot continue before thread `u` does something. */
  predicate WaitsFor(g: Gate, t: nat, u: nat)
    requires t < |g.threads| && u < |g.threads|
  {
    match g.threads[t].pc
    case ReadWait | ScopeWait => g.writer == Some(u)
    case WriteWait => g.writer == Some(u) || g.threads[u].readLocks > 0
    case Joining(w, task) => u == w && !Over(g.threads[w], task)
    case _ => false
  }

  /** Which threads work for a hold: its own workers, and pool threads while they serve it. */
  type Teams = nat -> set<nat>

  /** Thread `t` works for the hold that is current now. */
  predicate Sheltered(g: Gate, t: nat, teams: Teams) {
    g.generation % 2 == 1 && t in teams(g.generation)
  }

  /**
    What callers owe the gate. Only threads in `writers` run failpoint tests,
    and they ask for the write side holding nothing. A member of the current
    hold's team checks the gate only under that hold's token, or inside what it
    already holds. Threads are numbered so that joins go to higher numbers; a
    thread that holds either side, or is no test itself, joins only threads
    outside `writers`; and a holder or a member of the current team joins only
    members of that team. Waiting for the completion of a pool thread's task is
    a join in all of this. Adopting a token is always allowed: a pool thread may
    take up any captured token, or none, between two tasks.
   */
  predicate Disciplined(g: Gate, a: Action, writers: set<nat>, teams: Teams)
    requires Enabled(g, a)
  {
    var th := g.threads[a.t];
    match a
    case ReadCheck(t) => Sheltered(g, t, teams) ==> SkipsGate(th, g.generation)
    case ScopeCheck(t) => Sheltered(g, t, teams) ==> SkipsGate(th, g.generation)
    case WriteRequest(t) => t in writers && th.readLocks == 0 && !th.owns
    case Join(t, w, _) => JoinOk(g, t, w, writers, teams)
    case _ => true
  }

  predicate JoinOk(g: Gate, t: nat, w: nat, writers: set<nat>, teams: Teams)
    requires t < |g.threads|
  {
    var th := g.threads[t];
    && t < w < |g.threads| && Started(g.threads[w])
    && (t !in writers || th.readLocks > 0 || th.owns ==> w !in writers)
    && (th.owns || Sheltered(g, t, teams) ==> Sheltered(g, w, teams))
  }

  /** No thread that will work for the hold about to begin is already waiting at the gate, or for an outsider. */
  predicate AtRest(g: Gate, team: set<nat>) {
    forall t :: 0 <= t < |g.threads| && t in team ==> ThreadAtRest(g.threads[t], team)
  }

  predicate ThreadAtRest(th: Thread, team: set<nat>) {
    !th.pc.ReadWait? && !th.pc.ScopeWait? && (th.pc.Joining? ==> th.pc.worker in team)
  }

  predicate WaitOk(g: Gate, t: nat, writers: set<nat>, teams: Teams)
    requires t < |g.threads|
  {
    var th := g.threads[t];
    match th.pc
    case WriteWait => t in writers && th.readLocks == 0 && !th.owns
    case Joining(w, _) => JoinOk(g, t, w, writers, teams)
    case ReadWait | ScopeWait => !Sheltered(g, t, teams)
    case _ => true
  }

  ghost predicate DisciplineInv(g: Gate, writers: set<nat>, teams: Teams) {
    forall t :: 0 <= t < |g.threads| ==> WaitOk(g, t, writers, teams)
  }

  /** Every step is disciplined, and every hold begins with its team at rest. */
  ghost predicate DisciplinedRun(states: seq<Gate>, actions: seq<Action>, writers: set<nat>, teams: Teams) {
    && IsRun(states, actions)
    && forall i :: 0 <= i < |actions| ==> DisciplinedAt(states, actions, writers, teams, i)
  }

  ghost predicate DisciplinedAt(states: seq<Gate>, actions: seq<Action>, writers: set<nat>, teams: Teams, i: nat)
    requires |states| == |actions| + 1 && i < |actions|
  {
    && Enabled(states[i], actions[i]) && Disciplined(states[i], actions[i], writers, teams)
    && (actions[i].AcquireBumps? ==> AtRest(states[i], teams(states[i].generation + 1)))
  }

  /** The steps after which a thread may have to wait. */
  predicate MayWait(a: Action) {
    a.ReadCheck? || a.ScopeCheck? || a.WriteRequest? || a.Join?
  }

  lemma OthersDoNotWait(th: Thread, a: Action, generation: nat)
    requires Ready(th, a) && !MayWait(a)
    ensures
      var pc := NextThread(th, a, generation).pc;
      !pc.ReadWait? && !pc.ScopeWait? && !pc.WriteWait? && !pc.Joining?
  {
  }

  lemma StepKeepsOwnWait(g: Gate, a: Action, writers: set<nat>, teams: Teams)
    requires Enabled(g, a) && Disciplined(g, a, writers, teams)
    ensures WaitOk(Apply(g, a), a.t, writers, teams)
  {
    if MayWait(a) {
      assert Apply(g, a).generation == g.generation;
      assert Apply(g, a).threads == g.threads[a.t := NextThread(g.threads[a.t], a, g.generation)];
    } else {
      OthersDoNotWait(g.threads[a.t], a, g.generation);
    }
  }

  /** A step moves its own thread only, and gives birth to at most one other. */
  lemma StepIsLocal(g: Gate, a: Action, t: nat)
    requires Enabled(g, a) && t < |g.threads| && t != a.t
    ensures
      var th := Apply(g, a).threads[t];
      th == g.threads[t] || (g.threads[t].pc.Unborn? && th.pc.Running?)
  {
  }

  lemma StepKeepsStarted(g: Gate, a: Action, w: nat)
    requires Enabled(g, a) && w < |g.threads| && Started(g.threads[w])
    ensures Started(Apply(g, a).threads[w])
  {
  }

  /** A bump is the holder's own step; the second one leaves an even generation, which shelters nobody. */
  lemma BumpIsTheHolders(g: Gate, a: Action, t: nat)
    requires Inv(g) && Enabled(g, a) && t < |g.threads| && t != a.t
    requires Apply(g, a).generation != g.generation
    ensures a.ReleaseBumps? ==> Apply(g, a).generation % 2 == 0
    ensures g.threads[t].pc.Joining? ==> !g.threads[t].owns
  {
    assert ThreadOk(g.threads[t], g.writer == Some(t), g.writer.Some?, g.generation);
    assert ThreadOk(g.threads[a.t], g.writer == Some(a.t), g.writer.Some?, g.generation);
  }

  lemma StepKeepsOtherWait(g: Gate, a: Action, writers: set<nat>, teams: Teams, t: nat)
    requires Inv(g) && Enabled(g, a) && (a.AcquireBumps? ==> AtRest(g, teams(g.generation + 1)))
    requires t < |g.threads| && t != a.t && WaitOk(g, t, writers, teams)
    ensures WaitOk(Apply(g, a), t, writers, teams)
  {
    var g' := Apply(g, a);
    StepIsLocal(g, a, t);
    if g'.generation != g.generation { BumpIsTheHolders(g, a, t); }
    if g.threads[t].pc.Joining? && g.threads[t].pc.worker < |g.threads| && Started(g.threads[g.threads[t].pc.worker]) {
      StepKeepsStarted(g, a, g.threads[t].pc.worker);
    }
    if a.AcquireBumps? && t in teams(g.generation + 1) { assert ThreadAtRest(g.threads[t], teams(g.generation + 1)); }
  }

  lemma StepKeepsDiscipline(g: Gate, a: Action, writers: set<nat>, teams: Teams)
    requires Inv(g) && DisciplineInv(g, writers, teams)
    requires Enabled(g, a) && Disciplined(g, a, writers, teams)
    requires a.AcquireBumps? ==> AtRest(g, teams(g.generation + 1))
    ensures DisciplineInv(Apply(g, a), writers, teams)
  {
    var g' := Apply(g, a);
    forall t | 0 <= t < |g'.threads| ensures WaitOk(g', t, writers, teams) {
      assert t < |g.threads| && WaitOk(g, t, writers, teams);
      if t == a.t {
        StepKeepsOwnWait(g, a, writers, teams);
      } else {
        StepKeepsOtherWait(g, a, writers, teams, t);
      }
    }
  }

  lemma {:induction false} RunKeepsDiscipline(states: seq<Gate>, actions: seq<Action>, writers: set<nat>, teams: Teams,
                                              k: nat)
    requires DisciplinedRun(states, actions, writers, teams) && k < |states|
    ensures Inv(states[k]) && DisciplineInv(states[k], writers, teams)
  {
    RunKeepsInv(states, actions, k);
    if k > 0 {
      RunKeepsDiscipline(states, actions, writers, teams, k - 1);
      assert StepAt(states, actions, k - 1) && DisciplinedAt(states, actions, writers, teams, k - 1);
      StepKeepsDiscipline(states[k - 1], actions[k - 1], writers, teams);
    }
  }

  /** Threads that can never be waiting for the gate itself in this state. */
  predicate Protected(g: Gate, t: nat, writers: set<nat>, teams: Teams)
    requires t < |g.threads|
  {
    if g.writer.Some? then
      g.writer == Some(t) || (t !in writers && Sheltered(g, t, teams))
    else
      t !in writers || g.threads[t].readLocks > 0
  }

  function Rank(g: Gate, t: nat, writers: set<nat>, teams: Teams): nat
    requires t < |g.threads|
  {
    (if Protected(g, t, writers, teams) then 0 else |g.threads|) + (|g.threads| - 1 - t)
  }

  /** Every wait-for edge strictly lowers the rank. */
  lemma WaitLowersRank(g: Gate, t: nat, u: nat, writers: set<nat>, teams: Teams)
    requires Inv(g) && DisciplineInv(g, writers, teams)
    requires t < |g.threads| && u < |g.threads| && WaitsFor(g, t, u)
    ensures Rank(g, u, writers, teams) < Rank(g, t, writers, teams)
  {
    assert WaitOk(g, t, writers, teams);
    assert ThreadOk(g.threads[t], g.writer == Some(t), g.writer.Some?, g.generation);
    assert ThreadOk(g.threads[u], g.writer == Some(u), g.writer.Some?, g.generation);
  }

  /** A chain of threads, each waiting for the next. */
  ghost predicate WaitChain(g: Gate, chain: seq<nat>) {
    && (forall i :: 0 <= i < |chain| ==> chain[i] < |g.threads|)
    && forall i :: 0 < i < |chain| ==> WaitsFor(g, chain[i - 1], chain[i])
  }

  lemma {:induction false} ChainLowersRank(g: Gate, chain: seq<nat>, writers: set<nat>, teams: Teams)
    requires Inv(g) && DisciplineInv(g, writers, teams)
    requires WaitChain(g, chain) && |chain| >= 2
    ensures Rank(g, chain[|chain| - 1], writers, teams) < Rank(g, chain[0], writers, teams)
  {
    var n := |chain|;
    WaitLowersRank(g, chain[n - 2], chain[n - 1], writers, teams);
    if n > 2 {
      var shorter := chain[..n - 1];
      forall i | 0 < i < |shorter| ensures WaitsFor(g, shorter[i - 1], shorter[i]) {
        assert WaitsFor(g, chain[i - 1], chain[i]);
      }
      ChainLowersRank(g, shorter, writers, teams);
    }
  }

  /** Deadlock freedom, first half: no reachable state has a cycle of waiting threads. */
  lemma NoWaitCycle(states: seq<Gate>, actions: seq<Action>, writers: set<nat>, teams: Teams, k: nat, chain: seq<nat>)
    requires DisciplinedRun(states, actions, writers, teams) && k < |states|
    requires WaitChain(states[k], chain) && |chain| >= 2
    ensures chain[0] != chain[|chain| - 1]
  {
    RunKeepsDiscipline(states, actions, writers, teams, k);
    ChainLowersRank(states[k], chain, writers, teams);
  }

  /** A live thread that waits for nobody has a step of its own. */
  lemma UnblockedCanStep(g: Gate, t: nat, writers: set<nat>, teams: Teams) returns (a: Action)
    requires Inv(g) && t < |g.threads|
    requires Started(g.threads[t]) && !g.threads[t].pc.Finished?
    requires WaitOk(g, t, writers, teams)
    requires forall u :: 0 <= u < |g.threads| ==> !WaitsFor(g, t, u)
    ensures a.t == t && Enabled(g, a) && Disciplined(g, a, writers, teams)
  {
    var th := g.threads[t];
    assert ThreadOk(th, g.writer == Some(t), g.writer.Some?, g.generation);
    var holder := if g.writer.Some? then g.writer.value else t;
    assert !WaitsFor(g, t, holder);
    match th.pc
    case Running =>
      if th.frames == [] {
        a := if th.owns then ReleaseBumps(t) else Finish(t);
      } else {
        a := if Top(th.frames).value.Eval? then EvalDone(t) else ScopeLower(t);
      }
    case ReadWait => a := ReadAcquire(t);
    case ScopeWait => a := ScopeAcquire(t);
    case ScopeEnter => a := ScopeRaise(t);
    case ScopeRelease => a := ScopeUnlock(t);
    case WriteWait =>
      a := WriteAcquire(t);
      forall u | 0 <= u < |g.threads| ensures g.threads[u].readLocks == 0 {
        assert !WaitsFor(g, t, u);
      }
    case AcquireBump => a := AcquireBumps(t);
    case AcquireFlag => a := AcquireSetsFlag(t);
    case ReleaseUnlock => a := ReleaseUnlocks(t);
    case ReleaseFlag => a := ReleaseClearsFlag(t);
    case Joining(w, _) => a := JoinDone(t); assert !WaitsFor(g, t, w);
  }

  /** What a thread waits for is itself live. */
  lemma WaitedForIsLive(g: Gate, t: nat, u: nat, writers: set<nat>, teams: Teams)
    requires Inv(g) && DisciplineInv(g, writers, teams)
    requires t < |g.threads| && u < |g.threads| && WaitsFor(g, t, u)
    ensures Started(g.threads[u]) && !g.threads[u].pc.Finished?
  {
    assert WaitOk(g, t, writers, teams);
    assert ThreadOk(g.threads[u], g.writer == Some(u), g.writer.Some?, g.generation);
  }

  lemma {:induction false} SomeoneCanStep(g: Gate, t: nat, writers: set<nat>, teams: Teams) returns (a: Action)
    requires Inv(g) && DisciplineInv(g, writers, teams)
    requires t < |g.threads| && Started(g.threads[t]) && !g.threads[t].pc.Finished?
    ensures Enabled(g, a) && Disciplined(g, a, writers, teams)
    decreases Rank(g, t, writers, teams)
  {
    if u :| 0 <= u < |g.threads| && WaitsFor(g, t, u) {
      WaitLowersRank(g, t, u, writers, teams);
      WaitedForIsLive(g, t, u, writers, teams);
      a := SomeoneCanStep(g, u, writers, teams);
    } else {
      assert WaitOk(g, t, writers, teams);
      a := UnblockedCanStep(g, t, writers, teams);
    }
  }

  /** The same teams for the holds so far, and nobody yet for later ones. */
  function UpTo(teams: Teams, generation: nat): Teams {
    (h: nat) => if h <= generation then teams(h) else {}
  }

  /** Extending a disciplined run by a disciplined step; a hold that begins may choose its team afresh. */
  lemma ExtendRun(states: seq<Gate>, actions: seq<Action>, writers: set<nat>, teams: Teams, k: nat, a: Action)
    requires DisciplinedRun(states, actions, writers, teams) && k < |states|
    requires Enabled(states[k], a) && Disciplined(states[k], a, writers, teams)
    ensures DisciplinedRun(states[..k + 1] + [Apply(states[k], a)], actions[..k] + [a], writers,
                           UpTo(teams, states[k].generation))
  {
    var next := UpTo(teams, states[k].generation);
    var more, done := states[..k + 1] + [Apply(states[k], a)], actions[..k] + [a];
    forall i | 0 <= i < |done| ensures StepAt(more, done, i) && DisciplinedAt(more, done, writers, next, i) {
      if i < k {
        assert StepAt(states, actions, i) && DisciplinedAt(states, actions, writers, teams, i);
        GenerationGrows(states, actions, i + 1, k);
        GenerationGrows(states, actions, i, k);
      }
    }
  }

  /**
    Deadlock freedom, second half: while any started thread is unfinished, some
    thread can step, and the run so extended is disciplined again.
   */
  lemma NoDeadlock(states: seq<Gate>, actions: seq<Action>, writers: set<nat>, teams: Teams, k: nat, t: nat)
    returns (a: Action)
    requires DisciplinedRun(states, actions, writers, teams) && k < |states|
    requires t < |states[k].threads| && Started(states[k].threads[t]) && !states[k].threads[t].pc.Finished?
    ensures Enabled(states[k], a) && Disciplined(states[k], a, writers, teams)
    ensures DisciplinedRun(states[..k + 1] + [Apply(states[k], a)], actions[..k] + [a], writers,
                           UpTo(teams, states[k].generation))
  {
    RunKeepsDiscipline(states, actions, writers, teams, k);
    a := SomeoneCanStep(states[k], t, writers, teams);
    ExtendRun(states, actions, writers, teams, k, a);
  }

  // ---------------------------------------------------------------- spawned workers only

  /** The duties in terms of tokens alone, for runs in which every worker keeps the token it was spawned with. */
  predicate TokenDisciplined(g: Gate, a: Action, writers: set<nat>)
    requires Enabled(g, a)
  {
    var th := g.threads[a.t];
    match a
    case WriteRequest(t) => t in writers && th.readLocks == 0 && !th.owns
    case Join(t, w, _) =>
      && t < w && (t !in writers || th.readLocks > 0 || th.owns ==> w !in writers)
      && (th.owns || CarriesLive(g, t) ==> CarriesLive(g, w))
    case Rerun(_, _) => false
    case _ => true
  }

  ghost predicate TokenRun(states: seq<Gate>, actions: seq<Action>, writers: set<nat>) {
    && IsRun(states, actions)
    && forall i :: 0 <= i < |actions| ==> TokenAt(states, actions, writers, i)
  }

  ghost predicate TokenAt(states: seq<Gate>, actions: seq<Action>, writers: set<nat>, i: nat)
    requires |states| == |actions| + 1 && i < |actions|
  {
    Enabled(states[i], actions[i]) && TokenDisciplined(states[i], actions[i], writers)
  }

  /** A hold's team: the workers spawned with its token. */
  function SpawnedTeams(actions: seq<Action>): Teams {
    (h: nat) => set a | a in actions && a.Spawn? && a.token == Some(h) :: a.w
  }

  lemma {:induction false} SpawnTokenStays(states: seq<Gate>, actions: seq<Action>, writers: set<nat>, j: nat, k: nat,
                                           t: nat)
    requires TokenRun(states, actions, writers) && j <= k < |states|
    requires t < |states[j].threads| && Started(states[j].threads[t])
    ensures t < |states[k].threads| && Started(states[k].threads[t])
    ensures states[k].threads[t].inherited == states[j].threads[t].inherited
    decreases k
  {
    if j < k {
      SpawnTokenStays(states, actions, writers, j, k - 1, t);
      assert StepAt(states, actions, k - 1) && TokenAt(states, actions, writers, k - 1);
    }
  }

  lemma {:induction false} TokenComesFromSpawn(states: seq<Gate>, actions: seq<Action>, writers: set<nat>, k: nat,
                                               t: nat, h: nat)
    requires TokenRun(states, actions, writers) && k < |states| && t < |states[k].threads|
    requires states[k].threads[t].inherited == Some(h)
    ensures t in SpawnedTeams(actions)(h)
  {
    if k > 0 {
      assert StepAt(states, actions, k - 1) && TokenAt(states, actions, writers, k - 1);
      if states[k - 1].threads[t].inherited == Some(h) {
        TokenComesFromSpawn(states, actions, writers, k - 1, t, h);
      } else {
        assert actions[k - 1] in actions && actions[k - 1].Spawn? && actions[k - 1].w == t;
      }
    }
  }

  lemma MemberCarriesToken(states: seq<Gate>, actions: seq<Action>, writers: set<nat>, k: nat, t: nat, h: nat)
    requires TokenRun(states, actions, writers) && k < |states| && t < |states[k].threads|
    requires t in SpawnedTeams(actions)(h) && Started(states[k].threads[t])
    ensures states[k].threads[t].inherited == Some(h)
  {
    var j :| 0 <= j < |actions| && actions[j].Spawn? && actions[j].token == Some(h) && actions[j].w == t;
    assert StepAt(states, actions, j);
    if k <= j {
      SpawnTokenStays(states, actions, writers, k, j, t);
    } else {
      SpawnTokenStays(states, actions, writers, j + 1, k, t);
    }
  }

  lemma TeamIsUnborn(states: seq<Gate>, actions: seq<Action>, writers: set<nat>, i: nat)
    requires TokenRun(states, actions, writers) && i < |actions| && actions[i].AcquireBumps?
    ensures AtRest(states[i], SpawnedTeams(actions)(states[i].generation + 1))
  {
    var g := states[i];
    RunKeepsInv(states, actions, i);
    forall t | 0 <= t < |g.threads| && t in SpawnedTeams(actions)(g.generation + 1)
      ensures ThreadAtRest(g.threads[t], SpawnedTeams(actions)(g.generation + 1))
    {
      assert ThreadOk(g.threads[t], g.writer == Some(t), g.writer.Some?, g.generation);
      if Started(g.threads[t]) { MemberCarriesToken(states, actions, writers, i, t, g.generation + 1); }
    }
  }

  lemma TokenStepIsDisciplined(states: seq<Gate>, actions: seq<Action>, writers: set<nat>, i: nat)
    requires TokenRun(states, actions, writers) && i < |actions|
    ensures DisciplinedAt(states, actions, writers, SpawnedTeams(actions), i)
  {
    var g, a, teams := states[i], actions[i], SpawnedTeams(actions);
    assert StepAt(states, actions, i) && TokenAt(states, actions, writers, i);
    RunKeepsInv(states, actions, i);
    assert ThreadOk(g.threads[a.t], g.writer == Some(a.t), g.writer.Some?, g.generation);
    if Sheltered(g, a.t, teams) { MemberCarriesToken(states, actions, writers, i, a.t, g.generation); }
    if a.Join? && CarriesLive(g, a.w) { TokenComesFromSpawn(states, actions, writers, i, a.w, g.generation); }
    if a.AcquireBumps? { TeamIsUnborn(states, actions, writers, i); }
  }

  /** Where workers keep their first token, joining only holders of the live token is discipline enough. */
  lemma TokenRunIsDisciplined(states: seq<Gate>, actions: seq<Action>, writers: set<nat>)
    requires TokenRun(states, actions, writers)
    ensures DisciplinedRun(states, actions, writers, SpawnedTeams(actions))
  {
    forall i | 0 <= i < |actions| ensures DisciplinedAt(states, actions, writers, SpawnedTeams(actions), i) {
      TokenStepIsDisciplined(states, actions, writers, i);
    }
  }

  // ---------------------------------------------------------------- a pool thread

  const POOL: seq<Action> := [
    WriteRequest(0), WriteAcquire(0), AcquireBumps(0), AcquireSetsFlag(0), Capture(0), Spawn(0, 1, None),
    Join(0, 1, Some(1)), Rerun(1, Some(1)), ReadCheck(1), EvalDone(1), Report(1), JoinDone(0),
    Rerun(1, None), Rerun(1, Some(1)), ReadCheck(1), EvalDone(1), Report(1),
    Join(0, 1, None), Finish(1), JoinDone(0)]

  /** The one worker serves the first hold. */
  function PoolTeams(): Teams {
    (h: nat) => if h == 1 then {1} else {}
  }

  /**
    The discipline admits pool threads: a worker spawned without a token takes
    up the test's token twice, with none in between; the test waits for the
    completion of the first task, and at last joins the worker.
   */
  lemma PoolRunIsDisciplined() returns (states: seq<Gate>)
    ensures DisciplinedRun(states, POOL, {0}, PoolTeams())
    ensures |states[12].threads| == 2 && states[12].threads[0].pc.Running? && !states[12].threads[1].pc.Finished?
    ensures |states[20].threads| == 2 && states[20].threads[0].pc.Running? && states[20].threads[1].pc.Finished?
  {
    states := seq(21, (i: nat) => PoolState(i));
    forall i | 0 <= i < |POOL| ensures StepAt(states, POOL, i) && DisciplinedAt(states, POOL, {0}, PoolTeams(), i) {
      if i < 3 {
        AcquireSteps(i);
      } else if i < 5 {
        CaptureSteps(i);
      } else if i < 7 {
        SubmitSteps(i);
      } else if i < 9 {
        FirstTaskBegins(i);
      } else if i < 12 {
        FirstTaskEnds(i);
      } else if i < 15 {
        SecondTaskBegins(i);
      } else if i < 17 {
        SecondTaskEnds(i);
      } else {
        JoinSteps(i);
      }
    }
  }

  /** The test before the worker's tasks. */
  ghost function PoolStart(i: nat): Gate {
    var idle := NEWBORN.(pc := Running);
    var pc := if i == 1 then WriteWait else if i == 2 then AcquireBump else if i == 3 then AcquireFlag else Running;
    Gate(if i >= 2 then Some(0) else None, if i >= 3 then 1 else 0, if i >= 5 then {Some(1)} else {},
         [idle.(pc := pc, owns := i >= 4), if i >= 6 then idle else NEWBORN])
  }

  /** The test, and the worker with its token, its open evaluation and the completions it has sent. */
  ghost function PoolGate(test: Pc, worker: Pc, inherited: Token, open: bool, reported: nat): Gate {
    Gate(Some(0), 1, {Some(1)},
         [NEWBORN.(pc := test, owns := true),
          NEWBORN.(pc := worker, inherited := inherited, reported := reported,
                   frames := if open then [Eval(ByToken(1))] else [])])
  }

  ghost function PoolState(i: nat): Gate {
    if i <= 6 then PoolStart(i)
    else if i <= 11 then
      PoolGate(Joining(1, Some(1)), Running, if i == 7 then None else Some(1), i == 9, if i == 11 then 1 else 0)
    else if i <= 17 then
      PoolGate(Running, Running, if i == 13 then None else Some(1), i == 15, if i == 17 then 2 else 1)
    else
      PoolGate(if i == 20 then Running else Joining(1, None), if i == 18 then Running else Finished, Some(1), false, 2)
  }

  ghost predicate PoolStep(g: Gate, a: Action, g': Gate) {
    && Enabled(g, a) && Apply(g, a) == g' && Disciplined(g, a, {0}, PoolTeams())
    && (a.AcquireBumps? ==> AtRest(g, PoolTeams()(g.generation + 1)))
  }

  lemma AcquireSteps(i: nat)
    requires i < 3
    ensures PoolStep(PoolState(i), POOL[i], PoolState(i + 1))
  {
  }

  lemma CaptureSteps(i: nat)
    requires 3 <= i < 5
    ensures PoolStep(PoolState(i), POOL[i], PoolState(i + 1))
  {
  }

  lemma SubmitSteps(i: nat)
    requires 5 <= i < 7
    ensures PoolStep(PoolState(i), POOL[i], PoolState(i + 1))
  {
  }

  lemma FirstTaskBegins(i: nat)
    requires 7 <= i < 9
    ensures PoolStep(PoolState(i), POOL[i], PoolState(i + 1))
  {
    assert NEWBORN.frames + [Eval(ByToken(1))] == [Eval(ByToken(1))];
  }

  lemma FirstTaskEnds(i: nat)
    requires 9 <= i < 12
    ensures PoolStep(PoolState(i), POOL[i], PoolState(i + 1))
  {
  }

  lemma SecondTaskBegins(i: nat)
    requires 12 <= i < 15
    ensures PoolStep(PoolState(i), POOL[i], PoolState(i + 1))
  {
    assert NEWBORN.frames + [Eval(ByToken(1))] == [Eval(ByToken(1))];
  }

  lemma SecondTaskEnds(i: nat)
    requires 15 <= i < 17
    ensures PoolStep(PoolState(i), POOL[i], PoolState(i + 1))
  {
  }

  lemma JoinSteps(i: nat)
    requires 17 <= i < 20
    ensures PoolStep(PoolState(i), POOL[i], PoolState(i + 1))
  {
  }
}
