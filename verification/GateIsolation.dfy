/** What the failpoint gate keeps apart, over every interleaving. */
module GateIsolation {
  import opened Basics
  import opened FailpointGate

  /** Some thread or some captured `WorkerGate` carries a token of hold `hold`. */
  ghost predicate Carries(g: Gate, hold: nat) {
    Some(hold) in g.captured ||
    exists t :: 0 <= t < |g.threads| && g.threads[t].inherited == Some(hold)
  }

  /** Step `j` is the holder itself calling `worker_gate` during hold `hold`. */
  ghost predicate HolderCaptures(states: seq<Gate>, actions: seq<Action>, j: nat, hold: nat)
    requires |states| == |actions| + 1 && j < |actions|
  {
    && actions[j].Capture?
    && states[j].writer == Some(actions[j].t)
    && states[j].generation == hold
  }

  lemma {:induction false} GenerationGrows(states: seq<Gate>, actions: seq<Action>, j: nat, k: nat)
    requires IsRun(states, actions) && j <= k < |states|
    ensures states[j].generation <= states[k].generation
    decreases k
  {
    if j < k {
      GenerationGrows(states, actions, j, k - 1);
      assert StepAt(states, actions, k - 1);
    }
  }

  /** Nobody inherits a token that was not in circulation. */
  lemma NotInherited(g: Gate, a: Action, hold: nat, t: nat)
    requires Enabled(g, a) && !Carries(g, hold) && t < |g.threads|
    ensures Apply(g, a).threads[t].inherited != Some(hold)
  {
  }

  /** A token comes into circulation only by the holder's own capture. */
  lemma NewToken(g: Gate, a: Action, hold: nat)
    requires Inv(g) && Enabled(g, a) && !Carries(g, hold) && Carries(Apply(g, a), hold)
    ensures a.Capture? && g.writer == Some(a.t) && g.generation == hold
  {
    forall t | 0 <= t < |g.threads| ensures Apply(g, a).threads[t].inherited != Some(hold) {
      NotInherited(g, a, hold, t);
    }
    assert Some(hold) in Apply(g, a).captured;
    assert a.Capture? && WorkerGate(g.threads[a.t], g.generation) == Some(hold);
    assert ThreadOk(g.threads[a.t], g.writer == Some(a.t), g.writer.Some?, g.generation);
  }

  /** Every token in circulation goes back to a capture by the holder of that very hold. */
  lemma {:induction false} TokenProvenance(states: seq<Gate>, actions: seq<Action>, k: nat, hold: nat) returns (j: nat)
    requires IsRun(states, actions) && k < |states|
    requires Carries(states[k], hold)
    ensures j < k && HolderCaptures(states, actions, j, hold)
  {
    assert k > 0;
    assert StepAt(states, actions, k - 1);
    if Carries(states[k - 1], hold) {
      j := TokenProvenance(states, actions, k - 1, hold);
    } else {
      RunKeepsInv(states, actions, k - 1);
      NewToken(states[k - 1], actions[k - 1], hold);
      j := k - 1;
    }
  }

  /** While the generation stays at one odd value, one thread holds the write side throughout. */
  lemma {:induction false} HoldIsContinuous(states: seq<Gate>, actions: seq<Action>, j: nat, i: nat, k: nat)
    requires IsRun(states, actions) && j <= i <= k < |states|
    requires states[j].generation == states[k].generation && states[k].generation % 2 == 1
    ensures states[i].generation == states[k].generation
    ensures states[i].writer.Some? && states[i].writer == states[j].writer
    decreases i
  {
    GenerationGrows(states, actions, j, i);
    GenerationGrows(states, actions, i, k);
    RunKeepsInv(states, actions, i);
    if j < i {
      HoldIsContinuous(states, actions, j, i - 1, k);
      assert StepAt(states, actions, i - 1);
      RunKeepsInv(states, actions, i - 1);
      var g, a := states[i - 1], actions[i - 1];
      assert ThreadOk(g.threads[a.t], g.writer == Some(a.t), g.writer.Some?, g.generation);
    }
  }

  /** Parity, depth and lock facts that hold in every reachable state. */
  lemma ReachableStateShape(states: seq<Gate>, actions: seq<Action>, k: nat, t: nat)
    requires IsRun(states, actions) && k < |states| && t < |states[k].threads|
    ensures states[k].generation % 2 == 1 ==> states[k].writer.Some?
    ensures states[k].writer.Some? ==> NoReader(states[k])
    ensures states[k].threads[t].depth <= 1
    ensures states[k].threads[t].depth > 0 ==> states[k].threads[t].readLocks > 0
  {
    var g := states[k];
    RunKeepsInv(states, actions, k);
    forall u | 0 <= u < |g.threads| && g.writer.Some? ensures g.threads[u].readLocks == 0 {
      assert ThreadOk(g.threads[u], g.writer == Some(u), true, g.generation);
    }
    var th := g.threads[t];
    assert ThreadOk(th, g.writer == Some(t), g.writer.Some?, g.generation);
    PrefixScopesHoldLocks(th.frames, |th.frames|);
    assert th.frames[..|th.frames|] == th.frames;
  }

  lemma HeldMeansNoScope(g: Gate, t: nat)
    requires Inv(g) && g.writer.Some? && t < |g.threads|
    ensures g.threads[t].depth == 0
  {
    var th := g.threads[t];
    assert ThreadOk(th, g.writer == Some(t), true, g.generation);
    PrefixScopesHoldLocks(th.frames, |th.frames|);
    assert th.frames[..|th.frames|] == th.frames;
  }

  /** The step lets a thread into a failpoint evaluation or a read scope, past the gate or through it. */
  predicate Admits(g: Gate, a: Action) {
    && a.t < |g.threads|
    && (|| a.ReadAcquire? || a.ScopeAcquire?
        || ((a.ReadCheck? || a.ScopeCheck?) && SkipsGate(g.threads[a.t], g.generation)))
  }

  /**
    Isolation: whoever is let into a failpoint evaluation or a read scope while
    the write side is held is the holder, or carries a token that the holder
    captured in this same uninterrupted hold.
   */
  lemma HoldIsolation(states: seq<Gate>, actions: seq<Action>, k: nat, u: nat) returns (j: nat)
    requires IsRun(states, actions) && k < |actions|
    requires states[k].writer == Some(u) && Admits(states[k], actions[k]) && actions[k].t != u
    ensures actions[k].ReadCheck? || actions[k].ScopeCheck?
    ensures states[k].threads[actions[k].t].inherited == Some(states[k].generation)
    ensures j < k && HolderCaptures(states, actions, j, states[k].generation) && actions[j].t == u
    ensures forall i :: j <= i <= k ==> states[i].writer == Some(u) && states[i].generation == states[k].generation
  {
    var g, t := states[k], actions[k].t;
    assert StepAt(states, actions, k);
    RunKeepsInv(states, actions, k);
    assert ThreadOk(g.threads[t], false, true, g.generation);
    HeldMeansNoScope(g, t);
    assert Carries(g, g.generation);
    j := TokenProvenance(states, actions, k, g.generation);
    RunKeepsInv(states, actions, j);
    assert g.generation % 2 == 1;
    forall i | j <= i <= k
      ensures states[i].writer == states[j].writer && states[i].generation == g.generation
    {
      HoldIsContinuous(states, actions, j, i, k);
    }
  }

  /** Once a guard's drop has bumped the generation, no token already issued ever matches again. */
  lemma TokensLapse(states: seq<Gate>, actions: seq<Action>, j: nat, k: nat, hold: nat)
    requires IsRun(states, actions) && j < k < |states|
    requires actions[j].ReleaseBumps? && Carries(states[j], hold)
    ensures states[k].generation != hold
  {
    RunKeepsInv(states, actions, j);
    assert StepAt(states, actions, j);
    GenerationGrows(states, actions, j + 1, k);
    if Some(hold) !in states[j].captured {
      var t :| 0 <= t < |states[j].threads| && states[j].threads[t].inherited == Some(hold);
      assert ThreadOk(states[j].threads[t], states[j].writer == Some(t), states[j].writer.Some?, states[j].generation);
    }
  }

  // ---------------------------------------------------------------- evaluations still open

  /** An evaluation that is under way on another thread while the gate is held was let in by a token. */
  lemma OpenEvaluation(states: seq<Gate>, actions: seq<Action>, k: nat, u: nat, t: nat, p: Pass)
    requires IsRun(states, actions) && k < |states|
    requires states[k].writer == Some(u) && t != u && t < |states[k].threads|
    requires Eval(p) in states[k].threads[t].frames
    ensures p.ByToken? && p.hold <= states[k].generation
  {
    var g := states[k];
    RunKeepsInv(states, actions, k);
    var frames := g.threads[t].frames;
    assert ThreadOk(g.threads[t], false, true, g.generation);
    var i :| 0 <= i < |frames| && frames[i] == Eval(p);
    assert FrameOk(frames, i, false, g.generation);
    PrefixScopesHoldLocks(frames, i);
    if p.ByLock? { LockFramePositive(frames, i); }
  }

  lemma {:induction false} LockFramePositive(frames: seq<Frame>, i: nat)
    requires i < |frames| && frames[i] == Eval(ByLock)
    ensures LockFrames(frames) > 0
  {
    if i < |frames| - 1 { LockFramePositive(Pop(frames), i); }
  }

  ghost predicate NoTokenEvaluation(g: Gate) {
    forall t, h :: 0 <= t < |g.threads| ==> Eval(ByToken(h)) !in g.threads[t].frames
  }

  /** Every evaluation let in by a token belongs to the hold that is current now. */
  ghost predicate Fresh(g: Gate) {
    forall t, h :: 0 <= t < |g.threads| && Eval(ByToken(h)) in g.threads[t].frames ==> h == g.generation
  }

  /** A step opens a token evaluation only under the current generation. */
  lemma OpenedByStep(g: Gate, a: Action, t: nat, h: nat)
    requires Enabled(g, a) && t < |g.threads| && Eval(ByToken(h)) in Apply(g, a).threads[t].frames
    ensures Eval(ByToken(h)) in g.threads[t].frames || (h == g.generation && NextGeneration(g, a) == h)
  {
  }

  /** An open one stays under the current generation, since the generation is even when a hold begins. */
  lemma StaysFresh(g: Gate, a: Action, t: nat, h: nat)
    requires Inv(g) && Enabled(g, a) && Fresh(g) && (a.ReleaseBumps? ==> NoTokenEvaluation(g))
    requires t < |g.threads| && Eval(ByToken(h)) in g.threads[t].frames
    ensures h == NextGeneration(g, a)
  {
    var frames := g.threads[t].frames;
    assert ThreadOk(g.threads[t], g.writer == Some(t), g.writer.Some?, g.generation);
    assert ThreadOk(g.threads[a.t], g.writer == Some(a.t), g.writer.Some?, g.generation);
    var i :| 0 <= i < |frames| && frames[i] == Eval(ByToken(h));
    assert FrameOk(frames, i, g.writer == Some(t), g.generation);
  }

  lemma StepFresh(g: Gate, a: Action)
    requires Inv(g) && Enabled(g, a) && Fresh(g)
    requires a.ReleaseBumps? ==> NoTokenEvaluation(g)
    ensures Fresh(Apply(g, a))
  {
    var g' := Apply(g, a);
    forall t, h | 0 <= t < |g'.threads| && Eval(ByToken(h)) in g'.threads[t].frames
      ensures h == g'.generation
    {
      OpenedByStep(g, a, t, h);
      if Eval(ByToken(h)) in g.threads[t].frames { StaysFresh(g, a, t, h); }
    }
  }

  lemma {:induction false} RunFresh(states: seq<Gate>, actions: seq<Action>, k: nat)
    requires IsRun(states, actions) && k < |states|
    requires forall i :: 0 <= i < |actions| && actions[i].ReleaseBumps? ==> NoTokenEvaluation(states[i])
    ensures Fresh(states[k])
  {
    if k > 0 {
      RunFresh(states, actions, k - 1);
      assert StepAt(states, actions, k - 1);
      RunKeepsInv(states, actions, k - 1);
      StepFresh(states[k - 1], actions[k - 1]);
    }
  }

  /**
    Evaluations never outlive the hold that admitted them exactly when every
    guard is dropped with no token evaluation open.
   */
  lemma FreshExactlyWhenIdle(states: seq<Gate>, actions: seq<Action>)
    requires IsRun(states, actions)
    ensures (forall k :: 0 <= k < |states| ==> Fresh(states[k])) <==>
            (forall i :: 0 <= i < |actions| && actions[i].ReleaseBumps? ==> NoTokenEvaluation(states[i]))
  {
    if forall i :: 0 <= i < |actions| && actions[i].ReleaseBumps? ==> NoTokenEvaluation(states[i]) {
      forall k | 0 <= k < |states| ensures Fresh(states[k]) { RunFresh(states, actions, k); }
    }
    if forall k :: 0 <= k < |states| ==> Fresh(states[k]) {
      forall i | 0 <= i < |actions| && actions[i].ReleaseBumps?
        ensures NoTokenEvaluation(states[i])
      {
        DropIsFreshOnlyWhenIdle(states, actions, i);
      }
    }
  }

  lemma DropIsFreshOnlyWhenIdle(states: seq<Gate>, actions: seq<Action>, i: nat)
    requires IsRun(states, actions) && i < |actions| && actions[i].ReleaseBumps?
    requires Fresh(states[i]) && Fresh(states[i + 1])
    ensures NoTokenEvaluation(states[i])
  {
    assert StepAt(states, actions, i);
    var g := states[i];
    forall t, h | 0 <= t < |g.threads|
      ensures Eval(ByToken(h)) !in g.threads[t].frames
    {
      assert states[i + 1].threads[t].frames == g.threads[t].frames;
    }
  }

  // ---------------------------------------------------------------- joined workers

  /** A thread's open token evaluations are under the token it carries now. */
  ghost predicate TokenFrames(th: Thread) {
    forall h: nat :: Eval(ByToken(h)) in th.frames ==> th.inherited == Some(h)
  }

  lemma ActorKeepsTokenFrames(th: Thread, a: Action, generation: nat)
    requires Ready(th, a) && TokenFrames(th)
    ensures TokenFrames(NextThread(th, a, generation))
  {
  }

  lemma StepKeepsTokenFrames(g: Gate, a: Action, t: nat)
    requires Enabled(g, a) && t < |g.threads| && TokenFrames(g.threads[t]) && TokenFrames(g.threads[a.t])
    ensures TokenFrames(Apply(g, a).threads[t])
  {
    ActorKeepsTokenFrames(g.threads[a.t], a, g.generation);
  }

  lemma {:induction false} RunKeepsTokenFrames(states: seq<Gate>, actions: seq<Action>, k: nat, t: nat)
    requires IsRun(states, actions) && k < |states| && t < |states[k].threads|
    ensures TokenFrames(states[k].threads[t])
  {
    if k > 0 {
      assert StepAt(states, actions, k - 1);
      RunKeepsTokenFrames(states, actions, k - 1, t);
      RunKeepsTokenFrames(states, actions, k - 1, actions[k - 1].t);
      StepKeepsTokenFrames(states[k - 1], actions[k - 1], t);
    }
  }

  lemma {:induction false} FinishedStays(states: seq<Gate>, actions: seq<Action>, j: nat, k: nat, w: nat)
    requires IsRun(states, actions) && j <= k < |states|
    requires w < |states[j].threads| && states[j].threads[w].pc.Finished?
    ensures w < |states[k].threads| && states[k].threads[w].pc.Finished?
    decreases k
  {
    if j < k {
      FinishedStays(states, actions, j, k - 1, w);
      assert StepAt(states, actions, k - 1);
    }
  }

  /** Some thread's join of `w` came back before step `i`. */
  ghost predicate Joined(states: seq<Gate>, actions: seq<Action>, i: nat, w: nat)
    requires |states| == |actions| + 1 && i < |actions|
  {
    exists j: nat :: j < i && JoinReturns(states, actions, j, w)
  }

  ghost predicate JoinReturns(states: seq<Gate>, actions: seq<Action>, j: nat, w: nat)
    requires |states| == |actions| + 1 && j < |actions|
  {
    && actions[j].JoinDone? && actions[j].t < |states[j].threads|
    && states[j].threads[actions[j].t].pc == Joining(w, None)
  }

  predicate CarriesLive(g: Gate, w: nat)
    requires w < |g.threads|
  {
    g.threads[w].inherited == Some(g.generation)
  }

  /** At step `i` every other thread that carries the hold's token has been joined. */
  ghost predicate WorkersJoined(states: seq<Gate>, actions: seq<Action>, i: nat)
    requires |states| == |actions| + 1 && i < |actions|
  {
    forall w: nat :: w < |states[i].threads| && CarriesLive(states[i], w) && w != actions[i].t ==>
      Joined(states, actions, i, w)
  }

  lemma JoinedIsFinished(states: seq<Gate>, actions: seq<Action>, i: nat, w: nat)
    requires IsRun(states, actions) && i < |actions| && Joined(states, actions, i, w)
    ensures w < |states[i].threads| && states[i].threads[w].pc.Finished?
  {
    var j: nat :| j < i && JoinReturns(states, actions, j, w);
    assert StepAt(states, actions, j);
    FinishedStays(states, actions, j, i, w);
  }

  lemma JoinedDropIsIdle(states: seq<Gate>, actions: seq<Action>, i: nat)
    requires IsRun(states, actions) && i < |actions| && actions[i].ReleaseBumps?
    requires Fresh(states[i]) && WorkersJoined(states, actions, i)
    ensures NoTokenEvaluation(states[i])
  {
    var g := states[i];
    assert StepAt(states, actions, i);
    RunKeepsInv(states, actions, i);
    forall t, h | 0 <= t < |g.threads| ensures Eval(ByToken(h)) !in g.threads[t].frames {
      RunKeepsTokenFrames(states, actions, i, t);
      assert ThreadOk(g.threads[t], g.writer == Some(t), g.writer.Some?, g.generation);
      if t != actions[i].t && CarriesLive(g, t) { JoinedIsFinished(states, actions, i, t); }
    }
  }

  lemma {:induction false} RunFreshWhenJoined(states: seq<Gate>, actions: seq<Action>, k: nat)
    requires IsRun(states, actions) && k < |states|
    requires forall i :: 0 <= i < |actions| && actions[i].ReleaseBumps? ==> WorkersJoined(states, actions, i)
    ensures Fresh(states[k])
  {
    if k > 0 {
      RunFreshWhenJoined(states, actions, k - 1);
      assert StepAt(states, actions, k - 1);
      RunKeepsInv(states, actions, k - 1);
      if actions[k - 1].ReleaseBumps? { JoinedDropIsIdle(states, actions, k - 1); }
      StepFresh(states[k - 1], actions[k - 1]);
    }
  }

  /**
    The caller's side of it: if every guard is dropped only after every other
    thread carrying the hold's token has been joined, no evaluation outlives its
    hold in any state of the run.
   */
  lemma FreshWhenWorkersJoined(states: seq<Gate>, actions: seq<Action>)
    requires IsRun(states, actions)
    requires forall i :: 0 <= i < |actions| && actions[i].ReleaseBumps? ==> WorkersJoined(states, actions, i)
    ensures forall k :: 0 <= k < |states| ==> Fresh(states[k])
  {
    forall k | 0 <= k < |states| ensures Fresh(states[k]) { RunFreshWhenJoined(states, actions, k); }
  }

  const OVERLAP: seq<Action> := [
    WriteRequest(0), WriteAcquire(0), AcquireBumps(0), AcquireSetsFlag(0), Capture(0), Spawn(0, 1, Some(1)),
    ReadCheck(1), ReleaseBumps(0), ReleaseUnlocks(0), WriteRequest(2), WriteAcquire(2), AcquireBumps(2),
    AcquireSetsFlag(2)]

  /**
    Without that discipline isolation is lost: a worker let in during the first
    test's hold is still evaluating while a second test holds the gate.
   */
  lemma EvaluationCanOutliveItsHold() returns (states: seq<Gate>)
    ensures IsRun(states, OVERLAP)
    ensures states[13].writer == Some(2) && states[13].generation == 3
    ensures |states[13].threads| == 3 && Eval(ByToken(1)) in states[13].threads[1].frames
  {
    states := seq(14, (i: nat) => OverlapState(i));
    forall i | 0 <= i < |OVERLAP| ensures StepAt(states, OVERLAP, i) {
      if i < 6 { FirstTestStep(i); } else if i < 9 { FirstDropStep(i); } else { SecondTestStep(i); }
    }
  }

  ghost function OverlapState(i: nat): Gate {
    if i <= 6 then FirstTest(i) else if i <= 9 then FirstDrop(i) else SecondTest(i)
  }

  lemma FirstTestStep(i: nat)
    requires i < 6
    ensures Enabled(OverlapState(i), OVERLAP[i]) && Apply(OverlapState(i), OVERLAP[i]) == OverlapState(i + 1)
  {
  }

  lemma FirstDropStep(i: nat)
    requires 6 <= i < 9
    ensures Enabled(OverlapState(i), OVERLAP[i]) && Apply(OverlapState(i), OVERLAP[i]) == OverlapState(i + 1)
  {
    assert NEWBORN.frames + [Eval(ByToken(1))] == [Eval(ByToken(1))];
  }

  lemma SecondTestStep(i: nat)
    requires 9 <= i < 13
    ensures Enabled(OverlapState(i), OVERLAP[i]) && Apply(OverlapState(i), OVERLAP[i]) == OverlapState(i + 1)
  {
  }

  ghost function FirstTest(i: nat): Gate {
    var idle := NEWBORN.(pc := Running);
    var pc := if i == 1 then WriteWait else if i == 2 then AcquireBump else if i == 3 then AcquireFlag else Running;
    Gate(if i >= 2 then Some(0) else None, if i >= 3 then 1 else 0, if i >= 5 then {Some(1)} else {},
         [idle.(pc := pc, owns := i >= 4), if i >= 6 then idle.(inherited := Some(1)) else NEWBORN, idle])
  }

  ghost function FirstDrop(i: nat): Gate {
    var idle := NEWBORN.(pc := Running);
    var pc := if i == 8 then ReleaseUnlock else if i == 9 then ReleaseFlag else Running;
    Gate(if i >= 9 then None else Some(0), if i >= 8 then 2 else 1, {Some(1)},
         [idle.(pc := pc, owns := true), idle.(inherited := Some(1), frames := [Eval(ByToken(1))]), idle])
  }

  ghost function SecondTest(i: nat): Gate {
    var idle := NEWBORN.(pc := Running);
    var pc := if i == 10 then WriteWait else if i == 11 then AcquireBump else if i == 12 then AcquireFlag else Running;
    Gate(if i >= 11 then Some(2) else None, if i >= 12 then 3 else 2, {Some(1)},
         [idle.(pc := ReleaseFlag, owns := true), idle.(inherited := Some(1), frames := [Eval(ByToken(1))]),
          idle.(pc := pc, owns := i >= 13)])
  }
}
