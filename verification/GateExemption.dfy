/** Who passes the failpoint gate without waiting, and how that exemption is handed on from worker to worker. */
module GateExemption {
  import opened Basics
  import opened FailpointGate
  import opened GateIsolation

  // ---------------------------------------------------------------- who passes

  lemma {:induction false} ScopeFrameCounts(frames: seq<Frame>)
    ensures ScopeFrames(frames) > 0 <==> Scope(true) in frames
  {
    if frames != [] {
      ScopeFrameCounts(Pop(frames));
      assert frames == Pop(frames) + [frames[|frames| - 1]];
    }
  }

  /** The thread holds the write side, is inside a read scope of its own, or carries the token of the current hold. */
  predicate Exempt(g: Gate, t: nat)
    requires t < |g.threads|
  {
    || g.writer == Some(t)
    || Scope(true) in g.threads[t].frames
    || (g.threads[t].inherited.Some? && g.threads[t].inherited.value == g.generation)
  }

  lemma ExemptSkips(g: Gate, t: nat)
    requires Inv(g) && t < |g.threads| && g.threads[t].pc.Running?
    ensures SkipsGate(g.threads[t], g.generation) <==> Exempt(g, t)
  {
    assert ThreadOk(g.threads[t], g.writer == Some(t), g.writer.Some?, g.generation);
    ScopeFrameCounts(g.threads[t].frames);
  }

  /**
    In every reachable state a thread that checks the gate goes on without
    touching the lock exactly when it is exempt; otherwise it waits.
   */
  lemma PassesExactlyWhenExempt(states: seq<Gate>, actions: seq<Action>, k: nat, t: nat)
    requires IsRun(states, actions) && k < |states|
    requires t < |states[k].threads| && states[k].threads[t].pc.Running?
    ensures
      var th, th' := states[k].threads[t], Apply(states[k], ReadCheck(t)).threads[t];
      if Exempt(states[k], t)
      then exists p: Pass :: !p.ByLock? && th' == th.(frames := th.frames + [Eval(p)])
      else th' == th.(pc := ReadWait)
    ensures
      var th, th' := states[k].threads[t], Apply(states[k], ScopeCheck(t)).threads[t];
      th' == if Exempt(states[k], t) then th.(frames := th.frames + [Scope(false)]) else th.(pc := ScopeWait)
  {
    RunKeepsInv(states, actions, k);
    ExemptSkips(states[k], t);
    var th, p := states[k].threads[t], PassOf(states[k].threads[t], states[k].generation);
    if Exempt(states[k], t) {
      assert !p.ByLock? && Apply(states[k], ReadCheck(t)).threads[t] == th.(frames := th.frames + [Eval(p)]);
    }
  }

  // ---------------------------------------------------------------- handing the exemption on

  /** A worker spawned under what a thread captures skips the gate exactly when that thread does by itself. */
  lemma CaptureHandsOn(th: Thread, generation: nat)
    requires th.depth == 0
    ensures SkipsGate(NEWBORN.(pc := Running, inherited := WorkerGate(th, generation)), generation) <==>
            SkipsGate(th, generation)
  {
  }

  /** Thread `to` adopts, at step `adopt`, what thread `from` captured at step `capture`. */
  datatype Link = Link(capture: nat, adopt: nat, from: nat, to: nat)

  predicate Adopts(a: Action, w: nat, token: Token) {
    (a.Spawn? && a.w == w && a.token == token) || (a.Rerun? && a.t == w && a.token == token)
  }

  ghost predicate Handed(states: seq<Gate>, actions: seq<Action>, l: Link)
    requires |states| == |actions| + 1
  {
    && l.capture < l.adopt < |actions|
    && actions[l.capture] == Capture(l.from) && l.from < |states[l.capture].threads|
    && Adopts(actions[l.adopt], l.to, WorkerGate(states[l.capture].threads[l.from], states[l.capture].generation))
  }

  /** Thread `w` takes up no other token at the steps `from..to`. */
  ghost predicate Keeps(actions: seq<Action>, w: nat, from: nat, to: nat) {
    forall i :: from <= i < to && i < |actions| ==> !(actions[i].Rerun? && actions[i].t == w)
  }

  /** Each link's capture is made by the thread to which the link before handed its token, while it keeps it. */
  ghost predicate Chain(states: seq<Gate>, actions: seq<Action>, links: seq<Link>)
    requires |states| == |actions| + 1
  {
    && links != []
    && (forall i :: 0 <= i < |links| ==> Handed(states, actions, links[i]))
    && states[links[0].capture].writer == Some(links[0].from)
    && forall i :: 0 < i < |links| ==> Follows(actions, links[i - 1], links[i])
  }

  ghost predicate Follows(actions: seq<Action>, l: Link, next: Link) {
    next.from == l.to && l.adopt < next.capture && Keeps(actions, l.to, l.adopt + 1, next.capture)
  }

  lemma {:induction false} TokenIsKept(states: seq<Gate>, actions: seq<Action>, w: nat, j: nat, k: nat)
    requires IsRun(states, actions) && j <= k < |states| && Keeps(actions, w, j, k)
    requires w < |states[j].threads| && !states[j].threads[w].pc.Unborn?
    ensures w < |states[k].threads| && !states[k].threads[w].pc.Unborn?
    ensures states[k].threads[w].inherited == states[j].threads[w].inherited
    decreases k
  {
    if j < k {
      TokenIsKept(states, actions, w, j, k - 1);
      assert StepAt(states, actions, k - 1);
      assert !(actions[k - 1].Rerun? && actions[k - 1].t == w);
    }
  }

  lemma AdoptedToken(states: seq<Gate>, actions: seq<Action>, l: Link, k: nat)
    requires IsRun(states, actions) && Handed(states, actions, l)
    requires l.adopt < k < |states| && Keeps(actions, l.to, l.adopt + 1, k)
    ensures l.to < |states[k].threads|
    ensures states[k].threads[l.to].inherited ==
            WorkerGate(states[l.capture].threads[l.from], states[l.capture].generation)
  {
    assert StepAt(states, actions, l.adopt);
    TokenIsKept(states, actions, l.to, l.adopt + 1, k);
  }

  /** Along a chain that starts at the holder, every capture made while the hold lasts yields the hold's token. */
  lemma {:induction false} ChainCaptures(states: seq<Gate>, actions: seq<Action>, links: seq<Link>, i: nat, hold: nat)
    requires IsRun(states, actions) && Chain(states, actions, links) && i < |links|
    requires hold == states[links[0].capture].generation == states[links[i].capture].generation
    ensures WorkerGate(states[links[i].capture].threads[links[i].from], hold) == Some(hold)
  {
    var l := links[i];
    assert Handed(states, actions, l);
    assert StepAt(states, actions, l.capture);
    RunKeepsInv(states, actions, l.capture);
    var g := states[l.capture];
    assert ThreadOk(g.threads[l.from], g.writer == Some(l.from), g.writer.Some?, g.generation);
    if i > 0 {
      var before := links[i - 1];
      assert Handed(states, actions, before) && Follows(actions, before, l);
      ChainIsInOrder(states, actions, links, i - 1);
      GenerationGrows(states, actions, links[0].capture, before.capture);
      GenerationGrows(states, actions, before.capture, l.capture);
      ChainCaptures(states, actions, links, i - 1, hold);
      AdoptedToken(states, actions, before, l.capture);
    }
  }

  lemma {:induction false} ChainIsInOrder(states: seq<Gate>, actions: seq<Action>, links: seq<Link>, i: nat)
    requires |states| == |actions| + 1 && Chain(states, actions, links) && i < |links|
    ensures links[0].capture <= links[i].capture < |actions|
  {
    assert Handed(states, actions, links[i]);
    if i > 0 {
      ChainIsInOrder(states, actions, links, i - 1);
      assert Handed(states, actions, links[i - 1]) && Follows(actions, links[i - 1], links[i]);
    }
  }

  /**
    The exemption reaches every worker: at the end of any chain of captures that
    starts at the holder, the last worker carries the hold's token, and so never
    waits at the gate, in every state until that hold ends or it adopts another.
   */
  lemma ChainIsExempt(states: seq<Gate>, actions: seq<Action>, links: seq<Link>, k: nat)
    requires IsRun(states, actions) && Chain(states, actions, links) && k < |states|
    requires
      var last := links[|links| - 1];
      && last.adopt < k && Keeps(actions, last.to, last.adopt + 1, k)
      && states[k].generation == states[links[0].capture].generation
    ensures
      var w := links[|links| - 1].to;
      && w < |states[k].threads| && Exempt(states[k], w)
      && states[k].threads[w].inherited == Some(states[k].generation)
  {
    var n := |links| - 1;
    var last, hold := links[n], states[k].generation;
    assert Handed(states, actions, last);
    ChainIsInOrder(states, actions, links, n);
    GenerationGrows(states, actions, links[0].capture, last.capture);
    GenerationGrows(states, actions, last.capture, k);
    ChainCaptures(states, actions, links, n, hold);
    AdoptedToken(states, actions, last, k);
  }

  // ---------------------------------------------------------------- what a join waits for

  /** How many completions thread `w` has sent. */
  function Completions(actions: seq<Action>, w: nat): nat {
    if actions == [] then 0
    else Completions(actions[..|actions| - 1], w) + (if actions[|actions| - 1] == Report(w) then 1 else 0)
  }

  lemma {:induction false} CompletionsAreCounted(states: seq<Gate>, actions: seq<Action>, k: nat, w: nat)
    requires IsRun(states, actions) && k < |states| && w < |states[k].threads|
    ensures states[k].threads[w].reported == Completions(actions[..k], w)
    ensures states[k].threads[w].pc.Unborn? ==> states[k].threads[w].reported == 0
  {
    if k > 0 {
      assert StepAt(states, actions, k - 1);
      CompletionsAreCounted(states, actions, k - 1, w);
      assert actions[..k][..k - 1] == actions[..k - 1];
    }
  }

  /**
    A join comes back only after the thread's end, or, when it is for the n-th
    task, after n completions were sent; it never comes back before.
   */
  lemma JoinComesBackInTime(states: seq<Gate>, actions: seq<Action>, k: nat, w: nat, task: Option<nat>)
    requires IsRun(states, actions) && k < |actions| && actions[k].JoinDone?
    requires actions[k].t < |states[k].threads| && states[k].threads[actions[k].t].pc == Joining(w, task)
    ensures w < |states[k].threads|
    ensures states[k].threads[w].pc.Finished? || (task.Some? && task.value <= Completions(actions[..k], w))
  {
    assert StepAt(states, actions, k);
    CompletionsAreCounted(states, actions, k, w);
  }
}
