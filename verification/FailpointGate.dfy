/**
  The process-global failpoint gate as a step relation over threads.

  A failpoint test holds the write side of a reader/writer gate for its whole
  body; production code takes the read side around each failpoint evaluation,
  unless a thread-local flag or an inherited token lets it skip the gate.
  Every access to shared memory (lock, unlock, generation load, generation
  bump) is its own step, so a run is one interleaving of those accesses.
 */
module FailpointGate {
  import opened Basics

  /** A captured `WorkerGate`: the generation of the hold it came from, if any. */
  type Token = Option<nat>

  /** How a failpoint evaluation got past the gate. */
  datatype Pass = ByOwner | ByScope | ByToken(hold: nat) | ByLock

  /** What a thread has entered and not yet left, innermost last. */
  datatype Frame = Scope(locked: bool) | Eval(pass: Pass)

  datatype Pc =
    | Unborn
    | Running
    | ReadWait        // failed the skip check of `read_gate`, waiting for the read side
    | ScopeWait       // the same inside `with_read_gate`
    | ScopeEnter      // read side taken, depth not yet raised
    | ScopeRelease    // depth lowered, read side not yet released
    | WriteWait       // inside `test_failpoint_guard`, waiting for the write side
    | AcquireBump     // write side taken, generation not yet bumped
    | AcquireFlag     // generation bumped, owner flag not yet set
    | ReleaseUnlock   // guard drop has bumped, write side still held
    | ReleaseFlag     // write side released, owner flag still set
    | Joining(worker: nat, task: Option<nat>)  // waiting for a thread's end, or for a task's completion
    | Finished

  datatype Thread = Thread(
    pc: Pc,
    owns: bool,
    depth: nat,
    inherited: Token,
    readLocks: nat,
    frames: seq<Frame>,
    reported: nat)

  datatype Gate = Gate(
    writer: Option<nat>,
    generation: nat,
    captured: set<Token>,
    threads: seq<Thread>)

  datatype Action =
    | ReadCheck(t: nat)
    | ReadAcquire(t: nat)
    | EvalDone(t: nat)
    | ScopeCheck(t: nat)
    | ScopeAcquire(t: nat)
    | ScopeRaise(t: nat)
    | ScopeLower(t: nat)
    | ScopeUnlock(t: nat)
    | WriteRequest(t: nat)
    | WriteAcquire(t: nat)
    | AcquireBumps(t: nat)
    | AcquireSetsFlag(t: nat)
    | ReleaseBumps(t: nat)
    | ReleaseUnlocks(t: nat)
    | ReleaseClearsFlag(t: nat)
    | Capture(t: nat)
    | Spawn(t: nat, w: nat, token: Token)
    | Rerun(t: nat, token: Token)
    | Report(t: nat)
    | Join(t: nat, w: nat, task: Option<nat>)
    | JoinDone(t: nat)
    | Finish(t: nat)

  const MAX_DEPTH := 0xFFFF_FFFF

  const NEWBORN := Thread(Unborn, false, 0, None, 0, [], 0)

  predicate SkipsGate(th: Thread, generation: nat) {
    th.owns || th.depth > 0 || th.inherited == Some(generation)
  }

  function PassOf(th: Thread, generation: nat): Pass {
    if th.owns then ByOwner else if th.depth > 0 then ByScope else ByToken(generation)
  }

  function WorkerGate(th: Thread, generation: nat): Token {
    if th.owns then Some(generation) else th.inherited
  }

  function Top(frames: seq<Frame>): Option<Frame> {
    if frames == [] then None else Some(frames[|frames| - 1])
  }

  function Pop(frames: seq<Frame>): seq<Frame>
    requires frames != []
  {
    frames[..|frames| - 1]
  }

  predicate NoEval(frames: seq<Frame>) {
    forall f :: f in frames ==> !f.Eval?
  }

  /** A thread's end is over once it finished; its n-th task once n completions were sent, or none can come. */
  predicate Over(th: Thread, task: Option<nat>) {
    th.pc.Finished? || (task.Some? && task.value <= th.reported)
  }

  predicate NoReader(g: Gate) {
    forall u :: 0 <= u < |g.threads| ==> g.threads[u].readLocks == 0
  }

  predicate Usable(g: Gate, token: Token) {
    token == None || token in g.captured
  }

  /** What a step asks of the acting thread itself. */
  predicate Ready(th: Thread, a: Action) {
    match a
    case ReadCheck(_) | ScopeCheck(_) | WriteRequest(_) | Capture(_) | Spawn(_, _, _) | Join(_, _, _) =>
      th.pc.Running?
    case ReadAcquire(_) => th.pc.ReadWait?
    case EvalDone(_) => th.pc.Running? && Top(th.frames).Some? && Top(th.frames).value.Eval?
    case ScopeAcquire(_) => th.pc.ScopeWait?
    case ScopeRaise(_) => th.pc.ScopeEnter?
    case ScopeLower(_) => th.pc.Running? && Top(th.frames).Some? && Top(th.frames).value.Scope?
    case ScopeUnlock(_) => th.pc.ScopeRelease? && th.readLocks > 0
    case WriteAcquire(_) => th.pc.WriteWait?
    case AcquireBumps(_) => th.pc.AcquireBump?
    case AcquireSetsFlag(_) => th.pc.AcquireFlag?
    case ReleaseBumps(_) => th.pc.Running? && th.owns && NoEval(th.frames)
    case ReleaseUnlocks(_) => th.pc.ReleaseUnlock?
    case ReleaseClearsFlag(_) => th.pc.ReleaseFlag?
    case JoinDone(_) => th.pc.Joining?
    case Rerun(_, _) | Report(_) | Finish(_) => th.pc.Running? && th.frames == [] && !th.owns
  }

  /** What a step asks of everything shared: a reader waits for a holder only, never for a queued writer. */
  predicate Admitted(g: Gate, a: Action)
    requires a.t < |g.threads| && Ready(g.threads[a.t], a)
  {
    match a
    case ReadAcquire(_) | ScopeAcquire(_) => g.writer.None?
    case WriteAcquire(_) => g.writer.None? && NoReader(g)
    case Spawn(_, w, token) => w < |g.threads| && g.threads[w].pc.Unborn? && Usable(g, token)
    case Rerun(_, token) => Usable(g, token)
    case Join(t, w, _) => w < |g.threads| && w != t && !g.threads[w].pc.Unborn?
    case JoinDone(t) =>
      var pc := g.threads[t].pc;
      pc.worker < |g.threads| && Over(g.threads[pc.worker], pc.task)
    case _ => true
  }

  /** Whether this step can be taken now. */
  predicate Enabled(g: Gate, a: Action) {
    a.t < |g.threads| && Ready(g.threads[a.t], a) && Admitted(g, a)
  }

  /** The acting thread after its step. */
  function NextThread(th: Thread, a: Action, generation: nat): Thread
    requires Ready(th, a)
  {
    match a
    case ReadCheck(_) =>
      if SkipsGate(th, generation)
      then th.(frames := th.frames + [Eval(PassOf(th, generation))])
      else th.(pc := ReadWait)
    case ReadAcquire(_) => th.(pc := Running, readLocks := th.readLocks + 1, frames := th.frames + [Eval(ByLock)])
    case EvalDone(_) =>
      var locked := Top(th.frames).value.pass.ByLock? && th.readLocks > 0;
      th.(frames := Pop(th.frames), readLocks := if locked then th.readLocks - 1 else th.readLocks)
    case ScopeCheck(_) =>
      if SkipsGate(th, generation) then th.(frames := th.frames + [Scope(false)]) else th.(pc := ScopeWait)
    case ScopeAcquire(_) => th.(pc := ScopeEnter, readLocks := th.readLocks + 1)
    case ScopeRaise(_) =>
      th.(pc := Running, frames := th.frames + [Scope(true)],
          depth := if th.depth < MAX_DEPTH then th.depth + 1 else th.depth)
    case ScopeLower(_) =>
      if Top(th.frames).value.locked
      then th.(pc := ScopeRelease, frames := Pop(th.frames), depth := if th.depth > 0 then th.depth - 1 else 0)
      else th.(frames := Pop(th.frames))
    case ScopeUnlock(_) => th.(pc := Running, readLocks := th.readLocks - 1)
    case WriteRequest(_) => th.(pc := WriteWait)
    case WriteAcquire(_) => th.(pc := AcquireBump)
    case AcquireBumps(_) => th.(pc := AcquireFlag)
    case AcquireSetsFlag(_) => th.(pc := Running, owns := true)
    case ReleaseBumps(_) => th.(pc := ReleaseUnlock)
    case ReleaseUnlocks(_) => th.(pc := ReleaseFlag)
    case ReleaseClearsFlag(_) => th.(pc := Running, owns := false)
    case Rerun(_, token) => th.(inherited := token)
    case Report(_) => th.(reported := th.reported + 1)
    case Join(_, w, task) => th.(pc := Joining(w, task))
    case JoinDone(_) => th.(pc := Running)
    case Finish(_) => th.(pc := Finished)
    case Capture(_) | Spawn(_, _, _) => th
  }

  function NextWriter(g: Gate, a: Action): Option<nat> {
    match a
    case WriteAcquire(t) => Some(t)
    case ReleaseUnlocks(_) => None
    case _ => g.writer
  }

  function NextGeneration(g: Gate, a: Action): nat {
    if a.AcquireBumps? || a.ReleaseBumps? then g.generation + 1 else g.generation
  }

  /** The state after the step; a newborn worker starts by adopting its token. */
  function Apply(g: Gate, a: Action): Gate
    requires Enabled(g, a)
  {
    var th := g.threads[a.t];
    var threads := g.threads[a.t := NextThread(th, a, g.generation)];
    Gate(NextWriter(g, a), NextGeneration(g, a),
         if a.Capture? then g.captured + {WorkerGate(th, g.generation)} else g.captured,
         if a.Spawn? then threads[a.w := NEWBORN.(pc := Running, inherited := a.token)] else threads)
  }

  /** Any number of threads, some already running, nothing held. */
  ghost predicate Init(g: Gate) {
    && g.writer.None? && g.generation == 0 && g.captured == {}
    && forall t :: 0 <= t < |g.threads| ==> g.threads[t] == NEWBORN || g.threads[t] == NEWBORN.(pc := Running)
  }

  /** A finite run: `states[i]` becomes `states[i + 1]` by `actions[i]`. */
  ghost predicate IsRun(states: seq<Gate>, actions: seq<Action>) {
    && |states| == |actions| + 1
    && Init(states[0])
    && forall i :: 0 <= i < |actions| ==> StepAt(states, actions, i)
  }

  ghost predicate StepAt(states: seq<Gate>, actions: seq<Action>, i: nat)
    requires |states| == |actions| + 1 && i < |actions|
  {
    Enabled(states[i], actions[i]) && states[i + 1] == Apply(states[i], actions[i])
  }

  // ---------------------------------------------------------------- counting held read locks

  function LockFrames(frames: seq<Frame>): nat {
    if frames == [] then 0
    else LockFrames(Pop(frames)) +
         (if frames[|frames| - 1] == Scope(true) || frames[|frames| - 1] == Eval(ByLock) then 1 else 0)
  }

  function ScopeFrames(frames: seq<Frame>): nat {
    if frames == [] then 0
    else ScopeFrames(Pop(frames)) + (if frames[|frames| - 1] == Scope(true) then 1 else 0)
  }

  lemma PushFrame(frames: seq<Frame>, f: Frame)
    ensures LockFrames(frames + [f]) ==
            LockFrames(frames) + (if f == Scope(true) || f == Eval(ByLock) then 1 else 0)
    ensures ScopeFrames(frames + [f]) == ScopeFrames(frames) + (if f == Scope(true) then 1 else 0)
  {
    assert Pop(frames + [f]) == frames;
  }

  lemma {:induction false} PrefixScopesHoldLocks(frames: seq<Frame>, i: nat)
    requires i <= |frames|
    ensures ScopeFrames(frames[..i]) <= LockFrames(frames)
  {
    if frames == [] {
      assert frames[..i] == [];
    } else if i < |frames| {
      PrefixScopesHoldLocks(Pop(frames), i);
      assert Pop(frames)[..i] == frames[..i];
    } else {
      PrefixScopesHoldLocks(Pop(frames), i - 1);
      assert Pop(frames)[..i - 1] == Pop(frames[..i]);
      assert frames[..i] == frames;
    }
  }

  // ---------------------------------------------------------------- the protocol invariant

  predicate TokenOk(token: Token, generation: nat) {
    token.Some? ==> token.value % 2 == 1 && token.value <= generation
  }

  /** What the holder's position in acquire and drop says about flag and parity. */
  predicate HolderPhase(th: Thread, generation: nat) {
    match th.pc
    case AcquireBump => !th.owns && generation % 2 == 0
    case AcquireFlag => !th.owns && generation % 2 == 1
    case ReleaseUnlock => th.owns && generation % 2 == 0 && NoEval(th.frames)
    case Running | WriteWait | Joining(_, _) => th.owns && generation % 2 == 1
    case _ => false
  }

  ghost predicate FrameOk(frames: seq<Frame>, i: nat, holder: bool, generation: nat)
    requires i < |frames|
  {
    frames[i].Eval? ==>
      match frames[i].pass
      case ByOwner => holder
      case ByScope => ScopeFrames(frames[..i]) > 0
      case ByToken(hold) => hold % 2 == 1 && hold <= generation
      case ByLock => true
  }

  ghost predicate FramesOk(frames: seq<Frame>, holder: bool, generation: nat) {
    forall i :: 0 <= i < |frames| ==> FrameOk(frames, i, holder, generation)
  }

  ghost predicate ThreadOk(th: Thread, holder: bool, held: bool, generation: nat) {
    && (if holder then HolderPhase(th, generation)
        else !th.pc.AcquireBump? && !th.pc.AcquireFlag? && !th.pc.ReleaseUnlock? &&
             (th.owns <==> th.pc.ReleaseFlag?))
    && (held ==> th.readLocks == 0)
    && th.readLocks == LockFrames(th.frames) + (if th.pc.ScopeEnter? || th.pc.ScopeRelease? then 1 else 0)
    && th.depth == ScopeFrames(th.frames)
    && th.depth + (if th.pc.ScopeWait? || th.pc.ScopeEnter? || th.pc.ScopeRelease? then 1 else 0) <= 1
    && TokenOk(th.inherited, generation)
    && (th.pc.Unborn? || th.pc.Finished? ==> th.frames == [])
    && FramesOk(th.frames, holder, generation)
  }

  ghost predicate Inv(g: Gate) {
    && (g.writer.None? ==> g.generation % 2 == 0)
    && (g.writer.Some? ==> g.writer.value < |g.threads|)
    && (forall token :: token in g.captured ==> TokenOk(token, g.generation))
    && (forall t :: 0 <= t < |g.threads| ==>
          ThreadOk(g.threads[t], g.writer == Some(t), g.writer.Some?, g.generation))
  }

  lemma PushKeepsFrames(frames: seq<Frame>, f: Frame, holder: bool, generation: nat)
    requires FramesOk(frames, holder, generation)
    requires FrameOk([f], 0, holder, generation) || (f == Eval(ByScope) && ScopeFrames(frames) > 0)
    ensures FramesOk(frames + [f], holder, generation)
  {
    var more := frames + [f];
    forall i | 0 <= i < |more|
      ensures FrameOk(more, i, holder, generation)
    {
      assert more[..i] == frames[..i];
      if i < |frames| {
        assert FrameOk(frames, i, holder, generation);
      } else {
        assert more[..i] == frames;
        assert [f][..0] == [];
      }
    }
  }

  lemma PopKeepsFrames(frames: seq<Frame>, holder: bool, generation: nat)
    requires frames != [] && FramesOk(frames, holder, generation)
    ensures FramesOk(Pop(frames), holder, generation)
  {
    forall i | 0 <= i < |Pop(frames)|
      ensures FrameOk(Pop(frames), i, holder, generation)
    {
      assert FrameOk(frames, i, holder, generation);
      assert Pop(frames)[..i] == frames[..i];
    }
  }

  lemma LaterFramesOk(frames: seq<Frame>, holder: bool, generation: nat, holder': bool, generation': nat)
    requires FramesOk(frames, holder, generation) && generation <= generation'
    requires holder ==> holder' || NoEval(frames)
    ensures FramesOk(frames, holder', generation')
  {
    forall i | 0 <= i < |frames|
      ensures FrameOk(frames, i, holder', generation')
    {
      assert FrameOk(frames, i, holder, generation);
      assert frames[i] in frames;
    }
  }

  // One lemma per kind of step, about the acting thread alone.

  lemma ReadCheckOk(th: Thread, a: Action, holder: bool, held: bool, generation: nat)
    requires a.ReadCheck? && Ready(th, a) && ThreadOk(th, holder, held, generation) && (holder ==> held)
    ensures ThreadOk(NextThread(th, a, generation), holder, held, generation)
  {
    if SkipsGate(th, generation) {
      var f := Eval(PassOf(th, generation));
      PushFrame(th.frames, f);
      PushKeepsFrames(th.frames, f, holder, generation);
    }
  }

  lemma ReadAcquireOk(th: Thread, a: Action, generation: nat)
    requires a.ReadAcquire? && Ready(th, a) && ThreadOk(th, false, false, generation)
    ensures ThreadOk(NextThread(th, a, generation), false, false, generation)
  {
    PushFrame(th.frames, Eval(ByLock));
    PushKeepsFrames(th.frames, Eval(ByLock), false, generation);
  }

  lemma ScopeGrowsOk(th: Thread, a: Action, holder: bool, held: bool, generation: nat)
    requires a.ScopeCheck? || a.ScopeRaise?
    requires Ready(th, a) && ThreadOk(th, holder, held, generation)
    ensures ThreadOk(NextThread(th, a, generation), holder, held, generation)
  {
    var f := Scope(a.ScopeRaise?);
    PushFrame(th.frames, f);
    PushKeepsFrames(th.frames, f, holder, generation);
  }

  lemma PopOk(th: Thread, a: Action, holder: bool, held: bool, generation: nat)
    requires a.EvalDone? || a.ScopeLower?
    requires Ready(th, a) && ThreadOk(th, holder, held, generation) && (holder ==> held)
    ensures ThreadOk(NextThread(th, a, generation), holder, held, generation)
  {
    PopKeepsFrames(th.frames, holder, generation);
  }

  lemma ScopeLockOk(th: Thread, a: Action, holder: bool, held: bool, generation: nat)
    requires a.ScopeUnlock? || (a.ScopeAcquire? && !held)
    requires Ready(th, a) && ThreadOk(th, holder, held, generation)
    ensures ThreadOk(NextThread(th, a, generation), holder, held, generation)
  {
  }

  ghost predicate ActorOk(g: Gate, a: Action)
    requires Enabled(g, a)
  {
    ThreadOk(NextThread(g.threads[a.t], a, g.generation),
             NextWriter(g, a) == Some(a.t), NextWriter(g, a).Some?, NextGeneration(g, a))
  }

  lemma HolderStepOk(g: Gate, a: Action)
    requires Inv(g) && Enabled(g, a)
    requires a.WriteAcquire? || a.AcquireBumps? || a.AcquireSetsFlag?
             || a.ReleaseBumps? || a.ReleaseUnlocks? || a.ReleaseClearsFlag?
    ensures ActorOk(g, a)
  {
    var th := g.threads[a.t];
    assert ThreadOk(th, g.writer == Some(a.t), g.writer.Some?, g.generation);
    LaterFramesOk(th.frames, g.writer == Some(a.t), g.generation, NextWriter(g, a) == Some(a.t), NextGeneration(g, a));
  }

  predicate QuietStep(a: Action) {
    a.WriteRequest? || a.Capture? || a.Spawn? || a.Rerun? || a.Report? || a.Join? || a.JoinDone? || a.Finish?
  }

  lemma QuietThreadOk(th: Thread, a: Action, holder: bool, held: bool, generation: nat)
    requires QuietStep(a) && Ready(th, a) && ThreadOk(th, holder, held, generation)
    requires a.Rerun? ==> TokenOk(a.token, generation)
    ensures ThreadOk(NextThread(th, a, generation), holder, held, generation)
  {
  }

  lemma QuietStepOk(g: Gate, a: Action)
    requires Inv(g) && Enabled(g, a) && QuietStep(a)
    ensures ActorOk(g, a)
  {
    assert NextWriter(g, a) == g.writer && NextGeneration(g, a) == g.generation;
    assert ThreadOk(g.threads[a.t], g.writer == Some(a.t), g.writer.Some?, g.generation);
    QuietThreadOk(g.threads[a.t], a, g.writer == Some(a.t), g.writer.Some?, g.generation);
  }

  predicate ReaderStep(a: Action) {
    a.ReadCheck? || a.ReadAcquire? || a.EvalDone? || a.ScopeCheck? || a.ScopeAcquire?
    || a.ScopeRaise? || a.ScopeLower? || a.ScopeUnlock?
  }

  lemma ReaderThreadOk(th: Thread, a: Action, holder: bool, held: bool, generation: nat)
    requires ReaderStep(a) && Ready(th, a) && ThreadOk(th, holder, held, generation) && (holder ==> held)
    requires a.ReadAcquire? || a.ScopeAcquire? ==> !held
    ensures ThreadOk(NextThread(th, a, generation), holder, held, generation)
  {
    if a.ReadCheck? {
      ReadCheckOk(th, a, holder, held, generation);
    } else if a.ReadAcquire? {
      ReadAcquireOk(th, a, generation);
    } else if a.ScopeCheck? || a.ScopeRaise? {
      ScopeGrowsOk(th, a, holder, held, generation);
    } else if a.EvalDone? || a.ScopeLower? {
      PopOk(th, a, holder, held, generation);
    } else {
      ScopeLockOk(th, a, holder, held, generation);
    }
  }

  lemma ReaderStepOk(g: Gate, a: Action)
    requires Inv(g) && Enabled(g, a) && ReaderStep(a)
    ensures ActorOk(g, a)
  {
    var th, holder, held := g.threads[a.t], g.writer == Some(a.t), g.writer.Some?;
    assert NextWriter(g, a) == g.writer && NextGeneration(g, a) == g.generation;
    assert ThreadOk(th, holder, held, g.generation);
    ReaderThreadOk(th, a, holder, held, g.generation);
  }

  lemma StepKeepsActor(g: Gate, a: Action)
    requires Inv(g) && Enabled(g, a)
    ensures ActorOk(g, a)
  {
    if ReaderStep(a) {
      ReaderStepOk(g, a);
    } else if a.WriteAcquire? || a.AcquireBumps? || a.AcquireSetsFlag?
              || a.ReleaseBumps? || a.ReleaseUnlocks? || a.ReleaseClearsFlag? {
      HolderStepOk(g, a);
    } else {
      QuietStepOk(g, a);
    }
  }

  lemma StepKeepsOthers(g: Gate, a: Action, t: nat)
    requires Inv(g) && Enabled(g, a)
    requires t < |g.threads| && t != a.t
    ensures
      var g' := Apply(g, a);
      ThreadOk(g'.threads[t], g'.writer == Some(t), g'.writer.Some?, g'.generation)
  {
    var g' := Apply(g, a);
    var th := g.threads[t];
    assert ThreadOk(th, g.writer == Some(t), g.writer.Some?, g.generation);
    assert ThreadOk(g.threads[a.t], g.writer == Some(a.t), g.writer.Some?, g.generation);
    LaterFramesOk(th.frames, g.writer == Some(t), g.generation, g'.writer == Some(t), g'.generation);
  }

  /** Every step of every thread keeps the protocol invariant. */
  lemma StepKeepsInv(g: Gate, a: Action)
    requires Inv(g) && Enabled(g, a)
    ensures Inv(Apply(g, a))
  {
    var g' := Apply(g, a);
    StepKeepsActor(g, a);
    forall t | 0 <= t < |g'.threads|
      ensures ThreadOk(g'.threads[t], g'.writer == Some(t), g'.writer.Some?, g'.generation)
    {
      if t != a.t { StepKeepsOthers(g, a, t); }
    }
    assert g.threads[a.t].pc.Running? && g.threads[a.t].owns ==> g.writer == Some(a.t) by {
      assert ThreadOk(g.threads[a.t], g.writer == Some(a.t), g.writer.Some?, g.generation);
    }
  }

  lemma {:induction false} RunKeepsInv(states: seq<Gate>, actions: seq<Action>, k: nat)
    requires IsRun(states, actions) && k < |states|
    ensures Inv(states[k])
  {
    if k > 0 {
      RunKeepsInv(states, actions, k - 1);
      assert StepAt(states, actions, k - 1);
      StepKeepsInv(states[k - 1], actions[k - 1]);
    }
  }
}
