/** Why the walk of a call goes on, and what it publishes: in every run of the claim protocol a call
    leaves a block only when it is turned away from it, and writes only the variables it claims. */
module PortProgress {
  import opened PortBlocks
  import opened PortProtocol
  import opened PortSafety

  /** The step turns a call away from the block of attempt a: its lock is refused, or a probe of one
      of its ports is answered or refused. */
  predicate TurnsAway(s: System, step: Step, t: Tid, a: nat) {
    && Enabled(s, step) && Moves(step, t) && Known(s, t)
    && match step
       case LockRefused(_) => s.calls[t].pc.attempt == a
       case Connect(_, _, answered) => answered && s.calls[t].pc.attempt == a
       case Bind4(_, _, granted) => !granted && s.calls[t].pc.attempt == a
       case Bind6(_, _, granted) => !granted && s.calls[t].pc.attempt == a
       case _ => false
  }

  ghost predicate TurnedAway(r: Run, upTo: nat, t: Tid, a: nat)
    requires |r.states| == |r.steps| + 1 && upTo <= |r.steps|
  {
    exists k :: 0 <= k < upTo && TurnsAway(r.states[k], r.steps[k], t, a)
  }

  predicate Fails(p: Probe) { p.phase.Squatted? || p.phase.Unwinding? }

  /** How many attempts a call has behind it. */
  function Behind(pc: Pc): nat {
    match pc
    case Ready => 0
    case Pinned => 0
    case Retired => 0
    case Exhausted => BLOCK_COUNT
    case Probing(a, probes) => if exists p :: p in probes && Fails(p) then a + 1 else a
    case Closing(a, _, won) => if won then a else a + 1
    case _ => pc.attempt
  }

  /** The attempts a call makes are those of the walk. */
  predicate WithinWalk(pc: Pc) {
    match pc
    case Ready => true
    case Pinned => true
    case Retired => true
    case Exhausted => true
    case Walking(a) => a <= BLOCK_COUNT
    case _ => pc.attempt < BLOCK_COUNT
  }

  /** What one step does to the count: a step that turns the call away from attempt a makes it
      a + 1, and no other step of any call changes it. */
  ghost predicate Counts(s: System, step: Step, t: Tid, s': System) {
    && Known(s, t) && Known(s', t)
    && WithinWalk(s'.calls[t].pc)
    && (forall a: nat :: TurnsAway(s, step, t, a) ==>
          a <= Behind(s.calls[t].pc) <= a + 1 && Behind(s'.calls[t].pc) == a + 1)
    && ((forall a: nat :: !TurnsAway(s, step, t, a)) ==> Behind(s'.calls[t].pc) == Behind(s.calls[t].pc))
  }

  predicate IsProbeStep(step: Step) {
    step.Connect? || step.Bind4? || step.Bind6? || step.Unwind? || step.Close4? || step.Close6?
  }

  lemma {:induction false} OtherStepCounts(s: System, step: Step, t: Tid)
    requires Enabled(s, step) && Known(s, t) && WithinWalk(s.calls[t].pc) && !Moves(step, t)
    ensures Counts(s, step, t, Apply(s, step))
  {
    StepFrame(s, step, t);
    hide Apply;
  }

  lemma {:induction false} FreshNeverFails(n: nat)
    ensures forall p :: p in Fresh(n) ==> !Fails(p)
  {
  }

  predicate IsWalkStep(step: Step) {
    step.Begin? || step.Look? || step.LockGranted? || step.LockRefused? || step.Record?
  }

  lemma {:induction false} WalkStepCounts(s: System, step: Step, t: Tid)
    requires Enabled(s, step) && Known(s, t) && WithinWalk(s.calls[t].pc) && Moves(step, t) && IsWalkStep(step)
    ensures Counts(s, step, t, Apply(s, step))
  {
    hide BlockAt, Publish, Unpinned, PinnedPorts;
    FreshNeverFails(|s.calls[t].unpinned|);
    if step.LockRefused? {
      assert TurnsAway(s, step, t, s.calls[t].pc.attempt);
    }
  }

  lemma {:induction false} StageStepCounts(s: System, step: Step, t: Tid)
    requires Enabled(s, step) && Known(s, t) && WithinWalk(s.calls[t].pc) && Moves(step, t)
    requires !IsWalkStep(step) && !IsProbeStep(step)
    ensures Counts(s, step, t, Apply(s, step))
  {
    hide BlockAt, Publish, Unpinned, PinnedPorts;
  }

  /** Moving a probe that has not failed on, the others staying as they are. */
  lemma {:induction false} FailureAdds(probes: seq<Probe>, i: nat, p: Probe)
    requires i < |probes|
    ensures (exists q :: q in probes[i := p] && Fails(q)) <==>
            Fails(p) || exists j :: 0 <= j < |probes| && j != i && Fails(probes[j])
    ensures (exists q :: q in probes && Fails(q)) <==>
            Fails(probes[i]) || exists j :: 0 <= j < |probes| && j != i && Fails(probes[j])
  {
    var moved := probes[i := p];
    assert moved[i] == p && moved[i] in moved && probes[i] in probes;
    forall j | 0 <= j < |probes| && j != i
      ensures moved[j] == probes[j] && moved[j] in moved && probes[j] in probes
    {
    }
  }

  lemma {:induction false} ProbeStepCounts(s: System, step: Step, t: Tid)
    requires Enabled(s, step) && Known(s, t) && WithinWalk(s.calls[t].pc) && Moves(step, t) && IsProbeStep(step)
    ensures Counts(s, step, t, Apply(s, step))
  {
    hide BlockAt, Toggle;
    var pc, pc' := s.calls[t].pc, Apply(s, step).calls[t].pc;
    assert pc' == pc.(probes := pc.probes[step.i := pc'.probes[step.i]]);
    FailureAdds(pc.probes, step.i, pc'.probes[step.i]);
    if (step.Connect? && step.answered) || (step.Bind4? && !step.granted) || (step.Bind6? && !step.granted) {
      assert TurnsAway(s, step, t, pc.attempt);
    }
  }

  lemma {:induction false} StepCounts(s: System, step: Step, t: Tid)
    requires Enabled(s, step) && Known(s, t) && WithinWalk(s.calls[t].pc)
    ensures Counts(s, step, t, Apply(s, step))
  {
    hide Apply, Enabled, Counts;
    if !Moves(step, t) {
      OtherStepCounts(s, step, t);
    } else if IsProbeStep(step) {
      ProbeStepCounts(s, step, t);
    } else if IsWalkStep(step) {
      WalkStepCounts(s, step, t);
    } else {
      StageStepCounts(s, step, t);
    }
  }

  /** The attempts behind a call are exactly those it has been turned away from. */
  lemma {:induction false} BehindIsTurnedAway(r: Run, j: nat, t: Tid)
    requires IsRun(r) && j < |r.states| && t in r.states[j].calls
    ensures Known(r.states[j], t) && WithinWalk(r.states[j].calls[t].pc)
    ensures forall a: nat :: a < Behind(r.states[j].calls[t].pc) <==> TurnedAway(r, j, t, a)
  {
    hide Apply, Enabled, TurnsAway, Behind, WithinWalk;
    RunKeepsInv(r, j);
    if j == 0 {
      StartCounts(r.states[0].calls[t].pc);
    } else {
      var s, step, s' := r.states[j - 1], r.steps[j - 1], r.states[j];
      assert StepAt(r, j - 1);
      StepKeepsCalls(s, step);
      BehindIsTurnedAway(r, j - 1, t);
      StepCounts(s, step, t);
      forall a: nat
        ensures TurnedAway(r, j, t, a) <==> TurnedAway(r, j - 1, t, a) || TurnsAway(s, step, t, a)
      {
        if TurnsAway(s, step, t, a) { assert TurnsAway(r.states[j - 1], r.steps[j - 1], t, a); }
      }
    }
  }

  lemma {:induction false} StartCounts(pc: Pc)
    requires pc.Ready?
    ensures WithinWalk(pc) && Behind(pc) == 0
  {
    assert Behind(Ready) == 0;
  }

  /** In every run: a call that finds the range exhausted has been turned away from every block;
      one that has won a block, or walks, from the block of every earlier attempt and no other. */
  lemma {:induction false} WalksOnOnlyWhenTurnedAway(r: Run, j: nat, t: Tid, a: nat)
    requires IsRun(r) && j < |r.states| && t in r.states[j].calls
    ensures r.states[j].calls[t].pc.Exhausted? && a < BLOCK_COUNT ==> TurnedAway(r, j, t, a)
    ensures var pc := r.states[j].calls[t].pc;
      Won(pc) || pc.Walking? || pc.Locking? || pc.Locked? ==> (TurnedAway(r, j, t, a) <==> a < pc.attempt)
  {
    hide TurnedAway, Init, IsRun, StepAt;
    BehindIsTurnedAway(r, j, t);
  }

  // ----- the environment

  /** What a variable of a process holds, if anything. */
  predicate Holds(s: System, p: Pid, v: string, value: EnvText) {
    p in s.procs && v in s.procs[p].env && s.procs[p].env[v] == value
  }

  /** A step changes a variable only by publishing the port of a claim on it that the call found
      unpinned, in the block it has just proven free. */
  lemma {:induction false} OnlyWinnersWriteTheirVariables(s: System, step: Step, p: Pid, v: string, value: EnvText)
    requires Enabled(s, step) && Holds(Apply(s, step), p, v, value) && !Holds(s, p, v, value)
    ensures step.Settle? && s.calls[step.t].pid == p && Won(Apply(s, step).calls[step.t].pc)
    ensures exists c :: c in s.calls[step.t].unpinned && c.envVar == v
                        && value == Text(Number(Block(s, step.t, s.calls[step.t].pc.attempt) + c.offset))
  {
    hide BlockAt, Publish, Unpinned, PinnedPorts, SetProbe;
    if IsProbeStep(step) {
      ProbeFrame(s, step, step.t);
    }
    if step.Settle? {
      var t := step.t;
      PublishValue(Proc(s, t).env, s.calls[t].unpinned, Block(s, t, s.calls[t].pc.attempt), v);
    }
  }

  /** A call that has returned as pinned has read a port back for every one of its variables. */
  predicate PinnedInFull(c: Call) {
    c.pc.Pinned? || c.pc.Retired? ==> forall d :: d in c.claims ==> d.envVar in c.pinned
  }

  lemma {:induction false} StepPinsInFull(s: System, step: Step, t: Tid)
    requires Enabled(s, step) && Known(s, t) && PinnedInFull(s.calls[t])
    ensures t in Apply(s, step).calls && PinnedInFull(Apply(s, step).calls[t])
  {
    hide BlockAt, Publish, SetProbe;
    StepFrame(s, step, t);
    if Moves(step, t) && IsProbeStep(step) {
      ProbeStaysProbing(s, step);
    }
    if step == Begin(t) {
      var env, claims := Proc(s, t).env, s.calls[t].claims;
      assert Unpinned(env, claims) == [] ==> forall d :: d in claims ==> d !in Unpinned(env, claims);
    }
  }

  lemma {:induction false} ProbeStaysProbing(s: System, step: Step)
    requires Enabled(s, step) && IsProbeStep(step)
    ensures var pc := Apply(s, step).calls[step.t].pc; pc.Probing? || pc.Closing?
  {
    hide BlockAt, Toggle;
  }

  lemma {:induction false} PinnedCallsReturnEveryVariable(r: Run, j: nat, t: Tid)
    requires IsRun(r) && j < |r.states| && t in r.states[j].calls
    ensures PinnedInFull(r.states[j].calls[t])
  {
    hide Apply, Enabled;
    if j > 0 {
      assert StepAt(r, j - 1);
      StepKeepsCalls(r.states[j - 1], r.steps[j - 1]);
      RunKeepsInv(r, j - 1);
      PinnedCallsReturnEveryVariable(r, j - 1, t);
      StepPinsInFull(r.states[j - 1], r.steps[j - 1], t);
    }
  }
}
