/** What holds in every run of the claim protocol. */
module PortSafety {
  import opened PortBlocks
  import opened PortProtocol

  // ----- runs

  datatype Run = Run(states: seq<System>, steps: seq<Step>)

  predicate StepAt(r: Run, i: nat)
    requires |r.states| == |r.steps| + 1 && i < |r.steps|
  {
    Enabled(r.states[i], r.steps[i]) && r.states[i + 1] == Apply(r.states[i], r.steps[i])
  }

  ghost predicate IsRun(r: Run) {
    && |r.states| == |r.steps| + 1
    && Init(r.states[0])
    && forall i :: 0 <= i < |r.steps| ==> StepAt(r, i)
  }

  lemma {:induction false} StepKeepsCalls(s: System, step: Step)
    requires Enabled(s, step)
    ensures Apply(s, step).calls.Keys == s.calls.Keys
  {
    hide BlockAt, Publish, Unpinned, PinnedPorts, Toggle;
  }

  lemma {:induction false} StepKeepsInv(s: System, step: Step)
    requires Inv(s) && Enabled(s, step)
    ensures Inv(Apply(s, step))
  {
    hide Apply, Enabled, AccountedAt, CallConsistent;
    StepKeepsCalls(s, step);
    forall t | t in Apply(s, step).calls
      ensures Known(Apply(s, step), t) && CallConsistent(Apply(s, step).calls[t])
    {
      StepKeepsConsistency(s, step, t);
    }
    StepKeepsAccounting(s, step);
  }

  lemma {:induction false} RunKeepsInv(r: Run, i: nat)
    requires IsRun(r) && i < |r.states|
    ensures Inv(r.states[i])
  {
    hide Apply, Enabled, Accounted, CallConsistent;
    if i == 0 {
      InitInv(r.states[0]);
    } else {
      RunKeepsInv(r, i - 1);
      assert StepAt(r, i - 1);
      StepKeepsInv(r.states[i - 1], r.steps[i - 1]);
    }
  }

  // ----- locks

  /** In every reachable state the lock port of a held block is bound through that
      process's registry, so no block is held by two processes. */
  lemma {:induction false} HeldBlocksAreLocked(r: Run, i: nat, p: Pid, block: int)
    requires IsRun(r) && i < |r.states|
    requires p in r.states[i].procs && block in r.states[i].procs[p].held
    ensures Lock(block) in r.states[i].bound && r.states[i].bound[Lock(block)] == Registry(p)
    ensures forall q :: q in r.states[i].procs && q != p ==> block !in r.states[i].procs[q].held
  {
    var s := r.states[i];
    RunKeepsInv(r, i);
    assert AccountedAt(s, Registry(p), Lock(block));
    forall q | q in s.procs && q != p
      ensures block !in s.procs[q].held
    {
      assert AccountedAt(s, Registry(q), Lock(block));
    }
  }

  /** A call that relies on the block it is claiming: probing it, publishing it, or returned
      and not ended. */
  predicate InUse(s: System, t: Tid) {
    && Known(s, t)
    && var pc := s.calls[t].pc; pc.Probing? || (pc.Closing? && pc.won) || pc.Live?
  }

  function UsedBlock(s: System, t: Tid): int
    requires InUse(s, t)
  {
    Block(s, t, s.calls[t].pc.attempt)
  }

  /** A call that goes by the ports it read back as pinned: begun and not over. */
  predicate Underway(pc: Pc) {
    !pc.Ready? && !pc.Retired? && !pc.Ended? && !pc.Dropping? && !pc.Exhausted?
  }

  /** The blocks whose ports a set of pins names, whoever set them. */
  function PinnedBlocks(ports: Ports): set<int> {
    set v | v in ports && ports[v].Number? && InRange(ports[v].value) :: BlockOf(ports[v].value)
  }

  /** The blocks a call relies on: the one it is claiming and those of its pinned ports. */
  function Relied(s: System, t: Tid): set<int>
    requires Known(s, t)
  {
    (if InUse(s, t) then {UsedBlock(s, t)} else {})
    + (if Underway(s.calls[t].pc) then PinnedBlocks(s.calls[t].pinned) else {})
  }

  ghost predicate AllProtected(s: System) {
    forall t :: Known(s, t) ==> Relied(s, t) <= Proc(s, t).held
  }

  /** A step after which a block is relied on without its lock: a release while another call of
      the process relies on the block, or the beginning of a call, such as a retry, pinned to a
      port of a block its process does not hold. */
  ghost predicate Careless(s: System, step: Step) {
    Enabled(s, step) &&
    match step
    case Begin(t) => !(PinnedBlocks(PinnedPorts(Proc(s, t).env, s.calls[t].claims)) <= Proc(s, t).held)
    case Release(t) =>
      var block := Block(s, t, s.calls[t].pc.attempt);
      && block in Proc(s, t).held
      && exists u :: u != t && Known(s, u) && s.calls[u].pid == s.calls[t].pid && block in Relied(s, u)
    case _ => false
  }

  ghost predicate Careful(r: Run)
    requires IsRun(r)
  {
    forall i :: 0 <= i < |r.steps| ==> !Careless(r.states[i], r.steps[i])
  }

  lemma {:induction false} CarelessStepUnprotects(s: System, step: Step)
    requires Careless(s, step)
    ensures !AllProtected(Apply(s, step))
  {
    hide BlockAt, Publish, Unpinned, PinnedPorts, PinnedBlocks;
    var t, s' := step.t, Apply(s, step);
    if step.Begin? {
      assert Known(s', t) && PinnedBlocks(s'.calls[t].pinned) <= Relied(s', t);
    } else {
      var block := Block(s, t, s.calls[t].pc.attempt);
      var u :| u != t && Known(s, u) && s.calls[u].pid == s.calls[t].pid && block in Relied(s, u);
      assert Known(s', u) && block in Relied(s', u);
    }
  }

  /** A call that does not move relies on what it relied on. */
  lemma {:induction false} OthersKeepRelying(s: System, step: Step, u: Tid)
    requires Enabled(s, step) && Known(s, u) && !Moves(step, u)
    ensures Known(Apply(s, step), u) && Relied(Apply(s, step), u) == Relied(s, u)
  {
    hide Apply, Enabled, BlockAt, PinnedBlocks;
    StepFrame(s, step, u);
  }

  lemma {:induction false} CarefulStepProtects(s: System, step: Step, u: Tid)
    requires Inv(s) && AllProtected(s) && Enabled(s, step) && !Careless(s, step)
    requires Known(s, u) && Known(Apply(s, step), u)
    ensures Relied(Apply(s, step), u) <= Proc(Apply(s, step), u).held
  {
    hide Apply, Enabled, BlockAt, Accounted, PinnedBlocks, PinnedPorts, CallConsistent, Relied;
    StepFrame(s, step, u);
    if Moves(step, u) {
      MoverIsProtected(s, step, u);
    } else {
      OthersKeepRelying(s, step, u);
      assert Relied(s, u) <= Proc(s, u).held;
    }
  }

  /** A step of a call changes its pins only by beginning, and its registry only by a release. */
  lemma {:induction false} MoverIsProtected(s: System, step: Step, t: Tid)
    requires AllProtected(s) && Enabled(s, step) && Moves(step, t) && !Careless(s, step)
    requires Known(s, t) && Known(Apply(s, step), t)
    ensures Relied(Apply(s, step), t) <= Proc(Apply(s, step), t).held
  {
    hide Apply, Enabled, Careless, Relied;
    assert Relied(s, t) <= Proc(s, t).held;
    if step.Connect? || step.Bind4? || step.Bind6? || step.Unwind? || step.Close4? || step.Close6? {
      ProbeStepRelies(s, step, t);
    } else if step.Begin? || step.Look? || step.LockRefused? || step.Finish? || step.End? || step.Settle? {
      StageIsProtected(s, step, t);
    } else {
      LockerIsProtected(s, step, t);
    }
  }

  lemma {:induction false} StageIsProtected(s: System, step: Step, t: Tid)
    requires Enabled(s, step) && Moves(step, t) && !Careless(s, step) && Relied(s, t) <= Proc(s, t).held
    requires step.Begin? || step.Look? || step.LockRefused? || step.Finish? || step.End? || step.Settle?
    ensures Known(Apply(s, step), t) && Relied(Apply(s, step), t) <= Proc(Apply(s, step), t).held
  {
    hide BlockAt, Publish, Unpinned, PinnedPorts, PinnedBlocks;
  }

  lemma {:induction false} LockerIsProtected(s: System, step: Step, t: Tid)
    requires Enabled(s, step) && Moves(step, t) && !Careless(s, step) && Relied(s, t) <= Proc(s, t).held
    requires step.LockGranted? || step.Record? || step.Release? || step.Drop?
    ensures Known(Apply(s, step), t) && Relied(Apply(s, step), t) <= Proc(Apply(s, step), t).held
  {
    hide BlockAt, Publish, Unpinned, PinnedPorts, PinnedBlocks;
  }

  /** Moving a probe changes nothing a call relies on. */
  lemma {:induction false} ProbeStepRelies(s: System, step: Step, t: Tid)
    requires Enabled(s, step) && Moves(step, t)
    requires step.Connect? || step.Bind4? || step.Bind6? || step.Unwind? || step.Close4? || step.Close6?
    ensures Known(Apply(s, step), t) && Relied(Apply(s, step), t) == Relied(s, t)
    ensures Proc(Apply(s, step), t) == Proc(s, t)
  {
    hide BlockAt, Publish, Unpinned, PinnedPorts, PinnedBlocks, Toggle;
  }

  lemma {:induction false} CarefulPrefixProtects(r: Run, i: nat)
    requires IsRun(r) && i < |r.states|
    requires forall k :: 0 <= k < i ==> !Careless(r.states[k], r.steps[k])
    ensures AllProtected(r.states[i])
  {
    hide Apply, Enabled, BlockAt, Accounted, Careless, Relied;
    if i == 0 {
      InitReliesOnNothing(r.states[0]);
    } else {
      CarefulPrefixProtects(r, i - 1);
      RunKeepsInv(r, i - 1);
      assert StepAt(r, i - 1);
      var s, step := r.states[i - 1], r.steps[i - 1];
      StepKeepsCalls(s, step);
      forall u | Known(r.states[i], u)
        ensures Relied(r.states[i], u) <= Proc(r.states[i], u).held
      {
        CarefulStepProtects(s, step, u);
      }
    }
  }

  lemma InitReliesOnNothing(s: System)
    requires Init(s)
    ensures AllProtected(s)
  {
  }

  /** Every call has all the blocks it relies on locked by its process throughout a run, exactly
      when no step of the run is careless. */
  lemma {:induction false} ProtectedExactlyWhenCareful(r: Run)
    requires IsRun(r)
    ensures (forall i :: 0 <= i < |r.states| ==> AllProtected(r.states[i])) <==> Careful(r)
  {
    hide Apply, Enabled, Careless, Relied;
    if Careful(r) {
      forall i | 0 <= i < |r.states|
        ensures AllProtected(r.states[i])
      {
        CarefulPrefixProtects(r, i);
      }
    } else {
      var i :| 0 <= i < |r.steps| && Careless(r.states[i], r.steps[i]);
      assert StepAt(r, i);
      CarelessStepUnprotects(r.states[i], r.steps[i]);
      assert !AllProtected(r.states[i + 1]);
    }
  }

  /** A port of the range a call goes by: one it claims at an offset inside its block, or one it
      read back as pinned. */
  predicate GoesBy(s: System, t: Tid, port: int) {
    && Known(s, t)
    && var c := s.calls[t];
    || (InUse(s, t) && exists j :: 0 <= j < |c.unpinned| && c.unpinned[j].offset < BLOCK_SIZE
                                   && port == UsedBlock(s, t) + c.unpinned[j].offset)
    || (Underway(c.pc) && InRange(port) && exists v :: v in c.pinned && c.pinned[v] == Number(port))
  }

  lemma {:induction false} PortsLieInReliedBlocks(s: System, t: Tid, port: int)
    requires GoesBy(s, t, port)
    ensures BlockOf(port) in Relied(s, t)
  {
    var c := s.calls[t];
    if InUse(s, t) && exists j :: 0 <= j < |c.unpinned| && c.unpinned[j].offset < BLOCK_SIZE
                                  && port == UsedBlock(s, t) + c.unpinned[j].offset {
      var j :| 0 <= j < |c.unpinned| && c.unpinned[j].offset < BLOCK_SIZE
               && port == UsedBlock(s, t) + c.unpinned[j].offset;
      BlockAtIndex(Proc(s, t).hash, c.pc.attempt);
      BlockOfPort(UsedBlock(s, t), c.unpinned[j].offset);
    } else {
      var v :| v in c.pinned && c.pinned[v] == Number(port);
      assert BlockOf(c.pinned[v].value) in PinnedBlocks(c.pinned);
    }
  }

  /** In a careful run, calls of different processes never go by the same port, claimed or pinned. */
  lemma {:induction false} CarefulCallsNeverShareAPort(r: Run, i: nat, t: Tid, u: Tid, port: int)
    requires IsRun(r) && Careful(r) && i < |r.states|
    requires GoesBy(r.states[i], t, port) && GoesBy(r.states[i], u, port)
    ensures r.states[i].calls[t].pid == r.states[i].calls[u].pid
  {
    hide Apply, Enabled, BlockAt, Relied, Careless;
    CarefulPrefixProtects(r, i);
    PortsLieInReliedBlocks(r.states[i], t, port);
    PortsLieInReliedBlocks(r.states[i], u, port);
    HeldBlocksAreLocked(r, i, r.states[i].calls[t].pid, BlockOf(port));
  }

  predicate Releases(s: System, step: Step, p: Pid, block: int) {
    && step.Release? && Enabled(s, step)
    && s.calls[step.t].pid == p && Block(s, step.t, s.calls[step.t].pc.attempt) == block
  }

  lemma {:induction false} OnlyReleaseUnlocks(s: System, step: Step, p: Pid, block: int)
    requires Enabled(s, step) && p in s.procs && block in s.procs[p].held && !Releases(s, step, p, block)
    ensures p in Apply(s, step).procs && block in Apply(s, step).procs[p].held
  {
    hide BlockAt, Publish, Unpinned, PinnedPorts;
  }

  /** A lock leaves the registry only through a release of a call that returned that
      block; a block abandoned as squatted stays locked. */
  lemma {:induction false} SquattedBlockStaysLocked(r: Run, i: nat, j: nat, p: Pid, block: int)
    requires IsRun(r) && i <= j < |r.states|
    requires p in r.states[i].procs && block in r.states[i].procs[p].held
    requires forall k :: i <= k < j ==> !Releases(r.states[k], r.steps[k], p, block)
    ensures p in r.states[j].procs && block in r.states[j].procs[p].held
    decreases j
  {
    hide Apply, Enabled, Init, Releases;
    if i < j {
      SquattedBlockStaysLocked(r, i, j - 1, p, block);
      assert StepAt(r, j - 1);
      OnlyReleaseUnlocks(r.states[j - 1], r.steps[j - 1], p, block);
    }
  }

  // ----- probe listeners

  predicate HoldsListener(s: System, t: Tid, k: nat, e: Endpoint) {
    e in s.bound && s.bound[e] == ByProbe(t, k)
  }

  /** Both wildcard listeners of every claimed port are held by this call's probes. */
  predicate HoldsEveryPort(s: System, t: Tid, claims: seq<PortClaim>, block: int) {
    forall k :: 0 <= k < |claims| ==>
      && HoldsListener(s, t, k, Endpoint(block + claims[k].offset, Any4))
      && HoldsListener(s, t, k, Endpoint(block + claims[k].offset, Any6))
  }

  predicate Won(pc: Pc) { (pc.Closing? && pc.won) || pc.Live? }

  lemma {:induction false} WinningSettleHoldsEveryPort(s: System, t: Tid)
    requires Inv(s) && Enabled(s, Settle(t)) && Won(Apply(s, Settle(t)).calls[t].pc)
    ensures HoldsEveryPort(s, t, s.calls[t].unpinned, Block(s, t, s.calls[t].pc.attempt))
  {
    var pc := s.calls[t].pc;
    var claims, block := s.calls[t].unpinned, Block(s, t, pc.attempt);
    forall k | 0 <= k < |claims|
      ensures HoldsListener(s, t, k, Endpoint(block + claims[k].offset, Any4))
      ensures HoldsListener(s, t, k, Endpoint(block + claims[k].offset, Any6))
    {
      assert pc.probes[k] in pc.probes;
      assert AccountedAt(s, ByProbe(t, k), Endpoint(Port(s, t, pc.attempt, k), Any4));
      assert AccountedAt(s, ByProbe(t, k), Endpoint(Port(s, t, pc.attempt, k), Any6));
    }
  }

  /** A call only becomes a winner by settling. */
  lemma {:induction false} WinnersComeFromSettle(s: System, step: Step, t: Tid)
    requires Inv(s) && Enabled(s, step) && t in s.calls && Won(Apply(s, step).calls[t].pc)
    ensures step == Settle(t) || Won(s.calls[t].pc)
  {
    hide BlockAt, Publish, Unpinned, PinnedPorts, Accounted, CallConsistent, Toggle;
    if !Moves(step, t) {
      StepFrame(s, step, t);
    }
  }

  /** A winner has the claims and the block it had before the step. */
  lemma {:induction false} WinnersKeepTheirBlock(s: System, step: Step, t: Tid)
    requires Inv(s) && Enabled(s, step) && t in s.calls && Won(Apply(s, step).calls[t].pc)
    requires step == Settle(t) || Won(s.calls[t].pc)
    ensures var s' := Apply(s, step);
      && Known(s', t) && s'.calls[t].unpinned == s.calls[t].unpinned
      && Block(s', t, s'.calls[t].pc.attempt) == Block(s, t, s.calls[t].pc.attempt)
  {
    hide BlockAt, Publish, Unpinned, PinnedPorts, Accounted, Toggle;
    StepFrame(s, step, t);
  }

  /** Whenever a call has returned freshly claimed ports, the run holds an instant at
      which it had both wildcard listeners open on every one of them. */
  lemma {:induction false} ReturnedPortsWereAllHeldAtOnce(r: Run, j: nat, t: Tid)
    requires IsRun(r) && j < |r.states| && t in r.states[j].calls && Won(r.states[j].calls[t].pc)
    ensures Known(r.states[j], t)
    ensures exists i :: 0 <= i < j && HoldsEveryPort(r.states[i], t, r.states[j].calls[t].unpinned,
                                                     Block(r.states[j], t, r.states[j].calls[t].pc.attempt))
  {
    hide Apply, Enabled, BlockAt, Accounted, HoldsEveryPort;
    RunKeepsInv(r, j);
    if j > 0 {
      var s, step := r.states[j - 1], r.steps[j - 1];
      RunKeepsInv(r, j - 1);
      assert StepAt(r, j - 1);
      StepKeepsCalls(s, step);
      WinnersComeFromSettle(s, step, t);
      WinnersKeepTheirBlock(s, step, t);
      if step == Settle(t) {
        WinningSettleHoldsEveryPort(s, t);
      } else {
        ReturnedPortsWereAllHeldAtOnce(r, j - 1, t);
      }
    }
  }

  /** Outside the probing and closing stages a call has no probe listener open, whatever
      path led there. */
  lemma {:induction false} NoProbeOutlivesItsStage(r: Run, i: nat, t: Tid, e: Endpoint)
    requires IsRun(r) && i < |r.states| && t in r.states[i].calls && e in r.states[i].bound
    requires r.states[i].bound[e].ByProbe? && r.states[i].bound[e].owner == t
    ensures r.states[i].calls[t].pc.Probing? || r.states[i].calls[t].pc.Closing?
  {
    RunKeepsInv(r, i);
    assert AccountedAt(r.states[i], r.states[i].bound[e], e);
  }

  // ----- published ports

  /** Once a call has begun, each of its claims is on its list or already pinned. */
  predicate Listed(s: System, t: Tid) {
    Known(s, t) && (!s.calls[t].pc.Ready? ==>
      forall c :: c in s.calls[t].claims ==> c in s.calls[t].unpinned || IsPinned(Proc(s, t).env, c))
  }

  predicate AllPinned(s: System, p: Pid, claims: seq<PortClaim>) {
    p in s.procs && forall c :: c in claims ==> IsPinned(s.procs[p].env, c)
  }

  /** No step unpins a variable. */
  lemma {:induction false} PinsSurvive(s: System, step: Step, p: Pid, c: PortClaim)
    requires Enabled(s, step) && p in s.procs && IsPinned(s.procs[p].env, c)
    ensures p in Apply(s, step).procs && IsPinned(Apply(s, step).procs[p].env, c)
  {
    hide BlockAt, Publish, Unpinned, PinnedPorts, Toggle;
    if step.Settle? {
      PublishPins(Proc(s, step.t).env, s.calls[step.t].unpinned, Block(s, step.t, s.calls[step.t].pc.attempt));
    }
  }

  lemma {:induction false} PinsSurviveTheRun(r: Run, i: nat, j: nat, p: Pid, claims: seq<PortClaim>)
    requires IsRun(r) && i <= j < |r.states| && AllPinned(r.states[i], p, claims)
    ensures AllPinned(r.states[j], p, claims)
    decreases j
  {
    hide Apply, Enabled;
    if i < j {
      PinsSurviveTheRun(r, i, j - 1, p, claims);
      assert StepAt(r, j - 1);
      StepKeepsProcesses(r.states[j - 1], r.steps[j - 1]);
      forall c | c in claims
        ensures p in r.states[j].procs && IsPinned(r.states[j].procs[p].env, c)
      {
        PinsSurvive(r.states[j - 1], r.steps[j - 1], p, c);
      }
    }
  }

  lemma {:induction false} StepKeepsProcesses(s: System, step: Step)
    requires Enabled(s, step)
    ensures Apply(s, step).procs.Keys == s.procs.Keys
  {
    hide BlockAt, Publish, Unpinned, PinnedPorts, Toggle;
  }

  lemma {:induction false} StepKeepsListed(s: System, step: Step, t: Tid)
    requires Enabled(s, step) && Listed(s, t)
    ensures Listed(Apply(s, step), t)
  {
    StepFrame(s, step, t);
    ClaimsAndListKept(s, step, t);
    forall c | c in s.calls[t].claims && IsPinned(Proc(s, t).env, c)
      ensures IsPinned(Proc(Apply(s, step), t).env, c)
    {
      PinsSurvive(s, step, s.calls[t].pid, c);
    }
    if step == Begin(t) {
      assert Proc(Apply(s, step), t).env == Proc(s, t).env;
    }
    hide Apply, Enabled, Unpinned;
  }

  /** Only its beginning changes a call's list, to its unpinned claims. */
  lemma {:induction false} ClaimsAndListKept(s: System, step: Step, t: Tid)
    requires Enabled(s, step) && Known(s, t)
    ensures t in Apply(s, step).calls
    ensures var c, c' := s.calls[t], Apply(s, step).calls[t];
      && c'.claims == c.claims
      && c'.unpinned == (if step == Begin(t) then Unpinned(Proc(s, t).env, c.claims) else c.unpinned)
      && (c.pc.Ready? && step != Begin(t) ==> c'.pc.Ready?)
  {
    hide BlockAt, Publish, Unpinned, PinnedPorts, Toggle;
    if !Moves(step, t) {
      StepFrame(s, step, t);
      hide Apply;
    }
  }

  lemma {:induction false} RunKeepsListed(r: Run, i: nat, t: Tid)
    requires IsRun(r) && i < |r.states| && t in r.states[i].calls
    ensures Listed(r.states[i], t)
  {
    hide Apply, Enabled;
    if i > 0 {
      assert StepAt(r, i - 1);
      StepKeepsCalls(r.states[i - 1], r.steps[i - 1]);
      RunKeepsListed(r, i - 1, t);
      StepKeepsListed(r.states[i - 1], r.steps[i - 1], t);
    }
  }

  lemma {:induction false} WinningSettlePublishes(s: System, t: Tid)
    requires Enabled(s, Settle(t)) && Listed(s, t) && Won(Apply(s, Settle(t)).calls[t].pc)
    ensures AllPinned(Apply(s, Settle(t)), s.calls[t].pid, s.calls[t].claims)
  {
    hide BlockAt, Publish, Unpinned, PinnedPorts;
    PublishPins(Proc(s, t).env, s.calls[t].unpinned, Block(s, t, s.calls[t].pc.attempt));
  }

  /** A call that has won its block has published every one of its variables. */
  lemma {:induction false} WinnersArePublished(r: Run, j: nat, t: Tid)
    requires IsRun(r) && j < |r.states| && t in r.states[j].calls && Won(r.states[j].calls[t].pc)
    ensures AllPinned(r.states[j], r.states[j].calls[t].pid, r.states[j].calls[t].claims)
  {
    hide Apply, Enabled, Accounted;
    if j > 0 {
      var s, step := r.states[j - 1], r.steps[j - 1];
      RunKeepsInv(r, j - 1);
      assert StepAt(r, j - 1);
      StepKeepsCalls(s, step);
      RunKeepsListed(r, j - 1, t);
      WinnersComeFromSettle(s, step, t);
      StepFrame(s, step, t);
      ClaimsAndListKept(s, step, t);
      if step == Settle(t) {
        WinningSettlePublishes(s, t);
      } else {
        WinnersArePublished(r, j - 1, t);
        PinsSurviveTheRun(r, j - 1, j, s.calls[t].pid, s.calls[t].claims);
      }
    }
  }

  /** In every run, once one call of a process has won its block, any later call of that process
      for the same variables returns at once as pinned: it locks nothing and probes nothing. */
  lemma {:induction false} RetryTakesNoLock(r: Run, i: nat, j: nat, t: Tid, u: Tid)
    requires IsRun(r) && i <= j < |r.steps| && t in r.states[i].calls && Won(r.states[i].calls[t].pc)
    requires r.steps[j] == Begin(u) && Known(r.states[j], u)
    requires r.states[j].calls[u].pid == r.states[i].calls[t].pid
    requires forall c :: c in r.states[j].calls[u].claims ==>
               exists d :: d in r.states[i].calls[t].claims && d.envVar == c.envVar
    ensures u in r.states[j + 1].calls && r.states[j + 1].calls[u].pc == Pinned
    ensures r.states[j + 1].bound == r.states[j].bound && r.states[j + 1].procs == r.states[j].procs
  {
    var p, claims := r.states[i].calls[t].pid, r.states[i].calls[t].claims;
    WinnersArePublished(r, i, t);
    PinsSurviveTheRun(r, i, j, p, claims);
    assert StepAt(r, j);
    var s := r.states[j];
    forall c | c in s.calls[u].claims
      ensures IsPinned(Proc(s, u).env, c)
    {
      var d :| d in claims && d.envVar == c.envVar;
      assert IsPinned(s.procs[p].env, d);
    }
    UnpinnedIsEmpty(Proc(s, u).env, s.calls[u].claims);
  }

  predicate Resting(pc: Pc) {
    pc.Ready? || pc.Pinned? || pc.Retired? || pc.Walking? || pc.Locking? || pc.Live? || pc.Ended? || pc.Exhausted?
  }

  /** A bound endpoint of one process: kept by its registry or by one of its calls. */
  predicate BoundBy(s: System, p: Pid, e: Endpoint) {
    && e in s.bound
    && match s.bound[e]
       case Foreign => false
       case Registry(q) => q == p
       case Local(t) => t in s.calls && s.calls[t].pid == p
       case ByProbe(t, _) => t in s.calls && s.calls[t].pid == p
  }

  /** When the calls of one process rest, what that process keeps bound are exactly the lock
      ports of the blocks in its registry, whatever the other processes are doing. */
  lemma {:induction false} OnlyLocksRemain(r: Run, i: nat, p: Pid, e: Endpoint)
    requires IsRun(r) && i < |r.states| && p in r.states[i].procs
    requires forall t :: t in r.states[i].calls && r.states[i].calls[t].pid == p ==> Resting(r.states[i].calls[t].pc)
    ensures BoundBy(r.states[i], p, e) <==> exists block :: block in r.states[i].procs[p].held && e == Lock(block)
  {
    var s := r.states[i];
    RunKeepsInv(r, i);
    assert AccountedAt(s, Registry(p), e);
    if BoundBy(s, p, e) {
      assert AccountedAt(s, s.bound[e], e);
      assert e.port - LOCK_OFFSET in s.procs[p].held;
    }
  }

  // ----- the shared-block release

  function Last(r: Run): System
    requires |r.states| == |r.steps| + 1
  {
    r.states[|r.steps|]
  }

  lemma {:induction false} Advance(r: Run, step: Step, next: System) returns (r': Run)
    requires IsRun(r) && Enabled(Last(r), step) && Apply(Last(r), step) == next
    ensures IsRun(r') && Last(r') == next
  {
    r' := Run(r.states + [next], r.steps + [step]);
    forall i | 0 <= i < |r'.steps|
      ensures StepAt(r', i)
    {
      if i < |r.steps| {
        assert StepAt(r, i);
      }
    }
  }

  /** A state with one call, its process and the table replaced. */
  function Put(s: System, t: Tid, c: Call, p: Process, bound: map<Endpoint, Holder>): System {
    System(bound, s.procs[c.pid := p], s.calls[t := c])
  }

  /** A run that has brought one call so far, everything else being as in s. */
  ghost predicate Alone(r: Run, s: System, t: Tid, c: Call, p: Process, bound: map<Endpoint, Holder>) {
    IsRun(r) && Last(r) == Put(s, t, c, p, bound)
  }

  lemma {:induction false} OneUnpinned(env: Env, claims: seq<PortClaim>)
    requires |claims| == 1 && !IsPinned(env, claims[0])
    ensures Unpinned(env, claims) == claims && PinnedPorts(env, claims) == map[]
  {
    if PinnedPorts(env, claims) != map[] {
      var v :| v in PinnedPorts(env, claims);
      assert false;
    }
  }

  lemma {:induction false} OnePinned(env: Env, claims: seq<PortClaim>)
    requires |claims| == 1 && IsPinned(env, claims[0])
    ensures Unpinned(env, claims) == []
    ensures PinnedPorts(env, claims) == map[claims[0].envVar := env[claims[0].envVar].number]
  {
    UnpinnedIsEmpty(env, claims);
    var v, pins := claims[0].envVar, PinnedPorts(env, claims);
    assert claims[0] in claims && v in pins;
    assert pins.Keys == {v};
  }

  lemma {:induction false} LooksAlone(r: Run, s: System, t: Tid, c: Call, p: Process) returns (r': Run)
    requires |c.claims| == 1 && !IsPinned(p.env, c.claims[0]) && c.pc.Ready?
    requires Alone(r, s, t, c, p, s.bound)
    ensures var b := BlockAt(p.hash, 0);
      var pc := if b in p.held then Probing(0, Fresh(1)) else Locking(0);
      Alone(r', s, t, c.(pinned := map[], unpinned := c.claims, pc := pc), p, s.bound)
  {
    hide BlockAt, Publish, Toggle, PinnedPorts, Unpinned;
    var c1 := c.(pinned := map[], unpinned := c.claims, pc := Walking(0));
    OneUnpinned(p.env, c.claims);
    r' := Advance(r, Begin(t), Put(s, t, c1, p, s.bound));
    var b := BlockAt(p.hash, 0);
    var pc := if b in p.held then Probing(0, Fresh(1)) else Locking(0);
    r' := Advance(r', Look(t), Put(s, t, c1.(pc := pc), p, s.bound));
  }

  lemma {:induction false} BindsLockAlone(r: Run, s: System, t: Tid, c: Call, p: Process) returns (r': Run)
    requires Alone(r, s, t, c, p, s.bound) && c.pc == Locking(0) && Lock(BlockAt(p.hash, 0)) !in s.bound
    ensures Alone(r', s, t, c.(pc := Locked(0)), p, s.bound[Lock(BlockAt(p.hash, 0)) := Local(t)])
  {
    hide BlockAt, Publish, Toggle;
    r' := Advance(r, LockGranted(t), Put(s, t, c.(pc := Locked(0)), p, s.bound[Lock(BlockAt(p.hash, 0)) := Local(t)]));
  }

  lemma {:induction false} LocksAlone(r: Run, s: System, t: Tid, c: Call, p: Process) returns (r': Run)
    requires Alone(r, s, t, c, p, s.bound) && |c.unpinned| == 1 && c.pc == Locking(0)
    requires Lock(BlockAt(p.hash, 0)) !in s.bound
    ensures var b := BlockAt(p.hash, 0);
      Alone(r', s, t, c.(pc := Probing(0, Fresh(1))), p.(held := p.held + {b}), s.bound[Lock(b) := Registry(c.pid)])
  {
    hide BlockAt, Publish, Toggle;
    var b := BlockAt(p.hash, 0);
    r' := BindsLockAlone(r, s, t, c, p);
    var p', bound := p.(held := p.held + {b}), s.bound[Lock(b) := Registry(c.pid)];
    assert s.bound[Lock(b) := Local(t)][Lock(b) := Registry(c.pid)] == bound;
    assert s.procs[c.pid := p][c.pid := p'] == s.procs[c.pid := p'];
    r' := Advance(r', Record(t), Put(s, t, c.(pc := Probing(0, Fresh(1))), p', bound));
  }

  /** One step of the only probe of a call. */
  lemma {:induction false} ProbeMovesAlone(r: Run, s: System, t: Tid, c: Call, p: Process,
                                           bound: map<Endpoint, Holder>, step: Step, q: Probe)
    returns (r': Run)
    requires Alone(r, s, t, c, p, bound) && |c.unpinned| == 1
    requires (c.pc.Probing? || c.pc.Closing?) && |c.pc.probes| == 1
    requires Enabled(Last(r), step) && Apply(Last(r), step) == SetProbe(Last(r), t, 0, q)
    ensures var port := BlockAt(p.hash, c.pc.attempt) + c.unpinned[0].offset;
      Alone(r', s, t, c.(pc := c.pc.(probes := [q])), p,
            Toggle(Toggle(bound, Endpoint(port, Any4), ByProbe(t, 0), c.pc.probes[0].v4, q.v4),
                   Endpoint(port, Any6), ByProbe(t, 0), c.pc.probes[0].v6, q.v6))
  {
    assert c.pc.probes[0 := q] == [q];
    r' := Advance(r, step, SetProbe(Last(r), t, 0, q));
    assert Last(r').calls == s.calls[t := c.(pc := c.pc.(probes := [q]))];
  }

  lemma {:induction false} ProbesAlone(r: Run, s: System, t: Tid, c: Call, p: Process,
                                       bound: map<Endpoint, Holder>) returns (r': Run)
    requires Alone(r, s, t, c, p, bound) && |c.unpinned| == 1 && c.pc == Probing(0, Fresh(1))
    requires var port := BlockAt(p.hash, 0) + c.unpinned[0].offset;
      Endpoint(port, Any4) !in bound && Endpoint(port, Any6) !in bound
    ensures var port := BlockAt(p.hash, 0) + c.unpinned[0].offset;
      Alone(r', s, t, c.(pc := Probing(0, [Probe(Proven, true, true)])), p,
            bound[Endpoint(port, Any4) := ByProbe(t, 0)][Endpoint(port, Any6) := ByProbe(t, 0)])
  {
    hide BlockAt, Publish, Unpinned, PinnedPorts;
    var e4 := Endpoint(BlockAt(p.hash, 0) + c.unpinned[0].offset, Any4);
    r' := BindsFirstAlone(r, s, t, c, p, bound);
    var c2 := c.(pc := Probing(0, [Probe(Binding6, true, false)]));
    r' := ProbeMovesAlone(r', s, t, c2, p, bound[e4 := ByProbe(t, 0)], Bind6(t, 0, true), Probe(Proven, true, true));
  }

  lemma {:induction false} BindsFirstAlone(r: Run, s: System, t: Tid, c: Call, p: Process,
                                           bound: map<Endpoint, Holder>) returns (r': Run)
    requires Alone(r, s, t, c, p, bound) && |c.unpinned| == 1 && c.pc == Probing(0, Fresh(1))
    requires Endpoint(BlockAt(p.hash, 0) + c.unpinned[0].offset, Any4) !in bound
    ensures Alone(r', s, t, c.(pc := Probing(0, [Probe(Binding6, true, false)])), p,
                  bound[Endpoint(BlockAt(p.hash, 0) + c.unpinned[0].offset, Any4) := ByProbe(t, 0)])
  {
    hide BlockAt, Publish, Unpinned, PinnedPorts;
    r' := ProbeMovesAlone(r, s, t, c, p, bound, Connect(t, 0, false), Probe(Binding4, false, false));
    var c1 := c.(pc := Probing(0, [Probe(Binding4, false, false)]));
    r' := ProbeMovesAlone(r', s, t, c1, p, bound, Bind4(t, 0, true), Probe(Binding6, true, false));
  }

  lemma {:induction false} SettlesAlone(r: Run, s: System, t: Tid, c: Call, p: Process,
                                        bound: map<Endpoint, Holder>) returns (r': Run)
    requires Alone(r, s, t, c, p, bound) && |c.unpinned| == 1 && c.pc == Probing(0, [Probe(Proven, true, true)])
    ensures Alone(r', s, t, c.(pc := Closing(0, [Probe(Proven, true, true)], true)),
                  p.(env := Publish(p.env, c.unpinned, BlockAt(p.hash, 0))), bound)
  {
    var p' := p.(env := Publish(p.env, c.unpinned, BlockAt(p.hash, 0)));
    var c' := c.(pc := Closing(0, [Probe(Proven, true, true)], true));
    assert s.procs[c.pid := p][c.pid := p'] == s.procs[c.pid := p'];
    r' := Advance(r, Settle(t), Put(s, t, c', p', bound));
  }

  lemma {:induction false} ClosesAlone(r: Run, s: System, t: Tid, c: Call, p: Process,
                                       bound: map<Endpoint, Holder>) returns (r': Run)
    requires Alone(r, s, t, c, p, bound) && |c.unpinned| == 1 && c.pc == Closing(0, [Probe(Proven, true, true)], true)
    ensures var port := BlockAt(p.hash, 0) + c.unpinned[0].offset;
      Alone(r', s, t, c.(pc := Closing(0, [Probe(Proven, false, false)], true)), p,
            bound - {Endpoint(port, Any4)} - {Endpoint(port, Any6)})
  {
    var port := BlockAt(p.hash, 0) + c.unpinned[0].offset;
    r' := ProbeMovesAlone(r, s, t, c, p, bound, Close4(t, 0), Probe(Proven, false, true));
    var c1, b1 := c.(pc := Closing(0, [Probe(Proven, false, true)], true)), bound - {Endpoint(port, Any4)};
    r' := ProbeMovesAlone(r', s, t, c1, p, b1, Close6(t, 0), Probe(Proven, false, false));
  }

  lemma {:induction false} FinishesAlone(r: Run, s: System, t: Tid, c: Call, p: Process,
                                         bound: map<Endpoint, Holder>) returns (r': Run)
    requires Alone(r, s, t, c, p, bound) && c.pc == Closing(0, [Probe(Proven, false, false)], true)
    ensures Alone(r', s, t, c.(pc := Live(0)), p, bound)
  {
    r' := Advance(r, Finish(t), Put(s, t, c.(pc := Live(0)), p, bound));
  }

  /** From every probe proven to a returned claim. */
  lemma {:induction false} ReturnsAlone(r: Run, s: System, t: Tid, c: Call, p: Process,
                                        bound: map<Endpoint, Holder>) returns (r': Run)
    requires Alone(r, s, t, c, p, bound) && |c.unpinned| == 1 && c.pc == Probing(0, [Probe(Proven, true, true)])
    ensures var b := BlockAt(p.hash, 0); var port := b + c.unpinned[0].offset;
      Alone(r', s, t, c.(pc := Live(0)), p.(env := Publish(p.env, c.unpinned, b)),
            bound - {Endpoint(port, Any4)} - {Endpoint(port, Any6)})
  {
    var b := BlockAt(p.hash, 0);
    var port := b + c.unpinned[0].offset;
    var p' := p.(env := Publish(p.env, c.unpinned, b));
    r' := SettlesAlone(r, s, t, c, p, bound);
    r' := ClosesAlone(r', s, t, c.(pc := Closing(0, [Probe(Proven, true, true)], true)), p', bound);
    r' := FinishesAlone(r', s, t, c.(pc := Closing(0, [Probe(Proven, false, false)], true)), p',
                        bound - {Endpoint(port, Any4)} - {Endpoint(port, Any6)});
  }

  /** A call with one claim that can take its preferred block and find its port free. */
  predicate CanClaimAlone(s: System, t: Tid) {
    && Known(s, t)
    && var c, p := s.calls[t], Proc(s, t);
    && c.pc.Ready? && |c.claims| == 1 && !IsPinned(p.env, c.claims[0])
    && var b := BlockAt(p.hash, 0);
    && (b in p.held || Lock(b) !in s.bound)
    && Endpoint(b + c.claims[0].offset, Any4) !in s.bound && Endpoint(b + c.claims[0].offset, Any6) !in s.bound
  }

  function LockedTable(s: System, c: Call, p: Process): map<Endpoint, Holder> {
    var b := BlockAt(p.hash, 0);
    if b in p.held then s.bound else s.bound[Lock(b) := Registry(c.pid)]
  }

  lemma {:induction false} ObtainsAlone(r: Run, t: Tid) returns (r': Run)
    requires IsRun(r) && CanClaimAlone(Last(r), t)
    ensures var s, c, p := Last(r), Last(r).calls[t], Proc(Last(r), t);
      Alone(r', s, t, c.(pinned := map[], unpinned := c.claims, pc := Probing(0, Fresh(1))),
            p.(held := p.held + {BlockAt(p.hash, 0)}), LockedTable(s, c, p))
  {
    var s, c, p := Last(r), Last(r).calls[t], Proc(Last(r), t);
    var b := BlockAt(p.hash, 0);
    assert s.calls[t := c] == s.calls && s.procs[c.pid := p] == s.procs;
    r' := LooksAlone(r, s, t, c, p);
    if b in p.held {
      assert p.held + {b} == p.held;
    } else {
      r' := LocksAlone(r', s, t, c.(pinned := map[], unpinned := c.claims, pc := Locking(0)), p);
    }
  }

  /** Undisturbed, such a call goes live on its port, keeps the lock and leaves no
      probe behind. */
  lemma {:induction false} ClaimsAlone(r: Run, t: Tid) returns (r': Run)
    requires IsRun(r) && CanClaimAlone(Last(r), t)
    ensures var s, c, p := Last(r), Last(r).calls[t], Proc(Last(r), t); var b := BlockAt(p.hash, 0);
      Alone(r', s, t, c.(pinned := map[], unpinned := c.claims, pc := Live(0)),
            p.(held := p.held + {b}, env := Publish(p.env, c.claims, b)), LockedTable(s, c, p))
  {
    var s, c, p := Last(r), Last(r).calls[t], Proc(Last(r), t);
    var b := BlockAt(p.hash, 0);
    var e4, e6 := Endpoint(b + c.claims[0].offset, Any4), Endpoint(b + c.claims[0].offset, Any6);
    r' := ObtainsAlone(r, t);
    var c1 := c.(pinned := map[], unpinned := c.claims, pc := Probing(0, Fresh(1)));
    var p1, bound1 := p.(held := p.held + {b}), LockedTable(s, c, p);
    r' := ProbesAlone(r', s, t, c1, p1, bound1);
    var bound2 := bound1[e4 := ByProbe(t, 0)][e6 := ByProbe(t, 0)];
    r' := ReturnsAlone(r', s, t, c1.(pc := Probing(0, [Probe(Proven, true, true)])), p1, bound2);
    assert bound2 - {e4} - {e6} == bound1;
  }

  lemma {:induction false} ReleasesAlone(r: Run, t: Tid) returns (r': Run)
    requires IsRun(r) && Known(Last(r), t)
    requires Last(r).calls[t].pc == Live(0) && BlockAt(Proc(Last(r), t).hash, 0) in Proc(Last(r), t).held
    ensures var s, c, p := Last(r), Last(r).calls[t], Proc(Last(r), t); var b := BlockAt(p.hash, 0);
      Alone(r', s, t, c.(pc := Ended(0)), p.(held := p.held - {b}), s.bound - {Lock(b)})
  {
    var s, c, p := Last(r), Last(r).calls[t], Proc(Last(r), t);
    var b := BlockAt(p.hash, 0);
    var p' := p.(held := p.held - {b});
    r' := Advance(r, Release(t), Put(s, t, c.(pc := Dropping(0)), p', s.bound[Lock(b) := Local(t)]));
    assert s.bound[Lock(b) := Local(t)] - {Lock(b)} == s.bound - {Lock(b)};
    r' := Advance(r', Drop(t), Put(s, t, c.(pc := Ended(0)), p', s.bound - {Lock(b)}));
  }

  const CLOUD := PortClaim("E2E_CLOUD_PORT", 0, "cloud")
  const SELFHOST := PortClaim("E2E_SELFHOST_PORT", 1, "selfhost")

  lemma SelfhostStaysUnpinned(block: int)
    ensures !IsPinned(Publish(map[], [CLOUD], block), SELFHOST)
  {
  }

  /** The first call of process 0 has claimed its block; a second one, and one of process 1,
      are to claim. */
  lemma {:induction false} OneTargetClaims(c0: PortClaim, c1: PortClaim, c2: PortClaim) returns (r: Run)
    ensures IsRun(r)
    ensures var s := Last(r); var b := BlockAt(0, 0);
      && s.bound == map[Lock(b) := Registry(0)]
      && s.calls == map[0 := Call(0, [c0], map[], [c0], Live(0)), 1 := Call(0, [c1], map[], [], Ready),
                        2 := Call(1, [c2], map[], [], Ready)]
      && s.procs == map[0 := Process(0, {b}, Publish(map[], [c0], b)), 1 := Process(0, {}, map[])]
  {
    hide BlockAt, Publish, Apply, Enabled, CanClaimAlone, Init;
    var s0 := ThreeCalls(c0, c1, c2);
    FirstCanClaim(c0, c1, c2);
    r := ClaimsAlone(Run([s0], []), 0);
    assert Proc(s0, 0).held + {BlockAt(0, 0)} == {BlockAt(0, 0)};
  }

  /** Two processes with the same hash, the first with two calls to make. */
  function ThreeCalls(c0: PortClaim, c1: PortClaim, c2: PortClaim): System {
    System(map[],
           map[0 := Process(0, {}, map[]), 1 := Process(0, {}, map[])],
           map[0 := Call(0, [c0], map[], [], Ready), 1 := Call(0, [c1], map[], [], Ready),
               2 := Call(1, [c2], map[], [], Ready)])
  }

  lemma {:induction false} FirstCanClaim(c0: PortClaim, c1: PortClaim, c2: PortClaim)
    ensures Init(ThreeCalls(c0, c1, c2)) && CanClaimAlone(ThreeCalls(c0, c1, c2), 0)
  {
    hide BlockAt;
  }

  /** Both targets of one process are live on the shared block. */
  lemma {:induction false} TwoTargetsShareABlock() returns (r: Run)
    ensures IsRun(r)
    ensures var s := Last(r); var b := BlockAt(0, 0);
      && s.bound == map[Lock(b) := Registry(0)]
      && s.calls == map[0 := Call(0, [CLOUD], map[], [CLOUD], Live(0)),
                        1 := Call(0, [SELFHOST], map[], [SELFHOST], Live(0)),
                        2 := Call(1, [SELFHOST], map[], [], Ready)]
      && s.procs.Keys == {0, 1} && s.procs[0].hash == 0 && s.procs[0].held == {b} && s.procs[1] == Process(0, {}, map[])
  {
    hide Publish, Apply, Enabled;
    r := OneTargetClaims(CLOUD, SELFHOST, SELFHOST);
    SelfhostStaysUnpinned(BlockAt(0, 0));
    r := ClaimsAlone(r, 1);
  }

  /** Without the care condition the property fails: when the first of two calls sharing a
      block releases it, another process goes live on a port the second call still uses. */
  lemma {:induction false} SharedReleaseLetsPortsCollide() returns (r: Run)
    ensures IsRun(r) && !Careful(r)
    ensures var s := Last(r);
      && Known(s, 1) && Known(s, 2) && s.calls[1].pid != s.calls[2].pid && s.calls[1].pc == s.calls[2].pc == Live(0)
      && GoesBy(s, 1, BLOCK_BASE + 1) && GoesBy(s, 2, BLOCK_BASE + 1)
  {
    r := TwoTargetsShareABlock();
    r := ReleasesAlone(r, 0);
    r := ClaimsAlone(r, 2);
    assert BlockAt(0, 0) == BLOCK_BASE && [SELFHOST][0].offset == 1;
    assert Last(r).calls[1].unpinned[0].offset == 1 && Last(r).calls[2].unpinned[0].offset == 1;
    if Careful(r) {
      CarefulCallsNeverShareAPort(r, |r.steps|, 1, 2, BLOCK_BASE + 1);
    }
  }

  /** A call whose only variable is pinned returns at once. */
  lemma {:induction false} PinnedAlone(r: Run, t: Tid) returns (r': Run)
    requires IsRun(r) && Known(Last(r), t)
    requires var c := Last(r).calls[t]; c.pc.Ready? && |c.claims| == 1 && IsPinned(Proc(Last(r), t).env, c.claims[0])
    ensures var s, c, p := Last(r), Last(r).calls[t], Proc(Last(r), t); var v := c.claims[0].envVar;
      Alone(r', s, t, c.(pinned := map[v := p.env[v].number], unpinned := [], pc := Pinned), p, s.bound)
  {
    var s, c, p := Last(r), Last(r).calls[t], Proc(Last(r), t);
    var v := c.claims[0].envVar;
    OnePinned(p.env, c.claims);
    assert s.procs[c.pid := p] == s.procs;
    r' := Advance(r, Begin(t),
                  Put(s, t, c.(pinned := map[v := p.env[v].number], unpinned := [], pc := Pinned), p, s.bound));
  }

  /** The first call has released its block, as after a failed boot. */
  lemma {:induction false} OneTargetReleases(c: PortClaim) returns (r: Run)
    ensures IsRun(r)
    ensures var s := Last(r); var b := BlockAt(0, 0);
      && s.bound == map[]
      && s.calls == map[0 := Call(0, [c], map[], [c], Ended(0)), 1 := Call(0, [c], map[], [], Ready),
                        2 := Call(1, [c], map[], [], Ready)]
      && s.procs == map[0 := Process(0, {}, Publish(map[], [c], b)), 1 := Process(0, {}, map[])]
  {
    hide BlockAt, Publish, Apply, Enabled;
    r := OneTargetClaims(c, c, c);
    assert Last(r).procs[0].held - {BlockAt(0, 0)} == {};
    r := ReleasesAlone(r, 0);
  }

  /** A retry fails in the same way: it is pinned to the port of the block its process has just
      released, and another process goes live on that port. */
  lemma {:induction false} RetryLetsPortsCollide() returns (r: Run)
    ensures IsRun(r) && !Careful(r)
    ensures var s := Last(r);
      && Known(s, 1) && Known(s, 2) && s.calls[1].pid != s.calls[2].pid
      && s.calls[1].pc == Pinned && s.calls[2].pc == Live(0)
      && GoesBy(s, 1, BLOCK_BASE) && GoesBy(s, 2, BLOCK_BASE)
  {
    hide Apply, Enabled, Careful;
    r := OneTargetReleases(CLOUD);
    var b := BlockAt(0, 0);
    assert b == BLOCK_BASE && Publish(map[], [CLOUD], b) == map[CLOUD.envVar := Text(Number(b))];
    r := PinnedAlone(r, 1);
    r := ClaimsAlone(r, 2);
    assert Last(r).calls[1].pinned[CLOUD.envVar] == Number(BLOCK_BASE);
    assert Last(r).calls[2].unpinned[0].offset == 0;
    if Careful(r) {
      CarefulCallsNeverShareAPort(r, |r.steps|, 1, 2, BLOCK_BASE);
    }
  }
}
