/** The claim protocol of e2e/src/ports.ts as a step system: any number of
    processes, each running any number of `claimPorts` calls at once, over one
    table of bound endpoints that other programs change at any step.

    A step is what runs between two awaits. The operating system never grants an
    endpoint that is bound; it may refuse any bind for reasons of its own. */
module PortProtocol {
  import opened PortBlocks

  type Pid = nat
  type Tid = nat

  datatype Address = Loopback4 | Loopback6 | Any4 | Any6 | Routed(id: nat)
  datatype Endpoint = Endpoint(port: int, address: Address)

  /** Who can still close a bound endpoint: another program, the process-wide
      `heldLocks` registry, a local variable of one call, or one bind-probe of a call. */
  datatype Holder =
    | Foreign
    | Registry(pid: Pid)
    | Local(tid: Tid)
    | ByProbe(owner: Tid, index: nat)

  /** One bind-probe: how far it has got and which listeners it has open. */
  datatype Phase = Connecting | Binding4 | Binding6 | Unwinding | Proven | Squatted
  datatype Probe = Probe(phase: Phase, v4: bool, v6: bool)

  datatype Pc =
    | Ready
    | Pinned
    | Retired
    | Walking(attempt: nat)
    | Locking(attempt: nat)
    | Locked(attempt: nat)
    | Probing(attempt: nat, probes: seq<Probe>)
    | Closing(attempt: nat, probes: seq<Probe>, won: bool)
    | Live(attempt: nat)
    | Ended(attempt: nat)
    | Dropping(attempt: nat)
    | Exhausted

  /** A call of `claimPorts`: its claims, the ports it read back as pinned, and those left to claim. */
  datatype Call = Call(pid: Pid, claims: seq<PortClaim>, pinned: Ports, unpinned: seq<PortClaim>, pc: Pc)
  datatype Process = Process(hash: nat, held: set<int>, env: Env)
  datatype System = System(bound: map<Endpoint, Holder>, procs: map<Pid, Process>, calls: map<Tid, Call>)

  datatype Step =
    | Begin(t: Tid)
    | Look(t: Tid)
    | LockGranted(t: Tid)
    | LockRefused(t: Tid)
    | Record(t: Tid)
    | Connect(t: Tid, i: nat, answered: bool)
    | Bind4(t: Tid, i: nat, granted: bool)
    | Bind6(t: Tid, i: nat, granted: bool)
    | Unwind(t: Tid, i: nat)
    | Settle(t: Tid)
    | Close4(t: Tid, i: nat)
    | Close6(t: Tid, i: nat)
    | Finish(t: Tid)
    | End(t: Tid)
    | Release(t: Tid)
    | Drop(t: Tid)
    | ForeignBind(e: Endpoint)
    | ForeignClose(e: Endpoint)

  function Lock(block: int): Endpoint { Endpoint(block + LOCK_OFFSET, Loopback4) }

  predicate Known(s: System, t: Tid) {
    t in s.calls && s.calls[t].pid in s.procs
  }

  function Proc(s: System, t: Tid): Process
    requires Known(s, t)
  {
    s.procs[s.calls[t].pid]
  }

  /** The block a call is working on, for the counters that name one. */
  function Block(s: System, t: Tid, attempt: nat): int
    requires Known(s, t)
  {
    BlockAt(Proc(s, t).hash, attempt)
  }

  function Port(s: System, t: Tid, attempt: nat, i: nat): int
    requires Known(s, t) && i < |s.calls[t].unpinned|
  {
    Block(s, t, attempt) + s.calls[t].unpinned[i].offset
  }

  function Fresh(n: nat): (r: seq<Probe>)
    ensures |r| == n && forall i :: 0 <= i < n ==> r[i] == Probe(Connecting, false, false)
  {
    seq(n, _ => Probe(Connecting, false, false))
  }

  // ----- steps

  predicate ProbeAt(s: System, t: Tid, i: nat, phase: Phase) {
    && Known(s, t) && s.calls[t].pc.Probing?
    && i < |s.calls[t].pc.probes| && i < |s.calls[t].unpinned|
    && s.calls[t].pc.probes[i].phase == phase
  }

  predicate ClosingAt(s: System, t: Tid, i: nat) {
    && Known(s, t) && s.calls[t].pc.Closing?
    && i < |s.calls[t].pc.probes| && i < |s.calls[t].unpinned|
  }

  predicate Enabled(s: System, step: Step) {
    match step
    case Begin(t) => Known(s, t) && s.calls[t].pc.Ready?
    case Look(t) => Known(s, t) && s.calls[t].pc.Walking?
    case LockGranted(t) =>
      Known(s, t) && s.calls[t].pc.Locking? && Lock(Block(s, t, s.calls[t].pc.attempt)) !in s.bound
    case LockRefused(t) => Known(s, t) && s.calls[t].pc.Locking?
    case Record(t) => Known(s, t) && s.calls[t].pc.Locked?
    case Connect(t, i, _) => ProbeAt(s, t, i, Connecting)
    case Bind4(t, i, granted) =>
      && ProbeAt(s, t, i, Binding4)
      && (granted ==> Endpoint(Port(s, t, s.calls[t].pc.attempt, i), Any4) !in s.bound)
    case Bind6(t, i, granted) =>
      && ProbeAt(s, t, i, Binding6)
      && (granted ==> Endpoint(Port(s, t, s.calls[t].pc.attempt, i), Any6) !in s.bound)
    case Unwind(t, i) => ProbeAt(s, t, i, Unwinding)
    case Settle(t) =>
      && Known(s, t) && s.calls[t].pc.Probing?
      && forall p :: p in s.calls[t].pc.probes ==> p.phase.Proven? || p.phase.Squatted?
    case Close4(t, i) => ClosingAt(s, t, i) && s.calls[t].pc.probes[i].v4
    case Close6(t, i) => ClosingAt(s, t, i) && s.calls[t].pc.probes[i].v6
    case Finish(t) =>
      && Known(s, t) && s.calls[t].pc.Closing?
      && forall p :: p in s.calls[t].pc.probes ==> !p.v4 && !p.v6
    case End(t) => Known(s, t) && (s.calls[t].pc.Live? || s.calls[t].pc.Pinned?)
    case Release(t) => Known(s, t) && (s.calls[t].pc.Live? || s.calls[t].pc.Ended?)
    case Drop(t) => Known(s, t) && s.calls[t].pc.Dropping?
    case ForeignBind(e) => e !in s.bound
    case ForeignClose(e) => e in s.bound && s.bound[e] == Foreign
  }

  function Goto(s: System, t: Tid, pc: Pc): System
    requires Known(s, t)
  {
    s.(calls := s.calls[t := s.calls[t].(pc := pc)])
  }

  function SetHeld(s: System, t: Tid, held: set<int>): System
    requires Known(s, t)
  {
    s.(procs := s.procs[s.calls[t].pid := Proc(s, t).(held := held)])
  }

  /** One endpoint's entry after its holder opens it, closes it, or leaves it. */
  function Toggle(bound: map<Endpoint, Holder>, e: Endpoint, h: Holder, was: bool, now: bool): map<Endpoint, Holder> {
    if now && !was then bound[e := h] else if was && !now then bound - {e} else bound
  }

  /** Moves one probe of a call on, opening or closing the listeners in which it changes. */
  function SetProbe(s: System, t: Tid, i: nat, p: Probe): System
    requires Known(s, t) && (s.calls[t].pc.Probing? || s.calls[t].pc.Closing?)
    requires i < |s.calls[t].pc.probes| && i < |s.calls[t].unpinned|
  {
    var pc := s.calls[t].pc;
    var port := Port(s, t, pc.attempt, i);
    var bound4 := Toggle(s.bound, Endpoint(port, Any4), ByProbe(t, i), pc.probes[i].v4, p.v4);
    var bound6 := Toggle(bound4, Endpoint(port, Any6), ByProbe(t, i), pc.probes[i].v6, p.v6);
    Goto(s.(bound := bound6), t, pc.(probes := pc.probes[i := p]))
  }

  function Apply(s: System, step: Step): System
    requires Enabled(s, step)
  {
    match step
    case Begin(t) =>
      var c := s.calls[t];
      var env := Proc(s, t).env;
      var unpinned := Unpinned(env, c.claims);
      s.(calls := s.calls[t := c.(pinned := PinnedPorts(env, c.claims), unpinned := unpinned,
                                  pc := if unpinned == [] then Pinned else Walking(0))])
    case Look(t) =>
      var a := s.calls[t].pc.attempt;
      if a >= BLOCK_COUNT then Goto(s, t, Exhausted)
      else if Block(s, t, a) in Proc(s, t).held then Goto(s, t, Probing(a, Fresh(|s.calls[t].unpinned|)))
      else Goto(s, t, Locking(a))
    case LockGranted(t) =>
      var a := s.calls[t].pc.attempt;
      Goto(s.(bound := s.bound[Lock(Block(s, t, a)) := Local(t)]), t, Locked(a))
    case LockRefused(t) => Goto(s, t, Walking(s.calls[t].pc.attempt + 1))
    case Record(t) =>
      var a := s.calls[t].pc.attempt;
      var b := Block(s, t, a);
      var kept := SetHeld(s, t, Proc(s, t).held + {b});
      Goto(kept.(bound := s.bound[Lock(b) := Registry(s.calls[t].pid)]), t,
           Probing(a, Fresh(|s.calls[t].unpinned|)))
    case Connect(t, i, answered) =>
      SetProbe(s, t, i, Probe(if answered then Squatted else Binding4, false, false))
    case Bind4(t, i, granted) =>
      SetProbe(s, t, i, if granted then Probe(Binding6, true, false) else Probe(Squatted, false, false))
    case Bind6(t, i, granted) =>
      SetProbe(s, t, i, if granted then Probe(Proven, true, true) else Probe(Unwinding, true, false))
    case Unwind(t, i) => SetProbe(s, t, i, Probe(Squatted, false, false))
    case Settle(t) =>
      var pc := s.calls[t].pc;
      if exists p :: p in pc.probes && p.phase.Squatted? then
        Goto(s, t, Closing(pc.attempt, pc.probes, false))
      else
        var env := Publish(Proc(s, t).env, s.calls[t].unpinned, Block(s, t, pc.attempt));
        var published := s.(procs := s.procs[s.calls[t].pid := Proc(s, t).(env := env)]);
        Goto(published, t, Closing(pc.attempt, pc.probes, true))
    case Close4(t, i) => SetProbe(s, t, i, s.calls[t].pc.probes[i].(v4 := false))
    case Close6(t, i) => SetProbe(s, t, i, s.calls[t].pc.probes[i].(v6 := false))
    case Finish(t) =>
      var pc := s.calls[t].pc;
      Goto(s, t, if pc.won then Live(pc.attempt) else Walking(pc.attempt + 1))
    case End(t) => Goto(s, t, if s.calls[t].pc.Pinned? then Retired else Ended(s.calls[t].pc.attempt))
    case Release(t) =>
      var a := s.calls[t].pc.attempt;
      var b := Block(s, t, a);
      if b !in Proc(s, t).held then Goto(s, t, Ended(a))
      else
        var dropped := SetHeld(s, t, Proc(s, t).held - {b});
        Goto(dropped.(bound := s.bound[Lock(b) := Local(t)]), t, Dropping(a))
    case Drop(t) =>
      var a := s.calls[t].pc.attempt;
      Goto(s.(bound := s.bound - {Lock(Block(s, t, a))}), t, Ended(a))
    case ForeignBind(e) => s.(bound := s.bound[e := Foreign])
    case ForeignClose(e) => s.(bound := s.bound - {e})
  }

  // ----- what every step keeps

  /** What the program's own variables say a holder keeps open. */
  predicate Keeps(s: System, h: Holder, e: Endpoint) {
    match h
    case Foreign => false
    case Registry(p) => p in s.procs && e == Lock(e.port - LOCK_OFFSET) && e.port - LOCK_OFFSET in s.procs[p].held
    case Local(t) =>
      && Known(s, t) && (s.calls[t].pc.Locked? || s.calls[t].pc.Dropping?)
      && e == Lock(Block(s, t, s.calls[t].pc.attempt))
    case ByProbe(t, i) =>
      && Known(s, t) && (s.calls[t].pc.Probing? || s.calls[t].pc.Closing?)
      && i < |s.calls[t].pc.probes| && i < |s.calls[t].unpinned|
      && e.port == Port(s, t, s.calls[t].pc.attempt, i)
      && match e.address
         case Any4 => s.calls[t].pc.probes[i].v4
         case Any6 => s.calls[t].pc.probes[i].v6
         case _ => false
  }

  /** The accounting of one holder and one endpoint. */
  ghost predicate AccountedAt(s: System, h: Holder, e: Endpoint) {
    Keeps(s, h, e) <==> h != Foreign && e in s.bound && s.bound[e] == h
  }

  /** Exact accounting: our entries of the table are those our variables keep open. */
  ghost predicate Accounted(s: System) {
    forall h, e :: AccountedAt(s, h, e)
  }

  predicate ProbeConsistent(p: Probe) {
    && p.v4 == (p.phase.Binding6? || p.phase.Unwinding? || p.phase.Proven?)
    && p.v6 == p.phase.Proven?
  }

  predicate CallConsistent(c: Call) {
    && (c.pc.Probing? || c.pc.Closing? ==> |c.pc.probes| == |c.unpinned|)
    && (c.pc.Probing? ==> forall p :: p in c.pc.probes ==> ProbeConsistent(p))
    && (!c.pc.Ready? && !c.pc.Pinned? && !c.pc.Retired? ==> c.unpinned != [])
  }

  ghost predicate Inv(s: System) {
    && (forall t :: t in s.calls ==> Known(s, t) && CallConsistent(s.calls[t]))
    && Accounted(s)
  }

  ghost predicate Init(s: System) {
    && (forall t :: t in s.calls ==> Known(s, t) && s.calls[t].pc.Ready?)
    && (forall p :: p in s.procs ==> s.procs[p].held == {})
    && (forall e :: e in s.bound ==> s.bound[e] == Foreign)
  }

  lemma InitInv(s: System)
    requires Init(s)
    ensures Inv(s)
  {
  }

  predicate Moves(step: Step, t: Tid) { !step.ForeignBind? && !step.ForeignClose? && step.t == t }

  /** The block a release takes out of its process's registry. */
  function Freed(s: System, step: Step, p: Pid): set<int>
    requires Enabled(s, step)
  {
    if step.Release? && s.calls[step.t].pid == p then {Block(s, step.t, s.calls[step.t].pc.attempt)} else {}
  }

  /** What a step leaves alone: every other call, every hash, and all locks but the freed one. */
  lemma {:induction false} StepFrame(s: System, step: Step, u: Tid)
    requires Enabled(s, step) && Known(s, u)
    ensures var s' := Apply(s, step);
      && Known(s', u) && s'.calls[u].pid == s.calls[u].pid && Proc(s', u).hash == Proc(s, u).hash
      && Proc(s, u).held - Freed(s, step, s.calls[u].pid) <= Proc(s', u).held
      && (!Moves(step, u) ==> s'.calls[u] == s.calls[u])
  {
    hide BlockAt, Publish, Unpinned, PinnedPorts, SetProbe;
    if step.Connect? || step.Bind4? || step.Bind6? || step.Unwind? || step.Close4? || step.Close6? {
      ProbeFrame(s, step, u);
    }
  }

  lemma {:induction false} ProbeFrame(s: System, step: Step, u: Tid)
    requires Enabled(s, step) && Known(s, u)
    requires step.Connect? || step.Bind4? || step.Bind6? || step.Unwind? || step.Close4? || step.Close6?
    ensures var s' := Apply(s, step); s'.procs == s.procs && s'.calls.Keys == s.calls.Keys
    ensures var s' := Apply(s, step); s'.calls[u].pid == s.calls[u].pid && (u != step.t ==> s'.calls[u] == s.calls[u])
  {
    hide BlockAt, Publish, Unpinned, PinnedPorts, Toggle;
  }

  lemma {:induction false} StepKeepsConsistency(s: System, step: Step, t: Tid)
    requires Inv(s) && Enabled(s, step) && t in s.calls
    ensures Known(Apply(s, step), t) && CallConsistent(Apply(s, step).calls[t])
  {
    hide BlockAt, Publish, Accounted, Apply, Enabled, CallConsistent;
    StepFrame(s, step, t);
    if Moves(step, t) {
      if step.Connect? || step.Bind4? || step.Bind6? || step.Unwind? || step.Close4? || step.Close6? {
        ProbeKeepsConsistency(s, step, t);
      } else {
        MoverKeepsConsistency(s, step, t);
      }
    }
  }

  lemma {:induction false} MoverKeepsConsistency(s: System, step: Step, t: Tid)
    requires Enabled(s, step) && Moves(step, t) && Known(s, t) && CallConsistent(s.calls[t])
    requires !step.Connect? && !step.Bind4? && !step.Bind6? && !step.Unwind? && !step.Close4? && !step.Close6?
    ensures CallConsistent(Apply(s, step).calls[t])
  {
    hide BlockAt, Publish, Unpinned, PinnedPorts;
  }

  lemma {:induction false} ProbeKeepsConsistency(s: System, step: Step, t: Tid)
    requires Enabled(s, step) && Moves(step, t) && Known(s, t) && CallConsistent(s.calls[t])
    requires step.Connect? || step.Bind4? || step.Bind6? || step.Unwind? || step.Close4? || step.Close6?
    ensures CallConsistent(Apply(s, step).calls[t])
  {
    hide BlockAt, Publish, Unpinned, PinnedPorts, Toggle;
  }

  lemma {:induction false} QuietStepAccounts(s: System, step: Step, h: Holder, e: Endpoint)
    requires Inv(s) && Enabled(s, step)
    requires step.Begin? || step.LockRefused? || step.Finish? || step.End?
    ensures AccountedAt(Apply(s, step), h, e)
  {
    hide BlockAt, Publish, Unpinned, PinnedPorts;
    assert AccountedAt(s, h, e);
  }

  lemma {:induction false} ForeignStepAccounts(s: System, step: Step, h: Holder, e: Endpoint)
    requires Inv(s) && Enabled(s, step) && (step.ForeignBind? || step.ForeignClose?)
    ensures AccountedAt(Apply(s, step), h, e)
  {
    hide BlockAt, Publish, Unpinned, PinnedPorts;
    assert AccountedAt(s, h, e);
  }

  /** A stage in which a call keeps nothing open. */
  predicate Idle(pc: Pc) {
    && !pc.Locked? && !pc.Dropping?
    && (pc.Probing? || pc.Closing? ==> forall p :: p in pc.probes ==> !p.v4 && !p.v6)
  }

  lemma {:induction false} IdleKeeps(s: System, t: Tid, pc: Pc, h: Holder, e: Endpoint)
    requires Known(s, t) && Idle(s.calls[t].pc) && Idle(pc)
    ensures Keeps(Goto(s, t, pc), h, e) == Keeps(s, h, e)
  {
    hide BlockAt;
    if h.ByProbe? && h.owner == t && (pc.Probing? || pc.Closing?) && h.index < |pc.probes| {
      assert pc.probes[h.index] in pc.probes;
    }
    var was := s.calls[t].pc;
    if h.ByProbe? && h.owner == t && (was.Probing? || was.Closing?) && h.index < |was.probes| {
      assert was.probes[h.index] in was.probes;
    }
  }

  lemma {:induction false} LookAccounts(s: System, step: Step, h: Holder, e: Endpoint)
    requires Inv(s) && Enabled(s, step) && step.Look?
    ensures AccountedAt(Apply(s, step), h, e)
  {
    hide BlockAt, Publish, Unpinned, PinnedPorts, CallConsistent, Keeps;
    assert AccountedAt(s, h, e);
    IdleKeeps(s, step.t, Apply(s, step).calls[step.t].pc, h, e);
  }

  lemma {:induction false} SettleAccounts(s: System, step: Step, h: Holder, e: Endpoint)
    requires Inv(s) && Enabled(s, step) && step.Settle?
    ensures AccountedAt(Apply(s, step), h, e)
  {
    hide BlockAt, Publish, Unpinned, PinnedPorts;
    assert AccountedAt(s, h, e);
  }

  lemma {:induction false} LockGrantedAccounts(s: System, step: Step, h: Holder, e: Endpoint)
    requires Inv(s) && Enabled(s, step) && step.LockGranted?
    ensures AccountedAt(Apply(s, step), h, e)
  {
    hide BlockAt, Publish, Unpinned, PinnedPorts;
    assert AccountedAt(s, h, e);
  }

  lemma {:induction false} RecordAccounts(s: System, step: Step, h: Holder, e: Endpoint)
    requires Inv(s) && Enabled(s, step) && step.Record?
    ensures AccountedAt(Apply(s, step), h, e)
  {
    hide BlockAt, Publish, Unpinned, PinnedPorts, CallConsistent;
    var lock := Lock(Block(s, step.t, s.calls[step.t].pc.attempt));
    assert AccountedAt(s, h, e);
    assert Keeps(s, Local(step.t), lock);
    assert AccountedAt(s, Local(step.t), lock);
  }

  lemma {:induction false} DropAccounts(s: System, step: Step, h: Holder, e: Endpoint)
    requires Inv(s) && Enabled(s, step) && step.Drop?
    ensures AccountedAt(Apply(s, step), h, e)
  {
    hide BlockAt, Publish, Unpinned, PinnedPorts, CallConsistent;
    var lock := Lock(Block(s, step.t, s.calls[step.t].pc.attempt));
    assert AccountedAt(s, h, e);
    assert Keeps(s, Local(step.t), lock);
    assert AccountedAt(s, Local(step.t), lock);
  }

  lemma {:induction false} ReleaseAccounts(s: System, step: Step, h: Holder, e: Endpoint)
    requires Inv(s) && Enabled(s, step) && step.Release?
    ensures AccountedAt(Apply(s, step), h, e)
  {
    hide BlockAt, Publish, Unpinned, PinnedPorts;
    var block := Block(s, step.t, s.calls[step.t].pc.attempt);
    var p := Registry(s.calls[step.t].pid);
    assert AccountedAt(s, h, e);
    assert Keeps(s, p, Lock(block)) <==> block in Proc(s, step.t).held;
    assert AccountedAt(s, p, Lock(block));
  }

  /** Moving a probe changes nothing that any other holder keeps open. */
  lemma {:induction false} SetProbeFrame(s: System, t: Tid, i: nat, p: Probe, h: Holder, e: Endpoint)
    requires Known(s, t) && (s.calls[t].pc.Probing? || s.calls[t].pc.Closing?)
    requires i < |s.calls[t].pc.probes| && i < |s.calls[t].unpinned| && h != ByProbe(t, i)
    ensures Keeps(SetProbe(s, t, i, p), h, e) == Keeps(s, h, e)
  {
    hide BlockAt, Publish, Unpinned, PinnedPorts;
  }

  /** Moving a probe keeps the accounting whenever the endpoints it opens were free. */
  lemma {:induction false} SetProbeAccounts(s: System, t: Tid, i: nat, p: Probe, h: Holder, e: Endpoint)
    requires Accounted(s) && Known(s, t) && (s.calls[t].pc.Probing? || s.calls[t].pc.Closing?)
    requires i < |s.calls[t].pc.probes| && i < |s.calls[t].unpinned|
    requires var port := Port(s, t, s.calls[t].pc.attempt, i);
             && (p.v4 && !s.calls[t].pc.probes[i].v4 ==> Endpoint(port, Any4) !in s.bound)
             && (p.v6 && !s.calls[t].pc.probes[i].v6 ==> Endpoint(port, Any6) !in s.bound)
    ensures AccountedAt(SetProbe(s, t, i, p), h, e)
  {
    hide BlockAt, Publish, Unpinned, PinnedPorts;
    var port := Port(s, t, s.calls[t].pc.attempt, i);
    assert AccountedAt(s, h, e);
    assert AccountedAt(s, ByProbe(t, i), Endpoint(port, Any4));
    assert AccountedAt(s, ByProbe(t, i), Endpoint(port, Any6));
    if h != ByProbe(t, i) {
      SetProbeFrame(s, t, i, p, h, e);
    }
  }

  lemma {:induction false} ProbeStepAccounts(s: System, step: Step, h: Holder, e: Endpoint)
    requires Inv(s) && Enabled(s, step)
    requires step.Connect? || step.Bind4? || step.Bind6? || step.Unwind? || step.Close4? || step.Close6?
    ensures AccountedAt(Apply(s, step), h, e)
  {
    hide BlockAt, Publish, Unpinned, PinnedPorts;
    var probes := s.calls[step.t].pc.probes;
    assert probes[step.i] in probes;
    SetProbeAccounts(s, step.t, step.i, Apply(s, step).calls[step.t].pc.probes[step.i], h, e);
  }

  lemma {:induction false} StepKeepsAccounting(s: System, step: Step)
    requires Inv(s) && Enabled(s, step)
    ensures Accounted(Apply(s, step))
  {
    hide AccountedAt, Apply, Enabled;
    forall h, e
      ensures AccountedAt(Apply(s, step), h, e)
    {
      match step
      case Look(_) => LookAccounts(s, step, h, e);
      case Settle(_) => SettleAccounts(s, step, h, e);
      case LockGranted(_) => LockGrantedAccounts(s, step, h, e);
      case Record(_) => RecordAccounts(s, step, h, e);
      case Drop(_) => DropAccounts(s, step, h, e);
      case Release(_) => ReleaseAccounts(s, step, h, e);
      case Connect(_, _, _) => ProbeStepAccounts(s, step, h, e);
      case Bind4(_, _, _) => ProbeStepAccounts(s, step, h, e);
      case Bind6(_, _, _) => ProbeStepAccounts(s, step, h, e);
      case Unwind(_, _) => ProbeStepAccounts(s, step, h, e);
      case Close4(_, _) => ProbeStepAccounts(s, step, h, e);
      case Close6(_, _) => ProbeStepAccounts(s, step, h, e);
      case ForeignBind(_) => ForeignStepAccounts(s, step, h, e);
      case ForeignClose(_) => ForeignStepAccounts(s, step, h, e);
      case _ => QuietStepAccounts(s, step, h, e);
    }
  }
}
