/** `isAddrInUse` and `claimAndBoot` (e2e/src/ports.ts): boot on claimed ports, retrying
    when the boot reports that an address is in use. */
module PortBoot {
  import opened PortBlocks
  import opened PortClaims
  import opened PortWalk
  import opened Texts

  /** What a boot throws: an error with its code, message and nested cause, or anything else. */
  datatype Thrown = NotAnError | Error(code: string, message: string, cause: Thrown)

  const EADDRINUSE := "EADDRINUSE"

  /** The error and its nested causes, outermost first. */
  function Links(e: Thrown): seq<Thrown> {
    if e.NotAnError? then [] else [e] + Links(e.cause)
  }

  ghost predicate NamesAddrInUse(e: Thrown) {
    e.Error? && (e.code == EADDRINUSE || Includes(e.message, EADDRINUSE))
  }

  ghost predicate AddrInUse(e: Thrown) {
    exists k :: 0 <= k < |Links(e)| && NamesAddrInUse(Links(e)[k])
  }

  /** An error counts when it says so itself or wraps, at any depth, one that does. */
  lemma {:induction false} InUseThroughCauses(e: Thrown)
    ensures AddrInUse(e) <==>
            e.Error? && (e.code == "EADDRINUSE" || Includes(e.message, "EADDRINUSE") || AddrInUse(e.cause))
  {
    hide Includes;
    if e.Error? {
      var links, causes := Links(e), Links(e.cause);
      assert links[0] == e && forall k :: 0 <= k < |causes| ==> links[k + 1] == causes[k];
      if AddrInUse(e.cause) {
        var k :| 0 <= k < |causes| && NamesAddrInUse(causes[k]);
        assert NamesAddrInUse(links[k + 1]);
      }
      if AddrInUse(e) && !NamesAddrInUse(e) {
        var k :| 0 <= k < |links| && NamesAddrInUse(links[k]);
        assert NamesAddrInUse(causes[k - 1]);
      }
    }
  }

  method IsAddrInUse(error: Thrown) returns (r: bool)
    ensures r == AddrInUse(error)
  {
    var cursor := error;
    ghost var i := 0;
    while cursor.Error?
      invariant 0 <= i <= |Links(error)| && Links(error)[i..] == Links(cursor)
      invariant forall k :: 0 <= k < i ==> !NamesAddrInUse(Links(error)[k])
      decreases cursor
    {
      assert Links(error)[i] == Links(error)[i..][0] == cursor;
      if cursor.code == EADDRINUSE { return true; }
      var at := IndexOf(cursor.message, EADDRINUSE, 0);
      if at != -1 { return true; }
      assert Links(error)[i + 1..] == Links(error)[i..][1..];
      cursor, i := cursor.cause, i + 1;
    }
    r := false;
  }

  // ----- claim and boot

  datatype BootOutcome<T> = Up(value: T) | Down(error: Thrown)

  /** What one call does, in order. */
  datatype Event =
    | ClaimEvent(ports: Ports)
    | BootEvent(ports: Ports, held: set<int>)
    | ReleaseEvent(release: Release)
    | TeardownEvent

  datatype BootResult<T> =
    | Running(ports: Ports, value: T, release: Release)
    | Threw(error: Thrown)
    | OutOfBlocks
    | NeverTried

  ghost predicate Retried<T>(o: BootOutcome<T>) { o.Down? && AddrInUse(o.error) }

  /** The boots end at the first outcome that is not retried, or at the last attempt. */
  ghost predicate EndsAfter<T>(outcomes: seq<BootOutcome<T>>, maxAttempts: nat, boots: nat) {
    && 1 <= boots <= maxAttempts <= |outcomes|
    && (forall i :: 0 <= i < boots - 1 ==> Retried(outcomes[i]))
    && (boots == maxAttempts || !Retried(outcomes[boots - 1]))
  }

  /** The state and the release of the claim made at a given attempt, counted from 0, of a
      call whose first claim gave `first`. */
  function StateAt(first: (World, Claimed), i: nat): World
    requires first.1.Claimed?
  {
    if i == 0 then first.0 else Released(first.0, first.1.release)
  }

  function ReleaseAt(first: (World, Claimed), i: nat): Release
    requires first.1.Claimed?
  {
    if i == 0 then first.1.release else NoRelease
  }

  /** The events of the attempt with number i. */
  function Round<T>(first: (World, Claimed), outcome: BootOutcome<T>, i: nat): seq<Event>
    requires first.1.Claimed?
  {
    [ClaimEvent(first.1.ports), BootEvent(first.1.ports, StateAt(first, i).held)]
    + (if outcome.Down? then [ReleaseEvent(ReleaseAt(first, i))] else [])
  }

  /** The events of the first n attempts. */
  function Rounds<T>(first: (World, Claimed), outcomes: seq<BootOutcome<T>>, n: nat): seq<Event>
    requires first.1.Claimed? && n <= |outcomes|
  {
    if n == 0 then [] else Rounds(first, outcomes, n - 1) + Round(first, outcomes[n - 1], n - 1)
  }

  /** The boots among the events, in order. */
  function Boots(log: seq<Event>): (r: seq<Event>)
    ensures forall i :: 0 <= i < |r| ==> r[i].BootEvent?
  {
    if log == [] then []
    else
      var n := |log| - 1;
      Boots(log[..n]) + (if log[n].BootEvent? then [log[n]] else [])
  }

  /** Every boot is given the ports the claim in state w returns. If that claim took a block, the
      first boot runs with the block locked and no later one does. */
  ghost predicate OnlyFirstBootIsLocked(w: World, cfg: Config, claims: seq<PortClaim>, boots: seq<Event>) {
    var first := Claim(w, cfg, claims).1;
    forall i :: 0 <= i < |boots| ==>
      && boots[i].BootEvent? && first.Claimed? && boots[i].ports == first.ports
      && (Unpinned(w.env, claims) != [] ==>
            first.release.ReleaseBlock? && (first.release.block in boots[i].held <==> i == 0))
  }

  /** What the call returns and leaves, given how its boots went. */
  ghost predicate Outcome<T>(first: (World, Claimed), outcomes: seq<BootOutcome<T>>, boots: nat, r: BootResult<T>,
                             w: World)
    requires first.1.Claimed? && 1 <= boots <= |outcomes|
  {
    match outcomes[boots - 1]
    case Up(value) => r == Running(first.1.ports, value, ReleaseAt(first, boots - 1)) && w == StateAt(first, boots - 1)
    case Down(error) => r == Threw(error) && w == Released(first.0, first.1.release)
  }

  /** `outcomes[i]` is what `boot` would do at attempt i. */
  method ClaimAndBoot<T>(p: Process, claims: seq<PortClaim>, outcomes: seq<BootOutcome<T>>, maxAttempts: nat)
    returns (r: BootResult<T>, log: seq<Event>, boots: nat)
    requires maxAttempts <= |outcomes|
    modifies p`table, p`heldLocks, p`env
    ensures maxAttempts == 0 ==> r == NeverTried && log == [] && p.Now() == old(p.Now())
    ensures maxAttempts > 0 ==>
      var first := Claim(old(p.Now()), p.cfg, claims);
      if first.1.Exhausted? then r == OutOfBlocks && log == [] && p.Now() == first.0
      else EndsAfter(outcomes, maxAttempts, boots) && log == Rounds(first, outcomes, boots)
           && Outcome(first, outcomes, boots, r, p.Now())
    ensures |Boots(log)| == boots && OnlyFirstBootIsLocked(old(p.Now()), p.cfg, claims, Boots(log))
    ensures boots <= maxAttempts
    ensures forall i :: 0 <= i < boots - 1 ==> outcomes[i].Down? && AddrInUse(outcomes[i].error)
    ensures r.Running? ==> boots > 0 && outcomes[boots - 1] == Up(r.value)
    ensures r.Threw? ==>
      boots > 0 && outcomes[boots - 1] == Down(r.error) && (boots == maxAttempts || !AddrInUse(r.error))
  {
    hide Claim, AddrInUse, OnlyFirstBootIsLocked, Boots;
    NoBoots(p.Now(), p.cfg, claims);
    ghost var w0 := p.Now();
    ghost var first := Claim(w0, p.cfg, claims);
    log, boots := [], 0;
    while boots < maxAttempts
      invariant 0 <= boots <= maxAttempts
      invariant boots == 0 ==> p.Now() == w0 && log == []
      invariant boots > 0 ==> first.1.Claimed? && p.Now() == Released(first.0, first.1.release)
                              && log == Rounds(first, outcomes, boots) && boots < maxAttempts
      invariant forall i :: 0 <= i < boots ==> Retried(outcomes[i])
    {
      if boots > 0 {
        ClaimAfterRelease(w0, p.cfg, claims);
      }
      var claimed := p.ClaimPorts(claims);
      if claimed.Exhausted? { return OutOfBlocks, log, boots; }
      assert claimed == Claimed(first.1.ports, ReleaseAt(first, boots)) && p.Now() == StateAt(first, boots);
      log := log + [ClaimEvent(claimed.ports), BootEvent(claimed.ports, p.heldLocks)];
      boots := boots + 1;
      match outcomes[boots - 1] {
        case Up(value) =>
          RetriesReuseThePorts(w0, p.cfg, claims, outcomes, boots);
          return Running(claimed.ports, value, claimed.release), log, boots;
        case Down(error) =>
          p.DoRelease(claimed.release);
          log := log + [ReleaseEvent(claimed.release)];
          RetriesReuseThePorts(w0, p.cfg, claims, outcomes, boots);
          var inUse := IsAddrInUse(error);
          if !inUse || boots == maxAttempts { return Threw(error), log, boots; }
      }
    }
    r := NeverTried;
  }

  /** The returned teardown: the caller's own first, then the release, which a throwing
      teardown skips. */
  method TearDown(p: Process, release: Release, succeeds: bool) returns (log: seq<Event>)
    modifies p`table, p`heldLocks
    ensures log == if succeeds then [TeardownEvent, ReleaseEvent(release)] else [TeardownEvent]
    ensures p.Now() == if succeeds then Released(old(p.Now()), release) else old(p.Now())
  {
    log := [TeardownEvent];
    if succeeds {
      p.DoRelease(release);
      log := log + [ReleaseEvent(release)];
    }
  }

  /** What is left of a claim that took the block of attempt k, once released: the locks of the
      blocks abandoned on the way stay, the claimed block's goes, even if it was held before. */
  predicate LeavesAbandonedLocks(w: World, w': World, cfg: Config, claims: seq<PortClaim>, k: nat) {
    var block, abandoned := BlockAt(cfg.hash, k), Taken(w, cfg, 0, k);
    && k < BLOCK_COUNT && NoneGood(w, cfg, claims, 0, k) && Good(w, cfg, claims, k)
    && w'.held == w.held + abandoned - {block}
    && w'.table == w.table + (set b | b in abandoned - w.held :: LockSocket(b)) - {LockSocket(block)}
    && w'.env == Publish(w.env, claims, block)
  }

  /** A suite: boot, then tear down what booted. However its boots went, once the call has thrown
      or its teardown has run, the process is left with the ports published and the abandoned
      blocks locked; a teardown that throws leaves the block of a first boot locked. */
  method BootAndTearDown<T>(p: Process, claims: seq<PortClaim>, outcomes: seq<BootOutcome<T>>, maxAttempts: nat,
                            succeeds: bool)
    returns (r: BootResult<T>, log: seq<Event>)
    requires 0 < maxAttempts <= |outcomes|
    modifies p`table, p`heldLocks, p`env
    ensures var unpinned := Unpinned(old(p.env), claims); var first := Claim(old(p.Now()), p.cfg, claims).1;
      first.Claimed? ==>
        && (r.Running? || r.Threw?)
        && (unpinned == [] ==> p.Now() == old(p.Now()))
        && (unpinned != [] && Claimable(unpinned) && (r.Threw? || succeeds) ==>
              exists k: nat :: LeavesAbandonedLocks(old(p.Now()), p.Now(), p.cfg, unpinned, k))
        && (unpinned != [] && r.Running? && !succeeds ==>
              first.release.ReleaseBlock? && (first.release.block in p.heldLocks <==> |Boots(log)| == 1))
    ensures r.Running? ==>
      var ending := if succeeds then [TeardownEvent, ReleaseEvent(r.release)] else [TeardownEvent];
      |ending| <= |log| && log[|log| - |ending|..] == ending && |Boots(log[..|log| - |ending|])| == |Boots(log)| >= 1
  {
    hide Claim, OnlyFirstBootIsLocked, LeavesAbandonedLocks, Unpinned, Boots, Rounds, Retried, Claimable;
    ghost var w := p.Now();
    ghost var boots;
    r, log, boots := ClaimAndBoot(p, claims, outcomes, maxAttempts);
    if Claim(w, p.cfg, claims).1.Claimed? {
      FirstClaimStates(w, p.cfg, claims);
      ReleaseLeavesAbandonedLocks(w, p.cfg, claims);
    }
    if r.Running? {
      var more := TearDown(p, r.release, succeeds);
      BootsAppend(log, more);
      TeardownBootsNothing(r.release);
      assert (log + more)[..|log|] == log;
      log := log + more;
    }
  }

  /** The claim of every attempt after the first: the ports of the first, and no lock. */
  lemma {:induction false} ClaimAfterRelease(w: World, cfg: Config, claims: seq<PortClaim>)
    requires Claim(w, cfg, claims).1.Claimed?
    ensures var first := Claim(w, cfg, claims); var released := Released(first.0, first.1.release);
      Claim(released, cfg, claims) == (released, Claimed(first.1.ports, NoRelease))
  {
    var first := Claim(w, cfg, claims);
    ReclaimReturnsTheSamePorts(w, cfg, claims, Released(first.0, first.1.release));
  }

  lemma NoBoots(w: World, cfg: Config, claims: seq<PortClaim>)
    ensures Boots([]) == [] && OnlyFirstBootIsLocked(w, cfg, claims, [])
  {
  }

  lemma {:induction false} TeardownBootsNothing(release: Release)
    ensures Boots([TeardownEvent]) == [] && Boots([TeardownEvent, ReleaseEvent(release)]) == []
  {
    assert [TeardownEvent, ReleaseEvent(release)] == [TeardownEvent] + [ReleaseEvent(release)];
    BootsAppend([TeardownEvent], [ReleaseEvent(release)]);
  }

  lemma {:induction false} BootsAppend(log: seq<Event>, more: seq<Event>)
    ensures Boots(log + more) == Boots(log) + Boots(more)
    decreases more
  {
    if more == [] {
      assert log + more == log;
    } else {
      var n := |more| - 1;
      assert (log + more)[..|log| + n] == log + more[..n];
      BootsAppend(log, more[..n]);
    }
  }

  lemma {:induction false} RoundBootsOnce<T>(first: (World, Claimed), outcome: BootOutcome<T>, i: nat)
    requires first.1.Claimed?
    ensures Boots(Round(first, outcome, i)) == [BootEvent(first.1.ports, StateAt(first, i).held)]
  {
    var claim, boot := ClaimEvent(first.1.ports), BootEvent(first.1.ports, StateAt(first, i).held);
    var tail := if outcome.Down? then [ReleaseEvent(ReleaseAt(first, i))] else [];
    assert Round(first, outcome, i) == [claim] + ([boot] + tail);
    BootsAppend([claim], [boot] + tail);
    BootsAppend([boot], tail);
  }

  lemma {:induction false} RoundsBoot<T>(first: (World, Claimed), outcomes: seq<BootOutcome<T>>, n: nat)
    requires first.1.Claimed? && n <= |outcomes|
    ensures var boots := Boots(Rounds(first, outcomes, n));
      |boots| == n && forall i :: 0 <= i < n ==> boots[i] == BootEvent(first.1.ports, StateAt(first, i).held)
  {
    assert Boots([]) == [];
    hide Boots, Round, StateAt;
    if n > 0 {
      RoundsBoot(first, outcomes, n - 1);
      BootsAppend(Rounds(first, outcomes, n - 1), Round(first, outcomes[n - 1], n - 1));
      RoundBootsOnce(first, outcomes[n - 1], n - 1);
    }
  }

  /** A retry boots on the ports of the first claim, and without the lock of its block. */
  lemma {:induction false} RetriesReuseThePorts<T>(w: World, cfg: Config, claims: seq<PortClaim>,
                                                   outcomes: seq<BootOutcome<T>>, n: nat)
    requires Claim(w, cfg, claims).1.Claimed? && n <= |outcomes|
    ensures var boots := Boots(Rounds(Claim(w, cfg, claims), outcomes, n));
      |boots| == n && OnlyFirstBootIsLocked(w, cfg, claims, boots)
  {
    hide Boots, Rounds, Claim;
    RoundsBoot(Claim(w, cfg, claims), outcomes, n);
    if Unpinned(w.env, claims) != [] {
      ClaimedBlockIsLocked(w, cfg, claims);
    }
  }

  /** The block a claim returns is locked by the process, and its release unlocks it. */
  lemma {:induction false} ClaimedBlockIsLocked(w: World, cfg: Config, claims: seq<PortClaim>)
    requires Claim(w, cfg, claims).1.Claimed? && Unpinned(w.env, claims) != []
    ensures var first := Claim(w, cfg, claims);
      && first.1.release.ReleaseBlock? && first.1.release.block in first.0.held
      && first.1.release.block !in Released(first.0, first.1.release).held
  {
    WalkKeepsEnv(w, cfg, Unpinned(w.env, claims), 0);
  }

  lemma {:induction false} FirstClaimStates(w: World, cfg: Config, claims: seq<PortClaim>)
    requires Claim(w, cfg, claims).1.Claimed?
    ensures var first := Claim(w, cfg, claims);
      && (Unpinned(w.env, claims) == [] ==> first.0 == w && first.1.release == NoRelease)
      && (Unpinned(w.env, claims) != [] ==>
            first.1.release.ReleaseBlock? && first.1.release.block in first.0.held
            && first.1.release.block !in Released(first.0, first.1.release).held)
  {
    if Unpinned(w.env, claims) != [] {
      ClaimedBlockIsLocked(w, cfg, claims);
    }
  }

  lemma TakenOneMore(w: World, cfg: Config, k: nat)
    requires Obtainable(w, cfg, BlockAt(cfg.hash, k))
    ensures Taken(w, cfg, 0, k + 1) == Taken(w, cfg, 0, k) + {BlockAt(cfg.hash, k)}
  {
  }

  lemma {:induction false} ReleaseLeavesAbandonedLocks(w: World, cfg: Config, claims: seq<PortClaim>)
    requires Claim(w, cfg, claims).1.Claimed?
    ensures var first := Claim(w, cfg, claims); var unpinned := Unpinned(w.env, claims);
      unpinned != [] && Claimable(unpinned) ==>
        exists k: nat :: LeavesAbandonedLocks(w, Released(first.0, first.1.release), cfg, unpinned, k)
  {
    hide Walk, NoneGood, Publish, NewPorts, PinnedPorts, Obtainable;
    var unpinned := Unpinned(w.env, claims);
    if unpinned != [] && Claimable(unpinned) {
      var first := Claim(w, cfg, claims);
      var k := WalkFindsFirstGoodBlock(w, cfg, unpinned, 0);
      TakenOneMore(w, cfg, k);
      assert LeavesAbandonedLocks(w, Released(first.0, first.1.release), cfg, unpinned, k);
    }
  }
}
