/** What the walk of `claimPorts` finds, and what a second claim gets. */
module PortWalk {
  import opened PortBlocks
  import opened PortClaims

  /** The offsets the block layout leaves to claims: all but the lock port. */
  predicate Claimable(claims: seq<PortClaim>) {
    forall c :: c in claims ==> c.offset < LOCK_OFFSET
  }

  /** Judged on one table: the block's lock is to be had and its ports are free. */
  predicate Good(w: World, cfg: Config, claims: seq<PortClaim>, attempt: nat) {
    var block := BlockAt(cfg.hash, attempt);
    Obtainable(w, cfg, block) && AllFree(w.table, PortsIn(block, claims), cfg.exclusive)
  }

  function Taken(w: World, cfg: Config, from: nat, to: nat): set<int> {
    set k: nat | from <= k < to && Obtainable(w, cfg, BlockAt(cfg.hash, k)) :: BlockAt(cfg.hash, k)
  }

  /** The world once the walk has locked what it could at these attempts: its probes are
      gone and the only new sockets are the new locks. */
  predicate OnlyLocksAdded(w: World, w': World, cfg: Config, from: nat, to: nat) {
    && w'.held == w.held + Taken(w, cfg, from, to)
    && w'.table == w.table + (set b | b in Taken(w, cfg, from, to) - w.held :: LockSocket(b))
    && w'.env == w.env
  }

  lemma LockLeavesPortFree(table: Table, block: int, port: int, exclusive: bool)
    requires port != block + LOCK_OFFSET
    ensures Free(table + {LockSocket(block)}, port, exclusive) == Free(table, port, exclusive)
  {
  }

  lemma {:induction false} LockLeavesPortsFree(w: World, locked: int, block: int, cfg: Config, claims: seq<PortClaim>)
    requires Claimable(claims) && Aligned(locked) && Aligned(block)
    ensures AllFree(WithLock(w, locked).table, PortsIn(block, claims), cfg.exclusive)
        <==> AllFree(w.table, PortsIn(block, claims), cfg.exclusive)
  {
    var ports := PortsIn(block, claims);
    forall i | 0 <= i < |ports|
      ensures Free(WithLock(w, locked).table, ports[i], cfg.exclusive) == Free(w.table, ports[i], cfg.exclusive)
    {
      assert claims[i] in claims;
      if locked != block {
        PortsOfDistinctBlocksDiffer(locked, block, LOCK_OFFSET, claims[i].offset);
      }
      LockLeavesPortFree(w.table, locked, ports[i], cfg.exclusive);
    }
  }

  /** Locking one block does not change how a later attempt is judged. */
  lemma {:induction false} LockLeavesOthersGood(w: World, cfg: Config, claims: seq<PortClaim>, a: nat, k: nat)
    requires Claimable(claims) && a < k < BLOCK_COUNT
    ensures var w' := WithLock(w, BlockAt(cfg.hash, a));
      && (Good(w', cfg, claims, k) <==> Good(w, cfg, claims, k))
      && (Obtainable(w', cfg, BlockAt(cfg.hash, k)) <==> Obtainable(w, cfg, BlockAt(cfg.hash, k)))
  {
    WalkDoesNotRepeat(cfg.hash, a, k);
    BlockAtIndex(cfg.hash, a);
    BlockAtIndex(cfg.hash, k);
    LockLeavesPortsFree(w, BlockAt(cfg.hash, a), BlockAt(cfg.hash, k), cfg, claims);
  }

  lemma OnlyLocksAddedStepsOn(w: World, w': World, cfg: Config, claims: seq<PortClaim>, a: nat, to: nat)
    requires Claimable(claims) && a < to <= BLOCK_COUNT
    requires var b := BlockAt(cfg.hash, a);
      OnlyLocksAdded(if Obtainable(w, cfg, b) then WithLock(w, b) else w, w', cfg, a + 1, to)
    ensures OnlyLocksAdded(w, w', cfg, a, to)
  {
  }

  /** The walk's result: the block of attempt k, or none when k is the last attempt, with no
      good block before it and only locks left behind. */
  predicate StopsAt(w: World, cfg: Config, claims: seq<PortClaim>, a: nat, k: nat, r: Walked) {
    && a <= k <= BLOCK_COUNT
    && NoneGood(w, cfg, claims, a, k)
    && if k == BLOCK_COUNT then
         r.NoBlock? && OnlyLocksAdded(w, r.world, cfg, a, k)
       else
         && r.Walked? && r.block == BlockAt(cfg.hash, k) && Good(w, cfg, claims, k)
         && OnlyLocksAdded(w, r.world, cfg, a, k + 1)
  }

  predicate NoneGood(w: World, cfg: Config, claims: seq<PortClaim>, from: nat, to: nat) {
    forall j: nat :: from <= j < to ==> !Good(w, cfg, claims, j)
  }

  lemma {:induction false} NoneGoodStepsOn(w: World, w1: World, cfg: Config, claims: seq<PortClaim>, a: nat, k: nat)
    requires Claimable(claims) && a < k <= BLOCK_COUNT
    requires w1 == w || w1 == WithLock(w, BlockAt(cfg.hash, a))
    requires !Good(w, cfg, claims, a) && NoneGood(w1, cfg, claims, a + 1, k)
    ensures NoneGood(w, cfg, claims, a, k)
  {
    forall j: nat | a < j < k
      ensures !Good(w, cfg, claims, j)
    {
      LockLeavesOthersGood(w, cfg, claims, a, j);
    }
  }

  lemma {:induction false} StopsAtStepsOn(w: World, w1: World, cfg: Config, claims: seq<PortClaim>, a: nat, k: nat,
                                          r: Walked)
    requires Claimable(claims) && a < BLOCK_COUNT && !Good(w, cfg, claims, a)
    requires w1 == if Obtainable(w, cfg, BlockAt(cfg.hash, a)) then WithLock(w, BlockAt(cfg.hash, a)) else w
    requires StopsAt(w1, cfg, claims, a + 1, k, r)
    ensures StopsAt(w, cfg, claims, a, k, r)
  {
    NoneGoodStepsOn(w, w1, cfg, claims, a, k);
    if k < BLOCK_COUNT {
      LockLeavesOthersGood(w, cfg, claims, a, k);
      OnlyLocksAddedStepsOn(w, r.world, cfg, claims, a, k + 1);
    } else {
      OnlyLocksAddedStepsOn(w, r.world, cfg, claims, a, k);
    }
  }

  /** With nothing else changing the table, the walk takes the first good block at or
      after its attempt, fails exactly when there is none, and leaves only locks behind. */
  lemma {:induction false} WalkFindsFirstGoodBlock(w: World, cfg: Config, claims: seq<PortClaim>,
                                                   a: nat) returns (k: nat)
    requires Claimable(claims) && a <= BLOCK_COUNT
    ensures StopsAt(w, cfg, claims, a, k, Walk(w, cfg, claims, a))
    decreases BLOCK_COUNT - a
  {
    hide AllFree, Claimable;
    k := a;
    if a < BLOCK_COUNT {
      var b := BlockAt(cfg.hash, a);
      BlockAtIndex(cfg.hash, a);
      LockLeavesPortsFree(w, b, b, cfg, claims);
      if Good(w, cfg, claims, a) {
        OnlyLocksAddedStepsOn(w, WithLock(w, b), cfg, claims, a, a + 1);
      } else {
        var w1 := if Obtainable(w, cfg, b) then WithLock(w, b) else w;
        k := WalkFindsFirstGoodBlock(w1, cfg, claims, a + 1);
        StopsAtStepsOn(w, w1, cfg, claims, a, k, Walk(w1, cfg, claims, a + 1));
      }
    }
  }

  /** A held block's lock listener is open. */
  predicate LocksListen(w: World) {
    forall b :: b in w.held ==> LockSocket(b) in w.table
  }

  lemma {:induction false} LockOffsetEndsTheWalk(w: World, cfg: Config, claims: seq<PortClaim>, i: nat, a: nat)
    requires LocksListen(w) && i < |claims| && claims[i].offset == LOCK_OFFSET && a <= BLOCK_COUNT
    ensures Walk(w, cfg, claims, a).NoBlock?
    decreases BLOCK_COUNT - a
  {
    if a < BLOCK_COUNT {
      var b := BlockAt(cfg.hash, a);
      if Obtainable(w, cfg, b) {
        assert LockSocket(b) in WithLock(w, b).table;
        assert Answers(WithLock(w, b).table, PortsIn(b, claims)[i], V4);
        LockOffsetEndsTheWalk(WithLock(w, b), cfg, claims, i, a + 1);
      } else {
        LockOffsetEndsTheWalk(w, cfg, claims, i, a + 1);
      }
    }
  }

  /** What happens to a process's world: a claim, a release, or other programs changing the table,
      which cannot close a lock the process holds. */
  datatype Deed =
    | ClaimDeed(claims: seq<PortClaim>)
    | ReleaseDeed(release: Release)
    | OthersDeed(added: Table, closed: Table)

  function Done(w: World, cfg: Config, deed: Deed): World {
    match deed
    case ClaimDeed(claims) => Claim(w, cfg, claims).0
    case ReleaseDeed(release) => Released(w, release)
    case OthersDeed(added, closed) =>
      w.(table := w.table - (closed - (set b | b in w.held :: LockSocket(b))) + added)
  }

  function AllDone(w: World, cfg: Config, deeds: seq<Deed>): World
    decreases deeds
  {
    if deeds == [] then w else AllDone(Done(w, cfg, deeds[0]), cfg, deeds[1..])
  }

  lemma {:induction false} WalkKeepsListening(w: World, cfg: Config, claims: seq<PortClaim>, a: nat)
    requires LocksListen(w) && a <= BLOCK_COUNT
    ensures LocksListen(Walk(w, cfg, claims, a).world)
    decreases BLOCK_COUNT - a
  {
    if a < BLOCK_COUNT {
      WalkKeepsListening(w, cfg, claims, a + 1);
      WalkKeepsListening(WithLock(w, BlockAt(cfg.hash, a)), cfg, claims, a + 1);
    }
  }

  lemma {:induction false} DeedsKeepListening(w: World, cfg: Config, deeds: seq<Deed>)
    requires LocksListen(w)
    ensures LocksListen(AllDone(w, cfg, deeds))
    decreases deeds
  {
    if deeds != [] {
      hide Walk, Unpinned, PinnedPorts, NewPorts, Publish;
      var deed := deeds[0];
      if deed.ClaimDeed? { WalkKeepsListening(w, cfg, Unpinned(w.env, deed.claims), 0); }
      DeedsKeepListening(Done(w, cfg, deed), cfg, deeds[1..]);
    }
  }

  /** Whatever a process has claimed and released since it began, and whatever other programs have
      done, a claim on the lock offset is never met: the block's own lock answers its probe. */
  lemma {:induction false} LockOffsetIsNeverClaimed(table: Table, env: Env, cfg: Config, deeds: seq<Deed>,
                                                    claims: seq<PortClaim>)
    requires var w := AllDone(World(table, {}, env), cfg, deeds);
      exists c :: c in claims && c.offset == LOCK_OFFSET && !IsPinned(w.env, c)
    ensures Claim(AllDone(World(table, {}, env), cfg, deeds), cfg, claims).1.Exhausted?
  {
    var w := AllDone(World(table, {}, env), cfg, deeds);
    var unpinned := Unpinned(w.env, claims);
    var c :| c in claims && c.offset == LOCK_OFFSET && !IsPinned(w.env, c);
    assert c in unpinned;
    var i :| 0 <= i < |unpinned| && unpinned[i] == c;
    hide Walk, Unpinned;
    DeedsKeepListening(World(table, {}, env), cfg, deeds);
    LockOffsetEndsTheWalk(w, cfg, unpinned, i, 0);
  }

  // ----- what a claim returns

  function EnvVars(claims: seq<PortClaim>): set<string> { set c | c in claims :: c.envVar }

  ghost predicate PortOf(claims: seq<PortClaim>, v: string, block: int, port: JsNumber) {
    exists c :: c in claims && c.envVar == v && port == Number(block + c.offset)
  }

  lemma {:induction false} PortsComeFromTheBlock(ports: Ports, claims: seq<PortClaim>, block: int, v: string)
    requires v in NewPorts(ports, claims, block)
    ensures var r := NewPorts(ports, claims, block);
      if v in EnvVars(claims) then PortOf(claims, v, block, r[v]) else v in ports && r[v] == ports[v]
    decreases claims
  {
    if claims != [] {
      var c := claims[0];
      assert claims == [c] + claims[1..];
      PortsComeFromTheBlock(ports[c.envVar := Number(block + c.offset)], claims[1..], block, v);
    }
  }

  lemma {:induction false} WalkedPortsWereFree(w: World, cfg: Config, claims: seq<PortClaim>, c: PortClaim)
    requires Claimable(claims) && c in claims && Walk(w, cfg, claims, 0).Walked?
    ensures Free(w.table, Walk(w, cfg, claims, 0).block + c.offset, cfg.exclusive)
  {
    hide Walk, OnlyLocksAdded, NoneGood, Free;
    var k := WalkFindsFirstGoodBlock(w, cfg, claims, 0);
    var block := BlockAt(cfg.hash, k);
    var i :| 0 <= i < |claims| && claims[i] == c;
    assert PortsIn(block, claims)[i] == block + c.offset;
  }

  /** The port is one of the block's, at the offset of a claim on the variable, and free. */
  ghost predicate FreePortOf(w: World, cfg: Config, claims: seq<PortClaim>, v: string, block: int, port: JsNumber) {
    exists c :: c in claims && c.envVar == v && port == Number(block + c.offset)
      && Free(w.table, block + c.offset, cfg.exclusive)
  }

  lemma {:induction false} WalkedPortIsFree(w: World, cfg: Config, claims: seq<PortClaim>, v: string, port: JsNumber)
    requires Claimable(claims) && Walk(w, cfg, claims, 0).Walked?
    requires PortOf(claims, v, Walk(w, cfg, claims, 0).block, port)
    ensures FreePortOf(w, cfg, claims, v, Walk(w, cfg, claims, 0).block, port)
  {
    hide Walk, Free, Claimable;
    var block := Walk(w, cfg, claims, 0).block;
    var c :| c in claims && c.envVar == v && port == Number(block + c.offset);
    WalkedPortsWereFree(w, cfg, claims, c);
  }

  /** Every port a claim returns for an unpinned variable lies in the claimed block, at the offset
      of a claim on that variable, and was free in the table; a pinned variable is read back. */
  lemma {:induction false} ClaimReturnsFreePorts(w: World, cfg: Config, claims: seq<PortClaim>, v: string)
    requires Claim(w, cfg, claims).1.Claimed? && Claimable(Unpinned(w.env, claims))
    requires v in Claim(w, cfg, claims).1.ports
    ensures var r := Claim(w, cfg, claims).1;
      if v in EnvVars(Unpinned(w.env, claims))
      then r.release.ReleaseBlock? && FreePortOf(w, cfg, Unpinned(w.env, claims), v, r.release.block, r.ports[v])
      else v in w.env && w.env[v] == Text(r.ports[v])
  {
    hide Walk, NewPorts, Claimable, PortOf, FreePortOf;
    var unpinned := Unpinned(w.env, claims);
    if unpinned != [] {
      hide Unpinned;
      var block := Walk(w, cfg, unpinned, 0).block;
      PortsComeFromTheBlock(PinnedPorts(w.env, claims), unpinned, block, v);
      hide EnvVars, PinnedPorts;
      if v in EnvVars(unpinned) {
        WalkedPortIsFree(w, cfg, unpinned, v, Claim(w, cfg, claims).1.ports[v]);
      }
    }
  }

  // ----- claiming again

  lemma {:induction false} ResultMirrorsEnvironment(ports: Ports, env: Env, claims: seq<PortClaim>, block: int)
    requires forall v :: v in ports ==> v in env && env[v] == Text(ports[v])
    ensures var r, e := NewPorts(ports, claims, block), Publish(env, claims, block);
      && (forall v :: v in r ==> v in e && e[v] == Text(r[v]))
      && r.Keys == ports.Keys + EnvVars(claims)
    decreases claims
  {
    if claims != [] {
      var c := claims[0];
      var port := Number(block + c.offset);
      ResultMirrorsEnvironment(ports[c.envVar := port], env[c.envVar := Text(port)], claims[1..], block);
      assert claims == [c] + claims[1..];
    }
  }

  /** A claim returns a port for every variable asked for, and for no other. */
  lemma {:induction false} ClaimReturnsEveryVariable(w: World, cfg: Config, claims: seq<PortClaim>)
    requires Claim(w, cfg, claims).1.Claimed?
    ensures Claim(w, cfg, claims).1.ports.Keys == EnvVars(claims)
  {
    hide Walk, NewPorts, Publish;
    VariablesSplit(w.env, claims);
    var unpinned, pinned := Unpinned(w.env, claims), PinnedPorts(w.env, claims);
    if unpinned != [] {
      hide Unpinned, EnvVars, PinnedPorts;
      ResultMirrorsEnvironment(pinned, w.env, unpinned, Walk(w, cfg, unpinned, 0).block);
    }
  }

  lemma {:induction false} PublishedAreAllPinned(env: Env, claims: seq<PortClaim>, block: int)
    ensures forall c :: c in claims ==> IsPinned(Publish(env, Unpinned(env, claims), block), c)
  {
    hide Publish;
    var unpinned := Unpinned(env, claims);
    PublishPins(env, unpinned, block);
    forall c | c in claims
      ensures IsPinned(Publish(env, unpinned, block), c)
    {
      if !IsPinned(env, c) { assert c in unpinned; }
    }
  }

  /** The environment a claim publishes reads back as the ports it returned. */
  lemma {:induction false} PublishedPortsReadBack(env: Env, claims: seq<PortClaim>, block: int)
    ensures PinnedPorts(Publish(env, Unpinned(env, claims), block), claims)
         == NewPorts(PinnedPorts(env, claims), Unpinned(env, claims), block)
  {
    hide Publish, NewPorts;
    var unpinned, pinned := Unpinned(env, claims), PinnedPorts(env, claims);
    var later := Publish(env, unpinned, block);
    ResultMirrorsEnvironment(pinned, env, unpinned, block);
    PublishedAreAllPinned(env, claims, block);
    PinnedKeys(later, claims);
    VariablesSplit(env, claims);
    hide PinnedPorts, Unpinned, EnvVars;
    var ports, back := NewPorts(pinned, unpinned, block), PinnedPorts(later, claims);
    assert ports.Keys == back.Keys;
  }

  lemma PinnedKeys(env: Env, claims: seq<PortClaim>)
    requires forall c :: c in claims ==> IsPinned(env, c)
    ensures PinnedPorts(env, claims).Keys == EnvVars(claims)
  {
  }

  /** Every variable is read back as pinned or claimed as unpinned. */
  lemma VariablesSplit(env: Env, claims: seq<PortClaim>)
    ensures EnvVars(claims) == PinnedPorts(env, claims).Keys + EnvVars(Unpinned(env, claims))
  {
  }

  /** After a successful claim, the same claims get the same ports back, take no lock, touch
      nothing and have nothing to release: whatever has happened to the table and the locks,
      so long as the environment is unchanged. */
  lemma {:induction false} ReclaimReturnsTheSamePorts(w: World, cfg: Config, claims: seq<PortClaim>, later: World)
    requires Claim(w, cfg, claims).1.Claimed? && later.env == Claim(w, cfg, claims).0.env
    ensures Claim(later, cfg, claims) == (later, Claimed(Claim(w, cfg, claims).1.ports, NoRelease))
  {
    hide Publish, NewPorts, PinnedPorts, Walk, Unpinned;
    var unpinned := Unpinned(w.env, claims);
    if unpinned != [] {
      var block := Walk(w, cfg, unpinned, 0).block;
      WalkKeepsEnv(w, cfg, unpinned, 0);
      PublishedAreAllPinned(w.env, claims, block);
      UnpinnedIsEmpty(later.env, claims);
      PublishedPortsReadBack(w.env, claims, block);
    }
  }

  lemma {:induction false} WalkKeepsEnv(w: World, cfg: Config, claims: seq<PortClaim>, a: nat)
    requires a <= BLOCK_COUNT
    ensures Walk(w, cfg, claims, a).world.env == w.env
    ensures var r := Walk(w, cfg, claims, a); r.Walked? ==> r.block in r.world.held
    decreases BLOCK_COUNT - a
  {
    if a < BLOCK_COUNT {
      WalkKeepsEnv(w, cfg, claims, a + 1);
      WalkKeepsEnv(WithLock(w, BlockAt(cfg.hash, a)), cfg, claims, a + 1);
    }
  }
}
