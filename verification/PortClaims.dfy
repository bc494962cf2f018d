/** One process's `claimPorts` and its `release` (e2e/src/ports.ts), run against a socket
    table that nothing else changes meanwhile. */
module PortClaims {
  import opened PortBlocks

  // ----- the socket table

  datatype Family = V4 | V6
  datatype Address = Loopback | Wildcard | Routed(id: nat)
  datatype Socket = Socket(port: int, family: Family, address: Address, listening: bool)
  type Table = set<Socket>

  /** Whether two sockets exclude each other; a wildcard excludes every address of its
      family on platforms where wildcard binds are exclusive. */
  predicate Overlaps(a: Socket, b: Socket, exclusive: bool) {
    && a.port == b.port && a.family == b.family
    && (a.address == b.address || (exclusive && (a.address.Wildcard? || b.address.Wildcard?)))
  }

  predicate CanBind(table: Table, s: Socket, exclusive: bool) {
    forall o :: o in table ==> !Overlaps(o, s, exclusive)
  }

  /** A connect to the family's loopback address would be accepted. */
  predicate Answers(table: Table, port: int, family: Family) {
    exists o :: o in table && o.port == port && o.family == family && o.listening && !o.address.Routed?
  }

  function LockSocket(block: int): Socket { Socket(block + LOCK_OFFSET, V4, Loopback, true) }
  function Probe4(port: int): Socket { Socket(port, V4, Wildcard, true) }
  function Probe6(port: int): Socket { Socket(port, V6, Wildcard, true) }

  predicate Free(table: Table, port: int, exclusive: bool) {
    && !Answers(table, port, V4) && !Answers(table, port, V6)
    && CanBind(table, Probe4(port), exclusive) && CanBind(table, Probe6(port), exclusive)
  }

  /** A port is free exactly when nothing listens on it on a loopback or wildcard address of either
      family, no wildcard address of it is bound and, where wildcard binds exclude all others, no
      address at all. */
  lemma {:induction false} FreeExactlyWhen(table: Table, port: int, exclusive: bool)
    ensures Free(table, port, exclusive) <==>
      forall o :: o in table && o.port == port ==>
        !o.address.Wildcard? && !exclusive && !(o.listening && o.address.Loopback?)
  {
    forall o | o in table && o.port == port
      ensures Free(table, port, exclusive) ==>
        !o.address.Wildcard? && !exclusive && !(o.listening && o.address.Loopback?)
    {
      if Free(table, port, exclusive) {
        assert !Overlaps(o, Probe4(port), exclusive) && !Overlaps(o, Probe6(port), exclusive);
        assert Answers(table, port, V4) <==> false;
      }
    }
  }

  /** The lock of a block is to be had exactly when no other socket has its port on the IPv4
      loopback address, nor, where wildcard binds exclude all others, on the IPv4 wildcard. */
  lemma {:induction false} LockExactlyWhen(table: Table, block: int, exclusive: bool)
    ensures CanBind(table, LockSocket(block), exclusive) <==>
      forall o :: o in table && o.port == block + 9 && o.family == V4 ==>
        !o.address.Loopback? && (exclusive ==> !o.address.Wildcard?)
  {
    forall o | o in table
      ensures Overlaps(o, LockSocket(block), exclusive) <==>
        o.port == block + 9 && o.family == V4 && (o.address.Loopback? || (exclusive && o.address.Wildcard?))
    {
    }
  }

  function PortsIn(block: int, claims: seq<PortClaim>): (r: seq<int>)
    ensures |r| == |claims| && forall i :: 0 <= i < |r| ==> r[i] == block + claims[i].offset
  {
    seq(|claims|, i requires 0 <= i < |claims| => block + claims[i].offset)
  }

  /** Every port free, and no port asked for twice. */
  predicate AllFree(table: Table, ports: seq<int>, exclusive: bool) {
    && (forall i :: 0 <= i < |ports| ==> Free(table, ports[i], exclusive))
    && (forall i, j :: 0 <= i < j < |ports| ==> ports[i] != ports[j])
  }

  function Elements(ports: seq<int>): set<int> { set p | p in ports }

  function ProbesOf(ports: set<int>): Table {
    (set p | p in ports :: Probe4(p)) + (set p | p in ports :: Probe6(p))
  }

  /** Listeners open on other ports do not change whether a port is free. */
  lemma FreeBesideProbes(table: Table, open: set<int>, port: int, exclusive: bool)
    ensures Free(table + ProbesOf(open), port, exclusive) <==> Free(table, port, exclusive) && port !in open
  {
  }

  lemma ProbesOfMore(open: set<int>, port: int)
    ensures ProbesOf(open + {port}) == ProbesOf(open) + {Probe4(port), Probe6(port)}
  {
  }

  lemma AllFreeExtends(table: Table, ports: seq<int>, i: nat, exclusive: bool)
    requires i < |ports|
    ensures AllFree(table, ports[..i + 1], exclusive) <==>
              AllFree(table, ports[..i], exclusive) && Free(table, ports[i], exclusive) && ports[i] !in ports[..i]
    ensures Elements(ports[..i + 1]) == Elements(ports[..i]) + {ports[i]}
  {
  }

  lemma FreePortsHaveNoProbe(table: Table, open: set<int>, exclusive: bool)
    requires forall p :: p in open ==> Free(table, p, exclusive)
    ensures table + ProbesOf(open) - ProbesOf(open) == table
  {
  }

  // ----- the walk, as a function of the process's state

  datatype Config = Config(hash: nat, exclusive: bool)
  datatype World = World(table: Table, held: set<int>, env: Env)

  predicate Obtainable(w: World, cfg: Config, block: int) {
    block in w.held || CanBind(w.table, LockSocket(block), cfg.exclusive)
  }

  function WithLock(w: World, block: int): World {
    if block in w.held then w else w.(table := w.table + {LockSocket(block)}, held := w.held + {block})
  }

  datatype Walked = Walked(world: World, block: int) | NoBlock(world: World)

  function Walk(w: World, cfg: Config, claims: seq<PortClaim>, attempt: nat): Walked
    requires attempt <= BLOCK_COUNT
    decreases BLOCK_COUNT - attempt
  {
    if attempt == BLOCK_COUNT then NoBlock(w)
    else
      var block := BlockAt(cfg.hash, attempt);
      if !Obtainable(w, cfg, block) then Walk(w, cfg, claims, attempt + 1)
      else
        var locked := WithLock(w, block);
        if AllFree(locked.table, PortsIn(block, claims), cfg.exclusive) then Walked(locked, block)
        else Walk(locked, cfg, claims, attempt + 1)
  }

  /** What a returned `release` does: nothing, or give up one block. */
  datatype Release = NoRelease | ReleaseBlock(block: int)
  datatype Claimed = Claimed(ports: Ports, release: Release) | Exhausted

  function NewPorts(ports: Ports, claims: seq<PortClaim>, block: int): (r: Ports)
    decreases claims
  {
    if claims == [] then ports
    else NewPorts(ports[claims[0].envVar := Number(block + claims[0].offset)], claims[1..], block)
  }

  /** The whole call: the state it leaves and what it returns. */
  function Claim(w: World, cfg: Config, claims: seq<PortClaim>): (World, Claimed) {
    var unpinned := Unpinned(w.env, claims);
    var pinned := PinnedPorts(w.env, claims);
    if unpinned == [] then (w, Claimed(pinned, NoRelease))
    else match Walk(w, cfg, unpinned, 0)
      case NoBlock(w') => (w', Exhausted)
      case Walked(w', block) =>
        (w'.(env := Publish(w'.env, unpinned, block)),
         Claimed(NewPorts(pinned, unpinned, block), ReleaseBlock(block)))
  }

  function Released(w: World, r: Release): World {
    if r.NoRelease? || r.block !in w.held then w
    else w.(table := w.table - {LockSocket(r.block)}, held := w.held - {r.block})
  }

  // ----- the process

  class Process {
    const cfg: Config
    var table: Table
    var heldLocks: set<int>
    var env: Env

    constructor (cfg: Config, table: Table, env: Env)
      ensures this.cfg == cfg && Now() == World(table, {}, env)
    {
      this.cfg, this.table, this.heldLocks, this.env := cfg, table, {}, env;
    }

    function Now(): World
      reads this
    {
      World(table, heldLocks, env)
    }

    /** Leaves both wildcard listeners open exactly when the port is free; a failed v6
        bind closes the v4 listener again. */
    method BindProbe(port: int) returns (ok: bool)
      modifies this`table
      ensures ok == Free(old(table), port, cfg.exclusive)
      ensures table == if ok then old(table) + {Probe4(port), Probe6(port)} else old(table)
    {
      if Answers(table, port, V4) || Answers(table, port, V6) { return false; }
      if !CanBind(table, Probe4(port), cfg.exclusive) { return false; }
      assert Overlaps(Probe4(port), Probe4(port), cfg.exclusive);
      table := table + {Probe4(port)};
      assert CanBind(table, Probe6(port), cfg.exclusive) == CanBind(old(table), Probe6(port), cfg.exclusive);
      if !CanBind(table, Probe6(port), cfg.exclusive) {
        table := table - {Probe4(port)};
        assert table == old(table);
        return false;
      }
      table := table + {Probe6(port)};
      return true;
    }

    /** Probes every port, keeping what it opens; all succeed exactly when the ports are
        free and distinct, and closing the opened probes restores the table. */
    method ProbeAll(ports: seq<int>) returns (ok: bool, open: set<int>)
      modifies this`table
      ensures ok == AllFree(old(table), ports, cfg.exclusive)
      ensures table == old(table) + ProbesOf(open) && table - ProbesOf(open) == old(table)
      ensures ok ==> open == Elements(ports)
    {
      ok, open := true, {};
      for i := 0 to |ports|
        invariant forall p :: p in open ==> Free(old(table), p, cfg.exclusive)
        invariant table == old(table) + ProbesOf(open)
        invariant ok == AllFree(old(table), ports[..i], cfg.exclusive)
        invariant ok ==> open == Elements(ports[..i])
      {
        FreeBesideProbes(old(table), open, ports[i], cfg.exclusive);
        AllFreeExtends(old(table), ports, i, cfg.exclusive);
        var probed := BindProbe(ports[i]);
        if probed {
          ProbesOfMore(open, ports[i]);
          open := open + {ports[i]};
        } else {
          ok := false;
        }
      }
      assert ports[..|ports|] == ports;
      FreePortsHaveNoProbe(old(table), open, cfg.exclusive);
    }

    /** Reuses the lock this process already holds, or binds the block's lock port. */
    method LockBlock(block: int) returns (ok: bool)
      modifies this`table, this`heldLocks
      ensures ok == Obtainable(old(Now()), cfg, block)
      ensures Now() == if ok then WithLock(old(Now()), block) else old(Now())
    {
      if block !in heldLocks {
        if !CanBind(table, LockSocket(block), cfg.exclusive) { return false; }
        table := table + {LockSocket(block)};
        heldLocks := heldLocks + {block};
      }
      ok := true;
    }

    /** `claimPorts`: the loop over the blocks does what `Claim` says, whatever the table. */
    method ClaimPorts(claims: seq<PortClaim>) returns (r: Claimed)
      modifies this`table, this`heldLocks, this`env
      ensures (Now(), r) == Claim(old(Now()), cfg, claims)
    {
      var ports: Ports := PinnedPorts(env, claims);
      var unpinned := Unpinned(env, claims);
      if unpinned == [] { return Claimed(ports, NoRelease); }
      for attempt := 0 to BLOCK_COUNT
        invariant Walk(old(Now()), cfg, unpinned, 0) == Walk(Now(), cfg, unpinned, attempt)
        invariant env == old(env)
      {
        var block := BlockAt(cfg.hash, attempt);
        var locked := LockBlock(block);
        if !locked { continue; }
        var ok, open := ProbeAll(PortsIn(block, unpinned));
        if !ok {
          table := table - ProbesOf(open);
          continue;
        }
        ports := PublishPorts(ports, unpinned, block);
        table := table - ProbesOf(open);
        return Claimed(ports, ReleaseBlock(block));
      }
      r := Exhausted;
    }

    /** Writes every port to the result and to the environment, in order. */
    method PublishPorts(start: Ports, claims: seq<PortClaim>, block: int) returns (ports: Ports)
      modifies this`env
      ensures ports == NewPorts(start, claims, block) && env == Publish(old(env), claims, block)
    {
      ports := start;
      for i := 0 to |claims|
        invariant NewPorts(start, claims, block) == NewPorts(ports, claims[i..], block)
        invariant Publish(old(env), claims, block) == Publish(env, claims[i..], block)
      {
        var port := block + claims[i].offset;
        ports := ports[claims[i].envVar := Number(port)];
        env := env[claims[i].envVar := Text(Number(port))];
        assert claims[i..][1..] == claims[i + 1..];
      }
    }

    method DoRelease(r: Release)
      modifies this`table, this`heldLocks
      ensures Now() == Released(old(Now()), r)
    {
      if r.ReleaseBlock? && r.block in heldLocks {
        heldLocks := heldLocks - {r.block};
        table := table - {LockSocket(r.block)};
      }
    }
  }
}
