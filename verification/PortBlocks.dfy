/** The port arithmetic of e2e/src/ports.ts: 400 aligned blocks of ten ports in
    42000..45999, walked cyclically from the block a checkout's hash prefers,
    and the environment variables through which a claim is pinned and published. */
module PortBlocks {

  const BLOCK_BASE := 42000
  const BLOCK_SIZE := 10
  const BLOCK_COUNT := 400
  const LOCK_OFFSET := BLOCK_SIZE - 1

  /** The block a checkout with this hash value prefers. */
  function PreferredBlock(hash: nat): int {
    BLOCK_BASE + (hash % BLOCK_COUNT) * BLOCK_SIZE
  }

  /** The block tried at a given attempt of the walk. */
  function BlockAt(hash: nat, attempt: nat): int {
    BLOCK_BASE + ((PreferredBlock(hash) - BLOCK_BASE + attempt * BLOCK_SIZE) % (BLOCK_COUNT * BLOCK_SIZE))
  }

  predicate Aligned(block: int) {
    BLOCK_BASE <= block < BLOCK_BASE + BLOCK_COUNT * BLOCK_SIZE && (block - BLOCK_BASE) % BLOCK_SIZE == 0
  }

  /** Every block an attempt visits, as an index among the 400. */
  lemma {:induction false} BlockAtIndex(hash: nat, attempt: nat)
    ensures BlockAt(hash, attempt) == BLOCK_BASE + ((hash + attempt) % BLOCK_COUNT) * BLOCK_SIZE
    ensures Aligned(BlockAt(hash, attempt))
  {
    var k := hash % BLOCK_COUNT + attempt;
    var q, r := k / BLOCK_COUNT, k % BLOCK_COUNT;
    RemainderAmongBlocks(hash + attempt, hash / BLOCK_COUNT + q, r);
    RemainderAmongPorts(PreferredBlock(hash) - BLOCK_BASE + attempt * BLOCK_SIZE, q, r * BLOCK_SIZE);
    assert (r * BLOCK_SIZE) % BLOCK_SIZE == 0;
  }

  lemma RemainderAmongBlocks(x: int, q: int, r: int)
    requires x == q * BLOCK_COUNT + r && 0 <= r < BLOCK_COUNT
    ensures x % BLOCK_COUNT == r
  {
  }

  lemma RemainderAmongPorts(x: int, q: int, r: int)
    requires x == q * (BLOCK_COUNT * BLOCK_SIZE) + r && 0 <= r < BLOCK_COUNT * BLOCK_SIZE
    ensures x % (BLOCK_COUNT * BLOCK_SIZE) == r
  {
  }

  /** The attempt at which the walk reaches a given block. */
  function AttemptOf(hash: nat, block: int): (a: nat)
    requires Aligned(block)
    ensures a < BLOCK_COUNT
    ensures (hash + a) % BLOCK_COUNT == (block - BLOCK_BASE) / BLOCK_SIZE
  {
    var k := (block - BLOCK_BASE) / BLOCK_SIZE;
    var pref := hash % BLOCK_COUNT;
    if k >= pref then k - pref else k - pref + BLOCK_COUNT
  }

  lemma WalkReaches(hash: nat, block: int)
    requires Aligned(block)
    ensures BlockAt(hash, AttemptOf(hash, block)) == block
  {
  }

  lemma WalkDoesNotRepeat(hash: nat, a: nat, b: nat)
    requires a < b < BLOCK_COUNT
    ensures BlockAt(hash, a) != BlockAt(hash, b)
  {
  }

  /** Attempts 0 to 399 visit every multiple of ten in 42000..45999 exactly once, the preferred one
      first. */
  lemma {:induction false} WalkIsPermutation(hash: nat)
    ensures BlockAt(hash, 0) == PreferredBlock(hash)
    ensures BLOCK_COUNT == 400
    ensures forall a: nat, b: nat :: a < b < BLOCK_COUNT ==> BlockAt(hash, a) != BlockAt(hash, b)
    ensures forall block: int ::
      42000 <= block <= 45999 && block % 10 == 0 <==> exists a: nat :: a < BLOCK_COUNT && BlockAt(hash, a) == block
  {
    forall a: nat, b: nat | a < b < BLOCK_COUNT
      ensures BlockAt(hash, a) != BlockAt(hash, b)
    {
      WalkDoesNotRepeat(hash, a, b);
    }
    forall block: int | 42000 <= block <= 45999 && block % 10 == 0
      ensures exists a: nat :: a < BLOCK_COUNT && BlockAt(hash, a) == block
    {
      WalkReaches(hash, block);
    }
    forall a: nat | a < BLOCK_COUNT
      ensures Aligned(BlockAt(hash, a))
    {
      BlockAtIndex(hash, a);
    }
  }

  /** Ports of different blocks differ, for every offset inside a block. */
  lemma PortsOfDistinctBlocksDiffer(b0: int, b1: int, o0: int, o1: int)
    requires Aligned(b0) && Aligned(b1) && b0 != b1
    requires 0 <= o0 < BLOCK_SIZE && 0 <= o1 < BLOCK_SIZE
    ensures b0 + o0 != b1 + o1
  {
  }

  predicate InRange(port: int) { BLOCK_BASE <= port < BLOCK_BASE + BLOCK_COUNT * BLOCK_SIZE }

  /** The block a port of the range belongs to. */
  function BlockOf(port: int): int { BLOCK_BASE + (port - BLOCK_BASE) / BLOCK_SIZE * BLOCK_SIZE }

  lemma BlockOfPort(block: int, offset: int)
    requires Aligned(block) && 0 <= offset < BLOCK_SIZE
    ensures InRange(block + offset) && BlockOf(block + offset) == block
  {
  }

  /** What JavaScript's `Number` makes of a text. */
  datatype JsNumber = NotANumber | Number(value: int)

  /** An environment value, seen through the two things the code asks of it:
      whether it is the empty (falsy) text, and what `Number` makes of it. */
  datatype EnvText = Empty | Text(number: JsNumber)

  type Env = map<string, EnvText>
  type Ports = map<string, JsNumber>

  datatype PortClaim = PortClaim(envVar: string, offset: nat, name: string)

  predicate IsPinned(env: Env, claim: PortClaim) {
    claim.envVar in env && env[claim.envVar].Text?
  }

  /** The claims whose variable is unset or empty, in order. */
  function Unpinned(env: Env, claims: seq<PortClaim>): (r: seq<PortClaim>)
    ensures forall c :: c in r <==> c in claims && !IsPinned(env, c)
  {
    if claims == [] then []
    else
      var rest := Unpinned(env, claims[1..]);
      if IsPinned(env, claims[0]) then rest else [claims[0]] + rest
  }

  /** The ports the pinned claims read back from the environment. */
  function PinnedPorts(env: Env, claims: seq<PortClaim>): (r: Ports)
    ensures forall v :: v in r <==> exists c :: c in claims && c.envVar == v && IsPinned(env, c)
    ensures forall v :: v in r ==> v in env && env[v] == Text(r[v])
  {
    map c | c in claims && IsPinned(env, c) :: c.envVar := env[c.envVar].number
  }

  /** Writing the ports of one block for each claim in order; a later claim on
      the same variable overwrites an earlier one. */
  function Publish(env: Env, claims: seq<PortClaim>, block: int): Env
    decreases claims
  {
    if claims == [] then env
    else
      var c := claims[0];
      Publish(env[c.envVar := Text(Number(block + c.offset))], claims[1..], block)
  }

  /** Publishing pins every published claim and leaves the other variables alone. */
  lemma {:induction false} PublishPins(env: Env, claims: seq<PortClaim>, block: int)
    ensures forall c :: c in claims ==> IsPinned(Publish(env, claims, block), c)
    ensures forall v :: v in Publish(env, claims, block) <==> v in env || exists c :: c in claims && c.envVar == v
    ensures forall v :: v in env && (forall c :: c in claims ==> c.envVar != v) ==>
            Publish(env, claims, block)[v] == env[v]
    ensures forall v :: v in env && env[v].Text? ==> Publish(env, claims, block)[v].Text?
    decreases claims
  {
    if claims != [] {
      PublishPins(env[claims[0].envVar := Text(Number(block + claims[0].offset))], claims[1..], block);
    }
  }

  /** What a variable holds afterwards: the port of a claim on it, or what it held. */
  lemma {:induction false} PublishValue(env: Env, claims: seq<PortClaim>, block: int, v: string)
    ensures var later := Publish(env, claims, block);
      || (exists c :: c in claims && c.envVar == v && v in later && later[v] == Text(Number(block + c.offset)))
      || ((v in later <==> v in env) && (v in env ==> later[v] == env[v]))
    decreases claims
  {
    if claims != [] {
      var c := claims[0];
      assert c in claims && forall d :: d in claims[1..] ==> d in claims;
      PublishValue(env[c.envVar := Text(Number(block + c.offset))], claims[1..], block, v);
    }
  }

  lemma {:induction false} UnpinnedIsEmpty(env: Env, claims: seq<PortClaim>)
    requires forall c :: c in claims ==> IsPinned(env, c)
    ensures Unpinned(env, claims) == []
  {
    if claims != [] {
      UnpinnedIsEmpty(env, claims[1..]);
    }
  }
}
