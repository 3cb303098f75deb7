/** Carving one /64 per network out of the daemon's IPv6 pool. */
module V6Carver {
  import opened Common
  import opened Bits
  import opened Subnets

  /** Every network gets a /64. */
  const SUBNET_PREFIX: nat := 64

  datatype CarveError = InvalidPool | PoolFull

  /** Pools that can be carved: a v6 subnet of /64 or shorter. */
  ghost predicate Carvable(pool: Subnet) {
    Valid(V6, pool) && pool.prefix <= SUBNET_PREFIX
  }

  /** How many /64s the pool holds. */
  function Capacity(pool: Subnet): nat
    requires pool.prefix <= SUBNET_PREFIX
  {
    Pow2(SUBNET_PREFIX - pool.prefix)
  }

  /** The slot probed at `step`, counting round the pool from `start`. */
  function Slot(start: nat, step: nat, capacity: nat): nat {
    if start + step < capacity then start + step else start + step - capacity
  }

  lemma SlotIsRemainder(start: nat, step: nat, capacity: nat)
    requires start < capacity && step < capacity
    ensures Slot(start, step, capacity) == (start + step) % capacity
  {
    ReduceOnce(start + step, capacity);
  }

  function SlotNetwork(pool: Subnet, idx: nat): nat {
    BitOr(pool.network, Shl(V6.Width(), idx, V6.Width() - SUBNET_PREFIX))
  }

  /** The network addresses in the order the probe meets them. */
  function Slots(pool: Subnet, start: nat, capacity: nat): nat -> nat {
    step => SlotNetwork(pool, Slot(start, step, capacity))
  }

  /** The probe loop from `step` on: the first address not taken. */
  function Probe(at: nat -> nat, step: nat, capacity: nat, used: set<nat>): Option<nat>
    decreases capacity - step
  {
    if step >= capacity then None
    else if at(step) !in used then Some(at(step))
    else Probe(at, step + 1, capacity, used)
  }

  /** The /64 for a network whose id hashes to `hash`, out of a pool that parsed. */
  function Assign(pool: Subnet, hash: nat, used: set<nat>): Result<Subnet, CarveError> {
    if pool.prefix > SUBNET_PREFIX then Err(InvalidPool)
    else
      var found := Probe(Slots(pool, hash % Capacity(pool), Capacity(pool)), 0, Capacity(pool), used);
      if found.None? then Err(PoolFull) else Ok(Subnet(found.value, SUBNET_PREFIX))
  }

  /** `assign_v6_subnet` on the pool ip/prefix. */
  function AssignFrom(ip: nat, prefix: nat, hash: nat, used: set<nat>): Result<Subnet, CarveError> {
    var pool := Parse(V6, ip, prefix);
    if pool.Err? then Err(InvalidPool) else Assign(pool.value, hash, used)
  }

  /** The source's loop; it stops after at most one round of the pool. */
  method AssignV6Subnet(ip: nat, prefix: nat, hash: nat, used: set<nat>) returns (r: Result<Subnet, CarveError>)
    ensures r == AssignFrom(ip, prefix, hash, used)
  {
    var parsed := Parse(V6, ip, prefix);
    if parsed.Err? {
      return Err(InvalidPool);
    }
    var pool := parsed.value;
    if pool.prefix > SUBNET_PREFIX {
      return Err(InvalidPool);
    }
    var capacity := Capacity(pool);
    var start := hash % capacity;
    ghost var at := Slots(pool, start, capacity);
    var step := 0;
    while true
      invariant step < capacity
      invariant Probe(at, 0, capacity, used) == Probe(at, step, capacity, used)
      decreases capacity - step
    {
      SlotIsRemainder(start, step, capacity);
      var network := SlotNetwork(pool, (start + step) % capacity);
      if network !in used {
        return Ok(Subnet(network, SUBNET_PREFIX));
      }
      step := step + 1;
      if step >= capacity {
        break;
      }
    }
    return Err(PoolFull);
  }

  // --- the slots of a pool --------------------------------------------------

  /** A slot is an aligned /64 inside the pool, `idx` blocks from its start. */
  lemma SlotNetworkIs(pool: Subnet, idx: nat)
    requires Carvable(pool) && idx < Capacity(pool)
    ensures var s := Subnet(SlotNetwork(pool, idx), SUBNET_PREFIX);
            && s.network == pool.network + Up(idx, V6.Width() - SUBNET_PREFIX)
            && Valid(V6, s) && BlockWithin(V6, s, pool)
  {
    SlotInPool(V6, pool, idx, SUBNET_PREFIX);
  }

  /** The same for any family and slot prefix. */
  lemma SlotInPool(f: Family, pool: Subnet, idx: nat, prefix: nat)
    requires Valid(f, pool) && pool.prefix <= prefix <= f.LongestPrefix() && idx < Pow2(prefix - pool.prefix)
    ensures var s := Subnet(BitOr(pool.network, Shl(f.Width(), idx, f.Width() - prefix)), prefix);
            && s.network == pool.network + Up(idx, f.Width() - prefix)
            && Valid(f, s) && BlockWithin(f, s, pool)
  {
    SubBlock(f.Width(), pool.network, f.Width() - pool.prefix, f.Width() - prefix, idx);
  }

  lemma SlotsDistinct(pool: Subnet, i: nat, j: nat)
    requires Carvable(pool) && i < Capacity(pool) && j < Capacity(pool)
    requires SlotNetwork(pool, i) == SlotNetwork(pool, j)
    ensures i == j
  {
    SlotNetworkIs(pool, i);
    SlotNetworkIs(pool, j);
    UpInjective(i, j, V6.Width() - SUBNET_PREFIX);
  }

  /** The probe visits every slot exactly once per round. */
  lemma ProbeIsPermutation(start: nat, n: nat, idx: nat)
    requires start < n && idx < n
    ensures exists step: nat :: step < n && Slot(start, step, n) == idx
    ensures forall a: nat, b: nat :: a < n && b < n && Slot(start, a, n) == Slot(start, b, n) ==> a == b
  {
    var step := if idx >= start then idx - start else idx + n - start;
    assert Slot(start, step, n) == idx;
  }

  lemma {:induction false} ProbeNone(at: nat -> nat, step: nat, capacity: nat, used: set<nat>)
    requires Probe(at, step, capacity, used).None?
    ensures forall k: nat :: step <= k < capacity ==> at(k) in used
    decreases capacity - step
  {
    if step < capacity {
      ProbeNone(at, step + 1, capacity, used);
    }
  }

  lemma {:induction false} ProbeSome(at: nat -> nat, step: nat, capacity: nat, used: set<nat>) returns (k: nat)
    requires Probe(at, step, capacity, used).Some?
    ensures step <= k < capacity && Probe(at, step, capacity, used) == Some(at(k)) && at(k) !in used
    ensures forall j: nat :: step <= j < k ==> at(j) in used
    decreases capacity - step
  {
    k := step;
    if at(step) in used {
      k := ProbeSome(at, step + 1, capacity, used);
    }
  }

  /**
   * What a carve gives: an aligned /64 inside the pool whose network address no one
   * holds, or a failure exactly when every slot of the pool is taken.
   */
  lemma CarveIs(pool: Subnet, hash: nat, used: set<nat>)
    requires Carvable(pool)
    ensures var r := Assign(pool, hash, used);
            && (r.Err? ==> r.error == PoolFull)
            && (r.Err? <==> forall idx: nat :: idx < Capacity(pool) ==> SlotNetwork(pool, idx) in used)
            && (r.Ok? ==> Valid(V6, r.value) && r.value.prefix == SUBNET_PREFIX
                          && BlockWithin(V6, r.value, pool) && r.value.network !in used)
  {
    var n := Capacity(pool);
    var start := hash % n;
    var at := Slots(pool, start, n);
    if Probe(at, 0, n, used).None? {
      ProbeNone(at, 0, n, used);
      forall idx: nat | idx < n ensures SlotNetwork(pool, idx) in used {
        ProbeIsPermutation(start, n, idx);
        var step: nat :| step < n && Slot(start, step, n) == idx;
        assert at(step) == SlotNetwork(pool, idx);
      }
    } else {
      var k := ProbeSome(at, 0, n, used);
      assert at(k) == SlotNetwork(pool, Slot(start, k, n));
      SlotNetworkIs(pool, Slot(start, k, n));
    }
  }

  /** The slot `step` places from the hash on, round a pool of `n`. */
  function Turn(hash: nat, step: nat, n: nat): nat
    requires n > 0
  {
    (hash % n + step) % n
  }

  lemma TurnIsSlot(pool: Subnet, hash: nat, step: nat, n: nat)
    requires step < n
    ensures Turn(hash, step, n) < n && Slots(pool, hash % n, n)(step) == SlotNetwork(pool, Turn(hash, step, n))
  {
    SlotIsRemainder(hash % n, step, n);
  }

  /** A carve takes the first slot from the hash on, round the pool, that nobody holds. */
  lemma FirstFromHash(pool: Subnet, hash: nat, n: nat, used: set<nat>) returns (k: nat)
    requires n > 0 && Probe(Slots(pool, hash % n, n), 0, n, used).Some?
    ensures k < n && Probe(Slots(pool, hash % n, n), 0, n, used) == Some(SlotNetwork(pool, Turn(hash, k, n)))
    ensures forall j: nat :: j < k ==> SlotNetwork(pool, Turn(hash, j, n)) in used
  {
    var at := Slots(pool, hash % n, n);
    k := ProbeSome(at, 0, n, used);
    TurnIsSlot(pool, hash, k, n);
    forall j: nat | j < k ensures SlotNetwork(pool, Turn(hash, j, n)) in used {
      TurnIsSlot(pool, hash, j, n);
      assert at(j) in used;
    }
  }

  /** For any pool at all: too long a prefix is refused as such, all else is a carve. */
  lemma AssignIs(ip: nat, prefix: nat, hash: nat, used: set<nat>)
    requires IsAddress(V6, ip)
    ensures var r := AssignFrom(ip, prefix, hash, used);
            var pool := Parse(V6, ip, prefix);
            && (r == Err(InvalidPool) <==> prefix > SUBNET_PREFIX)
            && (r == Err(PoolFull) <==>
                prefix <= SUBNET_PREFIX && pool.Ok? && pool.value.prefix == prefix
                && forall idx: nat :: idx < Capacity(pool.value) ==> SlotNetwork(pool.value, idx) in used)
            && (r.Ok? ==> Valid(V6, r.value) && r.value.prefix == SUBNET_PREFIX && pool.Ok?
                          && Valid(V6, pool.value) && BlockWithin(V6, r.value, pool.value) && r.value.network !in used)
  {
    ParseIs(V6, ip, prefix);
    var pool := Parse(V6, ip, prefix);
    if prefix <= SUBNET_PREFIX { CarveIs(pool.value, hash, used); }
  }

  /** /64s with different network addresses share no address. */
  lemma DistinctApart(a: Subnet, b: Subnet)
    requires Valid(V6, a) && Valid(V6, b) && a.prefix == b.prefix && a.network != b.network
    ensures !Share(V6, a, b)
  {
    ShareIffWithin(V6, a, b);
  }
}
