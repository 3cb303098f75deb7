/** What each network-manager call does, told by the state before and the state after. */
module NetworkEffects {
  import opened Common
  import opened Bits
  import opened Subnets
  import opened Ipam
  import opened V6Carver
  import opened NetworkModel
  import opened NetworkProofs
  import opened NetworkRuns

  // --- the v4 half of a create ---------------------------------------------------

  /** The block of the given size that holds the address. */
  ghost predicate BlockOf(f: Family, sub: Subnet, ip: nat, prefix: nat) {
    Valid(f, sub) && sub.prefix == prefix && InBlock(f, sub, ip)
  }

  /** There is just one. */
  lemma BlockUnique(f: Family, a: Subnet, b: Subnet, ip: nat, prefix: nat)
    requires BlockOf(f, a, ip, prefix) && BlockOf(f, b, ip, prefix)
    ensures a == b
  {
    ShareIffWithin(f, a, b);
    ShareIffWithin(f, b, a);
  }

  /** Some network has an address in common with the subnet. */
  ghost predicate SharesAny(s: State, sub: Subnet)
    requires PlanOk(s.networks) && sub.prefix <= 32
  {
    exists n :: n in s.networks && Share(V4, sub, s.networks[n].subnet)
  }

  lemma ClashesIsSharing(s: State, sub: Subnet)
    requires PlanOk(s.networks) && Valid(V4, sub)
    ensures Clashes(s, sub) <==> SharesAny(s, sub)
  {
    forall n | n in s.networks
      ensures Overlaps(V4, sub, s.networks[n].subnet) <==> Share(V4, sub, s.networks[n].subnet)
    {
      OverlapsExact(V4, sub, s.networks[n].subnet);
    }
  }

  /** 172.b.0.0/16. */
  function Private16(b: nat): Subnet {
    Subnet((172 * 256 + b) * 65536, 16)
  }

  lemma {:induction false} UpIsTimes(x: nat, k: nat)
    ensures Up(x, k) == x * Pow2(k)
  {
    if k > 0 { UpIsTimes(x, k - 1); }
  }

  lemma Private16Is(b: nat)
    requires b < 256
    ensures Private16(b) == Predefined16(b)
  {
    UpIsTimes(172 * 256 + b, V4.Width() - 16);
    SixteenthPower();
  }

  /** The block asked for, apart from every network, with the gateway asked for or its first address. */
  ghost predicate Grants(s: State, ip: nat, prefix: nat, gateway: Option<nat>, sub: Subnet, gw: nat)
    requires PlanOk(s.networks)
  {
    && BlockOf(V4, sub, ip, prefix) && !SharesAny(s, sub)
    && gw == (if gateway.Some? then gateway.value else sub.network + 1) && Contains(V4, sub, gw)
  }

  /** 172.c.0.0/16 is taken for all c from `b` up to `end` and without it. */
  ghost predicate Taken(s: State, b: nat, end: nat)
    requires PlanOk(s.networks)
  {
    forall c: nat :: b <= c < end ==> SharesAny(s, Private16(c))
  }

  /** The first private /16 from 172.18 to 172.31 apart from every network, with its first address. */
  ghost predicate Picks(s: State, sub: Subnet, gw: nat)
    requires PlanOk(s.networks)
  {
    exists b: nat :: 18 <= b <= 31 && Taken(s, 18, b) && sub == Private16(b) && !SharesAny(s, sub)
                     && gw == sub.network + 1
  }

  ghost predicate Chosen(s: State, want: Option<(nat, nat)>, gateway: Option<nat>, sub: Subnet, gw: nat)
    requires PlanOk(s.networks)
  {
    if want.Some? then Grants(s, want.value.0, want.value.1, gateway, sub, gw) else Picks(s, sub, gw)
  }

  lemma PickStep(s: State, b: nat)
    requires PlanOk(s.networks) && 18 <= b < 32
    ensures PickPredefined(s, b)
            == if SharesAny(s, Private16(b)) then PickPredefined(s, b + 1) else Some(Private16(b))
  {
    Private16Is(b);
    Predefined16Valid(b);
    ClashesIsSharing(s, Private16(b));
  }

  lemma {:induction false} PickIs(s: State, b: nat) returns (c: nat)
    requires PlanOk(s.networks) && 18 <= b <= 32
    ensures b <= c <= 32 && Taken(s, b, c)
    ensures PickPredefined(s, b).None? <==> c == 32
    ensures c < 32 ==> PickPredefined(s, b) == Some(Private16(c)) && !SharesAny(s, Private16(c))
    decreases 32 - b
  {
    c := b;
    if b < 32 {
      PickStep(s, b);
      if SharesAny(s, Private16(b)) {
        c := PickIs(s, b + 1);
      }
    }
  }

  /** The gateway asked for is usable in every block of that size that holds the address; there is one such block. */
  ghost predicate GatewayFits(ip: nat, prefix: nat, gateway: Option<nat>) {
    gateway.Some? ==> exists sub :: BlockOf(V4, sub, ip, prefix) && Contains(V4, sub, gateway.value)
  }

  /** The block asked for has an address in common with some network. */
  ghost predicate BlockTaken(s: State, ip: nat, prefix: nat)
    requires PlanOk(s.networks)
  {
    exists sub :: BlockOf(V4, sub, ip, prefix) && SharesAny(s, sub)
  }

  lemma RequestedV4(s: State, ip: nat, prefix: nat, gateway: Option<nat>)
    requires PlanOk(s.networks) && IsAddress(V4, ip)
    ensures var r := ValidateCreate(s, ip, prefix, gateway);
            if prefix > 30 then r == Err(BadSubnet)
            else if !GatewayFits(ip, prefix, gateway) then r == Err(BadGateway)
            else if BlockTaken(s, ip, prefix) then r == Err(Overlap)
            else r.Ok? && Grants(s, ip, prefix, gateway, r.value.0, r.value.1)
  {
    ParseIs(V4, ip, prefix);
    if prefix <= 30 {
      var sub := Parse(V4, ip, prefix).value;
      assert BlockOf(V4, sub, ip, prefix);
      forall x | BlockOf(V4, x, ip, prefix) ensures x == sub { BlockUnique(V4, x, sub, ip, prefix); }
      ClashesIsSharing(s, sub);
      DefaultGatewayUsable(V4, sub);
    }
  }

  lemma PrivateV4(s: State)
    requires PlanOk(s.networks)
    ensures var r := PickPredefined(s, 18);
            (r.None? <==> Taken(s, 18, 32)) && (r.Some? ==> Picks(s, r.value, r.value.network + 1))
  {
    var c := PickIs(s, 18);
    if c < 32 { assert !SharesAny(s, Private16(c)); }
  }

  // --- the v6 half -----------------------------------------------------------------

  /** Some network has the /64 at `network`. */
  ghost predicate Carved(s: State, network: nat) {
    exists n :: n in s.networks && s.networks[n].v6.Some? && s.networks[n].v6.value.subnet.network == network
  }

  /** The network address of the `idx`th /64 of a pool. */
  function SlotAt(pool: Subnet, idx: nat): nat {
    pool.network + Up(idx, 64)
  }

  ghost predicate AllCarved(s: State, pool: Subnet, n: nat) {
    forall idx: nat :: idx < n ==> Carved(s, SlotAt(pool, idx))
  }

  /** All /64s of the pool ip/prefix are carved. */
  ghost predicate PoolUsedUp(s: State, ip: nat, prefix: nat)
    requires prefix <= 64
  {
    exists pool :: BlockOf(V6, pool, ip, prefix) && AllCarved(s, pool, Pow2(64 - prefix))
  }

  /** The first `k` slots of a pool of `n`, from `hash` on and round, are carved. */
  ghost predicate CarvedUpTo(s: State, pool: Subnet, hash: nat, n: nat, k: nat)
    requires n > 0
  {
    forall j: nat :: j < k ==> Carved(s, SlotAt(pool, Turn(hash, j, n)))
  }

  /** The /64 found `k` slots from the hash on: inside the pool, no network's, and with its first address. */
  ghost predicate CarvesAt(s: State, c: PoolConfig, d: Dual, pool: Subnet, k: nat)
    requires c.prefix <= 64
  {
    var n := Pow2(64 - c.prefix);
    && BlockOf(V6, pool, c.ip, c.prefix) && k < n && CarvedUpTo(s, pool, c.hash, n, k)
    && d.subnet == Subnet(SlotAt(pool, Turn(c.hash, k, n)), 64) && !Carved(s, d.subnet.network)
    && Valid(V6, d.subnet) && BlockWithin(V6, d.subnet, pool) && d.gateway == d.subnet.network + 1
  }

  ghost predicate Carves(s: State, c: PoolConfig, d: Dual)
    requires c.prefix <= 64
  {
    exists pool, k: nat :: CarvesAt(s, c, d, pool, k)
  }

  lemma CarvedIs(s: State, network: nat)
    ensures network in CarvedNetworks(s) <==> Carved(s, network)
  {
  }

  lemma SlotIs(pool: Subnet, idx: nat)
    requires Carvable(pool) && idx < Pow2(64 - pool.prefix)
    ensures SlotNetwork(pool, idx) == SlotAt(pool, idx)
  {
    SlotNetworkIs(pool, idx);
  }

  lemma PoolFullIs(s: State, pool: Subnet, ip: nat, prefix: nat)
    requires Carvable(pool) && BlockOf(V6, pool, ip, prefix)
    ensures (forall idx: nat :: idx < Capacity(pool) ==> SlotNetwork(pool, idx) in CarvedNetworks(s))
            <==> PoolUsedUp(s, ip, prefix)
  {
    forall x | BlockOf(V6, x, ip, prefix) ensures x == pool { BlockUnique(V6, x, pool, ip, prefix); }
    forall idx: nat | idx < Capacity(pool)
      ensures SlotNetwork(pool, idx) in CarvedNetworks(s) <==> Carved(s, SlotAt(pool, idx))
    {
      SlotIs(pool, idx);
      CarvedIs(s, SlotAt(pool, idx));
    }
  }

  lemma SlotCarved(s: State, pool: Subnet, idx: nat)
    requires Carvable(pool) && idx < Pow2(64 - pool.prefix)
    ensures SlotNetwork(pool, idx) == SlotAt(pool, idx)
    ensures SlotNetwork(pool, idx) in CarvedNetworks(s) <==> Carved(s, SlotAt(pool, idx))
  {
    SlotIs(pool, idx);
    CarvedIs(s, SlotAt(pool, idx));
  }

  lemma CarveFirst(s: State, pool: Subnet, hash: nat, n: nat, network: nat) returns (k: nat)
    requires Carvable(pool) && n == Pow2(64 - pool.prefix)
    requires Probe(Slots(pool, hash % n, n), 0, n, CarvedNetworks(s)) == Some(network)
    ensures k < n && network == SlotAt(pool, Turn(hash, k, n)) && CarvedUpTo(s, pool, hash, n, k)
  {
    k := FirstFromHash(pool, hash, n, CarvedNetworks(s));
    TurnIsSlot(pool, hash, k, n);
    SlotCarved(s, pool, Turn(hash, k, n));
    forall j: nat | j < k ensures Carved(s, SlotAt(pool, Turn(hash, j, n))) {
      TurnIsSlot(pool, hash, j, n);
      SlotCarved(s, pool, Turn(hash, j, n));
    }
  }

  lemma {:induction false} AssignProbes(pool: Subnet, hash: nat, used: set<nat>, sub: Subnet, n: nat)
    requires Carvable(pool) && n == Pow2(64 - pool.prefix) && Assign(pool, hash, used) == Ok(sub)
    ensures Probe(Slots(pool, hash % n, n), 0, n, used) == Some(sub.network)
  {
  }

  lemma {:induction false} CarveFound(s: State, pool: Subnet, c: PoolConfig, sub: Subnet)
    requires Carvable(pool) && BlockOf(V6, pool, c.ip, c.prefix)
    requires Assign(pool, c.hash, CarvedNetworks(s)) == Ok(sub)
    requires sub.prefix == 64 && Valid(V6, sub) && BlockWithin(V6, sub, pool) && sub.network !in CarvedNetworks(s)
    ensures Carves(s, c, Dual(sub, sub.network + 1))
  {
    var n := Pow2(64 - c.prefix);
    AssignProbes(pool, c.hash, CarvedNetworks(s), sub, n);
    var k := CarveFirst(s, pool, c.hash, n, sub.network);
    CarvedIs(s, sub.network);
    assert CarvesAt(s, c, Dual(sub, sub.network + 1), pool, k);
  }

  lemma PoolGives(s: State, pool: Subnet, c: PoolConfig)
    requires Carvable(pool) && BlockOf(V6, pool, c.ip, c.prefix)
    ensures var r := Assign(pool, c.hash, CarvedNetworks(s));
            if PoolUsedUp(s, c.ip, c.prefix) then r == Err(PoolFull)
            else r.Ok? && Carves(s, c, Dual(r.value, r.value.network + 1))
  {
    CarveIs(pool, c.hash, CarvedNetworks(s));
    PoolFullIs(s, pool, c.ip, c.prefix);
    var r := Assign(pool, c.hash, CarvedNetworks(s));
    if r.Ok? { CarveFound(s, pool, c, r.value); }
  }

  lemma ChooseV6Is(s: State, c: PoolConfig)
    requires IsAddress(V6, c.ip)
    ensures var r := AssignFrom(c.ip, c.prefix, c.hash, CarvedNetworks(s));
            ChooseV6(s, Some(c))
            == if r.Err? then Err(NoV6Subnet(r.error)) else Ok(Some(Dual(r.value, r.value.network + 1)))
  {
  }

  lemma AssignFromIs(c: PoolConfig, used: set<nat>) returns (pool: Subnet)
    requires IsAddress(V6, c.ip) && c.prefix <= 64
    ensures Carvable(pool) && BlockOf(V6, pool, c.ip, c.prefix)
    ensures AssignFrom(c.ip, c.prefix, c.hash, used) == Assign(pool, c.hash, used)
  {
    ParseIs(V6, c.ip, c.prefix);
    pool := Parse(V6, c.ip, c.prefix).value;
  }

  /** What the daemon's pool gives a new network. */
  ghost predicate Pooled(s: State, c: PoolConfig, r: Result<Subnet, CarveError>) {
    if c.prefix > 64 then r == Err(InvalidPool)
    else if PoolUsedUp(s, c.ip, c.prefix) then r == Err(PoolFull)
    else r.Ok? && Carves(s, c, Dual(r.value, r.value.network + 1))
  }

  lemma PooledV6(s: State, c: PoolConfig)
    requires IsAddress(V6, c.ip)
    ensures Pooled(s, c, AssignFrom(c.ip, c.prefix, c.hash, CarvedNetworks(s)))
  {
    if c.prefix > 64 {
      AssignIs(c.ip, c.prefix, c.hash, CarvedNetworks(s));
    } else {
      var pool := AssignFromIs(c, CarvedNetworks(s));
      PoolGives(s, pool, c);
    }
  }

  // --- create ------------------------------------------------------------------------

  ghost predicate NameUsed(s: State, name: string) {
    exists n :: n in s.networks && s.networks[n].name == name
  }

  /** The first thing wrong with the v4 half of a request, in the order it is looked at. */
  ghost predicate V4Fails(s: State, want: Option<(nat, nat)>, gateway: Option<nat>, e: Error)
    requires PlanOk(s.networks)
  {
    if want.Some? && want.value.1 > 30 then e == BadSubnet
    else if want.Some? && !GatewayFits(want.value.0, want.value.1, gateway) then e == BadGateway
    else if want.Some? && BlockTaken(s, want.value.0, want.value.1) then e == Overlap
    else want.None? && Taken(s, 18, 32) && e == PoolsExhausted
  }

  /** The same for the v6 half. */
  ghost predicate V6Fails(s: State, cfg: Option<PoolConfig>, e: Error) {
    && cfg.Some?
    && if cfg.value.prefix > 64 then e == NoV6Subnet(InvalidPool)
       else PoolUsedUp(s, cfg.value.ip, cfg.value.prefix) && e == NoV6Subnet(PoolFull)
  }

  ghost predicate V4Wrong(s: State, want: Option<(nat, nat)>, gateway: Option<nat>)
    requires PlanOk(s.networks)
  {
    if want.Some? then
      var (ip, prefix) := want.value;
      prefix > 30 || !GatewayFits(ip, prefix, gateway) || BlockTaken(s, ip, prefix)
    else Taken(s, 18, 32)
  }

  ghost predicate V6Wrong(s: State, cfg: Option<PoolConfig>) {
    cfg.Some? && (cfg.value.prefix > 64 || PoolUsedUp(s, cfg.value.ip, cfg.value.prefix))
  }

  /** The first thing wrong with a request for a network: its name, its subnets, its bridge. */
  ghost predicate CreateFails(s: State, name: string, want: Option<(nat, nat)>, gateway: Option<nat>,
                              cfg: Option<PoolConfig>, bridgeUp: bool, e: Error)
    requires PlanOk(s.networks)
  {
    if NameUsed(s, name) then e == NameTaken
    else if V4Wrong(s, want, gateway) then V4Fails(s, want, gateway, e)
    else if V6Wrong(s, cfg) then V6Fails(s, cfg, e)
    else !bridgeUp && e == BridgeDown
  }

  ghost predicate V6Chosen(s: State, cfg: Option<PoolConfig>, v6: Option<Dual>) {
    if cfg.None? then v6.None? else cfg.value.prefix <= 64 && v6.Some? && Carves(s, cfg.value, v6.value)
  }

  /** The network that comes out of a request: under the name, and with the subnets, asked for. */
  ghost predicate AsAsked(s: State, name: string, want: Option<(nat, nat)>, gateway: Option<nat>,
                          cfg: Option<PoolConfig>, net: Network)
    requires PlanOk(s.networks)
  {
    net.name == name && Chosen(s, want, gateway, net.subnet, net.gateway) && V6Chosen(s, cfg, net.v6)
  }

  /** What the v4 half of a request is answered with. */
  ghost predicate V4Answer(s: State, want: Option<(nat, nat)>, gateway: Option<nat>, r: Result<(Subnet, nat), Error>)
    requires PlanOk(s.networks)
  {
    if r.Err? then V4Wrong(s, want, gateway) && V4Fails(s, want, gateway, r.error)
    else !V4Wrong(s, want, gateway) && Chosen(s, want, gateway, r.value.0, r.value.1)
  }

  ghost predicate V6Answer(s: State, cfg: Option<PoolConfig>, r: Result<Option<Dual>, Error>) {
    if r.Err? then V6Wrong(s, cfg) && V6Fails(s, cfg, r.error)
    else !V6Wrong(s, cfg) && V6Chosen(s, cfg, r.value)
  }

  /** What a request is answered with: the first thing wrong with it, or the network asked for. */
  ghost predicate CreateAnswer(s: State, name: string, want: Option<(nat, nat)>, gateway: Option<nat>,
                               cfg: Option<PoolConfig>, bridgeUp: bool, r: Result<Network, Error>)
    requires PlanOk(s.networks)
  {
    if r.Err? then CreateFails(s, name, want, gateway, cfg, bridgeUp, r.error)
    else && AsAsked(s, name, want, gateway, cfg, r.value)
         && forall e :: !CreateFails(s, name, want, gateway, cfg, bridgeUp, e)
  }

  lemma V4Answered(s: State, want: Option<(nat, nat)>, gateway: Option<nat>)
    requires PlanOk(s.networks) && Addressed(want, None)
    ensures V4Answer(s, want, gateway, ChooseV4(s, want, gateway))
  {
    if want.Some? { RequestedV4(s, want.value.0, want.value.1, gateway); } else { PrivateV4(s); }
  }

  lemma V6Answered(s: State, cfg: Option<PoolConfig>)
    requires Addressed(None, cfg)
    ensures V6Answer(s, cfg, ChooseV6(s, cfg))
  {
    if cfg.Some? {
      PooledV6(s, cfg.value);
      ChooseV6Is(s, cfg.value);
    }
  }

  lemma SettleAnswers(s: State, name: string, want: Option<(nat, nat)>, gateway: Option<nat>, cfg: Option<PoolConfig>,
                      bridgeUp: bool, v4: Result<(Subnet, nat), Error>, v6: Result<Option<Dual>, Error>)
    requires PlanOk(s.networks) && !NameUsed(s, name) && V4Answer(s, want, gateway, v4) && V6Answer(s, cfg, v6)
    ensures CreateAnswer(s, name, want, gateway, cfg, bridgeUp, Settle(name, v4, v6, bridgeUp))
  {
  }

  lemma DesignAnswers(s: State, name: string, want: Option<(nat, nat)>, gateway: Option<nat>,
                      cfg: Option<PoolConfig>, bridgeUp: bool)
    requires PlanOk(s.networks) && Addressed(want, cfg)
    ensures CreateAnswer(s, name, want, gateway, cfg, bridgeUp, Design(s, name, want, gateway, cfg, bridgeUp))
  {
    if !NameUsed(s, name) {
      V4Answered(s, want, gateway);
      V6Answered(s, cfg);
      SettleAnswers(s, name, want, gateway, cfg, bridgeUp, ChooseV4(s, want, gateway), ChooseV6(s, cfg));
    }
  }

  /**
   * A create fails exactly when something is wrong with the request, with the first thing
   * that is, and then changes nothing. Otherwise it adds the network asked for and nothing else.
   */
  lemma CreateDoes(s: State, id: NetId, name: string, want: Option<(nat, nat)>, gateway: Option<nat>,
                   cfg: Option<PoolConfig>, bridgeUp: bool)
    requires PlanOk(s.networks) && Addressed(want, cfg)
    ensures var (z, r) := Create(s, id, name, want, gateway, cfg, bridgeUp);
            && CreateAnswer(s, name, want, gateway, cfg, bridgeUp, r)
            && z == if r.Err? then s else s.(networks := s.networks[id := r.value])
  {
    DesignAnswers(s, name, want, gateway, cfg, bridgeUp);
  }

  /** The default bridge is 172.17.0.0/16 with the gateway 172.17.0.1, and nothing is leased or named. */
  lemma BootIs(id: NetId, v6: Option<Dual>)
    ensures var net := (172 * 256 + 17) * 65536;
            Boot(id, v6)
            == State(map[id := Network("bridge", Subnet(net, 16), net + 1, v6)], {}, {}, map[], map[], map[])
  {
    Private16Is(17);
  }

  // --- remove ------------------------------------------------------------------------

  /** A removed network is gone with all its leases, pairs and names; all others keep theirs. */
  lemma RemoveDoes(s: State, net: NetId)
    ensures var (z, r) := Remove(s, net);
            if net !in s.networks then r == Err(NoNetwork) && z == s
            else if s.networks[net].name == "bridge" then r == Err(Predefined) && z == s
            else
              && r == Ok(()) && z.networks == s.networks - {net}
              && (forall l :: l in z.held4 <==> l in s.held4 && l.0 != net)
              && (forall l :: l in z.held6 <==> l in s.held6 && l.0 != net)
              && (forall l :: l in z.pair <==> l in s.pair && l.0 != net)
              && (forall l :: l in z.pair ==> z.pair[l] == s.pair[l])
              && Without(s.dns4, z.dns4, net) && Without(s.dns6, z.dns6, net)
  {
  }

  /** The registry has lost the names of one network. */
  ghost predicate Without(m: map<Key, nat>, m': map<Key, nat>, net: NetId) {
    (forall k :: k in m' <==> k in m && k.0 != net) && forall k :: k in m' ==> m'[k] == m[k]
  }

  // --- attach and rewire ----------------------------------------------------------------

  /** The names of a network point at `v`, if there is one, and all other names where they did. */
  ghost predicate Repointed(m: map<Key, nat>, m': map<Key, nat>, net: NetId, names: seq<Name>, v: Option<nat>) {
    if v.None? then m' == m
    else && (forall k :: k in m' <==> k in m || (k.0 == net && k.1 in names))
         && (forall k :: k in m' ==> m'[k] == if k.0 == net && k.1 in names then v.value else m[k])
  }

  /** The least address that may be leased and is not. */
  ghost predicate Least4(s: State, net: NetId, a: nat)
    requires net in s.networks
  {
    && Lease4Ok(s.networks[net], a) && (net, a) !in s.held4
    && forall x: nat :: Lease4Ok(s.networks[net], x) && (net, x) !in s.held4 ==> a <= x
  }

  ghost predicate Least6(s: State, net: NetId, a: nat)
    requires net in s.networks
  {
    && Lease6Ok(s.networks[net], a) && (net, a) !in s.held6
    && forall x: nat :: Lease6Ok(s.networks[net], x) && (net, x) !in s.held6 ==> a <= x
  }

  /** On a dual-stack network the endpoint has the least free v6 address, on another none. */
  ghost predicate Drew6(s: State, net: NetId, ip6: Option<nat>)
    requires net in s.networks
  {
    if s.networks[net].v6.None? then ip6.None? else ip6.Some? && Least6(s, net, ip6.value)
  }

  /** The endpoint is paired and named, and holds its v6 address; nothing else changes but, perhaps, v4 leases. */
  ghost predicate Registered6(s: State, z: State, net: NetId, ep: Endpoint, names: seq<Name>) {
    && z.networks == s.networks
    && z.held6 == s.held6 + (if ep.ip6.Some? then {(net, ep.ip6.value)} else {})
    && z.pair == (if ep.ip6.Some? then s.pair[(net, ep.ip) := ep.ip6.value] else s.pair)
    && Repointed(s.dns4, z.dns4, net, names, Some(ep.ip)) && Repointed(s.dns6, z.dns6, net, names, ep.ip6)
  }

  lemma RegisterDoes(s: State, net: NetId, ep: Endpoint, names: seq<Name>)
    ensures var z := Register(Hold6(s, net, ep.ip6), net, ep, names);
            Registered6(s, z, net, ep, names) && z.held4 == s.held4
  {
    assert forall k :: k in Keys(net, names) <==> k.0 == net && k.1 in names;
  }

  lemma DrawsV4(s: State, net: NetId, requested: Option<nat>)
    requires Inv(s) && net in s.networks
    ensures var a := DrawV4(s, net, requested);
            && (a.Ok? <==> V4Available(s, net, requested))
            && (a.Ok? ==> if requested.Some? then a.value == requested.value && (net, a.value) !in s.held4
                          else Least4(s, net, a.value))
  {
    assert NetworkOk(s.networks[net]);
  }

  lemma DrawsV6(s: State, net: NetId)
    requires Inv(s) && net in s.networks
    ensures var b := DrawV6(s, net);
            (b.Err? <==> V6Exhausted(s, net)) && (b.Err? ==> b.error.NoV6Lease?) && (b.Ok? ==> Drew6(s, net, b.value))
  {
    assert NetworkOk(s.networks[net]);
  }

  /**
   * What an attach answers: no network, no bridge, no v4 address, no v6 address, no wiring,
   * in that order; otherwise the address asked for, or the least free one, and the least
   * free v6 address on a dual-stack network.
   */
  lemma AttachAnswers(s: State, net: NetId, requested: Option<nat>, names: seq<Name>, host: Host)
    requires Inv(s)
    ensures var r := Attach(s, net, requested, names, host).1;
            if net !in s.networks then r == Err(NoNetwork)
            else if !host.bridgeUp then r == Err(BridgeDown)
            else if !V4Available(s, net, requested) then r.Err? && r.error.NoLease?
            else if V6Exhausted(s, net) then r.Err? && r.error.NoV6Lease?
            else if !host.wired then r == Err(NotWired)
            else && r.Ok? && Drew6(s, net, r.value.ip6)
                 && if requested.Some? then r.value.ip == requested.value else Least4(s, net, r.value.ip)
  {
    if net in s.networks {
      DrawsV4(s, net, requested);
      DrawsV6(s, net);
      var a := DrawV4(s, net, requested);
      if a.Ok? { assert DrawV6(Hold4(s, net, a.value), net) == DrawV6(s, net); }
    }
  }

  /** What a successful attach changes: one v4 lease, one v6 lease, one pair, and the names it was given. */
  lemma AttachDoes(s: State, net: NetId, requested: Option<nat>, names: seq<Name>, host: Host)
    requires Inv(s)
    ensures var (z, r) := Attach(s, net, requested, names, host);
            r.Ok? ==> && (net, r.value.ip) !in s.held4 && z.held4 == s.held4 + {(net, r.value.ip)}
                      && Registered6(s, z, net, r.value, names)
  {
    var (z, r) := Attach(s, net, requested, names, host);
    if r.Ok? {
      DrawsV4(s, net, requested);
      RegisterDoes(Hold4(s, net, r.value.ip), net, r.value, names);
    }
  }

  /** A rewire answers as an attach does without the v4 lease, keeps the recorded address, and changes no v4 lease. */
  lemma RewireDoes(s: State, net: NetId, ip: nat, names: seq<Name>, host: Host)
    requires Inv(s)
    ensures var (z, r) := Rewire(s, net, ip, names, host);
            if net !in s.networks then r == Err(NoNetwork) && z == s
            else if !host.bridgeUp then r == Err(BridgeDown) && z == s
            else if V6Exhausted(s, net) then r.Err? && r.error.NoV6Lease? && z == s
            else if !host.wired then r == Err(NotWired) && z == s
            else && r.Ok? && r.value.ip == ip && Drew6(s, net, r.value.ip6)
                 && Registered6(s, z, net, r.value, names) && z.held4 == s.held4
  {
    if net in s.networks {
      DrawsV6(s, net);
      var b := DrawV6(s, net);
      if b.Ok? { RegisterDoes(s, net, Endpoint(ip, b.value), names); }
    }
  }

  // --- detach --------------------------------------------------------------------------

  /** The given names that point at `v`, if there is one, are gone, and all others are as they were. */
  ghost predicate Scrubbed(m: map<Key, nat>, m': map<Key, nat>, net: NetId, names: seq<Name>, v: Option<nat>) {
    && (forall k :: k in m' <==> k in m && !(k.0 == net && k.1 in names && v == Some(m[k])))
    && (forall k :: k in m' ==> m'[k] == m[k])
  }

  /** A detach gives back both leases of the endpoint, its pair, and the names given that still point at it. */
  lemma DetachDoes(s: State, net: NetId, ip: nat, names: seq<Name>)
    ensures var z := Detach(s, net, ip, names);
            var ip6 := if (net, ip) in s.pair then Some(s.pair[(net, ip)]) else None;
            && z.networks == s.networks && z.held4 == s.held4 - {(net, ip)}
            && z.held6 == s.held6 - (if ip6.Some? then {(net, ip6.value)} else {})
            && z.pair == s.pair - {(net, ip)}
            && Scrubbed(s.dns4, z.dns4, net, names, Some(ip)) && Scrubbed(s.dns6, z.dns6, net, names, ip6)
  {
    assert forall k :: k in Keys(net, names) <==> k.0 == net && k.1 in names;
  }
}
