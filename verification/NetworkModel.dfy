/** The network manager as a state machine: networks, leases, endpoint pairs and names. */
module NetworkModel {
  import opened Common
  import opened Bits
  import opened Subnets
  import opened Ipam
  import opened V6Carver

  /** A DNS name, lower-cased as registration and scrubbing both do. */
  type Name = string
  type Key = (NetId, Name)

  datatype Dual = Dual(subnet: Subnet, gateway: nat)
  datatype Network = Network(name: string, subnet: Subnet, gateway: nat, v6: Option<Dual>)

  /**
   * The manager's maps. `pair` is the v4-to-v6 map of live endpoints; `dns4` and
   * `dns6` are the two registries, keyed by network and name.
   */
  datatype State = State(
    networks: map<NetId, Network>,
    held4: set<Lease>,
    held6: set<Lease>,
    pair: map<Lease, nat>,
    dns4: map<Key, nat>,
    dns6: map<Key, nat>)

  datatype Error =
    | NameTaken | BadSubnet | BadGateway | Overlap | PoolsExhausted | NoV6Subnet(carve: CarveError)
    | BridgeDown | NoNetwork | Predefined | NoLease(lease: LeaseError) | NoV6Lease(lease: LeaseError) | NotWired

  datatype Endpoint = Endpoint(ip: nat, ip6: Option<nat>)

  // --- networks ------------------------------------------------------------

  /** Every stored subnet came out of the parser. */
  ghost predicate Parsed(s: State) {
    forall n :: n in s.networks ==>
      && Valid(V4, s.networks[n].subnet)
      && (s.networks[n].v6.Some? ==> Valid(V6, s.networks[n].v6.value.subnet))
  }

  /** The networks a candidate subnet clashes with. */
  function Clashes(s: State, sub: Subnet): bool
    requires Parsed(s) && Valid(V4, sub)
  {
    exists n :: n in s.networks && Overlaps(V4, sub, s.networks[n].subnet)
  }

  /** `validate_create_params`: parse, pick or check the gateway, reject overlaps. */
  function ValidateCreate(s: State, ip: nat, prefix: nat, gateway: Option<nat>): (r: Result<(Subnet, nat), Error>)
    requires Parsed(s) && IsAddress(V4, ip)
    ensures r.Ok? ==> Valid(V4, r.value.0) && !Clashes(s, r.value.0)
  {
    ParseIs(V4, ip, prefix);
    var p := Parse(V4, ip, prefix);
    if p.Err? then Err(BadSubnet)
    else if gateway.Some? && !Contains(V4, p.value, gateway.value) then Err(BadGateway)
    else if Clashes(s, p.value) then Err(Overlap)
    else Ok((p.value, if gateway.Some? then gateway.value else DefaultGateway(V4, p.value)))
  }

  /** 172.b.0.0/16. */
  function Predefined16(b: nat): Subnet {
    Subnet(Up(172 * 256 + b, V4.Width() - 16), 16)
  }

  lemma Predefined16Valid(b: nat)
    requires b < 256
    ensures Valid(V4, Predefined16(b))
    ensures Parse(V4, Predefined16(b).network, 16) == Ok(Predefined16(b))
    ensures DefaultGateway(V4, Predefined16(b)) == Predefined16(b).network + 1
  {
    SixteenBits(172 * 256 + b, V4);
  }

  lemma SixteenthPower()
    ensures Pow2(16) == 65536
  {
    assert Pow2(2) == 4;
    assert Pow2(4) == 16;
    assert Pow2(6) == 64;
    assert Pow2(8) == 256;
    assert Pow2(10) == 1024;
    assert Pow2(12) == 4096;
    assert Pow2(14) == 16384;
  }

  lemma SixteenBits(x: nat, f: Family)
    requires x < 65536 && f.width >= 18
    ensures var s := Subnet(Up(x, f.Width() - 16), 16); Valid(f, s) && Parse(f, s.network, 16) == Ok(s)
  {
    var k := f.Width() - 16;
    SixteenthPower();
    UpBelow(x, k, 16);
    UpAligned(x, k);
    PrefixMaskIs(f, 16);
    AndMask(f.Width(), Up(x, k), k);
    ClearAligned(Up(x, k), k);
  }

  /** The first of 172.b.0.0/16 .. 172.31.0.0/16 that clashes with nothing. */
  function PickPredefined(s: State, b: nat): (r: Option<Subnet>)
    requires Parsed(s) && 18 <= b <= 32
    ensures r.Some? ==> Valid(V4, r.value) && !Clashes(s, r.value)
    decreases 32 - b
  {
    if b == 32 then None
    else
      Predefined16Valid(b);
      if !Clashes(s, Predefined16(b)) then Some(Predefined16(b)) else PickPredefined(s, b + 1)
  }

  /** The v4 subnet and gateway of a new network. */
  function ChooseV4(s: State, want: Option<(nat, nat)>, gateway: Option<nat>): (r: Result<(Subnet, nat), Error>)
    requires Parsed(s) && (want.Some? ==> IsAddress(V4, want.value.0))
    ensures r.Ok? ==> Valid(V4, r.value.0) && !Clashes(s, r.value.0)
  {
    if want.Some? then ValidateCreate(s, want.value.0, want.value.1, gateway)
    else
      var c := PickPredefined(s, 18);
      if c.None? then Err(PoolsExhausted) else Ok((c.value, c.value.network + 1))
  }

  /** The /64s networks hold already. */
  function CarvedNetworks(s: State): set<nat> {
    set n | n in s.networks && s.networks[n].v6.Some? :: s.networks[n].v6.value.subnet.network
  }

  /** The daemon's v6 pool as it was given, and the hash of the new network's id. */
  datatype PoolConfig = PoolConfig(ip: nat, prefix: nat, hash: nat)

  /** Addresses have the width of their family. */
  ghost predicate Addressed(want: Option<(nat, nat)>, cfg: Option<PoolConfig>) {
    (want.Some? ==> IsAddress(V4, want.value.0)) && (cfg.Some? ==> IsAddress(V6, cfg.value.ip))
  }

  /** The v6 half of a new network, when the daemon is dual-stack. */
  function ChooseV6(s: State, cfg: Option<PoolConfig>): (r: Result<Option<Dual>, Error>)
    requires Addressed(None, cfg)
    ensures r.Ok? && r.value.Some? ==>
              Valid(V6, r.value.value.subnet) && r.value.value.subnet.network !in CarvedNetworks(s)
  {
    if cfg.None? then Ok(None)
    else
      AssignIs(cfg.value.ip, cfg.value.prefix, cfg.value.hash, CarvedNetworks(s));
      var r := AssignFrom(cfg.value.ip, cfg.value.prefix, cfg.value.hash, CarvedNetworks(s));
      if r.Err? then Err(NoV6Subnet(r.error))
      else Ok(Some(Dual(r.value, DefaultGateway(V6, r.value))))
  }

  /** The record of a new network, or why there is none. */
  function Design(s: State, name: string, want: Option<(nat, nat)>, gateway: Option<nat>,
                  cfg: Option<PoolConfig>, bridgeUp: bool): Result<Network, Error>
    requires Parsed(s) && Addressed(want, cfg)
  {
    if exists n :: n in s.networks && s.networks[n].name == name then Err(NameTaken)
    else Settle(name, ChooseV4(s, want, gateway), ChooseV6(s, cfg), bridgeUp)
  }

  /** The subnets in turn, and the bridge last. */
  function Settle(name: string, v4: Result<(Subnet, nat), Error>, v6: Result<Option<Dual>, Error>, bridgeUp: bool)
    : Result<Network, Error>
  {
    if v4.Err? then Err(v4.error)
    else if v6.Err? then Err(v6.error)
    else if !bridgeUp then Err(BridgeDown)
    else Ok(Network(name, v4.value.0, v4.value.1, v6.value))
  }

  function Create(s: State, id: NetId, name: string, want: Option<(nat, nat)>, gateway: Option<nat>,
                  cfg: Option<PoolConfig>, bridgeUp: bool): (State, Result<Network, Error>)
    requires Parsed(s) && Addressed(want, cfg)
  {
    var r := Design(s, name, want, gateway, cfg, bridgeUp);
    (if r.Ok? then s.(networks := s.networks[id := r.value]) else s, r)
  }

  /** A failed create changes nothing; a successful one adds the network it chose. */
  lemma CreateIs(s: State, id: NetId, name: string, want: Option<(nat, nat)>, gateway: Option<nat>,
                 cfg: Option<PoolConfig>, bridgeUp: bool)
    requires Parsed(s) && Addressed(want, cfg)
    ensures var (z, r) := Create(s, id, name, want, gateway, cfg, bridgeUp);
            && (r.Err? ==> z == s)
            && (r.Ok? ==> && z == s.(networks := s.networks[id := r.value])
                          && ChooseV4(s, want, gateway) == Ok((r.value.subnet, r.value.gateway))
                          && ChooseV6(s, cfg) == Ok(r.value.v6))
  {
  }

  /** First boot: the default bridge alone. */
  function Boot(id: NetId, v6: Option<Dual>): State {
    State(map[id := Network("bridge", Predefined16(17), Predefined16(17).network + 1, v6)],
          {}, {}, map[], map[], map[])
  }

  lemma BootParsed(id: NetId, v6: Option<Dual>)
    requires v6.Some? ==> Valid(V6, v6.value.subnet)
    ensures Parsed(Boot(id, v6))
  {
    Predefined16Valid(17);
  }

  function Remove(s: State, net: NetId): (State, Result<(), Error>) {
    if net !in s.networks then (s, Err(NoNetwork))
    else if s.networks[net].name == "bridge" then (s, Err(Predefined))
    else (State(s.networks - {net},
                set l | l in s.held4 && l.0 != net,
                set l | l in s.held6 && l.0 != net,
                map l | l in s.pair && l.0 != net :: s.pair[l],
                map k | k in s.dns4 && k.0 != net :: s.dns4[k],
                map k | k in s.dns6 && k.0 != net :: s.dns6[k]), Ok(()))
  }

  // --- endpoints -----------------------------------------------------------

  function Keys(net: NetId, names: seq<Name>): set<Key> {
    set k | k in names :: (net, k)
  }

  /** Point every key at `v`. */
  function Point(m: map<Key, nat>, keys: set<Key>, v: nat): map<Key, nat> {
    m + map k | k in keys :: v
  }

  /** Drop the keys that still point at `v`. */
  function Scrub(m: map<Key, nat>, keys: set<Key>, v: nat): map<Key, nat> {
    map k | k in m && !(k in keys && m[k] == v) :: m[k]
  }

  /** The map updates of a wired endpoint: both registries and the pair map. */
  function Register(s: State, net: NetId, ep: Endpoint, names: seq<Name>): State {
    var s4 := s.(dns4 := Point(s.dns4, Keys(net, names), ep.ip));
    if ep.ip6.None? then s4
    else s4.(dns6 := Point(s.dns6, Keys(net, names), ep.ip6.value), pair := s.pair[(net, ep.ip) := ep.ip6.value])
  }

  /** The v4 lease of an endpoint: the requested address, or the lowest free one. */
  function DrawV4(s: State, net: NetId, requested: Option<nat>): Result<nat, LeaseError>
    requires Parsed(s) && net in s.networks
  {
    var n := s.networks[net];
    if requested.Some? then Reserve(V4, s.held4, net, n.subnet, n.gateway, requested.value)
    else Allocate(V4, s.held4, net, n.subnet, n.gateway)
  }

  function Hold4(s: State, net: NetId, a: nat): State {
    s.(held4 := s.held4 + {(net, a)})
  }

  /** The v6 lease of an endpoint, drawn when the network is dual-stack. */
  function DrawV6(s: State, net: NetId): Result<Option<nat>, Error>
    requires Parsed(s) && net in s.networks
  {
    var v6 := s.networks[net].v6;
    if v6.None? then Ok(None)
    else
      var a := Allocate(V6, s.held6, net, v6.value.subnet, v6.value.gateway);
      if a.Err? then Err(NoV6Lease(a.error)) else Ok(Some(a.value))
  }

  function Hold6(s: State, net: NetId, a: Option<nat>): State {
    if a.None? then s else s.(held6 := s.held6 + {(net, a.value)})
  }

  /** What the host makes of an attach or a rewire: its bridge comes up, its veth pair is wired. */
  datatype Host = Host(bridgeUp: bool, wired: bool)

  const GOOD_HOST := Host(true, true)

  /** `attach`: bridge up, lease both families, wire, register; a failed wire hands both leases back. */
  function Attach(s: State, net: NetId, requested: Option<nat>, names: seq<Name>, host: Host)
    : (State, Result<Endpoint, Error>)
    requires Parsed(s)
  {
    if net !in s.networks then (s, Err(NoNetwork))
    else if !host.bridgeUp then (s, Err(BridgeDown))
    else
      var a := DrawV4(s, net, requested);
      if a.Err? then (s, Err(NoLease(a.error)))
      else
        var s1 := Hold4(s, net, a.value);
        var b := DrawV6(s1, net);
        // A failed v6 draw returns here, with the v4 lease still held.
        if b.Err? then (s1, Err(b.error))
        else if !host.wired then (s, Err(NotWired))
        else
          var ep := Endpoint(a.value, b.value);
          (Register(Hold6(s1, net, b.value), net, ep, names), Ok(ep))
  }

  /** `rewire`: a recorded v4 lease, a fresh v6 one. */
  function Rewire(s: State, net: NetId, ip: nat, names: seq<Name>, host: Host): (State, Result<Endpoint, Error>)
    requires Parsed(s)
  {
    if net !in s.networks then (s, Err(NoNetwork))
    else if !host.bridgeUp then (s, Err(BridgeDown))
    else
      var b := DrawV6(s, net);
      if b.Err? then (s, Err(b.error))
      else if !host.wired then (s, Err(NotWired))
      else
        var ep := Endpoint(ip, b.value);
        (Register(Hold6(s, net, b.value), net, ep, names), Ok(ep))
  }

  /** `detach`: release both leases and scrub the given names. */
  function Detach(s: State, net: NetId, ip: nat, names: seq<Name>): State {
    var keys := Keys(net, names);
    var s4 := s.(held4 := s.held4 - {(net, ip)}, dns4 := Scrub(s.dns4, keys, ip));
    if (net, ip) !in s.pair then s4
    else
      var ip6 := s.pair[(net, ip)];
      s4.(held6 := s.held6 - {(net, ip6)}, pair := s.pair - {(net, ip)}, dns6 := Scrub(s.dns6, keys, ip6))
  }
}
