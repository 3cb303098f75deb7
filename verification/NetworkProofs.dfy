/** What every network-manager call keeps, from a fresh boot on. */
module NetworkProofs {
  import opened Common
  import opened Subnets
  import opened Ipam
  import opened V6Carver
  import opened NetworkModel

  // --- the invariant ---------------------------------------------------------

  /** A network's gateways are usable addresses of its own subnets, and its v6 subnet is a /64. */
  ghost predicate NetworkOk(n: Network) {
    && Valid(V4, n.subnet) && Contains(V4, n.subnet, n.gateway)
    && (n.v6.Some? ==> Valid(V6, n.v6.value.subnet) && n.v6.value.subnet.prefix == SUBNET_PREFIX
                       && Contains(V6, n.v6.value.subnet, n.v6.value.gateway))
  }

  /** No two networks share an address, as whole CIDR blocks, in either family. */
  ghost predicate Disjoint(a: Network, b: Network)
    requires NetworkOk(a) && NetworkOk(b)
  {
    && !Share(V4, a.subnet, b.subnet)
    && (a.v6.Some? && b.v6.Some? ==> !Share(V6, a.v6.value.subnet, b.v6.value.subnet))
  }

  ghost predicate PlanOk(networks: map<NetId, Network>) {
    && (forall n :: n in networks ==> NetworkOk(networks[n]))
    && (forall m, n :: m in networks && n in networks && m != n ==> Disjoint(networks[m], networks[n]))
  }

  /** Leases name existing networks and leasable addresses of them. */
  ghost predicate LeasesOk(s: State) {
    && (forall l :: l in s.held4 ==> l.0 in s.networks && Lease4Ok(s.networks[l.0], l.1))
    && (forall l :: l in s.held6 ==> l.0 in s.networks && Lease6Ok(s.networks[l.0], l.1))
  }

  ghost predicate Lease4Ok(n: Network, a: nat) {
    n.subnet.prefix <= V4.LongestPrefix() && Leasable(V4, n.subnet, n.gateway, a)
  }

  ghost predicate Lease6Ok(n: Network, a: nat) {
    n.v6.Some? && n.v6.value.subnet.prefix <= V6.LongestPrefix()
    && Leasable(V6, n.v6.value.subnet, n.v6.value.gateway, a)
  }

  /** The v4-to-v6 map is injective, with both sides leased. */
  ghost predicate PairsOk(s: State) {
    && (forall l :: l in s.pair ==> l in s.held4 && (l.0, s.pair[l]) in s.held6)
    && (forall l, k :: l in s.pair && k in s.pair && l.0 == k.0 && s.pair[l] == s.pair[k] ==> l == k)
  }

  /** A name points at a leased address, and its A and AAAA entries belong to one endpoint. */
  ghost predicate NamesOk(s: State) {
    NamesLeased(s) && NamesPaired(s) && NamesTwinned(s)
  }

  ghost predicate NamesLeased(s: State) {
    forall k :: k in s.dns4 ==> (k.0, s.dns4[k]) in s.held4
  }

  ghost predicate NamesPaired(s: State) {
    forall k :: k in s.dns6 ==>
      k in s.dns4 && (k.0, s.dns4[k]) in s.pair && s.pair[(k.0, s.dns4[k])] == s.dns6[k]
  }

  ghost predicate NamesTwinned(s: State) {
    forall k :: k in s.dns4 && k.0 in s.networks && s.networks[k.0].v6.Some? ==> k in s.dns6
  }

  ghost predicate Inv(s: State) {
    PlanOk(s.networks) && LeasesOk(s) && PairsOk(s) && NamesOk(s)
  }

  /** No address is leased on two networks at once. */
  lemma LeasedOnce(s: State, m: NetId, n: NetId, a: nat)
    requires Inv(s)
    requires ((m, a) in s.held4 && (n, a) in s.held4) || ((m, a) in s.held6 && (n, a) in s.held6)
    ensures m == n
  {
    if m != n {
      assert Disjoint(s.networks[m], s.networks[n]);
      if (m, a) in s.held4 && (n, a) in s.held4 {
        UsableInBlock(V4, s.networks[m].subnet, a);
        UsableInBlock(V4, s.networks[n].subnet, a);
      } else {
        UsableInBlock(V6, s.networks[m].v6.value.subnet, a);
        UsableInBlock(V6, s.networks[n].v6.value.subnet, a);
      }
    }
  }

  // --- networks come and go --------------------------------------------------

  /** A chosen v4 subnet is well formed, holds its gateway, and shares no address with any network. */
  lemma ChosenV4(s: State, want: Option<(nat, nat)>, gateway: Option<nat>)
    requires PlanOk(s.networks) && (want.Some? ==> IsAddress(V4, want.value.0))
    ensures ChooseV4(s, want, gateway).Ok? ==>
              var (sub, gw) := ChooseV4(s, want, gateway).value;
              && Valid(V4, sub) && Contains(V4, sub, gw)
              && forall n :: n in s.networks ==> !Share(V4, sub, s.networks[n].subnet)
  {
    if want.Some? {
      var (ip, prefix) := want.value;
      ParseIs(V4, ip, prefix);
      var p := Parse(V4, ip, prefix);
      if p.Ok? {
        DefaultGatewayUsable(V4, p.value);
        NoClashNoShare(s, p.value);
      }
    } else {
      var c := PickPredefined(s, 18);
      if c.Some? { Unclashing(s, c.value); }
    }
  }

  lemma NoClashNoShare(s: State, sub: Subnet)
    requires PlanOk(s.networks) && Valid(V4, sub)
    ensures !Clashes(s, sub) ==> forall n :: n in s.networks ==> !Share(V4, sub, s.networks[n].subnet)
  {
    forall n | n in s.networks
      ensures Overlaps(V4, sub, s.networks[n].subnet) <==> Share(V4, sub, s.networks[n].subnet)
    {
      OverlapsExact(V4, sub, s.networks[n].subnet);
    }
  }

  /** Any subnet that clashes with no network is apart from all of them and holds its first address. */
  lemma Unclashing(s: State, sub: Subnet)
    requires PlanOk(s.networks) && Valid(V4, sub) && !Clashes(s, sub)
    ensures Contains(V4, sub, sub.network + 1)
    ensures forall n :: n in s.networks ==> !Share(V4, sub, s.networks[n].subnet)
  {
    UsableRangeIs(V4, sub);
    DefaultGatewayUsable(V4, sub);
    NoClashNoShare(s, sub);
  }

  /** A carved /64 is well formed, holds its gateway, and shares no address with any network. */
  lemma ChosenV6(s: State, cfg: Option<PoolConfig>)
    requires PlanOk(s.networks) && Addressed(None, cfg)
    ensures ChooseV6(s, cfg).Ok? && ChooseV6(s, cfg).value.Some? ==>
              var d := ChooseV6(s, cfg).value.value;
              && Valid(V6, d.subnet) && d.subnet.prefix == SUBNET_PREFIX && Contains(V6, d.subnet, d.gateway)
              && forall n :: n in s.networks && s.networks[n].v6.Some? ==>
                   !Share(V6, d.subnet, s.networks[n].v6.value.subnet)
  {
    if cfg.Some? {
      var c := cfg.value;
      AssignIs(c.ip, c.prefix, c.hash, CarvedNetworks(s));
      var r := AssignFrom(c.ip, c.prefix, c.hash, CarvedNetworks(s));
      if r.Ok? {
        DefaultGatewayUsable(V6, r.value);
        forall n | n in s.networks && s.networks[n].v6.Some?
          ensures !Share(V6, r.value, s.networks[n].v6.value.subnet)
        {
          assert NetworkOk(s.networks[n]);
          assert s.networks[n].v6.value.subnet.network in CarvedNetworks(s);
          DistinctApart(r.value, s.networks[n].v6.value.subnet);
        }
      }
    }
  }

  lemma CreateKeeps(s: State, id: NetId, name: string, want: Option<(nat, nat)>, gateway: Option<nat>,
                    cfg: Option<PoolConfig>, bridgeUp: bool)
    requires Inv(s) && id !in s.networks
    requires Addressed(want, cfg)
    ensures Inv(Create(s, id, name, want, gateway, cfg, bridgeUp).0)
  {
    CreateIs(s, id, name, want, gateway, cfg, bridgeUp);
    var (z, r) := Create(s, id, name, want, gateway, cfg, bridgeUp);
    if r.Ok? {
      NewNetworkFits(s, id, r.value, want, gateway, cfg);
      GrowKeeps(s, id, r.value);
    }
  }

  lemma NewNetworkFits(s: State, id: NetId, net: Network, want: Option<(nat, nat)>, gateway: Option<nat>,
                       cfg: Option<PoolConfig>)
    requires PlanOk(s.networks) && id !in s.networks
    requires Addressed(want, cfg)
    requires ChooseV4(s, want, gateway) == Ok((net.subnet, net.gateway)) && ChooseV6(s, cfg) == Ok(net.v6)
    ensures PlanOk(s.networks[id := net])
  {
    ChosenV4(s, want, gateway);
    ChosenV6(s, cfg);
    AddNetwork(s.networks, id, net);
  }

  lemma GrowKeeps(s: State, id: NetId, net: Network)
    requires Inv(s) && id !in s.networks && PlanOk(s.networks[id := net])
    ensures Inv(s.(networks := s.networks[id := net]))
  {
    var z := s.(networks := s.networks[id := net]);
    assert LeasesOk(z) by { LeasesGrow(s, id, net); }
    assert PairsOk(z);
    assert NamesOk(z) by { NoNamesYet(s, id); }
  }

  lemma LeasesGrow(s: State, id: NetId, net: Network)
    requires PlanOk(s.networks) && LeasesOk(s) && id !in s.networks && PlanOk(s.networks[id := net])
    ensures LeasesOk(s.(networks := s.networks[id := net]))
  {
    var z := s.(networks := s.networks[id := net]);
    forall l | l in s.held4 ensures l.0 in z.networks && Lease4Ok(z.networks[l.0], l.1) {
      assert l.0 in s.networks && Lease4Ok(s.networks[l.0], l.1);
    }
    forall l | l in s.held6 ensures l.0 in z.networks && Lease6Ok(z.networks[l.0], l.1) {
      assert l.0 in s.networks && Lease6Ok(s.networks[l.0], l.1);
    }
  }

  lemma AddNetwork(networks: map<NetId, Network>, id: NetId, net: Network)
    requires PlanOk(networks) && id !in networks && NetworkOk(net)
    requires forall n :: n in networks ==> !Share(V4, net.subnet, networks[n].subnet)
    requires net.v6.Some? ==> forall n :: n in networks && networks[n].v6.Some? ==>
               !Share(V6, net.v6.value.subnet, networks[n].v6.value.subnet)
    ensures PlanOk(networks[id := net])
  {
    var z := networks[id := net];
    forall m, n | m in z && n in z && m != n ensures Disjoint(z[m], z[n]) {
      if m != id && n != id {
        assert Disjoint(networks[m], networks[n]);
      } else if n == id {
        assert Share(V4, z[m].subnet, z[n].subnet) == Share(V4, z[n].subnet, z[m].subnet);
        if z[m].v6.Some? && z[n].v6.Some? {
          assert Share(V6, z[m].v6.value.subnet, z[n].v6.value.subnet)
              == Share(V6, z[n].v6.value.subnet, z[m].v6.value.subnet);
        }
      }
    }
  }

  /** A network id not in use has no leases and no names. */
  lemma NoNamesYet(s: State, id: NetId)
    requires Inv(s) && id !in s.networks
    ensures forall k :: k in s.dns4 ==> k.0 != id
  {
    forall k | k in s.dns4 ensures k.0 != id { assert (k.0, s.dns4[k]) in s.held4; }
  }

  lemma RemoveKeeps(s: State, net: NetId)
    requires Inv(s)
    ensures Inv(Remove(s, net).0)
    ensures Remove(s, net).1.Ok? ==>
              var z := Remove(s, net).0;
              && (forall l :: l in z.held4 || l in z.held6 || l in z.pair ==> l.0 != net)
              && (forall k :: k in z.dns4 || k in z.dns6 ==> k.0 != net)
  {
    var z := Remove(s, net).0;
    if Remove(s, net).1.Ok? {
      assert PlanOk(z.networks);
      RemoveLeases(s, net);
      RemoveNames(s, net);
    }
  }

  lemma RemoveLeases(s: State, net: NetId)
    requires PlanOk(s.networks) && LeasesOk(s) && Remove(s, net).1.Ok? && PlanOk(Remove(s, net).0.networks)
    ensures LeasesOk(Remove(s, net).0)
  {
    var z := Remove(s, net).0;
    forall l | l in z.held4 ensures l.0 in z.networks && Lease4Ok(z.networks[l.0], l.1) {
      assert l in s.held4 && Lease4Ok(s.networks[l.0], l.1);
    }
    forall l | l in z.held6 ensures l.0 in z.networks && Lease6Ok(z.networks[l.0], l.1) {
      assert l in s.held6 && Lease6Ok(s.networks[l.0], l.1);
    }
  }

  lemma RemoveNames(s: State, net: NetId)
    requires PairsOk(s) && NamesOk(s) && Remove(s, net).1.Ok?
    ensures PairsOk(Remove(s, net).0) && NamesOk(Remove(s, net).0)
  {
  }

  lemma BootNetworkOk(v6: Option<Dual>)
    requires v6.Some? ==> Valid(V6, v6.value.subnet) && v6.value.subnet.prefix == SUBNET_PREFIX
                          && Contains(V6, v6.value.subnet, v6.value.gateway)
    ensures NetworkOk(Network("bridge", Predefined16(17), Predefined16(17).network + 1, v6))
  {
    Predefined16Valid(17);
    DefaultGatewayUsable(V4, Predefined16(17));
  }

  /** A single network and nothing leased. */
  lemma SingleOk(id: NetId, n: Network)
    requires NetworkOk(n)
    ensures Inv(State(map[id := n], {}, {}, map[], map[], map[]))
  {
  }

  lemma BootOk(id: NetId, cfg: Option<PoolConfig>)
    requires Addressed(None, cfg)
    ensures var v6 := ChooseV6(State(map[], {}, {}, map[], map[], map[]), cfg);
            v6.Ok? ==> Inv(Boot(id, v6.value))
  {
    var empty := State(map[], {}, {}, map[], map[], map[]);
    var v6 := ChooseV6(empty, cfg);
    ChosenV6(empty, cfg);
    if v6.Ok? {
      BootNetworkOk(v6.value);
      SingleOk(id, Network("bridge", Predefined16(17), Predefined16(17).network + 1, v6.value));
    }
  }
}
