/** The network manager itself, its maps updated in place, proved against the state machine. */
module NetworkManager {
  import opened Common
  import opened Subnets
  import opened Ipam
  import opened V6Carver
  import opened NetworkModel

  class Manager {
    var networks: map<NetId, Network>
    const leases4: Leases
    const leases6: Leases
    var pair: map<Lease, nat>
    var dns4: map<Key, nat>
    var dns6: map<Key, nat>

    ghost predicate Ready()
      reads this, leases4, leases6
    {
      leases4 != leases6 && leases4.family == V4 && leases6.family == V6 && Parsed(View())
    }

    ghost function View(): State
      reads this, leases4, leases6
    {
      State(networks, Held(leases4.buckets), Held(leases6.buckets), pair, dns4, dns6)
    }

    /** First boot, with the default bridge and its v6 half. */
    constructor (id: NetId, v6: Option<Dual>)
      requires v6.Some? ==> Valid(V6, v6.value.subnet)
      ensures Ready() && View() == Boot(id, v6) && fresh(leases4) && fresh(leases6)
    {
      BootParsed(id, v6);
      networks := map[id := Network("bridge", Predefined16(17), Predefined16(17).network + 1, v6)];
      leases4 := new Leases(V4);
      leases6 := new Leases(V6);
      pair, dns4, dns6 := map[], map[], map[];
    }

    /** Whether a candidate subnet overlaps an existing network. */
    method FindClash(sub: Subnet) returns (clash: bool)
      requires Ready() && Valid(V4, sub)
      ensures clash == Clashes(View(), sub)
    {
      var todo := networks.Keys;
      while todo != {}
        invariant todo <= networks.Keys
        invariant forall n :: n in networks && n !in todo ==> !Overlaps(V4, sub, networks[n].subnet)
        decreases |todo|
      {
        var n :| n in todo;
        if Overlaps(V4, sub, networks[n].subnet) {
          return true;
        }
        todo := todo - {n};
      }
      return false;
    }

    /** The first free predefined /16. */
    method PickSubnet() returns (chosen: Option<Subnet>)
      requires Ready()
      ensures chosen == PickPredefined(View(), 18)
    {
      for b := 18 to 32
        invariant PickPredefined(View(), 18) == PickPredefined(View(), b)
      {
        Predefined16Valid(b);
        var clash := FindClash(Predefined16(b));
        if !clash {
          return Some(Predefined16(b));
        }
      }
      return None;
    }

    method ChooseSubnet(want: Option<(nat, nat)>, gateway: Option<nat>) returns (r: Result<(Subnet, nat), Error>)
      requires Ready() && (want.Some? ==> IsAddress(V4, want.value.0))
      ensures r == ChooseV4(View(), want, gateway)
    {
      if want.None? {
        var chosen := PickSubnet();
        if chosen.None? {
          return Err(PoolsExhausted);
        }
        return Ok((chosen.value, chosen.value.network + 1));
      }
      r := ValidateRequest(want.value.0, want.value.1, gateway);
    }

    /** `validate_create_params`. */
    method ValidateRequest(ip: nat, prefix: nat, gateway: Option<nat>) returns (r: Result<(Subnet, nat), Error>)
      requires Ready() && IsAddress(V4, ip)
      ensures r == ValidateCreate(View(), ip, prefix, gateway)
    {
      ParseIs(V4, ip, prefix);
      var parsed := Parse(V4, ip, prefix);
      if parsed.Err? {
        return Err(BadSubnet);
      }
      if gateway.Some? && !Contains(V4, parsed.value, gateway.value) {
        return Err(BadGateway);
      }
      var clash := FindClash(parsed.value);
      if clash {
        return Err(Overlap);
      }
      return Ok((parsed.value, if gateway.Some? then gateway.value else DefaultGateway(V4, parsed.value)));
    }

    /** The v6 half of a new network, carved before anything is changed. */
    method CarveSubnet(cfg: Option<PoolConfig>) returns (r: Result<Option<Dual>, Error>)
      requires Addressed(None, cfg)
      ensures r == ChooseV6(View(), cfg)
    {
      if cfg.None? {
        return Ok(None);
      }
      var used := set n | n in networks && networks[n].v6.Some? :: networks[n].v6.value.subnet.network;
      assert used == CarvedNetworks(View());
      AssignIs(cfg.value.ip, cfg.value.prefix, cfg.value.hash, used);
      var carved := AssignV6Subnet(cfg.value.ip, cfg.value.prefix, cfg.value.hash, used);
      if carved.Err? {
        return Err(NoV6Subnet(carved.error));
      }
      return Ok(Some(Dual(carved.value, DefaultGateway(V6, carved.value))));
    }

    /** Everything a create decides before it changes anything. */
    method DesignNetwork(name: string, want: Option<(nat, nat)>, gateway: Option<nat>,
                         cfg: Option<PoolConfig>, bridgeUp: bool) returns (r: Result<Network, Error>)
      requires Ready() && Addressed(want, cfg)
      ensures r == Design(View(), name, want, gateway, cfg, bridgeUp)
    {
      if exists n :: n in networks && networks[n].name == name {
        return Err(NameTaken);
      }
      var v4 := ChooseSubnet(want, gateway);
      if v4.Err? {
        return Err(v4.error);
      }
      var v6 := CarveSubnet(cfg);
      return Settle(name, v4, v6, bridgeUp);
    }

    method CreateNetwork(id: NetId, name: string, want: Option<(nat, nat)>, gateway: Option<nat>,
                         cfg: Option<PoolConfig>, bridgeUp: bool) returns (r: Result<Network, Error>)
      requires Ready() && Addressed(want, cfg)
      modifies this
      ensures Ready()
      ensures (View(), r) == Create(old(View()), id, name, want, gateway, cfg, bridgeUp)
    {
      r := DesignNetwork(name, want, gateway, cfg, bridgeUp);
      if r.Ok? {
        ParsedGrows(View(), id, r.value);
        networks := networks[id := r.value];
      }
    }

    method RemoveNetwork(net: NetId) returns (r: Result<(), Error>)
      requires Ready()
      modifies this, leases4, leases6
      ensures Ready()
      ensures (View(), r) == Remove(old(View()), net)
    {
      if net !in networks {
        return Err(NoNetwork);
      }
      if networks[net].name == "bridge" {
        return Err(Predefined);
      }
      networks := networks - {net};
      dns4 := map k | k in dns4 && k.0 != net :: dns4[k];
      dns6 := map k | k in dns6 && k.0 != net :: dns6[k];
      leases4.ResetBucket(net);
      leases6.ResetBucket(net);
      pair := map l | l in pair && l.0 != net :: pair[l];
      return Ok(());
    }

    /** The DNS and pair-map updates at the end of a successful wire. */
    method RegisterEndpoint(net: NetId, ep: Endpoint, names: seq<Name>)
      modifies this
      ensures View() == Register(old(View()), net, ep, names)
      ensures networks == old(networks)
    {
      var table4 := PointNames(dns4, net, names, ep.ip);
      dns4 := table4;
      if ep.ip6.Some? {
        var table6 := PointNames(dns6, net, names, ep.ip6.value);
        dns6 := table6;
        pair := pair[(net, ep.ip) := ep.ip6.value];
      }
    }

    /** Lease the requested v4 address, or the lowest free one. */
    method LeaseV4(net: NetId, requested: Option<nat>) returns (a: Result<nat, LeaseError>)
      requires Ready() && net in networks
      modifies leases4
      ensures a == DrawV4(old(View()), net, requested)
      ensures View() == if a.Ok? then Hold4(old(View()), net, a.value) else old(View())
    {
      var n := networks[net];
      if requested.Some? {
        a := leases4.ReserveAddress(net, n.subnet, n.gateway, requested.value);
      } else {
        a := leases4.AllocateLowest(net, n.subnet, n.gateway);
      }
    }

    /** Draw a v6 lease when the network is dual-stack. */
    method LeaseV6(net: NetId) returns (r: Result<Option<nat>, Error>)
      requires Ready() && net in networks
      modifies leases6
      ensures r == DrawV6(old(View()), net)
      ensures View() == if r.Ok? then Hold6(old(View()), net, r.value) else old(View())
    {
      var v6 := networks[net].v6;
      if v6.None? {
        return Ok(None);
      }
      var b := leases6.AllocateLowest(net, v6.value.subnet, v6.value.gateway);
      if b.Err? {
        return Err(NoV6Lease(b.error));
      }
      return Ok(Some(b.value));
    }

    /** `attach`. */
    method AttachEndpoint(net: NetId, requested: Option<nat>, names: seq<Name>, host: Host)
      returns (r: Result<Endpoint, Error>)
      requires Ready()
      modifies this, leases4, leases6
      ensures Ready()
      ensures (View(), r) == Attach(old(View()), net, requested, names, host)
    {
      if net !in networks {
        return Err(NoNetwork);
      }
      if !host.bridgeUp {
        return Err(BridgeDown);
      }
      var a := LeaseV4(net, requested);
      if a.Err? {
        return Err(NoLease(a.error));
      }
      var b := LeaseV6(net);
      if b.Err? {
        return Err(b.error);
      }
      var ip6 := b.value;
      if !host.wired {
        leases4.Release(net, a.value);
        if ip6.Some? {
          leases6.Release(net, ip6.value);
        }
        return Err(NotWired);
      }
      RegisterEndpoint(net, Endpoint(a.value, ip6), names);
      return Ok(Endpoint(a.value, ip6));
    }

    /** `rewire`. */
    method RewireEndpoint(net: NetId, ip: nat, names: seq<Name>, host: Host) returns (r: Result<Endpoint, Error>)
      requires Ready()
      modifies this, leases6
      ensures Ready()
      ensures (View(), r) == Rewire(old(View()), net, ip, names, host)
    {
      if net !in networks {
        return Err(NoNetwork);
      }
      if !host.bridgeUp {
        return Err(BridgeDown);
      }
      var b := LeaseV6(net);
      if b.Err? {
        return Err(b.error);
      }
      var ip6 := b.value;
      if !host.wired {
        if ip6.Some? {
          leases6.Release(net, ip6.value);
        }
        return Err(NotWired);
      }
      RegisterEndpoint(net, Endpoint(ip, ip6), names);
      return Ok(Endpoint(ip, ip6));
    }

    /** `detach`. */
    method DetachEndpoint(net: NetId, ip: nat, names: seq<Name>)
      requires Ready()
      modifies this, leases4, leases6
      ensures Ready()
      ensures View() == Detach(old(View()), net, ip, names)
    {
      leases4.Release(net, ip);
      var table4 := ScrubNames(dns4, net, names, ip);
      dns4 := table4;
      if (net, ip) in pair {
        var ip6 := pair[(net, ip)];
        pair := pair - {(net, ip)};
        leases6.Release(net, ip6);
        var table6 := ScrubNames(dns6, net, names, ip6);
        dns6 := table6;
      }
    }
  }

  lemma ParsedGrows(s: State, id: NetId, net: Network)
    requires Parsed(s) && Valid(V4, net.subnet) && (net.v6.Some? ==> Valid(V6, net.v6.value.subnet))
    ensures Parsed(s.(networks := s.networks[id := net]))
  {
  }

  lemma PointStep(m: map<Key, nat>, keys: set<Key>, k: Key, v: nat)
    ensures Point(m, keys, v)[k := v] == Point(m, keys + {k}, v)
  {
  }

  lemma ScrubStep(m: map<Key, nat>, keys: set<Key>, k: Key, v: nat)
    ensures var r := Scrub(m, keys, v);
            (if k in r && r[k] == v then r - {k} else r) == Scrub(m, keys + {k}, v)
  {
  }

  /** Register every name of an endpoint. */
  method PointNames(table: map<Key, nat>, net: NetId, names: seq<Name>, v: nat) returns (r: map<Key, nat>)
    ensures r == Point(table, Keys(net, names), v)
  {
    r := table;
    ghost var keys: set<Key> := {};
    assert Point(table, keys, v) == table;
    for i := 0 to |names|
      invariant keys == Keys(net, names[..i])
      invariant r == Point(table, keys, v)
    {
      PointStep(table, keys, (net, names[i]), v);
      r := r[(net, names[i]) := v];
      keys := KeysStep(keys, net, names, i);
    }
    assert names[..|names|] == names;
  }

  /** The keys of one name more. */
  ghost function KeysStep(keys: set<Key>, net: NetId, names: seq<Name>, i: nat): (r: set<Key>)
    requires i < |names| && keys == Keys(net, names[..i])
    ensures r == Keys(net, names[..i + 1])
  {
    assert names[..i + 1] == names[..i] + [names[i]];
    keys + {(net, names[i])}
  }

  /** Drop the names of an endpoint that still point at it. */
  method ScrubNames(table: map<Key, nat>, net: NetId, names: seq<Name>, v: nat) returns (r: map<Key, nat>)
    ensures r == Scrub(table, Keys(net, names), v)
  {
    r := table;
    ghost var keys: set<Key> := {};
    assert Scrub(table, keys, v) == table;
    for i := 0 to |names|
      invariant keys == Keys(net, names[..i])
      invariant r == Scrub(table, keys, v)
    {
      var k := (net, names[i]);
      ScrubStep(table, keys, k, v);
      if k in r && r[k] == v {
        r := r - {k};
      }
      keys := KeysStep(keys, net, names, i);
    }
    assert names[..|names|] == names;
  }
}
