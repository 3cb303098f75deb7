/** Endpoints: attach, rewire and detach over whole runs of the network manager. */
module NetworkRuns {
  import opened Common
  import opened Ipam
  import opened NetworkModel
  import opened NetworkProofs

  /** Every name that resolves to the endpoint is among `names`. */
  ghost predicate NamesWithin(s: State, net: NetId, ip: nat, names: seq<Name>) {
    forall k :: k in s.dns4 && k.0 == net && s.dns4[k] == ip ==> k in Keys(net, names)
  }

  /** A v6 address no endpoint of the network has. */
  ghost predicate Unpaired(s: State, net: NetId, ip6: nat) {
    forall l :: l in s.pair && l.0 == net ==> s.pair[l] != ip6
  }

  // --- leases grow and shrink -------------------------------------------------

  lemma Hold4Keeps(s: State, net: NetId, a: nat)
    requires Inv(s) && net in s.networks && Lease4Ok(s.networks[net], a)
    ensures Inv(s.(held4 := s.held4 + {(net, a)}))
  {
    var z := s.(held4 := s.held4 + {(net, a)});
    assert LeasesOk(z);
    assert PairsOk(z);
  }

  lemma Hold6Keeps(s: State, net: NetId, a: nat)
    requires Inv(s) && net in s.networks && Lease6Ok(s.networks[net], a)
    ensures Inv(s.(held6 := s.held6 + {(net, a)}))
  {
    var z := s.(held6 := s.held6 + {(net, a)});
    assert LeasesOk(z);
    assert PairsOk(z);
  }

  /** A drawn v6 address is leasable and belongs to no endpoint. */
  lemma DrawnV6(s: State, net: NetId)
    requires Inv(s) && net in s.networks
    ensures var b := DrawV6(s, net);
            b.Ok? ==> && (b.value.Some? <==> s.networks[net].v6.Some?)
                      && (b.value.Some? ==> Lease6Ok(s.networks[net], b.value.value)
                                            && (net, b.value.value) !in s.held6
                                            && Unpaired(s, net, b.value.value))
  {
  }

  // --- registration -----------------------------------------------------------

  lemma RegisterPairs(s: State, net: NetId, ep: Endpoint, names: seq<Name>)
    requires PairsOk(s) && (net, ep.ip) in s.held4
    requires ep.ip6.Some? ==> (net, ep.ip6.value) in s.held6 && Unpaired(s, net, ep.ip6.value)
    ensures PairsOk(Register(s, net, ep, names))
  {
  }

  /** On a v4-only network no name has an AAAA entry. */
  lemma {:induction false} NoV6Names(s: State, net: NetId)
    requires Inv(s) && net in s.networks && s.networks[net].v6.None?
    ensures forall k :: k in s.dns6 ==> k.0 != net
  {
    forall k | k in s.dns6 ensures k.0 != net {
      var l := (k.0, s.dns4[k]);
      assert l in s.pair && (l.0, s.pair[l]) in s.held6;
    }
  }

  /** One AAAA entry after a registration. */
  lemma RegisterName6(s: State, net: NetId, ep: Endpoint, names: seq<Name>, k: Key)
    requires NamesOk(s) && ep.ip6.Some? && NamesWithin(s, net, ep.ip, names)
    requires k in Register(s, net, ep, names).dns6
    ensures var z := Register(s, net, ep, names);
            k in z.dns4 && (k.0, z.dns4[k]) in z.pair && z.pair[(k.0, z.dns4[k])] == z.dns6[k]
  {
    if k !in Keys(net, names) {
      assert k in s.dns6 && k in s.dns4;
      assert (k.0, s.dns4[k]) != (net, ep.ip);
    }
  }

  lemma RegisterNames(s: State, net: NetId, ep: Endpoint, names: seq<Name>)
    requires NamesOk(s) && net in s.networks && (net, ep.ip) in s.held4
    requires ep.ip6.Some? <==> s.networks[net].v6.Some?
    requires if ep.ip6.Some? then NamesWithin(s, net, ep.ip, names) else forall k :: k in s.dns6 ==> k.0 != net
    ensures NamesOk(Register(s, net, ep, names))
  {
    var z := Register(s, net, ep, names);
    var keys := Keys(net, names);
    assert forall k :: k in keys ==> k.0 == net;
    forall k | k in z.dns4 ensures (k.0, z.dns4[k]) in z.held4 {
      if k !in keys { assert (k.0, s.dns4[k]) in s.held4; }
    }
    if ep.ip6.Some? {
      forall k | k in z.dns6
        ensures k in z.dns4 && (k.0, z.dns4[k]) in z.pair && z.pair[(k.0, z.dns4[k])] == z.dns6[k]
      {
        RegisterName6(s, net, ep, names, k);
      }
    }
  }

  lemma RegisterKeeps(s: State, net: NetId, ep: Endpoint, names: seq<Name>)
    requires Inv(s) && net in s.networks && (net, ep.ip) in s.held4
    requires ep.ip6.Some? <==> s.networks[net].v6.Some?
    requires ep.ip6.Some? ==> (net, ep.ip6.value) in s.held6 && Unpaired(s, net, ep.ip6.value)
                              && NamesWithin(s, net, ep.ip, names)
    ensures Inv(Register(s, net, ep, names))
  {
    RegisterPairs(s, net, ep, names);
    if ep.ip6.None? { NoV6Names(s, net); }
    RegisterNames(s, net, ep, names);
    var z := Register(s, net, ep, names);
    assert z.networks == s.networks && z.held4 == s.held4 && z.held6 == s.held6;
  }

  // --- attach -------------------------------------------------------------------

  lemma AttachKeeps(s: State, net: NetId, requested: Option<nat>, names: seq<Name>, host: Host)
    requires Inv(s)
    ensures Inv(Attach(s, net, requested, names, host).0)
  {
    if net in s.networks && host.bridgeUp {
      var n := s.networks[net];
      var a := DrawV4(s, net, requested);
      if a.Ok? {
        var s1 := Hold4(s, net, a.value);
        Hold4Keeps(s, net, a.value);
        var b := DrawV6(s1, net);
        if b.Ok? && host.wired {
          DrawnV6(s1, net);
          if b.value.Some? { Hold6Keeps(s1, net, b.value.value); }
          FreshHasNoNames(s, net, a.value, names);
          RegisterKeeps(Hold6(s1, net, b.value), net, Endpoint(a.value, b.value), names);
        }
      }
    }
  }

  /** No name resolves to an address that is not leased. */
  lemma FreshHasNoNames(s: State, net: NetId, a: nat, names: seq<Name>)
    requires Inv(s) && (net, a) !in s.held4
    ensures NamesWithin(s, net, a, names)
  {
    forall k | k in s.dns4 && k.0 == net ensures s.dns4[k] != a {
      assert (k.0, s.dns4[k]) in s.held4;
    }
  }

  /** The v4 address an attach is going to get. */
  ghost predicate V4Available(s: State, net: NetId, requested: Option<nat>)
    requires Inv(s) && net in s.networks
  {
    var n := s.networks[net];
    if requested.Some? then Lease4Ok(n, requested.value) && (net, requested.value) !in s.held4
    else exists a: nat :: Lease4Ok(n, a) && (net, a) !in s.held4
  }

  /** A dual-stack network whose every v6 address is leased. */
  ghost predicate V6Exhausted(s: State, net: NetId)
    requires Inv(s) && net in s.networks
  {
    s.networks[net].v6.Some? && forall a: nat :: Lease6Ok(s.networks[net], a) ==> (net, a) in s.held6
  }

  /**
   * An attach that fails leaves the state as it was, except in one case: the bridge came
   * up, the v4 lease was there to take and the v6 range was full. Then the v4 lease stays behind.
   */
  lemma FailedAttachRollsBackIff(s: State, net: NetId, requested: Option<nat>, names: seq<Name>, host: Host)
    requires Inv(s) && Attach(s, net, requested, names, host).1.Err?
    ensures Attach(s, net, requested, names, host).0 == s
            <==> !(net in s.networks && host.bridgeUp && V4Available(s, net, requested) && V6Exhausted(s, net))
  {
    if net in s.networks && host.bridgeUp {
      var n := s.networks[net];
      var a := DrawV4(s, net, requested);
      assert NetworkOk(n);
      assert a.Ok? <==> V4Available(s, net, requested);
      if a.Ok? {
        var s1 := Hold4(s, net, a.value);
        assert s1 != s by { assert (net, a.value) !in s.held4; }
        assert DrawV6(s1, net) == DrawV6(s, net);
        assert DrawV6(s, net).Err? <==> V6Exhausted(s, net);
      }
    }
  }

  // --- rewire ---------------------------------------------------------------------

  /** What a restart must bring: a lease that is held, and on a dual-stack network every recorded name. */
  ghost predicate Rewirable(s: State, net: NetId, ip: nat, names: seq<Name>) {
    net in s.networks ==>
      (net, ip) in s.held4 && (s.networks[net].v6.Some? ==> NamesWithin(s, net, ip, names))
  }

  lemma RewireKeeps(s: State, net: NetId, ip: nat, names: seq<Name>, host: Host)
    requires Inv(s) && Rewirable(s, net, ip, names)
    ensures Inv(Rewire(s, net, ip, names, host).0)
  {
    if net in s.networks && host.bridgeUp {
      var b := DrawV6(s, net);
      if b.Ok? && host.wired {
        DrawnV6(s, net);
        if b.value.Some? { Hold6Keeps(s, net, b.value.value); }
        RegisterKeeps(Hold6(s, net, b.value), net, Endpoint(ip, b.value), names);
      }
    }
  }

  /** A rewire that takes effect keeps the invariant only when it was brought what it needs. */
  lemma RewireKeepsIff(s: State, net: NetId, ip: nat, names: seq<Name>)
    requires Inv(s) && names != [] && Rewire(s, net, ip, names, GOOD_HOST).1.Ok?
    ensures Inv(Rewire(s, net, ip, names, GOOD_HOST).0) <==> Rewirable(s, net, ip, names)
  {
    if Rewirable(s, net, ip, names) {
      RewireKeeps(s, net, ip, names, GOOD_HOST);
    } else {
      var b := DrawV6(s, net).value;
      DrawnV6(s, net);
      StaleNameBreaks(Hold6(s, net, b), net, Endpoint(ip, b), names);
    }
  }

  /** Registering an unleased address, or leaving a name on the endpoint's old v6 address, breaks the names. */
  lemma StaleNameBreaks(s: State, net: NetId, ep: Endpoint, names: seq<Name>)
    requires NamesOk(s) && names != [] && net in s.networks
    requires ep.ip6.Some? <==> s.networks[net].v6.Some?
    requires ep.ip6.Some? ==> Unpaired(s, net, ep.ip6.value)
    requires (net, ep.ip) !in s.held4 || (ep.ip6.Some? && !NamesWithin(s, net, ep.ip, names))
    ensures !NamesOk(Register(s, net, ep, names))
  {
    var z := Register(s, net, ep, names);
    if (net, ep.ip) !in s.held4 {
      var k := (net, names[0]);
      assert k in Keys(net, names) && z.dns4[k] == ep.ip;
    } else {
      var k :| k in s.dns4 && k.0 == net && s.dns4[k] == ep.ip && k !in Keys(net, names);
      assert k in s.dns6 && s.pair[(net, ep.ip)] == s.dns6[k];
      assert k in z.dns6 && z.dns6[k] == s.dns6[k] && z.dns4[k] == ep.ip;
    }
  }

  // --- detach -----------------------------------------------------------------------

  lemma DetachLeases(s: State, net: NetId, ip: nat, names: seq<Name>)
    requires PlanOk(s.networks) && LeasesOk(s)
    ensures LeasesOk(Detach(s, net, ip, names))
  {
    var z := Detach(s, net, ip, names);
    forall l | l in z.held4 ensures l.0 in z.networks && Lease4Ok(z.networks[l.0], l.1) { assert l in s.held4; }
    forall l | l in z.held6 ensures l.0 in z.networks && Lease6Ok(z.networks[l.0], l.1) { assert l in s.held6; }
  }

  lemma DetachPairs(s: State, net: NetId, ip: nat, names: seq<Name>)
    requires PairsOk(s)
    ensures PairsOk(Detach(s, net, ip, names))
  {
    var z := Detach(s, net, ip, names);
    forall l | l in z.pair ensures l in z.held4 && (l.0, z.pair[l]) in z.held6 {
      assert l in s.pair && l != (net, ip);
    }
  }

  /** An A entry that survives a detach points at an address that is still leased. */
  lemma DetachLeased(s: State, net: NetId, ip: nat, names: seq<Name>)
    requires NamesLeased(s) && NamesWithin(s, net, ip, names)
    ensures NamesLeased(Detach(s, net, ip, names))
  {
    var z := Detach(s, net, ip, names);
    forall k | k in z.dns4 ensures (k.0, z.dns4[k]) in z.held4 {
      assert k in s.dns4 && (k.0, s.dns4[k]) in s.held4;
    }
  }

  lemma DetachTwinned(s: State, net: NetId, ip: nat, names: seq<Name>)
    requires PairsOk(s) && NamesOk(s)
    ensures NamesTwinned(Detach(s, net, ip, names))
  {
    var z := Detach(s, net, ip, names);
    forall k | k in z.dns4 && k.0 in z.networks && z.networks[k.0].v6.Some? ensures k in z.dns6 {
      assert k in s.dns4 && k in s.dns6;
      DetachKeepsTwin(s, net, ip, names, k);
    }
  }

  lemma DetachNames(s: State, net: NetId, ip: nat, names: seq<Name>)
    requires PairsOk(s) && NamesOk(s) && NamesWithin(s, net, ip, names)
    ensures NamesOk(Detach(s, net, ip, names))
  {
    var z := Detach(s, net, ip, names);
    DetachLeased(s, net, ip, names);
    DetachTwinned(s, net, ip, names);
    forall k | k in z.dns6
      ensures k in z.dns4 && (k.0, z.dns4[k]) in z.pair && z.pair[(k.0, z.dns4[k])] == z.dns6[k]
    {
      DetachName6(s, net, ip, names, k);
    }
  }

  /** An AAAA entry that survives a detach belongs to an endpoint that does. */
  lemma DetachName6(s: State, net: NetId, ip: nat, names: seq<Name>, k: Key)
    requires PairsOk(s) && NamesOk(s) && NamesWithin(s, net, ip, names)
    requires k in Detach(s, net, ip, names).dns6
    ensures var z := Detach(s, net, ip, names);
            k in z.dns4 && (k.0, z.dns4[k]) in z.pair && z.pair[(k.0, z.dns4[k])] == z.dns6[k]
  {
    assert k in s.dns6 && k in s.dns4 && s.pair[(k.0, s.dns4[k])] == s.dns6[k];
  }

  /** An A entry that survives a detach keeps its AAAA entry. */
  lemma DetachKeepsTwin(s: State, net: NetId, ip: nat, names: seq<Name>, k: Key)
    requires PairsOk(s) && NamesOk(s) && k in Detach(s, net, ip, names).dns4 && k in s.dns6
    ensures k in Detach(s, net, ip, names).dns6
  {
  }

  lemma DetachKeeps(s: State, net: NetId, ip: nat, names: seq<Name>)
    requires Inv(s) && NamesWithin(s, net, ip, names)
    ensures Inv(Detach(s, net, ip, names))
  {
    DetachLeases(s, net, ip, names);
    DetachPairs(s, net, ip, names);
    DetachNames(s, net, ip, names);
  }

  /** A detach keeps the invariant exactly when it is given all the names of the endpoint. */
  lemma DetachKeepsIff(s: State, net: NetId, ip: nat, names: seq<Name>)
    requires Inv(s)
    ensures Inv(Detach(s, net, ip, names)) <==> NamesWithin(s, net, ip, names)
  {
    var z := Detach(s, net, ip, names);
    if NamesWithin(s, net, ip, names) {
      DetachKeeps(s, net, ip, names);
    } else {
      var k :| k in s.dns4 && k.0 == net && s.dns4[k] == ip && k !in Keys(net, names);
      assert k in z.dns4 && z.dns4[k] == ip;
      assert (net, ip) !in z.held4;
    }
  }

  /** Attaching and detaching again gives every lease, pair and name of the endpoint back. */
  lemma AttachDetach(s: State, net: NetId, requested: Option<nat>, names: seq<Name>)
    requires Inv(s) && Attach(s, net, requested, names, GOOD_HOST).1.Ok?
    requires forall k :: k in Keys(net, names) ==> k !in s.dns4
    ensures var (s1, r) := Attach(s, net, requested, names, GOOD_HOST);
            Detach(s1, net, r.value.ip, names) == s
  {
    var (s1, r) := Attach(s, net, requested, names, GOOD_HOST);
    var ep := r.value;
    AttachIs(s, net, requested, names);
    assert PairsOk(s) && NamesOk(s);
    RegisterDetach(s, net, ep, names);
  }

  /** A successful attach: two addresses nobody held, then the registration. */
  lemma AttachIs(s: State, net: NetId, requested: Option<nat>, names: seq<Name>)
    requires Parsed(s) && Attach(s, net, requested, names, GOOD_HOST).1.Ok?
    ensures var (s1, r) := Attach(s, net, requested, names, GOOD_HOST);
            var ep := r.value;
            && (net, ep.ip) !in s.held4 && (ep.ip6.Some? ==> (net, ep.ip6.value) !in s.held6)
            && s1 == Register(Hold6(s.(held4 := s.held4 + {(net, ep.ip)}), net, ep.ip6), net, ep, names)
  {
  }

  lemma RegisterDetach(s: State, net: NetId, ep: Endpoint, names: seq<Name>)
    requires (net, ep.ip) !in s.held4 && (net, ep.ip) !in s.pair
    requires ep.ip6.Some? ==> (net, ep.ip6.value) !in s.held6
    requires forall k :: k in Keys(net, names) ==> k !in s.dns4 && k !in s.dns6
    ensures var s1 := Hold6(s.(held4 := s.held4 + {(net, ep.ip)}), net, ep.ip6);
            Detach(Register(s1, net, ep, names), net, ep.ip, names) == s
  {
    var keys := Keys(net, names);
    assert Scrub(Point(s.dns4, keys, ep.ip), keys, ep.ip) == s.dns4;
    assert s.held4 + {(net, ep.ip)} - {(net, ep.ip)} == s.held4;
    if ep.ip6.Some? {
      var a := ep.ip6.value;
      assert Scrub(Point(s.dns6, keys, a), keys, a) == s.dns6;
      assert s.held6 + {(net, a)} - {(net, a)} == s.held6;
      assert s.pair[(net, ep.ip) := a] - {(net, ep.ip)} == s.pair;
    }
  }

  // --- whole runs -------------------------------------------------------------------

  datatype Call =
    | CreateCall(id: NetId, name: string, want: Option<(nat, nat)>, gateway: Option<nat>,
                 cfg: Option<PoolConfig>, bridgeUp: bool)
    | RemoveCall(net: NetId)
    | AttachCall(net: NetId, requested: Option<nat>, names: seq<Name>, host: Host)
    | RewireCall(net: NetId, ip: nat, names: seq<Name>, host: Host)
    | DetachCall(net: NetId, ip: nat, names: seq<Name>)

  /** What the callers bring: a new id and 32-bit addresses, recorded leases and names. */
  ghost predicate Legal(s: State, c: Call) {
    match c
    case CreateCall(id, _, want, _, cfg, _) =>
      id !in s.networks && Addressed(want, cfg)
    case RewireCall(net, ip, names, _) => Rewirable(s, net, ip, names)
    case DetachCall(net, ip, names) => NamesWithin(s, net, ip, names)
    case _ => true
  }

  function Step(s: State, c: Call): State
    requires Parsed(s) && Legal(s, c)
  {
    match c
    case CreateCall(id, name, want, gateway, cfg, bridgeUp) => Create(s, id, name, want, gateway, cfg, bridgeUp).0
    case RemoveCall(net) => Remove(s, net).0
    case AttachCall(net, requested, names, host) => Attach(s, net, requested, names, host).0
    case RewireCall(net, ip, names, host) => Rewire(s, net, ip, names, host).0
    case DetachCall(net, ip, names) => Detach(s, net, ip, names)
  }

  lemma StepKeeps(s: State, c: Call)
    requires Inv(s) && Legal(s, c)
    ensures Parsed(s) && Inv(Step(s, c))
  {
    assert forall n :: n in s.networks ==> NetworkOk(s.networks[n]);
    match c
    case CreateCall(id, name, want, gateway, cfg, bridgeUp) => CreateKeeps(s, id, name, want, gateway, cfg, bridgeUp);
    case RemoveCall(net) => RemoveKeeps(s, net);
    case AttachCall(net, requested, names, host) => AttachKeeps(s, net, requested, names, host);
    case RewireCall(net, ip, names, host) => RewireKeeps(s, net, ip, names, host);
    case DetachCall(net, ip, names) => DetachKeeps(s, net, ip, names);
  }

  /** `z` is reached from `s` by legal calls. Parsed only makes Step defined; every reached state has it. */
  ghost predicate Reaches(s: State, cs: seq<Call>, z: State)
    decreases |cs|
  {
    if cs == [] then z == s
    else Parsed(s) && Legal(s, cs[0]) && Reaches(Step(s, cs[0]), cs[1..], z)
  }

  lemma {:induction false} RunKeeps(s: State, cs: seq<Call>, z: State)
    requires Inv(s) && Reaches(s, cs, z)
    ensures Inv(z)
    decreases |cs|
  {
    if cs != [] {
      StepKeeps(s, cs[0]);
      RunKeeps(Step(s, cs[0]), cs[1..], z);
    }
  }

  /**
   * In every run from a fresh boot: subnets are disjoint as whole blocks, gateways
   * usable, no address is leased on two networks, pairs are injective with both sides
   * leased, and names point at leased addresses of one endpoint.
   */
  lemma EveryRunFromBoot(id: NetId, cfg: Option<PoolConfig>, cs: seq<Call>, z: State)
    requires Addressed(None, cfg)
    ensures var v6 := ChooseV6(State(map[], {}, {}, map[], map[], map[]), cfg);
            v6.Ok? && Reaches(Boot(id, v6.value), cs, z) ==>
              && Inv(z)
              && (forall m, n, a :: (m, a) in z.held4 && (n, a) in z.held4 ==> m == n)
              && (forall m, n, a :: (m, a) in z.held6 && (n, a) in z.held6 ==> m == n)
  {
    var v6 := ChooseV6(State(map[], {}, {}, map[], map[], map[]), cfg);
    if v6.Ok? && Reaches(Boot(id, v6.value), cs, z) {
      BootOk(id, cfg);
      RunKeeps(Boot(id, v6.value), cs, z);
      forall m, n, a: nat | (m, a) in z.held4 && (n, a) in z.held4 ensures m == n { LeasedOnce(z, m, n, a); }
      forall m, n, a: nat | (m, a) in z.held6 && (n, a) in z.held6 ensures m == n { LeasedOnce(z, m, n, a); }
    }
  }
}
