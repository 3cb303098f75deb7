/** Calls that break the manager's invariant or leak a lease: each failing family, shown on every state it can meet. */
module NetworkLimits {
  import opened Common
  import opened Subnets
  import opened Ipam
  import opened NetworkModel
  import opened NetworkProofs
  import opened NetworkRuns

  /** Every name of a successful attach resolves to the new endpoint. */
  lemma {:induction false} AttachNames(s: State, net: NetId, requested: Option<nat>, names: seq<Name>, x: Name)
    requires Parsed(s) && x in names && Attach(s, net, requested, names, GOOD_HOST).1.Ok?
    ensures var (z, r) := Attach(s, net, requested, names, GOOD_HOST);
            (net, x) in z.dns4 && z.dns4[(net, x)] == r.value.ip
  {
    assert (net, x) in Keys(net, names);
  }

  /** From any state with a name in it: detaching its endpoint without the name leaves it on an unleased address. */
  lemma ForgottenNameBreaks(s: State, k: Key)
    requires Inv(s) && k in s.dns4
    ensures !Inv(Detach(s, k.0, s.dns4[k], []))
  {
    assert k !in Keys(k.0, []);
    DetachKeepsIff(s, k.0, s.dns4[k], []);
  }

  /** Rewiring a dual-stack endpoint under another name leaves the old name on its old v6 address. */
  lemma OtherNameBreaks(s: State, k: Key, other: Name)
    requires Inv(s) && k in s.dns4 && other != k.1 && k.0 in s.networks && s.networks[k.0].v6.Some?
    ensures var (z, r) := Rewire(s, k.0, s.dns4[k], [other], GOOD_HOST); r.Ok? ==> !Inv(z)
  {
    assert k !in Keys(k.0, [other]);
    if Rewire(s, k.0, s.dns4[k], [other], GOOD_HOST).1.Ok? { RewireKeepsIff(s, k.0, s.dns4[k], [other]); }
  }

  /** A state with every v6 address of one network leased. */
  ghost function Full(s: State, net: NetId, d: Dual): State
    requires Valid(V6, d.subnet)
  {
    var all := set a: nat | d.subnet.network < a <= LastUsable(V6, d.subnet) && a != d.gateway :: (net, a);
    s.(held6 := s.held6 + all)
  }

  lemma FullIs(s: State, net: NetId, d: Dual, a: nat)
    requires Valid(V6, d.subnet) && s.held6 == {}
    ensures (net, a) in Full(s, net, d).held6 <==> Leasable(V6, d.subnet, d.gateway, a)
    ensures forall l :: l in Full(s, net, d).held6 ==> l.0 == net
  {
  }

  lemma FullExhausted(s: State, net: NetId, d: Dual)
    requires Inv(s) && net in s.networks && s.networks[net].v6 == Some(d) && Valid(V6, d.subnet) && s.held6 == {}
    ensures Inv(Full(s, net, d)) && V6Exhausted(Full(s, net, d), net)
  {
    var z := Full(s, net, d);
    forall l | l in z.held6 ensures l.0 in z.networks && Lease6Ok(z.networks[l.0], l.1) {
      FullIs(s, net, d, l.1);
    }
    assert LeasesOk(z) && PairsOk(z) && NamesOk(z);
    forall a: nat | Lease6Ok(z.networks[net], a) ensures (net, a) in z.held6 {
      FullIs(s, net, d, a);
    }
  }

  /** The default bridge has a v4 address to give. */
  lemma BootHasV4(s: State, id: NetId)
    requires Inv(s) && id in s.networks && s.held4 == {}
    requires s.networks[id].subnet == Predefined16(17) && s.networks[id].gateway == Predefined16(17).network + 1
    ensures V4Available(s, id, None)
  {
    var sub := s.networks[id].subnet;
    assert NetworkOk(s.networks[id]);
    UsableRangeIs(V4, sub);
    assert Lease4Ok(s.networks[id], sub.network + 2) && (id, sub.network + 2) !in s.held4;
  }

  /** On any dual-stack boot whose v6 range has run out, an attach fails and keeps its v4 lease. */
  lemma ExhaustedV6Leaks(id: NetId, d: Dual, names: seq<Name>)
    requires Inv(Boot(id, Some(d))) && Valid(V6, d.subnet)
    ensures var s := Full(Boot(id, Some(d)), id, d);
            Inv(s) && Attach(s, id, None, names, GOOD_HOST).1.Err? && Attach(s, id, None, names, GOOD_HOST).0 != s
  {
    var s := Full(Boot(id, Some(d)), id, d);
    FullExhausted(Boot(id, Some(d)), id, d);
    BootHasV4(s, id);
    FullFails(s, id, names);
    FailedAttachRollsBackIff(s, id, None, names, GOOD_HOST);
  }

  lemma FullFails(s: State, net: NetId, names: seq<Name>)
    requires Inv(s) && net in s.networks && V6Exhausted(s, net)
    ensures Attach(s, net, None, names, GOOD_HOST).1.Err?
  {
    assert NetworkOk(s.networks[net]);
  }

  // --- the v6 lease a rewire leaves behind ----------------------------------

  /** A v6 lease that belongs to no endpoint. */
  ghost predicate Orphaned(s: State, net: NetId, a: nat) {
    (net, a) in s.held6 && Unpaired(s, net, a)
  }

  /** A rewire that takes effect on a paired endpoint orphans its old v6 lease. */
  lemma RewireOrphans(s: State, net: NetId, ip: nat, names: seq<Name>)
    requires Inv(s) && net in s.networks && (net, ip) in s.pair
    ensures var (z, r) := Rewire(s, net, ip, names, GOOD_HOST);
            r.Ok? ==> Orphaned(z, net, s.pair[(net, ip)])
  {
    var (z, r) := Rewire(s, net, ip, names, GOOD_HOST);
    var was := s.pair[(net, ip)];
    assert (net, was) in s.held6 && Lease6Ok(s.networks[net], was);
    if r.Ok? {
      DrawnV6(s, net);
      forall l | l in z.pair && l.0 == net ensures z.pair[l] != was {
        if l != (net, ip) { assert l in s.pair; }
      }
    }
  }

  /** Registering an endpoint at a fresh v6 address touches no orphan. */
  lemma RegisterKeepsOrphan(s: State, net: NetId, ep: Endpoint, names: seq<Name>, m: NetId, a: nat)
    requires Orphaned(s, m, a) && (ep.ip6.Some? ==> (net, ep.ip6.value) != (m, a))
    ensures Orphaned(Register(Hold6(s, net, ep.ip6), net, ep, names), m, a)
  {
  }

  lemma AttachKeepsOrphan(s: State, net: NetId, requested: Option<nat>, names: seq<Name>, host: Host, m: NetId, a: nat)
    requires Inv(s) && Orphaned(s, m, a)
    ensures Orphaned(Attach(s, net, requested, names, host).0, m, a)
  {
    if net in s.networks && host.bridgeUp {
      var v4 := DrawV4(s, net, requested);
      if v4.Ok? {
        var s1 := Hold4(s, net, v4.value);
        var v6 := DrawV6(s1, net);
        if v6.Ok? && host.wired {
          RegisterKeepsOrphan(s1, net, Endpoint(v4.value, v6.value), names, m, a);
        }
      }
    }
  }

  lemma RewireKeepsOrphan(s: State, net: NetId, ip: nat, names: seq<Name>, host: Host, m: NetId, a: nat)
    requires Inv(s) && Orphaned(s, m, a)
    ensures Orphaned(Rewire(s, net, ip, names, host).0, m, a)
  {
    if net in s.networks && host.bridgeUp {
      var v6 := DrawV6(s, net);
      if v6.Ok? && host.wired {
        RegisterKeepsOrphan(s, net, Endpoint(ip, v6.value), names, m, a);
      }
    }
  }

  lemma DetachKeepsOrphan(s: State, net: NetId, ip: nat, names: seq<Name>, m: NetId, a: nat)
    requires Orphaned(s, m, a)
    ensures Orphaned(Detach(s, net, ip, names), m, a)
  {
  }

  lemma RemoveKeepsOrphan(s: State, net: NetId, m: NetId, a: nat)
    requires net != m && Orphaned(s, m, a)
    ensures Orphaned(Remove(s, net).0, m, a)
  {
  }

  lemma StepKeepsOrphan(s: State, c: Call, net: NetId, a: nat)
    requires Inv(s) && Orphaned(s, net, a) && c != RemoveCall(net)
    ensures Parsed(s) && Legal(s, c) ==> Orphaned(Step(s, c), net, a)
  {
    if Parsed(s) && Legal(s, c) {
      match c
      case CreateCall(_, _, _, _, _, _) =>
      case RemoveCall(m) => RemoveKeepsOrphan(s, m, net, a);
      case AttachCall(m, requested, names, host) => AttachKeepsOrphan(s, m, requested, names, host, net, a);
      case RewireCall(m, ip, names, host) => RewireKeepsOrphan(s, m, ip, names, host, net, a);
      case DetachCall(m, ip, names) => DetachKeepsOrphan(s, m, ip, names, net, a);
    }
  }

  /** An orphaned v6 lease stays orphaned through every run of calls that does not remove its network. */
  lemma {:induction false} OrphanStays(s: State, cs: seq<Call>, z: State, net: NetId, a: nat)
    requires Inv(s) && Orphaned(s, net, a) && RemoveCall(net) !in cs
    ensures Reaches(s, cs, z) ==> Orphaned(z, net, a)
    decreases |cs|
  {
    if cs != [] && Reaches(s, cs, z) {
      assert cs[0] in cs;
      StepKeeps(s, cs[0]);
      StepKeepsOrphan(s, cs[0], net, a);
      OrphanStays(Step(s, cs[0]), cs[1..], z, net, a);
    }
  }
}
