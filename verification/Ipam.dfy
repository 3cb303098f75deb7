/** Per-network address leases: a lowest-free allocator, reservations, and the boot sweep. */
module Ipam {
  import opened Common
  import opened Subnets

  type NetId = string
  type Lease = (NetId, nat)

  datatype LeaseError = GatewayOutside | OutsideSubnet | IsGateway | AlreadyLeased | Exhausted

  /** An address a lease may name: usable, and not the gateway. */
  ghost predicate Leasable(f: Family, sub: Subnet, gw: nat, a: nat)
    requires sub.prefix <= f.LongestPrefix()
  {
    Contains(f, sub, a) && a != gw
  }

  /** The addresses leased on one network. */
  function On(held: set<Lease>, net: NetId): (r: set<nat>)
    ensures forall a: nat :: a in r <==> (net, a) in held
  {
    set l | l in held && l.0 == net :: l.1
  }

  /** The first free address from `c` on, in scan order. */
  function FirstFree(c: nat, hi: int, gw: nat, used: set<nat>): (r: Option<nat>)
    ensures r.Some? ==> c <= r.value <= hi && r.value != gw && r.value !in used
    ensures r.Some? ==> forall x :: c <= x < r.value ==> x == gw || x in used
    ensures r.None? ==> forall x :: c <= x <= hi ==> x == gw || x in used
    decreases hi - c + 1
  {
    if c > hi then None
    else if c != gw && c !in used then Some(c)
    else FirstFree(c + 1, hi, gw, used)
  }

  /** `allocate` on a set of leases. */
  function Allocate(f: Family, held: set<Lease>, net: NetId, sub: Subnet, gw: nat): (r: Result<nat, LeaseError>)
    requires sub.prefix <= f.LongestPrefix()
    ensures r.Err? ==> (r.error == GatewayOutside <==> !Contains(f, sub, gw))
    ensures r.Ok? ==> Contains(f, sub, gw) && Leasable(f, sub, gw, r.value) && (net, r.value) !in held
    ensures r.Ok? ==> forall a: nat :: Leasable(f, sub, gw, a) && a < r.value ==> (net, a) in held
    ensures r.Err? && Contains(f, sub, gw) ==> forall a: nat :: Leasable(f, sub, gw, a) ==> (net, a) in held
  {
    if !Contains(f, sub, gw) then Err(GatewayOutside)
    else
      var r := FirstFree(sub.network + 1, LastUsable(f, sub), gw, On(held, net));
      if r.Some? then Ok(r.value) else Err(Exhausted)
  }

  /** `reserve` on a set of leases. */
  function Reserve(f: Family, held: set<Lease>, net: NetId, sub: Subnet, gw: nat, want: nat)
    : (r: Result<nat, LeaseError>)
    requires sub.prefix <= f.LongestPrefix()
    ensures r.Ok? <==> Leasable(f, sub, gw, want) && (net, want) !in held
    ensures r == Err(OutsideSubnet) <==> !Contains(f, sub, want)
    ensures r == Err(IsGateway) <==> Contains(f, sub, want) && want == gw
    ensures r == Err(AlreadyLeased) <==> Leasable(f, sub, gw, want) && (net, want) in held
    ensures r.Ok? ==> r.value == want
  {
    if !Contains(f, sub, want) then Err(OutsideSubnet)
    else if want == gw then Err(IsGateway)
    else if (net, want) in held then Err(AlreadyLeased)
    else Ok(want)
  }

  /** The leases in a table of buckets. */
  function Held(table: map<NetId, set<nat>>): set<Lease> {
    set n, a | n in table && a in table[n] :: (n, a)
  }

  /** The leases of one family. */
  class Leases {
    const family: Family
    var buckets: map<NetId, set<nat>>

    constructor (f: Family)
      ensures family == f && buckets == map[]
    {
      family := f;
      buckets := map[];
    }

    /** The bucket of a network, created when first asked for. */
    method Entry(net: NetId) returns (used: set<nat>)
      modifies this
      ensures net in buckets && used == buckets[net] && used == On(Held(buckets), net)
      ensures Held(buckets) == old(Held(buckets))
      ensures buckets.Keys == old(buckets).Keys + {net}
    {
      if net !in buckets {
        buckets := buckets[net := {}];
      }
      used := buckets[net];
      assert forall a :: a in used ==> (net, a) in Held(buckets);
      assert forall n, a :: (n, a) in Held(buckets) <==> n in buckets && a in buckets[n];
    }

    method Insert(net: NetId, a: nat)
      requires net in buckets
      modifies this
      ensures buckets.Keys == old(buckets).Keys
      ensures Held(buckets) == old(Held(buckets)) + {(net, a)}
    {
      ghost var before := buckets;
      buckets := buckets[net := buckets[net] + {a}];
      assert forall n, x :: (n, x) in Held(buckets) <==> (n, x) in Held(before) || (n, x) == (net, a);
    }

    /** Lease the least free usable address that is not the gateway; fail only when none is left. */
    method AllocateLowest(net: NetId, sub: Subnet, gw: nat) returns (r: Result<nat, LeaseError>)
      requires Valid(family, sub)
      modifies this
      ensures r == Allocate(family, old(Held(buckets)), net, sub, gw)
      ensures Held(buckets) == if r.Ok? then old(Held(buckets)) + {(net, r.value)} else old(Held(buckets))
    {
      if !Contains(family, sub, gw) {
        return Err(GatewayOutside);
      }
      var used := Entry(net);
      UsableRangeIs(family, sub);
      var (lo, hi) := UsableRange(family, sub);
      var c := lo;
      while c <= hi
        invariant lo <= c
        invariant FirstFree(lo, hi, gw, used) == FirstFree(c, hi, gw, used)
        decreases hi - c + 1
      {
        if c != gw && c !in used {
          Insert(net, c);
          return Ok(c);
        }
        c := c + 1;
      }
      return Err(Exhausted);
    }

    method ReserveAddress(net: NetId, sub: Subnet, gw: nat, want: nat) returns (r: Result<nat, LeaseError>)
      requires Valid(family, sub)
      modifies this
      ensures r == Reserve(family, old(Held(buckets)), net, sub, gw, want)
      ensures Held(buckets) == if r.Ok? then old(Held(buckets)) + {(net, r.value)} else old(Held(buckets))
    {
      if !Contains(family, sub, want) {
        return Err(OutsideSubnet);
      }
      if want == gw {
        return Err(IsGateway);
      }
      var used := Entry(net);
      if want in used {
        return Err(AlreadyLeased);
      }
      Insert(net, want);
      return Ok(want);
    }

    method Release(net: NetId, a: nat)
      modifies this
      ensures Held(buckets) == old(Held(buckets)) - {(net, a)}
      ensures buckets.Keys == old(buckets).Keys
    {
      ghost var before := buckets;
      if net in buckets {
        buckets := buckets[net := buckets[net] - {a}];
      }
      assert forall n, x :: (n, x) in Held(buckets) <==> (n, x) in Held(before) && (n, x) != (net, a);
    }

    /** A removed network keeps no lease. */
    method ResetBucket(net: NetId)
      modifies this
      ensures buckets == old(buckets) - {net}
      ensures Held(buckets) == set l | l in old(Held(buckets)) && l.0 != net
    {
      ghost var before := buckets;
      buckets := buckets - {net};
      assert forall n, x :: (n, x) in Held(buckets) <==> (n, x) in Held(before) && n != net;
    }

    /** The boot sweep: what is kept, and exactly how much is lost. */
    method SweepOrphans(known: set<NetId>, live: set<Lease>) returns (dropped: nat, released: nat)
      modifies this
      ensures buckets.Keys == old(buckets).Keys * known
      ensures Held(buckets) == set l | l in old(Held(buckets)) && l.0 in known && l in live
      ensures dropped == |old(buckets).Keys - known|
      ensures released == |old(Held(buckets))| - |Held(buckets)|
    {
      var before := buckets;
      var todo, swept: map<NetId, set<nat>> := before.Keys, map[];
      dropped, released := 0, 0;
      SweepStart(before, known, live);
      while todo != {}
        invariant Sweeping(before, todo, swept, known, live, dropped, released)
        decreases |todo|
      {
        var n :| n in todo;
        var ips := before[n];
        if n !in known {
          SweepDrop(before, todo, swept, known, live, dropped, released, n);
          dropped := dropped + 1;
          released := released + |ips|;
        } else {
          SweepKeep(before, todo, swept, known, live, dropped, released, n);
          var kept := Kept(n, ips, live);
          swept := swept[n := kept];
          released := released + (|ips| - |kept|);
        }
        todo := todo - {n};
      }
      buckets := swept;
      SweepEnd(before, swept, known, live, dropped, released);
    }
  }

  /** A sweep that has yet to visit the buckets in `todo`. */
  ghost predicate Sweeping(before: map<NetId, set<nat>>, todo: set<NetId>, swept: map<NetId, set<nat>>,
                           known: set<NetId>, live: set<Lease>, dropped: nat, released: int) {
    && todo <= before.Keys
    && swept.Keys == (before.Keys - todo) * known
    && (forall n :: n in swept ==> swept[n] == Kept(n, before[n], live))
    && dropped == |before.Keys - todo - known|
    && released >= 0
    && released == |Held(before - todo)| - |Held(swept)|
  }

  lemma SweepEnd(before: map<NetId, set<nat>>, swept: map<NetId, set<nat>>,
                 known: set<NetId>, live: set<Lease>, dropped: nat, released: int)
    requires Sweeping(before, {}, swept, known, live, dropped, released)
    ensures swept.Keys == before.Keys * known
    ensures Held(swept) == set l | l in Held(before) && l.0 in known && l in live
    ensures dropped == |before.Keys - known| && released == |Held(before)| - |Held(swept)|
  {
    assert before - {} == before && before.Keys - {} == before.Keys;
    SweptIs(before, swept, known, live);
  }

  lemma SweepStart(before: map<NetId, set<nat>>, known: set<NetId>, live: set<Lease>)
    ensures Sweeping(before, before.Keys, map[], known, live, 0, 0)
  {
    assert before - before.Keys == map[];
    assert before.Keys - before.Keys == {};
  }

  /** The leases visited so far, once bucket `n` has been visited too. */
  lemma VisitedGrows(before: map<NetId, set<nat>>, todo: set<NetId>, n: NetId)
    requires n in todo && todo <= before.Keys
    ensures |Held(before - (todo - {n}))| == |Held(before - todo)| + |before[n]|
    ensures before.Keys - (todo - {n}) == (before.Keys - todo) + {n}
  {
    HeldInsert(before - todo, n, before[n]);
    assert before - (todo - {n}) == (before - todo)[n := before[n]];
  }

  lemma SweepDrop(before: map<NetId, set<nat>>, todo: set<NetId>, swept: map<NetId, set<nat>>,
                  known: set<NetId>, live: set<Lease>, dropped: nat, released: nat, n: NetId)
    requires Sweeping(before, todo, swept, known, live, dropped, released) && n in todo && n !in known
    ensures Sweeping(before, todo - {n}, swept, known, live, dropped + 1, released + |before[n]|)
  {
    VisitedGrows(before, todo, n);
    assert before.Keys - (todo - {n}) - known == (before.Keys - todo - known) + {n};
    assert (before.Keys - (todo - {n})) * known == (before.Keys - todo) * known;
  }

  lemma {:induction false} SweepKeep(before: map<NetId, set<nat>>, todo: set<NetId>, swept: map<NetId, set<nat>>,
                                     known: set<NetId>, live: set<Lease>, dropped: nat, released: nat, n: NetId)
    requires Sweeping(before, todo, swept, known, live, dropped, released) && n in todo && n in known
    ensures var kept := Kept(n, before[n], live);
            && |kept| <= |before[n]|
            && Sweeping(before, todo - {n}, swept[n := kept], known, live, dropped, released + (|before[n]| - |kept|))
  {
    var kept := Kept(n, before[n], live);
    var z := swept[n := kept];
    SubsetSize(kept, before[n]);
    assert |Held(z)| == |Held(swept)| + |kept| by { HeldInsert(swept, n, kept); }
    assert |Held(before - (todo - {n}))| == |Held(before - todo)| + |before[n]| by { VisitedGrows(before, todo, n); }
    assert |Held(z)| <= |Held(before - (todo - {n}))|;
    assert dropped == |before.Keys - (todo - {n}) - known| by {
      assert before.Keys - (todo - {n}) - known == before.Keys - todo - known;
    }
    assert z.Keys == (before.Keys - (todo - {n})) * known;
  }

  lemma {:induction false} SubsetSize(a: set<nat>, b: set<nat>)
    requires a <= b
    ensures |a| <= |b|
  {
    if a != {} {
      var x :| x in a;
      SubsetSize(a - {x}, b - {x});
    }
  }

  function Kept(n: NetId, ips: set<nat>, live: set<Lease>): set<nat> {
    set a | a in ips && (n, a) in live
  }

  lemma SweptIs(before: map<NetId, set<nat>>, swept: map<NetId, set<nat>>, known: set<NetId>, live: set<Lease>)
    requires swept.Keys == before.Keys * known
    requires forall n :: n in swept ==> swept[n] == Kept(n, before[n], live)
    ensures Held(swept) == set l | l in Held(before) && l.0 in known && l in live
  {
    forall l: Lease ensures l in Held(swept) <==> l in Held(before) && l.0 in known && l in live {
      if l.0 in swept { assert l.1 in swept[l.0] <==> l.1 in Kept(l.0, before[l.0], live); }
    }
  }

  function Tagged(n: NetId, s: set<nat>): set<Lease> {
    set a | a in s :: (n, a)
  }

  lemma {:induction false} TagSize(n: NetId, s: set<nat>)
    ensures |Tagged(n, s)| == |s|
    decreases |s|
  {
    if s == {} {
      assert Tagged(n, s) == {};
    } else {
      var x :| x in s;
      TagSize(n, s - {x});
      assert Tagged(n, s) == Tagged(n, s - {x}) + {(n, x)};
    }
  }

  /** A new bucket adds its own leases and no others. */
  lemma HeldInsert(m: map<NetId, set<nat>>, n: NetId, s: set<nat>)
    requires n !in m
    ensures |Held(m[n := s])| == |Held(m)| + |s|
  {
    TagSize(n, s);
    assert Held(m[n := s]) == Held(m) + Tagged(n, s);
    assert Held(m) !! Tagged(n, s);
  }
}
