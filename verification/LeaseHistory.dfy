/** What the lease table owes to its past: every run of requests against a fixed address plan. */
module LeaseHistory {
  import opened Common
  import opened Subnets
  import opened Ipam

  /** The subnet and gateway a caller passes for each network. */
  type AddressPlan = NetId -> (Subnet, nat)

  datatype Request =
    | Draw(net: NetId)
    | Ask(net: NetId, want: nat)
    | Return(net: NetId, a: nat)
    | Forget(net: NetId)
    | Sweep(known: set<NetId>, live: set<Lease>)

  ghost predicate Fixed(f: Family, plan: AddressPlan) {
    forall n :: Valid(f, plan(n).0)
  }

  /** The lease a request is granted, if any. */
  ghost function Grant(f: Family, plan: AddressPlan, held: set<Lease>, q: Request): Option<Lease>
    requires Fixed(f, plan)
  {
    match q
    case Draw(n) =>
      var r := Allocate(f, held, n, plan(n).0, plan(n).1);
      if r.Ok? then Some((n, r.value)) else None
    case Ask(n, want) =>
      if Reserve(f, held, n, plan(n).0, plan(n).1, want).Ok? then Some((n, want)) else None
    case _ => None
  }

  /** Whether a request gives `l` back. */
  predicate GivesBack(q: Request, l: Lease) {
    match q
    case Return(n, a) => l == (n, a)
    case Forget(n) => l.0 == n
    case Sweep(known, live) => l.0 !in known || l !in live
    case _ => false
  }

  /** The leases after one request, as the methods of the lease table leave them. */
  ghost function Serve(f: Family, plan: AddressPlan, held: set<Lease>, q: Request): set<Lease>
    requires Fixed(f, plan)
  {
    match q
    case Draw(n) =>
      var r := Allocate(f, held, n, plan(n).0, plan(n).1);
      if r.Ok? then held + {(n, r.value)} else held
    case Ask(n, want) =>
      var r := Reserve(f, held, n, plan(n).0, plan(n).1, want);
      if r.Ok? then held + {(n, r.value)} else held
    case Return(n, a) => held - {(n, a)}
    case Forget(n) => set l | l in held && l.0 != n
    case Sweep(known, live) => set l | l in held && l.0 in known && l in live
  }

  /** The leases after the first `k` requests of a run from an empty table. */
  ghost function After(f: Family, plan: AddressPlan, qs: seq<Request>, k: nat): set<Lease>
    requires Fixed(f, plan) && k <= |qs|
  {
    if k == 0 then {} else Serve(f, plan, After(f, plan, qs, k - 1), qs[k - 1])
  }

  /** Request `i` of the run was granted `l`. */
  ghost predicate GrantedAt(f: Family, plan: AddressPlan, qs: seq<Request>, i: nat, l: Lease)
    requires Fixed(f, plan) && i < |qs|
  {
    Grant(f, plan, After(f, plan, qs, i), qs[i]) == Some(l)
  }

  /** Nothing gave `l` back from request `i` to request `k`. */
  predicate KeptFrom(qs: seq<Request>, i: nat, k: nat, l: Lease)
    requires k <= |qs|
  {
    forall j :: i <= j < k ==> !GivesBack(qs[j], l)
  }

  lemma ServeIs(f: Family, plan: AddressPlan, held: set<Lease>, q: Request, l: Lease)
    requires Fixed(f, plan)
    ensures l in Serve(f, plan, held, q) <==>
            Grant(f, plan, held, q) == Some(l) || (l in held && !GivesBack(q, l))
    ensures Grant(f, plan, held, q) == Some(l) ==>
            l !in held && !GivesBack(q, l) && Leasable(f, plan(l.0).0, plan(l.0).1, l.1)
  {
  }

  /**
   * The leased set is exactly what was handed out and not given back: a lease is held
   * iff some request was granted it and nothing since has given it back.
   */
  lemma {:induction false} HeldIffGrantedAndKept(f: Family, plan: AddressPlan, qs: seq<Request>, k: nat, l: Lease)
    requires Fixed(f, plan) && k <= |qs|
    ensures l in After(f, plan, qs, k) <==>
            exists i: nat :: i < k && GrantedAt(f, plan, qs, i, l) && KeptFrom(qs, i, k, l)
  {
    if k > 0 {
      var held := After(f, plan, qs, k - 1);
      HeldIffGrantedAndKept(f, plan, qs, k - 1, l);
      ServeIs(f, plan, held, qs[k - 1], l);
      if l in After(f, plan, qs, k) {
        if Grant(f, plan, held, qs[k - 1]) == Some(l) {
          assert GrantedAt(f, plan, qs, k - 1, l) && KeptFrom(qs, k - 1, k, l);
        } else {
          var i: nat :| i < k - 1 && GrantedAt(f, plan, qs, i, l) && KeptFrom(qs, i, k - 1, l);
          assert KeptFrom(qs, i, k, l);
        }
      }
      if i: nat :| i < k && GrantedAt(f, plan, qs, i, l) && KeptFrom(qs, i, k, l) {
        if i < k - 1 {
          assert KeptFrom(qs, i, k - 1, l);
        }
      }
    }
  }

  /** No address is handed out twice on a network without being given back in between. */
  lemma NeverGrantedTwice(f: Family, plan: AddressPlan, qs: seq<Request>, i: nat, j: nat, l: Lease)
    requires Fixed(f, plan) && i < j < |qs|
    requires GrantedAt(f, plan, qs, i, l) && GrantedAt(f, plan, qs, j, l)
    ensures exists k :: i < k < j && GivesBack(qs[k], l)
  {
    HeldIffGrantedAndKept(f, plan, qs, j, l);
    ServeIs(f, plan, After(f, plan, qs, j), qs[j], l);
    assert !KeptFrom(qs, i, j, l);
    ServeIs(f, plan, After(f, plan, qs, i), qs[i], l);
  }

  /** Every lease held after any run is usable on its network and never the gateway. */
  lemma HeldAreLeasable(f: Family, plan: AddressPlan, qs: seq<Request>, k: nat, l: Lease)
    requires Fixed(f, plan) && k <= |qs| && l in After(f, plan, qs, k)
    ensures Leasable(f, plan(l.0).0, plan(l.0).1, l.1)
  {
    HeldIffGrantedAndKept(f, plan, qs, k, l);
    var i: nat :| i < k && GrantedAt(f, plan, qs, i, l);
    ServeIs(f, plan, After(f, plan, qs, i), qs[i], l);
  }

  /** Serving a request by calling the lease table. */
  method ServeTable(t: Leases, plan: AddressPlan, q: Request)
    requires Fixed(t.family, plan)
    modifies t
    ensures Held(t.buckets) == Serve(t.family, plan, old(Held(t.buckets)), q)
  {
    match q
    case Draw(n) => var _ := t.AllocateLowest(n, plan(n).0, plan(n).1);
    case Ask(n, want) => var _ := t.ReserveAddress(n, plan(n).0, plan(n).1, want);
    case Return(n, a) => t.Release(n, a);
    case Forget(n) => t.ResetBucket(n);
    case Sweep(known, live) => var _, _ := t.SweepOrphans(known, live);
  }
}
