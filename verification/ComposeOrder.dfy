/** What a start order for compose services is, independently of how it is computed. */
module ComposeOrder {
  import opened Common

  type Name = string

  /** Every service with its dependency list, repeats and unknown names included. */
  type Services = map<Name, seq<Name>>

  // --- names are totally ordered ---------------------------------------------

  predicate Le(a: Name, b: Name) {
    a == [] || (b != [] && (a[0] < b[0] || (a[0] == b[0] && Le(a[1..], b[1..]))))
  }

  lemma {:induction false} LeTotal(a: Name, b: Name)
    ensures Le(a, b) || Le(b, a)
  {
    if a != [] && b != [] { LeTotal(a[1..], b[1..]); }
  }

  lemma {:induction false} LeAntisymmetric(a: Name, b: Name)
    requires Le(a, b) && Le(b, a)
    ensures a == b
  {
    if a != [] && b != [] {
      LeAntisymmetric(a[1..], b[1..]);
      assert a == [a[0]] + a[1..] && b == [b[0]] + b[1..];
    }
  }

  lemma {:induction false} LeTransitive(a: Name, b: Name, c: Name)
    requires Le(a, b) && Le(b, c)
    ensures Le(a, c)
  {
    if a != [] && b != [] && c != [] && a[0] == b[0] && b[0] == c[0] {
      LeTransitive(a[1..], b[1..], c[1..]);
    }
  }

  ghost predicate IsGreatest(m: Name, s: set<Name>) {
    m in s && forall x :: x in s ==> Le(x, m)
  }

  lemma {:induction false} GreatestExists(s: set<Name>)
    requires s != {}
    ensures exists m :: IsGreatest(m, s)
    decreases |s|
  {
    var x :| x in s;
    if s == {x} {
      LeTotal(x, x);
      assert IsGreatest(x, s);
    } else {
      GreatestExists(s - {x});
      var m :| IsGreatest(m, s - {x});
      LeTotal(x, m);
      if Le(x, m) {
        assert IsGreatest(m, s);
      } else {
        forall y | y in s ensures Le(y, x) {
          LeTotal(x, x);
          if y != x { LeTransitive(y, m, x); }
        }
        assert IsGreatest(x, s);
      }
    }
  }

  ghost function Greatest(s: set<Name>): (m: Name)
    requires s != {}
    ensures IsGreatest(m, s)
  {
    GreatestExists(s);
    var m :| IsGreatest(m, s); m
  }

  lemma GreatestUnique(m: Name, s: set<Name>)
    requires IsGreatest(m, s)
    ensures Greatest(s) == m
  {
    LeAntisymmetric(m, Greatest(s));
  }

  // --- the reference order -----------------------------------------------------

  /** Services not yet placed whose in-map dependencies all are. */
  ghost function Ready(services: Services, done: set<Name>): set<Name> {
    set n | n in services && n !in done && forall d :: d in services[n] && d in services ==> d in done
  }

  /** Place the greatest ready service, again and again. */
  ghost function Greedy(services: Services, done: set<Name>): seq<Name>
    decreases |services.Keys - done|
  {
    var ready := Ready(services, done);
    if ready == {} then []
    else
      var m := Greatest(ready);
      Shrinks(services.Keys, done, m);
      [m] + Greedy(services, done + {m})
  }

  lemma Shrinks(keys: set<Name>, done: set<Name>, m: Name)
    requires m in keys && m !in done
    ensures |keys - (done + {m})| < |keys - done|
  {
    assert keys - done == (keys - (done + {m})) + {m};
  }

  /** Every service of `g` comes after all its in-map dependencies, given those in `done`. */
  ghost predicate Ordered(services: Services, done: set<Name>, g: seq<Name>) {
    forall i, d :: 0 <= i < |g| && g[i] in services && d in services[g[i]] && d in services ==>
      d in done || d in g[..i]
  }

  /** Putting a ready service in front of what comes after it. */
  lemma ConsOrdered(services: Services, done: set<Name>, m: Name, rest: seq<Name>)
    requires m in Ready(services, done) && Ordered(services, done + {m}, rest)
    ensures Ordered(services, done, [m] + rest)
  {
    var g := [m] + rest;
    forall i, d | 0 <= i < |g| && g[i] in services && d in services[g[i]] && d in services
      ensures d in done || d in g[..i]
    {
      if i > 0 {
        assert g[..i] == [m] + rest[..i - 1];
        assert rest[i - 1] == g[i];
        assert d in done + {m} || d in rest[..i - 1];
      }
    }
  }

  /** One step of the reference order. */
  lemma GreedyStep(services: Services, done: set<Name>)
    requires Ready(services, done) != {}
    ensures var m := Greatest(Ready(services, done));
            && m in Ready(services, done) && m in services && m !in done
            && |services.Keys - (done + {m})| < |services.Keys - done|
            && Greedy(services, done) == [m] + Greedy(services, done + {m})
  {
    var m := Greatest(Ready(services, done));
    Shrinks(services.Keys, done, m);
  }

  lemma {:induction false} GreedyOrdered(services: Services, done: set<Name>)
    ensures Ordered(services, done, Greedy(services, done))
    decreases |services.Keys - done|
  {
    if Ready(services, done) != {} {
      var m := Greatest(Ready(services, done));
      GreedyStep(services, done);
      GreedyOrdered(services, done + {m});
      ConsOrdered(services, done, m, Greedy(services, done + {m}));
    }
  }

  lemma {:induction false} GreedyNoRepeats(services: Services, done: set<Name>)
    ensures NoRepeats(Greedy(services, done))
    ensures forall x :: x in Greedy(services, done) ==> x in services && x !in done
    decreases |services.Keys - done|
  {
    if Ready(services, done) != {} {
      var m := Greatest(Ready(services, done));
      GreedyStep(services, done);
      GreedyNoRepeats(services, done + {m});
      var rest := Greedy(services, done + {m});
      assert forall i :: 0 <= i < |rest| ==> rest[i] in rest && rest[i] != m;
    }
  }

  /** The reference order stops only when nothing is ready. */
  lemma {:induction false} GreedyExhausts(services: Services, done: set<Name>, placed: set<Name>)
    requires placed == done + Elements(Greedy(services, done))
    ensures Ready(services, placed) == {}
    decreases |services.Keys - done|
  {
    if Ready(services, done) == {} {
      assert placed == done;
    } else {
      var m := Greatest(Ready(services, done));
      GreedyStep(services, done);
      ElementsCons(m, Greedy(services, done + {m}));
      GreedyExhausts(services, done + {m}, placed);
    }
  }

  // --- cycles ------------------------------------------------------------------

  /** A chain of in-map dependencies. */
  ghost predicate IsPath(services: Services, p: seq<Name>) {
    && (forall i :: 0 <= i < |p| ==> p[i] in services)
    && (forall i :: 0 <= i < |p| - 1 ==> p[i + 1] in services[p[i]])
  }

  /** The service is on, or depends through others on, a dependency cycle. */
  ghost predicate ReachesCycle(services: Services, n: Name) {
    exists p :: p != [] && p[0] == n && IsPath(services, p) && !NoRepeats(p)
  }

  ghost function IndexOf(g: seq<Name>, x: Name): (i: nat)
    requires x in g
    ensures i < |g| && g[i] == x
  {
    var i :| 0 <= i < |g| && g[i] == x; i
  }

  /** Along a path from a placed service, positions in the order go strictly down. */
  lemma {:induction false} PathDescends(services: Services, g: seq<Name>, p: seq<Name>, i: nat, j: nat)
    requires NoRepeats(g) && Ordered(services, {}, g) && IsPath(services, p)
    requires i < j < |p| && p[i] in g
    ensures p[j] in g && IndexOf(g, p[j]) < IndexOf(g, p[i])
    decreases j
  {
    var k := j - 1;
    if k > i { PathDescends(services, g, p, i, k); }
    assert p[k + 1] in services[p[k]];
    var at := IndexOf(g, p[k]);
    assert p[j] in g[..at];
    var lower :| 0 <= lower < at && g[lower] == p[j];
  }

  /** A placed service reaches no cycle. */
  lemma PlacedReachesNoCycle(services: Services, g: seq<Name>, n: Name)
    requires NoRepeats(g) && Ordered(services, {}, g) && n in g
    ensures !ReachesCycle(services, n)
  {
    forall p | p != [] && p[0] == n && IsPath(services, p) ensures NoRepeats(p) {
      forall i, j | 0 <= i < j < |p| ensures p[i] != p[j] {
        if i > 0 { PathDescends(services, g, p, 0, i); }
        PathDescends(services, g, p, i, j);
      }
    }
  }

  /** Walk from dependency to dependency, never leaving the unplaced services. */
  ghost function Walk(services: Services, done: set<Name>, n: Name, steps: nat): (p: seq<Name>)
    requires n in services && n !in done && Ready(services, done) == {}
    ensures |p| == steps + 1 && p[0] == n && IsPath(services, p)
    decreases steps
  {
    if steps == 0 then [n]
    else
      assert n !in Ready(services, done);
      var d :| d in services[n] && d in services && d !in done;
      [n] + Walk(services, done, d, steps - 1)
  }

  lemma {:induction false} NoRepeatsSize(p: seq<Name>, keys: set<Name>)
    requires NoRepeats(p) && forall x :: x in p ==> x in keys
    ensures |p| <= |keys|
    decreases |p|
  {
    if p != [] {
      var last := p[|p| - 1];
      var rest := p[..|p| - 1];
      forall x | x in rest ensures x in keys - {last} {
        assert x in p;
        var i :| 0 <= i < |rest| && rest[i] == x;
        assert p[i] == x;
      }
      NoRepeatsSize(rest, keys - {last});
    }
  }

  /** A service left unplaced reaches a cycle. */
  lemma UnplacedReachesCycle(services: Services, done: set<Name>, n: Name)
    requires n in services && n !in done && Ready(services, done) == {}
    ensures ReachesCycle(services, n)
  {
    var p := Walk(services, done, n, |services.Keys|);
    if NoRepeats(p) { NoRepeatsSize(p, services.Keys); }
  }

  /** The reference order places exactly the services that are neither on nor downstream of a cycle. */
  lemma GreedyPlacesAcyclic(services: Services, n: Name)
    requires n in services
    ensures n in Greedy(services, {}) <==> !ReachesCycle(services, n)
  {
    GreedyOrdered(services, {});
    GreedyNoRepeats(services, {});
    var g := Greedy(services, {});
    GreedyExhausts(services, {}, Elements(g));
    if n in g {
      PlacedReachesNoCycle(services, g, n);
    } else {
      UnplacedReachesCycle(services, Elements(g), n);
    }
  }

  /** What `topological_sort` promises of its result. */
  ghost predicate StartOrder(services: Services, r: seq<Name>) {
    && NoRepeats(r) && Elements(r) == services.Keys
    && forall i, d :: (0 <= i < |r| && r[i] in services && !ReachesCycle(services, r[i])
                       && d in services[r[i]] && d in services) ==> d in r[..i]
  }

  /** The reference order followed by the rest, in any order, is a start order. */
  lemma GreedyThenRest(services: Services, r: seq<Name>)
    requires Greedy(services, {}) <= r && NoRepeats(r) && Elements(r) == services.Keys
    ensures StartOrder(services, r)
  {
    var g := Greedy(services, {});
    GreedyOrdered(services, {});
    forall i, d | 0 <= i < |r| && r[i] in services && !ReachesCycle(services, r[i])
                  && d in services[r[i]] && d in services
      ensures d in r[..i]
    {
      GreedyPlacesAcyclic(services, r[i]);
      var k := IndexOf(g, r[i]);
      assert r[k] == r[i];
      assert i == k;
      assert d in g[..i] && r[..i] == g[..i];
    }
  }
}
