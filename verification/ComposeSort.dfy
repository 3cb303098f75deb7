/** `topological_sort`: in-degree counting over a multigraph, with a sorted work list. */
module ComposeSort {
  import opened Common
  import opened ComposeOrder

  // --- counting dependencies ---------------------------------------------------

  /** How many entries of a dependency list are still to be placed. */
  function Pending(deps: seq<Name>, alive: set<Name>): nat {
    if deps == [] then 0
    else (if deps[0] in alive then 1 else 0) + Pending(deps[1..], alive)
  }

  lemma {:induction false} PendingAppend(deps: seq<Name>, d: Name, alive: set<Name>)
    ensures Pending(deps + [d], alive) == Pending(deps, alive) + (if d in alive then 1 else 0)
  {
    if deps == [] {
      assert deps + [d] == [d];
    } else {
      assert (deps + [d])[1..] == deps[1..] + [d];
      PendingAppend(deps[1..], d, alive);
    }
  }

  /** Placing `x` settles each of its occurrences. */
  lemma {:induction false} PendingRemove(deps: seq<Name>, alive: set<Name>, x: Name)
    requires x in alive
    ensures Pending(deps, alive) == Pending(deps, alive - {x}) + multiset(deps)[x]
  {
    if deps != [] {
      PendingRemove(deps[1..], alive, x);
      assert deps == [deps[0]] + deps[1..];
    }
  }

  lemma {:induction false} PendingZero(deps: seq<Name>, alive: set<Name>)
    ensures Pending(deps, alive) == 0 <==> forall d :: d in deps ==> d !in alive
  {
    if deps != [] { PendingZero(deps[1..], alive); }
  }

  // --- the sorted work list ------------------------------------------------------

  ghost predicate Sorted(q: seq<Name>) {
    forall i, j :: 0 <= i < j < |q| ==> Le(q[i], q[j])
  }

  /** A name pushed onto a sorted list, sorted again. */
  function Insert(q: seq<Name>, x: Name): (r: seq<Name>)
    ensures |r| == |q| + 1
    ensures forall y :: y in r <==> y == x || y in q
  {
    if q == [] || Le(q[|q| - 1], x) then q + [x]
    else Insert(q[..|q| - 1], x) + [q[|q| - 1]]
  }

  lemma {:induction false} InsertSorted(q: seq<Name>, x: Name)
    requires Sorted(q)
    ensures Sorted(Insert(q, x))
    decreases |q|
  {
    if q != [] {
      var last, rest := q[|q| - 1], q[..|q| - 1];
      if Le(last, x) {
        forall i | 0 <= i < |q| ensures Le(q[i], x) {
          if i < |q| - 1 { LeTransitive(q[i], last, x); }
        }
      } else {
        InsertSorted(rest, x);
        LeTotal(last, x);
        var r := Insert(rest, x);
        forall i | 0 <= i < |r| ensures Le(r[i], last) {
          assert r[i] in r;
        }
      }
    }
  }

  lemma {:induction false} InsertNoRepeats(q: seq<Name>, x: Name)
    requires NoRepeats(q) && x !in q
    ensures NoRepeats(Insert(q, x))
    decreases |q|
  {
    if q != [] && !Le(q[|q| - 1], x) {
      var last, rest := q[|q| - 1], q[..|q| - 1];
      InsertNoRepeats(rest, x);
      var r := Insert(rest, x);
      forall i | 0 <= i < |r| ensures r[i] != last { assert r[i] in r; }
    }
  }

  /** The last entry of a sorted list is the greatest. */
  lemma LastIsGreatest(q: seq<Name>)
    requires Sorted(q) && q != []
    ensures IsGreatest(q[|q| - 1], Elements(q))
  {
    LeTotal(q[|q| - 1], q[|q| - 1]);
  }

  // --- the graph --------------------------------------------------------------------

  /** Each in-degree counts the dependencies not yet placed. */
  ghost predicate Counts(services: Services, done: set<Name>, inDegree: map<Name, nat>) {
    && inDegree.Keys == services.Keys
    && forall n :: n in services ==> inDegree[n] == Pending(services[n], services.Keys - done)
  }

  /** The adjacency lists hold every edge as often as the dependency lists do. */
  ghost predicate Mirrors(services: Services, adj: map<Name, seq<Name>>) {
    adj.Keys == services.Keys && forall d :: d in services ==> MirrorsAt(services, adj, d)
  }

  ghost predicate MirrorsAt(services: Services, adj: map<Name, seq<Name>>, d: Name)
    requires d in adj
  {
    && (forall n :: n in services ==> multiset(adj[d])[n] == multiset(services[n])[d])
    && (forall n :: n in adj[d] ==> n in services)
  }

  /** Counts not yet made for the services in `todo`. */
  ghost predicate CountsExcept(services: Services, todo: set<Name>, inDegree: map<Name, nat>) {
    && inDegree.Keys == services.Keys
    && forall n :: n in services && n !in todo ==> inDegree[n] == Pending(services[n], services.Keys)
  }

  /** Adjacency lists with the edges of `todo` still missing. */
  ghost predicate MirrorsExcept(services: Services, todo: set<Name>, adj: map<Name, seq<Name>>) {
    adj.Keys == services.Keys && forall d, n :: EdgeOk(services, todo, adj, d, n)
  }

  ghost predicate EdgeOk(services: Services, todo: set<Name>, adj: map<Name, seq<Name>>, d: Name, n: Name) {
    d in adj ==> multiset(adj[d])[n] == if n in services && n !in todo then multiset(services[n])[d] else 0
  }

  /** The adjacency lists with the edges of one service added. */
  ghost predicate Gained(name: Name, deps: seq<Name>, adj: map<Name, seq<Name>>, out: map<Name, seq<Name>>) {
    && out.Keys == adj.Keys
    && forall d, n :: d in adj ==>
         multiset(out[d])[n] == multiset(adj[d])[n] + if n == name then multiset(deps)[d] else 0
  }

  /** Record the dependencies of one service. */
  method AddEdges(name: Name, deps: seq<Name>, adj: map<Name, seq<Name>>)
    returns (out: map<Name, seq<Name>>, degree: nat)
    ensures degree == Pending(deps, adj.Keys) && Gained(name, deps, adj, out)
  {
    out, degree := adj, 0;
    for i := 0 to |deps|
      invariant degree == Pending(deps[..i], adj.Keys) && Gained(name, deps[..i], adj, out)
    {
      var dep := deps[i];
      PendingAppend(deps[..i], dep, adj.Keys);
      assert deps[..i + 1] == deps[..i] + [dep];
      if dep in out {
        out := out[dep := out[dep] + [name]];
        degree := degree + 1;
      }
    }
    assert deps[..|deps|] == deps;
  }

  method AddService(services: Services, ghost todo: set<Name>, adj: map<Name, seq<Name>>, name: Name)
    returns (out: map<Name, seq<Name>>, degree: nat)
    requires MirrorsExcept(services, todo, adj) && name in todo && todo <= services.Keys
    ensures MirrorsExcept(services, todo - {name}, out) && degree == Pending(services[name], services.Keys)
  {
    out, degree := AddEdges(name, services[name], adj);
    EdgesAdded(services, todo, adj, out, name);
  }

  method BuildGraph(services: Services) returns (inDegree: map<Name, nat>, adj: map<Name, seq<Name>>)
    ensures Counts(services, {}, inDegree) && Mirrors(services, adj)
  {
    inDegree := map n | n in services :: 0;
    adj := map n | n in services :: [];
    var todo := services.Keys;
    NoEdges(services, adj);
    while todo != {}
      invariant todo <= services.Keys
      invariant CountsExcept(services, todo, inDegree) && MirrorsExcept(services, todo, adj)
      decreases |todo|
    {
      var name :| name in todo;
      var degree;
      adj, degree := AddService(services, todo, adj, name);
      inDegree := inDegree[name := degree];
      todo := todo - {name};
    }
    AllCounts(services, inDegree);
    AllEdges(services, adj);
  }

  lemma AllCounts(services: Services, inDegree: map<Name, nat>)
    requires CountsExcept(services, {}, inDegree)
    ensures Counts(services, {}, inDegree)
  {
    assert services.Keys - {} == services.Keys;
  }

  lemma NoEdges(services: Services, adj: map<Name, seq<Name>>)
    requires adj.Keys == services.Keys && forall d :: d in adj ==> adj[d] == []
    ensures MirrorsExcept(services, services.Keys, adj)
  {
    forall d, n ensures EdgeOk(services, services.Keys, adj, d, n) {}
  }

  lemma AllEdges(services: Services, adj: map<Name, seq<Name>>)
    requires MirrorsExcept(services, {}, adj)
    ensures Mirrors(services, adj)
  {
    forall d | d in services ensures MirrorsAt(services, adj, d) {
      forall n | n in adj[d] ensures n in services {
        assert EdgeOk(services, {}, adj, d, n);
        assert multiset(adj[d])[n] > 0;
      }
      forall n | n in services ensures multiset(adj[d])[n] == multiset(services[n])[d] {
        assert EdgeOk(services, {}, adj, d, n);
      }
    }
  }

  lemma EdgesAdded(services: Services, todo: set<Name>, adj: map<Name, seq<Name>>, out: map<Name, seq<Name>>,
                   name: Name)
    requires MirrorsExcept(services, todo, adj) && name in todo && todo <= services.Keys
    requires Gained(name, services[name], adj, out)
    ensures MirrorsExcept(services, todo - {name}, out)
  {
    forall d, n ensures EdgeOk(services, todo - {name}, out, d, n) {
      assert EdgeOk(services, todo, adj, d, n);
    }
  }

  // --- one placement ------------------------------------------------------------------

  /** The unplaced services whose count has dropped to zero. */
  ghost function Settled(inDegree: map<Name, nat>, done: set<Name>): set<Name> {
    set n | n in inDegree && n !in done && inDegree[n] == 0
  }

  /** The counts left once a service's neighbours have each lost their edges to it. */
  ghost predicate Lowered(inDegree: map<Name, nat>, neighbors: seq<Name>, out: map<Name, nat>) {
    out.Keys == inDegree.Keys && forall n :: n in inDegree ==> out[n] + multiset(neighbors)[n] == inDegree[n]
  }

  ghost predicate WorkList(queue: seq<Name>, inDegree: map<Name, nat>, done: set<Name>) {
    Sorted(queue) && NoRepeats(queue) && Elements(queue) == Settled(inDegree, done)
  }

  /** Lower the count of each neighbour, once per edge, and queue those that reach zero. */
  method Relax(neighbors: seq<Name>, inDegree: map<Name, nat>, queue: seq<Name>, ghost done: set<Name>)
    returns (out: map<Name, nat>, work: seq<Name>)
    requires WorkList(queue, inDegree, done)
    requires forall n :: n in inDegree ==> inDegree[n] >= multiset(neighbors)[n]
    requires forall n :: n in neighbors ==> n in inDegree && n !in done
    ensures Lowered(inDegree, neighbors, out) && WorkList(work, out, done)
  {
    out, work := inDegree, queue;
    for i := 0 to |neighbors|
      invariant Lowered(inDegree, neighbors[..i], out) && WorkList(work, out, done)
    {
      var n := neighbors[i];
      assert neighbors[..i + 1] == neighbors[..i] + [n];
      EdgeLeft(neighbors, i);
      ghost var before, queued := out, work;
      out := out[n := out[n] - 1];
      if out[n] == 0 {
        work := Insert(work, n);
      }
      RelaxStep(before, queued, done, n);
    }
    assert neighbors[..|neighbors|] == neighbors;
  }

  /** An edge not yet taken is not yet subtracted. */
  lemma EdgeLeft(s: seq<Name>, i: nat)
    requires i < |s|
    ensures multiset(s[..i])[s[i]] < multiset(s)[s[i]]
  {
    assert s == s[..i] + [s[i]] + s[i + 1..];
  }

  lemma RelaxStep(inDegree: map<Name, nat>, queue: seq<Name>, done: set<Name>, n: Name)
    requires WorkList(queue, inDegree, done) && n in inDegree && n !in done && inDegree[n] > 0
    ensures var out := inDegree[n := inDegree[n] - 1];
            WorkList(if out[n] == 0 then Insert(queue, n) else queue, out, done)
  {
    var out := inDegree[n := inDegree[n] - 1];
    assert n !in Settled(inDegree, done);
    if out[n] == 0 {
      InsertSorted(queue, n);
      InsertNoRepeats(queue, n);
      assert Settled(out, done) == Settled(inDegree, done) + {n};
    } else {
      assert Settled(out, done) == Settled(inDegree, done);
    }
  }

  /** With exact counts, settled services are the ready ones. */
  lemma SettledIsReady(services: Services, done: set<Name>, inDegree: map<Name, nat>)
    requires Counts(services, done, inDegree)
    ensures Settled(inDegree, done) == Ready(services, done)
  {
    forall n | n in services ensures n in Settled(inDegree, done) <==> n in Ready(services, done) {
      PendingZero(services[n], services.Keys - done);
    }
  }

  /** Placing a ready service: its neighbours are unplaced, and lowering them keeps the counts exact. */
  lemma PlaceCounts(services: Services, done: set<Name>, inDegree: map<Name, nat>, adj: map<Name, seq<Name>>, m: Name)
    requires Counts(services, done, inDegree) && Mirrors(services, adj) && m in Ready(services, done)
    ensures forall n :: n in inDegree ==> inDegree[n] >= multiset(adj[m])[n]
    ensures forall out :: Lowered(inDegree, adj[m], out) ==> Counts(services, done + {m}, out)
  {
    var alive := services.Keys - done;
    assert MirrorsAt(services, adj, m);
    assert alive - {m} == services.Keys - (done + {m});
    forall n | n in services
      ensures inDegree[n] == Pending(services[n], alive - {m}) + multiset(adj[m])[n]
    {
      PendingRemove(services[n], alive, m);
    }
  }

  lemma NeighborsUnplaced(services: Services, done: set<Name>, inDegree: map<Name, nat>, adj: map<Name, seq<Name>>,
                          m: Name)
    requires Counts(services, done, inDegree) && Mirrors(services, adj) && m in Ready(services, done)
    requires Closed(services, done)
    ensures forall n :: n in adj[m] ==> n !in done + {m}
  {
    assert MirrorsAt(services, adj, m);
    forall n | n in adj[m] ensures n !in done + {m} {
      assert multiset(adj[m])[n] > 0;
      assert m in services[n];
    }
  }

  /** Placed services have only placed in-map dependencies. */
  ghost predicate Closed(services: Services, done: set<Name>) {
    forall n, d :: n in done && n in services && d in services[n] && d in services ==> d in done
  }

  /** The services with no in-map dependency, sorted. */
  method InitialQueue(inDegree: map<Name, nat>) returns (queue: seq<Name>)
    ensures WorkList(queue, inDegree, {})
  {
    queue := [];
    var todo := inDegree.Keys;
    while todo != {}
      invariant todo <= inDegree.Keys
      invariant Sorted(queue) && NoRepeats(queue)
      invariant forall n :: n in queue <==> n in inDegree && n !in todo && inDegree[n] == 0
      decreases |todo|
    {
      var n :| n in todo;
      if inDegree[n] == 0 {
        InsertSorted(queue, n);
        InsertNoRepeats(queue, n);
        queue := Insert(queue, n);
      }
      todo := todo - {n};
    }
  }

  // --- the whole sort --------------------------------------------------------------------

  /** The placements so far follow the reference order, and the bookkeeping is exact. */
  ghost predicate Sorting(services: Services, adj: map<Name, seq<Name>>, inDegree: map<Name, nat>,
                          queue: seq<Name>, result: seq<Name>) {
    var done := Elements(result);
    && Counts(services, done, inDegree) && Mirrors(services, adj) && Closed(services, done)
    && WorkList(queue, inDegree, done)
    && Follows(services, result)
  }

  /** Each placement was the greatest service ready at the time. */
  ghost predicate Follows(services: Services, result: seq<Name>) {
    forall k :: 0 <= k < |result| ==> FollowsAt(services, result, k)
  }

  ghost predicate FollowsAt(services: Services, result: seq<Name>, k: nat)
    requires k < |result|
  {
    IsGreatest(result[k], Ready(services, Elements(result[..k])))
  }

  lemma FollowsStep(services: Services, m: Name, done: set<Name>)
    requires IsGreatest(m, Ready(services, done))
    ensures Greedy(services, done) == [m] + Greedy(services, done + {m})
  {
    GreatestUnique(m, Ready(services, done));
    GreedyStep(services, done);
  }

  /** Following the rule to the end is the reference order. */
  lemma TakeNext(s: seq<Name>, k: nat)
    requires k < |s|
    ensures Elements(s[..k + 1]) == Elements(s[..k]) + {s[k]} && s[k..] == [s[k]] + s[k + 1..]
  {
    assert s[..k + 1] == s[..k] + [s[k]];
    ElementsSnoc(s[..k], s[k]);
  }

  lemma {:induction false} FollowsIsGreedy(services: Services, result: seq<Name>, k: nat, done: set<Name>)
    requires Follows(services, result) && Ready(services, Elements(result)) == {}
    requires k <= |result| && done == Elements(result[..k])
    ensures Greedy(services, done) == result[k..]
    decreases |result| - k
  {
    if k == |result| {
      assert result[..k] == result;
    } else {
      var m := result[k];
      assert FollowsAt(services, result, k);
      FollowsStep(services, m, done);
      TakeNext(result, k);
      FollowsIsGreedy(services, result, k + 1, done + {m});
    }
  }

  lemma FollowsExtend(services: Services, result: seq<Name>, m: Name)
    requires Follows(services, result) && IsGreatest(m, Ready(services, Elements(result)))
    ensures Follows(services, result + [m])
  {
    var longer := result + [m];
    forall k | 0 <= k < |longer| ensures FollowsAt(services, longer, k) {
      if k < |result| {
        assert longer[..k] == result[..k];
        assert FollowsAt(services, result, k);
      } else {
        assert longer[..k] == result;
      }
    }
  }

  /** The service popped next is the one the reference order places next. */
  lemma PopIsGreedy(services: Services, inDegree: map<Name, nat>, queue: seq<Name>, done: set<Name>)
    requires Counts(services, done, inDegree) && WorkList(queue, inDegree, done) && queue != []
    ensures var m := queue[|queue| - 1];
            && IsGreatest(m, Ready(services, done)) && m in services && m !in done
            && |services.Keys - (done + {m})| < |services.Keys - done|
  {
    SettledIsReady(services, done, inDegree);
    LastIsGreatest(queue);
    Shrinks(services.Keys, done, queue[|queue| - 1]);
  }

  lemma ClosedGrows(services: Services, done: set<Name>, m: Name)
    requires Closed(services, done) && m in Ready(services, done)
    ensures Closed(services, done + {m})
  {
  }

  /** Without its last entry, the queue is the work list of the placement's other candidates. */
  lemma PopKeepsWorkList(queue: seq<Name>, inDegree: map<Name, nat>, done: set<Name>)
    requires WorkList(queue, inDegree, done) && queue != []
    ensures WorkList(queue[..|queue| - 1], inDegree, done + {queue[|queue| - 1]})
  {
    var m, rest := queue[|queue| - 1], queue[..|queue| - 1];
    assert queue == rest + [m];
    assert m !in rest;
    assert Elements(queue) == Elements(rest) + {m};
    assert Settled(inDegree, done + {m}) == Settled(inDegree, done) - {m};
  }

  /** One round of the loop: pop, place, relax. */
  method PlaceNext(services: Services, adj: map<Name, seq<Name>>, inDegree: map<Name, nat>,
                   queue: seq<Name>, result: seq<Name>)
    returns (degrees: map<Name, nat>, work: seq<Name>, placed: seq<Name>)
    requires Sorting(services, adj, inDegree, queue, result) && queue != []
    ensures Sorting(services, adj, degrees, work, placed)
    ensures |services.Keys - Elements(placed)| < |services.Keys - Elements(result)|
  {
    var node := queue[|queue| - 1];
    ghost var done := Elements(result);
    PopIsGreedy(services, inDegree, queue, done);
    FollowsExtend(services, result, node);
    placed := result + [node];
    ElementsSnoc(result, node);
    degrees, work := RelaxPlaced(services, adj, inDegree, queue, done);
  }

  /** Take the last queue entry off and settle its edges. */
  method RelaxPlaced(services: Services, adj: map<Name, seq<Name>>, inDegree: map<Name, nat>,
                     queue: seq<Name>, ghost done: set<Name>)
    returns (degrees: map<Name, nat>, work: seq<Name>)
    requires Counts(services, done, inDegree) && Mirrors(services, adj) && Closed(services, done)
    requires WorkList(queue, inDegree, done) && queue != [] && queue[|queue| - 1] in Ready(services, done)
    ensures var after := done + {queue[|queue| - 1]};
            Counts(services, after, degrees) && Closed(services, after) && WorkList(work, degrees, after)
  {
    var node := queue[|queue| - 1];
    PopKeepsWorkList(queue, inDegree, done);
    PlaceCounts(services, done, inDegree, adj, node);
    NeighborsUnplaced(services, done, inDegree, adj, node);
    ClosedGrows(services, done, node);
    degrees, work := Relax(adj[node], inDegree, queue[..|queue| - 1], done + {node});
  }

  /**
   * `topological_sort`: the reference order first, then the services on or downstream
   * of a cycle; together a start order of all services.
   */
  method TopologicalSort(services: Services) returns (result: seq<Name>)
    ensures StartOrder(services, result)
    ensures Greedy(services, {}) <= result
  {
    var inDegree, adj := BuildGraph(services);
    var queue := InitialQueue(inDegree);
    result := [];
    assert Elements(result) == {};
    while queue != []
      invariant Sorting(services, adj, inDegree, queue, result)
      decreases |services.Keys - Elements(result)|
    {
      inDegree, queue, result := PlaceNext(services, adj, inDegree, queue, result);
    }
    OrderComplete(services, inDegree, result);
    result := AppendRest(services, result);
    AllStarted(services, result);
  }

  /** When the queue runs dry, the placements are the whole reference order. */
  lemma OrderComplete(services: Services, inDegree: map<Name, nat>, result: seq<Name>)
    requires Counts(services, Elements(result), inDegree) && WorkList([], inDegree, Elements(result))
    requires Follows(services, result)
    ensures result == Greedy(services, {}) && NoRepeats(result) && forall n :: n in result ==> n in services
  {
    SettledIsReady(services, Elements(result), inDegree);
    assert Elements<Name>([]) == {};
    FollowsIsGreedy(services, result, 0, {});
    GreedyNoRepeats(services, {});
  }

  /** Whatever a cycle kept out of the order, in any order. */
  method AppendRest(services: Services, order: seq<Name>) returns (result: seq<Name>)
    requires NoRepeats(order) && forall n :: n in order ==> n in services
    ensures NoRepeats(result) && order <= result && forall n :: n in result <==> n in services
  {
    result := order;
    var todo := services.Keys;
    while todo != {}
      invariant todo <= services.Keys
      invariant order <= result && NoRepeats(result)
      invariant forall n :: n in result ==> n in services
      invariant forall n :: n in services && n !in todo ==> n in result
      decreases |todo|
    {
      var name :| name in todo;
      if name !in result {
        result := result + [name];
      }
      todo := todo - {name};
    }
  }

  lemma AllStarted(services: Services, result: seq<Name>)
    requires Greedy(services, {}) <= result && NoRepeats(result) && forall n :: n in result <==> n in services
    ensures StartOrder(services, result)
  {
    assert Elements(result) == services.Keys;
    GreedyThenRest(services, result);
  }
}
