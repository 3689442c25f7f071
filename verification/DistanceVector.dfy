/**
 Distance-vector routing as a distributed protocol over a fixed topology: in one step a router
 processes the current vector of a neighbour, exactly as RouteTable.Router.ParseVector does.
 */
module DistanceVector {
  import opened Wrappers
  import opened Topology
  import opened RouteTable

  type Net = map<Node, Table>
  type Link = (Node, Node)

  /** Tables holding complete neighbour entries only. */
  function InitTable(g: Graph, u: Node): Table {
    map s | s in g.nodes && Linked(g, u, s) :: NeighborEntry(s, g.cost[(u, s)])
  }

  function Init(g: Graph): Net {
    map u | u in g.nodes :: InitTable(g, u)
  }

  /** Router l.0 processes the vector its neighbour l.1 currently sends it. */
  ghost predicate Exchange(g: Graph, a: Net, b: Net, l: Link) {
    && Linked(g, l.0, l.1) && l.0 in a && l.1 in a
    && exists v :: Enumerates(v, Advert(a[l.1], l.0)) && b == a[l.0 := Receive(a[l.0], l.0, l.1, v)]
  }

  function Front(sched: seq<Link>): seq<Link>
    requires sched != []
  {
    sched[..|sched| - 1]
  }

  function Last(sched: seq<Link>): Link
    requires sched != []
  {
    sched[|sched| - 1]
  }

  /** The schedule leads from a to b. */
  ghost predicate Run(g: Graph, a: Net, sched: seq<Link>, b: Net)
    decreases |sched|
  {
    if sched == [] then a == b
    else exists m :: Run(g, a, Front(sched), m) && Exchange(g, m, b, Last(sched))
  }

  ghost predicate HasWalk(g: Graph, u: Node, s: Node, d: int) {
    exists w :: Joins(g, w, u, s) && Cost(g, w) == d
  }

  /** Every stored distance is the cost of a real walk. */
  ghost predicate WalkSound(g: Graph, n: Net) {
    forall u, s {:trigger HasWalk(g, u, s, n[u][s].dist)} :: u in n && s in n[u] ==> HasWalk(g, u, s, n[u][s].dist)
  }

  /** Every router knows its exact distance to every other router. */
  ghost predicate Exact(g: Graph, n: Net) {
    forall u, s :: u in g.nodes && s in g.nodes && u != s ==>
      u in n && s in n[u] && IsShortest(g, u, s, n[u][s].dist)
  }

  /** The entry of u for s: either the link itself, or via a neighbour that knows s and is closer. */
  ghost predicate GoodEntry(g: Graph, n: Net, u: Node, s: Node)
    requires u in n && s in n[u]
  {
    var e := n[u][s];
    && u != s && s in g.nodes && e.name == s
    && if Linked(g, u, s) then e == NeighborEntry(s, g.cost[(u, s)])
       else
         var h := e.nextHop;
         && !e.neighbor
         && h != s && Linked(g, u, h) && h in n && s in n[h]
         && e.dist >= g.cost[(u, h)] + n[h][s].dist
  }

  /** No router keeps an entry for itself. */
  ghost predicate NoSelf(n: Net) {
    forall u :: u in n ==> u !in n[u]
  }

  ghost predicate Inv(g: Graph, n: Net) {
    && n.Keys == g.nodes
    && NoSelf(n)
    && (forall u, s :: Linked(g, u, s) ==> u in n && s in n[u])
    && (forall u, s {:trigger GoodEntry(g, n, u, s)} :: u in n && s in n[u] ==> GoodEntry(g, n, u, s))
    && WalkSound(g, n)
  }

  /** Distances never increase and entries never disappear. */
  ghost predicate NoWorse(a: Net, b: Net) {
    forall u, s :: u in a && s in a[u] ==> u in b && s in b[u] && b[u][s].dist <= a[u][s].dist
  }

  lemma InitInv(g: Graph)
    requires WellFormed(g)
    ensures Inv(g, Init(g))
  {
    var n: Net := Init(g);
    forall u, s | u in n && s in n[u] ensures GoodEntry(g, n, u, s) && HasWalk(g, u, s, n[u][s].dist) {
      LinkIsWalk(g, u, s);
      assert Cost(g, [u, s]) == n[u][s].dist;
    }
  }

  /** An exchange between intact tables, entry by entry. */
  lemma ExchangeIsMerge(g: Graph, a: Net, b: Net, l: Link)
    requires WellFormed(g) && Exchange(g, a, b, l)
    requires l.1 in DropStale(a[l.0], l.1) && l.1 !in a[l.1]
    ensures b == a[l.0 := Merge(DropStale(a[l.0], l.1), l.0, l.1, Advert(a[l.1], l.0))]
  {
    var v :| Enumerates(v, Advert(a[l.1], l.0)) && b == a[l.0 := Receive(a[l.0], l.0, l.1, v)];
    LoopIsMerge(DropStale(a[l.0], l.1), l.0, l.1, v, Advert(a[l.1], l.0));
  }

  /** Without shortcuts an exchange never touches the entry for a neighbour. */
  lemma NeighborKept(g: Graph, a: Net, b: Net, l: Link, s: Node)
    requires WellFormed(g) && NoShortcut(g) && Inv(g, a) && Exchange(g, a, b, l)
    requires Linked(g, l.0, s)
    ensures s in b[l.0] && b[l.0][s] == a[l.0][s]
  {
    var (u, x) := l;
    assert GoodEntry(g, a, u, x) && GoodEntry(g, a, u, s);
    ExchangeIsMerge(g, a, b, l);
    if s in a[x] {
      assert x != s;
      assert HasWalk(g, x, s, a[x][s].dist);
      var w :| Joins(g, w, x, s) && Cost(g, w) == a[x][s].dist;
      assert Cost(g, w) >= g.cost[(u, s)];
    }
  }

  lemma MergeLearns(t: Table, me: Node, source: Node, adv: map<Node, int>, s: Node)
    requires source in t && s != me && (s in t || s in adv)
    requires s in t ==> t[s].dist >= 0 && !t[s].neighbor && t[s].name == s && t[s].nextHop != source
    ensures
      var e := Merge(t, me, source, adv)[s];
      && (s in t ==> e.dist <= t[s].dist)
      && (s in adv ==> e.dist <= adv[s] + t[source].dist)
      && ((s in t && e == t[s])
          || (s in adv && e == Learned(s, source, adv[s] + t[source].dist).(complete := e.complete, peer := e.peer)))
  {
  }

  /** The entry for a non-neighbour becomes the better of the old one and the advertised one. */
  lemma OtherEntry(g: Graph, a: Net, b: Net, l: Link, s: Node)
    requires WellFormed(g) && Inv(g, a) && Exchange(g, a, b, l)
    requires s in a[l.0] || s in a[l.1]
    requires s != l.0 && !Linked(g, l.0, s)
    ensures s in b[l.0]
    ensures s in a[l.0] ==> b[l.0][s].dist <= a[l.0][s].dist
    ensures s in a[l.1] ==> b[l.0][s].dist <= g.cost[l] + a[l.1][s].dist
    ensures (s in a[l.0] && b[l.0][s] == a[l.0][s])
         || (s in a[l.1] && b[l.0][s] == Learned(s, l.1, g.cost[l] + a[l.1][s].dist).(complete := b[l.0][s].complete, peer := b[l.0][s].peer))
  {
    var (u, x) := l;
    assert GoodEntry(g, a, u, x);
    if s in a[u] {
      assert GoodEntry(g, a, u, s) && HasWalk(g, u, s, a[u][s].dist);
      assert s !in DropStale(a[u], x) ==> s in a[x] && a[u][s].dist >= g.cost[(u, x)] + a[x][s].dist;
    }
    ExchangeIsMerge(g, a, b, l);
    MergeLearns(DropStale(a[u], x), u, x, Advert(a[x], u), s);
  }

  lemma NothingElseAppears(g: Graph, a: Net, b: Net, l: Link)
    requires WellFormed(g) && Inv(g, a) && Exchange(g, a, b, l)
    ensures b.Keys == a.Keys && l.0 !in b[l.0]
    ensures forall s :: s in b[l.0] ==> s in a[l.0] || s in a[l.1]
    ensures forall v :: v in a && v != l.0 ==> b[v] == a[v]
  {
    assert GoodEntry(g, a, l.0, l.1);
    ExchangeIsMerge(g, a, b, l);
  }

  lemma WalkAfter(g: Graph, a: Net, l: Link, s: Node)
    requires WellFormed(g) && Inv(g, a) && Linked(g, l.0, l.1) && s in a[l.1]
    ensures HasWalk(g, l.0, s, g.cost[l] + a[l.1][s].dist)
  {
    assert HasWalk(g, l.1, s, a[l.1][s].dist);
    var w :| Joins(g, w, l.1, s) && Cost(g, w) == a[l.1][s].dist;
    Prepend(g, l.0, l.1, s, w);
  }

  lemma StepNoWorse(g: Graph, a: Net, b: Net, l: Link)
    requires WellFormed(g) && NoShortcut(g) && Inv(g, a) && Exchange(g, a, b, l)
    ensures NoWorse(a, b)
  {
    NothingElseAppears(g, a, b, l);
    forall s | s in a[l.0] ensures s in b[l.0] && b[l.0][s].dist <= a[l.0][s].dist {
      assert GoodEntry(g, a, l.0, s);
      if Linked(g, l.0, s) { NeighborKept(g, a, b, l, s); } else { OtherEntry(g, a, b, l, s); }
    }
  }

  lemma StepInv(g: Graph, a: Net, b: Net, l: Link)
    requires WellFormed(g) && NoShortcut(g) && Inv(g, a) && Exchange(g, a, b, l)
    ensures Inv(g, b) && NoWorse(a, b)
  {
    NothingElseAppears(g, a, b, l);
    StepNoWorse(g, a, b, l);
    forall u, s | u in b && s in b[u]
      ensures GoodEntry(g, b, u, s)
      ensures HasWalk(g, u, s, b[u][s].dist)
    {
      if u == l.0 {
        if Linked(g, u, s) { NeighborKept(g, a, b, l, s); } else { OtherEntry(g, a, b, l, s); }
        if s in a[u] { assert GoodEntry(g, a, u, s) && HasWalk(g, u, s, a[u][s].dist); }
        if s in a[l.1] { WalkAfter(g, a, l, s); assert GoodEntry(g, a, l.1, s); }
      } else {
        assert GoodEntry(g, a, u, s) && HasWalk(g, u, s, a[u][s].dist);
      }
    }
  }

  /** Safety of every run on a topology without shortcuts. */
  lemma {:induction false} RunInv(g: Graph, a: Net, sched: seq<Link>, b: Net)
    requires WellFormed(g) && NoShortcut(g) && Inv(g, a) && Run(g, a, sched, b)
    ensures Inv(g, b) && NoWorse(a, b)
    decreases |sched|
  {
    if sched != [] {
      var m :| Run(g, a, Front(sched), m) && Exchange(g, m, b, Last(sched));
      RunInv(g, a, Front(sched), m);
      StepInv(g, m, b, Last(sched));
    }
  }

  /* ---- loop freedom ---- */

  /** The next hop is s itself or a router that knows s and is strictly closer to it. */
  lemma NextHopCloser(g: Graph, n: Net, u: Node, s: Node)
    requires WellFormed(g) && Inv(g, n) && u in n && s in n[u]
    ensures n[u][s].dist >= 0 && Linked(g, u, n[u][s].nextHop) && n[u][s].name == s
    ensures var h := n[u][s].nextHop;
      if h == s then n[u][s].dist == g.cost[(u, s)]
      else h in n && s in n[h] && 0 <= n[h][s].dist < n[u][s].dist
           && n[u][s].dist >= g.cost[(u, h)] + n[h][s].dist
  {
    assert GoodEntry(g, n, u, s) && HasWalk(g, u, s, n[u][s].dist);
    var h := n[u][s].nextHop;
    if h != s {
      assert HasWalk(g, h, s, n[h][s].dist);
    }
  }

  /** The nodes met when next hops are followed from u to s. */
  ghost function HopPath(g: Graph, n: Net, u: Node, s: Node): seq<Node>
    requires WellFormed(g) && Inv(g, n) && u in n && s in n[u]
    decreases n[u][s].dist
  {
    NextHopCloser(g, n, u, s);
    var h := n[u][s].nextHop;
    if h == s then [u, s] else [u] + HopPath(g, n, h, s)
  }

  /** p follows the next hops for s of the tables n and ends at s. */
  ghost predicate Follows(n: Net, p: seq<Node>, s: Node) {
    && |p| >= 1 && p[|p| - 1] == s
    && forall i :: 0 <= i < |p| - 1 ==> p[i] in n && s in n[p[i]] && n[p[i]][s].nextHop == p[i + 1]
  }

  /** Following next hops is a loop-free walk to s that costs no more than u believes. */
  lemma {:induction false} LoopFree(g: Graph, n: Net, u: Node, s: Node)
    requires WellFormed(g) && Inv(g, n) && u in n && s in n[u] && u != s
    ensures var p := HopPath(g, n, u, s);
      && Follows(n, p, s) && Distinct(p)
      && Joins(g, p, u, s) && Cost(g, p) <= n[u][s].dist
      && forall v :: v in p && v != s ==> v in n && s in n[v] && n[v][s].dist <= n[u][s].dist
    decreases n[u][s].dist
  {
    hide Inv, WellFormed, Joins, Cost;
    NextHopCloser(g, n, u, s);
    var h := n[u][s].nextHop;
    if h == s {
      LinkIsWalk(g, u, s);
    } else {
      LoopFree(g, n, h, s);
      Prepend(g, u, h, s, HopPath(g, n, h, s));
    }
  }

  /* ---- convergence ---- */

  /** The phase contains every ordered pair of neighbours. */
  ghost predicate Covers(g: Graph, phase: seq<Link>) {
    forall u, x :: Linked(g, u, x) ==> (u, x) in phase
  }

  ghost function Flatten(phases: seq<seq<Link>>): seq<Link> {
    if phases == [] then [] else Flatten(phases[..|phases| - 1]) + phases[|phases| - 1]
  }

  /** No walk of at most k + 1 links beats a stored distance. */
  ghost predicate Within(g: Graph, n: Net, k: nat) {
    forall w, u, s :: Joins(g, w, u, s) && u != s && |w| <= k + 2 ==>
      u in n && s in n[u] && n[u][s].dist <= Cost(g, w)
  }

  lemma {:induction false} SplitRun(g: Graph, a: Net, s: seq<Link>, t: seq<Link>, b: Net) returns (m: Net)
    requires Run(g, a, s + t, b)
    ensures Run(g, a, s, m) && Run(g, m, t, b)
    decreases |t|
  {
    if t == [] {
      assert s + t == s;
      m := b;
    } else {
      assert Front(s + t) == s + Front(t);
      var c :| Run(g, a, Front(s + t), c) && Exchange(g, c, b, Last(s + t));
      m := SplitRun(g, a, s, Front(t), c);
    }
  }

  lemma EmptyRun(g: Graph, a: Net, b: Net)
    requires Run(g, a, [], b)
    ensures a == b
  {
  }

  lemma InitWithin(g: Graph)
    requires WellFormed(g)
    ensures Within(g, Init(g), 0)
  {
    forall w, u, s | Joins(g, w, u, s) && u != s && |w| <= 2
      ensures u in Init(g) && s in Init(g)[u] && Init(g)[u][s].dist <= Cost(g, w)
    {
      assert w == [u, s];
    }
  }

  /** Processing the vector of x makes u at least as good as going through x. */
  lemma Learn(g: Graph, a: Net, b: Net, w: seq<Node>, u: Node, s: Node)
    requires WellFormed(g) && NoShortcut(g) && Inv(g, a)
    requires Joins(g, w, u, s) && u != s && |w| >= 2 && Exchange(g, a, b, (u, w[1]))
    requires w[1] != s ==> s in a[w[1]] && a[w[1]][s].dist <= Cost(g, w[1..])
    ensures s in b[u] && b[u][s].dist <= Cost(g, w)
  {
    var x := w[1];
    Tail(g, w, u, s);
    if Linked(g, u, s) {
      NeighborKept(g, a, b, (u, x), s);
      assert GoodEntry(g, a, u, s);
    } else {
      OtherEntry(g, a, b, (u, x), s);
    }
  }

  /** The moment a link of the schedule is processed. */
  lemma Processed(g: Graph, a: Net, sched: seq<Link>, b: Net, l: Link) returns (i: nat, m: Net, c: Net)
    requires Run(g, a, sched, b) && l in sched
    ensures i < |sched| && Run(g, a, sched[..i], m) && Exchange(g, m, c, l) && Run(g, c, sched[i + 1..], b)
  {
    hide Exchange;
    i :| 0 <= i < |sched| && sched[i] == l;
    assert sched == sched[..i + 1] + sched[i + 1..];
    c := SplitRun(g, a, sched[..i + 1], sched[i + 1..], b);
    assert Front(sched[..i + 1]) == sched[..i] && Last(sched[..i + 1]) == l;
    m :| Run(g, a, sched[..i], m) && Exchange(g, m, c, l);
  }

  lemma WalkCovered(g: Graph, a: Net, phase: seq<Link>, b: Net, w: seq<Node>, u: Node, s: Node)
    requires WellFormed(g) && NoShortcut(g) && Inv(g, a) && Run(g, a, phase, b)
    requires Joins(g, w, u, s) && u != s && |w| >= 2 && (u, w[1]) in phase
    requires w[1] != s ==> w[1] in a && s in a[w[1]] && a[w[1]][s].dist <= Cost(g, w[1..])
    ensures u in b && s in b[u] && b[u][s].dist <= Cost(g, w)
  {
    hide Run, Inv, NoShortcut, WellFormed, Exchange;
    var i, m, c := Processed(g, a, phase, b, (u, w[1]));
    RunInv(g, a, phase[..i], m);
    Learn(g, m, c, w, u, s);
    StepInv(g, m, c, (u, w[1]));
    RunInv(g, c, phase[i + 1..], b);
  }

  /** One complete phase extends the horizon of every router by one link. */
  lemma PhaseExtends(g: Graph, a: Net, phase: seq<Link>, b: Net, k: nat)
    requires WellFormed(g) && NoShortcut(g) && Inv(g, a)
    requires Covers(g, phase) && Run(g, a, phase, b) && Within(g, a, k)
    ensures Within(g, b, k + 1)
  {
    hide Run, Inv, NoShortcut, WellFormed, Within;
    forall w, u, s | Joins(g, w, u, s) && u != s && |w| <= k + 3
      ensures u in b && s in b[u] && b[u][s].dist <= Cost(g, w)
    {
      OneFurther(g, a, phase, b, k, w, u, s);
    }
    WithinAll(g, b, k + 1);
  }

  lemma OneFurther(g: Graph, a: Net, phase: seq<Link>, b: Net, k: nat, w: seq<Node>, u: Node, s: Node)
    requires WellFormed(g) && NoShortcut(g) && Inv(g, a)
    requires Covers(g, phase) && Run(g, a, phase, b) && Within(g, a, k)
    requires Joins(g, w, u, s) && u != s && |w| <= k + 3
    ensures u in b && s in b[u] && b[u][s].dist <= Cost(g, w)
  {
    hide Run, Inv, NoShortcut, WellFormed;
    Tail(g, w, u, s);
    WalkCovered(g, a, phase, b, w, u, s);
  }

  lemma WithinAll(g: Graph, n: Net, k: nat)
    requires forall w, u, s :: Joins(g, w, u, s) && u != s && |w| <= k + 2 ==>
      u in n && s in n[u] && n[u][s].dist <= Cost(g, w)
    ensures Within(g, n, k)
  {
    hide Joins, Cost;
  }

  lemma FlattenLast(phases: seq<seq<Link>>)
    ensures phases != [] ==> Flatten(phases) == Flatten(phases[..|phases| - 1]) + phases[|phases| - 1]
    ensures phases == [] ==> Flatten(phases) == []
  {
  }

  lemma {:induction false} PhasesExtend(g: Graph, phases: seq<seq<Link>>, b: Net)
    requires WellFormed(g) && NoShortcut(g)
    requires Run(g, Init(g), Flatten(phases), b) && forall p :: p in phases ==> Covers(g, p)
    ensures Inv(g, b) && Within(g, b, |phases|)
    decreases |phases|
  {
    hide *;
    InitInv(g);
    FlattenLast(phases);
    if phases == [] {
      EmptyRun(g, Init(g), b);
      InitWithin(g);
    } else {
      var n := |phases| - 1;
      var m := SplitRun(g, Init(g), Flatten(phases[..n]), phases[n], b);
      PhasesExtend(g, phases[..n], m);
      PhaseExtends(g, m, phases[n], b, n);
      RunInv(g, m, phases[n], b);
    }
  }

  lemma ExactIfWithin(g: Graph, b: Net, k: nat, u: Node, s: Node)
    requires Connected(g) && Inv(g, b) && Within(g, b, k) && k + 2 >= |g.nodes|
    requires u in g.nodes && s in g.nodes && u != s
    ensures u in b && s in b[u] && IsShortest(g, u, s, b[u][s].dist)
  {
    assert Joined(g, u, s);
    var w :| Joins(g, w, u, s);
    var p := ShortWalk(g, w, u, s);
    assert s in b[u] && HasWalk(g, u, s, b[u][s].dist);
    forall q | Joins(g, q, u, s) ensures b[u][s].dist <= Cost(g, q) {
      var r := ShortWalk(g, q, u, s);
    }
  }

  /** Convergence: after |V| - 2 complete phases all tables are exact. */
  lemma Convergence(g: Graph, phases: seq<seq<Link>>, b: Net)
    requires WellFormed(g) && Connected(g) && NoShortcut(g)
    requires Run(g, Init(g), Flatten(phases), b) && forall p :: p in phases ==> Covers(g, p)
    requires |phases| + 2 >= |g.nodes|
    ensures Exact(g, b)
  {
    PhasesExtend(g, phases, b);
    forall u, s | u in g.nodes && s in g.nodes && u != s
      ensures u in b && s in b[u] && IsShortest(g, u, s, b[u][s].dist)
    {
      ExactIfWithin(g, b, |phases|, u, s);
    }
  }

  /* ---- exactly when the protocol is safe ---- */

  /** Reachable from the initial tables by processing vectors in some order. */
  ghost predicate Reachable(g: Graph, n: Net) {
    exists sched :: Run(g, Init(g), sched, n)
  }

  lemma ExchangeExists(g: Graph, a: Net, l: Link) returns (b: Net)
    requires Linked(g, l.0, l.1) && l.0 in a && l.1 in a
    ensures Exchange(g, a, b, l) && b.Keys == a.Keys && forall v :: v in a && v != l.0 ==> b[v] == a[v]
  {
    var v := Enumeration(Advert(a[l.1], l.0));
    b := a[l.0 := Receive(a[l.0], l.0, l.1, v)];
  }

  lemma InitReachable(g: Graph) returns (n: Net)
    requires WellFormed(g)
    ensures Reachable(g, n) && n == Init(g) && NoSelf(n)
  {
    n := Init(g);
    assert Run(g, Init(g), [], n);
  }

  lemma ReachMore(g: Graph, a: Net, b: Net, l: Link)
    requires Reachable(g, a) && Exchange(g, a, b, l)
    ensures Reachable(g, b)
  {
    var sched :| Run(g, Init(g), sched, a);
    assert Front(sched + [l]) == sched && Last(sched + [l]) == l;
    assert Run(g, Init(g), sched + [l], b);
  }

  /** A router still holding its initial table processes a vector advertising s at distance d. */
  lemma FirstExchange(g: Graph, a: Net, b: Net, u: Node, x: Node, s: Node)
    requires WellFormed(g) && Exchange(g, a, b, (u, x)) && u in g.nodes && a[u] == InitTable(g, u)
    requires x !in a[x] && s in a[x] && s != u
    ensures s in b[u] && u !in b[u]
    ensures b[u][s].dist == if !Linked(g, u, s) then g.cost[(u, x)] + a[x][s].dist
                            else if a[x][s].dist < g.cost[(u, s)] then a[x][s].dist else g.cost[(u, s)]
  {
    var t := a[u];
    InitTableOf(g, u);
    assert DropStale(t, x) == t;
    ExchangeIsMerge(g, a, b, (u, x));
    MergeAt(t, u, x, Advert(a[x], u), s);
  }

  lemma InitTableOf(g: Graph, u: Node)
    requires WellFormed(g) && u in g.nodes
    ensures var t := InitTable(g, u);
      forall s :: (s in t <==> Linked(g, u, s)) && (s in t ==> t[s] == NeighborEntry(s, g.cost[(u, s)]))
  {
  }

  lemma MergeAt(t: Table, me: Node, source: Node, adv: map<Node, int>, s: Node)
    requires source in t && s in adv && s != me
    ensures s in Merge(t, me, source, adv)
    ensures Merge(t, me, source, adv)[s] ==
      if s in t then Improve(t[s], source, adv[s], t[source].dist) else Learned(s, source, adv[s] + t[source].dist)
    ensures me !in t ==> me !in Merge(t, me, source, adv)
  {
  }

  /** x knows s at no more than the cost of w, and only routers on w have processed anything. */
  ghost predicate Passed(g: Graph, n: Net, w: seq<Node>, x: Node, s: Node)
    requires Walk(g, w)
  {
    && n.Keys == g.nodes && NoSelf(n)
    && (forall v :: v in g.nodes && v !in w ==> n[v] == InitTable(g, v))
    && x in n && s in n[x] && n[x][s].dist <= Cost(g, w)
  }

  lemma PassOne(g: Graph, a: Net, w: seq<Node>, x: Node, s: Node) returns (b: Net)
    requires WellFormed(g) && Joins(g, w, x, s) && x != s && |w| >= 2 && x !in w[1..]
    requires Passed(g, a, w[1..], w[1], s)
    ensures Exchange(g, a, b, (x, w[1])) && Passed(g, b, w, x, s)
  {
    Tail(g, w, x, s);
    b := ExchangeExists(g, a, (x, w[1]));
    assert forall v :: v in w <==> v == x || v in w[1..];
    FirstExchange(g, a, b, x, w[1], s);
  }

  /** Information about s can be passed back along any simple walk, touching only its nodes. */
  lemma {:induction false} PassBack(g: Graph, w: seq<Node>, x: Node, s: Node) returns (b: Net)
    requires WellFormed(g) && Joins(g, w, x, s) && x != s && Distinct(w)
    ensures Reachable(g, b) && Passed(g, b, w, x, s)
    decreases |w|
  {
    Tail(g, w, x, s);
    if w[1] == s {
      b := InitReachable(g);
    } else {
      var a := PassBack(g, w[1..], w[1], s);
      b := PassOne(g, a, w, x, s);
      ReachMore(g, a, b, (x, w[1]));
    }
  }

  /** If there is a shortcut, some neighbour of u is nearer to s than u itself is. */
  lemma NearerNeighbor(g: Graph, u: Node, s: Node, x: Node, w: seq<Node>) returns (y: Node, p: seq<Node>)
    requires WellFormed(g) && Linked(g, u, s) && Linked(g, u, x) && x != s
    requires Joins(g, w, x, s) && Cost(g, w) < g.cost[(u, s)]
    ensures Linked(g, u, y) && y != s && Joins(g, p, y, s) && Distinct(p) && u !in p
    ensures forall q :: Joins(g, q, u, s) ==> Cost(g, p) < Cost(g, q)
  {
    LinkIsWalk(g, u, s);
    var best := CheapestWalk(g, [u, s], u, s);
    Tail(g, best, u, s);
    y := if Cost(g, best) < g.cost[(u, s)] then best[1] else x;
    p := Simplify(g, if Cost(g, best) < g.cost[(u, s)] then best[1..] else w, y, s);
    if u in p {
      var i :| 0 <= i < |p| && p[i] == u;
      Suffix(g, p, i);
      assert Joins(g, p[i..], u, s);
    }
  }

  /** A shortcut lets some run store a distance below the true one. */
  lemma ShortcutBreaks(g: Graph, u: Node, s: Node, x: Node, w: seq<Node>) returns (b: Net)
    requires WellFormed(g) && Linked(g, u, s) && Linked(g, u, x) && x != s
    requires Joins(g, w, x, s) && Cost(g, w) < g.cost[(u, s)]
    ensures Reachable(g, b) && !WalkSound(g, b)
  {
    var y, p := NearerNeighbor(g, u, s, x, w);
    LinkIsWalk(g, u, s);
    var a := PassBack(g, p, y, s);
    b := ExchangeExists(g, a, (u, y));
    FirstExchange(g, a, b, u, y, s);
    ReachMore(g, a, b, (u, y));
    assert !HasWalk(g, u, s, b[u][s].dist);
  }

  /** Stored distances are real in every reachable state exactly on topologies without shortcuts. */
  lemma SafeIffNoShortcut(g: Graph)
    requires WellFormed(g)
    ensures NoShortcut(g) <==> forall n :: Reachable(g, n) ==> WalkSound(g, n)
  {
    if NoShortcut(g) {
      InitInv(g);
      forall n | Reachable(g, n) ensures WalkSound(g, n) {
        var sched :| Run(g, Init(g), sched, n);
        RunInv(g, Init(g), sched, n);
      }
    } else {
      var u, s, x, w :| Linked(g, u, s) && Linked(g, u, x) && x != s && Joins(g, w, x, s)
        && Cost(g, w) < g.cost[(u, s)];
      var b := ShortcutBreaks(g, u, s, x, w);
    }
  }

  /** Every reachable state of a network without shortcuts, at a glance. */
  lemma ReachableSafe(g: Graph, n: Net)
    requires WellFormed(g) && NoShortcut(g) && Reachable(g, n)
    ensures Inv(g, n) && NoWorse(Init(g), n)
    ensures forall u, s {:trigger HopPath(g, n, u, s)} :: u in n && s in n[u] ==>
      var p := HopPath(g, n, u, s);
      Follows(n, p, s) && Distinct(p) && Joins(g, p, u, s) && Cost(g, p) <= n[u][s].dist
  {
    InitInv(g);
    var sched :| Run(g, Init(g), sched, n);
    RunInv(g, Init(g), sched, n);
    forall u, s | u in n && s in n[u]
      ensures var p := HopPath(g, n, u, s);
        Follows(n, p, s) && Distinct(p) && Joins(g, p, u, s) && Cost(g, p) <= n[u][s].dist
    {
      LoopFree(g, n, u, s);
    }
  }

  /** Three routers, one of whose links is longer than the way round, store a distance that is too small. */
  lemma TriangleBreaks() returns (g: Graph, n: Net)
    ensures WellFormed(g) && Reachable(g, n) && !WalkSound(g, n)
  {
    g := Graph({"u", "s", "x"}, map[("u", "s") := 10, ("s", "u") := 10, ("u", "x") := 5, ("x", "u") := 5,
                                    ("x", "s") := 1, ("s", "x") := 1]);
    LinkIsWalk(g, "x", "s");
    n := ShortcutBreaks(g, "u", "s", "x", ["x", "s"]);
  }

  /* ---- the protocol steps are what the routers' methods do ---- */

  /** The neighbour list of u, processed by a router with an empty table, yields its initial table. */
  lemma NeighborhoodInits(g: Graph, u: Node, v: seq<(Node, int)>)
    requires WellFormed(g) && v != [] && u in g.nodes
    requires Enumerates(v, map s | s in g.nodes && Linked(g, u, s) :: g.cost[(u, s)])
    ensures Neighborhood(map[], u, v) == InitTable(g, u)
  {
    hide Neighborhood, InitTable;
    var m := map s | s in g.nodes && Linked(g, u, s) :: g.cost[(u, s)];
    var t, t' := Neighborhood(map[], u, v), InitTable(g, u);
    NoSelfLink(g, u);
    InitTableOf(g, u);
    ListPrunes(map[], u, v);
    forall s
      ensures s in t <==> s in t'
      ensures s in t ==> t[s] == t'[s]
    {
      if Listed(v, s) {
        var i :| 0 <= i < |v| && v[i].0 == s;
        assert s in m && v[i].1 == m[s];
        ListIntroduces(map[], u, v, i);
      } else {
        assert s !in m;
      }
    }
    assert t == t';
  }

  lemma NoSelfLink(g: Graph, u: Node)
    requires WellFormed(g)
    ensures !Linked(g, u, u) && forall s :: Linked(g, u, s) ==> s in g.nodes
  {
  }

  /** Two linked routers exchange a vector: this is one Exchange of the protocol. */
  method Deliver(from: Router, to: Router, ghost g: Graph, ghost a: Net)
    requires from != to && Linked(g, to.name, from.name)
    requires from.name in a && to.name in a && a[from.name] == from.table && a[to.name] == to.table
    modifies to
    ensures Exchange(g, a, a[to.name := to.table], (to.name, from.name))
  {
    var v := from.Vector(to.name);
    to.ParseVector(v, from.name);
  }
}
