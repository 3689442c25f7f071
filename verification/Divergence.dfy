/** Topologies with a shortcut: complete phases of exchanges need not make the tables exact, however many there are. */
module Divergence {
  import opened Topology
  import opened RouteTable
  import opened DistanceVector

  /* ---- a shortcut can also spoil convergence ---- */

  /** While every link has been processed at most once: an entry that is not direct came by a processed link. */
  ghost predicate FreshEntry(n: Net, done: seq<Link>, v: Node, s: Node)
    requires v in n && s in n[v]
  {
    var e := n[v][s];
    e.name == s && e.dist >= 0 && (e.nextHop == s || (v, e.nextHop) in done)
  }

  /** The entry for a neighbour is still one, at no more than the cost of the link. */
  ghost predicate FreshLink(g: Graph, n: Net, v: Node, z: Node)
    requires Linked(g, v, z)
  {
    v in n && z in n[v] && n[v][z].neighbor && n[v][z].dist <= g.cost[(v, z)]
  }

  ghost predicate Fresh(g: Graph, n: Net, done: seq<Link>) {
    && n.Keys == g.nodes && NoSelf(n)
    && (forall v, s {:trigger FreshEntry(n, done, v, s)} :: v in n && s in n[v] ==> FreshEntry(n, done, v, s))
    && (forall v, z {:trigger FreshLink(g, n, v, z)} :: Linked(g, v, z) ==> FreshLink(g, n, v, z))
  }

  lemma MergeElsewhere(t: Table, me: Node, source: Node, adv: map<Node, int>, s: Node)
    requires source in t && s !in adv
    ensures s in Merge(t, me, source, adv) <==> s in t
    ensures s in t ==> Merge(t, me, source, adv)[s] == t[s]
  {
  }

  /** What an exchange leaves in the table of l.0 when nothing there came by l before. */
  lemma FreshExchange(g: Graph, a: Net, b: Net, l: Link, done: seq<Link>)
    requires WellFormed(g) && Fresh(g, a, done) && Exchange(g, a, b, l) && l !in done
    ensures l.1 in a[l.0] && b == a[l.0 := Merge(a[l.0], l.0, l.1, Advert(a[l.1], l.0))]
  {
    assert FreshLink(g, a, l.0, l.1);
    forall s | s in a[l.0]
      ensures !Stale(a[l.0][s], l.1)
    {
      assert FreshEntry(a, done, l.0, s);
    }
    assert DropStale(a[l.0], l.1) == a[l.0];
    ExchangeIsMerge(g, a, b, l);
  }

  lemma FreshStep(g: Graph, a: Net, b: Net, l: Link, done: seq<Link>)
    requires WellFormed(g) && Fresh(g, a, done) && Exchange(g, a, b, l) && l !in done
    ensures Fresh(g, b, done + [l])
  {
    var (u, x) := l;
    hide Exchange, Merge, Advert;
    FreshExchange(g, a, b, l, done);
    LinkedExchange(g, a, b, l);
    forall v, s | v in b && s in b[v]
      ensures FreshEntry(b, done + [l], v, s)
    {
      FreshMerged(g, a, b, l, done, v, s);
    }
    forall v, z | Linked(g, v, z)
      ensures FreshLink(g, b, v, z)
    {
      assert FreshLink(g, a, v, z);
      FreshMerged(g, a, b, l, done, v, z);
    }
    assert FreshLink(g, a, u, x);
    if u in b[u] {
      FreshMerged(g, a, b, l, done, u, u);
    }
  }

  lemma LinkedExchange(g: Graph, a: Net, b: Net, l: Link)
    requires Exchange(g, a, b, l)
    ensures Linked(g, l.0, l.1) && l.0 in a && l.1 in a
  {
  }

  lemma FreshMerged(g: Graph, a: Net, b: Net, l: Link, done: seq<Link>, v: Node, s: Node)
    requires WellFormed(g) && Fresh(g, a, done) && Linked(g, l.0, l.1) && l.1 in a[l.0] && v in b && l !in done
    requires b == a[l.0 := Merge(a[l.0], l.0, l.1, Advert(a[l.1], l.0))]
    ensures s in b[v] ==> FreshEntry(b, done + [l], v, s) && s != v
    ensures s in a[v] ==> s in b[v] && b[v][s].neighbor == a[v][s].neighbor && b[v][s].dist <= a[v][s].dist
  {
    var (u, x) := l;
    if s in a[v] { assert FreshEntry(a, done, v, s); }
    if v == u {
      assert FreshEntry(a, done, u, x);
      if s in a[x] && s != u {
        assert FreshEntry(a, done, x, s);
        MergeAt(a[u], u, x, Advert(a[x], u), s);
      } else {
        MergeElsewhere(a[u], u, x, Advert(a[x], u), s);
      }
    }
  }

  lemma {:induction false} FreshRun(g: Graph, sched: seq<Link>, b: Net)
    requires WellFormed(g) && Run(g, Init(g), sched, b) && Distinct(sched)
    ensures Fresh(g, b, sched)
    decreases |sched|
  {
    hide Run, Exchange, Init, Fresh;
    if sched == [] {
      EmptyRun(g, Init(g), b);
      FreshInit(g);
    } else {
      var m := RunLast(g, Init(g), sched, b);
      FreshRun(g, Front(sched), m);
      FreshStep(g, m, b, Last(sched), Front(sched));
      assert Front(sched) + [Last(sched)] == sched;
    }
  }

  lemma RunLast(g: Graph, a: Net, sched: seq<Link>, b: Net) returns (m: Net)
    requires sched != [] && Run(g, a, sched, b)
    ensures Run(g, a, Front(sched), m) && Exchange(g, m, b, Last(sched))
  {
    hide Exchange;
    m :| Run(g, a, Front(sched), m) && Exchange(g, m, b, Last(sched));
  }

  lemma RunMore(g: Graph, a: Net, sched: seq<Link>, m: Net, l: Link, b: Net)
    requires Run(g, a, sched, m) && Exchange(g, m, b, l)
    ensures Run(g, a, sched + [l], b)
  {
    hide Exchange;
    assert Front(sched + [l]) == sched && Last(sched + [l]) == l;
  }

  lemma FreshInit(g: Graph)
    requires WellFormed(g)
    ensures Fresh(g, Init(g), [])
  {
  }

  lemma {:induction false} RunExists(g: Graph, sched: seq<Link>) returns (b: Net)
    requires WellFormed(g) && forall l :: l in sched ==> Linked(g, l.0, l.1)
    ensures Run(g, Init(g), sched, b) && b.Keys == g.nodes
    decreases |sched|
  {
    if sched == [] {
      b := Init(g);
    } else {
      var m := RunExists(g, Front(sched));
      assert Last(sched) in sched;
      b := ExchangeExists(g, m, Last(sched));
    }
  }

  lemma Listing<T>(s: set<T>) returns (q: seq<T>)
    ensures Distinct(q) && forall x :: x in q <==> x in s
    decreases |s|
  {
    if s == {} {
      q := [];
    } else {
      var x :| x in s;
      var r := Listing(s - {x});
      q := r + [x];
    }
  }

  /** A shortcut over a link: one complete phase from the initial tables may end in a distance that is too small. */
  lemma LinkShortcutDiverges(g: Graph, u: Node, s: Node, y: Node) returns (phase: seq<Link>, b: Net)
    requires WellFormed(g) && Linked(g, u, s) && Linked(g, u, y) && Linked(g, y, s) && y != s
    requires forall q :: Joins(g, q, u, s) ==> g.cost[(y, s)] < Cost(g, q)
    ensures Covers(g, phase) && Run(g, Init(g), phase, b) && !Exact(g, b)
  {
    hide Run, Exchange, Init, Exact, Joins, Cost, Fresh;
    var rest := Listing(g.cost.Keys - {(u, y)});
    var m := RunExists(g, rest);
    FreshRun(g, rest, m);
    b := ExchangeExists(g, m, (u, y));
    ShortcutTaken(g, m, b, u, s, y, rest);
    RunMore(g, Init(g), rest, m, (u, y), b);
    phase := rest + [(u, y)];
    if Exact(g, b) {
      TooShort(g, b, u, s);
    }
  }

  lemma ShortcutTaken(g: Graph, a: Net, b: Net, u: Node, s: Node, y: Node, done: seq<Link>)
    requires WellFormed(g) && Fresh(g, a, done) && Exchange(g, a, b, (u, y)) && (u, y) !in done
    requires Linked(g, u, s) && Linked(g, u, y) && Linked(g, y, s) && y != s
    ensures u in b && s in b[u] && b[u][s].dist <= g.cost[(y, s)]
  {
    hide Exchange, Merge;
    FreshExchange(g, a, b, (u, y), done);
    assert FreshLink(g, a, u, y) && FreshLink(g, a, y, s) && FreshLink(g, a, u, s);
    MergeAt(a[u], u, y, Advert(a[y], u), s);
  }

  lemma TooShort(g: Graph, b: Net, u: Node, s: Node)
    requires Exact(g, b) && u in g.nodes && s in g.nodes && u != s
    ensures u in b && s in b[u] && exists w :: Joins(g, w, u, s) && Cost(g, w) == b[u][s].dist
  {
    hide Joins, Cost;
    assert IsShortest(g, u, s, b[u][s].dist);
  }

  /** Every run of at least k complete phases ends in exact tables. */
  ghost predicate SettlesAfter(g: Graph, k: nat) {
    forall phases, b :: |phases| >= k && (forall p :: p in phases ==> Covers(g, p)) && Run(g, Init(g), Flatten(phases), b)
      ==> Exact(g, b)
  }

  /** |V| - 2 complete phases always lead to exact tables. */
  ghost predicate Converges(g: Graph) {
    SettlesAfter(g, if |g.nodes| < 2 then 0 else |g.nodes| - 2)
  }

  lemma SufficesAll(g: Graph)
    requires WellFormed(g) && Connected(g) && NoShortcut(g)
    ensures Converges(g)
  {
    hide Run, Init, Exact, Connected, NoShortcut, Covers, WellFormed;
    var k := if |g.nodes| < 2 then 0 else |g.nodes| - 2;
    forall phases, b | Run(g, Init(g), Flatten(phases), b) && |phases| >= k && forall p :: p in phases ==> Covers(g, p)
      ensures Exact(g, b)
    {
      Convergence(g, phases, b);
    }
  }

  /** With three routers the absence of shortcuts is also necessary for convergence. */
  lemma ThreeRouters(g: Graph)
    requires WellFormed(g) && Connected(g) && |g.nodes| == 3
    ensures Converges(g) <==> NoShortcut(g)
  {
    hide Run, Init, Exact, Connected, NoShortcut, Covers, WellFormed;
    if NoShortcut(g) {
      SufficesAll(g);
    } else {
      var u, s, y := ThirdRouter(g);
      var phase, b := LinkShortcutDiverges(g, u, s, y);
      FlattenLast([phase]);
      FlattenLast([]);
      assert [phase][..0] == [] && Flatten([phase]) == phase;
      assert forall p :: p in [phase] ==> Covers(g, p);
    }
  }

  lemma ThirdRouter(g: Graph) returns (u: Node, s: Node, y: Node)
    requires WellFormed(g) && |g.nodes| == 3 && !NoShortcut(g)
    ensures Linked(g, u, s) && Linked(g, u, y) && Linked(g, y, s) && y != s
    ensures forall q :: Joins(g, q, u, s) ==> g.cost[(y, s)] < Cost(g, q)
  {
    var x, w;
    u, s, x, w :| Linked(g, u, s) && Linked(g, u, x) && x != s && Joins(g, w, x, s) && Cost(g, w) < g.cost[(u, s)];
    var p;
    y, p := NearerNeighbor(g, u, s, x, w);
    WalkInGraph(g, p);
    DistinctFits(p, g.nodes - {u});
    Tail(g, p, y, s);
    assert |g.nodes - {u}| == 2;
    assert p[1..] == [s];
  }

  /* ---- over a link that no other walk matches a shortcut spoils convergence for good ---- */

  /** The link u-s is the only cheapest walk between its ends. */
  ghost predicate Sole(g: Graph, u: Node, s: Node)
    requires Linked(g, u, s)
  {
    forall q :: Joins(g, q, u, s) && q != [u, s] ==> Cost(g, q) > g.cost[(u, s)]
  }

  /** Some neighbour y of u is nearer to the neighbour s of u than the link u-s is long. */
  ghost predicate Shortcut(g: Graph, u: Node, s: Node, y: Node) {
    && Linked(g, u, s) && Linked(g, u, y) && y != s
    && exists w :: Joins(g, w, y, s) && Cost(g, w) < g.cost[(u, s)]
  }

  /** On any topology: the entry is the link itself or came from a neighbour that knows s. */
  ghost predicate SaneEntry(g: Graph, n: Net, u: Node, s: Node)
    requires u in n && s in n[u]
  {
    var e := n[u][s];
    && u != s && e.name == s && e.dist > 0 && Linked(g, u, e.nextHop)
    && if e.nextHop == s then e.neighbor else e.nextHop in n && s in n[e.nextHop]
  }

  /** What every reachable state keeps, shortcuts or not. */
  ghost predicate Sane(g: Graph, n: Net) {
    && n.Keys == g.nodes
    && (forall u, s :: Linked(g, u, s) ==> u in n && s in n[u])
    && (forall u, s {:trigger SaneEntry(g, n, u, s)} :: u in n && s in n[u] ==> SaneEntry(g, n, u, s))
  }

  lemma InitSane(g: Graph)
    requires WellFormed(g)
    ensures Sane(g, Init(g))
  {
    var n: Net := Init(g);
    forall u, s | u in g.nodes
      ensures s in n[u] <==> Linked(g, u, s)
      ensures s in n[u] ==> SaneEntry(g, n, u, s)
    {
      InitTableOf(g, u);
    }
  }

  lemma NoSelfEntry(g: Graph, n: Net, u: Node)
    requires Sane(g, n) && u in n
    ensures u !in n[u]
  {
    assert u in n[u] ==> SaneEntry(g, n, u, u);
  }

  lemma SaneExchange(g: Graph, a: Net, b: Net, l: Link)
    requires WellFormed(g) && Sane(g, a) && Exchange(g, a, b, l)
    ensures l.1 in DropStale(a[l.0], l.1)
    ensures b == a[l.0 := Merge(DropStale(a[l.0], l.1), l.0, l.1, Advert(a[l.1], l.0))]
  {
    assert SaneEntry(g, a, l.0, l.1);
    NoSelfEntry(g, a, l.1);
    ExchangeIsMerge(g, a, b, l);
  }

  /** The entry for s after the vector of l.1, from the entry before it. */
  lemma HeardEntry(g: Graph, a: Net, b: Net, l: Link, s: Node)
    requires WellFormed(g) && Sane(g, a) && Exchange(g, a, b, l)
    ensures s in b[l.0] <==> s in a[l.0] || (s in a[l.1] && s != l.0)
    ensures s in a[l.0] && s !in a[l.1] ==> b[l.0][s] == a[l.0][s]
    ensures s in a[l.0] && s in a[l.1] && !Stale(a[l.0][s], l.1) ==>
      b[l.0][s] == Improve(a[l.0][s], l.1, a[l.1][s].dist, a[l.0][l.1].dist)
    ensures s in a[l.1] && s != l.0 && (s in a[l.0] ==> Stale(a[l.0][s], l.1)) ==>
      b[l.0][s] == Learned(s, l.1, a[l.1][s].dist + a[l.0][l.1].dist)
  {
    var (u, x) := l;
    hide Exchange, Merge;
    LinkedExchange(g, a, b, l);
    SaneExchange(g, a, b, l);
    if s in a[u] {
      assert SaneEntry(g, a, u, s);
    }
    if s in a[x] && s != u {
      MergeAt(DropStale(a[u], x), u, x, Advert(a[x], u), s);
    } else {
      MergeElsewhere(DropStale(a[u], x), u, x, Advert(a[x], u), s);
    }
  }

  lemma SaneStep(g: Graph, a: Net, b: Net, l: Link)
    requires WellFormed(g) && Sane(g, a) && Exchange(g, a, b, l)
    ensures Sane(g, b)
  {
    hide Exchange, WellFormed, SaneEntry, Merge, DropStale;
    LinkedExchange(g, a, b, l);
    SaneExchange(g, a, b, l);
    forall u, s | u in b
      ensures s in a[u] ==> s in b[u]
      ensures s in b[u] ==> SaneEntry(g, b, u, s)
    {
      SaneOne(g, a, b, l, u, s);
    }
  }

  lemma SaneOne(g: Graph, a: Net, b: Net, l: Link, u: Node, s: Node)
    requires WellFormed(g) && Sane(g, a) && Exchange(g, a, b, l) && u in b
    ensures u in a && (s in a[u] ==> s in b[u])
    ensures s in b[u] ==> SaneEntry(g, b, u, s)
  {
    hide Exchange, WellFormed, Merge, DropStale;
    LinkedExchange(g, a, b, l);
    SaneExchange(g, a, b, l);
    if s in a[u] {
      assert SaneEntry(g, a, u, s);
      HeardEntry(g, a, b, l, s);
      HeardEntry(g, a, b, l, a[u][s].nextHop);
    }
    if u == l.0 && s in b[u] {
      HeardEntry(g, a, b, l, s);
      assert SaneEntry(g, a, u, l.1);
      if s in a[l.1] { assert SaneEntry(g, a, l.1, s); }
    }
  }

  lemma {:induction false} SaneRun(g: Graph, sched: seq<Link>, b: Net)
    requires WellFormed(g) && Run(g, Init(g), sched, b)
    ensures Sane(g, b)
    decreases |sched|
  {
    hide Run, Exchange, Init, Sane, WellFormed;
    if sched == [] {
      EmptyRun(g, Init(g), b);
      InitSane(g);
    } else {
      var m := RunLast(g, Init(g), sched, b);
      SaneRun(g, Front(sched), m);
      SaneStep(g, m, b, Last(sched));
    }
  }

  lemma {:induction false} Concat(g: Graph, p: seq<Node>, q: seq<Node>, u: Node, x: Node, s: Node)
    requires Joins(g, p, u, x) && Joins(g, q, x, s)
    ensures Joins(g, p + q[1..], u, s) && Cost(g, p + q[1..]) == Cost(g, p) + Cost(g, q)
    decreases |p|
  {
    if |p| == 1 {
      assert p + q[1..] == q;
    } else {
      assert p[1..][|p[1..]| - 1] == x;
      Concat(g, p[1..], q, p[1], x, s);
      assert (p + q[1..])[1..] == p[1..] + q[1..];
    }
  }

  /** Going through a third router costs more than the only cheapest walk. */
  lemma Detour(g: Graph, n: Net, u: Node, s: Node, x: Node)
    requires WellFormed(g) && Exact(g, n) && Linked(g, u, s) && Sole(g, u, s)
    requires x in g.nodes && u in g.nodes && s in g.nodes && x != u && x != s && u != s
    ensures u in n && x in n && x in n[u] && s in n[x]
    ensures n[u][x].dist + n[x][s].dist > g.cost[(u, s)]
  {
    assert IsShortest(g, u, x, n[u][x].dist) && IsShortest(g, x, s, n[x][s].dist);
    var p :| Joins(g, p, u, x) && Cost(g, p) == n[u][x].dist;
    var q :| Joins(g, q, x, s) && Cost(g, q) == n[x][s].dist;
    Through(g, p, q, u, x, s);
  }

  lemma Through(g: Graph, p: seq<Node>, q: seq<Node>, u: Node, x: Node, s: Node)
    requires Linked(g, u, s) && Sole(g, u, s) && Joins(g, p, u, x) && Joins(g, q, x, s) && x != u && x != s
    ensures Cost(g, p) + Cost(g, q) > g.cost[(u, s)]
  {
    hide Cost;
    Concat(g, p, q, u, x, s);
    assert |p + q[1..]| > 2;
  }

  lemma ExactLink(g: Graph, n: Net, u: Node, s: Node)
    requires WellFormed(g) && Exact(g, n) && Linked(g, u, s) && Sole(g, u, s)
    ensures u in n && s in n[u] && n[u][s].dist == g.cost[(u, s)]
  {
    LinkIsWalk(g, u, s);
    assert IsShortest(g, u, s, n[u][s].dist);
  }

  /** Exact tables do not last: one more exchange with the right neighbour makes them inexact. */
  lemma ExactSpoils(g: Graph, a: Net, u: Node, s: Node, y: Node) returns (l: Link, b: Net)
    requires WellFormed(g) && Sane(g, a) && Exact(g, a) && Shortcut(g, u, s, y) && Sole(g, u, s)
    ensures Exchange(g, a, b, l) && !Exact(g, b)
  {
    hide Exchange, Exact, Sole;
    var w :| Joins(g, w, y, s) && Cost(g, w) < g.cost[(u, s)];
    ExactLink(g, a, u, s);
    assert SaneEntry(g, a, u, s);
    var h := a[u][s].nextHop;
    var x := if h == s then y else h;
    l := (u, x);
    b := ExchangeExists(g, a, l);
    HeardEntry(g, a, b, l, s);
    if h == s {
      Nearest(g, a, y, s, w);
    } else {
      Detour(g, a, u, s, h);
    }
    if Exact(g, b) {
      ExactLink(g, b, u, s);
    }
  }

  lemma Nearest(g: Graph, n: Net, y: Node, s: Node, w: seq<Node>)
    requires Exact(g, n) && Joins(g, w, y, s) && y in g.nodes && s in g.nodes && y != s
    ensures y in n && s in n[y] && n[y][s].dist <= Cost(g, w)
  {
    hide Joins, Cost;
    assert IsShortest(g, y, s, n[y][s].dist);
  }

  lemma {:induction false} FlattenIn(phases: seq<seq<Link>>, l: Link)
    requires l in Flatten(phases)
    ensures exists p :: p in phases && l in p
    decreases |phases|
  {
    var n := |phases| - 1;
    if l !in phases[n] {
      FlattenIn(phases[..n], l);
    }
  }

  /** However many complete phases are asked for, some run of as many ends in tables that are not exact. */
  lemma NeverSettles(g: Graph, u: Node, s: Node, y: Node, k: nat) returns (phases: seq<seq<Link>>, b: Net)
    requires WellFormed(g) && Shortcut(g, u, s, y) && Sole(g, u, s)
    ensures |phases| >= k && (forall p :: p in phases ==> Covers(g, p))
    ensures Run(g, Init(g), Flatten(phases), b) && !Exact(g, b)
  {
    hide WellFormed, Run, Exchange, Init, Exact, Shortcut, Sole, Flatten, Sane;
    var phase := Listing(g.cost.Keys);
    var before := seq(k, i => phase);
    phases := before + [phase];
    forall l | l in Flatten(phases)
      ensures Linked(g, l.0, l.1)
    {
      FlattenIn(phases, l);
    }
    b := RunExists(g, Flatten(phases));
    if Exact(g, b) {
      SaneRun(g, Flatten(phases), b);
      var l, c := ExactSpoils(g, b, u, s, y);
      RunMore(g, Init(g), Flatten(phases), b, l, c);
      FlattenMore(before, phase, l);
      phases := before + [phase + [l]];
      b := c;
    }
  }

  lemma FlattenMore(before: seq<seq<Link>>, phase: seq<Link>, l: Link)
    ensures Flatten(before + [phase + [l]]) == Flatten(before + [phase]) + [l]
  {
    hide Flatten;
    FlattenLast(before + [phase]);
    FlattenLast(before + [phase + [l]]);
    assert (before + [phase])[..|before|] == before == (before + [phase + [l]])[..|before|];
    assert Flatten(before) + phase + [l] == Flatten(before) + (phase + [l]);
  }

  /** Every link is the only cheapest walk between its ends. */
  ghost predicate Tight(g: Graph) {
    forall u, s :: Linked(g, u, s) ==> Sole(g, u, s)
  }

  lemma NotSettling(g: Graph, u: Node, s: Node, y: Node, k: nat)
    requires WellFormed(g) && Shortcut(g, u, s, y) && Sole(g, u, s)
    ensures !SettlesAfter(g, k)
  {
    hide WellFormed, Run, Init, Exact, Shortcut, Sole, Covers;
    var phases, b := NeverSettles(g, u, s, y, k);
  }

  /** Where every link is the only cheapest walk: no shortcut, or exact tables are never certain. */
  lemma SettlesIff(g: Graph)
    requires WellFormed(g) && Connected(g) && Tight(g)
    ensures Converges(g) <==> NoShortcut(g)
    ensures (exists k: nat :: SettlesAfter(g, k)) <==> NoShortcut(g)
  {
    hide SettlesAfter, WellFormed, Connected;
    if NoShortcut(g) {
      SufficesAll(g);
    } else {
      var u, s, y, w :| Linked(g, u, s) && Linked(g, u, y) && y != s && Joins(g, w, y, s) && Cost(g, w) < g.cost[(u, s)];
      assert Shortcut(g, u, s, y);
      forall k: nat ensures !SettlesAfter(g, k) {
        NotSettling(g, u, s, y, k);
      }
    }
  }

  /** A link is the only cheapest walk when every link of its end u is as long. */
  lemma EqualSpokes(g: Graph, u: Node, s: Node)
    requires WellFormed(g) && Linked(g, u, s) && forall x :: Linked(g, u, x) ==> g.cost[(u, x)] == g.cost[(u, s)]
    ensures Sole(g, u, s)
  {
    forall q | Joins(g, q, u, s) && q != [u, s]
      ensures Cost(g, q) > g.cost[(u, s)]
    {
      Tail(g, q, u, s);
      assert q[..2] == [q[0], q[1]] && q[..|q|] == q;
      assert Linked(g, q[1..][0], q[1..][1]);
    }
  }

  type Edge = (Node, Node, nat)

  function AddEdge(g: Graph, e: Edge): Graph {
    Graph(g.nodes + {e.0, e.1}, g.cost[(e.0, e.1) := e.2][(e.1, e.0) := e.2])
  }

  /** The network of a list of weighted edges, as the graph file gives them. */
  function FromEdges(edges: seq<Edge>): Graph {
    if edges == [] then Graph({}, map[]) else AddEdge(FromEdges(edges[..|edges| - 1]), edges[|edges| - 1])
  }

  predicate Ends(e: Edge, u: Node, v: Node) {
    (e.0 == u && e.1 == v) || (e.0 == v && e.1 == u)
  }

  /** Some edge joins u and v at cost c. */
  ghost predicate Among(edges: seq<Edge>, u: Node, v: Node, c: nat) {
    exists i :: 0 <= i < |edges| && Ends(edges[i], u, v) && edges[i].2 == c
  }

  ghost predicate Drawn(g: Graph, edges: seq<Edge>) {
    && (forall u, v :: Linked(g, u, v) ==> Among(edges, u, v, g.cost[(u, v)]))
    && (forall i :: 0 <= i < |edges| ==> Linked(g, edges[i].0, edges[i].1))
  }

  lemma AmongMore(edges: seq<Edge>, e: Edge, u: Node, v: Node, c: nat)
    requires Among(edges, u, v, c) || (Ends(e, u, v) && e.2 == c)
    ensures Among(edges + [e], u, v, c)
  {
    var es := edges + [e];
    if Ends(e, u, v) && e.2 == c {
      assert es[|edges|] == e;
    } else {
      var i :| 0 <= i < |edges| && Ends(edges[i], u, v) && edges[i].2 == c;
      assert es[i] == edges[i];
    }
  }

  lemma LinksWith(g: Graph, e: Edge, u: Node, v: Node)
    requires WellFormed(g) && e.0 != e.1 && e.2 > 0
    ensures WellFormed(AddEdge(g, e))
    ensures Linked(AddEdge(g, e), u, v) <==> Linked(g, u, v) || Ends(e, u, v)
    ensures Linked(AddEdge(g, e), u, v) ==> AddEdge(g, e).cost[(u, v)] == if Ends(e, u, v) then e.2 else g.cost[(u, v)]
  {
  }

  lemma DrawOne(g: Graph, edges: seq<Edge>, e: Edge)
    requires WellFormed(g) && Drawn(g, edges) && e.0 != e.1 && e.2 > 0
    ensures WellFormed(AddEdge(g, e)) && Drawn(AddEdge(g, e), edges + [e])
  {
    hide AddEdge, WellFormed, Among;
    var h, es := AddEdge(g, e), edges + [e];
    LinksWith(g, e, e.0, e.1);
    forall u, v | Linked(h, u, v)
      ensures Among(es, u, v, h.cost[(u, v)])
    {
      LinksWith(g, e, u, v);
      AmongMore(edges, e, u, v, h.cost[(u, v)]);
    }
    forall i | 0 <= i < |es|
      ensures Linked(h, es[i].0, es[i].1)
    {
      LinksWith(g, e, es[i].0, es[i].1);
    }
  }

  lemma {:induction false} Draw(edges: seq<Edge>)
    requires forall i :: 0 <= i < |edges| ==> edges[i].0 != edges[i].1 && edges[i].2 > 0
    ensures WellFormed(FromEdges(edges)) && Drawn(FromEdges(edges), edges)
    decreases |edges|
  {
    hide AddEdge, Among;
    if edges != [] {
      var n := |edges| - 1;
      Draw(edges[..n]);
      DrawOne(FromEdges(edges[..n]), edges[..n], edges[n]);
      assert edges[..n] + [edges[n]] == edges;
    }
  }

  /** config/carre/carre.dot: a ring of eight routers around n5, which is four away from four of them. */
  const CARRE: seq<Edge> := [
    ("n1", "n2", 1), ("n1", "n4", 1), ("n2", "n3", 1), ("n2", "n5", 4), ("n4", "n7", 1), ("n4", "n5", 4),
    ("n8", "n5", 4), ("n8", "n7", 1), ("n8", "n9", 1), ("n6", "n9", 1), ("n6", "n5", 4), ("n6", "n3", 1)
  ]

  lemma CarreEdges()
    ensures |CARRE| == 12
    ensures forall i :: 0 <= i < |CARRE| ==>
      CARRE[i].0 != CARRE[i].1 && CARRE[i].0 != "n5" && CARRE[i].2 == if CARRE[i].1 == "n5" then 4 else 1
    ensures CARRE[0] == ("n1", "n2", 1) && CARRE[1] == ("n1", "n4", 1)
    ensures CARRE[3] == ("n2", "n5", 4) && CARRE[5] == ("n4", "n5", 4)
  {
  }

  /** The routers of config/carre may exchange vectors for ever without their tables staying exact. */
  lemma CarreNeverSettles(k: nat)
    ensures WellFormed(FromEdges(CARRE)) && !SettlesAfter(FromEdges(CARRE), k)
  {
    hide SettlesAfter, FromEdges, CARRE, Drawn, WellFormed, Shortcut, Sole;
    CarreEdges();
    Draw(CARRE);
    var g := FromEdges(CARRE);
    CarreLinks(g);
    CarreCost(g, "n1", "n2");
    CarreCost(g, "n4", "n1");
    CarreCost(g, "n5", "n2");
    forall x | Linked(g, "n5", x)
      ensures g.cost[("n5", x)] == 4
    {
      CarreCost(g, "n5", x);
    }
    Spoked(g, "n1", "n2", "n4", "n5");
    NotSettling(g, "n5", "n2", "n4", k);
  }

  lemma CarreLinks(g: Graph)
    requires WellFormed(g) && Drawn(g, CARRE)
    ensures Linked(g, "n1", "n2") && Linked(g, "n4", "n1") && Linked(g, "n5", "n2") && Linked(g, "n5", "n4")
  {
    hide CARRE, Among;
    CarreEdges();
    assert Linked(g, CARRE[0].0, CARRE[0].1) && Linked(g, CARRE[1].0, CARRE[1].1);
    assert Linked(g, CARRE[3].0, CARRE[3].1) && Linked(g, CARRE[5].0, CARRE[5].1);
  }

  lemma CarreCost(g: Graph, u: Node, v: Node)
    requires Drawn(g, CARRE) && Linked(g, u, v)
    ensures g.cost[(u, v)] == if u == "n5" || v == "n5" then 4 else 1
  {
    hide CARRE;
    CarreEdges();
    assert Among(CARRE, u, v, g.cost[(u, v)]);
  }

  /** A centre whose links are all longer than the way round between two of its neighbours. */
  lemma Spoked(g: Graph, a: Node, b: Node, c: Node, centre: Node)
    requires WellFormed(g) && Linked(g, a, b) && Linked(g, c, a) && Linked(g, centre, b) && Linked(g, centre, c) && b != c
    requires g.cost[(a, b)] + g.cost[(c, a)] < g.cost[(centre, b)]
    requires forall x :: Linked(g, centre, x) ==> g.cost[(centre, x)] == g.cost[(centre, b)]
    ensures Shortcut(g, centre, b, c) && Sole(g, centre, b)
  {
    LinkIsWalk(g, a, b);
    Prepend(g, c, a, b, [a, b]);
    EqualSpokes(g, centre, b);
  }
}
