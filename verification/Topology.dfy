/** The weighted, undirected network the routers run on, its walks and their costs. */
module Topology {
  type Node = string

  datatype Graph = Graph(nodes: set<Node>, cost: map<(Node, Node), nat>)

  predicate Linked(g: Graph, u: Node, v: Node) {
    (u, v) in g.cost
  }

  /** Links join two different known nodes, in both directions, at one positive cost. */
  ghost predicate WellFormed(g: Graph) {
    forall u, v :: Linked(g, u, v) ==>
      && u in g.nodes && v in g.nodes && u != v
      && g.cost[(u, v)] > 0
      && Linked(g, v, u) && g.cost[(v, u)] == g.cost[(u, v)]
  }

  /** A walk is the non-empty sequence of the nodes it visits. */
  ghost predicate Walk(g: Graph, w: seq<Node>) {
    && |w| > 0
    && w[0] in g.nodes
    && (|w| > 1 ==> Linked(g, w[0], w[1]) && Walk(g, w[1..]))
  }

  ghost function Cost(g: Graph, w: seq<Node>): nat
    requires Walk(g, w)
  {
    if |w| == 1 then 0 else g.cost[(w[0], w[1])] + Cost(g, w[1..])
  }

  ghost predicate Joins(g: Graph, w: seq<Node>, u: Node, s: Node) {
    Walk(g, w) && w[0] == u && w[|w| - 1] == s
  }

  ghost predicate Joined(g: Graph, u: Node, s: Node) {
    exists w :: Joins(g, w, u, s)
  }

  ghost predicate Connected(g: Graph) {
    forall u, s {:trigger Joined(g, u, s)} :: u in g.nodes && s in g.nodes ==> Joined(g, u, s)
  }

  ghost predicate Distinct<T>(w: seq<T>) {
    forall i, j :: 0 <= i < j < |w| ==> w[i] != w[j]
  }

  /** No other neighbour x of u is closer to the neighbour s of u than the link u-s is long. */
  ghost predicate NoShortcut(g: Graph) {
    forall u, s, x, w :: Linked(g, u, s) && Linked(g, u, x) && x != s && Joins(g, w, x, s)
      ==> Cost(g, w) >= g.cost[(u, s)]
  }

  /** d is the length of a shortest walk from u to s. */
  ghost predicate IsShortest(g: Graph, u: Node, s: Node, d: int) {
    && (exists w :: Joins(g, w, u, s) && Cost(g, w) == d)
    && (forall w :: Joins(g, w, u, s) ==> d <= Cost(g, w))
  }

  lemma LinkIsWalk(g: Graph, u: Node, s: Node)
    requires WellFormed(g) && Linked(g, u, s)
    ensures Joins(g, [u, s], u, s) && Cost(g, [u, s]) == g.cost[(u, s)]
  {
    assert [u, s][1..] == [s];
    assert Cost(g, [s]) == 0;
  }

  lemma Prepend(g: Graph, u: Node, x: Node, s: Node, w: seq<Node>)
    requires WellFormed(g) && Linked(g, u, x) && Joins(g, w, x, s)
    ensures Joins(g, [u] + w, u, s) && Cost(g, [u] + w) == g.cost[(u, x)] + Cost(g, w)
  {
    assert ([u] + w)[1..] == w;
  }

  lemma Tail(g: Graph, w: seq<Node>, u: Node, s: Node)
    requires Joins(g, w, u, s) && |w| >= 2
    ensures Linked(g, u, w[1]) && Joins(g, w[1..], w[1], s) && Cost(g, w) == g.cost[(u, w[1])] + Cost(g, w[1..])
  {
  }

  lemma WalkInGraph(g: Graph, w: seq<Node>)
    requires Walk(g, w)
    ensures forall v :: v in w ==> v in g.nodes
  {
    if |w| > 1 {
      WalkInGraph(g, w[1..]);
      assert w == [w[0]] + w[1..];
    }
  }

  /** A tail of a walk is a walk that costs no more. */
  lemma {:induction false} Suffix(g: Graph, w: seq<Node>, i: nat)
    requires Walk(g, w) && i < |w|
    ensures Walk(g, w[i..]) && Cost(g, w[i..]) <= Cost(g, w)
  {
    if i > 0 {
      Suffix(g, w[1..], i - 1);
      assert w[1..][i - 1..] == w[i..];
    } else {
      assert w[0..] == w;
    }
  }

  /** Loops can be cut out of a walk without making it longer. */
  lemma {:induction false} Simplify(g: Graph, w: seq<Node>, u: Node, s: Node) returns (p: seq<Node>)
    requires Joins(g, w, u, s)
    ensures Joins(g, p, u, s) && Cost(g, p) <= Cost(g, w) && Distinct(p)
    decreases |w|
  {
    if |w| == 1 {
      p := w;
    } else {
      assert w[1..][|w[1..]| - 1] == s;
      var t := Simplify(g, w[1..], w[1], s);
      if u in t {
        var i :| 0 <= i < |t| && t[i] == u;
        Suffix(g, t, i);
        p := t[i..];
      } else {
        p := [u] + t;
        assert p[1..] == t;
      }
    }
  }

  /** A sequence of distinct members of a finite set is no longer than the set is large. */
  lemma {:induction false} DistinctFits<T>(w: seq<T>, s: set<T>)
    requires Distinct(w) && forall v :: v in w ==> v in s
    ensures |w| <= |s|
    decreases |w|
  {
    if w != [] {
      var n := |w| - 1;
      forall v | v in w[..n] ensures v in s - {w[n]} {
        var i :| 0 <= i < n && w[i] == v;
      }
      DistinctFits(w[..n], s - {w[n]});
    }
  }

  /** Every walk has an equally good one that visits each node at most once. */
  lemma ShortWalk(g: Graph, w: seq<Node>, u: Node, s: Node) returns (p: seq<Node>)
    requires Joins(g, w, u, s)
    ensures Joins(g, p, u, s) && Cost(g, p) <= Cost(g, w) && Distinct(p) && |p| <= |g.nodes|
  {
    p := Simplify(g, w, u, s);
    WalkInGraph(g, p);
    DistinctFits(p, g.nodes);
  }

  /** A cheapest walk exists wherever a walk exists. */
  lemma CheapestWalk(g: Graph, w: seq<Node>, u: Node, s: Node) returns (p: seq<Node>)
    requires Joins(g, w, u, s)
    ensures Joins(g, p, u, s) && forall q :: Joins(g, q, u, s) ==> Cost(g, p) <= Cost(g, q)
    decreases Cost(g, w)
  {
    if q :| Joins(g, q, u, s) && Cost(g, q) < Cost(g, w) {
      p := CheapestWalk(g, q, u, s);
    } else {
      p := w;
    }
  }
}
