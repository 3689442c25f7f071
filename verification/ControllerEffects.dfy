/**
 What each command and message does to the controller, edge by edge and flag by flag: which edges there
 are afterwards, and which nodes are still marked up to date.
 */
module ControllerEffects {
  import opened Wrappers
  import opened Controller
  import H = HashTable
  import InfoTable

  ghost predicate Linked(edges: seq<Edge>, a: Id, b: Id) {
    exists e :: e in edges && Joins(e, a, b)
  }

  lemma {:induction false} FindsLink(edges: seq<Edge>, a: Id, b: Id)
    ensures FindEdge(edges, a, b) < |edges| <==> Linked(edges, a, b)
  {
    var i := FindEdge(edges, a, b);
    if i < |edges| {
      assert edges[i] in edges;
    }
    if Linked(edges, a, b) {
      var e :| e in edges && Joins(e, a, b);
      var j :| 0 <= j < |edges| && edges[j] == e;
    }
  }

  lemma {:induction false} NeighborIsLinked(edges: seq<Edge>, n: Id, m: Id)
    ensures m in Neighbors(edges, n) <==> Linked(edges, n, m)
  {
    IncidentMembers(edges, n);
    OthersMembers(Incident(edges, n), n);
    if m in Neighbors(edges, n) {
      var e :| e in Incident(edges, n) && Other(e, n) == m;
      assert e in edges && Joins(e, n, m);
    }
    if Linked(edges, n, m) {
      var e :| e in edges && Joins(e, n, m);
      assert e in Incident(edges, n) && Other(e, n) == m;
    }
  }

  /** A new link is added behind the others, unless there is one already. */
  lemma AddLinkEffect(s: State, a: Id, b: Id, w: int)
    ensures var s' := AddLink(s, a, b, w);
      if Linked(s.edges, a, b) then s' == s
      else
        && s' == s.(edges := s'.edges, upToDate := s'.upToDate)
        && s'.edges == s.edges + [Edge(a, b, w)]
        && forall n :: n in s'.upToDate <==> n in s.upToDate && n != a && n != b
    ensures Simple(s.edges) && a != b ==> Simple(AddLink(s, a, b, w).edges)
  {
    FindsLink(s.edges, a, b);
    if !Linked(s.edges, a, b) && Simple(s.edges) && a != b {
      SimpleMore(s.edges, Edge(a, b, w));
    }
  }

  lemma SimpleMore(edges: seq<Edge>, e: Edge)
    requires Simple(edges) && !Linked(edges, e.tail, e.head) && e.tail != e.head
    ensures Simple(edges + [e])
  {
    forall i | 0 <= i < |edges|
      ensures !Joins(e, edges[i].tail, edges[i].head)
    {
      assert edges[i] in edges && !Joins(edges[i], e.tail, e.head);
    }
  }

  /** The first link between the two nodes gets the new weight, nothing else changes. */
  lemma UpdateLinkEffect(s: State, a: Id, b: Id, w: int)
    ensures !Linked(s.edges, a, b) ==> UpdateLink(s, a, b, w) == s
    ensures Linked(s.edges, a, b) ==>
      var i, s' := FindEdge(s.edges, a, b), UpdateLink(s, a, b, w);
      && s' == s.(edges := s'.edges, upToDate := s'.upToDate)
      && i < |s.edges| && Joins(s.edges[i], a, b) && (forall j :: 0 <= j < i ==> !Joins(s.edges[j], a, b))
      && |s'.edges| == |s.edges| && s'.edges[i] == Edge(s.edges[i].tail, s.edges[i].head, w)
      && (forall j :: 0 <= j < |s.edges| && j != i ==> s'.edges[j] == s.edges[j])
      && forall n :: n in s'.upToDate <==> n in s.upToDate && n != a && n != b
    ensures Simple(s.edges) ==>
      var s' := UpdateLink(s, a, b, w);
      Simple(s'.edges) && forall e :: e in s'.edges && Joins(e, a, b) ==> e.weight == w
  {
    hide FindEdge;
    FindsLink(s.edges, a, b);
    if Simple(s.edges) && Linked(s.edges, a, b) {
      var i, es := FindEdge(s.edges, a, b), UpdateLink(s, a, b, w).edges;
      forall e | e in es && Joins(e, a, b)
        ensures e.weight == w
      {
        var j :| 0 <= j < |es| && es[j] == e;
        OnlyLink(s.edges, i, j, a, b);
      }
    }
  }

  lemma OnlyLink(edges: seq<Edge>, i: nat, j: nat, a: Id, b: Id)
    requires Simple(edges) && i < |edges| && j < |edges| && Joins(edges[i], a, b) && Joins(edges[j], a, b)
    ensures i == j
  {
  }

  /** The first link between the two nodes goes; without parallel links there is none afterwards and all others stay. */
  lemma DelLinkEffect(s: State, a: Id, b: Id)
    ensures !Linked(s.edges, a, b) ==> DelLink(s, a, b) == s
    ensures Linked(s.edges, a, b) ==>
      var i, s' := FindEdge(s.edges, a, b), DelLink(s, a, b);
      && s' == s.(edges := s'.edges, upToDate := s'.upToDate)
      && i < |s.edges| && Joins(s.edges[i], a, b) && (forall j :: 0 <= j < i ==> !Joins(s.edges[j], a, b))
      && |s'.edges| == |s.edges| - 1
      && (forall j :: 0 <= j < i ==> s'.edges[j] == s.edges[j])
      && (forall j :: i < j < |s.edges| ==> s'.edges[j - 1] == s.edges[j])
      && forall n :: n in s'.upToDate <==> n in s.upToDate && n != a && n != b
    ensures Simple(s.edges) ==>
      var s' := DelLink(s, a, b);
      Simple(s'.edges) && forall e :: e in s'.edges <==> e in s.edges && !Joins(e, a, b)
  {
    hide FindEdge;
    FindsLink(s.edges, a, b);
    if Simple(s.edges) && Linked(s.edges, a, b) {
      var i := FindEdge(s.edges, a, b);
      SimpleLess(s.edges, i, a, b);
    }
  }

  lemma SimpleLess(edges: seq<Edge>, i: nat, a: Id, b: Id)
    requires Simple(edges) && i < |edges| && Joins(edges[i], a, b)
    ensures var es := edges[..i] + edges[i + 1..];
      Simple(es) && forall e :: e in es <==> e in edges && !Joins(e, a, b)
  {
    hide Joins, Simple;
    var es := edges[..i] + edges[i + 1..];
    SimpleCut(edges, i);
    forall e
      ensures e in es <==> e in edges && !Joins(e, a, b)
    {
      if e in es {
        var j :| 0 <= j < |es| && es[j] == e;
        var k := if j < i then j else j + 1;
        assert edges[k] == e;
        if Joins(e, a, b) { OnlyLink(edges, i, k, a, b); }
      }
      if e in edges && !Joins(e, a, b) {
        var k :| 0 <= k < |edges| && edges[k] == e;
        assert es[if k < i then k else k - 1] == e;
      }
    }
  }

  lemma SimpleCut(edges: seq<Edge>, i: nat)
    requires Simple(edges) && i < |edges|
    ensures Simple(edges[..i] + edges[i + 1..])
  {
    hide Joins;
    var es := edges[..i] + edges[i + 1..];
    assert forall j {:trigger es[j]} :: 0 <= j < |es| ==> es[j] == edges[if j < i then j else j + 1];
  }

  /** A node loses all its links; it and those it was linked to are no longer up to date. */
  lemma DisconnectEffect(s: State, n: Id)
    ensures n !in s.nodes ==> Disconnect(s, n) == s
    ensures n in s.nodes ==>
      var s' := Disconnect(s, n);
      && s' == s.(edges := s'.edges, upToDate := s'.upToDate)
      && (forall e :: e in s'.edges <==> e in s.edges && e.tail != n && e.head != n)
      && forall m :: m in s'.upToDate <==> m in s.upToDate && m != n && !Linked(s.edges, n, m)
  {
    hide Neighbors, Linked;
    DetachedMembers(s.edges, n);
    forall m ensures m in Neighbors(s.edges, n) <==> Linked(s.edges, n, m) {
      NeighborIsLinked(s.edges, n, m);
    }
  }

  lemma {:induction false} DetachedMembers(edges: seq<Edge>, n: Id)
    ensures forall e :: e in Detached(edges, n) <==> e in edges && e.tail != n && e.head != n
    decreases |edges|
  {
    if edges != [] {
      DetachedMembers(edges[..|edges| - 1], n);
      assert forall e :: e in edges <==> e in edges[..|edges| - 1] || e == edges[|edges| - 1];
    }
  }

  lemma {:induction false} FirstFreeIs(nodes: seq<Id>, connected: set<Id>)
    requires FirstFree(nodes, connected).Some?
    ensures exists i :: 0 <= i < |nodes| && FirstFree(nodes, connected) == Some(nodes[i]) && nodes[i] !in connected
                        && forall j :: 0 <= j < i ==> nodes[j] in connected
    decreases |nodes|
  {
    if nodes[0] in connected {
      FirstFreeIs(nodes[1..], connected);
      var i :| 0 <= i < |nodes| - 1 && FirstFree(nodes, connected) == Some(nodes[1..][i]) && nodes[1..][i] !in connected
               && forall j :: 0 <= j < i ==> nodes[1..][j] in connected;
      forall j | 0 <= j < i + 1 ensures nodes[j] in connected {
        if j > 0 { assert nodes[j] == nodes[1..][j - 1]; }
      }
      assert nodes[i + 1] == nodes[1..][i];
    }
  }

  /**
   The node granted is the one asked for if it is free, else the first free one in the order of the graph.
   It is connected under the address of the login, unless one was stored, and it and those linked to it
   are no longer up to date.
   */
  lemma LoginEffect(s: State, wanted: Option<Id>, from: Info)
    requires H.Sound(s.records) && s.records.count + 1 < H.MAX_KEYS
    ensures Grant(s, wanted).None? ==> Login(s, wanted, from) == s
    ensures Grant(s, wanted).Some? ==>
      var n, s' := Grant(s, wanted).value, Login(s, wanted, from);
      && (if wanted.Some? && wanted.value in s.nodes && wanted.value !in s.connected then n == wanted.value
          else exists i :: 0 <= i < |s.nodes| && n == s.nodes[i] && n !in s.connected
                           && forall j :: 0 <= j < i ==> s.nodes[j] in s.connected)
      && s' == s.(connected := s.connected + {n}, upToDate := s'.upToDate, records := s'.records)
      && (forall k :: Record(s'.records, k) ==
            if k == n && Record(s.records, n).None? then Some(from) else Record(s.records, k))
      && forall m :: m in s'.upToDate <==> m in s.upToDate && m != n && !Linked(s.edges, n, m)
  {
    hide H.Sound, H.Lookup, InfoTable.WithInfo, Neighbors, Linked, FirstFree;
    if Grant(s, wanted).Some? {
      var n := Grant(s, wanted).value;
      if !(wanted.Some? && wanted.value in s.nodes && wanted.value !in s.connected) {
        FirstFreeIs(s.nodes, s.connected);
      }
      InfoTable.WithInfoExact(s.records, n, from);
      forall m ensures m in Neighbors(s.edges, n) <==> Linked(s.edges, n, m) {
        NeighborIsLinked(s.edges, n, m);
      }
    }
  }

  /** The node that leaves is no longer connected; those linked to it are no longer up to date. */
  lemma LogoutEffect(s: State, n: Id)
    requires s.records.count > 0
    ensures var s' := Logout(s, n);
      && s' == s.(connected := s.connected - {n}, upToDate := s'.upToDate, records := s'.records)
      && forall m :: m in s'.upToDate <==> m in s.upToDate && !Linked(s.edges, n, m)
  {
    hide H.Remove, Neighbors, Linked;
    forall m ensures m in Neighbors(s.edges, n) <==> Linked(s.edges, n, m) {
      NeighborIsLinked(s.edges, n, m);
    }
  }

  /** The short answer goes exactly to unknown nodes and to those up to date; the list makes a node so, and nothing else changes. */
  lemma PollEffect(s: State, n: Id)
    ensures Poll(s, n).1 == NeighborhoodOk <==> n !in s.nodes || n in s.upToDate
    ensures Poll(s, n).0 == if Poll(s, n).1.NewList? then s.(upToDate := s.upToDate + {n}) else s
  {
  }
}
