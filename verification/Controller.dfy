/**
 The controller: link edits, logins, polls and logouts over an undirected weighted graph. A node
 whose `upToDate` flag is set is answered "neighborhood ok"; the flag must therefore say that the
 list last sent is the one a recomputation would give. The address records are kept in the chained
 hash table as it is coded, so that a logout can take the record of another node along.
 */
module Controller {
  import opened Wrappers
  import Decimal
  import H = HashTable
  import InfoTable

  type Id = string

  datatype Info = Info(address: string, port: int)
  datatype Edge = Edge(tail: Id, head: Id, weight: int)

  type Records = t: H.Table<Info> | H.Shaped(t) witness H.Empty<Info>(1)

  /** The graph with its node flags, and the table of the clients' address records. */
  datatype State = State(
    loaded: bool, nodes: seq<Id>, edges: seq<Edge>, connected: set<Id>, upToDate: set<Id>, records: Records)

  const START := State(false, [], [], {}, {}, H.Empty<Info>(H.INITIAL_NUM))

  function Record(t: Records, n: Id): Option<Info> {
    H.Lookup(t, n)
  }

  /* ---- the graph ---- */

  predicate Touches(e: Edge, n: Id) {
    e.tail == n || e.head == n
  }

  function Other(e: Edge, n: Id): Id {
    if e.tail != n then e.tail else e.head
  }

  predicate Joins(e: Edge, a: Id, b: Id) {
    (e.tail == a && e.head == b) || (e.tail == b && e.head == a)
  }

  /** At most one edge between two nodes, and none from a node to itself. */
  predicate Simple(edges: seq<Edge>) {
    && (forall i :: 0 <= i < |edges| ==> edges[i].tail != edges[i].head)
    && (forall i, j :: 0 <= i < j < |edges| ==> !Joins(edges[j], edges[i].tail, edges[i].head))
  }

  /** The edges of n, in the order in which they are visited. */
  function Incident(edges: seq<Edge>, n: Id): seq<Edge> {
    if edges == [] then []
    else Incident(edges[..|edges| - 1], n) + if Touches(edges[|edges| - 1], n) then [edges[|edges| - 1]] else []
  }

  /** The position of the first edge between a and b, or the number of edges. */
  function FindEdge(edges: seq<Edge>, a: Id, b: Id): (i: nat)
    ensures i <= |edges| && (i < |edges| ==> Joins(edges[i], a, b))
    ensures forall j :: 0 <= j < i ==> !Joins(edges[j], a, b)
  {
    if edges == [] then 0 else if Joins(edges[0], a, b) then 0 else 1 + FindEdge(edges[1..], a, b)
  }

  function Others(es: seq<Edge>, n: Id): set<Id> {
    if es == [] then {} else Others(es[..|es| - 1], n) + {Other(es[|es| - 1], n)}
  }

  function Neighbors(edges: seq<Edge>, n: Id): set<Id> {
    Others(Incident(edges, n), n)
  }

  function Detached(edges: seq<Edge>, n: Id): seq<Edge> {
    if edges == [] then []
    else Detached(edges[..|edges| - 1], n) + if Touches(edges[|edges| - 1], n) then [] else [edges[|edges| - 1]]
  }

  /* ---- neighbour lists ---- */

  function Entry(e: Edge, n: Id, info: Info): string {
    Other(e, n) + "," + Decimal.Print(e.weight) + "," + info.address + ":" + Decimal.Print(info.port) + ";"
  }

  /** The entries for the connected neighbours; None if one of them has no address record. */
  function Entries(edges: seq<Edge>, n: Id, connected: set<Id>, records: Records): Option<string> {
    if edges == [] then Some("")
    else
      var e := edges[|edges| - 1];
      match Entries(edges[..|edges| - 1], n, connected, records)
      case None => None
      case Some(t) =>
        if Other(e, n) !in connected then Some(t)
        else
          match Record(records, Other(e, n))
          case None => None
          case Some(info) => Some(t + Entry(e, n, info))
  }

  /** The bracketed list, the last separator giving way to the closing bracket. */
  function Bracketed(t: string): string {
    if t == "" then "[]" else "[" + t[..|t| - 1] + "]"
  }

  function ListFor(s: State, n: Id): Option<string> {
    match Entries(Incident(s.edges, n), n, s.connected, s.records)
    case None => None
    case Some(t) => Some(Bracketed(t))
  }

  /* ---- commands of the user ---- */

  function Load(s: State, nodes: seq<Id>, edges: seq<Edge>): State {
    State(true, nodes, edges, {}, {}, s.records)
  }

  function LoadFails(s: State): State {
    s.(loaded := false, nodes := [], edges := [], connected := {}, upToDate := {})
  }

  function AddLink(s: State, a: Id, b: Id, w: int): State {
    if FindEdge(s.edges, a, b) < |s.edges| then s
    else s.(edges := s.edges + [Edge(a, b, w)], upToDate := s.upToDate - {a, b})
  }

  function UpdateLink(s: State, a: Id, b: Id, w: int): State {
    var i := FindEdge(s.edges, a, b);
    if i < |s.edges| then s.(edges := s.edges[i := s.edges[i].(weight := w)], upToDate := s.upToDate - {a, b}) else s
  }

  function DelLink(s: State, a: Id, b: Id): State {
    var i := FindEdge(s.edges, a, b);
    if i < |s.edges| then s.(edges := s.edges[..i] + s.edges[i + 1..], upToDate := s.upToDate - {a, b}) else s
  }

  function Disconnect(s: State, n: Id): State {
    if n !in s.nodes then s
    else s.(edges := Detached(s.edges, n), upToDate := s.upToDate - {n} - Neighbors(s.edges, n))
  }

  /* ---- messages of the routers ---- */

  function FirstFree(nodes: seq<Id>, connected: set<Id>): (r: Option<Id>)
    ensures r.Some? ==> r.value in nodes && r.value !in connected
    ensures r.None? <==> forall n :: n in nodes ==> n in connected
  {
    if nodes == [] then None else if nodes[0] !in connected then Some(nodes[0]) else FirstFree(nodes[1..], connected)
  }

  /** The node a login is given: the one asked for if it exists and is free, else the first free one. */
  function Grant(s: State, wanted: Option<Id>): Option<Id> {
    if wanted.Some? && wanted.value in s.nodes && wanted.value !in s.connected then wanted
    else FirstFree(s.nodes, s.connected)
  }

  function Login(s: State, wanted: Option<Id>, from: Info): State {
    match Grant(s, wanted)
    case None => s
    case Some(n) => s.(
      records := InfoTable.WithInfo(s.records, n, from),
      upToDate := s.upToDate - Neighbors(s.edges, n) - {n}, connected := s.connected + {n})
  }

  /** The caller must not let the count of records reach zero: the load factor is divided by it. */
  function Logout(s: State, n: Id): State
    requires s.records.count > 0
  {
    s.(connected := s.connected - {n}, upToDate := s.upToDate - Neighbors(s.edges, n), records := H.Remove(s.records, n))
  }

  /** Logging n out takes the record of a node along that is still connected. */
  predicate LosesConnected(s: State, n: Id) {
    H.Loses(s.records, n) && H.RemovalChain(s.records, n)[0].key in s.connected
  }

  datatype Reply = NeighborhoodOk | NewList(list: string) | Crash

  function Poll(s: State, n: Id): (State, Reply) {
    if n !in s.nodes || n in s.upToDate then (s, NeighborhoodOk)
    else match ListFor(s, n)
      case None => (s, Crash)
      case Some(t) => (s.(upToDate := s.upToDate + {n}), NewList(t))
  }

  /* ---- coherence ---- */

  /** Every connected node has its record. */
  ghost predicate HaveRecords(s: State) {
    forall n :: n in s.connected ==> Record(s.records, n).Some?
  }

  ghost predicate WellFormed(s: State) {
    && (forall e :: e in s.edges ==> e.tail in s.nodes && e.head in s.nodes)
    && (forall n :: n in s.connected ==> n in s.nodes)
    && (forall n :: n in s.upToDate ==> n in s.nodes)
    && H.Sound(s.records) && HaveRecords(s)
  }

  /** Every node marked up to date was last sent exactly the list it would be sent now. */
  ghost predicate Coherent(s: State, sent: map<Id, string>) {
    && WellFormed(s)
    && forall n :: n in s.upToDate ==> n in sent && ListFor(s, n) == Some(sent[n])
  }

  lemma {:induction false} OthersMembers(es: seq<Edge>, n: Id)
    ensures forall e :: e in es ==> Other(e, n) in Others(es, n)
    ensures forall k :: k in Others(es, n) ==> exists e :: e in es && Other(e, n) == k
    decreases |es|
  {
    if es != [] {
      var l := |es| - 1;
      OthersMembers(es[..l], n);
      assert es == es[..l] + [es[l]];
      forall k | k in Others(es, n) ensures exists e :: e in es && Other(e, n) == k {
        if k == Other(es[l], n) {
          assert es[l] in es;
        } else {
          var e :| e in es[..l] && Other(e, n) == k;
          assert e in es;
        }
      }
    }
  }

  lemma {:induction false} IncidentMembers(edges: seq<Edge>, n: Id)
    ensures forall e :: e in Incident(edges, n) <==> e in edges && Touches(e, n)
    ensures forall e :: e in edges && Touches(e, n) ==> Other(e, n) in Neighbors(edges, n)
    ensures forall k :: k in Neighbors(edges, n) ==> exists e :: e in edges && Touches(e, n) && Other(e, n) == k
    decreases |edges|
  {
    if edges != [] {
      var k := |edges| - 1;
      IncidentMembers(edges[..k], n);
      assert edges == edges[..k] + [edges[k]];
    }
    OthersMembers(Incident(edges, n), n);
  }

  /** The entries can be written exactly if each connected neighbour has its record. */
  lemma {:induction false} EntriesExist(edges: seq<Edge>, n: Id, connected: set<Id>, records: Records)
    ensures Entries(edges, n, connected, records).Some? <==>
            forall e :: e in edges && Other(e, n) in connected ==> Record(records, Other(e, n)).Some?
    decreases |edges|
  {
    hide Record, Entry;
    if edges != [] {
      var k := |edges| - 1;
      EntriesExist(edges[..k], n, connected, records);
      assert edges == edges[..k] + [edges[k]];
    }
  }

  /** A list depends only on which neighbours are connected and on their records. */
  lemma {:induction false} EntriesLocal(edges: seq<Edge>, n: Id, c: set<Id>, r: Records, c': set<Id>, r': Records)
    requires forall e :: e in edges ==> (Other(e, n) in c <==> Other(e, n) in c')
    requires forall e :: e in edges && Other(e, n) in c ==> Record(r, Other(e, n)) == Record(r', Other(e, n))
    ensures Entries(edges, n, c, r) == Entries(edges, n, c', r')
    decreases |edges|
  {
    hide Record, Entry;
    if edges != [] {
      var k := |edges| - 1;
      assert edges[k] in edges;
      EntriesLocal(edges[..k], n, c, r, c', r');
    }
  }

  lemma {:induction false} IncidentSplit(a: seq<Edge>, b: seq<Edge>, n: Id)
    ensures Incident(a + b, n) == Incident(a, n) + Incident(b, n)
    decreases |b|
  {
    if b == [] {
      assert a + b == a;
    } else {
      var k := |b| - 1;
      assert (a + b)[..|a + b| - 1] == a + b[..k];
      IncidentSplit(a, b[..k], n);
    }
  }

  lemma IncidentOne(e: Edge, n: Id)
    ensures Incident([e], n) == if Touches(e, n) then [e] else []
  {
    assert [e][..0] == [];
  }

  /** Edges that do not touch n may come, change and go without n noticing. */
  lemma IncidentElsewhere(edges: seq<Edge>, i: nat, e: Edge, n: Id)
    requires i < |edges| && !Touches(edges[i], n) && !Touches(e, n)
    ensures Incident(edges[i := e], n) == Incident(edges, n) == Incident(edges[..i] + edges[i + 1..], n)
  {
    hide Incident;
    var a, b := edges[..i], edges[i + 1..];
    assert edges == a + ([edges[i]] + b) && edges[i := e] == a + ([e] + b);
    IncidentWithout(a, edges[i], b, n);
    IncidentWithout(a, e, b, n);
  }

  lemma IncidentWithout(a: seq<Edge>, e: Edge, b: seq<Edge>, n: Id)
    requires !Touches(e, n)
    ensures Incident(a + ([e] + b), n) == Incident(a + b, n)
  {
    hide Incident, Touches;
    IncidentSplit(a, [e] + b, n);
    IncidentSplit([e], b, n);
    IncidentSplit(a, b, n);
    IncidentOne(e, n);
  }

  lemma {:induction false} DetachedIncident(edges: seq<Edge>, d: Id, n: Id)
    requires n != d && forall e :: e in edges && Touches(e, d) ==> !Touches(e, n)
    ensures Incident(Detached(edges, d), n) == Incident(edges, n)
    decreases |edges|
  {
    hide Incident, Detached, Touches;
    if edges == [] {
      assert Detached([], d) == [] by { DetachedNone(d); }
    } else {
      var k := |edges| - 1;
      var front, e := edges[..k], edges[k];
      assert edges == front + [e];
      DetachedIncident(front, d, n);
      DetachedSplit(front, [e], d);
      DetachedOne(e, d);
      IncidentSplit(front, [e], n);
      IncidentSplit(Detached(front, d), Detached([e], d), n);
      IncidentOne(e, n);
      IncidentNone(n);
    }
  }

  lemma DetachedNone(n: Id)
    ensures Detached([], n) == []
  {
  }

  lemma IncidentNone(n: Id)
    ensures Incident([], n) == []
  {
  }

  /** A node that is not a neighbour of d shares no edge with it. */
  lemma NoSharedEdge(edges: seq<Edge>, d: Id, n: Id)
    requires n != d && n !in Neighbors(edges, d)
    ensures forall e :: e in edges && Touches(e, d) ==> !Touches(e, n)
  {
    hide Neighbors;
    IncidentMembers(edges, d);
  }

  lemma {:induction false} DetachedSplit(a: seq<Edge>, b: seq<Edge>, n: Id)
    ensures Detached(a + b, n) == Detached(a, n) + Detached(b, n)
    decreases |b|
  {
    if b == [] {
      assert a + b == a;
    } else {
      var k := |b| - 1;
      assert (a + b)[..|a + b| - 1] == a + b[..k];
      DetachedSplit(a, b[..k], n);
    }
  }

  lemma {:induction false} OthersSplit(a: seq<Edge>, b: seq<Edge>, n: Id)
    ensures Others(a + b, n) == Others(a, n) + Others(b, n)
    decreases |b|
  {
    if b == [] {
      assert a + b == a;
    } else {
      var k := |b| - 1;
      assert (a + b)[..|a + b| - 1] == a + b[..k];
      OthersSplit(a, b[..k], n);
    }
  }

  /** Deleting one edge of n leaves the rest of its detachment to do. */
  lemma DetachOne(edges: seq<Edge>, i: nat, n: Id)
    requires i < |edges| && Touches(edges[i], n)
    ensures var edges' := edges[..i] + edges[i + 1..];
      Detached(edges', n) == Detached(edges, n) && Neighbors(edges, n) == Neighbors(edges', n) + {Other(edges[i], n)}
  {
    hide Detached, Neighbors, Touches;
    var a, e, b := edges[..i], edges[i], edges[i + 1..];
    assert edges == a + ([e] + b);
    DetachedSplit(a, [e] + b, n);
    DetachedSplit([e], b, n);
    DetachedSplit(a, b, n);
    DetachedOne(e, n);
    NeighborsOne(a, e, b, n);
  }

  lemma DetachedOne(e: Edge, n: Id)
    ensures Detached([e], n) == if Touches(e, n) then [] else [e]
  {
    assert [e][..0] == [];
  }

  lemma NeighborsOne(a: seq<Edge>, e: Edge, b: seq<Edge>, n: Id)
    requires Touches(e, n)
    ensures Neighbors(a + ([e] + b), n) == Neighbors(a + b, n) + {Other(e, n)}
  {
    hide Incident, Others, Touches, Other;
    IncidentSplit(a, [e] + b, n);
    IncidentSplit([e], b, n);
    IncidentSplit(a, b, n);
    IncidentOne(e, n);
    OthersSplit(Incident(a, n), [e] + Incident(b, n), n);
    OthersSplit([e], Incident(b, n), n);
    OthersSplit(Incident(a, n), Incident(b, n), n);
    OthersOne(e, n);
  }

  lemma OthersOne(e: Edge, n: Id)
    ensures Others([e], n) == {Other(e, n)}
  {
    assert [e][..0] == [];
  }

  lemma {:induction false} NothingToDetach(edges: seq<Edge>, n: Id)
    requires forall e :: e in edges ==> !Touches(e, n)
    ensures Detached(edges, n) == edges && Neighbors(edges, n) == {}
    decreases |edges|
  {
    if edges != [] {
      var k := |edges| - 1;
      assert edges == edges[..k] + [edges[k]];
      NothingToDetach(edges[..k], n);
      assert Incident(edges, n) == Incident(edges[..k], n);
    }
  }

  lemma NeighborsMutual(edges: seq<Edge>, a: Id, b: Id)
    ensures a in Neighbors(edges, b) ==> b in Neighbors(edges, a)
  {
    IncidentMembers(edges, a);
    IncidentMembers(edges, b);
    if a in Neighbors(edges, b) {
      var e :| e in edges && Touches(e, b) && Other(e, b) == a;
      assert Touches(e, a) && Other(e, a) == b;
    }
  }

  /* ---- every command keeps coherence ---- */

  /** A list depends only on the edges of the node. */
  lemma ListElsewhere(s: State, s': State, n: Id)
    requires s'.connected == s.connected && s'.records == s.records && Incident(s'.edges, n) == Incident(s.edges, n)
    ensures ListFor(s', n) == ListFor(s, n)
  {
  }

  /** A change of edges keeps coherence if the nodes whose edges change are marked. */
  lemma EditKeeps(s: State, sent: map<Id, string>, edges: seq<Edge>, upToDate: set<Id>)
    requires Coherent(s, sent) && upToDate <= s.upToDate
    requires forall e :: e in edges ==> e.tail in s.nodes && e.head in s.nodes
    requires forall n :: n in upToDate ==> Incident(edges, n) == Incident(s.edges, n)
    ensures Coherent(s.(edges := edges, upToDate := upToDate), sent)
  {
    hide ListFor, Incident, H.Sound, Record;
    var s' := s.(edges := edges, upToDate := upToDate);
    forall n | n in upToDate
      ensures ListFor(s', n) == ListFor(s, n)
    {
      ListElsewhere(s, s', n);
    }
  }

  lemma AddLinkKeeps(s: State, sent: map<Id, string>, a: Id, b: Id, w: int)
    requires Coherent(s, sent) && a in s.nodes && b in s.nodes
    ensures Coherent(AddLink(s, a, b, w), sent)
  {
    hide Coherent, Incident;
    if FindEdge(s.edges, a, b) == |s.edges| {
      var e := Edge(a, b, w);
      forall n | n in s.upToDate - {a, b}
        ensures Incident(s.edges + [e], n) == Incident(s.edges, n)
      {
        IncidentSplit(s.edges, [e], n);
        IncidentOne(e, n);
      }
      EdgesInside(s, sent);
      EditKeeps(s, sent, s.edges + [e], s.upToDate - {a, b});
    }
  }

  lemma EdgesInside(s: State, sent: map<Id, string>)
    requires Coherent(s, sent)
    ensures forall e :: e in s.edges ==> e.tail in s.nodes && e.head in s.nodes
  {
  }

  lemma UpdateLinkKeeps(s: State, sent: map<Id, string>, a: Id, b: Id, w: int)
    requires Coherent(s, sent)
    ensures Coherent(UpdateLink(s, a, b, w), sent)
  {
    hide Coherent, Incident;
    var i := FindEdge(s.edges, a, b);
    if i < |s.edges| {
      var e := s.edges[i].(weight := w);
      EdgesInside(s, sent);
      assert s.edges[i] in s.edges;
      assert forall x :: x in s.edges[i := e] ==> x == e || x in s.edges;
      forall n | n in s.upToDate - {a, b}
        ensures Incident(s.edges[i := e], n) == Incident(s.edges, n)
      {
        IncidentElsewhere(s.edges, i, e, n);
      }
      EditKeeps(s, sent, s.edges[i := e], s.upToDate - {a, b});
    }
  }

  lemma DelLinkKeeps(s: State, sent: map<Id, string>, a: Id, b: Id)
    requires Coherent(s, sent)
    ensures Coherent(DelLink(s, a, b), sent)
  {
    hide Coherent, Incident;
    var i := FindEdge(s.edges, a, b);
    if i < |s.edges| {
      var rest := s.edges[..i] + s.edges[i + 1..];
      EdgesInside(s, sent);
      assert forall x :: x in rest ==> x in s.edges;
      forall n | n in s.upToDate - {a, b}
        ensures Incident(rest, n) == Incident(s.edges, n)
      {
        IncidentElsewhere(s.edges, i, s.edges[i], n);
      }
      EditKeeps(s, sent, rest, s.upToDate - {a, b});
    }
  }

  lemma DisconnectKeeps(s: State, sent: map<Id, string>, d: Id)
    requires Coherent(s, sent)
    ensures Coherent(Disconnect(s, d), sent)
  {
    hide Coherent, Incident, Detached, Neighbors;
    if d in s.nodes {
      var left := s.upToDate - {d} - Neighbors(s.edges, d);
      forall n | n in left
        ensures Incident(Detached(s.edges, d), n) == Incident(s.edges, n)
      {
        NoSharedEdge(s.edges, d, n);
        DetachedIncident(s.edges, d, n);
      }
      EdgesInside(s, sent);
      DetachedSubset(s.edges, d);
      EditKeeps(s, sent, Detached(s.edges, d), left);
    }
  }

  lemma {:induction false} DetachedSubset(edges: seq<Edge>, d: Id)
    ensures forall e :: e in Detached(edges, d) ==> e in edges && !Touches(e, d)
    decreases |edges|
  {
    if edges != [] {
      DetachedSubset(edges[..|edges| - 1], d);
    }
  }

  /* ---- logins and polls keep it; logouts do if they lose nobody ---- */

  /** A change of status of m is invisible to nodes that are not its neighbours. */
  lemma StatusElsewhere(s: State, s': State, m: Id, n: Id)
    requires s'.edges == s.edges && n !in Neighbors(s.edges, m)
    requires s'.connected - {m} == s.connected - {m}
    requires forall k :: k != m && k in s.connected ==> Record(s.records, k) == Record(s'.records, k)
    ensures ListFor(s', n) == ListFor(s, n)
  {
    hide Record, Entries, Neighbors, Incident;
    var inc := Incident(s.edges, n);
    IncidentMembers(s.edges, n);
    NeighborsMutual(s.edges, m, n);
    assert forall e :: e in inc ==> Other(e, n) in Neighbors(s.edges, n);
    forall e | e in inc ensures Other(e, n) != m && (Other(e, n) in s.connected <==> Other(e, n) in s'.connected) {
      assert Other(e, n) in s.connected - {m} <==> Other(e, n) in s.connected;
      assert Other(e, n) in s'.connected - {m} <==> Other(e, n) in s'.connected;
    }
    EntriesLocal(inc, n, s.connected, s.records, s'.connected, s'.records);
  }

  lemma LoginKeeps(s: State, sent: map<Id, string>, wanted: Option<Id>, from: Info)
    requires Coherent(s, sent) && s.records.count + 1 < H.MAX_KEYS
    ensures Coherent(Login(s, wanted, from), sent)
  {
    hide ListFor, H.Sound, H.Lookup, InfoTable.WithInfo, Neighbors;
    var g := Grant(s, wanted);
    if g.Some? {
      var s' := Login(s, wanted, from);
      InfoTable.WithInfoExact(s.records, g.value, from);
      forall n | n in s'.upToDate ensures ListFor(s', n) == ListFor(s, n) {
        StatusElsewhere(s, s', g.value, n);
      }
    }
  }

  /** After a logout every connected node still has its record if and only if the logout loses no connected node. */
  lemma LogoutRecords(s: State, n: Id)
    requires H.Sound(s.records) && HaveRecords(s) && s.records.count > 0
    ensures HaveRecords(Logout(s, n)) <==> !LosesConnected(s, n)
    ensures H.Sound(Logout(s, n).records)
    ensures !LosesConnected(s, n) ==>
      forall k :: k != n && k in s.connected ==> Record(s.records, k) == Record(Logout(s, n).records, k)
  {
    hide H.Sound, H.Lookup, H.Remove, H.RemovalChain;
    H.RemoveExact(s.records, n);
    H.VictimIsOther(s.records, n);
    var s' := Logout(s, n);
    if LosesConnected(s, n) {
      var h := H.RemovalChain(s.records, n)[0].key;
      assert h in s'.connected && Record(s'.records, h).None?;
    }
  }

  /** So a logout keeps coherence if and only if it loses no connected node. */
  lemma LogoutIff(s: State, sent: map<Id, string>, n: Id)
    requires Coherent(s, sent) && s.records.count > 0
    ensures Coherent(Logout(s, n), sent) <==> !LosesConnected(s, n)
  {
    hide ListFor, H.Sound, Record, H.Remove, LosesConnected, Neighbors;
    LogoutRecords(s, n);
    var s' := Logout(s, n);
    if !LosesConnected(s, n) {
      forall m | m in s'.upToDate ensures ListFor(s', m) == ListFor(s, m) {
        StatusElsewhere(s, s', n, m);
      }
    }
  }

  /** A poll follows a null record if and only if it has a list to write with a connected neighbour without one. */
  lemma PollCrashes(s: State, n: Id)
    ensures Poll(s, n).1 == Crash <==>
      n in s.nodes && n !in s.upToDate && exists k :: k in Neighbors(s.edges, n) && k in s.connected && Record(s.records, k).None?
  {
    hide Record, Entries, Neighbors, Incident;
    EntriesExist(Incident(s.edges, n), n, s.connected, s.records);
    IncidentMembers(s.edges, n);
  }

  /** A poll of a coherent controller succeeds, and its answer is the truth. */
  lemma PollKeeps(s: State, sent: map<Id, string>, n: Id)
    requires Coherent(s, sent)
    ensures var (s', reply) := Poll(s, n);
      && reply != Crash
      && (n in s.nodes ==> ListFor(s, n).Some?)
      && (n in s.nodes ==> ListFor(s, n).value == if reply == NeighborhoodOk then sent[n] else reply.list)
      && Coherent(s', if reply.NewList? then sent[n := reply.list] else sent)
  {
    hide H.Sound, Record, Entries;
    EntriesExist(Incident(s.edges, n), n, s.connected, s.records);
  }

  /* ---- all runs ---- */

  datatype Op =
    | OnLoad(nodes: seq<Id>, edges: seq<Edge>) | OnLoadFailure
    | OnAddLink(a: Id, b: Id, w: int) | OnUpdateLink(a: Id, b: Id, w: int) | OnDelLink(a: Id, b: Id)
    | OnDisconnect(n: Id) | OnLogin(wanted: Option<Id>, from: Info) | OnPoll(n: Id) | OnLogout(n: Id)

  /**
   Link edits name existing nodes, only a node of the graph logs out, and the count of records stays
   between zero, by which a removal divides, and the limit of the sixteen-bit bucket count.
   */
  predicate Allowed(s: State, op: Op) {
    match op
    case OnLoad(nodes, edges) => forall e :: e in edges ==> e.tail in nodes && e.head in nodes
    case OnLoadFailure => true
    case OnAddLink(a, b, _) => s.loaded ==> a in s.nodes && b in s.nodes
    case OnUpdateLink(a, b, _) => s.loaded ==> a in s.nodes && b in s.nodes
    case OnDelLink(a, b) => s.loaded ==> a in s.nodes && b in s.nodes
    case OnDisconnect(_) => true
    case OnLogin(_, _) => s.loaded ==> s.records.count + 1 < H.MAX_KEYS
    case OnPoll(_) => true
    case OnLogout(n) => s.loaded ==> n in s.nodes && s.records.count > 0
  }

  /** A logout that takes no connected node's record along, or any other operation. */
  predicate Spares(s: State, op: Op) {
    op.OnLogout? && s.loaded ==> !LosesConnected(s, op.n)
  }

  /** The new state and the lists last sent; without a topology only loading has an effect. */
  function Apply(s: State, sent: map<Id, string>, op: Op): (State, map<Id, string>)
    requires Allowed(s, op)
  {
    match op
    case OnLoad(nodes, edges) => (Load(s, nodes, edges), sent)
    case OnLoadFailure => (LoadFails(s), sent)
    case OnAddLink(a, b, w) => (if s.loaded then AddLink(s, a, b, w) else s, sent)
    case OnUpdateLink(a, b, w) => (if s.loaded then UpdateLink(s, a, b, w) else s, sent)
    case OnDelLink(a, b) => (if s.loaded then DelLink(s, a, b) else s, sent)
    case OnDisconnect(n) => (if s.loaded then Disconnect(s, n) else s, sent)
    case OnLogin(wanted, from) => (if s.loaded then Login(s, wanted, from) else s, sent)
    case OnLogout(n) => (if s.loaded then Logout(s, n) else s, sent)
    case OnPoll(n) =>
      var (s', reply) := if s.loaded then Poll(s, n) else (s, NeighborhoodOk);
      (s', if reply.NewList? then sent[n := reply.list] else sent)
  }

  /** A run; it keeps its records if none of its logouts loses a connected node. */
  ghost predicate Reaches(s: State, sent: map<Id, string>, ops: seq<Op>, s': State, sent': map<Id, string>)
    decreases |ops|
  {
    if ops == [] then s == s' && sent == sent'
    else Allowed(s, ops[0]) && var (t, sent1) := Apply(s, sent, ops[0]); Reaches(t, sent1, ops[1..], s', sent')
  }

  ghost predicate Sparing(s: State, sent: map<Id, string>, ops: seq<Op>)
    decreases |ops|
  {
    ops == [] ||
    (Allowed(s, ops[0]) && Spares(s, ops[0]) && var (t, sent1) := Apply(s, sent, ops[0]); Sparing(t, sent1, ops[1..]))
  }

  /** Every state the run passes through is coherent. */
  ghost predicate CoherentThroughout(s: State, sent: map<Id, string>, ops: seq<Op>)
    decreases |ops|
  {
    && Coherent(s, sent)
    && (ops == [] ||
        (Allowed(s, ops[0]) && var (t, sent1) := Apply(s, sent, ops[0]); CoherentThroughout(t, sent1, ops[1..])))
  }

  lemma LoadCoherent(s: State, sent: map<Id, string>, nodes: seq<Id>, edges: seq<Edge>)
    requires Coherent(s, sent) && forall e :: e in edges ==> e.tail in nodes && e.head in nodes
    ensures Coherent(Load(s, nodes, edges), sent) && Coherent(LoadFails(s), sent)
  {
    hide H.Sound, Record, ListFor;
  }

  /** One operation keeps coherence if and only if it is no logout that loses a connected node. */
  lemma StepCoherent(s: State, sent: map<Id, string>, op: Op)
    requires Coherent(s, sent) && Allowed(s, op)
    ensures Coherent(Apply(s, sent, op).0, Apply(s, sent, op).1) <==> Spares(s, op)
  {
    hide Coherent, LosesConnected, Load, LoadFails, AddLink, UpdateLink, DelLink, Disconnect, Login, Logout, Poll;
    match op
    case OnLoad(nodes, edges) => LoadCoherent(s, sent, nodes, edges);
    case OnLoadFailure => LoadCoherent(s, sent, [], []);
    case OnAddLink(a, b, w) => if s.loaded { AddLinkKeeps(s, sent, a, b, w); }
    case OnUpdateLink(a, b, w) => UpdateLinkKeeps(s, sent, a, b, w);
    case OnDelLink(a, b) => DelLinkKeeps(s, sent, a, b);
    case OnDisconnect(n) => DisconnectKeeps(s, sent, n);
    case OnLogin(wanted, from) => if s.loaded { LoginKeeps(s, sent, wanted, from); }
    case OnLogout(n) => if s.loaded { LogoutIff(s, sent, n); }
    case OnPoll(n) => PollKeeps(s, sent, n);
  }

  /** A run stays coherent throughout if and only if none of its logouts loses a connected node. */
  lemma {:induction false} RunCoherent(s: State, sent: map<Id, string>, ops: seq<Op>, s': State, sent': map<Id, string>)
    requires Coherent(s, sent) && Reaches(s, sent, ops, s', sent')
    ensures CoherentThroughout(s, sent, ops) <==> Sparing(s, sent, ops)
    ensures Sparing(s, sent, ops) ==> Coherent(s', sent')
    decreases |ops|
  {
    hide Coherent, Apply, Allowed, Spares;
    if ops != [] {
      var (t, sent1) := Apply(s, sent, ops[0]);
      StepCoherent(s, sent, ops[0]);
      if Spares(s, ops[0]) {
        RunCoherent(t, sent1, ops[1..], s', sent');
      } else {
        StaysIncoherent(t, sent1, ops[1..]);
      }
    }
  }

  lemma StaysIncoherent(s: State, sent: map<Id, string>, ops: seq<Op>)
    requires !Coherent(s, sent)
    ensures !CoherentThroughout(s, sent, ops)
  {
    hide Coherent, Apply, Allowed;
  }

  lemma StartCoherent()
    ensures Coherent(START, map[])
  {
    hide H.Sound;
    H.NewTable<Info>();
    H.SizedSound(H.Empty<Info>(H.INITIAL_NUM));
  }

  /** As long as no logout loses a connected node, a poll succeeds and "neighborhood ok" is the truth. */
  lemma PollTruthful(ops: seq<Op>, s: State, sent: map<Id, string>, n: Id)
    requires Reaches(START, map[], ops, s, sent) && Sparing(START, map[], ops) && n in s.nodes
    ensures ListFor(s, n).Some?
    ensures match Poll(s, n).1
      case NeighborhoodOk => n in sent && sent[n] == ListFor(s, n).value
      case NewList(t) => t == ListFor(s, n).value
      case Crash => false
  {
    hide Reaches, Sparing, H.Sound, Record, Entries;
    StartCoherent();
    RunCoherent(START, map[], ops, s, sent);
    PollKeeps(s, sent, n);
  }

  /** As long as no logout loses a connected node, every connected node has its record, and logins share nodes out. */
  lemma LoginOutcome(ops: seq<Op>, s: State, sent: map<Id, string>, wanted: Option<Id>, from: Info)
    requires Reaches(START, map[], ops, s, sent) && Sparing(START, map[], ops) && s.records.count + 1 < H.MAX_KEYS
    ensures forall n :: n in s.connected ==> n in s.nodes && Record(s.records, n).Some?
    ensures Grant(s, wanted).None? <==> forall n :: n in s.nodes ==> n in s.connected
    ensures Grant(s, wanted).Some? ==>
      var n, s' := Grant(s, wanted).value, Login(s, wanted, from);
      && n in s.nodes && n !in s.connected
      && s'.connected == s.connected + {n} && Record(s'.records, n).Some?
      && (Record(s.records, n).None? ==> Record(s'.records, n) == Some(from))
      && (wanted.Some? && wanted.value in s.nodes && wanted.value !in s.connected ==> n == wanted.value)
  {
    hide Reaches, Sparing, H.Sound, H.Lookup, InfoTable.WithInfo, Neighbors;
    StartCoherent();
    RunCoherent(START, map[], ops, s, sent);
    var g := Grant(s, wanted);
    if g.Some? {
      InfoTable.WithInfoExact(s.records, g.value, from);
    }
  }

  /* ---- a run in which a logout loses another node ---- */

  /** Two linked routers log in, the first leaves and comes back. */
  function LosingRun(a: Id, b: Id, w: int, ia: Info, ib: Info): seq<Op> {
    [OnLoad([a, b], [Edge(a, b, w)]), OnLogin(Some(a), ia), OnLogin(Some(b), ib), OnLogout(a), OnLogin(Some(a), ia)]
  }

  /** One operation of a run. */
  lemma RunStep(s: State, op: Op, s': State, ops: seq<Op>, t: State)
    requires Allowed(s, op) && Apply(s, map[], op) == (s', map[])
    ensures Reaches(s', map[], ops, t, map[]) ==> Reaches(s, map[], [op] + ops, t, map[])
    ensures Sparing(s, map[], [op] + ops) ==> Spares(s, op) && Sparing(s', map[], ops)
  {
    hide Allowed, Apply, Spares;
    assert ([op] + ops)[1..] == ops;
  }

  lemma LoginStep(s: State, n: Id, from: Info)
    requires s.loaded && n in s.nodes && n !in s.connected && s.upToDate == {}
    requires s.records.count + 1 < H.MAX_KEYS
    ensures Allowed(s, OnLogin(Some(n), from))
    ensures Apply(s, map[], OnLogin(Some(n), from))
      == (s.(connected := s.connected + {n}, records := InfoTable.WithInfo(s.records, n, from)), map[])
  {
    hide InfoTable.WithInfo, Neighbors;
    assert {} - Neighbors(s.edges, n) - {n} == {};
  }

  lemma LogoutStep(s: State, n: Id)
    requires s.loaded && n in s.nodes && s.upToDate == {} && s.records.count > 0
    ensures Allowed(s, OnLogout(n))
    ensures Apply(s, map[], OnLogout(n)) == (s.(connected := s.connected - {n}, records := H.Remove(s.records, n)), map[])
  {
    hide H.Remove, Neighbors;
    assert {} - Neighbors(s.edges, n) == {};
  }

  /** In the table, the records of both go with the first one, and its return brings back only its own. */
  lemma BothGone(a: Id, b: Id, ia: Info, ib: Info)
    requires a != b && H.Hash(a, H.INITIAL_NUM) == H.Hash(b, H.INITIAL_NUM)
    requires H.Hash(a, H.INITIAL_NUM / 2) == H.Hash(b, H.INITIAL_NUM / 2)
    ensures var t := H.Empty<Info>(H.INITIAL_NUM);
      var t1 := InfoTable.WithInfo(t, a, ia);
      var t2 := InfoTable.WithInfo(t1, b, ib);
      && t.count == 0 && t1.count <= 1 && t2.count == 2 && H.Remove(t2, a).count == 1
      && H.Loses(t2, a) && H.RemovalChain(t2, a)[0].key == b
      && H.Lookup(InfoTable.WithInfo(H.Remove(t2, a), a, ia), b) == None
  {
    hide H.Hash, H.Add, H.Remove, H.Sound, H.RemovalChain, H.Lookup;
    var t := H.Empty<Info>(H.INITIAL_NUM);
    H.NewTable<Info>();
    H.SizedSound(t);
    InfoTable.WithInfoExact(t, a, ia);
    var t1 := InfoTable.WithInfo(t, a, ia);
    InfoTable.WithInfoExact(t1, b, ib);
    var t2 := InfoTable.WithInfo(t1, b, ib);
    assert t2 == H.Add(H.Add(t, a, ia), b, ib);
    H.RemovalForgetsOther(a, b, ia, ib);
    H.RemoveExact(t2, a);
    InfoTable.WithInfoExact(H.Remove(t2, a), a, ia);
    assert H.RemovalChain(t2, a)[0].key in H.Victims(t2, a);
  }

  /**
   Any two identifiers of one bucket: the logout of the first takes the record of the second along,
   and the next poll of the first follows a null record.
   */
  lemma LogoutLosesNeighbor(a: Id, b: Id, w: int, ia: Info, ib: Info) returns (s: State)
    requires a != b && H.Hash(a, H.INITIAL_NUM) == H.Hash(b, H.INITIAL_NUM)
    requires H.Hash(a, H.INITIAL_NUM / 2) == H.Hash(b, H.INITIAL_NUM / 2)
    ensures Reaches(START, map[], LosingRun(a, b, w, ia, ib), s, map[]) && !Sparing(START, map[], LosingRun(a, b, w, ia, ib))
    ensures b in s.connected && Record(s.records, b).None? && Poll(s, a).1 == Crash
  {
    hide Reaches, Sparing, Allowed, Apply, H.Hash, H.Remove, H.Loses, H.RemovalChain, H.Lookup, H.Empty, InfoTable.WithInfo,
         Neighbors, Poll;
    BothGone(a, b, ia, ib);
    var t := H.Empty<Info>(H.INITIAL_NUM);
    var t1 := InfoTable.WithInfo(t, a, ia);
    var t2 := InfoTable.WithInfo(t1, b, ib);
    var s1 := State(true, [a, b], [Edge(a, b, w)], {}, {}, t);
    var s2 := s1.(connected := {a}, records := t1);
    var s3 := s2.(connected := {a, b}, records := t2);
    var s4 := s3.(connected := {b}, records := H.Remove(t2, a));
    s := s4.(connected := {a, b}, records := InfoTable.WithInfo(s4.records, a, ia));
    var load := OnLoad([a, b], [Edge(a, b, w)]);
    LoadStep(a, b, w);
    LoginStep(s1, a, ia);
    LoginStep(s2, b, ib);
    LogoutStep(s3, a);
    LoginStep(s4, a, ia);
    assert {} + {a} == {a} && {a} + {b} == {a, b} && {a, b} - {a} == {b} && {b} + {a} == {a, b};
    NoStep(s);
    RunStep(s4, OnLogin(Some(a), ia), s, [], s);
    RunStep(s3, OnLogout(a), s4, [OnLogin(Some(a), ia)] + [], s);
    RunStep(s2, OnLogin(Some(b), ib), s3, [OnLogout(a)] + ([OnLogin(Some(a), ia)] + []), s);
    RunStep(s1, OnLogin(Some(a), ia), s2, [OnLogin(Some(b), ib)] + ([OnLogout(a)] + ([OnLogin(Some(a), ia)] + [])), s);
    var ops := [OnLogin(Some(a), ia)] + ([OnLogin(Some(b), ib)] + ([OnLogout(a)] + ([OnLogin(Some(a), ia)] + [])));
    RunStep(START, load, s1, ops, s);
    assert [load] + ops == LosingRun(a, b, w, ia, ib);
    PollCrashes(s, a);
    OnlyNeighbor(a, b, w);
  }

  lemma LoadStep(a: Id, b: Id, w: int)
    ensures var op := OnLoad([a, b], [Edge(a, b, w)]);
      && Allowed(START, op)
      && Apply(START, map[], op) == (State(true, [a, b], [Edge(a, b, w)], {}, {}, H.Empty<Info>(H.INITIAL_NUM)), map[])
  {
    hide H.Empty;
  }

  lemma NoStep(s: State)
    ensures Reaches(s, map[], [], s, map[])
  {
  }

  lemma OnlyNeighbor(a: Id, b: Id, w: int)
    requires a != b
    ensures b in Neighbors([Edge(a, b, w)], a)
  {
    IncidentMembers([Edge(a, b, w)], a);
    assert Edge(a, b, w) in [Edge(a, b, w)];
  }

  /** Routers named by a single character always collide. */
  lemma ShortNamesLose(c: char, d: char, w: int, ia: Info, ib: Info) returns (s: State)
    requires c != d
    ensures Reaches(START, map[], LosingRun([c], [d], w, ia, ib), s, map[]) && Poll(s, [c]).1 == Crash
  {
    hide Reaches, Poll;
    H.ShortKeysCollide(c, d, H.INITIAL_NUM);
    H.ShortKeysCollide(c, d, H.INITIAL_NUM / 2);
    assert [c][0] != [d][0];
    s := LogoutLosesNeighbor([c], [d], w, ia, ib);
  }

  /** So do routers named by two characters of which the first is the same. */
  lemma NumberedNamesLose(c: char, d: char, d': char, w: int, ia: Info, ib: Info) returns (s: State)
    requires d != d'
    ensures Reaches(START, map[], LosingRun([c, d], [c, d'], w, ia, ib), s, map[]) && Poll(s, [c, d]).1 == Crash
  {
    hide Reaches, Poll;
    H.SameStartCollides(c, d, d');
    assert [c, d][1] != [c, d'][1];
    s := LogoutLosesNeighbor([c, d], [c, d'], w, ia, ib);
  }
}
