/** A router's routing table: what it advertises, whom it forwards to, and how it learns. */
module RouteTable {
  import opened Wrappers
  import opened Topology

  /** `peer` is the connection the entry holds, named by the node at its other end. */
  datatype Entry = Entry(name: Node, nextHop: Node, dist: int, neighbor: bool, complete: bool, peer: Option<Node>)

  type Table = map<Node, Entry>

  const DEFAULT_ENTRY := Entry("", "", -1, false, false, None)

  function Learned(s: Node, via: Node, dist: int): Entry {
    Entry(s, via, dist, false, false, None)
  }

  function NeighborEntry(s: Node, cost: int): Entry {
    Entry(s, s, cost, true, true, Some(s))
  }

  /** An entry learnt through `source`, which a new vector of `source` makes obsolete. */
  predicate Stale(e: Entry, source: Node) {
    e.name != e.nextHop && e.nextHop == source
  }

  function DropStale(t: Table, source: Node): Table {
    map k | k in t && !Stale(t[k], source) :: t[k]
  }

  /** Reading a missing key through the subscript operator inserts the default entry. */
  function Touch(t: Table, k: Node): Table {
    if k in t then t else t[k := DEFAULT_ENTRY]
  }

  /** One (id, distance) pair of a vector received from `source` by router `me`. */
  function Process(t: Table, me: Node, source: Node, s: Node, dist: int): Table {
    if s == me then t
    else if s !in t then Touch(t, source)[s := Learned(s, source, dist + Touch(t, source)[source].dist)]
    else if t[s].neighbor then
      if dist < t[s].dist || t[s].dist < 0 then t[s := t[s].(nextHop := source, dist := dist)] else t
    else
      var t' := Touch(t, source);
      var cand := dist + t'[source].dist;
      if cand < t[s].dist || (t[s].nextHop == source && t[s].dist != cand) || t[s].dist < 0
      then t'[s := t[s].(nextHop := source, dist := cand)] else t'
  }

  function ProcessAll(t: Table, me: Node, source: Node, v: seq<(Node, int)>): Table {
    if v == [] then t
    else Process(ProcessAll(t, me, source, v[..|v| - 1]), me, source, v[|v| - 1].0, v[|v| - 1].1)
  }

  function Receive(t: Table, me: Node, source: Node, v: seq<(Node, int)>): Table {
    ProcessAll(DropStale(t, source), me, source, v)
  }

  /** What a table advertises to `client`: the distance to every other node it knows. */
  function Advert(t: Table, client: Node): map<Node, int> {
    map k | k in t && k != client :: t[k].dist
  }

  /** v lists the pairs of m, each key once, in some order. */
  ghost predicate Enumerates(v: seq<(Node, int)>, m: map<Node, int>) {
    && (forall i :: 0 <= i < |v| ==> v[i].0 in m && m[v[i].0] == v[i].1)
    && (forall i, j :: 0 <= i < j < |v| ==> v[i].0 != v[j].0)
    && (forall k :: k in m ==> exists i :: 0 <= i < |v| && v[i].0 == k)
  }

  lemma EnumerateMore(v: seq<(Node, int)>, m: map<Node, int>, k: Node, d: int)
    requires Enumerates(v, m) && k !in m
    ensures Enumerates(v + [(k, d)], m[k := d])
  {
    var v', m' := v + [(k, d)], m[k := d];
    forall j | j in m' ensures exists i :: 0 <= i < |v'| && v'[i].0 == j {
      if j == k {
        assert v'[|v|].0 == k;
      } else {
        var i :| 0 <= i < |v| && v[i].0 == j;
        assert v'[i].0 == j;
      }
    }
  }

  lemma EnumerateLess(v: seq<(Node, int)>, m: map<Node, int>)
    requires Enumerates(v, m) && v != []
    ensures Enumerates(v[..|v| - 1], m - {v[|v| - 1].0})
  {
    var n := |v| - 1;
    forall j | j in m - {v[n].0} ensures exists i :: 0 <= i < n && v[..n][i].0 == j {
      var i :| 0 <= i < |v| && v[i].0 == j;
      assert v[..n][i].0 == j;
    }
  }

  lemma Enumeration(m: map<Node, int>) returns (v: seq<(Node, int)>)
    ensures Enumerates(v, m)
    decreases |m|
  {
    if m == map[] {
      v := [];
    } else {
      var k :| k in m;
      var m' := m - {k};
      assert m'.Keys == m.Keys - {k};
      v := Enumeration(m');
      EnumerateMore(v, m', k, m[k]);
      assert m'[k := m[k]] == m;
      v := v + [(k, m[k])];
    }
  }

  /** The entry that results from hearing `dist` for an entry already in the table. */
  function Improve(e: Entry, source: Node, dist: int, toSource: int): Entry {
    if e.neighbor then if dist < e.dist || e.dist < 0 then e.(nextHop := source, dist := dist) else e
    else if dist + toSource < e.dist || (e.nextHop == source && e.dist != dist + toSource) || e.dist < 0
    then e.(nextHop := source, dist := dist + toSource) else e
  }

  /** The whole vector at once: every key on its own, whatever the order of the pairs. */
  function Merge(t: Table, me: Node, source: Node, adv: map<Node, int>): Table
    requires source in t
  {
    map k | k in t.Keys + (adv.Keys - {me}) ::
      if k in adv && k != me then
        if k in t then Improve(t[k], source, adv[k], t[source].dist)
        else Learned(k, source, adv[k] + t[source].dist)
      else t[k]
  }

  lemma MergeAtOther(t: Table, me: Node, source: Node, adv: map<Node, int>, k: Node, j: Node)
    requires source in t && j != k && k in adv
    ensures var r, m := Merge(t, me, source, adv - {k}), Merge(t, me, source, adv);
      (j in r <==> j in m) && (j in m ==> r[j] == m[j])
  {
    assert j in adv <==> j in adv - {k};
  }

  lemma ProcessAtOther(t: Table, me: Node, source: Node, s: Node, dist: int, j: Node)
    requires source in t && j != s
    ensures var r := Process(t, me, source, s, dist);
      (j in r <==> j in t) && (j in t ==> r[j] == t[j])
  {
  }

  lemma MergeOne(t: Table, me: Node, source: Node, adv: map<Node, int>, k: Node)
    requires source in t && source !in adv && k in adv
    ensures Process(Merge(t, me, source, adv - {k}), me, source, k, adv[k]) == Merge(t, me, source, adv)
  {
    hide Merge, Process;
    var r, m := Merge(t, me, source, adv - {k}), Merge(t, me, source, adv);
    MergeHere(t, me, source, adv, k);
    var r' := Process(r, me, source, k, adv[k]);
    forall j
      ensures j in r' <==> j in m
      ensures j in m ==> r'[j] == m[j]
    {
      if j != k {
        MergeAtOther(t, me, source, adv, k, j);
        ProcessAtOther(r, me, source, k, adv[k], j);
      }
    }
    assert r' == m;
  }

  lemma MergeHere(t: Table, me: Node, source: Node, adv: map<Node, int>, k: Node)
    requires source in t && source !in adv && k in adv
    ensures var r, m := Merge(t, me, source, adv - {k}), Merge(t, me, source, adv);
      var r' := Process(r, me, source, k, adv[k]);
      source in r && (k in r' <==> k in m) && (k in m ==> r'[k] == m[k])
  {
    var r := Merge(t, me, source, adv - {k});
    assert k in r <==> k in t;
    assert source in r && r[source] == t[source];
  }

  /** The processing loop over any enumeration of an advert computes Merge: order is irrelevant. */
  lemma {:induction false} LoopIsMerge(t: Table, me: Node, source: Node, v: seq<(Node, int)>, adv: map<Node, int>)
    requires source in t && source !in adv && Enumerates(v, adv)
    ensures ProcessAll(t, me, source, v) == Merge(t, me, source, adv)
    decreases |v|
  {
    if v == [] {
      assert adv == map[];
    } else {
      var n := |v| - 1;
      EnumerateLess(v, adv);
      LoopIsMerge(t, me, source, v[..n], adv - {v[n].0});
      MergeOne(t, me, source, adv, v[n].0);
    }
  }

  /* ---- what a vector changes, destination by destination ---- */

  predicate Listed(v: seq<(Node, int)>, s: Node) {
    exists i :: 0 <= i < |v| && v[i].0 == s
  }

  predicate NoRepeats(v: seq<(Node, int)>) {
    forall i, j :: 0 <= i < j < |v| ==> v[i].0 != v[j].0
  }

  /**
   Destinations the vector of `source` does not list: what was learnt through `source` is forgotten,
   everything else stays, and only `source` itself may get a blank entry by being looked up.
   */
  ghost predicate Forgets(t: Table, t': Table, source: Node, v: seq<(Node, int)>) {
    forall s :: !Listed(v, s) ==>
      if s in t && (t[s].nextHop != source || t[s].name == source) then s in t' && t'[s] == t[s]
      else s in t' ==> s == source && t'[s].dist == -1 && !t'[s].neighbor && t'[s].peer == None
  }

  /** What router `me` makes of hearing from `source`, itself at distance `to`, that s is at distance d. */
  ghost predicate Hears(t: Table, t': Table, source: Node, to: int, s: Node, d: int) {
    s in t' &&
    if s !in t || (t[s].nextHop == source && t[s].name != source) then
      t'[s] == Entry(s, source, d + to, false, false, None)
    else
      var e, offered := t[s], if t[s].neighbor then d else d + to;
      if offered < e.dist || e.dist < 0 || (!e.neighbor && e.nextHop == source && e.dist != offered)
      then t'[s] == e.(nextHop := source, dist := offered) else t'[s] == e
  }

  lemma AdvertListed(v: seq<(Node, int)>, t: Table, client: Node)
    requires Enumerates(v, Advert(t, client))
    ensures forall k :: Listed(v, k) <==> k in t && k != client
  {
    var m := Advert(t, client);
    forall k
      ensures Listed(v, k) <==> k in t && k != client
    {
      if k in m {
        var i :| 0 <= i < |v| && v[i].0 == k;
      }
      if Listed(v, k) {
        var i :| 0 <= i < |v| && v[i].0 == k;
        assert v[i].0 in m;
      }
    }
  }

  lemma ListedFront(v: seq<(Node, int)>, s: Node)
    requires v != []
    ensures Listed(v, s) <==> Listed(v[..|v| - 1], s) || v[|v| - 1].0 == s
  {
    var n := |v| - 1;
    assert forall i :: 0 <= i < n ==> v[..n][i] == v[i];
    if Listed(v[..n], s) {
      var i :| 0 <= i < n && v[..n][i].0 == s;
      assert v[i].0 == s;
    }
    if Listed(v, s) && v[n].0 != s {
      var i :| 0 <= i < |v| && v[i].0 == s;
      assert v[..n][i].0 == s;
    }
  }

  lemma {:induction false} Untouched(t: Table, me: Node, source: Node, v: seq<(Node, int)>, s: Node)
    requires !Listed(v, s)
    ensures var r := ProcessAll(t, me, source, v);
      && (s in t ==> s in r && r[s] == t[s])
      && (s !in t && s in r ==> s == source && r[s] == DEFAULT_ENTRY)
    decreases |v|
  {
    if v != [] {
      ListedFront(v, s);
      Untouched(t, me, source, v[..|v| - 1], s);
    }
  }

  lemma VectorForgets(t: Table, me: Node, source: Node, v: seq<(Node, int)>)
    ensures Forgets(t, Receive(t, me, source, v), source, v)
  {
    hide ProcessAll;
    forall s | !Listed(v, s)
      ensures var t' := Receive(t, me, source, v);
        if s in t && (t[s].nextHop != source || t[s].name == source) then s in t' && t'[s] == t[s]
        else s in t' ==> s == source && t'[s].dist == -1 && !t'[s].neighbor && t'[s].peer == None
    {
      Untouched(DropStale(t, source), me, source, v, s);
    }
  }

  lemma {:induction false} PairHeard(t: Table, me: Node, source: Node, v: seq<(Node, int)>, i: nat)
    requires source in t && !Listed(v, source) && NoRepeats(v) && i < |v|
    ensures var (s, d) := v[i];
      var r, r' := ProcessAll(t, me, source, v), Process(t, me, source, s, d);
      && (s in r <==> s in r') && (s in r ==> r[s] == r'[s])
    decreases |v|
  {
    hide Process;
    var n := |v| - 1;
    var (s, d) := v[i];
    var p := ProcessAll(t, me, source, v[..n]);
    ListedFront(v, source);
    Untouched(t, me, source, v[..n], source);
    if i < n {
      PairHeard(t, me, source, v[..n], i);
      ProcessAtOther(p, me, source, v[n].0, v[n].1, s);
    } else {
      assert !Listed(v[..n], s);
      Untouched(t, me, source, v[..n], s);
      SameProcess(t, p, me, source, s, d);
    }
  }

  lemma SameProcess(t: Table, p: Table, me: Node, source: Node, s: Node, d: int)
    requires source in t && source in p && t[source] == p[source] && s != source
    requires (s in t <==> s in p) && (s in t ==> t[s] == p[s])
    ensures var r, r' := Process(t, me, source, s, d), Process(p, me, source, s, d);
      (s in r <==> s in r') && (s in r ==> r[s] == r'[s])
  {
  }

  /** Every listed destination is decided on its own, from what was known of it and of the sender. */
  lemma VectorHears(t: Table, me: Node, source: Node, v: seq<(Node, int)>, i: nat)
    requires source in t && (t[source].nextHop != source || t[source].name == source)
    requires !Listed(v, source) && NoRepeats(v) && i < |v| && v[i].0 != me
    ensures Hears(t, Receive(t, me, source, v), source, t[source].dist, v[i].0, v[i].1)
  {
    hide ProcessAll;
    PairHeard(DropStale(t, source), me, source, v, i);
  }

  /** What a neighbour list does to the table of router `me`, pair by pair. */
  function Introduce(t: Table, me: Node, s: Node, cost: int): Table {
    if s == me then t
    else if s !in t then t[s := NeighborEntry(s, cost)]
    else if !t[s].complete then t[s := t[s].(dist := cost, neighbor := true, complete := true)]
    else t[s := t[s].(dist := cost)]
  }

  function IntroduceAll(t: Table, me: Node, v: seq<(Node, int)>): Table {
    if v == [] then t
    else Introduce(IntroduceAll(t, me, v[..|v| - 1]), me, v[|v| - 1].0, v[|v| - 1].1)
  }

  predicate Lost(k: Node, e: Entry, names: set<Node>) {
    if e.neighbor then k !in names else e.nextHop !in names
  }

  function Names(v: seq<(Node, int)>): set<Node> {
    if v == [] then {} else Names(v[..|v| - 1]) + {v[|v| - 1].0}
  }

  function KeepLinked(t: Table, names: set<Node>): Table {
    map k | k in t && !Lost(k, t[k], names) :: t[k]
  }

  function Neighborhood(t: Table, me: Node, v: seq<(Node, int)>): Table {
    if v == [] then map[]
    else KeepLinked(IntroduceAll(t, me, v), Names(v))
  }

  /* ---- what a neighbour list changes, destination by destination ---- */

  /** An entry stays if it is a listed neighbour's or goes through a listed neighbour. */
  predicate Stays(v: seq<(Node, int)>, s: Node, e: Entry) {
    Listed(v, if e.neighbor then s else e.nextHop)
  }

  /** A listed neighbour other than the router itself gets the new weight, and is introduced if it was not complete. */
  ghost predicate Introduced(t: Table, t': Table, v: seq<(Node, int)>, s: Node, cost: int) {
    var e :=
      if s !in t then Entry(s, s, cost, true, true, Some(s))
      else if t[s].complete then t[s].(dist := cost)
      else t[s].(dist := cost, neighbor := true, complete := true);
    if Stays(v, s, e) then s in t' && t'[s] == e else s !in t'
  }

  /** Everything else stays as it is or goes: unlisted neighbours, and destinations behind them. */
  ghost predicate Prunes(t: Table, t': Table, me: Node, v: seq<(Node, int)>) {
    forall s :: !Listed(v, s) || s == me ==>
      if s in t && Stays(v, s, t[s]) then s in t' && t'[s] == t[s] else s !in t'
  }

  lemma {:induction false} NamesListed(v: seq<(Node, int)>, s: Node)
    ensures s in Names(v) <==> Listed(v, s)
    decreases |v|
  {
    if v != [] {
      ListedFront(v, s);
      NamesListed(v[..|v| - 1], s);
    }
  }

  lemma {:induction false} IntroducedElsewhere(t: Table, me: Node, v: seq<(Node, int)>, s: Node)
    requires !Listed(v, s) || s == me
    ensures var r := IntroduceAll(t, me, v);
      (s in r <==> s in t) && (s in t ==> r[s] == t[s])
    decreases |v|
  {
    if v != [] {
      ListedFront(v, s);
      IntroducedElsewhere(t, me, v[..|v| - 1], s);
    }
  }

  lemma {:induction false} IntroducedOnce(t: Table, me: Node, v: seq<(Node, int)>, i: nat)
    requires NoRepeats(v) && i < |v|
    ensures var (s, cost) := v[i];
      var r, r' := IntroduceAll(t, me, v), Introduce(t, me, s, cost);
      (s in r <==> s in r') && (s in r ==> r[s] == r'[s])
    decreases |v|
  {
    var n := |v| - 1;
    if i < n {
      IntroducedOnce(t, me, v[..n], i);
    } else {
      assert !Listed(v[..n], v[n].0);
      IntroducedElsewhere(t, me, v[..n], v[n].0);
    }
  }

  lemma KeptLinked(t: Table, v: seq<(Node, int)>, s: Node)
    ensures var r := KeepLinked(t, Names(v));
      (s in r <==> s in t && Stays(v, s, t[s])) && (s in r ==> r[s] == t[s])
  {
    hide Names, Listed;
    if s in t {
      NamesListed(v, s);
      NamesListed(v, t[s].nextHop);
    }
  }

  lemma ListPrunes(t: Table, me: Node, v: seq<(Node, int)>)
    requires v != []
    ensures Prunes(t, Neighborhood(t, me, v), me, v)
  {
    hide IntroduceAll, KeepLinked, Names, Listed;
    forall s | !Listed(v, s) || s == me
      ensures var t' := Neighborhood(t, me, v);
        if s in t && Stays(v, s, t[s]) then s in t' && t'[s] == t[s] else s !in t'
    {
      IntroducedElsewhere(t, me, v, s);
      KeptLinked(IntroduceAll(t, me, v), v, s);
    }
  }

  lemma ListIntroduces(t: Table, me: Node, v: seq<(Node, int)>, i: nat)
    requires NoRepeats(v) && i < |v| && v[i].0 != me
    ensures Introduced(t, Neighborhood(t, me, v), v, v[i].0, v[i].1)
  {
    hide IntroduceAll, KeepLinked, Names, Listed;
    IntroducedOnce(t, me, v, i);
    KeptLinked(IntroduceAll(t, me, v), v, v[i].0);
  }

  class Router {
    const name: Node
    var table: Table

    constructor (name: Node)
      ensures this.name == name && table == map[]
    {
      this.name := name;
      table := map[];
    }

    /** The distance stored for k, after inserting a default entry if there is none. */
    method DistOf(k: Node) returns (d: int)
      modifies this`table
      ensures table == Touch(old(table), k) && d == table[k].dist
    {
      if k !in table {
        table := table[k := DEFAULT_ENTRY];
      }
      d := table[k].dist;
    }

    method DropStaleEntries(source: Node)
      modifies this`table
      ensures table == DropStale(old(table), source)
    {
      var rest := table.Keys;
      while rest != {}
        invariant rest <= old(table).Keys
        invariant table == map k | k in old(table) && (k in rest || !Stale(old(table)[k], source)) :: old(table)[k]
        decreases |rest|
      {
        var k :| k in rest;
        if table[k].name != table[k].nextHop && table[k].nextHop == source {
          table := table - {k};
        }
        rest := rest - {k};
      }
    }

    /** One pair of a vector received from `source`. */
    method ParsePair(s: Node, dist: int, source: Node)
      modifies this`table
      ensures table == Process(old(table), name, source, s, dist)
    {
      if s != name {
        if s in table {
          var better := table[s].neighbor && dist < table[s].dist;
          if !better && !table[s].neighbor {
            var toSource := DistOf(source);
            better := dist + toSource < table[s].dist
                   || (table[s].nextHop == source && table[s].dist != dist + toSource);
          }
          if better || table[s].dist < 0 {
            table := table[s := table[s].(nextHop := source)];
            if !table[s].neighbor {
              var toSource := DistOf(source);
              table := table[s := table[s].(dist := dist + toSource)];
            } else {
              table := table[s := table[s].(dist := dist)];
            }
          }
        } else {
          var toSource := DistOf(source);
          table := table[s := Learned(s, source, dist + toSource)];
        }
      }
    }

    /** A vector received from `source`. */
    method ParseVector(v: seq<(Node, int)>, source: Node)
      modifies this`table
      ensures table == Receive(old(table), name, source, v)
      ensures Forgets(old(table), table, source, v)
      ensures source in old(table) && (old(table)[source].nextHop != source || old(table)[source].name == source)
              && !Listed(v, source) && NoRepeats(v) ==>
        forall i :: 0 <= i < |v| && v[i].0 != name ==>
          Hears(old(table), table, source, old(table)[source].dist, v[i].0, v[i].1)
    {
      hide Process, Hears, Forgets;
      DropStaleEntries(source);
      ghost var start := table;
      for i := 0 to |v|
        invariant table == ProcessAll(start, name, source, v[..i])
      {
        assert v[..i + 1][..i] == v[..i];
        ParsePair(v[i].0, v[i].1, source);
      }
      assert v[..|v|] == v;
      ghost var t := old(table);
      VectorForgets(t, name, source, v);
      if source in t && (t[source].nextHop != source || t[source].name == source) && !Listed(v, source) && NoRepeats(v) {
        forall i | 0 <= i < |v| && v[i].0 != name
          ensures Hears(t, table, source, t[source].dist, v[i].0, v[i].1)
        {
          VectorHears(t, name, source, v, i);
        }
      }
    }

    method DropUnlinked(names: set<Node>)
      modifies this`table
      ensures table == KeepLinked(old(table), names)
    {
      var rest := table.Keys;
      while rest != {}
        invariant rest <= old(table).Keys
        invariant table == map k | k in old(table) && (k in rest || !Lost(k, old(table)[k], names)) :: old(table)[k]
        decreases |rest|
      {
        var k :| k in rest;
        if (k !in names && table[k].neighbor) || (table[k].nextHop !in names && !table[k].neighbor) {
          table := table - {k};
        }
        rest := rest - {k};
      }
    }

    /** A neighbour list received from the controller. */
    method ParseNeighborhood(v: seq<(Node, int)>)
      modifies this`table
      ensures table == Neighborhood(old(table), name, v)
      ensures v == [] ==> table == map[]
      ensures v != [] ==> Prunes(old(table), table, name, v)
      ensures NoRepeats(v) ==>
        forall i :: 0 <= i < |v| && v[i].0 != name ==> Introduced(old(table), table, v, v[i].0, v[i].1)
    {
      hide Prunes, Introduced;
      if v != [] {
        var names: set<Node> := {};
        for i := 0 to |v|
          invariant table == IntroduceAll(old(table), name, v[..i])
          invariant names == Names(v[..i])
        {
          var (s, cost) := v[i];
          assert v[..i + 1][..i] == v[..i];
          names := names + {s};
          if s != name {
            if s !in table {
              table := table[s := NeighborEntry(s, cost)];
            } else if !table[s].complete {
              table := table[s := table[s].(dist := cost, neighbor := true, complete := true)];
            } else {
              table := table[s := table[s].(dist := cost)];
            }
          }
        }
        assert v[..|v|] == v;
        DropUnlinked(names);
        ghost var t := old(table);
        ListPrunes(t, name, v);
        if NoRepeats(v) {
          forall i | 0 <= i < |v| && v[i].0 != name
            ensures Introduced(t, table, v, v[i].0, v[i].1)
          {
            ListIntroduces(t, name, v, i);
          }
        }
      } else {
        table := map[];
      }
    }

    /** The vector sent to `client`. */
    method Vector(client: Node) returns (v: seq<(Node, int)>)
      ensures Enumerates(v, Advert(table, client))
      ensures NoRepeats(v) && (forall k :: Listed(v, k) <==> k in table && k != client)
      ensures forall i :: 0 <= i < |v| ==> v[i].0 in table && v[i].1 == table[v[i].0].dist
    {
      v := [];
      var rest := table.Keys;
      while rest != {}
        invariant rest <= table.Keys
        invariant Enumerates(v, map k | k in table && k != client && k !in rest :: table[k].dist)
        decreases |rest|
      {
        var k :| k in rest;
        ghost var done := map k | k in table && k != client && k !in rest :: table[k].dist;
        rest := rest - {k};
        ghost var done' := map k | k in table && k != client && k !in rest :: table[k].dist;
        if k != client {
          EnumerateMore(v, done, k, table[k].dist);
          assert done' == done[k := table[k].dist];
          v := v + [(k, table[k].dist)];
        } else {
          assert done' == done;
        }
      }
      assert Advert(table, client) == map k | k in table && k != client && k !in rest :: table[k].dist;
      AdvertListed(v, table, client);
    }

    /** The connection packets for s leave by; None stands for the unknown-destination exception. */
    method NextClient(s: Node) returns (r: Option<Option<Node>>)
      modifies this`table
      ensures s !in old(table) ==> r == None && table == old(table)
      ensures s in old(table) ==>
        && table == Touch(old(table), old(table)[s].nextHop)
        && r == Some(table[old(table)[s].nextHop].peer)
    {
      if s in table {
        var h := table[s].nextHop;
        if h !in table {
          table := table[h := DEFAULT_ENTRY];
        }
        r := Some(table[h].peer);
      } else {
        r := None;
      }
    }
  }
}
