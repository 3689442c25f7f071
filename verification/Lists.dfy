/**
 The bracketed lists of the protocol: how routers take them apart with strtok and atoi, and that this
 gives back what the controller and the routers have put into them.
 */
module Lists {
  import opened Wrappers
  import opened Topology
  import opened RouteTable
  import opened DistanceVector
  import C = Controller
  import Decimal

  /* ---- pieces ---- */

  /** The position of the first d, or the length. */
  function Until(s: string, d: char): (k: nat)
    ensures k <= |s| && d !in s[..k] && (k < |s| ==> s[k] == d)
  {
    if s == "" || s[0] == d then 0
    else
      var k := Until(s[1..], d);
      assert s[..k + 1] == [s[0]] + s[1..][..k];
      1 + k
  }

  /** What repeated calls of strtok with the delimiter d return: the non-empty pieces between delimiters. */
  function Pieces(s: string, d: char): seq<string> {
    if s == "" then []
    else if s[0] == d then Pieces(s[1..], d)
    else [s[..Until(s, d)]] + Pieces(s[Until(s, d)..], d)
  }

  lemma {:induction false} UntilEnd(p: string, d: char, rest: string)
    requires d !in p && (rest == "" || rest[0] == d)
    ensures Until(p + rest, d) == |p|
    decreases |p|
  {
    if p != "" {
      assert (p + rest)[1..] == p[1..] + rest;
      UntilEnd(p[1..], d, rest);
    } else {
      assert p + rest == rest;
    }
  }

  lemma PieceStep(p: string, d: char, rest: string)
    requires p != "" && d !in p && (rest == "" || rest[0] == d)
    ensures Pieces(p + rest, d) == [p] + Pieces(rest, d)
  {
    hide Until;
    UntilEnd(p, d, rest);
    var s := p + rest;
    assert s[..|p|] == p && s[|p|..] == rest && s[0] == p[0];
  }

  lemma SkipDelimiter(d: char, rest: string)
    ensures Pieces([d] + rest, d) == Pieces(rest, d)
    ensures Pieces("", d) == []
  {
    assert ([d] + rest)[1..] == rest;
  }

  lemma OnePiece(p: string, d: char)
    requires p != "" && d !in p
    ensures Pieces(p, d) == [p]
  {
    hide Pieces;
    PieceStep(p, d, "");
    SkipDelimiter(d, "");
    assert p + "" == p;
  }

  lemma FirstPiece(p: string, d: char, rest: string)
    requires p != "" && d !in p
    ensures Pieces(p + [d] + rest, d) == [p] + Pieces(rest, d)
  {
    hide Pieces;
    assert p + [d] + rest == p + ([d] + rest);
    PieceStep(p, d, [d] + rest);
    SkipDelimiter(d, rest);
  }

  lemma TwoPieces(p: string, q: string, d: char)
    requires p != "" && q != "" && d !in p && d !in q
    ensures Pieces(p + [d] + q, d) == [p, q]
  {
    hide Pieces;
    FirstPiece(p, d, q);
    OnePiece(q, d);
  }

  /** A string is a piece and what follows it, or begins with a delimiter. */
  lemma Cut(s: string, d: char) returns (p: string, rest: string)
    requires s != "" && s[0] != d
    ensures s == p + rest && p != "" && d !in p && (rest == "" || rest[0] == d) && |rest| < |s|
  {
    var k := Until(s, d);
    p, rest := s[..k], s[k..];
  }

  /** Behind a delimiter the splitting starts afresh. */
  lemma {:induction false} MorePieces(s: string, t: string, d: char)
    requires s == "" || s[|s| - 1] == d
    ensures Pieces(s + t, d) == Pieces(s, d) + Pieces(t, d)
    decreases |s|
  {
    hide Pieces;
    if s == "" {
      SkipDelimiter(d, "");
      assert s + t == t;
    } else if s[0] == d {
      assert s == [d] + s[1..] && s + t == [d] + (s[1..] + t);
      SkipDelimiter(d, s[1..]);
      SkipDelimiter(d, s[1..] + t);
      MorePieces(s[1..], t, d);
    } else {
      var p, rest := Cut(s, d);
      assert s + t == p + (rest + t);
      assert s[|p| - 1] == p[|p| - 1] && p[|p| - 1] in p;
      PieceStep(p, d, rest);
      PieceStep(p, d, rest + t);
      MorePieces(rest, t, d);
    }
  }

  lemma {:induction false} LastDelimiter(s: string, d: char)
    ensures Pieces(s + [d], d) == Pieces(s, d)
    decreases |s|
  {
    hide Pieces;
    SkipDelimiter(d, "");
    if s == "" {
      assert s + [d] == [d] + "";
    } else if s[0] == d {
      assert s == [d] + s[1..] && s + [d] == [d] + (s[1..] + [d]);
      SkipDelimiter(d, s[1..]);
      SkipDelimiter(d, s[1..] + [d]);
      LastDelimiter(s[1..], d);
    } else {
      var p, rest := Cut(s, d);
      assert s + [d] == p + (rest + [d]);
      PieceStep(p, d, rest);
      PieceStep(p, d, rest + [d]);
      LastDelimiter(rest, d);
    }
  }

  /* ---- reading ---- */

  /** A neighbour as a router reads it from the controller's list. */
  datatype Item = Item(id: Node, weight: int, address: string, port: int)

  /** None stands for the use of a null pointer when a field is missing. */
  function ReadItem(s: string): Option<Item> {
    var fs := Pieces(s, ',');
    if |fs| < 3 then None
    else
      var ps := Pieces(fs[2], ':');
      if |ps| < 2 then None else Some(Item(fs[0], Decimal.Atoi(fs[1]), ps[0], Decimal.Atoi(ps[1])))
  }

  function ReadItems(ss: seq<string>): Option<seq<Item>> {
    if ss == [] then Some([])
    else
      match ReadItems(ss[..|ss| - 1])
      case None => None
      case Some(items) =>
        match ReadItem(ss[|ss| - 1])
        case None => None
        case Some(item) => Some(items + [item])
  }

  /** The list without its brackets. */
  function Inside(text: string): string
    requires |text| >= 2
  {
    text[1..|text| - 1]
  }

  function ReadList(text: string): Option<seq<Item>>
    requires |text| >= 2
  {
    ReadItems(Pieces(Inside(text), ';'))
  }

  /** What the router's table is told: identifiers and weights. */
  function PairsOf(items: seq<Item>): seq<(Node, int)> {
    seq(|items|, i requires 0 <= i < |items| => (items[i].id, items[i].weight))
  }

  /* ---- the controller's list reads back ---- */

  /** A name that none of the separators occurs in. */
  predicate IsClean(s: string) {
    s != "" && ',' !in s && ';' !in s && ':' !in s
  }

  lemma {:induction false} DigitsClean(n: nat)
    ensures IsClean(Decimal.Digits(n))
  {
    if n >= 10 {
      DigitsClean(n / 10);
    }
  }

  lemma PrintClean(n: int)
    ensures IsClean(Decimal.Print(n))
  {
    DigitsClean(if n < 0 then -n else n);
  }

  /** The end of e that is not n. */
  function FarEnd(e: C.Edge, n: Node): Node {
    if e.tail != n then e.tail else e.head
  }

  /** The edges of n with a connected other end, in the order of the graph. */
  function Due(edges: seq<C.Edge>, n: Node, connected: set<Node>): seq<C.Edge> {
    if edges == [] then []
    else
      var e := edges[|edges| - 1];
      Due(edges[..|edges| - 1], n, connected)
        + if (e.tail == n || e.head == n) && FarEnd(e, n) in connected then [e] else []
  }

  /** The items list exactly these edges: other end, weight, and the stored address and port of the other end. */
  ghost predicate ListsEdges(items: seq<Item>, due: seq<C.Edge>, n: Node, records: C.Records) {
    |items| == |due| &&
    forall i :: 0 <= i < |due| ==>
      var info := C.Record(records, FarEnd(due[i], n));
      && info.Some?
      && items[i] == Item(FarEnd(due[i], n), due[i].weight, info.value.address, info.value.port)
  }

  /** Names and addresses of the nodes in the list have no separators. */
  ghost predicate CleanRecords(s: C.State) {
    forall k :: k in s.connected ==>
      IsClean(k) && (C.Record(s.records, k).Some? ==> IsClean(C.Record(s.records, k).value.address))
  }

  lemma EntryReads(e: C.Edge, n: Node, info: C.Info)
    requires IsClean(FarEnd(e, n)) && IsClean(info.address)
    ensures var t := C.Entry(e, n, info);
      && t != "" && t[|t| - 1] == ';'
      && Pieces(t, ';') == [t[..|t| - 1]]
      && ReadItem(t[..|t| - 1]) == Some(Item(FarEnd(e, n), e.weight, info.address, info.port))
  {
    var id, w, a, q := FarEnd(e, n), Decimal.Print(e.weight), info.address, Decimal.Print(info.port);
    PrintClean(e.weight);
    PrintClean(info.port);
    var last := a + [':'] + q;
    var p := id + [','] + (w + [','] + last);
    var t := C.Entry(e, n, info);
    assert t == p + [';'];
    assert t[..|t| - 1] == p;
    assert p != "" && ';' !in p && ',' !in last;
    OnePiece(p, ';');
    LastDelimiter(p, ';');
    FirstPiece(id, ',', w + [','] + last);
    TwoPieces(w, last, ',');
    TwoPieces(a, q, ':');
    Decimal.AtoiPrint(e.weight);
    Decimal.AtoiPrint(info.port);
  }

  lemma ReadMore(ss: seq<string>, s: string)
    requires ReadItems(ss).Some? && ReadItem(s).Some?
    ensures ReadItems(ss + [s]) == Some(ReadItems(ss).value + [ReadItem(s).value])
  {
    assert (ss + [s])[..|ss|] == ss;
  }

  lemma EntriesMore(es: seq<C.Edge>, e: C.Edge, n: Node, connected: set<Node>, records: C.Records)
    ensures var r := C.Entries(es, n, connected, records);
      C.Entries(es + [e], n, connected, records) ==
        if r.None? then None
        else if FarEnd(e, n) !in connected then r
        else if C.Record(records, FarEnd(e, n)).None? then None
        else Some(r.value + C.Entry(e, n, C.Record(records, FarEnd(e, n)).value))
  {
    hide C.Record, C.Entry;
    assert (es + [e])[..|es|] == es;
  }

  /** What splitting and reading the entries gives. */
  ghost predicate Reads(r: string, due: seq<C.Edge>, n: Node, records: C.Records) {
    && (r == "" || r[|r| - 1] == ';')
    && ReadItems(Pieces(r, ';')).Some?
    && ListsEdges(ReadItems(Pieces(r, ';')).value, due, n, records)
  }

  lemma OneMoreRead(r: string, due: seq<C.Edge>, e: C.Edge, n: Node, records: C.Records)
    requires Reads(r, due, n, records) && IsClean(FarEnd(e, n))
    requires C.Record(records, FarEnd(e, n)).Some? && IsClean(C.Record(records, FarEnd(e, n)).value.address)
    ensures Reads(r + C.Entry(e, n, C.Record(records, FarEnd(e, n)).value), due + [e], n, records)
  {
    hide C.Record, C.Entry, Pieces, ReadItem, ReadItems, IsClean;
    var info := C.Record(records, FarEnd(e, n)).value;
    var t := C.Entry(e, n, info);
    EntryReads(e, n, info);
    MorePieces(r, t, ';');
    ReadMore(Pieces(r, ';'), t[..|t| - 1]);
  }

  /** The entries of the edges of n, split at the semicolons. */
  lemma {:induction false} EntriesRead(edges: seq<C.Edge>, n: Node, connected: set<Node>, records: C.Records)
    requires forall k :: k in connected ==>
      IsClean(k) && (C.Record(records, k).Some? ==> IsClean(C.Record(records, k).value.address))
    ensures var r := C.Entries(C.Incident(edges, n), n, connected, records);
      r.Some? ==> Reads(r.value, Due(edges, n, connected), n, records)
    decreases |edges|
  {
    hide C.Record, C.Entry, C.Entries, IsClean, Reads;
    if edges == [] {
      EmptyReads(n, connected, records);
    } else {
      var e, front := edges[|edges| - 1], edges[..|edges| - 1];
      EntriesRead(front, n, connected, records);
      EntriesMore(C.Incident(front, n), e, n, connected, records);
      var r := C.Entries(C.Incident(front, n), n, connected, records);
      assert C.Incident(front, n) + [] == C.Incident(front, n) && Due(front, n, connected) + [] == Due(front, n, connected);
      if r.Some? && FarEnd(e, n) in connected && C.Record(records, FarEnd(e, n)).Some? {
        OneMoreRead(r.value, Due(front, n, connected), e, n, records);
      }
    }
  }

  lemma EmptyReads(n: Node, connected: set<Node>, records: C.Records)
    ensures C.Entries([], n, connected, records) == Some("") && Reads("", [], n, records)
  {
  }

  /**
   The list a poll is answered with reads back as exactly the edges of n with a connected other end, in
   the order of the graph: each with that end, its weight, and the address and port stored for it.
   */
  lemma PollReadsBack(s: C.State, n: Node)
    requires CleanRecords(s) && C.Poll(s, n).1.NewList?
    ensures var list := C.Poll(s, n).1.list;
      && |list| >= 2 && list[0] == '[' && list[|list| - 1] == ']'
      && ReadList(list).Some? && ListsEdges(ReadList(list).value, Due(s.edges, n, s.connected), n, s.records)
  {
    hide C.Record, C.Entries, Pieces, ReadItems, IsClean, ListsEdges;
    EntriesRead(s.edges, n, s.connected, s.records);
    var r := C.Entries(C.Incident(s.edges, n), n, s.connected, s.records).value;
    var list := C.ListFor(s, n).value;
    if r == "" {
      assert Inside(list) == r;
    } else {
      assert Inside(list) == r[..|r| - 1];
      assert r == r[..|r| - 1] + [';'];
      LastDelimiter(r[..|r| - 1], ';');
    }
  }

  /* ---- from the controller's graph to the routers' tables ---- */

  /** g is the network of the connected nodes. */
  ghost predicate Depicts(g: Graph, s: C.State) {
    && (forall k :: k in s.connected ==> k in g.nodes)
    && (forall e :: e in s.edges && e.tail in s.connected && e.head in s.connected ==>
          && Linked(g, e.tail, e.head) && g.cost[(e.tail, e.head)] == e.weight
          && Linked(g, e.head, e.tail) && g.cost[(e.head, e.tail)] == e.weight)
    && (forall a, b :: Linked(g, a, b) ==>
          a in s.connected && b in s.connected && exists e :: e in s.edges && C.Joins(e, a, b))
  }

  lemma {:induction false} DueMembers(edges: seq<C.Edge>, n: Node, connected: set<Node>)
    ensures forall e :: e in Due(edges, n, connected) <==>
      e in edges && (e.tail == n || e.head == n) && FarEnd(e, n) in connected
    decreases |edges|
  {
    if edges != [] {
      var front := edges[..|edges| - 1];
      DueMembers(front, n, connected);
      assert forall e :: e in edges <==> e in front || e == edges[|edges| - 1];
    }
  }

  lemma {:induction false} DueDistinct(edges: seq<C.Edge>, n: Node, connected: set<Node>)
    requires C.Simple(edges)
    ensures DistinctEnds(Due(edges, n, connected), n)
    decreases |edges|
  {
    if edges != [] {
      var front, e := edges[..|edges| - 1], edges[|edges| - 1];
      DueDistinct(front, n, connected);
      if e.tail == n || e.head == n {
        forall d | d in Due(front, n, connected)
          ensures FarEnd(d, n) != FarEnd(e, n)
        {
          DueMembers(front, n, connected);
          var k :| 0 <= k < |front| && front[k] == d;
          assert edges[k] == d && edges[|edges| - 1] == e && !C.Joins(e, edges[k].tail, edges[k].head);
        }
        DistinctMore(Due(front, n, connected), e, n);
      }
      assert Due(front, n, connected) + [] == Due(front, n, connected);
    }
  }

  ghost predicate DistinctEnds(due: seq<C.Edge>, n: Node) {
    forall i, j :: 0 <= i < j < |due| ==> FarEnd(due[i], n) != FarEnd(due[j], n)
  }

  lemma DistinctMore(due: seq<C.Edge>, e: C.Edge, n: Node)
    requires DistinctEnds(due, n) && forall d :: d in due ==> FarEnd(d, n) != FarEnd(e, n)
    ensures DistinctEnds(due + [e], n)
  {
    hide FarEnd;
    assert forall i :: 0 <= i < |due| ==> due[i] in due;
  }

  lemma DueLinked(g: Graph, s: C.State, n: Node, e: C.Edge)
    requires Depicts(g, s) && n in s.connected && e in Due(s.edges, n, s.connected)
    ensures Linked(g, n, FarEnd(e, n)) && g.cost[(n, FarEnd(e, n))] == e.weight && FarEnd(e, n) in g.nodes
  {
    DueMembers(s.edges, n, s.connected);
  }

  lemma EdgeOf(g: Graph, s: C.State, n: Node, k: Node) returns (e: C.Edge)
    requires Depicts(g, s) && Linked(g, n, k)
    ensures e in s.edges && (e.tail == n || e.head == n) && FarEnd(e, n) == k && k in s.connected
  {
    e :| e in s.edges && C.Joins(e, n, k);
  }

  lemma LinkedDue(g: Graph, s: C.State, n: Node, k: Node) returns (i: nat)
    requires Depicts(g, s) && Linked(g, n, k)
    ensures i < |Due(s.edges, n, s.connected)| && FarEnd(Due(s.edges, n, s.connected)[i], n) == k
  {
    hide Depicts, Due;
    var e := EdgeOf(g, s, n, k);
    DueMembers(s.edges, n, s.connected);
    assert e in Due(s.edges, n, s.connected);
    i :| 0 <= i < |Due(s.edges, n, s.connected)| && Due(s.edges, n, s.connected)[i] == e;
  }

  /** The identifiers and weights a connected node reads are its links in the network, each once. */
  lemma ListEnumerates(g: Graph, s: C.State, n: Node, items: seq<Item>)
    requires Depicts(g, s) && C.Simple(s.edges) && n in s.connected
    requires ListsEdges(items, Due(s.edges, n, s.connected), n, s.records)
    ensures Enumerates(PairsOf(items), map k | k in g.nodes && Linked(g, n, k) :: g.cost[(n, k)])
  {
    hide C.Record, Depicts, Due, C.Simple, FarEnd;
    var due, v := Due(s.edges, n, s.connected), PairsOf(items);
    var m := map k | k in g.nodes && Linked(g, n, k) :: g.cost[(n, k)];
    DueDistinct(s.edges, n, s.connected);
    forall i | 0 <= i < |v| ensures v[i].0 in m && m[v[i].0] == v[i].1 {
      DueLinked(g, s, n, due[i]);
    }
    forall k | k in m ensures exists i :: 0 <= i < |v| && v[i].0 == k {
      var i := LinkedDue(g, s, n, k);
      assert v[i].0 == k;
    }
  }

  /**
   From the controller to the tables of the routing protocol: a router that starts with an empty table
   and reads the list it is polled gets its initial table in the network of the connected nodes.
   */
  lemma PollInits(g: Graph, s: C.State, n: Node)
    requires CleanRecords(s) && C.Poll(s, n).1.NewList?
    requires WellFormed(g) && Depicts(g, s) && C.Simple(s.edges) && n in s.connected && exists k :: Linked(g, n, k)
    ensures var items := ReadList(C.Poll(s, n).1.list);
      items.Some? && Neighborhood(map[], n, PairsOf(items.value)) == InitTable(g, n)
  {
    hide C.Poll, ReadList, ListsEdges, CleanRecords, Depicts, Neighborhood, InitTable, PairsOf;
    PollReadsBack(s, n);
    var v := PairsOf(ReadList(C.Poll(s, n).1.list).value);
    ListEnumerates(g, s, n, ReadList(C.Poll(s, n).1.list).value);
    var m := map k | k in g.nodes && Linked(g, n, k) :: g.cost[(n, k)];
    var k :| Linked(g, n, k);
    assert k in m;
    NeighborhoodInits(g, n, v);
  }

  /* ---- vectors ---- */

  function PrintPair(p: (Node, int)): string {
    p.0 + [','] + Decimal.Print(p.1)
  }

  function PrintPairs(v: seq<(Node, int)>): string {
    if v == [] then ""
    else PrintPairs(v[..|v| - 1]) + (if |v| > 1 then [';'] else []) + PrintPair(v[|v| - 1])
  }

  /** The vector as it is sent. */
  function PrintVector(v: seq<(Node, int)>): string {
    "[" + PrintPairs(v) + "]"
  }

  function ReadPair(s: string): Option<(Node, int)> {
    var fs := Pieces(s, ',');
    if |fs| < 2 then None else Some((fs[0], Decimal.Atoi(fs[1])))
  }

  function ReadPairs(ss: seq<string>): Option<seq<(Node, int)>> {
    if ss == [] then Some([])
    else
      match ReadPairs(ss[..|ss| - 1])
      case None => None
      case Some(v) =>
        match ReadPair(ss[|ss| - 1])
        case None => None
        case Some(p) => Some(v + [p])
  }

  function ReadVector(text: string): Option<seq<(Node, int)>>
    requires |text| >= 2
  {
    ReadPairs(Pieces(Inside(text), ';'))
  }

  lemma PairReads(p: (Node, int))
    requires IsClean(p.0)
    ensures PrintPair(p) != "" && ';' !in PrintPair(p) && ReadPair(PrintPair(p)) == Some(p)
  {
    PrintClean(p.1);
    Decimal.AtoiPrint(p.1);
    TwoPieces(p.0, Decimal.Print(p.1), ',');
  }

  lemma {:induction false} PairsRead(v: seq<(Node, int)>)
    requires forall i :: 0 <= i < |v| ==> IsClean(v[i].0)
    ensures ReadPairs(Pieces(PrintPairs(v), ';')) == Some(v)
    decreases |v|
  {
    hide Pieces, ReadPair, PrintPair, IsClean;
    if v == [] {
      SkipDelimiter(';', "");
    } else {
      var front, p := v[..|v| - 1], PrintPair(v[|v| - 1]);
      PairsRead(front);
      PairReads(v[|v| - 1]);
      OnePiece(p, ';');
      var start := PrintPairs(front) + if |v| > 1 then [';'] else [];
      if |v| > 1 {
        LastDelimiter(PrintPairs(front), ';');
      } else {
        assert PrintPairs(front) + [] == PrintPairs(front) == "";
      }
      MorePieces(start, p, ';');
      var ss := Pieces(PrintPairs(front), ';');
      assert (ss + [p])[..|ss|] == ss;
      assert front + [v[|v| - 1]] == v;
    }
  }

  /** A router that takes the text of a vector apart gets the pairs its neighbour wrote. */
  lemma VectorReadsBack(v: seq<(Node, int)>)
    requires forall i :: 0 <= i < |v| ==> IsClean(v[i].0)
    ensures ReadVector(PrintVector(v)) == Some(v)
  {
    hide Pieces, ReadPairs, PrintPairs;
    PairsRead(v);
    assert Inside(PrintVector(v)) == PrintPairs(v);
  }
}
