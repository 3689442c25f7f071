/** The controller as an object over the table of client records, with the loops of the original. */
module ControllerExec {
  import opened Wrappers
  import opened Controller
  import Decimal
  import HashTable
  import InfoTable

  class Session {
    var loaded: bool
    var nodes: seq<Id>
    var edges: seq<Edge>
    var connected: set<Id>
    var upToDate: set<Id>
    const table: InfoTable.ClientTable<Info>

    constructor ()
      ensures Valid() && View() == START && fresh(table) && fresh(table.table)
    {
      table := new InfoTable.ClientTable<Info>();
      loaded, nodes, edges, connected, upToDate := false, [], [], {}, {};
    }

    ghost predicate Valid()
      reads this, table, table.table
    {
      table.Coherent()
    }

    ghost function View(): State
      reads this, table, table.table
      requires Valid()
    {
      State(loaded, nodes, edges, connected, upToDate, table.table.View())
    }

    /** A new graph, all of whose nodes start disconnected and out of date. */
    method OnLoad(graph: Option<(seq<Id>, seq<Edge>)>) returns (ok: bool)
      requires Valid()
      modifies this
      ensures ok == graph.Some?
      ensures Valid()
      ensures View() == if ok then Load(old(View()), graph.value.0, graph.value.1) else LoadFails(old(View()))
      ensures (nodes, edges) == (if ok then graph.value else ([], [])) && connected == {} && upToDate == {} && loaded == ok
    {
      loaded := graph.Some?;
      ok := loaded;
      connected, upToDate := {}, {};
      if ok {
        nodes, edges := graph.value.0, graph.value.1;
      } else {
        nodes, edges := [], [];
      }
    }

    method EdgeBetween(a: Id, b: Id) returns (i: nat)
      ensures i == FindEdge(edges, a, b)
    {
      i := 0;
      while i < |edges| && !Joins(edges[i], a, b)
        invariant i <= FindEdge(edges, a, b)
      {
        i := i + 1;
      }
    }

    method OnAddLink(a: Id, b: Id, w: int) returns (ok: bool)
      requires Valid()
      requires Allowed(View(), Op.OnAddLink(a, b, w))
      modifies this
      ensures ok == loaded == old(loaded)
      ensures Valid()
      ensures View() == if ok then AddLink(old(View()), a, b, w) else old(View())
    {
      ok := loaded;
      if ok {
        var e := EdgeBetween(a, b);
        if e == |edges| {
          edges := edges + [Edge(a, b, w)];
          upToDate := upToDate - {a};
          upToDate := upToDate - {b};
          assert upToDate == old(upToDate) - {a, b};
        }
      }
    }

    method OnUpdateLink(a: Id, b: Id, w: int) returns (ok: bool)
      requires Valid()
      requires Allowed(View(), Op.OnUpdateLink(a, b, w))
      modifies this
      ensures ok == loaded == old(loaded)
      ensures Valid()
      ensures View() == if ok then UpdateLink(old(View()), a, b, w) else old(View())
    {
      ok := loaded;
      if ok {
        var e := EdgeBetween(a, b);
        if e < |edges| {
          upToDate := upToDate - {edges[e].head};
          upToDate := upToDate - {edges[e].tail};
          edges := edges[e := edges[e].(weight := w)];
          assert upToDate == old(upToDate) - {a, b};
        }
      }
    }

    method OnDelLink(a: Id, b: Id) returns (ok: bool)
      requires Valid()
      requires Allowed(View(), Op.OnDelLink(a, b))
      modifies this
      ensures ok == loaded == old(loaded)
      ensures Valid()
      ensures View() == if ok then DelLink(old(View()), a, b) else old(View())
    {
      ok := loaded;
      if ok {
        var e := EdgeBetween(a, b);
        if e < |edges| {
          upToDate := upToDate - {edges[e].head};
          upToDate := upToDate - {edges[e].tail};
          edges := edges[..e] + edges[e + 1..];
          assert upToDate == old(upToDate) - {a, b};
        }
      }
    }

    /** The first edge of n. */
    method FirstEdge(n: Id) returns (i: nat)
      ensures i <= |edges| && (forall j :: 0 <= j < i ==> !Touches(edges[j], n))
      ensures i < |edges| ==> Touches(edges[i], n)
    {
      i := 0;
      while i < |edges| && !Touches(edges[i], n)
        invariant i <= |edges| && forall j :: 0 <= j < i ==> !Touches(edges[j], n)
      {
        i := i + 1;
      }
    }

    /** Deletes the edges of n one by one, marking the node at the other end. */
    method OnDisconnect(n: Id) returns (ok: bool)
      requires Valid()
      modifies this`edges, this`upToDate
      ensures ok == loaded
      ensures Valid()
      ensures View() == if ok then Disconnect(old(View()), n) else old(View())
    {
      hide Detached, Neighbors;
      ok := loaded;
      if ok && n in nodes {
        upToDate := upToDate - {n};
        var e: nat := FirstEdge(n);
        while e < |edges|
          invariant e <= |edges| && (forall j :: 0 <= j < e ==> !Touches(edges[j], n))
          invariant e < |edges| ==> Touches(edges[e], n)
          invariant Detached(edges, n) == Detached(old(edges), n)
          invariant upToDate - Neighbors(edges, n) == old(upToDate) - {n} - Neighbors(old(edges), n)
          decreases |edges|
        {
          if edges[e].head != n {
            upToDate := upToDate - {edges[e].head};
          } else {
            upToDate := upToDate - {edges[e].tail};
          }
          DetachOne(edges, e, n);
          edges := edges[..e] + edges[e + 1..];
          e := FirstEdge(n);
        }
        NothingToDetach(edges, n);
      }
    }

    /** Walks the edges of n, marking the node at the other end of each. */
    method MarkNeighbors(n: Id)
      modifies this`upToDate
      ensures upToDate == old(upToDate) - Neighbors(edges, n)
    {
      var es := Incident(edges, n);
      for i := 0 to |es|
        invariant upToDate == old(upToDate) - Others(es[..i], n)
      {
        assert es[..i + 1][..i] == es[..i];
        var n2 := if es[i].tail != n then es[i].tail else es[i].head;
        upToDate := upToDate - {n2};
      }
      assert es[..|es|] == es;
    }

    /** The first node, in order, that is not connected. */
    method FirstFreeNode() returns (r: Option<Id>)
      ensures r == FirstFree(nodes, connected)
    {
      var i := 0;
      while i < |nodes| && nodes[i] in connected
        invariant 0 <= i <= |nodes|
        invariant FirstFree(nodes, connected) == FirstFree(nodes[i..], connected)
      {
        i := i + 1;
      }
      r := if i < |nodes| then Some(nodes[i]) else None;
    }

    /** Grants a node, records the address and tells the neighbours' flags. */
    method OnLogin(wanted: Option<Id>, from: Info) returns (granted: Option<Id>)
      requires loaded && Valid() && table.table.keyCount + 1 < HashTable.MAX_KEYS
      modifies this`upToDate, this`connected, table, table.table
      ensures Valid() && granted == Grant(old(View()), wanted)
      ensures View() == Login(old(View()), wanted, from)
    {
      if wanted.None? {
        granted := FirstFreeNode();
      } else {
        granted := wanted;
        if wanted.value !in nodes || wanted.value in connected {
          granted := FirstFreeNode();
        }
      }
      if granted.Some? {
        var n1 := granted.value;
        var _ := table.AddInfo(n1, from);
        MarkNeighbors(n1);
        connected := connected + {n1};
        upToDate := upToDate - {n1};
      }
    }

    static method AppendEntry(text: string, e: Edge, n: Id, info: Info) returns (t: string)
      ensures var entry := Entry(e, n, info);
        t == text + entry && entry != "" && entry[|entry| - 1] == ';'
    {
      var n2 := if e.tail != n then e.tail else e.head;
      t := text + n2;
      t := t + ",";
      t := t + Decimal.Print(e.weight) + ",";
      t := t + info.address;
      t := t + ":";
      t := t + Decimal.Print(info.port);
      t := t + ";";
    }

    /** Replaces the last separator by the closing bracket, or closes an empty list. */
    static method CloseList(text: string, ghost body: string) returns (t: string)
      requires text == "[" + body && (body != "" ==> body[|body| - 1] == ';')
      ensures t == Bracketed(body)
    {
      t := text;
      var l := |text| - 1;
      if text[l] == ';' {
        t := text[l := ']'];
      } else if text[l] == '[' {
        t := text + "]";
      }
    }

    /** Walks the edges of n, writing an entry for each connected neighbour. */
    method WriteEntries(es: seq<Edge>, n: Id) returns (text: string, ghost body: Option<string>)
      requires Valid()
      ensures body == Entries(es, n, connected, table.table.View())
      ensures body.Some? ==> text == "[" + body.value && (body.value != "" ==> body.value[|body.value| - 1] == ';')
      ensures body.None? <==> text == ""
    {
      hide Entry, Entries, HashTable.Lookup;
      text := "[";
      body := Some("");
      ghost var records: Records := table.table.View();
      NoEntries(es, n, connected, records);
      for i := 0 to |es|
        invariant body == Entries(es[..i], n, connected, records) && body.Some?
        invariant text == "[" + body.value && (body.value != "" ==> body.value[|body.value| - 1] == ';')
      {
        NextEntry(es, i, n, connected, records);
        var n2 := if es[i].tail != n then es[i].tail else es[i].head;
        if n2 in connected {
          var info := table.GetInfo(n2);
          if info.None? {
            CrashPersists(es, i + 1, n, connected, records);
            return "", None;
          }
          text := AppendEntry(text, es[i], n, info.value);
          Regroup("[", body.value, Entry(es[i], n, info.value));
          body := Some(body.value + Entry(es[i], n, info.value));
        }
      }
      assert es[..|es|] == es;
    }

    /** The neighbour list of n, or the short answer; Crash stands for following a null record. */
    method OnPoll(n: Id) returns (reply: Reply)
      requires loaded && Valid()
      modifies this`upToDate
      ensures Valid() && View() == Poll(old(View()), n).0 && reply == Poll(old(View()), n).1
    {
      if n in nodes && n !in upToDate {
        var text, body := WriteEntries(Incident(edges, n), n);
        if text == "" {
          return Crash;
        }
        text := CloseList(text, body.value);
        upToDate := upToDate + {n};
        reply := NewList(text);
      } else {
        reply := NeighborhoodOk;
      }
    }

    /** The node leaves and its record is deleted, with the one in front of it if it is second in its chain. */
    method OnLogout(n: Id)
      requires loaded && n in nodes && Valid() && table.table.keyCount > 0
      modifies this`upToDate, this`connected, table, table.table
      ensures Valid() && View() == Logout(old(View()), n)
      ensures table.contents == old(table.contents) - {n} <==> !HashTable.Loses(old(table.table.View()), n)
    {
      connected := connected - {n};
      MarkNeighbors(n);
      var _ := table.DeleteInfo(n);
    }
  }

  lemma NoEntries(es: seq<Edge>, n: Id, connected: set<Id>, records: Records)
    ensures Entries(es[..0], n, connected, records) == Some("")
  {
  }

  lemma Regroup(a: string, b: string, c: string)
    ensures a + b + c == a + (b + c)
    ensures c != "" ==> (b + c)[|b + c| - 1] == c[|c| - 1]
  {
  }

  lemma NextEntry(es: seq<Edge>, i: nat, n: Id, connected: set<Id>, records: Records)
    requires i < |es| && Entries(es[..i], n, connected, records).Some?
    ensures var o := Other(es[i], n);
      var t, r := Entries(es[..i], n, connected, records).value, HashTable.Lookup(records, o);
      Entries(es[..i + 1], n, connected, records)
        == if o !in connected then Some(t) else if r.None? then None else Some(t + Entry(es[i], n, r.value))
  {
    hide HashTable.Lookup, Entry;
    assert es[..i + 1][..i] == es[..i];
  }

  lemma {:induction false} CrashPersists(es: seq<Edge>, i: nat, n: Id, connected: set<Id>, records: Records)
    requires i <= |es| && Entries(es[..i], n, connected, records) == None
    ensures Entries(es, n, connected, records) == None
    decreases |es|
  {
    hide Record, Entry;
    if i < |es| {
      var k := |es| - 1;
      assert es[..k][..i] == es[..i];
      CrashPersists(es[..k], i, n, connected, records);
    } else {
      assert es[..i] == es;
    }
  }
}
