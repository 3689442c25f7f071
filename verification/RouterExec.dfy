/**
 A router's reaction to packets, pings and their answers, the commands that originate them, and
 the traceroute built from them.
 */
module RouterExec {
  import opened Wrappers
  import opened Topology
  import opened RouteTable
  import opened Forwarding
  import opened DistanceVector
  import M = Message

  const ROUTE_PROBES := 10

  datatype Shown =
    | MessageDelivered | MessageReceived(text: Option<string>) | DestinationUnreachable
    | PingEcho(from: Option<Node>) | PingResult(success: int)
    | RouteHop(count: int, hop: Option<Node>) | RouteResult(count: int)

  /** What the user has been shown, and what is still awaited. */
  datatype Console = Console(
    shown: seq<Shown>, pingCount: int, pingSucc: int,
    waitingForRoute: bool, routeDest: Node, routeCount: int, unacknowledged: map<int, int>)

  /** A pong for this router: an echo while pings are awaited, otherwise a hop of a traceroute. */
  function OnPong(c: Console, pingPackets: int, m: M.Message): Console
    requires c.pingCount > 0 ==> pingPackets != 0
  {
    if c.pingCount > 0 then
      var c' := c.(pingSucc := c.pingSucc + 1, pingCount := c.pingCount - 1, shown := c.shown + [PingEcho(m.node1)]);
      if c'.pingCount == 0 then c'.(shown := c'.shown + [PingResult(c'.pingSucc * 100 / pingPackets)]) else c'
    else if c.waitingForRoute then
      var c' := c.(routeCount := c.routeCount + 1, shown := c.shown + [RouteHop(c.routeCount + 1, m.node1)]);
      if m.node1 == Some(c.routeDest) then c'.(waitingForRoute := false, shown := c'.shown + [RouteResult(c'.routeCount)])
      else c'
    else c
  }

  function OnEvent(c: Console, pingPackets: int, e: Event): Console
    requires c.pingCount > 0 ==> pingPackets != 0
  {
    match e
    case Delivered(q) => c.(shown := c.shown + [MessageDelivered], unacknowledged := c.unacknowledged - {q})
    case Unreachable(_) => c.(shown := c.shown + [DestinationUnreachable])
    case Received(text) => c.(shown := c.shown + [MessageReceived(text)])
    case Answered(m) => OnPong(c, pingPackets, m)
  }

  type Sent = (Option<Node>, M.Message)

  /** The table after the next hop for dst has been looked up, and the connection found. */
  function LookedUp(t: Table, dst: Node): Table {
    if dst in t then Touch(t, t[dst].nextHop) else t
  }

  function Peer(t: Table, dst: Node): Option<Node>
    requires dst in t
  {
    LookedUp(t, dst)[t[dst].nextHop].peer
  }

  /** What sending m towards its second end hands to the network. */
  function Handed(t: Table, m: M.Message): seq<Sent>
    requires m.node2.Some?
  {
    if m.node2.value in t then [(Peer(t, m.node2.value), m)] else []
  }

  /** Over the tables of a run without shortcuts, the connection is that of the next hop and nothing is inserted. */
  lemma HandedToNextHop(g: Graph, n: Net, u: Node, m: M.Message)
    requires WellFormed(g) && Inv(g, n) && u in n && m.node2.Some?
    ensures var s := m.node2.value;
      && LookedUp(n[u], s) == n[u]
      && (s in n[u] ==> Peer(n[u], s) == Some(n[u][s].nextHop))
      && Handed(n[u], m) == match NextHop(n, u, s) case None => [] case Some(h) => [(Some(h), m)]
  {
    var s := m.node2.value;
    if s in n[u] {
      NextHopCloser(g, n, u, s);
      assert GoodEntry(g, n, u, n[u][s].nextHop);
    }
  }

  /** A packet carrying a text, a ping: what the commands send, field by field. */
  function TextPacket(src: Node, dst: Node, seqnum: int, ttl: int, text: string): M.Message {
    M.Message(M.Packet, Some(text), Some(src), Some(dst), ttl, seqnum, M.Not)
  }

  function LowPing(src: Node, dst: Node, seqnum: int, ttl: int): M.Message {
    M.Message(M.Ping, None, Some(src), Some(dst), ttl, seqnum, M.Not)
  }

  /** Consecutive pings from src to dst over the connection c, all with one time to live. */
  ghost predicate ArePings(sent: seq<Sent>, c: Option<Node>, src: Node, dst: Node, seqnum: int, ttl: int) {
    forall i :: 0 <= i < |sent| ==> sent[i] == (c, LowPing(src, dst, seqnum + 1 + i, ttl))
  }

  /** The probes of the route command: consecutive sequence numbers, time to live 0, 1, 2, ... */
  ghost predicate AreProbes(sent: seq<Sent>, c: Option<Node>, src: Node, dst: Node, seqnum: int) {
    forall i :: 0 <= i < |sent| ==> sent[i] == (c, LowPing(src, dst, seqnum + 1 + i, i))
  }

  /** The whole effect of an arriving message: table, messages sent, console; false if it raised an exception. */
  ghost predicate Effect(t: Table, t': Table, sent: seq<Sent>, sent': seq<Sent>, c: Console, c': Console,
                         pingPackets: int, ok: bool, out: Option<M.Message>, event: Option<Event>)
    requires out.Some? ==> out.value.node2.Some?
    requires c.pingCount > 0 ==> pingPackets != 0
  {
    && ok == (out.Some? ==> out.value.node2.value in t)
    && t' == (if out.Some? then LookedUp(t, out.value.node2.value) else t)
    && sent' == sent + (if out.Some? then Handed(t, out.value) else [])
    && c' == if event.Some? && ok then OnEvent(c, pingPackets, event.value) else c
  }

  class Exec {
    const router: Router
    const ttl: int
    const pingPackets: int
    var seqnum: int
    var shown: seq<Shown>
    var pingCount: int
    var pingSucc: int
    var waitingForRoute: bool
    var routeDest: Node
    var routeCount: int
    var unacknowledged: map<int, int>
    /** Everything handed to the network so far, with the connection it was handed to. */
    var sent: seq<Sent>

    constructor (router: Router, ttl: int, pingPackets: int)
      ensures this.router == router && this.ttl == ttl && this.pingPackets == pingPackets
      ensures View() == Console([], 0, 0, false, "", 0, map[]) && sent == [] && seqnum == 0
    {
      this.router, this.ttl, this.pingPackets := router, ttl, pingPackets;
      seqnum, shown, sent := 0, [], [];
      pingCount, pingSucc, waitingForRoute, routeDest, routeCount, unacknowledged := 0, 0, false, "", 0, map[];
    }

    ghost function View(): Console
      reads this
    {
      Console(shown, pingCount, pingSucc, waitingForRoute, routeDest, routeCount, unacknowledged)
    }

    /** Swaps the two ends, restores the time to live and sends. */
    method Reverse(m: M.Message) returns (ok: bool)
      requires m.node1.Some? && m.node2.Some?
      modifies this`sent, router`table
      ensures ok == (m.node1.value in old(router.table))
      ensures router.table == LookedUp(old(router.table), m.node1.value)
      ensures sent == old(sent) + Handed(old(router.table), Reversed(m, ttl))
    {
      var m' := m.(node1 := m.node2, node2 := m.node1);
      m' := m'.(number := ttl);
      ok := Forward(m');
    }

    /** Sends towards the second end; false stands for the unknown-destination exception. */
    method Forward(m: M.Message) returns (ok: bool)
      requires m.node2.Some?
      modifies this`sent, router`table
      ensures ok == (m.node2.value in old(router.table))
      ensures router.table == LookedUp(old(router.table), m.node2.value)
      ensures sent == old(sent) + Handed(old(router.table), m)
    {
      var c := router.NextClient(m.node2.value);
      ok := c.Some?;
      if ok {
        sent := sent + [(c.value, m)];
      }
    }

    method OnPacket(m0: M.Message) returns (ok: bool)
      requires Routable(m0) && m0.kind.Packet? && (pingCount > 0 ==> pingPackets != 0)
      modifies this, router`table
      ensures Effect(old(router.table), router.table, old(sent), sent, old(View()), View(), pingPackets, ok,
                     Handle(router.name, ttl, m0).0, Handle(router.name, ttl, m0).1)
      ensures seqnum == old(seqnum)
      ensures m0.node2.value == router.name ==>
        && shown == old(shown) + (if m0.accept == M.Accepted then [MessageDelivered]
                                  else if m0.accept == M.TooFar then [DestinationUnreachable]
                                  else if ok then [MessageReceived(m0.text)] else [])
        && unacknowledged == if m0.accept == M.Accepted then old(unacknowledged) - {m0.seqnum} else old(unacknowledged)
      ensures m0.node2.value != router.name ==> View() == old(View())
    {
      var m := m0;
      ok := true;
      if m.node2.value == router.name {
        if m.accept == M.Accepted {
          unacknowledged := unacknowledged - {m.seqnum};
          shown := shown + [MessageDelivered];
        } else if m.accept == M.TooFar {
          shown := shown + [DestinationUnreachable];
        } else {
          m := m.(accept := M.Accepted);
          ok := Reverse(m);
          if ok {
            shown := shown + [MessageReceived(m.text)];
          }
        }
      } else {
        var was := m.number;
        m := m.(number := m.number - 1);
        if was != 0 || m.accept == M.TtlZero {
          ok := Forward(m);
        } else {
          m := m.(accept := M.TooFar);
          ok := Reverse(m);
        }
      }
    }

    method OnPing(m0: M.Message) returns (ok: bool)
      requires Routable(m0) && m0.kind.Ping? && (pingCount > 0 ==> pingPackets != 0)
      modifies this, router`table
      ensures Effect(old(router.table), router.table, old(sent), sent, old(View()), View(), pingPackets, ok,
                     Handle(router.name, ttl, m0).0, Handle(router.name, ttl, m0).1)
      ensures seqnum == old(seqnum)
      ensures View() == old(View())
    {
      var m := m0;
      if m.node2.value == router.name {
        m := m.(kind := M.Pong);
        ok := Reverse(m);
      } else {
        var was := m.number;
        m := m.(number := m.number - 1);
        if was != 0 || m.accept == M.TtlZero {
          ok := Forward(m);
        } else {
          m := m.(kind := M.Pong, accept := M.TtlZero);
          m := m.(node2 := Some(router.name));
          ok := Reverse(m);
        }
      }
    }

    method OnPongMessage(m0: M.Message) returns (ok: bool)
      requires Routable(m0) && m0.kind.Pong? && (pingCount > 0 ==> pingPackets != 0)
      modifies this, router`table
      ensures Effect(old(router.table), router.table, old(sent), sent, old(View()), View(), pingPackets, ok,
                     Handle(router.name, ttl, m0).0, Handle(router.name, ttl, m0).1)
      ensures seqnum == old(seqnum)
      ensures m0.node2.value != router.name || (old(pingCount) <= 0 && !old(waitingForRoute)) ==> View() == old(View())
    {
      var m := m0;
      ok := true;
      if m.node2.value == router.name {
        if pingCount > 0 {
          pingSucc := pingSucc + 1;
          pingCount := pingCount - 1;
          shown := shown + [PingEcho(m.node1)];
          if pingCount == 0 {
            shown := shown + [PingResult(pingSucc * 100 / pingPackets)];
          }
        } else if waitingForRoute {
          routeCount := routeCount + 1;
          shown := shown + [RouteHop(routeCount, m.node1)];
          if routeDest == m.node1.value {
            waitingForRoute := false;
            shown := shown + [RouteResult(routeCount)];
          }
        }
      } else {
        var was := m.number;
        m := m.(number := m.number - 1);
        if was != 0 || m.accept == M.TtlZero {
          ok := Forward(m);
        }
      }
    }

    /** A packet, ping or pong has arrived. */
    method SockMessage(m: M.Message) returns (ok: bool)
      requires Routable(m) && (pingCount > 0 ==> pingPackets != 0)
      modifies this, router`table
      ensures Effect(old(router.table), router.table, old(sent), sent, old(View()), View(), pingPackets, ok,
                     Handle(router.name, ttl, m).0, Handle(router.name, ttl, m).1)
      ensures seqnum == old(seqnum)
    {
      if m.kind == M.Packet {
        ok := OnPacket(m);
      } else if m.kind == M.Ping {
        ok := OnPing(m);
      } else {
        ok := OnPongMessage(m);
      }
    }

    /** The user's `message` command. */
    method SendText(dest: Node, text: string) returns (ok: bool)
      modifies this, router`table
      ensures seqnum == old(seqnum) + 1
      ensures ok == (dest in old(router.table)) && router.table == LookedUp(old(router.table), dest)
      ensures View() == old(View()).(unacknowledged := old(unacknowledged)[seqnum := 0])
      ensures sent == old(sent) + if ok
        then [(Peer(old(router.table), dest), TextPacket(router.name, dest, seqnum, ttl, text))] else []
    {
      var packet := M.EMPTY;
      packet := packet.(kind := M.Packet);
      seqnum := seqnum + 1;
      unacknowledged := unacknowledged[seqnum := 0];
      packet := packet.(seqnum := seqnum, node1 := Some(router.name), node2 := Some(dest), number := ttl, text := Some(text));
      ok := Forward(packet);
    }

    /** The user's `ping` command. */
    method SendPings(dest: Node) returns (ok: bool)
      modifies this, router`table
      ensures ok == (dest in old(router.table)) && router.table == LookedUp(old(router.table), dest)
      ensures View() == old(View()).(pingCount := if ok then pingPackets else 0)
      ensures |sent| == |old(sent)| + (if ok && pingPackets > 0 then pingPackets else 0) && old(sent) <= sent
      ensures seqnum == old(seqnum) + |sent| - |old(sent)|
      ensures ok ==> ArePings(sent[|old(sent)|..], Peer(old(router.table), dest), router.name, dest, old(seqnum), ttl)
    {
      pingCount := pingPackets;
      var ping := M.EMPTY.(kind := M.Ping, node1 := Some(router.name), node2 := Some(dest), number := ttl);
      var c := router.NextClient(dest);
      ok := c.Some?;
      if !ok {
        pingCount := 0;
        return;
      }
      ghost var before := sent;
      var i := 0;
      while i < pingPackets
        invariant 0 <= i && (i <= pingPackets || i == 0)
        invariant router.table == LookedUp(old(router.table), dest)
        invariant View() == old(View()).(pingCount := pingPackets)
        invariant seqnum == old(seqnum) + i
        invariant ping == LowPing(router.name, dest, ping.seqnum, ttl)
        invariant before <= sent && |sent| == |before| + i
        invariant ArePings(sent[|before|..], c.value, router.name, dest, old(seqnum), ttl)
      {
        seqnum := seqnum + 1;
        ping := ping.(seqnum := seqnum);
        sent := sent + [(c.value, ping)];
        i := i + 1;
      }
    }

    /** The user's `route` command: probes with a growing time to live. */
    method SendProbes(dest: Node) returns (ok: bool)
      modifies this, router`table
      ensures ok == (dest in old(router.table)) && router.table == LookedUp(old(router.table), dest)
      ensures View() == old(View()).(waitingForRoute := ok, routeDest := dest, routeCount := 0)
      ensures |sent| == |old(sent)| + (if ok then ROUTE_PROBES else 0) && old(sent) <= sent
      ensures seqnum == old(seqnum) + |sent| - |old(sent)|
      ensures ok ==> AreProbes(sent[|old(sent)|..], Peer(old(router.table), dest), router.name, dest, old(seqnum))
    {
      routeCount := 0;
      waitingForRoute := true;
      routeDest := dest;
      var ping := M.EMPTY.(kind := M.Ping, node1 := Some(router.name), node2 := Some(dest), number := 0);
      var c := router.NextClient(dest);
      ok := c.Some?;
      if !ok {
        waitingForRoute := false;
        return;
      }
      ghost var before := sent;
      var i := 0;
      while i < ROUTE_PROBES
        invariant 0 <= i <= ROUTE_PROBES
        invariant router.table == LookedUp(old(router.table), dest)
        invariant View() == old(View()).(waitingForRoute := true, routeDest := dest, routeCount := 0)
        invariant seqnum == old(seqnum) + i
        invariant ping == LowPing(router.name, dest, ping.seqnum, ping.number)
        invariant before <= sent && |sent| == |before| + i
        invariant AreProbes(sent[|before|..], c.value, router.name, dest, old(seqnum))
      {
        ping := ping.(number := i);
        i := i + 1;
        seqnum := seqnum + 1;
        ping := ping.(seqnum := seqnum);
        sent := sent + [(c.value, ping)];
      }
    }
  }

  /* ---- a conversation on the consoles ---- */

  function OnEvents(c: Console, pingPackets: int, es: seq<Event>): Console
    requires pingPackets != 0
    decreases |es|
  {
    if es == [] then c else OnEvents(OnEvent(c, pingPackets, es[0]), pingPackets, es[1..])
  }

  /** The events of a log at router r. */
  function EventsAt(log: seq<(Node, Event)>, r: Node): seq<Event> {
    if log == [] then [] else (if log[0].0 == r then [log[0].1] else []) + EventsAt(log[1..], r)
  }

  lemma EventsOfTwo(a: (Node, Event), b: (Node, Event), r: Node)
    ensures EventsAt([a, b], r) == (if a.0 == r then [a.1] else []) + (if b.0 == r then [b.1] else [])
    ensures EventsAt([a], r) == if a.0 == r then [a.1] else []
  {
    assert [a, b][1..] == [b] && [b][1..] == [] && [a][1..] == [];
    assert EventsAt([b], r) == if b.0 == r then [b.1] else [];
  }

  lemma OnOne(c: Console, pingPackets: int, e: Event)
    requires pingPackets != 0
    ensures OnEvents(c, pingPackets, [e]) == OnEvent(c, pingPackets, e)
  {
    assert [e][1..] == [];
  }

  /**
   What becomes of a text sent with SendText: if the time to live reaches the destination, its user is
   shown that text and the sender's user that it was delivered, else the sender's user that it was not,
   and nobody else anything.
   */
  lemma TextSeen(n: Net, ttl: int, p: seq<Node>, back: seq<Node>, src: Node, dst: Node, seqnum: nat, t: nat, text: string,
                 r: Node, c: Console, pingPackets: int)
    requires text != "" && pingPackets != 0 && src != dst
    requires Path(n, p, src, dst) && Path(n, back, p[Turn(p, t)], src)
    ensures var x := Flying(Flight(p[1], TextPacket(src, dst, seqnum, t, text)));
      var shown := Shows(n, ttl, x, Turn(p, t) + |back| - 1);
      OnEvents(c, pingPackets, EventsAt(shown, r)) ==
        if r == src then
          if |p| - 1 <= t + 1
          then c.(shown := c.shown + [MessageDelivered], unacknowledged := c.unacknowledged - {seqnum as int})
          else c.(shown := c.shown + [DestinationUnreachable])
        else if r == dst && |p| - 1 <= t + 1 then c.(shown := c.shown + [MessageReceived(Some(text))])
        else c
  {
    hide Shows;
    PacketShown(n, ttl, p, back, src, dst, seqnum, t, text);
    EventsOfTwo((dst, Received(Some(text))), (src, Delivered(seqnum)), r);
    EventsOfTwo((src, Unreachable(seqnum)), (src, Unreachable(seqnum)), r);
    OnOne(c, pingPackets, Received(Some(text)));
    OnOne(c, pingPackets, Delivered(seqnum));
    OnOne(c, pingPackets, Unreachable(seqnum));
  }

  /* ---- pongs ---- */

  function OnPongs(c: Console, pingPackets: int, ms: seq<M.Message>): Console
    requires pingPackets != 0
  {
    if ms == [] then c else OnPong(OnPongs(c, pingPackets, ms[..|ms| - 1]), pingPackets, ms[|ms| - 1])
  }

  function Echoes(ms: seq<M.Message>): seq<Shown> {
    seq(|ms|, i requires 0 <= i < |ms| => PingEcho(ms[i].node1))
  }

  /** While pings are awaited each pong is an echo; the last one brings the success rate. */
  lemma {:induction false} EchoesShown(c: Console, pingPackets: int, ms: seq<M.Message>)
    requires pingPackets != 0 && |ms| <= c.pingCount
    ensures OnPongs(c, pingPackets, ms) ==
      c.(pingCount := c.pingCount - |ms|, pingSucc := c.pingSucc + |ms|,
         shown := c.shown + Echoes(ms)
           + if 0 < |ms| == c.pingCount then [PingResult((c.pingSucc + |ms|) * 100 / pingPackets)] else [])
    decreases |ms|
  {
    if ms == [] {
      assert c.shown + Echoes(ms) + [] == c.shown;
    } else {
      var k := |ms| - 1;
      EchoesShown(c, pingPackets, ms[..k]);
      assert Echoes(ms) == Echoes(ms[..k]) + [PingEcho(ms[k].node1)];
      assert c.shown + Echoes(ms[..k]) + [] + [PingEcho(ms[k].node1)] == c.shown + Echoes(ms);
    }
  }

  /** The count of answers is never reset: the k-th ping command that gets all its answers reports k hundred per cent. */
  lemma SuccessAddsUp(c: Console, pingPackets: int, ms: seq<M.Message>, k: nat)
    requires k > 0 && c.pingSucc == (k - 1) * pingPackets && 0 < |ms| == c.pingCount == pingPackets
    ensures var c' := OnPongs(c, pingPackets, ms);
      c'.shown == c.shown + Echoes(ms) + [PingResult(k * 100)] && c'.pingSucc == k * pingPackets && c'.pingCount == 0
  {
    hide OnPongs, Echoes;
    EchoesShown(c, pingPackets, ms);
    assert c.pingSucc + |ms| == k * pingPackets;
    assert (k * pingPackets) * 100 == (k * 100) * pingPackets;
    WholeQuotient(k * 100, pingPackets);
  }

  lemma WholeQuotient(a: int, b: int)
    requires b > 0
    ensures a * b / b == a
  {
    var x := a * b;
    var q, r := x / b, x % b;
    assert x == q * b + r;
    assert (a - q) * b == r;
    if a - q >= 1 {
      Times(a - q, 1, b);
    } else if a - q <= -1 {
      Times(-1, a - q, b);
    }
  }

  lemma Times(a: int, a': int, b: int)
    requires a >= a' && b > 0
    ensures a * b >= a' * b
  {
  }

  /* ---- traceroute ---- */

  function Least(i: int, j: int): int {
    if i <= j then i else j
  }

  /** The hops of the path p, numbered from 1. */
  function Hops(p: seq<Node>, k: nat): seq<Shown>
    requires k < |p|
  {
    seq(k, i requires 0 <= i < k => RouteHop(i + 1, Some(p[i + 1])))
  }

  /** ms are answers to the first probes along p, in the order of the probes. */
  ghost predicate ProbeAnswers(ms: seq<M.Message>, p: seq<Node>) {
    |p| >= 2 && forall i :: 0 <= i < |ms| ==> ms[i].node1 == Some(p[Turn(p, i)])
  }

  lemma {:induction false} HopsShown(c: Console, pingPackets: int, p: seq<Node>, dst: Node, ms: seq<M.Message>)
    requires pingPackets != 0 && c.pingCount <= 0 && c.waitingForRoute && c.routeDest == dst && c.routeCount == 0
    requires |p| >= 2 && Distinct(p) && p[|p| - 1] == dst && ProbeAnswers(ms, p)
    ensures var k := Least(|ms|, |p| - 1);
      OnPongs(c, pingPackets, ms) == c.(routeCount := k, waitingForRoute := |ms| < |p| - 1,
        shown := c.shown + Hops(p, k) + if |ms| < |p| - 1 then [] else [RouteResult(|p| - 1)])
    decreases |ms|
  {
    if ms == [] {
      assert c.shown + Hops(p, 0) + [] == c.shown;
    } else {
      var n := |ms| - 1;
      HopsShown(c, pingPackets, p, dst, ms[..n]);
      var c' := OnPongs(c, pingPackets, ms[..n]);
      if n < |p| - 1 {
        assert ms[n].node1 == Some(p[n + 1]);
        assert Hops(p, n + 1) == Hops(p, n) + [RouteHop(n + 1, Some(p[n + 1]))];
        assert c.shown + Hops(p, n) + [] + [RouteHop(n + 1, Some(p[n + 1]))] == c.shown + Hops(p, n + 1);
        assert p[n + 1] == dst <==> n + 1 == |p| - 1;
      }
    }
  }

  /** The answer to a probe sent to p[1], as the network delivers it to the prober. */
  ghost predicate IsAnswer(n: Net, ttl: int, p: seq<Node>, src: Node, probe: M.Message, m: M.Message)
    requires |p| >= 2
  {
    exists total :: Leads(n, ttl, Flying(Flight(p[1], probe)), total, src, Answered(m))
  }

  /** At most one answer can conclude a probe. */
  lemma AnswerUnique(n: Net, ttl: int, x: Fate, k: nat, at: Node, e: Event, k': nat, at': Node, e': Event)
    requires Leads(n, ttl, x, k, at, e) && Leads(n, ttl, x, k', at', e')
    ensures at == at' && e == e'
  {
    FateUpTo(n, ttl, x, k, k', at', e');
  }

  lemma AnswersFollowPath(n: Net, ttl: int, p: seq<Node>, backs: seq<seq<Node>>, src: Node, dst: Node, seqnum: nat,
                          i: nat, m: M.Message)
    requires Path(n, p, src, dst) && i < |backs| && Path(n, backs[i], p[Turn(p, i)], src)
    requires p[Turn(p, i)] == dst ==> |backs[i]| - 1 <= ttl + 1
    requires IsAnswer(n, ttl, p, src, LowPing(src, dst, seqnum + 1 + i, i), m)
    ensures m.node1 == Some(p[Turn(p, i)])
  {
    hide Leads;
    var x := Flying(Flight(p[1], LowPing(src, dst, seqnum + 1 + i, i)));
    var total :| Leads(n, ttl, x, total, src, Answered(m));
    PingFate(n, ttl, p, backs[i], src, dst, seqnum + 1 + i, i);
    AnswerUnique(n, ttl, x, total, src, Answered(m), Turn(p, i) + |backs[i]| - 1,
      src, Answered(Pong(backs[i], src, dst, seqnum + 1 + i, ttl)));
  }

  /**
   The route command shows the routers of the next-hop path in order, ends with the destination and
   reports the length of the path, provided that is at most ten hops. `probes` is what SendProbes hands
   to the network.
   */
  lemma Traceroute(n: Net, ttl: int, pingPackets: int, p: seq<Node>, backs: seq<seq<Node>>, src: Node, dst: Node, seqnum: nat,
                   c: Console, probes: seq<Sent>, ms: seq<M.Message>)
    requires Path(n, p, src, dst) && |p| - 1 <= ROUTE_PROBES && |backs| == |ms| == |probes| == ROUTE_PROBES
    requires AreProbes(probes, Some(p[1]), src, dst, seqnum)
    requires forall i :: 0 <= i < ROUTE_PROBES ==>
      && Path(n, backs[i], p[Turn(p, i)], src)
      && (p[Turn(p, i)] == dst ==> |backs[i]| - 1 <= ttl + 1)
      && IsAnswer(n, ttl, p, src, probes[i].1, ms[i])
    requires pingPackets != 0 && c.pingCount <= 0 && c.waitingForRoute && c.routeDest == dst && c.routeCount == 0
    ensures OnPongs(c, pingPackets, ms).shown == c.shown + Hops(p, |p| - 1) + [RouteResult(|p| - 1)]
    ensures OnPongs(c, pingPackets, ms).routeCount == |p| - 1 && !OnPongs(c, pingPackets, ms).waitingForRoute
  {
    forall i | 0 <= i < |ms| ensures ms[i].node1 == Some(p[Turn(p, i)]) {
      assert probes[i].1 == LowPing(src, dst, seqnum + 1 + i, i);
      AnswersFollowPath(n, ttl, p, backs, src, dst, seqnum, i, ms[i]);
    }
    HopsShown(c, pingPackets, p, dst, ms);
  }
}
