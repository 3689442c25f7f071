/**
 Packets, pings and their answers travelling hop by hop over fixed routing tables. The state is
 the set of messages in flight; in one step any router handles any message that has reached it.
 */
module Forwarding {
  import opened Wrappers
  import opened Topology
  import opened RouteTable
  import opened DistanceVector
  import M = Message

  /** What a handler shows its user. */
  datatype Event = Delivered(seqnum: int) | Unreachable(seqnum: int) | Received(text: Option<string>) | Answered(pong: M.Message)

  predicate Routable(m: M.Message) {
    (m.kind.Packet? || m.kind.Ping? || m.kind.Pong?) && m.node1.Some? && m.node2.Some?
  }

  function Reversed(m: M.Message, ttl: int): M.Message {
    m.(node1 := m.node2, node2 := m.node1, number := ttl)
  }

  /** What router `me` answers or passes on, and what it shows; `ttl` is its configured default. */
  function Handle(me: Node, ttl: int, m: M.Message): (Option<M.Message>, Option<Event>)
    requires Routable(m)
  {
    var here := m.node2 == Some(me);
    var alive := m.number != 0 || m.accept.TtlZero?;
    var onward := Some(m.(number := m.number - 1));
    match m.kind
    case Packet =>
      if here then
        if m.accept.Accepted? then (None, Some(Delivered(m.seqnum)))
        else if m.accept.TooFar? then (None, Some(Unreachable(m.seqnum)))
        else (Some(Reversed(m.(accept := M.Accepted), ttl)), Some(Received(m.text)))
      else if alive then (onward, None)
      else (Some(Reversed(m.(accept := M.TooFar), ttl)), None)
    case Ping =>
      if here then (Some(Reversed(m.(kind := M.Pong), ttl)), None)
      else if alive then (onward, None)
      else (Some(Reversed(m.(kind := M.Pong, accept := M.TtlZero, node2 := Some(me)), ttl)), None)
    case _ =>
      if here then (None, Some(Answered(m)))
      else if alive then (onward, None)
      else (None, None)
  }

  datatype Flight = Flight(at: Node, msg: M.Message)

  function NextHop(n: Net, u: Node, s: Node): Option<Node> {
    if u in n && s in n[u] then Some(n[u][s].nextHop) else None
  }

  /** A message leaves u towards its second node and arrives, as printed, at the next hop, if it can be read there. */
  function Send(n: Net, u: Node, m: M.Message): Option<Flight>
    requires m.node2.Some?
  {
    match NextHop(n, u, m.node2.value)
    case None => None
    case Some(h) => if M.Readable(m) then Some(Flight(h, M.OnWire(m))) else None
  }

  /**
   The message router f.at sends on when it handles f, as the next router receives it, and what it
   shows. A missing route raises an exception before anything is sent or shown.
   */
  function React(n: Net, ttl: int, f: Flight): (Option<Flight>, Option<Event>)
    requires Routable(f.msg)
  {
    var (out, event) := Handle(f.at, ttl, f.msg);
    if out.None? then (None, event)
    else if NextHop(n, f.at, out.value.node2.value).None? then (None, None)
    else (Send(n, f.at, out.value), event)
  }

  /** What parsing a received line can have produced. */
  predicate Parsed(f: Flight) {
    Routable(f.msg) && f.msg == M.OnWire(f.msg) && M.Readable(f.msg)
  }

  datatype State = State(flights: multiset<Flight>, log: seq<(Node, Event)>)

  ghost predicate Step(n: Net, ttl: int, a: State, f: Flight, b: State) {
    && f in a.flights && Parsed(f)
    && var (next, event) := React(n, ttl, f);
    && b.flights == a.flights - multiset{f} + (if next.Some? then multiset{next.value} else multiset{})
    && b.log == a.log + (if event.Some? then [(f.at, event.value)] else [])
  }

  /** The fate of one message: still flying, ended with an event at some router, or dropped. */
  datatype Fate = Flying(f: Flight) | Ended(at: Node, event: Event) | Dropped

  function Advance(n: Net, ttl: int, x: Fate): Fate {
    if !x.Flying? || !Routable(x.f.msg) then x
    else
      var (next, event) := React(n, ttl, x.f);
      if next.Some? then Flying(next.value) else if event.Some? then Ended(x.f.at, event.value) else Dropped
  }

  function AdvanceBy(n: Net, ttl: int, x: Fate, k: nat): Fate
    decreases k
  {
    if k == 0 then x else AdvanceBy(n, ttl, Advance(n, ttl, x), k - 1)
  }

  /** What the routers show while a message and what becomes of it are handled k times. */
  function Shows(n: Net, ttl: int, x: Fate, k: nat): seq<(Node, Event)>
    decreases k
  {
    if k == 0 || !x.Flying? || !Routable(x.f.msg) then []
    else
      var event := React(n, ttl, x.f).1;
      (if event.Some? then [(x.f.at, event.value)] else []) + Shows(n, ttl, Advance(n, ttl, x), k - 1)
  }

  lemma {:induction false} ShowsSum(n: Net, ttl: int, x: Fate, i: nat, j: nat)
    ensures Shows(n, ttl, x, i + j) == Shows(n, ttl, x, i) + Shows(n, ttl, AdvanceBy(n, ttl, x, i), j)
    decreases i
  {
    hide React, Advance;
    if i > 0 {
      ShowsSum(n, ttl, Advance(n, ttl, x), i - 1, j);
      if !x.Flying? || !Routable(x.f.msg) {
        StuckShows(n, ttl, x, i, j);
      }
    }
  }

  lemma StuckShows(n: Net, ttl: int, x: Fate, i: nat, j: nat)
    requires !x.Flying? || !Routable(x.f.msg)
    ensures Shows(n, ttl, AdvanceBy(n, ttl, x, i), j) == []
    decreases i
  {
    if i > 0 {
      StuckShows(n, ttl, x, i - 1, j);
    }
  }

  lemma {:induction false} AdvanceSum(n: Net, ttl: int, x: Fate, i: nat, j: nat)
    ensures AdvanceBy(n, ttl, x, i + j) == AdvanceBy(n, ttl, AdvanceBy(n, ttl, x, i), j)
    decreases i
  {
    if i > 0 {
      AdvanceSum(n, ttl, Advance(n, ttl, x), i - 1, j);
    }
  }

  lemma {:induction false} EndedStays(n: Net, ttl: int, x: Fate, k: nat)
    requires !x.Flying?
    ensures AdvanceBy(n, ttl, x, k) == x
    decreases k
  {
    if k > 0 {
      EndedStays(n, ttl, x, k - 1);
    }
  }

  /* ---- one message along a path ---- */

  predicate Asking(m: M.Message) {
    Routable(m) && ((m.kind.Packet? && m.accept.Not?) || (m.kind.Ping? && m.accept.Not?) || (m.kind.Pong? && m.accept.Not?))
  }

  /** Messages whose time to live is printed lose one per router; k routers later: */
  lemma {:induction false} Carried(n: Net, ttl: int, p: seq<Node>, s: Node, i: nat, k: nat, m: M.Message)
    requires Follows(n, p, s) && Distinct(p) && i + k < |p|
    requires Asking(m) && m == M.OnWire(m) && m.node2 == Some(s) && M.Readable(m) && k <= m.number
    ensures AdvanceBy(n, ttl, Flying(Flight(p[i], m)), k) == Flying(Flight(p[i + k], m.(number := m.number - k)))
    ensures Shows(n, ttl, Flying(Flight(p[i], m)), k) == []
    decreases k
  {
    if k > 0 {
      assert p[i] != s;
      Carried(n, ttl, p, s, i + 1, k - 1, m.(number := m.number - 1));
    }
  }

  predicate Undying(m: M.Message) {
    Routable(m) && ((m.kind.Packet? && (m.accept.Accepted? || m.accept.TooFar?)) || (m.kind.Pong? && m.accept.TtlZero?))
  }

  /** Answers whose time to live is not printed are never dropped on their way. */
  lemma {:induction false} Returned(n: Net, ttl: int, p: seq<Node>, s: Node, i: nat, k: nat, m: M.Message)
    requires Follows(n, p, s) && Distinct(p) && i + k < |p|
    requires Undying(m) && m == M.OnWire(m) && m.node2 == Some(s) && M.Readable(m)
    ensures AdvanceBy(n, ttl, Flying(Flight(p[i], m)), k) == Flying(Flight(p[i + k], m))
    ensures Shows(n, ttl, Flying(Flight(p[i], m)), k) == []
    decreases k
  {
    if k > 0 {
      assert p[i] != s;
      Returned(n, ttl, p, s, i + 1, k - 1, m);
    }
  }

  /** Over the tables n, p is the loop-free path packets from u for s take. */
  ghost predicate Path(n: Net, p: seq<Node>, u: Node, s: Node) {
    Follows(n, p, s) && Distinct(p) && p[0] == u && |p| >= 2
  }

  function PacketMessage(src: Node, dst: Node, seqnum: int, ttl: int, data: string): M.Message {
    M.EMPTY.(kind := M.Packet, seqnum := seqnum, node1 := Some(src), node2 := Some(dst), number := ttl, text := Some(data))
  }

  /** Where a packet or ping with time to live t turns round on the path p. */
  function Turn(p: seq<Node>, t: nat): nat
    requires |p| >= 2
  {
    if |p| - 1 <= t + 1 then |p| - 1 else t + 1
  }

  lemma ThereAndBack(n: Net, ttl: int, x: Fate, i: nat, y: Fate, z: Fate, j: nat)
    requires AdvanceBy(n, ttl, x, i) == y && Advance(n, ttl, y) == z
    ensures AdvanceBy(n, ttl, x, i + 1 + j) == AdvanceBy(n, ttl, z, j)
  {
    hide Advance;
    AdvanceSum(n, ttl, x, i, 1 + j);
  }

  /** What the sender of a packet with time to live t over the path p is shown in the end. */
  function Outcome(p: seq<Node>, t: nat, seqnum: int): Event {
    if |p| - 1 <= t + 1 then Delivered(seqnum) else Unreachable(seqnum)
  }

  /** x ends with the event e at router `at` after being handled `total` times. */
  ghost predicate Leads(n: Net, ttl: int, x: Fate, total: nat, at: Node, e: Event) {
    AdvanceBy(n, ttl, x, total) == Ended(at, e)
  }

  /** The acknowledgement or the report that comes back, as the next router receives it. */
  function Answer(p: seq<Node>, t: nat, src: Node, dst: Node, seqnum: int): M.Message {
    M.EMPTY.(kind := M.Packet, seqnum := seqnum, node1 := Some(dst), node2 := Some(src),
             accept := if |p| - 1 <= t + 1 then M.Accepted else M.TooFar)
  }

  /** The handling at which a packet turns round. */
  lemma PacketTurns(n: Net, ttl: int, p: seq<Node>, back: seq<Node>, src: Node, dst: Node, seqnum: nat, t: nat, data: string)
    requires Path(n, p, src, dst) && Path(n, back, p[Turn(p, t)], src)
    ensures var turn := Turn(p, t);
      var f := Flight(p[turn], PacketMessage(src, dst, seqnum, t - (turn - 1), data));
      && Advance(n, ttl, Flying(f)) == Flying(Flight(back[1], Answer(p, t, src, dst, seqnum)))
      && React(n, ttl, f).1 == if |p| - 1 <= t + 1 then Some(Received(Some(data))) else None
  {
  }

  lemma AnswerTaken(n: Net, ttl: int, p: seq<Node>, t: nat, src: Node, dst: Node, seqnum: nat)
    requires |p| >= 2
    ensures var f := Flight(src, Answer(p, t, src, dst, seqnum));
      && Advance(n, ttl, Flying(f)) == Ended(src, Outcome(p, t, seqnum))
      && React(n, ttl, f).1 == Some(Outcome(p, t, seqnum))
  {
  }

  /**
   A packet sent with time to live t over L hops is acknowledged if L <= t + 1 and reported too far
   otherwise, after as many handlings as there are hops there and back.
   */
  lemma PacketFate(n: Net, ttl: int, p: seq<Node>, back: seq<Node>, src: Node, dst: Node, seqnum: nat, t: nat, data: string)
    requires data != ""
    requires Path(n, p, src, dst) && Path(n, back, p[Turn(p, t)], src)
    ensures Send(n, src, PacketMessage(src, dst, seqnum, t, data)) == Some(Flight(p[1], PacketMessage(src, dst, seqnum, t, data)))
    ensures Leads(n, ttl, Flying(Flight(p[1], PacketMessage(src, dst, seqnum, t, data))), Turn(p, t) + |back| - 1,
              src, Outcome(p, t, seqnum))
  {
    hide Advance, AdvanceBy, React;
    var turn := Turn(p, t);
    var m := PacketMessage(src, dst, seqnum, t, data);
    var x := Flying(Flight(p[1], m));
    var reply := Answer(p, t, src, dst, seqnum);
    var y, z := Flying(Flight(p[turn], m.(number := t - (turn - 1)))), Flying(Flight(back[1], reply));
    Carried(n, ttl, p, dst, 1, turn - 1, m);
    PacketTurns(n, ttl, p, back, src, dst, seqnum, t, data);
    ThereAndBack(n, ttl, x, turn - 1, y, z, |back| - 1);
    Returned(n, ttl, back, src, 1, |back| - 2, reply);
    AnswerTaken(n, ttl, p, t, src, dst, seqnum);
    ThereAndBack(n, ttl, z, |back| - 2, Flying(Flight(src, reply)), Ended(src, Outcome(p, t, seqnum)), 0);
    EndedStays(n, ttl, Ended(src, Outcome(p, t, seqnum)), 0);
  }

  /** Everything the routers show of a packet: its data at its destination, if it gets there, and the outcome at its source. */
  function Showing(p: seq<Node>, t: nat, src: Node, dst: Node, seqnum: int, data: string): seq<(Node, Event)>
    requires |p| >= 2
  {
    if |p| - 1 <= t + 1 then [(dst, Received(Some(data))), (src, Delivered(seqnum))] else [(src, Unreachable(seqnum))]
  }

  /** Only the destination is shown the data, only if the time to live reaches it, and only the source the outcome. */
  lemma PacketShown(n: Net, ttl: int, p: seq<Node>, back: seq<Node>, src: Node, dst: Node, seqnum: nat, t: nat, data: string)
    requires data != ""
    requires Path(n, p, src, dst) && Path(n, back, p[Turn(p, t)], src)
    ensures Shows(n, ttl, Flying(Flight(p[1], PacketMessage(src, dst, seqnum, t, data))), Turn(p, t) + |back| - 1)
         == Showing(p, t, src, dst, seqnum, data)
  {
    hide Advance, AdvanceBy, React, Shows;
    var turn := Turn(p, t);
    var m := PacketMessage(src, dst, seqnum, t, data);
    var x := Flying(Flight(p[1], m));
    var reply := Answer(p, t, src, dst, seqnum);
    var y, z := Flying(Flight(p[turn], m.(number := t - (turn - 1)))), Flying(Flight(back[1], reply));
    Carried(n, ttl, p, dst, 1, turn - 1, m);
    PacketTurns(n, ttl, p, back, src, dst, seqnum, t, data);
    AnswerTaken(n, ttl, p, t, src, dst, seqnum);
    Returned(n, ttl, back, src, 1, |back| - 2, reply);
    ShowsSum(n, ttl, x, turn - 1, |back|);
    ShowsSum(n, ttl, z, |back| - 2, 1);
    OneShown(n, ttl, y, |back|);
    OneShown(n, ttl, Flying(Flight(src, reply)), 1);
    NothingShown(n, ttl, Ended(src, Outcome(p, t, seqnum)));
  }

  lemma OneShown(n: Net, ttl: int, x: Fate, k: nat)
    requires x.Flying? && Routable(x.f.msg) && k > 0
    ensures var event := React(n, ttl, x.f).1;
      Shows(n, ttl, x, k) == (if event.Some? then [(x.f.at, event.value)] else []) + Shows(n, ttl, Advance(n, ttl, x), k - 1)
    ensures Shows(n, ttl, x, 0) == []
  {
  }

  /** Whatever the tables, loops included, a packet or ping is passed on at most number times. */
  lemma {:induction false} AskedAtMost(n: Net, ttl: int, f: Flight, k: nat)
    requires Asking(f.msg) && f.msg == M.OnWire(f.msg) && f.msg.number >= 0
    requires forall j :: 0 <= j <= k ==>
      var x := AdvanceBy(n, ttl, Flying(f), j);
      x.Flying? && Asking(x.f.msg) && x.f.msg.kind == f.msg.kind
    ensures k <= f.msg.number
    ensures AdvanceBy(n, ttl, Flying(f), k).f.msg == f.msg.(number := f.msg.number - k)
    decreases k
  {
    if k > 0 {
      var x := AdvanceBy(n, ttl, Flying(f), 1);
      assert x == Advance(n, ttl, Flying(f));
      assert x.f.msg == f.msg.(number := f.msg.number - 1) && f.msg.number > 0;
      forall j | 0 <= j <= k - 1
        ensures AdvanceBy(n, ttl, x, j) == AdvanceBy(n, ttl, Flying(f), j + 1)
      {
      }
      AskedAtMost(n, ttl, x.f, k - 1);
    }
  }

  /* ---- many messages at once ---- */

  /** A conversation is known by the router that began it and its sequence number there. */
  type Key = (Option<Node>, int)

  function KeyOf(m: M.Message): Key {
    (if m.kind.Pong? || (m.kind.Packet? && (m.accept.Accepted? || m.accept.TooFar?)) then m.node2 else m.node1, m.seqnum)
  }

  function Concludes(at: Node, e: Event, key: Key): bool {
    match e
    case Received(_) => false
    case Delivered(q) => key == (Some(at), q)
    case Unreachable(q) => key == (Some(at), q)
    case Answered(m) => key == (Some(at), m.seqnum)
  }

  function Conclusions(log: seq<(Node, Event)>, key: Key): seq<(Node, Event)> {
    if log == [] then []
    else
      var (at, e) := log[|log| - 1];
      Conclusions(log[..|log| - 1], key) + (if Concludes(at, e, key) then [(at, e)] else [])
  }

  /** The flights of a conversation are those of its fate. */
  ghost predicate Carries(flights: multiset<Flight>, key: Key, x: Fate) {
    && (forall f :: f in flights && KeyOf(f.msg) == key ==> x == Flying(f))
    && (x.Flying? ==> flights[x.f] == 1 && KeyOf(x.f.msg) == key && Parsed(x.f))
  }

  /** x is what has become of the conversation: at most one message and at most one outcome. */
  ghost predicate Tracks(s: State, key: Key, x: Fate) {
    && Carries(s.flights, key, x)
    && Conclusions(s.log, key) == if x.Ended? then [(x.at, x.event)] else []
  }

  /** Handling a message either passes the conversation on or concludes it, and no other one. */
  lemma ReactKeepsKey(n: Net, ttl: int, f: Flight)
    requires Parsed(f)
    ensures var (next, event) := React(n, ttl, f);
      && (next.Some? ==> KeyOf(next.value.msg) == KeyOf(f.msg) && Parsed(next.value))
      && (event.Some? ==> (Concludes(f.at, event.value, KeyOf(f.msg)) <==> next.None?))
      && (event.Some? ==> forall key :: Concludes(f.at, event.value, key) ==> key == KeyOf(f.msg))
  {
  }

  lemma StepFlights(n: Net, ttl: int, a: State, f: Flight, b: State, key: Key, x: Fate)
    requires Step(n, ttl, a, f, b) && Carries(a.flights, key, x)
    ensures Carries(b.flights, key, if KeyOf(f.msg) == key then Advance(n, ttl, x) else x)
  {
    hide React, KeyOf;
    ReactKeepsKey(n, ttl, f);
    var next := React(n, ttl, f).0;
    if KeyOf(f.msg) == key {
      assert x == Flying(f);
      OwnFlight(a.flights, b.flights, f, next, key);
    } else {
      OtherFlight(a.flights, b.flights, f, next, key, x);
    }
  }

  lemma OwnFlight(a: multiset<Flight>, b: multiset<Flight>, f: Flight, next: Option<Flight>, key: Key)
    requires Carries(a, key, Flying(f))
    requires b == a - multiset{f} + if next.Some? then multiset{next.value} else multiset{}
    requires next.Some? ==> KeyOf(next.value.msg) == key && Parsed(next.value)
    ensures Carries(b, key, if next.Some? then Flying(next.value) else Dropped)
    ensures next.None? ==> forall f' :: f' in b ==> KeyOf(f'.msg) != key
  {
    hide KeyOf, Parsed;
    var rest := a - multiset{f};
    assert forall f' :: f' in rest ==> f' in a;
    assert f !in rest;
  }

  lemma OtherFlight(a: multiset<Flight>, b: multiset<Flight>, f: Flight, next: Option<Flight>, key: Key, x: Fate)
    requires Carries(a, key, x) && f in a && KeyOf(f.msg) != key
    requires b == a - multiset{f} + if next.Some? then multiset{next.value} else multiset{}
    requires next.Some? ==> KeyOf(next.value.msg) != key
    ensures Carries(b, key, x)
  {
    hide KeyOf, Parsed;
    var rest := a - multiset{f};
    assert forall f' :: f' in rest ==> f' in a;
  }

  lemma StepTracks(n: Net, ttl: int, a: State, f: Flight, b: State, key: Key, x: Fate)
    requires Step(n, ttl, a, f, b) && Tracks(a, key, x)
    ensures Tracks(b, key, if KeyOf(f.msg) == key then Advance(n, ttl, x) else x)
  {
    hide React, KeyOf, Parsed;
    StepFlights(n, ttl, a, f, b, key, x);
    StepLog(n, ttl, a, f, b, key);
    ReactKeepsKey(n, ttl, f);
    if KeyOf(f.msg) == key {
      assert x == Flying(f);
    }
  }

  lemma StepLog(n: Net, ttl: int, a: State, f: Flight, b: State, key: Key)
    requires Step(n, ttl, a, f, b)
    ensures var event := React(n, ttl, f).1;
      Conclusions(b.log, key) == Conclusions(a.log, key)
        + if event.Some? && Concludes(f.at, event.value, key) then [(f.at, event.value)] else []
  {
    if b.log != a.log {
      assert b.log[..|b.log| - 1] == a.log;
    }
  }

  ghost predicate Steps(n: Net, ttl: int, a: State, fs: seq<Flight>, b: State)
    decreases |fs|
  {
    if fs == [] then a == b else exists m :: Step(n, ttl, a, fs[0], m) && Steps(n, ttl, m, fs[1..], b)
  }

  function HandledFor(fs: seq<Flight>, key: Key): nat {
    if fs == [] then 0 else (if KeyOf(fs[0].msg) == key then 1 else 0) + HandledFor(fs[1..], key)
  }

  /** In any interleaving with any other traffic a conversation evolves as if it were alone. */
  lemma {:induction false} StepsTrack(n: Net, ttl: int, a: State, fs: seq<Flight>, b: State, key: Key, x: Fate)
    requires Steps(n, ttl, a, fs, b) && Tracks(a, key, x)
    ensures Tracks(b, key, AdvanceBy(n, ttl, x, HandledFor(fs, key)))
    decreases |fs|
  {
    hide Step, Advance, Tracks;
    if fs != [] {
      var m :| Step(n, ttl, a, fs[0], m) && Steps(n, ttl, m, fs[1..], b);
      StepTracks(n, ttl, a, fs[0], m, key, x);
      StepsTrack(n, ttl, m, fs[1..], b, key, if KeyOf(fs[0].msg) == key then Advance(n, ttl, x) else x);
    }
  }

  /** One message of the conversation is in flight and there is no outcome yet. */
  ghost predicate Pending(s: State, key: Key) {
    Conclusions(s.log, key) == [] && exists f :: s.flights[f] == 1 && forall f' :: f' in s.flights && KeyOf(f'.msg) == key ==> f' == f
  }

  /** The outcome has been shown, exactly once, and nothing is left in flight. */
  ghost predicate Settled(s: State, key: Key, at: Node, e: Event) {
    Conclusions(s.log, key) == [(at, e)] && forall f :: f in s.flights ==> KeyOf(f.msg) != key
  }

  /** Either settled, or pending with fewer than `total` handlings done. */
  ghost predicate Resolves(s: State, fs: seq<Flight>, key: Key, total: nat, at: Node, e: Event) {
    Settled(s, key, at, e) || (Pending(s, key) && HandledFor(fs, key) < total)
  }

  lemma FateUpTo(n: Net, ttl: int, x: Fate, k: nat, total: nat, at: Node, e: Event)
    requires Leads(n, ttl, x, total, at, e)
    ensures AdvanceBy(n, ttl, x, k) == Ended(at, e) || (AdvanceBy(n, ttl, x, k).Flying? && k < total)
  {
    var y := AdvanceBy(n, ttl, x, k);
    if k >= total {
      AdvanceSum(n, ttl, x, total, k - total);
      EndedStays(n, ttl, Ended(at, e), k - total);
    } else if !y.Flying? {
      AdvanceSum(n, ttl, x, k, total - k);
      EndedStays(n, ttl, y, total - k);
    }
  }

  lemma OutcomeInTraffic(n: Net, ttl: int, x: Fate, total: nat, at: Node, e: Event, a: State, fs: seq<Flight>, b: State, key: Key)
    requires Leads(n, ttl, x, total, at, e)
    requires Tracks(a, key, x) && Steps(n, ttl, a, fs, b)
    ensures Resolves(b, fs, key, total, at, e)
  {
    var k := HandledFor(fs, key);
    StepsTrack(n, ttl, a, fs, b, key, x);
    FateUpTo(n, ttl, x, k, total, at, e);
    var y := AdvanceBy(n, ttl, x, k);
    if y.Flying? {
      assert b.flights[y.f] == 1;
    }
  }

  /** Exactly one outcome, and never more than one message in flight, in every reachable state. */
  lemma PacketOutcome(n: Net, ttl: int, p: seq<Node>, back: seq<Node>, src: Node, dst: Node, seqnum: nat, t: nat,
                      data: string, a: State, fs: seq<Flight>, b: State)
    requires data != ""
    requires Path(n, p, src, dst) && Path(n, back, p[Turn(p, t)], src)
    requires Tracks(a, (Some(src), seqnum), Flying(Flight(p[1], PacketMessage(src, dst, seqnum, t, data))))
    requires Steps(n, ttl, a, fs, b)
    ensures Resolves(b, fs, (Some(src), seqnum), Turn(p, t) + |back| - 1, src, Outcome(p, t, seqnum))
  {
    hide Leads, Tracks, Steps, Resolves;
    PacketFate(n, ttl, p, back, src, dst, seqnum, t, data);
    OutcomeInTraffic(n, ttl, Flying(Flight(p[1], PacketMessage(src, dst, seqnum, t, data))), Turn(p, t) + |back| - 1,
      src, Outcome(p, t, seqnum), a, fs, b, (Some(src), seqnum));
  }

  /** What is shown in a run, in order. */
  function Shown(n: Net, ttl: int, fs: seq<Flight>): seq<(Node, Event)>
    requires forall f :: f in fs ==> Parsed(f)
  {
    if fs == [] then []
    else
      assert Parsed(fs[0]);
      var event := React(n, ttl, fs[0]).1;
      (if event.Some? then [(fs[0].at, event.value)] else []) + Shown(n, ttl, fs[1..])
  }

  /** The messages of one conversation among those handled. */
  function OfKey(fs: seq<Flight>, key: Key): seq<Flight>
    ensures forall f :: f in OfKey(fs, key) ==> f in fs
  {
    if fs == [] then [] else (if KeyOf(fs[0].msg) == key then [fs[0]] else []) + OfKey(fs[1..], key)
  }

  /** A run adds what its handlings show to the log. */
  lemma {:induction false} StepsLog(n: Net, ttl: int, a: State, fs: seq<Flight>, b: State)
    requires Steps(n, ttl, a, fs, b)
    ensures (forall f :: f in fs ==> Parsed(f)) && b.log == a.log + Shown(n, ttl, fs)
    decreases |fs|
  {
    hide React, Parsed, Step;
    if fs != [] {
      var m :| Step(n, ttl, a, fs[0], m) && Steps(n, ttl, m, fs[1..], b);
      StepLogs(n, ttl, a, fs[0], m);
      StepsLog(n, ttl, m, fs[1..], b);
      assert forall f :: f in fs ==> f == fs[0] || f in fs[1..];
    }
  }

  lemma StepLogs(n: Net, ttl: int, a: State, f: Flight, b: State)
    requires Step(n, ttl, a, f, b)
    ensures Parsed(f) && b.log == a.log + if React(n, ttl, f).1.Some? then [(f.at, React(n, ttl, f).1.value)] else []
  {
    hide React;
  }

  /** Amid any other traffic the handlings of a conversation show what they would show alone. */
  lemma {:induction false} StepsShow(n: Net, ttl: int, a: State, fs: seq<Flight>, b: State, key: Key, x: Fate)
    requires Steps(n, ttl, a, fs, b) && Tracks(a, key, x)
    ensures (forall f :: f in fs ==> Parsed(f)) && Shown(n, ttl, OfKey(fs, key)) == Shows(n, ttl, x, HandledFor(fs, key))
    decreases |fs|
  {
    hide React, Parsed, KeyOf, Advance, Tracks, Step, Shows;
    StepsLog(n, ttl, a, fs, b);
    if fs == [] {
      NothingShown(n, ttl, x);
    } else {
      var m :| Step(n, ttl, a, fs[0], m) && Steps(n, ttl, m, fs[1..], b);
      StepTracks(n, ttl, a, fs[0], m, key, x);
      StepsShow(n, ttl, m, fs[1..], b, key, if KeyOf(fs[0].msg) == key then Advance(n, ttl, x) else x);
      if KeyOf(fs[0].msg) == key {
        OwnStep(n, ttl, a, fs[0], m, key, x);
        OneShown(n, ttl, x, HandledFor(fs, key));
        assert ([fs[0]] + OfKey(fs[1..], key))[1..] == OfKey(fs[1..], key);
      } else {
        assert [] + OfKey(fs[1..], key) == OfKey(fs[1..], key);
      }
    }
  }

  lemma NothingShown(n: Net, ttl: int, x: Fate)
    ensures Shows(n, ttl, x, 0) == []
  {
  }

  lemma OwnStep(n: Net, ttl: int, a: State, f: Flight, b: State, key: Key, x: Fate)
    requires Step(n, ttl, a, f, b) && Tracks(a, key, x) && KeyOf(f.msg) == key
    ensures x == Flying(f) && Routable(f.msg)
  {
    hide React, KeyOf;
  }

  lemma ShowsUpTo(n: Net, ttl: int, x: Fate, k: nat, total: nat, at: Node, e: Event)
    requires Leads(n, ttl, x, total, at, e)
    ensures Shows(n, ttl, x, k) <= Shows(n, ttl, x, total)
    ensures k >= total ==> Shows(n, ttl, x, k) == Shows(n, ttl, x, total)
  {
    hide React, Advance, Shows;
    if k <= total {
      ShowsSum(n, ttl, x, k, total - k);
      ShowsSum(n, ttl, x, total, 0);
    } else {
      ShowsSum(n, ttl, x, total, k - total);
      EndedShows(n, ttl, at, e, k - total);
    }
  }

  lemma EndedShows(n: Net, ttl: int, at: Node, e: Event, k: nat)
    ensures Shows(n, ttl, Ended(at, e), k) == []
  {
  }

  /**
   In every reachable state of any traffic, the handlings of a packet have shown a beginning of what
   it is to show, and all of it once the outcome is there.
   */
  lemma PacketShownInTraffic(n: Net, ttl: int, p: seq<Node>, back: seq<Node>, src: Node, dst: Node, seqnum: nat, t: nat,
                             data: string, a: State, fs: seq<Flight>, b: State)
    requires data != ""
    requires Path(n, p, src, dst) && Path(n, back, p[Turn(p, t)], src)
    requires Tracks(a, (Some(src), seqnum), Flying(Flight(p[1], PacketMessage(src, dst, seqnum, t, data))))
    requires Steps(n, ttl, a, fs, b)
    ensures (forall f :: f in fs ==> Parsed(f)) && b.log == a.log + Shown(n, ttl, fs)
    ensures var shown := Shown(n, ttl, OfKey(fs, (Some(src), seqnum)));
      && shown <= Showing(p, t, src, dst, seqnum, data)
      && (HandledFor(fs, (Some(src), seqnum)) >= Turn(p, t) + |back| - 1 ==> shown == Showing(p, t, src, dst, seqnum, data))
  {
    hide Tracks, Steps, Shows, Shown, Leads, Parsed, OfKey, Showing;
    var x, key := Flying(Flight(p[1], PacketMessage(src, dst, seqnum, t, data))), (Some(src), seqnum);
    PacketFate(n, ttl, p, back, src, dst, seqnum, t, data);
    PacketShown(n, ttl, p, back, src, dst, seqnum, t, data);
    StepsLog(n, ttl, a, fs, b);
    StepsShow(n, ttl, a, fs, b, key, x);
    ShowsUpTo(n, ttl, x, HandledFor(fs, key), Turn(p, t) + |back| - 1, src, Outcome(p, t, seqnum));
  }

  /* ---- traceroute ---- */

  function PingMessage(src: Node, dst: Node, seqnum: int, ttl: int): M.Message {
    M.EMPTY.(kind := M.Ping, seqnum := seqnum, node1 := Some(src), node2 := Some(dst), number := ttl)
  }

  /** The answer of router `hop` to a ping, as the next router receives it. */
  function PongMessage(hop: Node, src: Node, dst: Node, seqnum: int, ttl: int): M.Message {
    var m := M.EMPTY.(kind := M.Pong, seqnum := seqnum, node1 := Some(hop), node2 := Some(src));
    if hop == dst then m.(number := ttl) else m.(accept := M.TtlZero)
  }

  /** The answer as the prober sees it: the destination's has lost time to live on its way. */
  function Pong(back: seq<Node>, src: Node, dst: Node, seqnum: int, ttl: int): M.Message
    requires |back| >= 2
  {
    var pong := PongMessage(back[0], src, dst, seqnum, ttl);
    if back[0] == dst then pong.(number := ttl - (|back| - 2)) else pong
  }

  lemma PongReturns(n: Net, ttl: int, back: seq<Node>, src: Node, dst: Node, seqnum: nat)
    requires |back| >= 2 && Path(n, back, back[0], src)
    requires back[0] == dst ==> |back| - 1 <= ttl + 1
    ensures var pong, z := Pong(back, src, dst, seqnum, ttl), Flying(Flight(back[1], PongMessage(back[0], src, dst, seqnum, ttl)));
      && Leads(n, ttl, z, |back| - 1, src, Answered(pong))
      && Shows(n, ttl, z, |back| - 1) == [(src, Answered(pong))]
  {
    var pong := PongMessage(back[0], src, dst, seqnum, ttl);
    var z := Flying(Flight(back[1], pong));
    if back[0] == dst {
      Carried(n, ttl, back, src, 1, |back| - 2, pong);
    } else {
      Returned(n, ttl, back, src, 1, |back| - 2, pong);
    }
    AdvanceSum(n, ttl, z, |back| - 2, 1);
    ShowsSum(n, ttl, z, |back| - 2, 1);
    PongTaken(n, ttl, Pong(back, src, dst, seqnum, ttl), src);
  }

  lemma PongTaken(n: Net, ttl: int, pong: M.Message, src: Node)
    requires Routable(pong) && pong.kind.Pong? && pong.node2 == Some(src)
    ensures var x := Flying(Flight(src, pong));
      AdvanceBy(n, ttl, x, 1) == Ended(src, Answered(pong)) && Shows(n, ttl, x, 1) == [(src, Answered(pong))]
  {
    var x := Flying(Flight(src, pong));
    assert Advance(n, ttl, x) == Ended(src, Answered(pong));
    EndedStays(n, ttl, Ended(src, Answered(pong)), 0);
    NothingShown(n, ttl, Ended(src, Answered(pong)));
  }

  /** The handling at which a ping turns round; nothing is shown there. */
  lemma PingTurns(n: Net, ttl: int, p: seq<Node>, back: seq<Node>, src: Node, dst: Node, seqnum: nat, i: nat)
    requires Path(n, p, src, dst) && Path(n, back, p[Turn(p, i)], src)
    requires p[Turn(p, i)] == dst ==> ttl >= 0
    ensures var turn := Turn(p, i);
      var f := Flight(p[turn], PingMessage(src, dst, seqnum, i - (turn - 1)));
      && Advance(n, ttl, Flying(f)) == Flying(Flight(back[1], PongMessage(p[turn], src, dst, seqnum, ttl)))
      && React(n, ttl, f).1 == None
  {
  }

  /** A ping with time to live i is answered by router i + 1 of the path, or by the destination; only the prober sees anything. */
  lemma PingFate(n: Net, ttl: int, p: seq<Node>, back: seq<Node>, src: Node, dst: Node, seqnum: nat, i: nat)
    requires Path(n, p, src, dst) && Path(n, back, p[Turn(p, i)], src)
    requires p[Turn(p, i)] == dst ==> |back| - 1 <= ttl + 1
    ensures var m := PingMessage(src, dst, seqnum, i);
      Send(n, src, m) == Some(Flight(p[1], m))
    ensures var x, total := Flying(Flight(p[1], PingMessage(src, dst, seqnum, i))), Turn(p, i) + |back| - 1;
      && Leads(n, ttl, x, total, src, Answered(Pong(back, src, dst, seqnum, ttl)))
      && Shows(n, ttl, x, total) == [(src, Answered(Pong(back, src, dst, seqnum, ttl)))]
  {
    hide Advance, AdvanceBy, React, Shows, Leads;
    var turn := Turn(p, i);
    var m := PingMessage(src, dst, seqnum, i);
    var x, y := Flying(Flight(p[1], m)), Flying(Flight(p[turn], m.(number := i - (turn - 1))));
    Carried(n, ttl, p, dst, 1, turn - 1, m);
    PingTurns(n, ttl, p, back, src, dst, seqnum, i);
    PongReturns(n, ttl, back, src, dst, seqnum);
    var z := Flying(Flight(back[1], PongMessage(p[turn], src, dst, seqnum, ttl)));
    PingLeads(n, ttl, x, turn - 1, y, z, |back| - 1, src, Answered(Pong(back, src, dst, seqnum, ttl)));
    ShowsSum(n, ttl, x, turn - 1, |back|);
    OneShown(n, ttl, y, |back|);
  }

  lemma PingLeads(n: Net, ttl: int, x: Fate, i: nat, y: Fate, z: Fate, j: nat, at: Node, e: Event)
    requires AdvanceBy(n, ttl, x, i) == y && Advance(n, ttl, y) == z && Leads(n, ttl, z, j, at, e)
    ensures Leads(n, ttl, x, i + 1 + j, at, e)
  {
    ThereAndBack(n, ttl, x, i, y, z, j);
  }

  /* ---- over the tables the routing protocol computes ---- */

  /** Next hops lead to every known destination in every reachable state without shortcuts. */
  lemma ReachablePath(g: Graph, n: Net, u: Node, s: Node)
    requires WellFormed(g) && NoShortcut(g) && Reachable(g, n) && u in n && s in n[u]
    ensures Inv(g, n) && Path(n, HopPath(g, n, u, s), u, s) && |HopPath(g, n, u, s)| <= |g.nodes|
  {
    InitInv(g);
    var sched :| Run(g, Init(g), sched, n);
    RunInv(g, Init(g), sched, n);
    LoopFree(g, n, u, s);
    var p := HopPath(g, n, u, s);
    WalkInGraph(g, p);
    DistinctFits(p, g.nodes);
  }

  /** Once routing has converged, a large enough time to live always gets a packet acknowledged. */
  lemma EndToEnd(g: Graph, n: Net, ttl: int, src: Node, dst: Node, seqnum: nat, t: nat, data: string)
    requires data != ""
    requires WellFormed(g) && NoShortcut(g) && Reachable(g, n) && Exact(g, n)
    requires src in g.nodes && dst in g.nodes && src != dst && t + 2 >= |g.nodes|
    ensures exists k, h ::
      && Send(n, src, PacketMessage(src, dst, seqnum, t, data)) == Some(Flight(h, PacketMessage(src, dst, seqnum, t, data)))
      && Leads(n, ttl, Flying(Flight(h, PacketMessage(src, dst, seqnum, t, data))), k, src, Delivered(seqnum))
  {
    ReachablePath(g, n, src, dst);
    ReachablePath(g, n, dst, src);
    var p, back := HopPath(g, n, src, dst), HopPath(g, n, dst, src);
    PacketFate(n, ttl, p, back, src, dst, seqnum, t, data);
  }
}
