/** The text form of protocol messages: how it is printed, how it is read, and that reading undoes printing. */
module MessageText {
  import opened Wrappers
  import opened Message
  import opened RegexMatcher
  import opened RegexAcceptance
  import opened MessagePatterns
  import opened MessageDispatch
  import opened Strtok
  import Chars
  import Decimal

  /* ---- printing ---- */

  /** What packets, pings and pongs start with. */
  function HeaderFields(s: string, m: Message): seq<string>
    requires m.node1.Some? && m.node2.Some?
  {
    [s, "seqnum", Decimal.Print(m.seqnum), "src", m.node1.value, "dst", m.node2.value]
  }

  /** Whether every string the printed form of m needs is there. */
  predicate IsPrintable(m: Message) {
    match m.kind
    case Login | Logout | Bye | Poll => true
    case Greeting => m.node1.Some?
    case Neighborhood => m.accept == Accepted || m.text.Some?
    case Link => m.accept == Accepted || m.node1.Some?
    case Vector => m.accept == Accepted || m.text.Some?
    case Packet => m.node1.Some? && m.node2.Some? && (m.accept == Accepted || m.accept == TooFar || m.text.Some?)
    case Ping | Pong => m.node1.Some? && m.node2.Some?
    case _ => false
  }

  /** The space-separated fields of the printed form. */
  function Fields(m: Message): (ss: seq<string>)
    requires IsPrintable(m)
    ensures ss != []
  {
    var number := Decimal.Print(m.number);
    match m.kind
    case Login => if m.node1.None? then ["log", "in", "port", number] else ["log", "in", "as", m.node1.value, "port", number]
    case Logout => ["log", "out"]
    case Greeting => ["greeting", m.node1.value]
    case Bye => ["bye"]
    case Poll => ["poll"]
    case Neighborhood => if m.accept == Accepted then ["neighborhood", "ok"] else ["neighborhood", "newlist", m.text.value]
    case Link => if m.accept == Accepted then ["link", "ok"] else ["link", "id", m.node1.value]
    case Vector => if m.accept == Accepted then ["vector", "ok"] else ["vector", m.text.value]
    case Packet =>
      HeaderFields("packet", m) + (if m.accept == Accepted then ["ok"] else if m.accept == TooFar then ["toofar"]
                                   else ["ttl", number, "data", m.text.value])
    case Ping => HeaderFields("ping", m) + ["ttl", number]
    case Pong => HeaderFields("pong", m) + (if m.accept != TtlZero then ["ttl", number] else ["ttlzero"])
  }

  /** mess__toString; nothing defined is printed for the other kinds, or where a string is missing. */
  function ToString(m: Message): Option<string> {
    if IsPrintable(m) then Some(Join(Fields(m))) else None
  }

  /* ---- reading ---- */

  /** What reading gives: a message, or a use of a null pointer or of memory outside the text. */
  datatype Outcome = Parsed(message: Message) | Stray

  /** str_sub: the characters from start to end, both included; null unless there are at least two. */
  function SubString(s: string, start: nat, end: int): Option<string> {
    if start < end <= |s| then Some(if end < |s| then s[start..end + 1] else s[start..]) else None
  }

  /** Stores a decimal number; atoi does not survive a null pointer. */
  function WithNumber(m: Message, t: Option<string>): Outcome {
    if t.None? then Stray else Parsed(m.(number := Decimal.Atoi(t.value)))
  }

  /** strstr: the position of the first occurrence of a string, if there is one. */
  function Find(s: string, what: string): (r: Option<nat>)
    ensures r.Some? ==> OccursAt(s, what, r.value)
  {
    if what <= s then Some(0)
    else if s == "" then None
    else
      var r := Find(s[1..], what);
      if r.None? then None
      else
        assert s[1..][r.value..r.value + |what|] == s[r.value + 1..r.value + 1 + |what|];
        Some(r.value + 1)
  }

  lemma FindStep(s: string, what: string)
    requires s != "" && !(what <= s)
    ensures Find(s, what) == var r := Find(s[1..], what); if r.None? then None else Some(r.value + 1)
  {
  }

  lemma FindHere(s: string, what: string)
    ensures what <= s ==> Find(s, what) == Some(0)
    ensures s == "" && what != "" ==> Find(s, what) == None
  {
  }

  lemma {:induction false} FindFirst(s: string, what: string, p: nat)
    requires OccursAt(s, what, p)
    ensures Find(s, what).Some? && Find(s, what).value <= p
  {
    if !(what <= s) && p > 0 {
      assert s[1..][p - 1..p - 1 + |what|] == s[p..p + |what|];
      FindFirst(s[1..], what, p - 1);
    }
  }

  predicate OccursAt(s: string, what: string, p: int) {
    0 <= p && p + |what| <= |s| && s[p..p + |what|] == what
  }

  /** The text of a `message` command: it is looked for after the first occurrence of the destination. */
  function DecodeText(text: string): Outcome {
    var id := Token(text, 1);
    if id.None? then Stray
    else
      var at := Find(text, id.value);
      if at.None? then Stray
      else
        var ptr := at.value + |id.value| + 2;
        if ptr >= |text| then Stray
        else Parsed(EMPTY.(kind := Kind.Text, node1 := id, text := Some(text[ptr..|text| - 1])))
  }

  function DecodeLink(kind: Kind, text: string): Message {
    EMPTY.(kind := kind, node1 := Token(text, 2), node2 := Token(text, 3))
  }

  /** Sequence number, source and destination. */
  function DecodeHeader(kind: Kind, accept: Acceptance, text: string): Outcome {
    var q := Token(text, 2);
    if q.None? then Stray
    else Parsed(EMPTY.(kind := kind, accept := accept, seqnum := Decimal.Atoi(q.value),
                       node1 := Token(text, 4), node2 := Token(text, 6)))
  }

  function DecodeTtl(kind: Kind, text: string): Outcome {
    var o := DecodeHeader(kind, Not, text);
    if o.Stray? then Stray else WithNumber(o.message, Token(text, 8))
  }

  /** The data is what remains after the TTL, without the five characters of its label. */
  function DecodePacket(text: string): Outcome {
    var o := DecodeTtl(Packet, text);
    var rest := RestAfter(text, 9);
    if o.Stray? || |rest| < 5 then Stray else Parsed(o.message.(text := Some(rest[5..])))
  }

  /** The switch of mess__parse. */
  function Decode(i: nat, text: string): Outcome {
    match i
    case 0 => Parsed(EMPTY.(kind := Load, text := SubString(text, 5, |text| - 1)))
    case 1 => Parsed(EMPTY.(kind := Save, text := SubString(text, 5, |text| - 1)))
    case 2 => Parsed(EMPTY.(kind := Show))
    case 3 => WithNumber(DecodeLink(AddLink, text), Token(text, 4))
    case 4 => WithNumber(DecodeLink(UpdateLink, text), Token(text, 4))
    case 5 => Parsed(DecodeLink(DelLink, text))
    case 6 => Parsed(EMPTY.(kind := Disconnect, node1 := Token(text, 1)))
    case 7 => DecodeText(text)
    case 8 => Parsed(EMPTY.(kind := Route, node1 := Token(text, 1)))
    case 9 => Parsed(EMPTY.(kind := RouteTable))
    case 10 => WithNumber(EMPTY.(kind := Login, node1 := Token(text, 3)), Token(text, 5))
    case 11 => WithNumber(EMPTY.(kind := Login), Token(text, 3))
    case 12 => Parsed(EMPTY.(kind := Logout))
    case 13 => Parsed(EMPTY.(kind := Greeting, node1 := Token(text, 1)))
    case 14 => Parsed(EMPTY.(kind := Bye))
    case 15 => Parsed(EMPTY.(kind := Poll))
    case 16 => Parsed(EMPTY.(kind := Neighborhood, text := Token(text, 2)))
    case 17 => Parsed(EMPTY.(kind := Neighborhood, accept := Accepted))
    case 18 => Parsed(EMPTY.(kind := Link, node1 := Token(text, 2)))
    case 19 => Parsed(EMPTY.(kind := Link, accept := Accepted))
    case 20 => Parsed(EMPTY.(kind := Vector, text := Token(text, 1)))
    case 21 => Parsed(EMPTY.(kind := Vector, accept := Accepted))
    case 22 => DecodePacket(text)
    case 23 => DecodeHeader(Packet, Accepted, text)
    case 24 => DecodeHeader(Packet, TooFar, text)
    case 25 => DecodeTtl(Ping, text)
    case 26 => DecodeTtl(Pong, text)
    case 27 => DecodeHeader(Pong, TtlZero, text)
    case 28 => Parsed(EMPTY.(kind := Ping, node1 := Token(text, 1)))
    case 29 => Parsed(EMPTY.(kind := Quit))
    case 30 => Parsed(EMPTY.(kind := Neighborhood, text := Some("")))
    case 31 => Parsed(EMPTY.(kind := Vector, text := Some("[]")))
    case 32 => Parsed(EMPTY.(kind := NetworkDebug))
    case _ => Parsed(EMPTY)
  }

  /** mess__parse. */
  function Parse(x: Memory): Outcome {
    match FirstMatch(x, 0)
    case None => Parsed(EMPTY)
    case Some(i) => Decode(i, x.text)
  }

  /* ---- what can be sent ---- */

  predicate IsId(s: string) {
    s != "" && AllIn('w', s)
  }

  predicate IsList(s: string) {
    s == "[]" || (Enclosed('[', ']', s) && ' ' !in s)
  }

  /** The messages the protocol exchanges: identifiers and lists are well formed. */
  predicate IsProtocol(m: Message) {
    && IsPrintable(m)
    && match m.kind
       case Login => m.node1.Some? ==> IsId(m.node1.value)
       case Greeting => IsId(m.node1.value)
       case Neighborhood => m.accept == Accepted || IsList(m.text.value)
       case Link => m.accept == Accepted || IsId(m.node1.value)
       case Vector => m.accept == Accepted || IsList(m.text.value)
       case Packet | Ping | Pong => IsId(m.node1.value) && IsId(m.node2.value)
       case _ => true
  }

  /** The pattern the printed form of a message belongs to. */
  function IndexOf(m: Message): (i: nat)
    requires IsPrintable(m)
    ensures i < COUNT
  {
    match m.kind
    case Login => if m.node1.None? then 11 else 10
    case Logout => 12
    case Greeting => 13
    case Bye => 14
    case Poll => 15
    case Neighborhood => if m.accept == Accepted then 17 else if m.text.value == "[]" then 30 else 16
    case Link => if m.accept == Accepted then 19 else 18
    case Vector => if m.accept == Accepted then 21 else if m.text.value == "[]" then 31 else 20
    case Packet => if m.accept == Accepted then 23 else if m.accept == TooFar then 24 else 22
    case Ping => 25
    case Pong => if m.accept == TtlZero then 27 else 26
  }

  /* ---- the printed form fits its pattern ---- */

  predicate FieldsFit(ws: Words, ss: seq<string>) {
    match ws
    case End(w) => |ss| == 1 && WordFits(w, ss[0])
    case Then(w, rest) => |ss| > 1 && WordFits(w, ss[0]) && ' ' !in ss[0] && FieldsFit(rest, ss[1..])
  }

  lemma {:induction false} JoinFits(ws: Words, ss: seq<string>)
    requires ss != [] && FieldsFit(ws, ss)
    ensures TextFits(ws, Join(ss))
  {
    if ws.Then? {
      FirstOfJoin(ss[0], Join(ss[1..]));
      JoinFits(ws.rest, ss[1..]);
    }
  }

  lemma FieldsFitThen(w: Word, rest: Words, s: string, ss: seq<string>)
    requires WordFits(w, s) && ' ' !in s && FieldsFit(rest, ss) && ss != []
    ensures FieldsFit(Then(w, rest), [s] + ss)
  {
    assert ([s] + ss)[1..] == ss;
  }

  lemma NumberField(n: nat)
    ensures WordFits(Number, Decimal.Print(n)) && IsField(Decimal.Print(n)) && Decimal.Atoi(Decimal.Print(n)) == n
  {
    Decimal.DigitsAreDigits(n);
    Decimal.AtoiPrint(n);
    var s := Decimal.Digits(n);
    assert forall i :: 0 <= i < |s| ==> s[i] in s && Chars.IsDigit(s[i]);
  }

  lemma IdField(s: string)
    requires IsId(s)
    ensures WordFits(Name, s) && IsField(s)
  {
    NoSpace(Name, s);
  }

  lemma HeaderFits(s: string, m: Message, rest: Words, ss: seq<string>)
    requires ' ' !in s && m.node1.Some? && m.node2.Some? && IsId(m.node1.value) && IsId(m.node2.value) && m.seqnum >= 0
    requires FieldsFit(rest, ss) && ss != []
    ensures FieldsFit(Header(s, rest), HeaderFields(s, m) + ss)
  {
    hide FieldsFit, AllIn, Decimal.Print, Decimal.Atoi, WordFits, IsId, HeaderFields;
    var q, n1, n2 := Decimal.Print(m.seqnum), m.node1.value, m.node2.value;
    NumberField(m.seqnum);
    IdField(n1);
    IdField(n2);
    FieldsFitThen(Name, rest, n2, ss);
    var ws1, ss1 := Then(Name, rest), [n2] + ss;
    FieldsFitThen(Fixed("dst"), ws1, "dst", ss1);
    var ws2, ss2 := Then(Fixed("dst"), ws1), ["dst"] + ss1;
    FieldsFitThen(Name, ws2, n1, ss2);
    var ws3, ss3 := Then(Name, ws2), [n1] + ss2;
    FieldsFitThen(Fixed("src"), ws3, "src", ss3);
    var ws4, ss4 := Then(Fixed("src"), ws3), ["src"] + ss3;
    FieldsFitThen(Number, ws4, q, ss4);
    var ws5, ss5 := Then(Number, ws4), [q] + ss4;
    FieldsFitThen(Fixed("seqnum"), ws5, "seqnum", ss5);
    var ws6, ss6 := Then(Fixed("seqnum"), ws5), ["seqnum"] + ss5;
    FieldsFitThen(Fixed(s), ws6, s, ss6);
    HeaderConcat(s, m, ss);
  }

  lemma HeaderConcat(s: string, m: Message, ss: seq<string>)
    requires m.node1.Some? && m.node2.Some?
    ensures HeaderFields(s, m) + ss ==
      [s] + (["seqnum"] + ([Decimal.Print(m.seqnum)] + (["src"] + ([m.node1.value] + (["dst"] + ([m.node2.value] + ss))))))
  {
    hide Decimal.Print;
  }

  lemma TtlFits(n: int)
    requires n >= 0
    ensures FieldsFit(Then(Fixed("ttl"), End(Number)), ["ttl", Decimal.Print(n)])
  {
    NumberField(n);
    hide AllIn;
    FieldsFitThen(Fixed("ttl"), End(Number), "ttl", [Decimal.Print(n)]);
  }

  lemma DataFits(n: int, data: string)
    requires n >= 0 && data != ""
    ensures FieldsFit(Then(Fixed("ttl"), Then(Number, Then(Fixed("data"), End(Anything)))),
                      ["ttl", Decimal.Print(n), "data", data])
  {
    NumberField(n);
    hide AllIn;
    FieldsFitThen(Fixed("data"), End(Anything), "data", [data]);
    FieldsFitThen(Number, Then(Fixed("data"), End(Anything)), Decimal.Print(n), ["data"] + [data]);
    FieldsFitThen(Fixed("ttl"), Then(Number, Then(Fixed("data"), End(Anything))), "ttl",
                  [Decimal.Print(n)] + (["data"] + [data]));
    assert ["ttl"] + ([Decimal.Print(n)] + (["data"] + [data])) == ["ttl", Decimal.Print(n), "data", data];
  }

  lemma RoutedFits(m: Message)
    requires IsProtocol(m) && Readable(m) && (m.kind == Packet || m.kind == Ping || m.kind == Pong)
    ensures FieldsFit(PatternOf(IndexOf(m)), Fields(m))
  {
    hide FieldsFit, AllIn;
    if m.kind == Packet {
      if m.accept == Accepted {
        WordEnds("ok");
        HeaderFits("packet", m, End(Fixed("ok")), ["ok"]);
      } else if m.accept == TooFar {
        WordEnds("toofar");
        HeaderFits("packet", m, End(Fixed("toofar")), ["toofar"]);
      } else {
        DataFits(m.number, m.text.value);
        HeaderFits("packet", m, Then(Fixed("ttl"), Then(Number, Then(Fixed("data"), End(Anything)))),
                   ["ttl", Decimal.Print(m.number), "data", m.text.value]);
      }
    } else if m.accept == TtlZero && m.kind == Pong {
      WordEnds("ttlzero");
      HeaderFits("pong", m, End(Fixed("ttlzero")), ["ttlzero"]);
    } else {
      TtlFits(m.number);
      HeaderFits(if m.kind == Ping then "ping" else "pong", m, Then(Fixed("ttl"), End(Number)), ["ttl", Decimal.Print(m.number)]);
    }
  }

  lemma WordEnds(s: string)
    ensures FieldsFit(End(Fixed(s)), [s])
  {
  }

  lemma LoginFits(m: Message)
    requires IsProtocol(m) && m.kind == Login && m.number >= 0
    ensures FieldsFit(PatternOf(IndexOf(m)), Fields(m))
  {
    hide FieldsFit, AllIn;
    var number := Decimal.Print(m.number);
    NumberField(m.number);
    assert FieldsFit(End(Number), [number]) by { NumberEnds(m.number); }
    FieldsFitThen(Fixed("port"), End(Number), "port", [number]);
    var ws, ss := Then(Fixed("port"), End(Number)), ["port"] + [number];
    if m.node1.None? {
      FieldsFitThen(Fixed("in"), ws, "in", ss);
      FieldsFitThen(Fixed("log"), Then(Fixed("in"), ws), "log", ["in"] + ss);
      assert ["log"] + (["in"] + ss) == Fields(m);
    } else {
      var id := m.node1.value;
      IdField(id);
      FieldsFitThen(Name, ws, id, ss);
      FieldsFitThen(Fixed("as"), Then(Name, ws), "as", [id] + ss);
      FieldsFitThen(Fixed("in"), Then(Fixed("as"), Then(Name, ws)), "in", ["as"] + ([id] + ss));
      FieldsFitThen(Fixed("log"), Then(Fixed("in"), Then(Fixed("as"), Then(Name, ws))), "log", ["in"] + (["as"] + ([id] + ss)));
      assert ["log"] + (["in"] + (["as"] + ([id] + ss))) == Fields(m);
    }
  }

  lemma NumberEnds(n: nat)
    ensures FieldsFit(End(Number), [Decimal.Print(n)])
  {
    NumberField(n);
  }

  lemma TwoFit(s: string, w: Word, t: string)
    requires ' ' !in s && WordFits(w, t)
    ensures FieldsFit(Then(Fixed(s), End(w)), [s, t])
  {
    FieldsFitThen(Fixed(s), End(w), s, [t]);
  }

  lemma ThreeFit(s: string, t: string, w: Word, u: string)
    requires ' ' !in s && ' ' !in t && WordFits(w, u)
    ensures FieldsFit(Then(Fixed(s), Then(Fixed(t), End(w))), [s, t, u])
  {
    TwoFit(t, w, u);
    FieldsFitThen(Fixed(s), Then(Fixed(t), End(w)), s, [t, u]);
    assert [s] + [t, u] == [s, t, u];
  }

  lemma OtherFits(m: Message)
    requires IsProtocol(m) && m.kind != Login && m.kind != Packet && m.kind != Ping && m.kind != Pong
    ensures FieldsFit(PatternOf(IndexOf(m)), Fields(m))
  {
    hide FieldsFit, AllIn, Enclosed;
    if m.kind == Logout {
      TwoFit("log", Fixed("out"), "out");
    } else if m.kind == Greeting {
      TwoFit("greeting", Name, m.node1.value);
    } else if m.kind == Bye {
      WordEnds("bye");
    } else if m.kind == Poll {
      WordEnds("poll");
    } else if m.kind == Neighborhood {
      if m.accept == Accepted {
        TwoFit("neighborhood", Fixed("ok"), "ok");
      } else {
        ThreeFit("neighborhood", "newlist", if m.text.value == "[]" then EmptyList else Listed, m.text.value);
      }
    } else if m.kind == Link {
      if m.accept == Accepted {
        TwoFit("link", Fixed("ok"), "ok");
      } else {
        ThreeFit("link", "id", Name, m.node1.value);
      }
    } else if m.accept == Accepted {
      TwoFit("vector", Fixed("ok"), "ok");
    } else {
      TwoFit("vector", if m.text.value == "[]" then EmptyList else Listed, m.text.value);
    }
  }

  lemma PrintedFits(m: Message)
    requires IsProtocol(m) && Readable(m)
    ensures TextFits(PatternOf(IndexOf(m)), ToString(m).value)
  {
    hide FieldsFit, PatternOf, AllIn, TextFits;
    if m.kind == Login {
      LoginFits(m);
    } else if m.kind == Packet || m.kind == Ping || m.kind == Pong {
      RoutedFits(m);
    } else {
      OtherFits(m);
    }
    JoinFits(PatternOf(IndexOf(m)), Fields(m));
  }

  /* ---- and is read back ---- */

  lemma DecodeHeaderFields(s: string, m: Message, tail: seq<string>)
    requires IsField(s) && m.node1.Some? && m.node2.Some? && IsId(m.node1.value) && IsId(m.node2.value) && m.seqnum >= 0
    requires tail != []
    ensures var text := Join(HeaderFields(s, m) + tail);
      && (forall kind, accept :: DecodeHeader(kind, accept, text) ==
            Parsed(EMPTY.(kind := kind, accept := accept, seqnum := m.seqnum, node1 := m.node1, node2 := m.node2)))
      && RestAfter(text, 7) == Join(tail)
  {
    hide AllIn, RestAfter, Join, Token, IsField, Decimal.Print, Decimal.Atoi;
    var ss := HeaderFields(s, m) + tail;
    HeaderIsFields(s, m, tail);
    NumberField(m.seqnum);
    TokenOfJoin(ss, 2);
    TokenOfJoin(ss, 4);
    TokenOfJoin(ss, 6);
    TokenOfJoin(ss, 7);
  }

  lemma HeaderIsFields(s: string, m: Message, tail: seq<string>)
    requires IsField(s) && m.node1.Some? && m.node2.Some? && IsId(m.node1.value) && IsId(m.node2.value) && m.seqnum >= 0
    ensures var ss := HeaderFields(s, m) + tail;
      |ss| == 7 + |tail| && ss[7..] == tail && forall i :: 0 <= i < 7 ==> IsField(ss[i])
  {
    hide AllIn;
    NumberField(m.seqnum);
    IdField(m.node1.value);
    IdField(m.node2.value);
  }

  lemma DecodeTtlFields(s: string, m: Message, more: seq<string>)
    requires IsField(s) && m.node1.Some? && m.node2.Some? && IsId(m.node1.value) && IsId(m.node2.value)
    requires m.seqnum >= 0 && m.number >= 0
    ensures var text := Join(HeaderFields(s, m) + (["ttl", Decimal.Print(m.number)] + more));
      && (forall kind :: DecodeTtl(kind, text) ==
            Parsed(EMPTY.(kind := kind, seqnum := m.seqnum, node1 := m.node1, node2 := m.node2, number := m.number)))
      && (more != [] ==> RestAfter(text, 9) == Join(more))
  {
    hide AllIn, RestAfter, Join, Token, IsField, DecodeHeader, HeaderFields, Decimal.Print, Decimal.Atoi;
    var tail := ["ttl", Decimal.Print(m.number)] + more;
    var ss := HeaderFields(s, m) + tail;
    DecodeHeaderFields(s, m, tail);
    HeaderIsFields(s, m, tail);
    NumberField(m.number);
    assert IsField("ttl") by { LabelField(); }
    assert ss[7] == "ttl" && ss[8] == Decimal.Print(m.number) && ss[9..] == more;
    TokenOfJoin(ss, 8);
    if more != [] {
      TokenOfJoin(ss, 9);
    }
  }

  lemma LabelField()
    ensures IsField("ttl")
  {
  }

  lemma DecodeRouted(m: Message)
    requires IsProtocol(m) && Readable(m) && (m.kind == Packet || m.kind == Ping || m.kind == Pong)
    ensures Decode(IndexOf(m), ToString(m).value) == Parsed(OnWire(m))
  {
    hide AllIn, Join, RestAfter, Token, DecodeHeader, DecodeTtl;
    if m.kind == Packet {
      if m.accept == Accepted {
        DecodeHeaderFields("packet", m, ["ok"]);
      } else if m.accept == TooFar {
        DecodeHeaderFields("packet", m, ["toofar"]);
      } else {
        DecodeTtlFields("packet", m, ["data", m.text.value]);
        assert ["ttl", Decimal.Print(m.number)] + ["data", m.text.value]
            == ["ttl", Decimal.Print(m.number), "data", m.text.value];
        DataLabel(m.text.value);
      }
    } else if m.accept == TtlZero && m.kind == Pong {
      DecodeHeaderFields("pong", m, ["ttlzero"]);
    } else {
      DecodeTtlFields(if m.kind == Ping then "ping" else "pong", m, []);
      assert ["ttl", Decimal.Print(m.number)] + [] == ["ttl", Decimal.Print(m.number)];
    }
  }

  lemma DataLabel(data: string)
    ensures var rest := Join(["data", data]);
      |rest| >= 5 && rest[5..] == data
  {
    assert Join(["data", data]) == "data" + " " + data;
  }

  lemma DecodeLogin(m: Message)
    requires IsProtocol(m) && Readable(m) && m.kind == Login
    ensures Decode(IndexOf(m), ToString(m).value) == Parsed(OnWire(m))
  {
    hide AllIn, Join, RestAfter, Token, Decimal.Print, Decimal.Atoi;
    var ss := Fields(m);
    NumberField(m.number);
    if m.node1.Some? {
      IdField(m.node1.value);
      TokenOfJoin(ss, 5);
    }
    TokenOfJoin(ss, 3);
  }

  lemma DecodeNamed(m: Message)
    requires IsProtocol(m) && (m.kind == Greeting || m.kind == Link)
    ensures Decode(IndexOf(m), ToString(m).value) == Parsed(OnWire(m))
  {
    hide AllIn, Join, RestAfter, Token;
    var ss := Fields(m);
    if m.kind == Greeting || m.accept != Accepted {
      IdField(m.node1.value);
      TokenOfJoin(ss, if m.kind == Greeting then 1 else 2);
    }
  }

  lemma DecodeListed(m: Message)
    requires IsProtocol(m) && (m.kind == Neighborhood || m.kind == Vector)
    ensures Decode(IndexOf(m), ToString(m).value) == Parsed(OnWire(m))
  {
    hide AllIn, Join, RestAfter, Token, Enclosed;
    var ss := Fields(m);
    if m.accept != Accepted && m.text.value != "[]" {
      ListField(m.text.value);
      TokenOfJoin(ss, if m.kind == Vector then 1 else 2);
    }
  }

  lemma DecodeOther(m: Message)
    requires IsProtocol(m) && m.kind != Login && m.kind != Packet && m.kind != Ping && m.kind != Pong
    ensures Decode(IndexOf(m), ToString(m).value) == Parsed(OnWire(m))
  {
    hide AllIn, Join, RestAfter, Token, Enclosed, IsList, IsId;
    if m.kind == Greeting || m.kind == Link {
      DecodeNamed(m);
    } else if m.kind == Neighborhood || m.kind == Vector {
      DecodeListed(m);
    }
  }

  lemma ListField(s: string)
    requires IsList(s)
    ensures IsField(s)
  {
  }

  /* ---- what cannot be read back ---- */

  lemma {:induction false} FieldOfJoin(ss: seq<string>, n: nat)
    requires n < |ss| && forall i :: 0 <= i < n ==> ' ' !in ss[i]
    ensures After(Join(ss), n) == Join(ss[n..])
    ensures ' ' !in ss[n] ==> Field(Join(ss), n) == ss[n]
    decreases n
  {
    if n == 0 {
      assert ss[0..] == ss;
      if ' ' !in ss[0] {
        FirstOfJoin(ss[0], if |ss| > 1 then Join(ss[1..]) else "");
        assert ss[0][..|ss[0]|] == ss[0];
      }
    } else {
      FirstOfJoin(ss[0], Join(ss[1..]));
      FieldOfJoin(ss[1..], n - 1);
      assert ss[1..][n - 1..] == ss[n..];
    }
  }

  lemma NumberPrinted(n: int)
    ensures ' ' !in Decimal.Print(n) && (WordFits(Number, Decimal.Print(n)) <==> n >= 0)
  {
    if n >= 0 {
      NumberField(n);
    } else {
      Decimal.DigitsAreDigits(-n);
      assert Decimal.Print(n)[0] == '-';
    }
  }

  /** The fields of a printed packet, ping or pong. */
  lemma HeaderFieldsOf(s: string, m: Message, tail: seq<string>)
    requires ' ' !in s && m.node1.Some? && m.node2.Some? && IsId(m.node1.value) && IsId(m.node2.value) && tail != []
    ensures var text := Join(HeaderFields(s, m) + tail);
      && Field(text, 0) == s && Field(text, 2) == Decimal.Print(m.seqnum) && ' ' in After(text, 1)
      && After(text, 7) == Join(tail) && (' ' !in tail[0] ==> Field(text, 7) == tail[0])
  {
    hide AllIn, Decimal.Print, Field, After, Join;
    var ss := HeaderFields(s, m) + tail;
    NumberPrinted(m.seqnum);
    IdField(m.node1.value);
    IdField(m.node2.value);
    assert forall i :: 0 <= i < 7 ==> ' ' !in ss[i];
    assert ss[7..] == tail;
    FieldOfJoin(ss, 0);
    FieldOfJoin(ss, 1);
    FieldOfJoin(ss, 2);
    FieldOfJoin(ss, 7);
    JoinSpaces(ss[1..]);
  }

  lemma JoinSpaces(ss: seq<string>)
    requires |ss| > 1
    ensures ' ' in Join(ss)
  {
    assert Join(ss)[|ss[0]|] == ' ';
  }

  lemma ThenFits(w: Word, rest: Words, ss: seq<string>)
    requires |ss| > 1 && ' ' !in ss[0]
    ensures TextFits(Then(w, rest), Join(ss)) <==> WordFits(w, ss[0]) && TextFits(rest, Join(ss[1..]))
  {
    FirstOfJoin(ss[0], Join(ss[1..]));
  }

  /** The number after the label of the TTL, and the data if the number is not last. */
  lemma TtlOf(n: int, data: string)
    ensures TextFits(Then(Fixed("ttl"), End(Number)), Join(["ttl", Decimal.Print(n)])) ==> n >= 0
    ensures var ws := Then(Fixed("ttl"), Then(Number, Then(Fixed("data"), End(Anything))));
      TextFits(ws, Join(["ttl", Decimal.Print(n), "data", data])) ==> n >= 0 && data != ""
  {
    hide AllIn;
    NumberPrinted(n);
    var number := Decimal.Print(n);
    ThenFits(Fixed("ttl"), End(Number), ["ttl", number]);
    assert ["ttl", number][1..] == [number];
    ThenFits(Fixed("ttl"), Then(Number, Then(Fixed("data"), End(Anything))), ["ttl", number, "data", data]);
    assert ["ttl", number, "data", data][1..] == [number, "data", data];
    ThenFits(Number, Then(Fixed("data"), End(Anything)), [number, "data", data]);
    assert [number, "data", data][1..] == ["data", data];
    ThenFits(Fixed("data"), End(Anything), ["data", data]);
    assert ["data", data][1..] == [data];
  }

  function Drop(ws: Words, n: nat): Words
    requires n < Length(ws)
  {
    if n == 0 then ws else Drop(ws.rest, n - 1)
  }

  lemma {:induction false} DropFits(ws: Words, text: string, n: nat)
    requires TextFits(ws, text) && n < Length(ws)
    ensures TextFits(Drop(ws, n), After(text, n))
    decreases n
  {
    if n > 0 {
      DropFits(ws.rest, text[FirstSpace(text) + 1..], n - 1);
    }
  }

  /** A text that fits a pattern with a header has a number in the third field and what follows fits the rest. */
  lemma HeaderRest(s: string, rest: Words, text: string)
    requires IsPattern(Header(s, rest)) && TextFits(Header(s, rest), text)
    ensures WordFits(Number, Field(text, 2)) && TextFits(rest, After(text, 7))
  {
    hide IsPattern, TextFits, Field, After, AllIn;
    var ws := Header(s, rest);
    var ws' := ws.rest.rest.rest.rest;
    ThreeOn(Name, Fixed("dst"), Name, rest, 0);
    ThreeOn(Fixed("seqnum"), Number, Fixed("src"), ws', 0);
    assert Drop(ws', 3) == rest by {
      assert Drop(ws', 3) == Drop(ws'.rest, 2) == Drop(ws'.rest.rest, 1) == rest;
    }
    assert Drop(ws, 7) == Drop(ws.rest, 6) == Drop(ws.rest.rest, 5) == Drop(ws.rest.rest.rest, 4) == Drop(ws', 3);
    assert Nth(ws, 2) == Nth(ws.rest, 1) == Number;
    FieldFits(ws, text, 2);
    DropFits(ws, text, 7);
  }

  lemma JoinOne(s: string)
    ensures Join([s]) == s
  {
  }

  /** What follows the header of a printed packet, ping or pong, and the pattern it belongs to. */
  function TailFields(m: Message): (ss: seq<string>)
    requires IsPrintable(m) && (m.kind == Packet || m.kind == Ping || m.kind == Pong)
    ensures ss != []
  {
    var ttl := ["ttl", Decimal.Print(m.number)];
    if m.kind == Packet && m.accept == Accepted then ["ok"]
    else if m.kind == Packet && m.accept == TooFar then ["toofar"]
    else if m.kind == Packet then ["ttl", Decimal.Print(m.number), "data", m.text.value]
    else if m.kind == Pong && m.accept == TtlZero then ["ttlzero"]
    else ttl
  }

  function HeaderWord(m: Message): string {
    if m.kind == Packet then "packet" else if m.kind == Ping then "ping" else "pong"
  }

  lemma RoutedTold(m: Message)
    requires IsProtocol(m) && (m.kind == Packet || m.kind == Ping || m.kind == Pong)
    ensures Classify(ToString(m).value) == IndexOf(m)
    ensures Fields(m) == HeaderFields(HeaderWord(m), m) + TailFields(m)
  {
    hide Field, After, AllIn, HeaderFields, Join, FirstSpace;
    HeaderFieldsOf(HeaderWord(m), m, TailFields(m));
  }

  lemma RoutedUnread(m: Message)
    requires IsProtocol(m) && (m.kind == Packet || m.kind == Ping || m.kind == Pong)
    requires TextFits(PatternOf(IndexOf(m)), ToString(m).value)
    ensures Readable(m)
  {
    hide IsPattern, TextFits, Field, After, AllIn, Header, HeaderFields, Fields, Join, FirstSpace, Classify;
    var text := ToString(m).value;
    RoutedTold(m);
    HeaderFieldsOf(HeaderWord(m), m, TailFields(m));
    TableIsPattern(IndexOf(m));
    NumberPrinted(m.seqnum);
    TtlOf(m.number, if m.text.Some? then m.text.value else "");
    if m.kind == Packet {
      HeaderRest("packet", if m.accept == Accepted then End(Fixed("ok")) else if m.accept == TooFar then End(Fixed("toofar"))
                           else Then(Fixed("ttl"), Then(Number, Then(Fixed("data"), End(Anything)))), text);
    } else if m.accept == TtlZero && m.kind == Pong {
      HeaderRest("pong", End(Fixed("ttlzero")), text);
    } else {
      HeaderRest(HeaderWord(m), Then(Fixed("ttl"), End(Number)), text);
    }
  }

  lemma LoginTold(m: Message)
    requires IsProtocol(m) && m.kind == Login
    ensures Classify(ToString(m).value) == IndexOf(m)
    ensures After(ToString(m).value, if m.node1.None? then 3 else 5) == Decimal.Print(m.number)
  {
    hide Field, After, AllIn, Join, FirstSpace;
    var ss := Fields(m);
    JoinOne(Decimal.Print(m.number));
    if m.node1.Some? { IdField(m.node1.value); }
    FieldOfJoin(ss, 0);
    FieldOfJoin(ss, 1);
    FieldOfJoin(ss, 2);
    FieldOfJoin(ss, if m.node1.None? then 3 else 5);
  }

  lemma LoginUnread(m: Message)
    requires IsProtocol(m) && m.kind == Login && TextFits(PatternOf(IndexOf(m)), ToString(m).value)
    ensures Readable(m)
  {
    hide IsPattern, TextFits, Field, After, AllIn, Fields, Join, FirstSpace, Classify;
    LoginTold(m);
    TableIsPattern(IndexOf(m));
    NumberPrinted(m.number);
    if m.node1.None? {
      FieldFits(PatternOf(11), ToString(m).value, 3);
    } else {
      FieldFits(PatternOf(10), ToString(m).value, 5);
    }
  }

  /**
   Printing and parsing, through the real matcher: a protocol message comes back, up to the fields its
   printed form does not carry, exactly when its numbers are not negative and its data is not empty.
   Otherwise no pattern accepts it and an empty message is read.
   */
  lemma RoundTrip(m: Message, x: Memory)
    requires IsProtocol(m) && Some(x.text) == ToString(m) && IsText(x.text)
    ensures Parse(x) == if Readable(m) then Parsed(OnWire(m)) else Parsed(EMPTY)
    ensures Parse(x) == Parsed(OnWire(m)) <==> Readable(m)
  {
    hide PatternOf, TextFits, Matched, Decode, Fields, AllIn, Classify, After, IndexOf, FirstMatch;
    if Readable(m) {
      PrintedFits(m);
      Dispatched(x, IndexOf(m));
      if m.kind == Packet || m.kind == Ping || m.kind == Pong {
        DecodeRouted(m);
      } else if m.kind == Login {
        DecodeLogin(m);
      } else {
        DecodeOther(m);
      }
    } else {
      var r := FirstMatch(x, 0);
      FirstFound(x, 0);
      if r.Some? {
        MatchedFits(r.value, x);
        Unique(r.value, x.text);
        if m.kind == Login {
          LoginTold(m);
          LoginUnread(m);
        } else {
          RoutedTold(m);
          RoutedUnread(m);
        }
      }
    }
  }

  /* ---- commands typed by a user ---- */

  /** An identifier that starts within the command word and the space after it lies within the command word. */
  lemma OccursInside(id: string, text: string, p: nat)
    requires IsField(id) && |text| >= 8 + |id| && text[..8] == "message " && p < 8
    ensures OccursAt(text, id, p) <==> OccursAt("message", id, p)
  {
    assert text[7] == text[..8][7] == ' ';
    if p + |id| <= 7 {
      assert forall i :: 0 <= i < 7 ==> text[i] == text[..8][i] == "message "[i] == "message"[i];
      assert text[p..p + |id|] == "message"[p..p + |id|];
    } else {
      assert text[p..p + |id|][7 - p] == ' ';
    }
  }

  ghost predicate OccursIn(word: string, id: string) {
    exists p :: OccursAt(word, id, p)
  }

  lemma FoundAt(text: string, id: string, at: nat)
    requires at + |id| <= |text| && text[at..at + |id|] == id
    ensures OccursAt(text, id, at)
  {
  }

  /** Where the search for the destination of `message` finds it: inside the command word if it occurs there. */
  lemma FindId(id: string, text: string)
    requires IsField(id) && |text| >= 8 + |id| && text[..8] == "message " && text[8..8 + |id|] == id
    ensures var at := Find(text, id);
      at.Some? && at.value <= 8 && (at.value == 8 <==> !OccursIn("message", id))
  {
    hide OccursAt, Find;
    FoundAt(text, id, 8);
    FindFirst(text, id, 8);
    var at := Find(text, id).value;
    if at < 8 {
      OccursInside(id, text, at);
    }
    if OccursIn("message", id) {
      var p :| OccursAt("message", id, p);
      assert 0 <= p < 8 by { InRange("message", id, p); }
      OccursInside(id, text, p);
      FindFirst(text, id, p);
    }
  }

  lemma InRange(s: string, id: string, p: int)
    requires OccursAt(s, id, p)
    ensures 0 <= p <= |s| - |id|
  {
  }

  /**
   A `message` command is read right exactly when the destination does not occur in the word "message"
   itself: a router called "e" or "age" gets more than was typed between the quotes.
   */
  lemma MessageCommand(id: string, body: string, x: Memory)
    requires IsId(id) && body != "" && '"' !in body[1..]
    requires x.text == Join(["message", id, "\"" + body + "\""]) && IsText(x.text)
    ensures Parse(x) == Parsed(EMPTY.(kind := Kind.Text, node1 := Some(id), text := Some(body))) <==>
            !OccursIn("message", id)
  {
    hide OccursAt, OccursIn, Find, Matched, Join, Enclosed, AllIn, Token, IsText, Parse;
    var quoted := "\"" + body + "\"";
    IdField(id);
    IsQuoted(body);
    CommandDispatched(id, quoted, x);
    var text := x.text;
    assert text[..8] == "message " && text[8..8 + |id|] == id;
    FindId(id, text);
    var at := Find(text, id).value;
    var ptr := at + |id| + 2;
    if at == 8 {
      assert text[8 + |id| + 2..|text| - 1] == body;
    } else {
      assert |text[ptr..|text| - 1]| > |body|;
    }
  }

  lemma CommandDispatched(id: string, quoted: string, x: Memory)
    requires IsId(id) && Enclosed('"', '"', quoted) && IsText(x.text) && x.text == Join(["message", id, quoted])
    ensures Parse(x) == DecodeText(x.text) && Token(x.text, 1) == Some(id)
    ensures x.text == "message " + id + " " + quoted
  {
    hide Matched, Join, Enclosed, AllIn, TextFits, DecodeText, PatternOf, Token, FieldsFit, RestAfter;
    var ss := ["message", id, quoted];
    IdField(id);
    CommandFits(id, quoted);
    JoinFits(PatternOf(7), ss);
    Dispatched(x, 7);
    TokenOfJoin(ss, 1);
    JoinThree("message", id, quoted);
  }

  lemma IsQuoted(body: string)
    requires body != "" && '"' !in body[1..]
    ensures Enclosed('"', '"', "\"" + body + "\"")
  {
    var quoted := "\"" + body + "\"";
    assert quoted[2..|quoted| - 1] == body[1..];
  }

  lemma CommandFits(id: string, quoted: string)
    requires IsId(id) && Enclosed('"', '"', quoted)
    ensures FieldsFit(PatternOf(7), ["message", id, quoted])
  {
    hide AllIn, Enclosed;
    IdField(id);
    FieldsFitThen(Name, End(Quoted), id, [quoted]);
    FieldsFitThen(Fixed("message"), Then(Name, End(Quoted)), "message", [id] + [quoted]);
    assert ["message"] + ([id] + [quoted]) == ["message", id, quoted];
  }

  lemma JoinThree(s: string, t: string, u: string)
    ensures Join([s, t, u]) == s + " " + t + " " + u
  {
    assert [s, t, u][1..] == [t, u] && [t, u][1..] == [u];
    assert Join([t, u]) == t + " " + u;
  }

  /** `load` and `save` lose a file name of a single character. */
  lemma FileCommand(load: bool, name: string, x: Memory)
    requires name != "" && x.text == Join([if load then "load" else "save", name]) && IsText(x.text)
    ensures Parse(x) == Parsed(EMPTY.(kind := if load then Load else Save, text := if |name| >= 2 then Some(name) else None))
  {
    hide Matched;
    var verb := if load then "load" else "save";
    ThenFits(Fixed(verb), End(Anything), [verb, name]);
    assert [verb, name][1..] == [name];
    Dispatched(x, if load then 0 else 1);
    assert x.text == verb + " " + name && x.text[5..] == x.text[5..|x.text|] == name;
  }

  /** The commands that add and update a link are read as they are typed. */
  lemma LinkCommand(add: bool, a: string, b: string, weight: nat, x: Memory)
    requires IsId(a) && IsId(b) && IsText(x.text)
    requires x.text == Join([if add then "add" else "update", "link", a, b, Decimal.Print(weight)])
    ensures Parse(x) == Parsed(EMPTY.(kind := if add then AddLink else UpdateLink,
                                      node1 := Some(a), node2 := Some(b), number := weight))
  {
    hide Matched, AllIn, FieldsFit, Token, RestAfter, Join, TextFits, Decimal.Print, Decimal.Atoi, PatternOf;
    var verb, number := if add then "add" else "update", Decimal.Print(weight);
    var ss := [verb, "link", a, b, number];
    IdField(a);
    IdField(b);
    NumberField(weight);
    LinkFits(add, a, b, weight);
    JoinFits(PatternOf(if add then 3 else 4), ss);
    Dispatched(x, if add then 3 else 4);
    TokenOfJoin(ss, 2);
    TokenOfJoin(ss, 3);
    TokenOfJoin(ss, 4);
  }

  lemma LinkFits(add: bool, a: string, b: string, weight: nat)
    requires IsId(a) && IsId(b)
    ensures FieldsFit(PatternOf(if add then 3 else 4), [if add then "add" else "update", "link", a, b, Decimal.Print(weight)])
  {
    hide AllIn, FieldsFit;
    var verb, number := if add then "add" else "update", Decimal.Print(weight);
    IdField(a);
    IdField(b);
    NumberEnds(weight);
    FieldsFitThen(Name, End(Number), b, [number]);
    FieldsFitThen(Name, Then(Name, End(Number)), a, [b] + [number]);
    FieldsFitThen(Fixed("link"), Then(Name, Then(Name, End(Number))), "link", [a] + ([b] + [number]));
    FieldsFitThen(Fixed(verb), Then(Fixed("link"), Then(Name, Then(Name, End(Number)))), verb,
                  ["link"] + ([a] + ([b] + [number])));
    assert [verb] + (["link"] + ([a] + ([b] + [number]))) == [verb, "link", a, b, number];
  }

  /** The commands that name a single router are read as the word typed and that router. */
  lemma NamedCommand(verb: string, id: string, x: Memory)
    requires (verb == "route" || verb == "disconnect" || verb == "ping") && IsId(id)
    requires x.text == Join([verb, id]) && IsText(x.text)
    ensures Parse(x) == Parsed(Message(if verb == "route" then Route else if verb == "ping" then Ping else Disconnect,
                                       None, Some(id), None, -1, -1, Not))
  {
    hide Matched, AllIn, FieldsFit, Token, RestAfter, Join, TextFits, PatternOf;
    var i := if verb == "route" then 8 else if verb == "ping" then 28 else 6;
    NamedPattern(verb, i);
    IdField(id);
    TwoFit(verb, Name, id);
    JoinFits(PatternOf(i), [verb, id]);
    Dispatched(x, i);
    TokenOfJoin([verb, id], 1);
  }

  lemma NamedPattern(verb: string, i: nat)
    requires (verb == "route" && i == 8) || (verb == "disconnect" && i == 6) || (verb == "ping" && i == 28)
    ensures PatternOf(i) == Then(Fixed(verb), End(Name)) && IsField(verb)
  {
  }

  /** The command that deletes a link is read with its ends in the order typed. */
  lemma DelLinkCommand(a: string, b: string, x: Memory)
    requires IsId(a) && IsId(b) && x.text == Join(["del", "link", a, b]) && IsText(x.text)
    ensures Parse(x) == Parsed(Message(DelLink, None, Some(a), Some(b), -1, -1, Not))
  {
    hide Matched, AllIn, FieldsFit, Token, RestAfter, Join, TextFits;
    var ss := ["del", "link", a, b];
    IdField(a);
    IdField(b);
    TwoFit("link", Name, a);
    FieldsFitThen(Name, End(Name), a, [b]);
    FieldsFitThen(Fixed("link"), Then(Name, End(Name)), "link", [a] + [b]);
    FieldsFitThen(Fixed("del"), Then(Fixed("link"), Then(Name, End(Name))), "del", ["link"] + ([a] + [b]));
    assert ["del"] + (["link"] + ([a] + [b])) == ss;
    JoinFits(PatternOf(5), ss);
    Dispatched(x, 5);
    TokenOfJoin(ss, 2);
    TokenOfJoin(ss, 3);
  }

  /** The commands without arguments. */
  lemma BareCommand(x: Memory)
    ensures x.text == "show topology" ==> Parse(x) == Parsed(Message(Show, None, None, None, -1, -1, Not))
    ensures x.text == "routetable" ==> Parse(x) == Parsed(Message(Kind.RouteTable, None, None, None, -1, -1, Not))
    ensures x.text == "quit" ==> Parse(x) == Parsed(Message(Quit, None, None, None, -1, -1, Not))
    ensures x.text == "debug" ==> Parse(x) == Parsed(Message(NetworkDebug, None, None, None, -1, -1, Not))
  {
    hide Matched, TextFits, Join, Decode, PatternOf, FirstMatch, Lowercase, IsText;
    CommandWords();
    RoutingWords();
    BarePatterns();
    if x.text == "show topology" { TwoWords(2, "show", "topology", x); BareDecoded(2, x.text); }
    if x.text == "routetable" { OneWord(9, "routetable", x); BareDecoded(9, x.text); }
    if x.text == "quit" { OneWord(29, "quit", x); BareDecoded(29, x.text); }
    if x.text == "debug" { OneWord(32, "debug", x); BareDecoded(32, x.text); }
  }

  lemma BarePatterns()
    ensures PatternOf(2) == Then(Fixed("show"), End(Fixed("topology"))) && "show" + " " + "topology" == "show topology"
    ensures PatternOf(9) == End(Fixed("routetable")) && PatternOf(29) == End(Fixed("quit")) && PatternOf(32) == End(Fixed("debug"))
  {
  }

  lemma OneWord(i: nat, s: string, x: Memory)
    requires i < COUNT && PatternOf(i) == End(Fixed(s)) && Lowercase(s) && |s| < 100 && x.text == s
    ensures Parse(x) == Decode(i, x.text)
  {
    hide Matched, PatternOf, Decode, FirstMatch;
    LowercaseText(s, "");
    Dispatched(x, i);
  }

  lemma TwoWords(i: nat, s: string, t: string, x: Memory)
    requires i < COUNT && PatternOf(i) == Then(Fixed(s), End(Fixed(t))) && Lowercase(s) && Lowercase(t) && |s| + |t| < 100
    requires x.text == s + " " + t
    ensures Parse(x) == Decode(i, x.text)
  {
    hide Matched, PatternOf, Decode, FirstMatch;
    LowercaseText(s, t);
    FirstOfJoin(s, t);
    Dispatched(x, i);
  }

  lemma LowercaseText(s: string, rest: string)
    requires Lowercase(s) && (rest == "" || Lowercase(rest)) && |s| + |rest| < 100
    ensures IsText(s) && IsText(s + " " + rest) && ' ' !in s
  {
  }

  lemma BareDecoded(i: nat, text: string)
    requires i == 2 || i == 9 || i == 29 || i == 32
    ensures Decode(i, text) == Parsed(Message(if i == 2 then Show else if i == 9 then Kind.RouteTable else if i == 29 then Quit
                                              else NetworkDebug, None, None, None, -1, -1, Not))
  {
  }

  /** A text that fits no pattern is read as no message at all. */
  lemma UnknownText(x: Memory)
    requires IsText(x.text) && forall i :: 0 <= i < COUNT ==> !TextFits(PatternOf(i), x.text)
    ensures Parse(x) == Parsed(Message(NoKind, None, None, None, -1, -1, Not))
  {
    hide Matched, TextFits, PatternOf, Decode, FirstMatch;
    FirstFound(x, 0);
    if FirstMatch(x, 0).Some? {
      MatchedFits(FirstMatch(x, 0).value, x);
    }
  }

  /* ---- what is on the wire, character by character and field by field ---- */

  lemma {:induction false} JoinConcat(a: seq<string>, b: seq<string>)
    requires a != [] && b != []
    ensures Join(a + b) == Join(a) + " " + Join(b)
    decreases |a|
  {
    if |a| > 1 {
      assert (a + b)[1..] == a[1..] + b;
      JoinConcat(a[1..], b);
    } else {
      assert (a + b)[1..] == b;
    }
  }

  lemma JoinTwo(s: string, t: string)
    ensures Join([s, t]) == s + " " + t
  {
  }

  lemma JoinHeader(s: string, m: Message, tail: seq<string>)
    requires m.node1.Some? && m.node2.Some? && tail != []
    ensures Join(HeaderFields(s, m) + tail) ==
      s + (" seqnum " + Decimal.Print(m.seqnum) + " src " + m.node1.value + " dst " + m.node2.value + " ") + Join(tail)
  {
    hide Join;
    var q := Decimal.Print(m.seqnum);
    var a, b, c := [s, "seqnum", q], ["src", m.node1.value], ["dst", m.node2.value];
    assert HeaderFields(s, m) + tail == a + (b + (c + tail));
    JoinConcat(a, b + (c + tail));
    JoinConcat(b, c + tail);
    JoinConcat(c, tail);
    JoinThree(s, "seqnum", q);
    JoinTwo("src", m.node1.value);
    JoinTwo("dst", m.node2.value);
  }

  /** The printed form of packets, pings and pongs. */
  lemma RoutedPrinted(m: Message)
    requires IsPrintable(m) && (m.kind == Packet || m.kind == Ping || m.kind == Pong)
    ensures var start := " seqnum " + Decimal.Print(m.seqnum) + " src " + m.node1.value + " dst " + m.node2.value + " ";
      ToString(m) == Some(
        if m.kind == Packet && m.accept == Accepted then "packet" + start + "ok"
        else if m.kind == Packet && m.accept == TooFar then "packet" + start + "toofar"
        else if m.kind == Packet then "packet" + start + ("ttl" + " " + Decimal.Print(m.number) + " " + ("data" + " " + m.text.value))
        else if m.kind == Ping then "ping" + start + ("ttl" + " " + Decimal.Print(m.number))
        else if m.accept == TtlZero then "pong" + start + "ttlzero"
        else "pong" + start + ("ttl" + " " + Decimal.Print(m.number)))
  {
    hide Join, HeaderFields, Decimal.Print;
    var n := Decimal.Print(m.number);
    JoinOne("ok");
    JoinOne("toofar");
    JoinOne("ttlzero");
    JoinTwo("ttl", n);
    if m.kind == Packet {
      if m.accept == Accepted { JoinHeader("packet", m, ["ok"]); }
      else if m.accept == TooFar { JoinHeader("packet", m, ["toofar"]); }
      else {
        JoinTwo("data", m.text.value);
        JoinConcat(["ttl", n], ["data", m.text.value]);
        assert ["ttl", n] + ["data", m.text.value] == ["ttl", n, "data", m.text.value];
        JoinHeader("packet", m, ["ttl", n, "data", m.text.value]);
      }
    } else if m.kind == Ping {
      JoinHeader("ping", m, ["ttl", n]);
    } else if m.accept == TtlZero {
      JoinHeader("pong", m, ["ttlzero"]);
    } else {
      JoinHeader("pong", m, ["ttl", n]);
    }
  }

  lemma Spaced()
    ensures "log" + " " + "in" == "log in" && "log" + " " + "in" + " " + "as" + " " == "log in as " && "log" + " " + "out" == "log out"
    ensures " " + "port" + " " == " port " && "greeting" + " " == "greeting "
    ensures "neighborhood" + " " + "ok" == "neighborhood ok"
    ensures "neighborhood" + " " + "newlist" + " " == "neighborhood newlist "
    ensures "link" + " " + "ok" == "link ok" && "link" + " " + "id" + " " == "link id "
    ensures "vector" + " " + "ok" == "vector ok" && "vector" + " " == "vector "
  {
  }

  lemma LoginPrinted(n: string)
    ensures Join(["log", "in", "port", n]) == "log in" + " port " + n
  {
    hide Join;
    Spaced();
    JoinTwo("log", "in");
    JoinTwo("port", n);
    JoinConcat(["log", "in"], ["port", n]);
    assert ["log", "in"] + ["port", n] == ["log", "in", "port", n];
    assert "log in" + " " + ("port" + " " + n) == "log in" + (" " + "port" + " ") + n;
  }

  lemma LoginAsPrinted(id: string, n: string)
    ensures Join(["log", "in", "as", id, "port", n]) == "log in as " + id + " port " + n
  {
    hide Join;
    Spaced();
    var ss := ["log", "in", "as"];
    JoinThree("log", "in", "as");
    JoinTwo(id, "port");
    JoinThree(id, "port", n);
    JoinConcat(ss, [id, "port", n]);
    assert ss + [id, "port", n] == ["log", "in", "as", id, "port", n];
    var start := "log" + " " + "in" + " " + "as";
    assert start + " " + (id + " " + "port" + " " + n) == (start + " ") + id + (" " + "port" + " ") + n;
  }

  /** The printed form of the other protocol messages. */
  lemma OthersPrinted(m: Message)
    requires IsPrintable(m) && m.kind != Packet && m.kind != Ping && m.kind != Pong
    ensures ToString(m) == Some(
      match m.kind
      case Login =>
        (if m.node1.None? then "log in" else "log in as " + m.node1.value) + " port " + Decimal.Print(m.number)
      case Logout => "log out"
      case Greeting => "greeting " + m.node1.value
      case Bye => "bye"
      case Poll => "poll"
      case Neighborhood => if m.accept == Accepted then "neighborhood ok" else "neighborhood newlist " + m.text.value
      case Link => if m.accept == Accepted then "link ok" else "link id " + m.node1.value
      case Vector => if m.accept == Accepted then "vector ok" else "vector " + m.text.value)
  {
    hide Join, Decimal.Print;
    var n := Decimal.Print(m.number);
    Spaced();
    match m.kind
    case Login =>
      if m.node1.None? { LoginPrinted(n); } else { LoginAsPrinted(m.node1.value, n); }
    case Logout =>
      JoinTwo("log", "out");
    case Greeting => JoinTwo("greeting", m.node1.value);
    case Bye => JoinOne("bye");
    case Poll => JoinOne("poll");
    case Neighborhood =>
      JoinTwo("neighborhood", "ok");
      if m.accept != Accepted { JoinThree("neighborhood", "newlist", m.text.value); }
    case Link =>
      JoinTwo("link", "ok");
      if m.accept != Accepted { JoinThree("link", "id", m.node1.value); }
    case Vector =>
      JoinTwo("vector", "ok");
      if m.accept != Accepted { JoinTwo("vector", m.text.value); }
  }

  /** Which fields a receiver finds in a message it could read. */
  lemma ReadFields(m: Message, x: Memory)
    requires IsProtocol(m) && Readable(m) && Some(x.text) == ToString(m) && IsText(x.text)
    ensures Parse(x).Parsed?
    ensures var r := Parse(x).message;
      && r.kind == m.kind
      && (m.kind == Login || m.kind == Greeting ==> r.node1 == m.node1)
      && (m.kind == Login ==> r.number == m.number)
      && (m.kind == Neighborhood || m.kind == Link || m.kind == Vector || m.kind == Packet ==>
            (r.accept == Accepted <==> m.accept == Accepted))
      && (m.kind == Link && m.accept != Accepted ==> r.node1 == m.node1)
      && (m.kind == Neighborhood && m.accept != Accepted ==> r.text == if m.text == Some("[]") then Some("") else m.text)
      && (m.kind == Vector && m.accept != Accepted ==> r.text == m.text)
      && (m.kind == Packet || m.kind == Ping || m.kind == Pong ==>
            r.seqnum == m.seqnum && r.node1 == m.node1 && r.node2 == m.node2)
      && (m.kind == Packet ==> (r.accept == TooFar <==> m.accept == TooFar))
      && (m.kind == Packet && m.accept != Accepted && m.accept != TooFar ==> r.number == m.number && r.text == m.text)
      && (m.kind == Ping ==> r.number == m.number)
      && (m.kind == Pong ==> (r.accept == TtlZero <==> m.accept == TtlZero))
      && (m.kind == Pong && m.accept != TtlZero ==> r.number == m.number)
  {
    hide Parse, ToString, IsText;
    RoundTrip(m, x);
  }
}
