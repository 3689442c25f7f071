/** The parser of messages: the first pattern that accepts the text says how its fields are taken apart. */
module MessageParser {
  import opened Wrappers
  import opened Message
  import opened MessageText
  import opened RegexMatcher
  import MessageDispatch
  import Strtok
  import Decimal

  class Parser {
    const patterns: MessageDispatch.Patterns

    /** mess__base__init. */
    constructor ()
      ensures Valid() && fresh(patterns)
    {
      patterns := new MessageDispatch.Patterns();
    }

    ghost predicate Valid()
      reads patterns
    {
      patterns.Valid()
    }

    /** Skips n tokens. */
    static method SkipTokens(t: Strtok.Tokenizer, n: nat)
      requires t.Valid()
      modifies t
      ensures t.Valid() && t.calls == old(t.calls) + n
    {
      for i := 0 to n
        invariant t.Valid() && t.calls == old(t.calls) + i
      {
        var skipped := t.Take();
      }
    }

    /** The token after n others. */
    static method TakeAt(text: string, n: nat) returns (s: Option<string>)
      ensures s == Strtok.Token(text, n)
    {
      var t := new Strtok.Tokenizer(text);
      SkipTokens(t, n);
      s := t.Take();
    }

    static method ReadLink(text: string, kind: Kind, weighted: bool) returns (o: Outcome)
      ensures o == if weighted then WithNumber(DecodeLink(kind, text), Strtok.Token(text, 4)) else Parsed(DecodeLink(kind, text))
    {
      hide Strtok.Token, Strtok.RestAfter, Decimal.Atoi;
      var m := EMPTY.(kind := kind);
      var t := new Strtok.Tokenizer(text);
      SkipTokens(t, 2);
      var s := t.Take();
      m := m.(node1 := s);
      s := t.Take();
      m := m.(node2 := s);
      o := Parsed(m);
      if weighted {
        s := t.Take();
        o := WithNumber(m, s);
      }
    }

    static method ReadLogin(text: string, named: bool) returns (o: Outcome)
      ensures o == if named then WithNumber(EMPTY.(kind := Login, node1 := Strtok.Token(text, 3)), Strtok.Token(text, 5))
                   else WithNumber(EMPTY.(kind := Login), Strtok.Token(text, 3))
    {
      hide Strtok.Token, Strtok.RestAfter, Decimal.Atoi;
      var m := EMPTY.(kind := Login);
      var t := new Strtok.Tokenizer(text);
      SkipTokens(t, 3);
      var s := t.Take();
      if named {
        m := m.(node1 := s);
        s := t.Take();
        s := t.Take();
      }
      o := WithNumber(m, s);
    }

    static method ReadHeader(text: string, kind: Kind, accept: Acceptance) returns (o: Outcome, t: Strtok.Tokenizer)
      ensures o == DecodeHeader(kind, accept, text) && fresh(t)
      ensures o.Parsed? ==> t.Valid() && t.text == text && t.calls == 7
    {
      hide Strtok.Token, Strtok.RestAfter, Decimal.Atoi;
      t := new Strtok.Tokenizer(text);
      var m := EMPTY.(kind := kind, accept := accept);
      SkipTokens(t, 2);
      var s := t.Take();
      if s.None? {
        return Stray, t;
      }
      m := m.(seqnum := Decimal.Atoi(s.value));
      s := t.Take();
      s := t.Take();
      m := m.(node1 := s);
      s := t.Take();
      s := t.Take();
      m := m.(node2 := s);
      o := Parsed(m);
    }

    static method ReadTtl(text: string, kind: Kind) returns (o: Outcome, t: Strtok.Tokenizer)
      ensures o == DecodeTtl(kind, text) && fresh(t)
      ensures o.Parsed? ==> t.Valid() && t.text == text && t.calls == 9
    {
      o, t := ReadHeader(text, kind, Not);
      if o.Parsed? {
        var s := t.Take();
        s := t.Take();
        o := WithNumber(o.message, s);
      }
    }

    static method ReadPacket(text: string) returns (o: Outcome)
      ensures o == DecodePacket(text)
    {
      var t;
      o, t := ReadTtl(text, Packet);
      if o.Parsed? {
        var s := t.TakeAll();
        if s.None? || |s.value| < 5 {
          return Stray;
        }
        o := Parsed(o.message.(text := Some(s.value[5..])));
      }
    }

    /** strstr. */
    static method Search(s: string, what: string) returns (r: Option<nat>)
      ensures r == Find(s, what)
    {
      hide Find;
      var i := 0;
      assert s[0..] == s;
      while i < |s| && !(what <= s[i..])
        invariant i <= |s|
        invariant Find(s, what) == var f := Find(s[i..], what); if f.None? then None else Some(i + f.value)
      {
        FindStep(s[i..], what);
        assert s[i..][1..] == s[i + 1..];
        i := i + 1;
      }
      r := if what <= s[i..] then Some(i) else None;
      FindHere(s[i..], what);
    }

    static method ReadText(text: string) returns (o: Outcome)
      ensures o == DecodeText(text)
    {
      hide Find, Strtok.RestAfter;
      var id := TakeAt(text, 1);
      if id.None? {
        return Stray;
      }
      var at := Search(text, id.value);
      if at.None? {
        return Stray;
      }
      var ptr := at.value + |id.value| + 2;
      if ptr >= |text| {
        return Stray;
      }
      o := Parsed(EMPTY.(kind := Text, node1 := id, text := Some(text[ptr..|text| - 1])));
    }

    /** The fields of the messages of the controller's prompt and of the routers' (mess__parse, cases 0 to 9). */
    static method ReadCommand(i: nat, text: string) returns (o: Outcome)
      requires i < 10
      ensures o == Decode(i, text)
    {
      if i == 0 {
        o := Parsed(EMPTY.(kind := Load, text := SubString(text, 5, |text| - 1)));
      } else if i == 1 {
        o := Parsed(EMPTY.(kind := Save, text := SubString(text, 5, |text| - 1)));
      } else if i == 2 {
        o := Parsed(EMPTY.(kind := Show));
      } else if i == 3 {
        o := ReadLink(text, AddLink, true);
      } else if i == 4 {
        o := ReadLink(text, UpdateLink, true);
      } else if i == 5 {
        o := ReadLink(text, DelLink, false);
      } else if i == 6 || i == 8 {
        var s := TakeAt(text, 1);
        o := Parsed(EMPTY.(kind := if i == 6 then Disconnect else Route, node1 := s));
      } else if i == 7 {
        o := ReadText(text);
      } else {
        o := Parsed(EMPTY.(kind := RouteTable));
      }
    }

    /** The fields of the messages between a router and the controller (cases 10 to 19). */
    static method ReadSession(i: nat, text: string) returns (o: Outcome)
      requires 10 <= i < 20
      ensures o == Decode(i, text)
    {
      if i == 10 || i == 11 {
        o := ReadLogin(text, i == 10);
      } else if i == 12 {
        o := Parsed(EMPTY.(kind := Logout));
      } else if i == 13 {
        var s := TakeAt(text, 1);
        o := Parsed(EMPTY.(kind := Greeting, node1 := s));
      } else if i == 14 {
        o := Parsed(EMPTY.(kind := Bye));
      } else if i == 15 {
        o := Parsed(EMPTY.(kind := Poll));
      } else if i == 16 {
        var s := TakeAt(text, 2);
        o := Parsed(EMPTY.(kind := Neighborhood, text := s));
      } else if i == 17 {
        o := Parsed(EMPTY.(kind := Neighborhood, accept := Accepted));
      } else if i == 18 {
        var s := TakeAt(text, 2);
        o := Parsed(EMPTY.(kind := Link, node1 := s));
      } else {
        o := Parsed(EMPTY.(kind := Link, accept := Accepted));
      }
    }

    /** The fields of the messages between routers, and of the last commands (cases 20 to 32). */
    static method ReadRouting(i: nat, text: string) returns (o: Outcome)
      requires 20 <= i < MessageDispatch.MessagePatterns.COUNT
      ensures o == Decode(i, text)
    {
      hide DecodePacket, DecodeHeader, DecodeTtl, Strtok.RestAfter, Strtok.Token;
      var t;
      if i == 20 {
        var s := TakeAt(text, 1);
        o := Parsed(EMPTY.(kind := Vector, text := s));
      } else if i == 21 {
        o := Parsed(EMPTY.(kind := Vector, accept := Accepted));
      } else if i == 22 {
        o := ReadPacket(text);
      } else if i == 23 || i == 24 {
        o, t := ReadHeader(text, Packet, if i == 23 then Accepted else TooFar);
      } else if i == 25 || i == 26 {
        o, t := ReadTtl(text, if i == 25 then Ping else Pong);
      } else if i == 27 {
        o, t := ReadHeader(text, Pong, TtlZero);
      } else if i == 28 {
        var s := TakeAt(text, 1);
        o := Parsed(EMPTY.(kind := Ping, node1 := s));
      } else if i == 29 {
        o := Parsed(EMPTY.(kind := Quit));
      } else if i == 30 {
        o := Parsed(EMPTY.(kind := Neighborhood, text := Some("")));
      } else if i == 31 {
        o := Parsed(EMPTY.(kind := Vector, text := Some("[]")));
      } else {
        o := Parsed(EMPTY.(kind := NetworkDebug));
      }
    }

    /** mess__parse. */
    method Parse(x: Memory) returns (o: Outcome)
      requires Valid()
      ensures o == MessageText.Parse(x)
    {
      hide Decode, MessageDispatch.FirstMatch;
      var i := patterns.Find(x);
      if i == -1 {
        o := Parsed(EMPTY);
      } else if i < 10 {
        o := ReadCommand(i, x.text);
      } else if i < 20 {
        o := ReadSession(i, x.text);
      } else {
        o := ReadRouting(i, x.text);
      }
    }
  }
}
