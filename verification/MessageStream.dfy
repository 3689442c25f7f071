/** A stream of messages: each is printed and framed by its sender, and the receiver cuts and reads the stream. */
module MessageStream {
  import opened Wrappers
  import opened Message
  import opened MessageText
  import opened Framing
  import RegexAcceptance
  import RegexMatcher
  import MessageParser
  import Forwarding
  import DistanceVector

  /** What lies in memory behind the buffer of each frame. */
  type Behind = nat -> nat -> char

  /** Each text is read on its own, whatever the memory behind its buffer holds. */
  function ParseAll(ts: seq<string>, beyond: Behind): seq<Outcome> {
    seq(|ts|, k requires 0 <= k < |ts| => Parse(RegexMatcher.Memory(ts[k], beyond(k))))
  }

  /** What has been read so far: one outcome for each frame that has ended. */
  ghost predicate Collected(ms: seq<Outcome>, done: seq<string>, beyond: Behind) {
    && |ms| == |done| < MAX_MESSAGES && (forall k :: 0 <= k < |done| ==> done[k] != "")
    && ms == ParseAll(InputAll(done), beyond)
  }

  lemma CollectedMore(ms: seq<Outcome>, done: seq<string>, frame: string, beyond: Behind)
    requires Collected(ms, done, beyond) && frame != "" && |ms| + 1 < MAX_MESSAGES
    ensures Collected(ms + [Parse(RegexMatcher.Memory(Input(frame), beyond(|ms|)))], done + [frame], beyond)
  {
    hide Parse, Input;
    assert (done + [frame])[..|done|] == done;
    var ts := InputAll(done + [frame]);
    assert ts[..|done|] == InputAll(done);
  }

  /** A frame has ended: it is read if there is room for its message. */
  method CloseFrame(p: MessageParser.Parser, buf: array<char>, ms: seq<Outcome>, beyond: Behind,
                    ghost frame: string, ghost done: seq<string>) returns (ok: bool, ms': seq<Outcome>)
    requires p.Valid() && HoldsText(buf, frame) && frame != "" && Collected(ms, done, beyond)
    ensures ok == (|ms| + 1 < MAX_MESSAGES)
    ensures if ok then Collected(ms', done + [frame], beyond) else ms' == ms
  {
    if |ms| + 1 >= MAX_MESSAGES {
      return false, ms;
    }
    hide Input, Parse, Collected;
    var tmp := TreatInput(buf, frame);
    var n := Length(tmp, Input(frame));
    assert tmp[..n] == Input(frame);
    var m := p.Parse(RegexMatcher.Memory(tmp[..n], beyond(|ms|)));
    CollectedMore(ms, done, frame, beyond);
    return true, ms + [m];
  }

  /** All but the last character of a text without newlines is wiped; s is what the buffer held. */
  ghost predicate Wiped(src: array<char>, s: string, i: nat)
    reads src
  {
    '\n' !in s ==> forall k :: 0 <= k < i - 1 && k < src.Length ==> src[k] == '\0'
  }

  /** The current frame, from start up to i, is in the buffer. */
  ghost predicate Gathered(buf: array<char>, s: string, start: nat, i: nat)
    reads buf
  {
    start <= i <= |s| && IsCString(s) && buf.Length == |s| + 1 && forall k :: 0 <= k < i - start ==> buf[k] == s[start + k]
  }

  /** The frames that have ended are done, the current one begins at start. */
  ghost predicate Cutting(s: string, start: nat, i: nat, done: seq<string>) {
    start <= i <= |s| && Frames(AsCoded, s, 0, 0) == done + Frames(AsCoded, s, start, i)
  }

  /** Terminates the frame in the buffer and reads it. */
  method EndFrame(p: MessageParser.Parser, buf: array<char>, count: nat, ms: seq<Outcome>, beyond: Behind,
                  ghost s: string, ghost start: nat, ghost done: seq<string>) returns (ok: bool, ms': seq<Outcome>)
    requires p.Valid() && Collected(ms, done, beyond) && count > 0 && Gathered(buf, s, start, start + count)
    modifies buf
    ensures ok == (|ms| + 1 < MAX_MESSAGES)
    ensures if ok then Collected(ms', done + [s[start..start + count]], beyond) else ms' == ms
    ensures Gathered(buf, s, start + count, start + count)
  {
    hide Collected, Parse, Input;
    ghost var frame := s[start..start + count];
    buf[count] := '\0';
    assert HoldsText(buf, frame);
    ok, ms' := CloseFrame(p, buf, ms, beyond, frame, done);
  }

  /** Characters from i - 1 on are still as they were, those before may be wiped. */
  ghost predicate Left(src: array<char>, s: string, i: nat)
    reads src
  {
    |s| < src.Length && IsCString(s) && Wiped(src, s, i) && forall k :: 0 <= k < |s| && k >= i - 1 ==> src[k] == s[k]
  }

  /** Copies a character; the test that follows wipes the one before it unless it is a newline. */
  method TakeChar(src: array<char>, buf: array<char>, i: nat, count: nat, ghost s: string) returns (newline: bool)
    requires src != buf && i < |s| && count <= i && Left(src, s, i) && Gathered(buf, s, i - count, i)
    modifies src, buf
    ensures newline == (s[i] == '\n') && Left(src, s, i + 1) && Gathered(buf, s, i - count, i + 1)
  {
    buf[count] := src[i];
    newline := src[i] == '\n';
    if newline {
      assert s[i] in s;
    } else if i > 0 {
      // The assignment written for a comparison: it stores zero, and its value ends no frame.
      src[i - 1] := '\0';
    }
  }

  /** The loop of mess__multiline_parse: every newline ends a frame, and nothing else does. */
  method CutFrames(p: MessageParser.Parser, src: array<char>, buf: array<char>, n: nat, ghost s: string, beyond: Behind)
    returns (ms: seq<Outcome>, count: nat, room: bool, ghost done: seq<string>)
    requires p.Valid() && HoldsText(src, s) && n == |s| && buf != src && buf.Length == n + 1
    modifies src, buf
    ensures room ==> count <= n && Collected(ms, done, beyond) && Gathered(buf, s, n - count, n) && Cutting(s, n - count, n, done)
    ensures !room ==> ms == ParseAll(Texts(AsCoded, s), beyond)
    ensures Wiped(src, s, n)
  {
    hide Collected, Input, InputAll, ParseAll, Texts, Frames, Cutting;
    ms, count, done := [], 0, [];
    NothingCollected(beyond);
    CutNothing(s);
    for i := 0 to n
      invariant count <= i && Collected(ms, done, beyond) && Gathered(buf, s, i - count, i) && Cutting(s, i - count, i, done)
      invariant Left(src, s, i) && p.Valid()
    {
      CutOne(s, i - count, i, done);
      var newline := TakeChar(src, buf, i, count, s);
      count := count + 1;
      if newline {
        ghost var start := i + 1 - count;
        room, ms := EndFrame(p, buf, count, ms, beyond, s, start, done);
        if !room {
          TooMany(ms, done, s, beyond);
          return;
        }
        done := done + [s[start..i + 1]];
        count := 0;
      }
    }
    room := true;
  }

  /** mess__multiline_parse, which also wipes the buffer it reads. */
  method MultilineParse(p: MessageParser.Parser, src: array<char>, ghost s: string, beyond: Behind)
    returns (ms: seq<Outcome>)
    requires p.Valid() && HoldsText(src, s)
    modifies src
    ensures ms == ParseAll(Texts(AsCoded, s), beyond)
    ensures Wiped(src, s, |s|)
  {
    hide Collected, Input, InputAll, ParseAll, Texts, Wiped;
    var n := Length(src, s);
    var buf := new char[n + 1];
    var count, room;
    ghost var done;
    ms, count, room, done := CutFrames(p, src, buf, n, s, beyond);
    if room && count > 0 {
      ghost var start := n - count;
      assert s[start..n] == s[start..];
      room, ms := EndFrame(p, buf, count, ms, beyond, s, start, done);
      if !room {
        TooMany(ms, done, s, beyond);
        return;
      }
      done := done + [s[start..n]];
    }
    if room {
      AllCollected(ms, done, s, beyond);
    }
  }

  lemma FramesStep(s: string, start: nat, i: nat)
    requires start <= i < |s|
    ensures Frames(AsCoded, s, start, i) ==
      if s[i] == '\n' then [s[start..i + 1]] + Frames(AsCoded, s, i + 1, i + 1) else Frames(AsCoded, s, start, i + 1)
  {
  }

  lemma CutNothing(s: string)
    ensures Cutting(s, 0, 0, [])
  {
  }

  lemma CutOne(s: string, start: nat, i: nat, done: seq<string>)
    requires i < |s| && Cutting(s, start, i, done)
    ensures if s[i] == '\n' then Cutting(s, i + 1, i + 1, done + [s[start..i + 1]]) && done < Frames(AsCoded, s, 0, 0)
            else Cutting(s, start, i + 1, done)
  {
    hide Frames;
    FramesStep(s, start, i);
    if s[i] == '\n' {
      var rest := Frames(AsCoded, s, i + 1, i + 1);
      assert done + ([s[start..i + 1]] + rest) == done + [s[start..i + 1]] + rest;
    }
  }

  lemma NothingCollected(beyond: Behind)
    ensures Collected([], [], beyond)
  {
  }

  lemma AllCollected(ms: seq<Outcome>, done: seq<string>, s: string, beyond: Behind)
    requires Collected(ms, done, beyond) && done == Frames(AsCoded, s, 0, 0)
    ensures ms == ParseAll(Texts(AsCoded, s), beyond)
  {
    hide Input, ParseAll;
  }

  lemma TooMany(ms: seq<Outcome>, done: seq<string>, s: string, beyond: Behind)
    requires Collected(ms, done, beyond) && |ms| + 1 >= MAX_MESSAGES && done < Frames(AsCoded, s, 0, 0)
    ensures ms == ParseAll(Texts(AsCoded, s), beyond)
  {
    hide Input, ParseAll, Frames;
    var all := Frames(AsCoded, s, 0, 0);
    assert |all| >= MAX_MESSAGES && done == all[..MAX_MESSAGES - 1];
  }

  /* ---- from message to message ---- */

  /** A message the protocol can send whose text survives framing. */
  predicate IsSendable(m: Message) {
    IsProtocol(m) && Readable(m) && ToString(m).Some? && IsClean(ToString(m).value) &&
    RegexAcceptance.IsText(ToString(m).value)
  }

  function Printed(ms: seq<Message>): (ss: seq<string>)
    requires forall m :: m in ms ==> IsSendable(m)
    ensures |ss| == |ms| && forall k :: 0 <= k < |ms| ==> ToString(ms[k]) == Some(ss[k])
  {
    if ms == [] then []
    else
      var m := ms[0];
      assert m in ms && IsSendable(m);
      [ToString(m).value] + Printed(ms[1..])
  }

  /** The outcomes of a transmission that loses nothing. */
  predicate IsDelivery(os: seq<Outcome>, ms: seq<Message>) {
    |os| == |ms| && forall k :: 0 <= k < |ms| ==> os[k] == Parsed(OnWire(ms[k]))
  }

  lemma ReadPrinted(ms: seq<Message>, ts: seq<string>, beyond: Behind)
    requires (forall m :: m in ms ==> IsSendable(m)) && ts == Printed(ms)
    ensures IsDelivery(ParseAll(ts, beyond), ms)
  {
    hide Parse, OnWire;
    forall k | 0 <= k < |ms|
      ensures Parse(RegexMatcher.Memory(ts[k], beyond(k))) == Parsed(OnWire(ms[k]))
    {
      assert ms[k] in ms;
      RoundTrip(ms[k], RegexMatcher.Memory(ts[k], beyond(k)));
    }
  }

  lemma PrintedClean(ms: seq<Message>)
    requires forall m :: m in ms ==> IsSendable(m)
    ensures forall s :: s in Printed(ms) ==> IsClean(s)
  {
    hide IsClean, Printed;
    var ss := Printed(ms);
    forall s | s in ss
      ensures IsClean(s)
    {
      var k :| 0 <= k < |ss| && ss[k] == s;
      assert ms[k] in ms;
    }
  }

  /**
   What the forwarding model takes for one hop, that a message arrives with the fields its printed form
   carries or not at all, is what printing it and parsing the text give.
   */
  lemma HopIsPrintAndParse(n: DistanceVector.Net, u: string, m: Message, x: RegexMatcher.Memory)
    requires Forwarding.Routable(m) && IsProtocol(m) && Some(x.text) == ToString(m) && RegexAcceptance.IsText(x.text)
    requires Forwarding.NextHop(n, u, m.node2.value).Some?
    ensures var h := Forwarding.NextHop(n, u, m.node2.value).value;
      Forwarding.Send(n, u, m) ==
        match Parse(x)
        case Parsed(m') => if m'.kind == NoKind then None else Some(Forwarding.Flight(h, m'))
        case Stray => None
  {
    hide Parse, IsProtocol, ToString;
    RoundTrip(m, x);
  }

  /** Printed, framed, cut as meant and read: up to 49 messages arrive as they were sent. */
  lemma MeantDelivers(ms: seq<Message>, beyond: Behind)
    requires |ms| < MAX_MESSAGES && forall m :: m in ms ==> IsSendable(m)
    ensures IsDelivery(ParseAll(Texts(AsMeant, Stream(Printed(ms))), beyond), ms)
  {
    hide *;
    PrintedClean(ms);
    MeantRoundTrip(Printed(ms));
    ReadPrinted(ms, Printed(ms), beyond);
  }

  /** Cut as the code has it, a stream of two or more messages is read as one text, and nothing of it arrives as sent. */
  lemma CodedDelivers(ms: seq<Message>, beyond: Behind)
    requires forall m :: m in ms ==> IsSendable(m)
    ensures IsDelivery(ParseAll(Texts(AsCoded, Stream(Printed(ms))), beyond), ms) <==> |ms| <= 1
  {
    hide *;
    var ss := Printed(ms);
    PrintedLines(ms);
    CodedRoundTrip(ss);
    if |ms| <= 1 {
      assert forall k :: 0 <= k < |Texts(AsCoded, Stream(ss))| ==> Texts(AsCoded, Stream(ss))[k] == ss[k];
      ReadPrinted(ms, ss, beyond);
    } else {
      DeliveryLength(Texts(AsCoded, Stream(ss)), ms, beyond);
    }
  }

  lemma DeliveryLength(ts: seq<string>, ms: seq<Message>, beyond: Behind)
    ensures IsDelivery(ParseAll(ts, beyond), ms) ==> |ts| == |ms|
  {
  }

  lemma PrintedLines(ms: seq<Message>)
    requires forall m :: m in ms ==> IsSendable(m)
    ensures forall s :: s in Printed(ms) ==> '\n' !in s
    ensures |ms| == 1 ==> Printed(ms) != [] && !EndsIn(Printed(ms)[0], '\\')
    ensures Printed(ms) == [] <==> ms == []
  {
    hide Printed, IsSendable;
    PrintedClean(ms);
    if ms != [] { assert Printed(ms)[0] in Printed(ms); }
  }
}
