/**
 The frames that carry messages: backslashes and stars are escaped, and a star ends each message.
 Strings are the characters before the terminating zero.
 */
module Framing {
  predicate IsSpecial(c: char) {
    c == '*' || c == '\\'
  }

  predicate EndsIn(s: string, c: char) {
    s != "" && s[|s| - 1] == c
  }

  /* ---- escaping ---- */

  function EscapeChar(c: char): string {
    if IsSpecial(c) then ['\\', c] else [c]
  }

  /** mess__escape: every special character but a final one gets a backslash. */
  function Escape(s: string): string {
    if |s| <= 1 then s else EscapeChar(s[0]) + Escape(s[1..])
  }

  /** mess__unescape: a backslash before a special character goes. */
  function Unescape(s: string): (u: string)
    ensures s != "" ==> u != ""
  {
    if s == "" then ""
    else if s[0] == '\\' && |s| > 1 && IsSpecial(s[1]) then [s[1]] + Unescape(s[2..])
    else [s[0]] + Unescape(s[1..])
  }

  /** mess__treatOutput. */
  function Output(s: string): string {
    Escape(s) + "*"
  }

  function StripStar(s: string): string {
    if EndsIn(s, '*') then s[..|s| - 1] else s
  }

  /** mess__treatInput; of an empty text it would look at the character before the first. */
  function Input(s: string): string
    requires s != ""
  {
    StripStar(Unescape(s))
  }

  lemma UnescapeChar(c: char, t: string)
    ensures Unescape(EscapeChar(c) + t) == [c] + Unescape(t)
  {
    var e := EscapeChar(c);
    assert (e + t)[|e|..] == t;
  }

  lemma {:induction false} UnescapeOutput(s: string)
    ensures Unescape(Escape(s) + "*") == (if EndsIn(s, '\\') then s[..|s| - 1] else s) + "*"
  {
    if |s| > 1 {
      UnescapeOutput(s[1..]);
      assert Escape(s) + "*" == EscapeChar(s[0]) + (Escape(s[1..]) + "*");
      UnescapeChar(s[0], Escape(s[1..]) + "*");
      assert s == [s[0]] + s[1..];
    } else if s != "" {
      assert Escape(s) + "*" == [s[0], '*'];
      assert [s[0], '*'][1..] == "*" && [s[0], '*'][2..] == "";
      assert Unescape("*") == "*" && s == [s[0]];
    }
  }

  /** Reading what was written gives the text back, except that a final backslash is lost. */
  lemma OutputInput(s: string)
    ensures Input(Output(s)) == if EndsIn(s, '\\') then s[..|s| - 1] else s
    ensures Input(Output(s)) == s <==> !EndsIn(s, '\\')
  {
    UnescapeOutput(s);
  }

  /** What the two passes do to the first of several characters. */
  lemma FirstCharacter(c: char, t: string)
    ensures t != "" ==> Escape([c] + t) == (if c == '*' || c == '\\' then ['\\', c] else [c]) + Escape(t)
    ensures Escape([c]) == [c] && Escape("") == ""
    ensures c == '*' || c == '\\' ==> Unescape(['\\', c] + t) == [c] + Unescape(t)
    ensures c != '\\' ==> Unescape([c] + t) == [c] + Unescape(t)
    ensures t == "" || (t[0] != '*' && t[0] != '\\') ==> Unescape(['\\'] + t) == ['\\'] + Unescape(t)
  {
    assert ([c] + t)[1..] == t && (['\\', c] + t)[2..] == t && (['\\'] + t)[1..] == t;
  }

  /** A text without stars and backslashes is sent as it is, and read as it is. */
  lemma {:induction false} PlainText(s: string)
    requires '*' !in s && '\\' !in s
    ensures Escape(s) == s && Unescape(s) == s && Output(s) == s + "*"
    decreases |s|
  {
    if s != "" {
      PlainText(s[1..]);
      assert s == [s[0]] + s[1..];
      FirstCharacter(s[0], s[1..]);
    }
  }

  /* ---- the sizes of the buffers ---- */

  function SpecialCount(s: string): nat {
    if s == "" then 0 else SpecialCount(s[..|s| - 1]) + if IsSpecial(s[|s| - 1]) then 1 else 0
  }

  lemma {:induction false} SpecialFirst(s: string)
    requires s != ""
    ensures SpecialCount(s) == (if IsSpecial(s[0]) then 1 else 0) + SpecialCount(s[1..])
  {
    if |s| > 1 {
      var t := s[..|s| - 1];
      SpecialFirst(t);
      assert s[1..][..|s| - 2] == t[1..];
    }
  }

  /** The escaped text fits in the space counted for it; it leaves one place free when the last character is special. */
  lemma {:induction false} EscapeLength(s: string)
    ensures |Escape(s)| == |s| + SpecialCount(s) - if s != "" && IsSpecial(s[|s| - 1]) then 1 else 0
  {
    if s != "" {
      SpecialFirst(s);
      if |s| > 1 { EscapeLength(s[1..]); }
    }
  }

  /* ---- splitting a stream into frames ---- */

  /**
   AsCoded is the framer of the source: an assignment in its test, where a comparison is meant, makes it
   end frames at newlines only. AsMeant compares: it ends a frame also at a star no backslash precedes.
   */
  datatype Framer = AsCoded | AsMeant

  predicate Cuts(f: Framer, src: string, i: nat)
    requires i < |src|
  {
    src[i] == '\n' || (f.AsMeant? && i > 0 && src[i - 1] != '\\' && src[i] == '*')
  }

  /** The frames of src from start on, none of which ends before i. */
  function Frames(f: Framer, src: string, start: nat, i: nat): (fs: seq<string>)
    requires start <= i <= |src|
    ensures forall k :: 0 <= k < |fs| ==> fs[k] != ""
    decreases |src| - i
  {
    if i == |src| then (if start < i then [src[start..]] else [])
    else if Cuts(f, src, i) then [src[start..i + 1]] + Frames(f, src, i + 1, i + 1)
    else Frames(f, src, start, i + 1)
  }

  const MAX_MESSAGES := 50

  function InputAll(fs: seq<string>): seq<string>
    requires forall k :: 0 <= k < |fs| ==> fs[k] != ""
  {
    seq(|fs|, k requires 0 <= k < |fs| => Input(fs[k]))
  }

  /** The texts a stream is cut into: one fewer than the limit of the source at most. */
  function Texts(f: Framer, src: string): seq<string> {
    var fs := Frames(f, src, 0, 0);
    InputAll(if |fs| < MAX_MESSAGES then fs else fs[..MAX_MESSAGES - 1])
  }

  /** What is sent for a list of texts. */
  function Stream(ss: seq<string>): string {
    if ss == [] then "" else Output(ss[0]) + Stream(ss[1..])
  }

  /** Texts that survive framing. */
  predicate IsClean(s: string) {
    s != "" && '\n' !in s && !EndsIn(s, '*') && !EndsIn(s, '\\')
  }

  lemma {:induction false} EscapeStars(s: string)
    requires s != "" && !EndsIn(s, '*') && '\n' !in s
    ensures var e := Escape(s);
      && e != "" && e[|e| - 1] == s[|s| - 1] && '\n' !in e
      && forall i :: 0 <= i < |e| && e[i] == '*' ==> i > 0 && e[i - 1] == '\\'
  {
    if |s| > 1 {
      EscapeStars(s[1..]);
      var e, e' := Escape(s), Escape(s[1..]);
      var k := |EscapeChar(s[0])|;
      assert forall i :: k <= i < |e| ==> e[i] == e'[i - k];
    }
  }

  /** Frames depend on what is before them only through the last character, which never cuts on its own. */
  lemma {:induction false} OneFrame(f: Framer, src: string, start: nat, i: nat, end: nat)
    requires start <= i <= end < |src|
    requires Cuts(f, src, end) && forall k :: i <= k < end ==> !Cuts(f, src, k)
    ensures Frames(f, src, start, i) == [src[start..end + 1]] + Frames(f, src, end + 1, end + 1)
    decreases end - i
  {
    if i < end {
      OneFrame(f, src, start, i + 1, end);
    }
  }

  lemma {:induction false} StreamFrames(ss: seq<string>, src: string, start: nat)
    requires start <= |src| && src[start..] == Stream(ss) && forall s :: s in ss ==> IsClean(s)
    ensures var fs := Frames(AsMeant, src, start, start);
      |fs| == |ss| && forall k :: 0 <= k < |ss| ==> fs[k] == Output(ss[k])
    decreases |ss|
  {
    if ss != [] {
      assert ss[0] in ss;
      OutputFrame(ss[0], Stream(ss[1..]), src, start);
      StreamFrames(ss[1..], src, start + |Output(ss[0])|);
    }
  }

  /** A clean text, framed, is cut where its frame ends and nowhere before. */
  lemma OutputFrame(s: string, rest: string, src: string, start: nat)
    requires start <= |src| && src[start..] == Output(s) + rest && IsClean(s)
    ensures var end := start + |Output(s)|;
      && end <= |src| && src[end..] == rest
      && Frames(AsMeant, src, start, start) == [Output(s)] + Frames(AsMeant, src, end, end)
  {
    hide Escape, Frames;
    var e := Escape(s);
    EscapeStars(s);
    Within(src, start, Output(s), rest);
    assert forall k :: start <= k < start + |e| ==> src[k] == Output(s)[k - start] == e[k - start];
    assert src[start + |e|] == Output(s)[|e|] == '*';
    OneFrame(AsMeant, src, start, start, start + |e|);
  }

  lemma Within(src: string, start: nat, s: string, rest: string)
    requires start <= |src| && src[start..] == s + rest
    ensures start + |s| <= |src| && src[start..start + |s|] == s && src[start + |s|..] == rest
    ensures forall i :: start <= i < start + |s| ==> src[i] == s[i - start]
  {
    assert forall i :: start <= i < |src| ==> src[i] == src[start..][i - start];
  }

  lemma CleanInput(s: string)
    requires IsClean(s)
    ensures Input(Output(s)) == s
  {
    OutputInput(s);
  }

  /** The framer as it is meant gives back clean texts in order, the first 49 of them; it never cuts at an escaped star. */
  lemma MeantRoundTrip(ss: seq<string>)
    requires forall s :: s in ss ==> IsClean(s)
    ensures Texts(AsMeant, Stream(ss)) == if |ss| < MAX_MESSAGES then ss else ss[..MAX_MESSAGES - 1]
  {
    hide Stream, Frames, Input, Output, IsClean;
    var src := Stream(ss);
    assert src[0..] == src;
    StreamFrames(ss, src, 0);
    forall k | 0 <= k < |ss|
      ensures Input(Output(ss[k])) == ss[k]
    {
      assert ss[k] in ss;
      CleanInput(ss[k]);
    }
  }

  lemma {:induction false} NoNewline(ss: seq<string>)
    requires forall s :: s in ss ==> '\n' !in s
    ensures '\n' !in Stream(ss) && (ss != [] ==> Stream(ss) != "")
  {
    if ss != [] {
      assert ss[0] in ss;
      EscapeNewline(ss[0]);
      NoNewline(ss[1..]);
    }
  }

  lemma {:induction false} EscapeNewline(s: string)
    requires '\n' !in s
    ensures '\n' !in Escape(s)
  {
    if |s| > 1 {
      EscapeNewline(s[1..]);
    }
  }

  lemma {:induction false} NoCut(src: string, start: nat, i: nat)
    requires start <= i <= |src| && '\n' !in src
    ensures Frames(AsCoded, src, start, i) == if start < |src| then [src[start..]] else []
    decreases |src| - i
  {
    if i < |src| {
      NoCut(src, start, i + 1);
    }
  }

  /**
   The framer as it is coded never ends a frame at a star: it gives back a list of texts without newlines
   exactly when there is at most one of them, and that one does not end in a backslash.
   */
  lemma CodedRoundTrip(ss: seq<string>)
    requires forall s :: s in ss ==> '\n' !in s
    ensures |Texts(AsCoded, Stream(ss))| == if ss == [] then 0 else 1
    ensures Texts(AsCoded, Stream(ss)) == ss <==> ss == [] || (|ss| == 1 && !EndsIn(ss[0], '\\'))
  {
    NoNewline(ss);
    NoCut(Stream(ss), 0, 0);
    if |ss| == 1 {
      assert ss[1..] == [] && Stream(ss) == Output(ss[0]);
      OutputInput(ss[0]);
    }
  }

  /* ---- the buffers ---- */

  predicate IsCString(s: string) {
    forall k :: 0 <= k < |s| ==> s[k] != '\0'
  }

  /** A zero-terminated string at the start of a buffer. */
  ghost predicate HoldsText(a: array<char>, s: string)
    reads a
  {
    IsCString(s) && |s| < a.Length && a[|s|] == '\0' && forall k :: 0 <= k < |s| ==> a[k] == s[k]
  }

  /** strlen. */
  method Length(a: array<char>, ghost s: string) returns (n: nat)
    requires HoldsText(a, s)
    ensures n == |s|
  {
    n := 0;
    while a[n] != '\0'
      invariant n <= |s|
      decreases |s| - n
    {
      n := n + 1;
    }
  }

  /** The first pass of mess__escape: the length of the text and the number of characters to escape. */
  method CountSpecials(src: array<char>, ghost s: string) returns (n: nat, count: nat)
    requires HoldsText(src, s)
    ensures n == |s| && count == SpecialCount(s)
  {
    n, count := 0, 0;
    while src[n] != '\0'
      invariant n <= |s| && count == SpecialCount(s[..n])
      decreases |s| - n
    {
      assert s[..n + 1][..n] == s[..n];
      if src[n] == '*' || src[n] == '\\' {
        count := count + 1;
      }
      n := n + 1;
    }
    assert s[..n] == s;
  }

  lemma EscapeStep(s: string, i: nat)
    requires i < |s|
    ensures Escape(s[i..]) == (if IsSpecial(s[i]) && i != |s| - 1 then ['\\', s[i]] else [s[i]]) + Escape(s[i + 1..])
  {
    assert s[i..][1..] == s[i + 1..];
  }

  /** The buffer holds the escaped form of the first i characters. */
  ghost predicate Filled(dst: array<char>, count: nat, s: string, i: nat)
    requires i <= |s|
    reads dst
  {
    count <= dst.Length && dst[..count] + Escape(s[i..]) == Escape(s)
  }

  lemma FilledAll(dst: array<char>, count: nat, s: string)
    requires Filled(dst, count, s, |s|)
    ensures dst[..count] == Escape(s) && count == |Escape(s)| <= |s| + SpecialCount(s)
  {
    EscapeLength(s);
    assert s[|s|..] == "";
  }

  /** One step of the second pass, which always finds room in the buffer. */
  method EscapeNext(src: array<char>, ghost s: string, n: nat, i: nat, dst: array<char>, count: nat) returns (count': nat)
    requires HoldsText(src, s) && n == |s| && i < n && src != dst && dst.Length == n + 1 + SpecialCount(s)
    requires Filled(dst, count, s, i)
    modifies dst
    ensures Filled(dst, count', s, i + 1)
  {
    hide Escape, SpecialCount;
    EscapeStep(s, i);
    EscapeLength(s);
    ghost var before := dst[..count];
    count' := count;
    if (src[i] == '*' || src[i] == '\\') && i != n - 1 {
      dst[count'] := '\\';
      count' := count' + 1;
      dst[count'] := src[i];
      assert dst[..count' + 1] == before + ['\\', s[i]];
    } else {
      dst[count'] := src[i];
      assert dst[..count' + 1] == before + [s[i]];
    }
    count' := count' + 1;
  }

  lemma EscapeKeepsZero(s: string)
    requires IsCString(s)
    ensures IsCString(Escape(s))
  {
    if |s| > 1 { EscapeKeepsZero(s[1..]); }
  }

  /** mess__escape: one pass sizes the buffer, the other fills it, and the size always suffices. */
  method EscapeText(src: array<char>, ghost s: string) returns (dst: array<char>)
    requires HoldsText(src, s)
    ensures fresh(dst) && HoldsText(dst, Escape(s)) && dst.Length == |s| + 1 + SpecialCount(s)
  {
    var n, count := CountSpecials(src, s);
    dst := new char[n + 1 + count];
    var filled: nat := 0;
    assert s[0..] == s;
    for i := 0 to n
      invariant Filled(dst, filled, s, i) && dst.Length == n + 1 + SpecialCount(s)
    {
      filled := EscapeNext(src, s, n, i, dst, filled);
    }
    FilledAll(dst, filled, s);
    EscapeKeepsZero(s);
    assert forall k :: 0 <= k < filled ==> dst[k] == dst[..filled][k];
    dst[filled] := src[n];
  }

  lemma UnescapeKeepsZero(s: string)
    requires IsCString(s)
    ensures IsCString(Unescape(s))
  {
    if s != "" {
      UnescapeKeepsZero(s[1..]);
      if |s| > 1 { UnescapeKeepsZero(s[2..]); }
    }
  }

  /** The characters a step of mess__unescape looks at. */
  predicate SkipsNext(s: string, i: nat)
    requires i < |s|
  {
    s[i] == '\\' && i + 1 < |s| && IsSpecial(s[i + 1])
  }

  lemma UnescapeStep(s: string, i: nat)
    requires i < |s|
    ensures Unescape(s[i..]) == if SkipsNext(s, i) then [s[i + 1]] + Unescape(s[i + 2..]) else [s[i]] + Unescape(s[i + 1..])
  {
    assert s[i..][1..] == s[i + 1..];
    if i + 1 < |s| { assert s[i..][2..] == s[i + 2..]; }
  }

  /** The buffer holds the unescaped form of the first i characters. */
  ghost predicate Cleared(dst: array<char>, count: nat, s: string, i: nat)
    reads dst
  {
    count <= i <= |s| < dst.Length && dst[..count] + Unescape(s[i..]) == Unescape(s)
  }

  /** One step of mess__unescape: a skipped backslash, if any, and the character kept. */
  method UnescapeNext(src: array<char>, ghost s: string, n: nat, i: nat, dst: array<char>, count: nat) returns (i': nat)
    requires HoldsText(src, s) && n == |s| && i < n && src != dst && Cleared(dst, count, s, i)
    modifies dst
    ensures i < i' && Cleared(dst, count + 1, s, i')
  {
    hide Unescape;
    UnescapeStep(s, i);
    ghost var before := dst[..count];
    i' := i;
    if (src[i] == '\\' && i + 1 <= n && src[i + 1] == '\\') || (src[i] == '\\' && i + 1 <= n && src[i + 1] == '*') {
      i' := i + 1;
    }
    dst[count] := src[i'];
    assert dst[..count + 1] == before + [s[i']];
    i' := i' + 1;
  }

  /** mess__unescape. */
  method UnescapeText(src: array<char>, ghost s: string) returns (dst: array<char>)
    requires HoldsText(src, s)
    ensures fresh(dst) && HoldsText(dst, Unescape(s)) && dst.Length == |s| + 1
  {
    var n := Length(src, s);
    dst := new char[n + 1];
    var count: nat, i: nat := 0, 0;
    assert s[0..] == s;
    while i < n
      invariant Cleared(dst, count, s, i)
    {
      i := UnescapeNext(src, s, n, i, dst, count);
      count := count + 1;
    }
    UnescapeNothing(s, dst[..count]);
    UnescapeKeepsZero(s);
    assert forall k :: 0 <= k < count ==> dst[k] == dst[..count][k];
    dst[count] := src[n];
  }

  lemma UnescapeNothing(s: string, d: string)
    requires d + Unescape(s[|s|..]) == Unescape(s)
    ensures d == Unescape(s)
  {
    assert s[|s|..] == "";
  }

  /** mess__treatInput. */
  method TreatInput(src: array<char>, ghost s: string) returns (dst: array<char>)
    requires HoldsText(src, s) && s != ""
    ensures fresh(dst) && HoldsText(dst, Input(s))
  {
    dst := UnescapeText(src, s);
    var n := Length(dst, Unescape(s));
    if dst[n - 1] == '*' {
      dst[n - 1] := '\0';
    }
  }

  /** mess__treatOutput. */
  method TreatOutput(src: array<char>, ghost s: string) returns (dst: array<char>)
    requires HoldsText(src, s)
    ensures fresh(dst) && HoldsText(dst, Output(s))
  {
    var escaped := EscapeText(src, s);
    var n := Length(escaped, Escape(s));
    dst := new char[n + 2];
    for i := 0 to n
      invariant HoldsText(escaped, Escape(s)) && forall k :: 0 <= k < i ==> dst[k] == Escape(s)[k]
    {
      dst[i] := escaped[i];
    }
    dst[n] := '*';
    dst[n + 1] := '\0';
    assert |Output(s)| == n + 1 && forall k :: 0 <= k < n ==> Output(s)[k] == Escape(s)[k];
  }
}
