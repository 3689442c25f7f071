/** Which pattern a text is dispatched to: at most one accepts it, so the order of the table is irrelevant. */
module MessageDispatch {
  import opened Wrappers
  import opened RegexTree
  import opened RegexMatcher
  import opened RegexGreedy
  import RegexRender
  import opened RegexAcceptance
  import opened MessagePatterns
  import Regex
  import RegexParser

  /** Whether the i-th pattern accepts the text in memory. */
  predicate Matched(i: nat, x: Memory)
    requires i < COUNT
  {
    PatternReadsBack(i);
    Accepts(PatternTree(Tokens(PatternOf(i))), x)
  }

  /** Compiling a pattern of the table gives the tree of its tokens. */
  lemma PatternReadsBack(i: nat)
    requires i < COUNT
    ensures var ts, pat := Tokens(PatternOf(i)), SpellAll(PatternOf(i));
      && ts != [] && WellFormed(PatternTree(ts)) && pat != "" && '\0' !in pat && !RegexParser.LoneEscape(pat, 0)
      && RegexParser.ParsePattern(pat).Done? && RegexParser.ParsePattern(pat).value == PatternTree(ts)
  {
    hide PatternOf, SpellAll, Tokens, RegexParser.LoneEscape, RegexParser.ParsePattern, WellFormed, IsToken, Render, TokensFit;
    var ts := Tokens(PatternOf(i));
    TableIsPattern(i);
    RenderPattern(PatternOf(i));
    TokensSimple(PatternOf(i));
    RegexRender.NoRanges(ts, 1);
    RegexRender.CompileRendered(ts);
  }

  /** The matcher accepts exactly the texts that fit the pattern word by word. */
  lemma MatchedFits(i: nat, x: Memory)
    requires i < COUNT && IsText(x.text)
    ensures Matched(i, x) <==> TextFits(PatternOf(i), x.text)
  {
    hide PatternOf, Tokens, IsPattern, Fits, TextFits, Accepts;
    TableIsPattern(i);
    PatternReadsBack(i);
    AcceptsFits(Tokens(PatternOf(i)), x);
    FitsText(PatternOf(i), x.text);
  }

  /* ---- telling the patterns apart ---- */

  /** What is left after n spaces. */
  function After(text: string, n: nat): string
    decreases n
  {
    if n == 0 then text
    else
      var k := FirstSpace(text);
      if k == |text| then "" else After(text[k + 1..], n - 1)
  }

  /** The n-th of the fields that single spaces separate. */
  function Field(text: string, n: nat): string {
    After(text, n)[..FirstSpace(After(text, n))]
  }

  /** The one pattern that may accept a text, told from its fields; COUNT if there is none. */
  function Classify(text: string): nat {
    var w := Field(text, 0);
    if w == "load" then 0
    else if w == "save" then 1
    else if w == "show" then 2
    else if w == "add" then 3
    else if w == "update" then 4
    else if w == "del" then 5
    else if w == "disconnect" then 6
    else if w == "message" then 7
    else if w == "route" then 8
    else if w == "routetable" then 9
    else if w == "log" then
      if Field(text, 1) == "out" then 12 else if Field(text, 2) == "as" then 10 else 11
    else if w == "greeting" then 13
    else if w == "bye" then 14
    else if w == "poll" then 15
    else if w == "neighborhood" then
      if Field(text, 1) == "ok" then 17 else if After(text, 2) == "[]" then 30 else 16
    else if w == "link" then
      if Field(text, 1) == "id" then 18 else 19
    else if w == "vector" then
      if After(text, 1) == "[]" then 31 else if After(text, 1) == "ok" then 21 else 20
    else if w == "packet" then
      if Field(text, 7) == "ttl" then 22 else if Field(text, 7) == "ok" then 23 else 24
    else if w == "ping" then
      if ' ' in After(text, 1) then 25 else 28
    else if w == "pong" then
      if Field(text, 7) == "ttl" then 26 else 27
    else if w == "quit" then 29
    else if w == "debug" then 32
    else COUNT
  }

  function Length(ws: Words): nat {
    if ws.End? then 1 else 1 + Length(ws.rest)
  }

  function Nth(ws: Words, n: nat): Word
    requires n < Length(ws)
  {
    if n == 0 then ws.w else Nth(ws.rest, n - 1)
  }

  lemma NoSpace(w: Word, s: string)
    requires IsInner(w) && WordFits(w, s)
    ensures FirstSpace(s) == |s| && ' ' !in s
  {
    hide InNamedClass;
    assert !InNamedClass('d', ' ') && !InNamedClass('w', ' ') by { SpaceOutside(); }
    assert s[..|s|] == s;
  }

  lemma SpaceOutside()
    ensures !InNamedClass('d', ' ') && !InNamedClass('w', ' ')
  {
  }

  /** Every word of the pattern accepts its field; the last one all that is left. */
  lemma {:induction false} FieldFits(ws: Words, text: string, n: nat)
    requires IsPattern(ws) && TextFits(ws, text) && n < Length(ws)
    ensures n < Length(ws) - 1 ==> WordFits(Nth(ws, n), Field(text, n)) && ' ' in After(text, n)
    ensures n == Length(ws) - 1 ==> WordFits(Nth(ws, n), After(text, n))
    ensures Nth(ws, n).Fixed? ==> Field(text, n) == Nth(ws, n).s
    ensures n == Length(ws) - 1 && Nth(ws, n).Name? ==> ' ' !in After(text, n)
    decreases n
  {
    if n > 0 {
      FieldFits(ws.rest, text[FirstSpace(text) + 1..], n - 1);
    } else if ws.End? && IsInner(ws.w) {
      NoSpace(ws.w, text);
      assert text[..|text|] == text;
    }
  }

  lemma CommandTold(i: nat, text: string)
    requires 0 <= i < 10 && IsPattern(PatternOf(i)) && TextFits(PatternOf(i), text)
    ensures Classify(text) == i
  {
    hide IsPattern, TextFits, Field, After, FirstSpace, AllIn;
    FieldFits(PatternOf(i), text, 0);
  }

  lemma SessionTold(i: nat, text: string)
    requires 10 <= i < 16 && IsPattern(PatternOf(i)) && TextFits(PatternOf(i), text)
    ensures Classify(text) == i
  {
    hide IsPattern, TextFits, Field, After, FirstSpace, AllIn;
    FieldFits(PatternOf(i), text, 0);
    match i
    case 10 =>
      FieldFits(PatternOf(10), text, 1);
      FieldFits(PatternOf(10), text, 2);
    case 11 =>
      FieldFits(PatternOf(11), text, 1);
      FieldFits(PatternOf(11), text, 2);
    case 12 => FieldFits(PatternOf(12), text, 1);
    case 13 =>
    case 14 =>
    case _ =>
  }

  lemma NeighborhoodTold(i: nat, text: string)
    requires (i == 16 || i == 17 || i == 30) && IsPattern(PatternOf(i)) && TextFits(PatternOf(i), text)
    ensures Classify(text) == i
  {
    hide IsPattern, TextFits, Field, After, FirstSpace, AllIn;
    FieldFits(PatternOf(i), text, 0);
    if i == 16 {
      FieldFits(PatternOf(16), text, 1);
      FieldFits(PatternOf(16), text, 2);
    }
    if i == 17 {
      FieldFits(PatternOf(17), text, 1);
    }
    if i == 30 {
      FieldFits(PatternOf(30), text, 1);
      FieldFits(PatternOf(30), text, 2);
    }
  }

  lemma LinkTold(i: nat, text: string)
    requires (i == 18 || i == 19) && IsPattern(PatternOf(i)) && TextFits(PatternOf(i), text)
    ensures Classify(text) == i
  {
    hide IsPattern, TextFits, Field, After, FirstSpace, AllIn;
    FieldFits(PatternOf(i), text, 0);
    if i == 18 {
      FieldFits(PatternOf(18), text, 1);
    }
    if i == 19 {
      FieldFits(PatternOf(19), text, 1);
    }
  }

  lemma VectorTold(i: nat, text: string)
    requires (i == 20 || i == 21 || i == 31) && IsPattern(PatternOf(i)) && TextFits(PatternOf(i), text)
    ensures Classify(text) == i
  {
    hide IsPattern, TextFits, Field, After, FirstSpace, AllIn;
    FieldFits(PatternOf(i), text, 0);
    if i == 20 {
      FieldFits(PatternOf(20), text, 1);
    }
    if i == 21 {
      FieldFits(PatternOf(21), text, 1);
    }
    if i == 31 {
      FieldFits(PatternOf(31), text, 1);
    }
  }

  lemma ThreeOn(u: Word, v: Word, w: Word, rest: Words, n: nat)
    requires n < Length(rest)
    ensures var ws := Then(u, Then(v, Then(w, rest)));
      Length(ws) == 3 + Length(rest) && Nth(ws, n + 3) == Nth(rest, n)
  {
    assert Length(Then(w, rest)) == 1 + Length(rest) && Nth(Then(w, rest), n + 1) == Nth(rest, n);
  }

  lemma HeaderTold(s: string, rest: Words, text: string)
    requires IsPattern(Header(s, rest)) && TextFits(Header(s, rest), text)
    ensures Field(text, 0) == s && ' ' in After(text, 1)
    ensures rest.w.Fixed? ==> Field(text, 7) == rest.w.s
  {
    hide IsPattern, TextFits, Field, After, FirstSpace;
    var ws := Header(s, rest);
    ThreeOn(Name, Fixed("dst"), Name, rest, 0);
    ThreeOn(Fixed("seqnum"), Number, Fixed("src"), ws.rest.rest.rest.rest, 3);
    FieldFits(ws, text, 0);
    FieldFits(ws, text, 1);
    FieldFits(ws, text, 7);
  }

  lemma PacketTold(i: nat, text: string)
    requires 22 <= i < 28 && IsPattern(PatternOf(i)) && TextFits(PatternOf(i), text)
    ensures Classify(text) == i
  {
    hide IsPattern, TextFits, Field, After, FirstSpace, Header;
    match i
    case 22 => HeaderTold("packet", Then(Fixed("ttl"), Then(Number, Then(Fixed("data"), End(Anything)))), text);
    case 23 => HeaderTold("packet", End(Fixed("ok")), text);
    case 24 => HeaderTold("packet", End(Fixed("toofar")), text);
    case 25 => HeaderTold("ping", Then(Fixed("ttl"), End(Number)), text);
    case 26 => HeaderTold("pong", Then(Fixed("ttl"), End(Number)), text);
    case _ => HeaderTold("pong", End(Fixed("ttlzero")), text);
  }

  lemma OtherTold(i: nat, text: string)
    requires (i == 28 || i == 29 || i == 32) && IsPattern(PatternOf(i)) && TextFits(PatternOf(i), text)
    ensures Classify(text) == i
  {
    hide IsPattern, TextFits, Field, After, FirstSpace, AllIn;
    FieldFits(PatternOf(i), text, 0);
    if i == 28 {
      FieldFits(PatternOf(28), text, 1);
    }
  }

  /** If a pattern accepts the text, it is the one the fields tell. */
  lemma Unique(i: nat, text: string)
    requires i < COUNT && TextFits(PatternOf(i), text)
    ensures Classify(text) == i
  {
    hide IsPattern, TextFits, Classify, PatternOf;
    TableIsPattern(i);
    if i < 10 {
      CommandTold(i, text);
    } else if i < 16 {
      SessionTold(i, text);
    } else if i == 16 || i == 17 || i == 30 {
      NeighborhoodTold(i, text);
    } else if i < 20 {
      LinkTold(i, text);
    } else if i < 22 || i == 31 {
      VectorTold(i, text);
    } else if i < 28 {
      PacketTold(i, text);
    } else {
      OtherTold(i, text);
    }
  }

  /** No text is accepted by two of the patterns. */
  lemma NoOverlap(i: nat, j: nat, x: Memory)
    requires i < COUNT && j < COUNT && IsText(x.text) && Matched(i, x) && Matched(j, x)
    ensures i == j
  {
    MatchedFits(i, x);
    MatchedFits(j, x);
    Unique(i, x.text);
    Unique(j, x.text);
  }

  /** The first pattern, from the i-th on, that accepts the text. */
  function FirstMatch(x: Memory, i: nat): Option<nat>
    requires i <= COUNT
    decreases COUNT - i
  {
    if i == COUNT then None else if Matched(i, x) then Some(i) else FirstMatch(x, i + 1)
  }

  lemma {:induction false} FirstFound(x: Memory, i: nat)
    requires i <= COUNT
    ensures var r := FirstMatch(x, i);
      && (r.Some? ==> i <= r.value < COUNT && Matched(r.value, x))
      && (forall k :: i <= k < (if r.Some? then r.value else COUNT) ==> !Matched(k, x))
    decreases COUNT - i
  {
    hide Matched;
    if i < COUNT && !Matched(i, x) {
      FirstFound(x, i + 1);
    }
  }

  /** The order of the table is irrelevant: whichever pattern accepts the text is the one found. */
  lemma Dispatched(x: Memory, i: nat)
    requires i < COUNT && IsText(x.text)
    ensures FirstMatch(x, 0) == Some(i) <==> TextFits(PatternOf(i), x.text)
  {
    hide Matched, TextFits, PatternOf, FirstMatch;
    MatchedFits(i, x);
    FirstFound(x, 0);
    var r := FirstMatch(x, 0);
    if Matched(i, x) && r.Some? {
      NoOverlap(i, r.value, x);
    }
  }

  ghost predicate Compiled(i: nat, r: Regex.TRex)
    requires i < COUNT
  {
    r.Valid() && r.tree == PatternTree(Tokens(PatternOf(i)))
  }

  /** The patterns, compiled once and for all. */
  class Patterns {
    var regexes: seq<Regex.TRex>

    ghost predicate Valid()
      reads this
    {
      |regexes| == COUNT && forall i :: 0 <= i < COUNT ==> Compiled(i, regexes[i])
    }

    constructor ()
      ensures Valid()
    {
      hide Compiled;
      var rs: seq<Regex.TRex> := [];
      for i := 0 to COUNT
        invariant |rs| == i && forall k :: 0 <= k < i ==> Compiled(k, rs[k])
      {
        var r := CompilePattern(i);
        rs := rs + [r];
      }
      regexes := rs;
    }

    static method CompilePattern(i: nat) returns (r: Regex.TRex)
      requires i < COUNT
      ensures Compiled(i, r)
    {
      hide PatternOf, SpellAll, Tokens, RegexParser.LoneEscape, RegexParser.ParsePattern, WellFormed, Regex.TRex.Valid;
      PatternReadsBack(i);
      var c := Regex.TRex.Compile(SpellAll(PatternOf(i)));
      r := c;
    }

    static method Try(r: Regex.TRex, i: nat, x: Memory) returns (b: bool)
      requires i < COUNT && Compiled(i, r)
      ensures b == Matched(i, x)
    {
      hide PatternOf, Tokens, WellFormed, Accepts;
      b := r.Match(x);
    }

    /** Tries the patterns in order; -1 if none accepts. */
    method Find(x: Memory) returns (i: int)
      requires Valid()
      ensures i == (match FirstMatch(x, 0) case Some(k) => k case None => -1)
      ensures -1 <= i < COUNT
    {
      hide Matched, Compiled;
      i := 0;
      while i < COUNT
        invariant 0 <= i <= COUNT && FirstMatch(x, 0) == FirstMatch(x, i)
      {
        var b := Try(regexes[i], i, x);
        if b {
          return;
        }
        i := i + 1;
      }
      i := -1;
    }
  }
}
