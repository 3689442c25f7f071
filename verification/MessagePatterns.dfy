/**
 The pattern table of the message parser. Every pattern is a list of words separated by single
 spaces, so a text is accepted word by word, and no text is accepted by two patterns.
 */
module MessagePatterns {
  import opened RegexTree
  import opened RegexGreedy
  import opened RegexAcceptance

  /** Fixed stands for itself; the others are `\d*`, `\w*`, `.*`, `".*"`, `\[.*\]` and `\[\]`. */
  datatype Word = Fixed(s: string) | Number | Name | Anything | Quoted | Listed | EmptyList

  datatype Words = End(w: Word) | Then(w: Word, rest: Words)

  const COUNT := 33

  /** The pattern table. */
  function PatternOf(i: nat): Words
    requires i < COUNT
  {
    match i
    case 0 => Then(Fixed("load"), End(Anything))
    case 1 => Then(Fixed("save"), End(Anything))
    case 2 => Then(Fixed("show"), End(Fixed("topology")))
    case 3 => Then(Fixed("add"), Then(Fixed("link"), Then(Name, Then(Name, End(Number)))))
    case 4 => Then(Fixed("update"), Then(Fixed("link"), Then(Name, Then(Name, End(Number)))))
    case 5 => Then(Fixed("del"), Then(Fixed("link"), Then(Name, End(Name))))
    case 6 => Then(Fixed("disconnect"), End(Name))
    case 7 => Then(Fixed("message"), Then(Name, End(Quoted)))
    case 8 => Then(Fixed("route"), End(Name))
    case 9 => End(Fixed("routetable"))
    case 10 => Then(Fixed("log"), Then(Fixed("in"), Then(Fixed("as"), Then(Name, Then(Fixed("port"), End(Number))))))
    case 11 => Then(Fixed("log"), Then(Fixed("in"), Then(Fixed("port"), End(Number))))
    case 12 => Then(Fixed("log"), End(Fixed("out")))
    case 13 => Then(Fixed("greeting"), End(Name))
    case 14 => End(Fixed("bye"))
    case 15 => End(Fixed("poll"))
    case 16 => Then(Fixed("neighborhood"), Then(Fixed("newlist"), End(Listed)))
    case 17 => Then(Fixed("neighborhood"), End(Fixed("ok")))
    case 18 => Then(Fixed("link"), Then(Fixed("id"), End(Name)))
    case 19 => Then(Fixed("link"), End(Fixed("ok")))
    case 20 => Then(Fixed("vector"), End(Listed))
    case 21 => Then(Fixed("vector"), End(Fixed("ok")))
    case 22 => Header("packet", Then(Fixed("ttl"), Then(Number, Then(Fixed("data"), End(Anything)))))
    case 23 => Header("packet", End(Fixed("ok")))
    case 24 => Header("packet", End(Fixed("toofar")))
    case 25 => Header("ping", Then(Fixed("ttl"), End(Number)))
    case 26 => Header("pong", Then(Fixed("ttl"), End(Number)))
    case 27 => Header("pong", End(Fixed("ttlzero")))
    case 28 => Then(Fixed("ping"), End(Name))
    case 29 => End(Fixed("quit"))
    case 30 => Then(Fixed("neighborhood"), Then(Fixed("newlist"), End(EmptyList)))
    case 31 => Then(Fixed("vector"), End(EmptyList))
    case _ => End(Fixed("debug"))
  }

  /** What packets, pings and pongs start with. */
  function Header(s: string, rest: Words): Words {
    Then(Fixed(s), Then(Fixed("seqnum"), Then(Number, Then(Fixed("src"), Then(Name, Then(Fixed("dst"), Then(Name, rest)))))))
  }

  /* ---- words as tokens ---- */

  function Lits(s: string): seq<Token> {
    if s == "" then [] else [Lit(s[0])] + Lits(s[1..])
  }

  function TokensOf(w: Word): seq<Token> {
    match w
    case Fixed(s) => Lits(s)
    case Number => [Star(Named('d'))]
    case Name => [Star(Named('w'))]
    case Anything => [Star(Any)]
    case Quoted => [Lit('"'), Star(Any), Lit('"')]
    case Listed => [Lit('['), Star(Any), Lit(']')]
    case EmptyList => [Lit('['), Lit(']')]
  }

  function Tokens(ws: Words): seq<Token> {
    match ws
    case End(w) => TokensOf(w)
    case Then(w, rest) => TokensOf(w) + ([Lit(' ')] + Tokens(rest))
  }

  predicate Lowercase(s: string) {
    s != "" && forall i :: 0 <= i < |s| ==> 'a' <= s[i] <= 'z'
  }

  /** Words that cannot contain a space. */
  predicate IsInner(w: Word) {
    w.Number? || w.Name? || (w.Fixed? && Lowercase(w.s))
  }

  predicate IsPattern(ws: Words) {
    match ws
    case End(w) => IsInner(w) || !w.Fixed?
    case Then(w, rest) => IsInner(w) && IsPattern(rest)
  }

  function Spell(w: Word): string {
    match w
    case Fixed(s) => s
    case Number => "\\d*"
    case Name => "\\w*"
    case Anything => ".*"
    case Quoted => "\".*\""
    case Listed => "\\[.*\\]"
    case EmptyList => "\\[\\]"
  }

  function SpellAll(ws: Words): string {
    match ws
    case End(w) => Spell(w)
    case Then(w, rest) => Spell(w) + " " + SpellAll(rest)
  }

  /* ---- the regular expression of a pattern ---- */

  lemma {:induction false} RenderConcat(a: seq<Token>, b: seq<Token>)
    ensures Render(a + b) == Render(a) + Render(b)
  {
    if a == [] {
      assert a + b == b;
    } else {
      assert (a + b)[1..] == a[1..] + b;
      RenderConcat(a[1..], b);
    }
  }

  lemma LowercasePlain(c: char)
    requires 'a' <= c <= 'z'
    ensures IsToken(Lit(c)) && RenderToken(Lit(c)) == [c]
  {
  }

  lemma {:induction false} RenderLits(s: string)
    requires forall i :: 0 <= i < |s| ==> 'a' <= s[i] <= 'z'
    ensures Render(Lits(s)) == s && (forall t :: t in Lits(s) ==> IsToken(t)) && |Lits(s)| == |s|
  {
    hide IsToken, RenderToken;
    if s != "" {
      LowercasePlain(s[0]);
      RenderLits(s[1..]);
      assert Lits(s)[1..] == Lits(s[1..]);
    }
  }

  lemma RenderWord(w: Word)
    requires IsInner(w) || !w.Fixed?
    ensures Render(TokensOf(w)) == Spell(w) && TokensOf(w) != [] && forall t :: t in TokensOf(w) ==> IsToken(t)
  {
    hide IsToken, Render, RenderToken;
    if w.Fixed? {
      RenderLits(w.s);
    } else {
      OtherTokens();
      if w.Quoted? {
        RenderThree(Lit('"'), Star(Any), Lit('"'));
      } else if w.Listed? {
        RenderThree(Lit('['), Star(Any), Lit(']'));
      } else if w.EmptyList? {
        assert TokensOf(w) == [Lit('[')] + [Lit(']')];
        RenderConcat([Lit('[')], [Lit(']')]);
        RenderOne(Lit('['));
        RenderOne(Lit(']'));
      } else {
        RenderOne(TokensOf(w)[0]);
      }
    }
  }

  lemma OtherTokens()
    ensures IsToken(Star(Named('d'))) && IsToken(Star(Named('w'))) && IsToken(Star(Any))
    ensures IsToken(Lit('"')) && IsToken(Lit('[')) && IsToken(Lit(']')) && IsToken(Lit(' '))
    ensures RenderToken(Star(Named('d'))) == "\\d*" && RenderToken(Star(Named('w'))) == "\\w*" && RenderToken(Star(Any)) == ".*"
    ensures RenderToken(Lit('"')) == "\"" && RenderToken(Lit('[')) == "\\[" && RenderToken(Lit(']')) == "\\]"
    ensures RenderToken(Lit(' ')) == " "
  {
    hide IsToken, RenderToken;
    StarTokens();
    PlainToken('"');
    PlainToken(' ');
    SquareToken('[');
    SquareToken(']');
  }

  lemma StarTokens()
    ensures IsToken(Star(Named('d'))) && IsToken(Star(Named('w'))) && IsToken(Star(Any))
    ensures RenderToken(Star(Named('d'))) == "\\d*" && RenderToken(Star(Named('w'))) == "\\w*" && RenderToken(Star(Any)) == ".*"
  {
  }

  lemma PlainToken(c: char)
    requires c == '"' || c == ' '
    ensures IsToken(Lit(c)) && RenderToken(Lit(c)) == [c]
  {
  }

  lemma SquareToken(c: char)
    requires c == '[' || c == ']'
    ensures IsToken(Lit(c)) && RenderToken(Lit(c)) == ['\\', c]
  {
  }

  lemma RenderOne(t: Token)
    ensures Render([t]) == RenderToken(t)
  {
  }

  lemma RenderThree(t: Token, u: Token, v: Token)
    ensures Render([t, u, v]) == RenderToken(t) + RenderToken(u) + RenderToken(v)
  {
    hide RenderToken, Render;
    assert [t, u, v] == [t] + ([u] + [v]);
    RenderOne(t);
    RenderOne(u);
    RenderOne(v);
    RenderConcat([t], [u] + [v]);
    RenderConcat([u], [v]);
  }

  lemma {:induction false} RenderPattern(ws: Words)
    requires IsPattern(ws)
    ensures var ts := Tokens(ws);
      Render(ts) == SpellAll(ws) && ts != [] && forall t :: t in ts ==> IsToken(t)
  {
    hide Render, TokensOf, Spell, RenderToken, IsToken;
    RenderWord(ws.w);
    if ws.Then? {
      RenderPattern(ws.rest);
      RenderConcat(TokensOf(ws.w), [Lit(' ')] + Tokens(ws.rest));
      RenderConcat([Lit(' ')], Tokens(ws.rest));
      RenderOne(Lit(' '));
      OtherTokens();
    }
  }

  lemma CommandWords()
    ensures Lowercase("load") && Lowercase("save") && Lowercase("show") && Lowercase("topology") && Lowercase("add") && Lowercase("link")
    ensures Lowercase("update") && Lowercase("del") && Lowercase("disconnect") && Lowercase("message") && Lowercase("route") && Lowercase("routetable")
  {
  }

  lemma SessionWords()
    ensures Lowercase("log") && Lowercase("in") && Lowercase("as") && Lowercase("port") && Lowercase("out") && Lowercase("greeting")
    ensures Lowercase("bye") && Lowercase("poll") && Lowercase("neighborhood") && Lowercase("newlist") && Lowercase("ok") && Lowercase("id")
  {
  }

  lemma RoutingWords()
    ensures Lowercase("vector") && Lowercase("packet") && Lowercase("seqnum") && Lowercase("src") && Lowercase("dst") && Lowercase("ttl")
    ensures Lowercase("data") && Lowercase("toofar") && Lowercase("ping") && Lowercase("pong") && Lowercase("ttlzero") && Lowercase("quit") && Lowercase("debug")
  {
  }

  lemma TableIsPattern(i: nat)
    requires i < COUNT
    ensures IsPattern(PatternOf(i))
  {
    hide Lowercase;
    CommandWords();
    SessionWords();
    RoutingWords();
    match i
    case 0 => assert IsPattern(PatternOf(0));
    case 1 => assert IsPattern(PatternOf(1));
    case 2 => assert IsPattern(PatternOf(2));
    case 3 => assert IsPattern(PatternOf(3));
    case 4 => assert IsPattern(PatternOf(4));
    case 5 => assert IsPattern(PatternOf(5));
    case 6 => assert IsPattern(PatternOf(6));
    case 7 => assert IsPattern(PatternOf(7));
    case 8 => assert IsPattern(PatternOf(8));
    case 9 => assert IsPattern(PatternOf(9));
    case 10 => assert IsPattern(PatternOf(10));
    case 11 => assert IsPattern(PatternOf(11));
    case 12 => assert IsPattern(PatternOf(12));
    case 13 => assert IsPattern(PatternOf(13));
    case 14 => assert IsPattern(PatternOf(14));
    case 15 => assert IsPattern(PatternOf(15));
    case 16 => assert IsPattern(PatternOf(16));
    case 17 => assert IsPattern(PatternOf(17));
    case 18 => assert IsPattern(PatternOf(18));
    case 19 => assert IsPattern(PatternOf(19));
    case 20 => assert IsPattern(PatternOf(20));
    case 21 => assert IsPattern(PatternOf(21));
    case 22 => assert IsPattern(PatternOf(22));
    case 23 => assert IsPattern(PatternOf(23));
    case 24 => assert IsPattern(PatternOf(24));
    case 25 => assert IsPattern(PatternOf(25));
    case 26 => assert IsPattern(PatternOf(26));
    case 27 => assert IsPattern(PatternOf(27));
    case 28 => assert IsPattern(PatternOf(28));
    case 29 => assert IsPattern(PatternOf(29));
    case 30 => assert IsPattern(PatternOf(30));
    case 31 => assert IsPattern(PatternOf(31));
    case _ => assert IsPattern(PatternOf(32));
  }

  /* ---- which patterns the matcher decides ---- */

  /** The word has a `.*`. */
  predicate HasAny(w: Word) {
    w.Anything? || w.Quoted? || w.Listed?
  }

  function LastOf(ws: Words): Word {
    if ws.End? then ws.w else LastOf(ws.rest)
  }

  predicate NoZero(ts: seq<Token>) {
    Lit('\0') !in ts
  }

  lemma {:induction false} LitsClear(s: string, more: seq<Token>)
    ensures Clear(Lits(s) + more) <==> Clear(more)
    ensures MinText(Lits(s) + more) == s + MinText(more)
    ensures NoZero(more) && '\0' !in s ==> NoZero(Lits(s) + more)
  {
    hide Clear, MinText, NoZero;
    if s == "" {
      assert Lits(s) + more == more;
    } else {
      LitsClear(s[1..], more);
      assert s == [s[0]] + s[1..] && Lits(s) + more == [Lit(s[0])] + (Lits(s[1..]) + more);
      LitClear(s[0], Lits(s[1..]) + more);
    }
  }

  lemma LitClear(c: char, more: seq<Token>)
    ensures Clear([Lit(c)] + more) <==> Clear(more)
    ensures MinText([Lit(c)] + more) == [c] + MinText(more)
    ensures NextChar([Lit(c)] + more) == c
    ensures NoZero(more) && c != '\0' ==> NoZero([Lit(c)] + more)
  {
    hide In;
    assert ([Lit(c)] + more)[1..] == more;
  }

  lemma StarClear(cs: CharSet, more: seq<Token>)
    ensures Clear([Star(cs)] + more) <==> !In(cs, NextChar(more)) && Clear(more)
    ensures MinText([Star(cs)] + more) == MinText(more)
    ensures NoZero(more) ==> NoZero([Star(cs)] + more)
  {
    hide In;
    assert ([Star(cs)] + more)[1..] == more;
  }

  lemma Empty()
    ensures Clear([]) && MinText([]) == "" && NextChar([]) == '\0' && NoZero([])
  {
    NothingClear();
  }

  /** An inner word keeps what follows it clear; a word with `.*` is never clear. */
  lemma WordClear(w: Word, more: seq<Token>)
    requires (IsInner(w) && (more == [] || NextChar(more) == ' ')) || (!w.Fixed? && more == [])
    ensures Clear(TokensOf(w) + more) <==> Clear(more) && !HasAny(w)
    ensures |MinText(TokensOf(w) + more)| <= |Spell(w)| + |MinText(more)|
    ensures NoZero(more) ==> NoZero(TokensOf(w) + more)
  {
    hide Clear, MinText, NextChar, In, NoZero;
    Empty();
    match w
    case Fixed(s) =>
      LitsClear(s, more);
      assert '\0' !in s;
    case Number =>
      DigitsExclude();
      StarClear(Named('d'), more);
    case Name =>
      DigitsExclude();
      StarClear(Named('w'), more);
    case Anything =>
      AnyHolds(NextChar(more));
      StarClear(Any, more);
    case Quoted => BetweenClear('"', '"');
    case Listed => BetweenClear('[', ']');
    case EmptyList =>
      LitClear(']', []);
      LitClear('[', [Lit(']')]);
      assert [Lit('[')] + [Lit(']')] == TokensOf(w) == TokensOf(w) + more && [Lit(']')] + [] == [Lit(']')];
  }

  lemma DigitsExclude()
    ensures forall c :: c == ' ' || c == '\0' ==> !In(Named('d'), c) && !In(Named('w'), c)
  {
  }

  lemma AnyHolds(c: char)
    ensures In(Any, c)
  {
  }

  lemma BetweenClear(open: char, close: char)
    requires open != '\0' && close != '\0'
    ensures var ts := [Lit(open), Star(Any), Lit(close)];
      ts + [] == ts && !Clear(ts) && |MinText(ts)| == 2 && NoZero(ts)
  {
    hide Clear, MinText, NextChar, In, NoZero;
    Empty();
    AnyHolds(close);
    LitClear(close, []);
    StarClear(Any, [Lit(close)]);
    LitClear(open, [Star(Any)] + [Lit(close)]);
    assert [Lit(close)] + [] == [Lit(close)];
    assert [Lit(open)] + ([Star(Any)] + [Lit(close)]) == [Lit(open), Star(Any), Lit(close)];
  }

  /** No star of a pattern can swallow what must follow it, except a `.*`. */
  lemma {:induction false} PatternClear(ws: Words)
    requires IsPattern(ws)
    ensures Clear(Tokens(ws)) <==> !HasAny(LastOf(ws))
    ensures |MinText(Tokens(ws))| <= |SpellAll(ws)| && NoZero(Tokens(ws))
  {
    hide Clear, MinText, TokensOf, Spell, NoZero;
    Empty();
    match ws
    case End(w) =>
      WordClear(w, []);
      assert TokensOf(w) + [] == TokensOf(w);
    case Then(w, rest) =>
      PatternClear(rest);
      LitClear(' ', Tokens(rest));
      WordClear(w, [Lit(' ')] + Tokens(rest));
  }

  /** The patterns use no bracket classes. */
  predicate IsSimple(t: Token) {
    t.Lit? || t.chars.Any? || t.chars.Named?
  }

  lemma {:induction false} LitsSimple(s: string)
    ensures forall t :: t in Lits(s) ==> IsSimple(t)
  {
    if s != "" {
      LitsSimple(s[1..]);
    }
  }

  lemma {:induction false} TokensSimple(ws: Words)
    ensures forall t :: t in Tokens(ws) ==> IsSimple(t)
  {
    if ws.w.Fixed? {
      LitsSimple(ws.w.s);
    }
    if ws.Then? {
      TokensSimple(ws.rest);
    }
  }

  lemma TokensSome(ws: Words)
    requires IsPattern(ws)
    ensures Tokens(ws) != []
  {
    RenderPattern(ws);
  }

  lemma PatternsWithAny(i: nat)
    requires i < COUNT
    ensures HasAny(LastOf(PatternOf(i))) <==> i in {0, 1, 7, 16, 20, 22}
  {
  }

  lemma SpelledShort(i: nat)
    requires i in {0, 1, 7, 16, 20, 22}
    ensures |SpellAll(PatternOf(i))| < 100
  {
    if i == 22 {
      LongestPattern();
    }
  }

  lemma LongestPattern()
    ensures |SpellAll(PatternOf(22))| < 100
  {
    var data := Then(Fixed("ttl"), Then(Number, Then(Fixed("data"), End(Anything))));
    assert |SpellAll(data)| < 30;
    assert |SpellAll(Then(Fixed("src"), Then(Name, Then(Fixed("dst"), Then(Name, data)))))| < 60;
  }

  /** The matcher decides the language of a pattern of the table exactly when there is no `.*` in it. */
  lemma PatternDecides(i: nat)
    requires i < COUNT
    ensures Tokens(PatternOf(i)) != []
    ensures Decides(Tokens(PatternOf(i))) <==> i !in {0, 1, 7, 16, 20, 22}
  {
    hide PatternOf, Tokens, SpellAll, IsPattern, Decides, Clear, MinText, HasAny, LastOf, NoZero;
    var ws := PatternOf(i);
    TableIsPattern(i);
    TokensSome(ws);
    PatternClear(ws);
    PatternsWithAny(i);
    if HasAny(LastOf(ws)) {
      SpelledShort(i);
    }
    ZeroFree(Tokens(ws));
    if !HasAny(LastOf(ws)) {
      ClearDecides(Tokens(ws));
    } else {
      AcceptsLanguage(Tokens(ws));
    }
  }

  lemma ZeroFree(ts: seq<Token>)
    ensures NoZero(ts) <==> Lit('\0') !in ts
  {
  }

  /* ---- acceptance, word by word ---- */

  function FirstSpace(text: string): (k: nat)
    ensures k <= |text| && ' ' !in text[..k] && (k < |text| ==> text[k] == ' ')
  {
    if text == "" || text[0] == ' ' then 0
    else
      var k := FirstSpace(text[1..]);
      assert text[..k + 1] == [text[0]] + text[1..][..k];
      1 + k
  }

  predicate AllIn(kind: char, s: string) {
    forall i :: 0 <= i < |s| ==> InNamedClass(kind, s[i])
  }

  /** The words a pattern word accepts. Something is always needed where the pattern has `.*`. */
  predicate WordFits(w: Word, s: string) {
    match w
    case Fixed(t) => s == t
    case Number => AllIn('d', s)
    case Name => AllIn('w', s)
    case Anything => s != ""
    case Quoted => Enclosed('"', '"', s)
    case Listed => Enclosed('[', ']', s)
    case EmptyList => s == "[]"
  }

  /** An opening character, one character that may be anything, and no closing character before the last. */
  predicate Enclosed(open: char, close: char, s: string) {
    |s| >= 3 && s[0] == open && s[|s| - 1] == close && close !in s[2..|s| - 1]
  }

  /** A text accepted by a pattern: the last word takes all that is left. */
  predicate TextFits(ws: Words, text: string) {
    match ws
    case End(w) => WordFits(w, text)
    case Then(w, rest) =>
      var k := FirstSpace(text);
      k < |text| && WordFits(w, text[..k]) && TextFits(rest, text[k + 1..])
  }

  lemma {:induction false} LitsFit(s: string, more: seq<Token>, text: string)
    ensures Fits(Lits(s) + more, text) <==> s <= text && Fits(more, text[|s|..])
  {
    hide Fits;
    if s == "" {
      assert Lits(s) + more == more;
      assert text[0..] == text;
    } else {
      assert Lits(s) + more == [Lit(s[0])] + (Lits(s[1..]) + more);
      LitFits(s[0], Lits(s[1..]) + more, text);
      if text != "" {
        LitsFit(s[1..], more, text[1..]);
        PrefixStep(s, text);
      }
    }
  }

  lemma PrefixStep(s: string, text: string)
    requires s != "" && text != ""
    ensures s <= text <==> s[0] == text[0] && s[1..] <= text[1..]
    ensures s <= text ==> text[1..][|s| - 1..] == text[|s|..]
  {
    assert s == [s[0]] + s[1..] && text == [text[0]] + text[1..];
  }

  lemma LitFits(c: char, more: seq<Token>, text: string)
    ensures Fits([Lit(c)] + more, text) <==> text != "" && text[0] == c && Fits(more, text[1..])
  {
    assert ([Lit(c)] + more)[1..] == more;
  }

  /** A star over a class that excludes the space ends at the space exactly when the word is all in the class. */
  lemma ReachToSpace(kind: ClassLetter, rest: seq<Token>, text: string)
    requires !InNamedClass(kind, ' ')
    ensures var k, n := FirstSpace(text), Reach(Named(kind), [Lit(' ')] + rest, text);
      && n <= k
      && (n == k <==> AllIn(kind, text[..k]))
      && (n < |text| && text[n] == ' ' ==> n == k < |text|)
      && (k < |text| ==> text[k] == ' ')
  {
    hide Reach, InNamedClass, FirstSpace, AllIn;
    ReachStops(kind, rest, text);
    RunToSpace(kind, text, Reach(Named(kind), [Lit(' ')] + rest, text));
  }

  lemma ReachStops(kind: ClassLetter, rest: seq<Token>, text: string)
    requires !InNamedClass(kind, ' ')
    ensures var n := Reach(Named(kind), [Lit(' ')] + rest, text);
      (forall i :: 0 <= i < n ==> InNamedClass(kind, text[i])) && (n < |text| ==> !InNamedClass(kind, text[n]))
  {
    hide Reach, InNamedClass;
    var n := Reach(Named(kind), [Lit(' ')] + rest, text);
    assert forall i {:trigger text[i]} :: 0 <= i < n ==> In(Named(kind), text[i]);
  }

  lemma RunToSpace(kind: char, text: string, n: nat)
    requires !InNamedClass(kind, ' ') && n <= |text|
    requires (forall i :: 0 <= i < n ==> InNamedClass(kind, text[i])) && (n < |text| ==> !InNamedClass(kind, text[n]))
    ensures var k := FirstSpace(text);
      && n <= k
      && (n == k <==> AllIn(kind, text[..k]))
      && (n < |text| && text[n] == ' ' ==> n == k < |text|)
      && (k < |text| ==> text[k] == ' ')
  {
    hide InNamedClass;
    var k := FirstSpace(text);
    assert n < k ==> text[..k][n] == text[n];
    assert forall i :: 0 <= i < n ==> text[i] != ' ';
  }

  lemma TextToSpace(s: string, text: string)
    requires Lowercase(s)
    ensures var k := FirstSpace(text);
      k < |text| && text[..k] == s <==> |s| < |text| && s <= text && text[|s|] == ' '
  {
    var k := FirstSpace(text);
    if |s| < |text| && s <= text && text[|s|] == ' ' {
      assert forall i :: 0 <= i < |s| ==> text[i] == s[i];
    }
  }

  lemma FixedThenSpace(s: string, rest: seq<Token>, text: string)
    requires Lowercase(s)
    ensures var k := FirstSpace(text);
      Fits(Lits(s) + ([Lit(' ')] + rest), text) <==> k < |text| && s == text[..k] && Fits(rest, text[k + 1..])
  {
    hide FirstSpace, Lowercase, Fits;
    var more := [Lit(' ')] + rest;
    TextToSpace(s, text);
    LitsFit(s, more, text);
    if s <= text {
      SpaceAfter(more, rest, text, |s|);
    }
  }

  lemma StarThenSpace(kind: ClassLetter, rest: seq<Token>, text: string)
    requires !InNamedClass(kind, ' ')
    ensures var k := FirstSpace(text);
      Fits([Star(Named(kind))] + ([Lit(' ')] + rest), text) <==>
      k < |text| && AllIn(kind, text[..k]) && Fits(rest, text[k + 1..])
  {
    hide FirstSpace, Reach, AllIn, Fits, InNamedClass;
    var more := [Lit(' ')] + rest;
    ReachToSpace(kind, rest, text);
    SpaceAfter(more, rest, text, Reach(Named(kind), more, text));
    StarFits(Named(kind), more, text);
  }

  lemma WordThenSpace(w: Word, rest: seq<Token>, text: string)
    requires IsInner(w)
    ensures var k := FirstSpace(text);
      Fits(TokensOf(w) + ([Lit(' ')] + rest), text) <==>
      k < |text| && WordFits(w, text[..k]) && Fits(rest, text[k + 1..])
  {
    hide FirstSpace, AllIn, Lowercase, Fits;
    if w.Fixed? {
      FixedThenSpace(w.s, rest, text);
    } else {
      StarThenSpace(if w.Number? then 'd' else 'w', rest, text);
    }
  }

  lemma StarFits(cs: CharSet, more: seq<Token>, text: string)
    ensures Fits([Star(cs)] + more, text) <==> (text != "" || !In(cs, '\0')) && Fits(more, text[Reach(cs, more, text)..])
  {
    hide In, Reach;
    assert ([Star(cs)] + more)[1..] == more;
  }

  lemma SpaceAfter(more: seq<Token>, rest: seq<Token>, text: string, n: nat)
    requires more == [Lit(' ')] + rest && n <= |text|
    ensures Fits(more, text[n..]) <==> n < |text| && text[n] == ' ' && Fits(rest, text[n + 1..])
  {
    assert more[1..] == rest;
    if n < |text| {
      assert text[n..][1..] == text[n + 1..];
    }
  }

  lemma LastWord(w: Word, text: string)
    requires IsInner(w) || !w.Fixed?
    ensures Fits(TokensOf(w), text) <==> WordFits(w, text)
  {
    match w
    case Fixed(s) =>
      LitsFit(s, [], text);
      assert Lits(s) + [] == Lits(s);
    case Number => LastStar(Named('d'), text);
    case Name => LastStar(Named('w'), text);
    case Anything => TrailingAny(text);
    case Quoted => EnclosedFits('"', '"', text);
    case Listed => EnclosedFits('[', ']', text);
    case EmptyList =>
      assert [Lit('['), Lit(']')][1..] == [Lit(']')];
      if text != "" {
        FinalLiteral(']', text, 1);
      }
  }

  lemma EnclosedFits(open: char, close: char, text: string)
    ensures Fits([Lit(open), Star(Any), Lit(close)], text) <==> Enclosed(open, close, text)
  {
    assert [Lit(open), Star(Any), Lit(close)][1..] == [Star(Any), Lit(close)];
    if text != "" {
      AnyThenFinal(close, text[1..]);
      if |text| >= 3 {
        assert text[1..][1..|text| - 2] == text[2..|text| - 1];
      }
    }
  }

  lemma {:induction false} FitsText(ws: Words, text: string)
    requires IsPattern(ws)
    ensures Fits(Tokens(ws), text) <==> TextFits(ws, text)
  {
    match ws
    case End(w) => LastWord(w, text);
    case Then(w, rest) =>
      WordThenSpace(w, Tokens(rest), text);
      if FirstSpace(text) < |text| {
        FitsText(rest, text[FirstSpace(text) + 1..]);
      }
  }
}
