/**
 What the greedy matcher accepts on token lists. It never goes back, so it is exact where no star can
 swallow what has to follow it, and a last star over a set that holds the terminating zero has to
 find a character.
 */
module RegexAcceptance {
  import opened Wrappers
  import opened RegexTree
  import opened RegexMatcher
  import opened RegexGreedy

  /** The greedy loop counts to 65536, so longer texts are out of reach for a star. */
  const MAX_TEXT := 0x1_0000

  predicate IsText(text: string) {
    |text| < MAX_TEXT && '\0' !in text
  }

  predicate AllOf(cs: CharSet, s: string) {
    forall i :: 0 <= i < |s| ==> In(cs, s[i])
  }

  /** The character that follows is the one the lookahead waits for. */
  predicate Stops(rest: seq<Token>, c: char) {
    rest != [] && rest[0] == Lit(c)
  }

  /** How far a star goes: through its set, but not beyond a first character if the next token then matches. */
  function Reach(cs: CharSet, rest: seq<Token>, text: string): (n: nat)
    ensures n <= |text|
    ensures forall i :: 0 <= i < n ==> In(cs, text[i])
    ensures forall i :: 1 <= i < n ==> !Stops(rest, text[i])
    ensures n < |text| ==> !In(cs, text[n]) || (n > 0 && Stops(rest, text[n]))
  {
    if text == "" || !In(cs, text[0]) then 0
    else if |text| == 1 || Stops(rest, text[1]) then 1
    else 1 + Reach(cs, rest, text[1..])
  }

  /** Whether the first token matches at the start of the text. At the end a star must not see the zero in its set. */
  predicate Takes(ts: seq<Token>, text: string)
    requires ts != []
  {
    match ts[0]
    case Lit(c) => text != "" && text[0] == c
    case Star(cs) => text != "" || !In(cs, '\0')
  }

  /** How much of the text the first token then takes. */
  function Taken(ts: seq<Token>, text: string): (n: nat)
    requires ts != [] && Takes(ts, text)
    ensures n <= |text|
  {
    match ts[0]
    case Lit(_) => 1
    case Star(cs) => Reach(cs, ts[1..], text)
  }

  /** The texts a token list accepts, read from the left without ever going back. */
  predicate Fits(ts: seq<Token>, text: string) {
    if ts == [] then text == "" else Takes(ts, text) && Fits(ts[1..], text[Taken(ts, text)..])
  }

  /* ---- the greedy loop ---- */

  lemma LookAhead(rest: seq<Token>, x: Memory, s: nat)
    ensures var stop := TreeOf(rest);
      (StopsAt(stop) && MatchNode(stop, x, s, Beyond(stop, stop)).Some?) <==> Stops(rest, x.At(s))
  {
    hide WellFormed, Memory.At, SetTree;
  }

  lemma SetNode(cs: CharSet, x: Memory, s: nat, next: Tree)
    requires WellFormed(next)
    ensures MatchNode(SetTree(cs), x, s, next) == if In(cs, x.At(s)) then Some(s + 1) else None
  {
    hide WellFormed, Memory.At, InMembers, InNamedClass;
  }

  lemma LoopStep(cs: CharSet, rest: seq<Token>, x: Memory, s: nat, n: nat)
    requires n < UNBOUNDED
    ensures var t, next := TokenTree(Star(cs), TreeOf(rest)), TreeOf(rest);
      MatchGreedy(t, x, s, n, next) ==
        if !In(cs, x.At(s)) then (s, n)
        else if Stops(rest, x.At(s + 1)) || s + 1 >= |x.text| then (s + 1, n + 1)
        else MatchGreedy(t, x, s + 1, n + 1, next)
  {
    hide MatchNode, WellFormed, Memory.At, SetTree, In, Stops, StopsAt, Beyond;
    SetNode(cs, x, s, TreeOf(rest));
    LookAhead(rest, x, s + 1);
  }

  lemma {:induction false} LoopReach(cs: CharSet, rest: seq<Token>, x: Memory, s: nat, n: nat)
    requires IsText(x.text) && n <= s < |x.text|
    ensures MatchGreedy(TokenTree(Star(cs), TreeOf(rest)), x, s, n, TreeOf(rest)).0 == s + Reach(cs, rest, x.text[s..])
    decreases |x.text| - s
  {
    hide MatchGreedy, MatchNode, WellFormed, TreeOf, TokenTree, In;
    LoopStep(cs, rest, x, s, n);
    if s + 1 < |x.text| && In(cs, x.text[s]) && !Stops(rest, x.text[s + 1]) {
      LoopReach(cs, rest, x, s + 1, n + 1);
      assert x.text[s..][1..] == x.text[s + 1..];
    }
  }

  /* ---- one token ---- */

  lemma StarNode(t: Tree, x: Memory, s: nat, next: Tree)
    requires t.Node? && t.op == STAR && WellFormed(t) && WellFormed(next) && Agrees(t, next)
    ensures MatchNode(t, x, s, next) == Some(MatchGreedy(t, x, s, 0, next).0)
  {
    hide MatchGreedy, WellFormed, Agrees;
  }

  lemma LitNode(ts: seq<Token>, x: Memory, s: nat)
    requires ts != [] && ts[0].Lit?
    ensures MatchNode(TreeOf(ts), x, s, TreeOf(ts[1..])) == if x.At(s) == ts[0].c then Some(s + 1) else None
  {
    hide WellFormed, Memory.At;
  }

  lemma TreeNext(ts: seq<Token>)
    requires ts != []
    ensures var t := TreeOf(ts);
      t == TokenTree(ts[0], TreeOf(ts[1..])) && t.next == TreeOf(ts[1..]) == Follow(t, Nil) && Agrees(t, t.next)
    ensures ts[0].Star? ==> TreeOf(ts).op == STAR
  {
  }

  /** The first node of a list: if its token does not match, it fails or leaves the text. */
  lemma FirstNode(ts: seq<Token>, x: Memory, s: nat)
    requires ts != [] && IsText(x.text) && s <= |x.text|
    ensures var r := MatchNode(TreeOf(ts), x, s, TreeOf(ts[1..]));
      if Takes(ts, x.text[s..]) then r == Some(s + Taken(ts, x.text[s..])) else r.Some? ==> r.value > |x.text|
  {
    hide MatchNode, MatchGreedy, WellFormed, TreeOf, TokenTree, In, Agrees, Reach;
    TreeNext(ts);
    match ts[0]
    case Lit(c) => LitNode(ts, x, s);
    case Star(cs) =>
      StarNode(TreeOf(ts), x, s, TreeOf(ts[1..]));
      if s < |x.text| {
        LoopReach(cs, ts[1..], x, s, 0);
      } else {
        LoopStep(cs, ts[1..], x, s, 0);
        NoReach(cs, ts[1..]);
      }
  }

  lemma NoReach(cs: CharSet, rest: seq<Token>)
    ensures Reach(cs, rest, "") == 0
  {
  }

  /* ---- the whole list ---- */

  lemma FitsStep(ts: seq<Token>, text: string, i: nat)
    requires ts != [] && i <= |text|
    ensures Fits(ts, text[i..]) <==> Takes(ts, text[i..]) && Fits(ts[1..], text[i + Taken(ts, text[i..])..])
  {
    hide Taken, Takes;
    if Takes(ts, text[i..]) {
      assert text[i..][Taken(ts, text[i..])..] == text[i + Taken(ts, text[i..])..];
    }
  }

  lemma ChainStep(t: Tree, x: Memory, s: nat)
    requires t.Node? && WellFormed(t)
    ensures var r := MatchNode(t, x, s, t.next);
      MatchChain(t, x, s, Nil) ==
        if r.None? then None else if t.next.Node? then MatchChain(t.next, x, r.value, Nil) else r
  {
    hide MatchNode;
  }

  /** Once past the end, the matcher never comes back to it. */
  lemma NoReturn(t: Tree, x: Memory, s: nat)
    requires t.Node? && WellFormed(t) && s > |x.text|
    ensures MatchChain(t, x, s, Nil) != Some(|x.text|)
  {
    ChainSound(t, x, s, Nil);
  }

  lemma FitsNothing(text: string, i: nat)
    requires i <= |text|
    ensures Fits([], text[i..]) <==> i == |text|
  {
  }

  lemma {:induction false} ChainFits(ts: seq<Token>, x: Memory, s: nat)
    requires ts != [] && IsText(x.text) && s <= |x.text|
    ensures MatchChain(TreeOf(ts), x, s, Nil) == Some(|x.text|) <==> Fits(ts, x.text[s..])
    decreases |ts|
  {
    hide *;
    var t, text, rest := TreeOf(ts), x.text, ts[1..];
    TreeNext(ts);
    FirstNode(ts, x, s);
    ChainStep(t, x, s);
    FitsStep(ts, text, s);
    var r := MatchNode(t, x, s, t.next);
    if r.Some? {
      if r.value > |text| {
        if rest != [] { NoReturn(t.next, x, r.value); }
      } else if rest != [] {
        ChainFits(rest, x, r.value);
      } else {
        FitsNothing(text, r.value);
      }
    }
  }

  /** Acceptance by the matcher, whatever the memory behind the text holds. */
  lemma AcceptsFits(ts: seq<Token>, x: Memory)
    requires ts != [] && IsText(x.text)
    ensures Accepts(PatternTree(ts), x) <==> Fits(ts, x.text)
  {
    hide Fits;
    ChainFits(ts, x, 0);
    assert x.text[0..] == x.text;
  }

  /* ---- the language of a token list ---- */

  lemma SetMatches(cs: CharSet, text: string, i: nat, j: nat)
    ensures Matches(SetTree(cs), text, i, j) <==> j == i + 1 && j <= |text| && In(cs, text[i])
  {
    hide InMembers, InNamedClass;
  }

  lemma {:induction false} SetRepeats(cs: CharSet, text: string, n: nat, i: nat, j: nat)
    requires i <= j <= |text|
    ensures Repeats(SetTree(cs), text, n, i, j) <==> n == j - i && AllOf(cs, text[i..j])
    decreases n
  {
    hide In;
    if n > 0 {
      if Repeats(SetTree(cs), text, n, i, j) {
        var k := LastRepeat(SetTree(cs), text, n, i, j);
        SetMatches(cs, text, k, j);
        RepeatsForward(SetTree(cs), text, n - 1, i, k);
        SetRepeats(cs, text, n - 1, i, k);
        assert text[i..j] == text[i..k] + [text[k]];
      }
      if n == j - i && AllOf(cs, text[i..j]) {
        assert text[i..j] == text[i..j - 1] + [text[j - 1]];
        AllOfPrefix(cs, text, i, j);
        SetRepeats(cs, text, n - 1, i, j - 1);
        SetMatches(cs, text, j - 1, j);
      }
    }
  }

  lemma AllOfPrefix(cs: CharSet, text: string, i: nat, j: nat)
    requires i < j <= |text| && AllOf(cs, text[i..j])
    ensures AllOf(cs, text[i..j - 1]) && In(cs, text[j - 1])
  {
    hide In;
    var s := text[i..j - 1];
    forall m | 0 <= m < |s|
      ensures In(cs, s[m])
    {
      assert s[m] == text[i..j][m];
    }
    assert In(cs, text[i..j][j - 1 - i]);
  }

  lemma LastRepeat(t: Tree, text: string, n: nat, i: nat, j: nat) returns (k: nat)
    requires n > 0 && Repeats(t, text, n, i, j)
    ensures Repeats(t, text, n - 1, i, k) && Matches(t, text, k, j)
  {
    hide Matches;
    k :| Repeats(t, text, n - 1, i, k) && Matches(t, text, k, j);
  }

  lemma FirstOfChain(t: Tree, text: string, i: nat, j: nat) returns (k: nat)
    requires t.Node? && MatchesAll(t, text, i, j)
    ensures Matches(t, text, i, k) && MatchesAll(t.next, text, k, j)
  {
    hide Matches;
    k :| Matches(t, text, i, k) && MatchesAll(t.next, text, k, j);
  }

  lemma {:induction false} RepeatsForward(t: Tree, text: string, n: nat, i: nat, j: nat)
    requires Repeats(t, text, n, i, j)
    ensures i <= j
    decreases n
  {
    if n > 0 {
      var k: nat :| Repeats(t, text, n - 1, i, k) && Matches(t, text, k, j);
      RepeatsForward(t, text, n - 1, i, k);
    }
  }

  /** What the first token may match of the text, in the language of its node. */
  predicate Consumes(t: Token, text: string, i: nat, j: nat) {
    i <= j <= |text| && match t
    case Lit(c) => j == i + 1 && text[i] == c
    case Star(cs) => AllOf(cs, text[i..j])
  }

  lemma TokenMatches(ts: seq<Token>, text: string, i: nat, j: nat)
    requires ts != []
    ensures Matches(TreeOf(ts), text, i, j) <==> Consumes(ts[0], text, i, j)
  {
    hide Repeats, AllOf;
    if ts[0].Star? && i <= j <= |text| {
      forall n: nat
        ensures Repeats(SetTree(ts[0].chars), text, n, i, j) <==> n == j - i && AllOf(ts[0].chars, text[i..j])
      {
        SetRepeats(ts[0].chars, text, n, i, j);
      }
      assert Admits(j - i, 0, UNBOUNDED);
    }
  }

  /** text[i..j] is in the language of the list. */
  ghost predicate Spans(ts: seq<Token>, text: string, i: nat, j: nat) {
    MatchesAll(TreeOf(ts), text, i, j)
  }

  lemma SpansFirst(ts: seq<Token>, text: string, i: nat, j: nat) returns (k: nat)
    requires ts != [] && Spans(ts, text, i, j)
    ensures Consumes(ts[0], text, i, k) && Spans(ts[1..], text, k, j)
  {
    hide Matches;
    TreeNext(ts);
    k := FirstOfChain(TreeOf(ts), text, i, j);
    TokenMatches(ts, text, i, k);
  }

  lemma SpansMore(ts: seq<Token>, text: string, i: nat, k: nat, j: nat)
    requires ts != [] && Consumes(ts[0], text, i, k) && Spans(ts[1..], text, k, j)
    ensures Spans(ts, text, i, j)
  {
    hide Matches;
    TreeNext(ts);
    TokenMatches(ts, text, i, k);
    assert Matches(TreeOf(ts), text, i, k) && MatchesAll(TreeOf(ts).next, text, k, j);
  }

  lemma SpansNothing(text: string, i: nat, j: nat)
    ensures Spans([], text, i, j) <==> i == j
  {
  }

  /* ---- exactly when the matcher accepts the whole language ---- */

  /** The next character the list insists on, or the terminating zero. */
  function NextChar(ts: seq<Token>): char {
    if ts == [] then '\0' else match ts[0] case Lit(c) => c case Star(_) => NextChar(ts[1..])
  }

  /** No star has the next character that must follow in its set. */
  predicate Clear(ts: seq<Token>) {
    ts == [] || ((ts[0].Star? ==> !In(ts[0].chars, NextChar(ts[1..]))) && Clear(ts[1..]))
  }

  /** The shortest text of the language. */
  function MinText(ts: seq<Token>): string {
    if ts == [] then "" else (if ts[0].Lit? then [ts[0].c] else "") + MinText(ts[1..])
  }

  lemma NothingClear()
    ensures Clear([]) && MinText([]) == "" && NextChar([]) == '\0'
  {
  }

  predicate EndsInChar(ts: seq<Token>) {
    ts == [] || ts[|ts| - 1].Lit?
  }

  /** A match may begin later if what is skipped does not hold the next character. */
  lemma {:induction false} Advance(ts: seq<Token>, text: string, i: nat, i': nat, j: nat, cs: CharSet)
    requires Spans(ts, text, i, j) && i <= i' <= |text| && AllOf(cs, text[i..i']) && !In(cs, NextChar(ts))
    requires if ts == [] then i' <= j else EndsInChar(ts) || j == |text|
    ensures Spans(ts, text, i', j)
    decreases |ts|
  {
    hide In, Spans, Consumes, AllOf;
    if ts == [] {
      SpansNothing(text, i, j);
      SpansNothing(text, i', j);
    } else {
      var k := SpansFirst(ts, text, i, j);
      AdvanceOne(ts, text, i, i', k, cs);
      if i' > k {
        AdvanceRest(ts, text, i, i', k, j, cs);
        Advance(ts[1..], text, k, i', j, cs);
        SpansMore(ts, text, i', i', j);
      } else {
        SpansMore(ts, text, i', k, j);
      }
    }
  }

  lemma AdvanceOne(ts: seq<Token>, text: string, i: nat, i': nat, k: nat, cs: CharSet)
    requires ts != [] && Consumes(ts[0], text, i, k) && i <= i' <= |text| && AllOf(cs, text[i..i']) && !In(cs, NextChar(ts))
    ensures i' <= k ==> Consumes(ts[0], text, i', k)
    ensures i' > k ==> ts[0].Star? && Consumes(ts[0], text, i', i') && AllOf(cs, text[k..i']) && !In(cs, NextChar(ts[1..]))
  {
    hide In;
    assert i' > i ==> text[i] == text[i..i'][0] && In(cs, text[i]);
    if i' <= k {
      assert forall m :: 0 <= m < k - i' ==> text[i'..k][m] == text[i..k][m + (i' - i)];
    } else {
      assert forall m :: 0 <= m < i' - k ==> text[k..i'][m] == text[i..i'][m + (k - i)];
    }
  }

  lemma AdvanceRest(ts: seq<Token>, text: string, i: nat, i': nat, k: nat, j: nat, cs: CharSet)
    requires ts != [] && ts[0].Star? && (EndsInChar(ts) || j == |text|) && i' <= |text|
    ensures if ts[1..] == [] then i' <= j else EndsInChar(ts[1..]) || j == |text|
  {
    assert ts[1..] != [] ==> ts[1..][|ts| - 2] == ts[|ts| - 1];
  }

  lemma ReachClear(cs: CharSet, rest: seq<Token>, text: string, i: nat, k: nat)
    requires i <= k <= |text| && AllOf(cs, text[i..k]) && !In(cs, NextChar(rest))
    ensures k <= i + Reach(cs, rest, text[i..])
    ensures AllOf(cs, text[k..i + Reach(cs, rest, text[i..])])
  {
    hide In, Reach;
    var s := text[i..];
    var n := Reach(cs, rest, s);
    forall a | 0 <= a < k - i
      ensures In(cs, s[a])
    {
      assert s[a] == text[i..k][a];
    }
    var m := text[k..i + n];
    forall a | 0 <= a < |m|
      ensures In(cs, m[a])
    {
      assert m[a] == s[a + (k - i)];
    }
  }

  lemma {:induction false} NothingLeft(ts: seq<Token>, text: string, j: nat)
    requires Spans(ts, text, |text|, j)
    ensures NextChar(ts) == '\0'
    decreases |ts|
  {
    hide Spans;
    if ts != [] {
      var k := SpansFirst(ts, text, |text|, j);
      NothingLeft(ts[1..], text, j);
    }
  }

  lemma {:induction false} NextCharMore(ts: seq<Token>, more: seq<Token>)
    requires (ts != [] && EndsInChar(ts)) || more == []
    ensures NextChar(ts + more) == NextChar(ts)
    decreases |ts|
  {
    if more == [] {
      assert ts + more == ts;
    } else if ts[0].Star? {
      assert ts[1..][|ts| - 2] == ts[|ts| - 1] && (ts + more)[1..] == ts[1..] + more;
      NextCharMore(ts[1..], more);
    }
  }

  /** Whatever the language of a clear list allows, the matcher finds, up to what follows the list. */
  lemma {:induction false} SpansFit(ts: seq<Token>, more: seq<Token>, text: string, i: nat, j: nat)
    requires Clear(ts) && i <= |text| && j <= |text| && Spans(ts, text, i, j) && Fits(more, text[j..])
    requires EndsInChar(ts) || (more == [] && j == |text|)
    ensures Fits(ts + more, text[i..])
    decreases |ts|
  {
    hide Spans, Fits, Reach, In, Consumes, AllOf, NextChar;
    if ts == [] {
      SpansNothing(text, i, j);
      assert ts + more == more;
    } else {
      var k := SpansFirst(ts, text, i, j);
      FitsStep(ts + more, text, i);
      assert (ts + more)[1..] == ts[1..] + more && (ts + more)[0] == ts[0];
      assert ts[1..] != [] ==> ts[1..][|ts| - 2] == ts[|ts| - 1];
      if ts[0].Lit? {
        LitTakes(ts + more, text, i, k);
        SpansFit(ts[1..], more, text, k, j);
      } else {
        var n := StarTakes(ts, more, text, i, k, j);
        SpansFit(ts[1..], more, text, n, j);
      }
    }
  }

  lemma LitTakes(ts: seq<Token>, text: string, i: nat, k: nat)
    requires ts != [] && ts[0].Lit? && i <= |text| && Consumes(ts[0], text, i, k)
    ensures k == i + 1 && Takes(ts, text[i..]) && Taken(ts, text[i..]) == 1
  {
  }

  lemma StarTakes(ts: seq<Token>, more: seq<Token>, text: string, i: nat, k: nat, j: nat) returns (n: nat)
    requires ts != [] && ts[0].Star? && Clear(ts) && i <= |text| && j <= |text|
    requires Consumes(ts[0], text, i, k) && Spans(ts[1..], text, k, j)
    requires EndsInChar(ts) || (more == [] && j == |text|)
    ensures Takes(ts + more, text[i..]) && n == i + Taken(ts + more, text[i..]) && Spans(ts[1..], text, n, j)
  {
    hide Spans, Fits, Reach, In, AllOf, NextChar;
    var cs, rest := ts[0].chars, ts[1..];
    assert (ts + more)[1..] == rest + more && (ts + more)[0] == ts[0];
    assert rest != [] ==> rest[|ts| - 2] == ts[|ts| - 1];
    NextCharMore(rest, more);
    ReachClear(cs, rest + more, text, i, k);
    n := i + Reach(cs, rest + more, text[i..]);
    Advance(rest, text, k, n, j, cs);
    if i == |text| {
      NothingLeft(rest, text, j);
    }
  }

  lemma {:induction false} FitsSpans(ts: seq<Token>, more: seq<Token>, text: string, i: nat) returns (j: nat)
    requires i <= |text| && Fits(ts + more, text[i..])
    ensures j <= |text| && Spans(ts, text, i, j) && Fits(more, text[j..])
    decreases |ts|
  {
    hide Spans, Fits, Reach, In, Consumes, AllOf;
    if ts == [] {
      j := i;
      SpansNothing(text, i, j);
      assert ts + more == more;
    } else {
      FitsStep(ts + more, text, i);
      assert (ts + more)[1..] == ts[1..] + more && (ts + more)[0] == ts[0];
      var k := i + Taken(ts + more, text[i..]);
      TakenConsumes(ts + more, text, i);
      j := FitsSpans(ts[1..], more, text, k);
      SpansMore(ts, text, i, k, j);
    }
  }

  lemma TakenConsumes(ts: seq<Token>, text: string, i: nat)
    requires ts != [] && i <= |text| && Takes(ts, text[i..])
    ensures Consumes(ts[0], text, i, i + Taken(ts, text[i..]))
  {
    hide In;
    if ts[0].Star? {
      var s := text[i..i + Taken(ts, text[i..])];
      forall m | 0 <= m < |s|
        ensures In(ts[0].chars, s[m])
      {
        assert s[m] == text[i..][m];
      }
    }
  }

  lemma FitsIffSpans(ts: seq<Token>, text: string)
    requires Clear(ts)
    ensures Fits(ts, text) <==> Spans(ts, text, 0, |text|)
  {
    hide Spans, Fits, Clear;
    assert text[0..] == text && ts + [] == ts;
    FitsNothing(text, |text|);
    if Fits(ts, text) {
      var j := FitsSpans(ts, [], text, 0);
      FitsNothing(text, j);
    }
    if Spans(ts, text, 0, |text|) {
      SpansFit(ts, [], text, 0, |text|);
    }
  }

  lemma {:induction false} FitsLength(ts: seq<Token>, text: string)
    requires Fits(ts, text)
    ensures |text| >= |MinText(ts)|
    decreases |ts|
  {
    hide Reach;
    if ts != [] {
      FitsLength(ts[1..], text[Taken(ts, text)..]);
    }
  }

  lemma {:induction false} MinStart(ts: seq<Token>)
    ensures NextChar(ts) == if MinText(ts) == "" then '\0' else MinText(ts)[0]
    decreases |ts|
  {
    if ts != [] && ts[0].Star? {
      MinStart(ts[1..]);
    }
  }

  /** If the shortest text of the language is accepted, nothing stands in the way of the others. */
  lemma {:induction false} MinFits(ts: seq<Token>)
    requires Fits(ts, MinText(ts))
    ensures Clear(ts)
    decreases |ts|
  {
    hide In, Reach;
    if ts != [] {
      var text := MinText(ts);
      FitsLength(ts[1..], text[Taken(ts, text)..]);
      MinStart(ts[1..]);
      if ts[0].Lit? {
        assert text[1..] == MinText(ts[1..]);
      } else {
        assert Taken(ts, text) == 0 && text == MinText(ts[1..]) == text[0..];
      }
      MinFits(ts[1..]);
    }
  }

  lemma {:induction false} MinSpans(ts: seq<Token>, text: string, i: nat)
    requires i <= |text| && text[i..] == MinText(ts)
    ensures Spans(ts, text, i, |text|)
    decreases |ts|
  {
    hide Spans, In;
    if ts == [] {
      SpansNothing(text, i, |text|);
    } else {
      var k := if ts[0].Lit? then i + 1 else i;
      assert text[i..][k - i..] == text[k..];
      assert ts[0].Lit? ==> text[i..][0] == text[i];
      assert text[k..] == MinText(ts[1..]);
      MinSpans(ts[1..], text, k);
      SpansMore(ts, text, i, k, |text|);
    }
  }

  /** On this text the matcher says what the language says. */
  ghost predicate DecidesAt(ts: seq<Token>, x: Memory)
    requires ts != []
  {
    Accepts(PatternTree(ts), x) <==> InLanguage(PatternTree(ts), x.text)
  }

  /** The matcher decides the language of the list, for every text and every memory behind it. */
  ghost predicate Decides(ts: seq<Token>)
    requires ts != []
  {
    forall x: Memory :: IsText(x.text) ==> DecidesAt(ts, x)
  }

  lemma LanguageSpans(ts: seq<Token>, text: string)
    ensures InLanguage(PatternTree(ts), text) <==> Spans(ts, text, 0, |text|)
  {
  }

  lemma MinIsText(ts: seq<Token>)
    requires Lit('\0') !in ts
    ensures '\0' !in MinText(ts)
    decreases |ts|
  {
    if ts != [] {
      assert ts[0] in ts && (Lit('\0') in ts[1..] ==> Lit('\0') in ts);
      MinIsText(ts[1..]);
    }
  }

  lemma DecidesOne(ts: seq<Token>, x: Memory)
    requires ts != [] && IsText(x.text)
    ensures DecidesAt(ts, x) <==> (Fits(ts, x.text) <==> Spans(ts, x.text, 0, |x.text|))
  {
    hide Fits, Spans, Accepts, InLanguage;
    AcceptsFits(ts, x);
    LanguageSpans(ts, x.text);
  }

  lemma DecidesShortest(ts: seq<Token>, x: Memory)
    requires ts != [] && IsText(x.text) && x.text == MinText(ts) && DecidesAt(ts, x)
    ensures Clear(ts)
  {
    hide *;
    assert x.text[0..] == MinText(ts);
    MinSpans(ts, x.text, 0);
    DecidesOne(ts, x);
    MinFits(ts);
  }

  lemma ClearDecides(ts: seq<Token>)
    requires ts != [] && Clear(ts)
    ensures Decides(ts)
  {
    hide Fits, Spans, DecidesAt, Clear;
    forall x: Memory | IsText(x.text)
      ensures DecidesAt(ts, x)
    {
      DecidesOne(ts, x);
      FitsIffSpans(ts, x.text);
    }
  }

  /** The matcher decides the language exactly when no star may swallow the next character the list insists on. */
  lemma AcceptsLanguage(ts: seq<Token>)
    requires ts != [] && Lit('\0') !in ts && |MinText(ts)| < MAX_TEXT
    ensures Decides(ts) <==> Clear(ts)
  {
    hide Fits, Spans, DecidesAt, Clear, MinText;
    if Clear(ts) {
      ClearDecides(ts);
    }
    MinIsText(ts);
    var x := Memory(MinText(ts), i => '\0');
    if Decides(ts) {
      assert IsText(x.text);
      DecidesShortest(ts, x);
    }
  }

  /* ---- a last star over a set that holds the terminating zero ---- */

  lemma LastStar(cs: CharSet, text: string)
    ensures Fits([Star(cs)], text) <==> AllOf(cs, text) && (In(cs, '\0') ==> text != "")
  {
    hide In;
    var rest := [Star(cs)][1..];
    assert rest == [];
    FitsNothing(text, Reach(cs, [], text));
  }

  /** It takes what the language gives it, but never nothing. */
  lemma LastStarTakes(ts: seq<Token>, cs: CharSet, x: Memory)
    requires Clear(ts) && EndsInChar(ts) && In(cs, '\0') && IsText(x.text)
    ensures Accepts(PatternTree(ts + [Star(cs)]), x) <==>
            exists i :: 0 <= i < |x.text| && MatchesAll(TreeOf(ts), x.text, 0, i) && AllOf(cs, x.text[i..])
  {
    hide Fits, Accepts, PatternTree, Clear, In, AllOf, EndsInChar, MatchesAll;
    var text, more := x.text, [Star(cs)];
    AcceptsFits(ts + more, x);
    assert text[0..] == text;
    if Fits(ts + more, text) {
      var i := FitsSpans(ts, more, text, 0);
      LastStar(cs, text[i..]);
      assert MatchesAll(TreeOf(ts), text, 0, i);
    }
    if i :| 0 <= i < |text| && MatchesAll(TreeOf(ts), text, 0, i) && AllOf(cs, text[i..]) {
      LastStar(cs, text[i..]);
      SpansFit(ts, more, text, 0, i);
    }
  }

  /** `a\S*` does not accept "a", although "a" is in its language. */
  lemma LastNonSpace(x: Memory)
    requires x.text == "a"
    ensures var t := PatternTree([Lit('a'), Star(Named('S'))]);
      InLanguage(t, x.text) && !Accepts(t, x)
  {
    hide Fits, Spans, Accepts, InLanguage, PatternTree;
    var ts := [Lit('a'), Star(Named('S'))];
    LastShape('a', Named('S'));
    AcceptsFits(ts, x);
    LanguageSpans(ts, "a");
    assert "a"[0..] == "a";
    MinSpans(ts, "a", 0);
    if Fits(ts, "a") {
      MinFits(ts);
    }
  }

  lemma LastShape(c: char, cs: CharSet)
    ensures var ts := [Lit(c), Star(cs)];
      MinText(ts) == [c] && (Clear(ts) <==> !In(cs, '\0'))
  {
    var ts := [Lit(c), Star(cs)];
    assert ts[1..] == [Star(cs)] && [Star(cs)][1..] == [];
    NothingClear();
    assert MinText([Star(cs)]) == "";
    assert Clear([Star(cs)]) <==> !In(cs, '\0');
  }

  /** A trailing `.*` accepts every text but the empty one, although its language has that too. */
  lemma TrailingAny(text: string)
    ensures Fits([Star(Any)], text) <==> text != ""
    ensures Matches(PatternTree([Star(Any)]), "", 0, 0)
  {
    LastStar(Any, text);
    MinSpans([Star(Any)], "", 0);
    LanguageSpans([Star(Any)], "");
  }

  /* ---- a star before a final character ---- */

  lemma FinalLiteral(c: char, text: string, n: nat)
    requires n <= |text|
    ensures Fits([Lit(c)], text[n..]) <==> n + 1 == |text| && text[n] == c
  {
    assert [Lit(c)][1..] == [];
  }

  lemma StarThenLiteral(cs: CharSet, c: char, text: string)
    ensures Fits([Star(cs), Lit(c)], text) <==> text != "" && Fits([Lit(c)], text[Reach(cs, [Lit(c)], text)..])
  {
    hide In, Reach;
    assert [Star(cs), Lit(c)][1..] == [Lit(c)];
    if text == "" { FinalLiteral(c, text, Reach(cs, [Lit(c)], text)); }
  }

  /** A star and a final c accept x + c for x in the set; if c is in the set too, x is not empty and has no c behind its first character. */
  lemma StarThenFinal(cs: CharSet, c: char, text: string)
    ensures Fits([Star(cs), Lit(c)], text) <==>
            |text| >= 1 && text[|text| - 1] == c && AllOf(cs, text[..|text| - 1])
            && (In(cs, c) ==> |text| >= 2 && c !in text[1..|text| - 1])
  {
    hide In, Fits, Reach;
    StarThenLiteral(cs, c, text);
    if text != "" {
      var n, x := Reach(cs, [Lit(c)], text), text[..|text| - 1];
      FinalLiteral(c, text, n);
      ReachesFinal(cs, c, text);
    }
  }

  lemma ReachesFinal(cs: CharSet, c: char, text: string)
    requires text != ""
    ensures var n := Reach(cs, [Lit(c)], text);
      n + 1 == |text| && text[n] == c <==>
        text[|text| - 1] == c && AllOf(cs, text[..|text| - 1])
        && (In(cs, c) ==> |text| >= 2 && c !in text[1..|text| - 1])
  {
    hide In;
    var n, m := Reach(cs, [Lit(c)], text), |text| - 1;
    var x, inner := text[..m], text[1..|text| - (if m == 0 then 0 else 1)];
    assert forall i {:trigger x[i]} :: 0 <= i < |x| ==> x[i] == text[i];
    assert forall i {:trigger inner[i]} :: 0 <= i < |inner| ==> inner[i] == text[1 + i];
    assert 0 < n < m ==> inner[n - 1] == text[n];
  }

  /** `.*` before a final character accepts x + c when x is not empty and c is not in x after its first character. */
  lemma AnyThenFinal(c: char, text: string)
    ensures Fits([Star(Any), Lit(c)], text) <==>
            |text| >= 2 && text[|text| - 1] == c && c !in text[1..|text| - 1]
  {
    hide Fits;
    StarThenFinal(Any, c, text);
  }
}
