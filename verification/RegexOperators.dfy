/**
 What the matcher accepts for the operators the message table does not use: alternatives, groups, bounded
 repetitions, anchors and word boundaries, each in a whole pattern.
 */
module RegexOperators {
  import opened Wrappers
  import opened Chars
  import opened RegexTree
  import opened RegexMatcher
  import opened RegexGreedy
  import opened RegexAcceptance

  /* ---- words ---- */

  /** A chain of characters, followed by the chain `next`. */
  function Word(w: string, next: Tree): (t: Tree)
    requires WellFormed(next)
    ensures WellFormed(t)
    ensures w != "" ==> t.Node?
  {
    if w == "" then next else Node(Char(w[0]), Nil, Nil, Word(w[1..], next))
  }

  predicate IsWord(w: string) {
    w != "" && '\0' !in w
  }

  lemma PrefixFirst(w: string, s: string)
    ensures w != "" && s != "" ==> (w <= s <==> w[0] == s[0] && w[1..] <= s[1..])
    ensures w != "" && s == "" ==> !(w <= s)
  {
    if w != "" && s != "" {
      assert w == [w[0]] + w[1..] && s == [s[0]] + s[1..];
    }
  }

  lemma CharNode(c: char, n: Tree, x: Memory, s: nat, next: Tree)
    requires WellFormed(n) && WellFormed(next) && (n.Nil? || next.Nil? || n == next)
    ensures MatchNode(Node(Char(c), Nil, Nil, n), x, s, next) == if x.At(s) == c then Some(s + 1) else None
  {
    hide Memory.At, WellFormed;
  }

  /** A word matches where it stands, and the matcher goes on with what follows it. */
  lemma {:induction false} WordChain(w: string, next: Tree, x: Memory, s: nat, after: Tree)
    requires IsWord(w) && WellFormed(next) && WellFormed(after) && '\0' !in x.text && s <= |x.text|
    ensures MatchChain(Word(w, next), x, s, after) ==
      if !(w <= x.text[s..]) then None
      else if next.Node? then MatchChain(next, x, s + |w|, after) else Some(s + |w|)
    decreases |w|
  {
    hide MatchNode, WellFormed;
    var n := Word(w[1..], next);
    var t := Word(w, next);
    CharNode(w[0], n, x, s, Follow(t, after));
    PrefixFirst(w, x.text[s..]);
    if s < |x.text| && x.text[s] == w[0] {
      assert x.text[s..][1..] == x.text[s + 1..];
      if |w| > 1 {
        WordChain(w[1..], next, x, s + 1, after);
      } else {
        assert w[1..] == "" && "" <= x.text[s + 1..];
      }
    }
  }

  lemma {:induction false} WordBranch(w: string, x: Memory, s: nat)
    requires IsWord(w) && '\0' !in x.text && s <= |x.text|
    ensures MatchBranch(Word(w, Nil), x, s) == if w <= x.text[s..] then Some(s + |w|) else None
    decreases |w|
  {
    hide MatchNode, WellFormed;
    NilIsWellFormed();
    CharNode(w[0], Word(w[1..], Nil), x, s, Nil);
    PrefixFirst(w, x.text[s..]);
    if s < |x.text| && x.text[s] == w[0] {
      assert x.text[s..][1..] == x.text[s + 1..];
      if |w| > 1 {
        WordBranch(w[1..], x, s + 1);
      } else {
        assert w[1..] == "" && "" <= x.text[s + 1..];
      }
    }
  }

  /** A pattern with the given contents. */
  function Pattern(t: Tree): (p: Tree)
    requires t.Node? && WellFormed(t)
    ensures WellFormed(p) && p.Node?
  {
    Node(Group(0), t, Nil, Nil)
  }

  lemma AcceptsChain(t: Tree, x: Memory)
    requires t.Node? && WellFormed(t)
    ensures Accepts(Pattern(t), x) <==> MatchChain(t, x, 0, Nil) == Some(|x.text|)
  {
    hide WellFormed, MatchChain;
  }

  /* ---- alternatives ---- */

  function Alternatives(ws: seq<string>): (t: Tree)
    requires ws != [] && forall w :: w in ws ==> IsWord(w)
    ensures WellFormed(t) && t.Node?
    decreases |ws|
  {
    assert IsWord(ws[0]) && forall w :: w in ws[1..] ==> w in ws;
    if |ws| == 1 then Word(ws[0], Nil) else Node(Or, Word(ws[0], Nil), Alternatives(ws[1..]), Nil)
  }

  /** The first word of the list that the text starts with. */
  function FirstPrefix(ws: seq<string>, text: string): Option<string> {
    if ws == [] then None else if ws[0] <= text then Some(ws[0]) else FirstPrefix(ws[1..], text)
  }

  lemma OrNode(l: Tree, r: Tree, x: Memory, s: nat)
    requires l.Node? && r.Node? && WellFormed(l) && WellFormed(r)
    ensures var t := Node(Or, l, r, Nil);
      var o := if MatchBranch(l, x, s).Some? then MatchBranch(l, x, s) else MatchBranch(r, x, s);
      WellFormed(t) && MatchBranch(t, x, s) == o && MatchChain(t, x, s, Nil) == o
  {
    hide MatchNode;
    OrHere(l, r, x, s);
  }

  lemma OrHere(l: Tree, r: Tree, x: Memory, s: nat)
    requires l.Node? && r.Node? && WellFormed(l) && WellFormed(r)
    ensures WellFormed(Node(Or, l, r, Nil))
    ensures MatchNode(Node(Or, l, r, Nil), x, s, Nil) ==
      if MatchBranch(l, x, s).Some? then MatchBranch(l, x, s) else MatchBranch(r, x, s)
  {
    hide MatchBranch;
  }

  lemma {:induction false} PicksFirst(ws: seq<string>, x: Memory)
    requires ws != [] && (forall w :: w in ws ==> IsWord(w)) && '\0' !in x.text
    ensures var o := FirstPrefix(ws, x.text);
      var r := if o.None? then None else Some(|o.value|);
      MatchBranch(Alternatives(ws), x, 0) == r && MatchChain(Alternatives(ws), x, 0, Nil) == r
    decreases |ws|
  {
    hide MatchNode, MatchBranch, MatchChain, WellFormed;
    NilIsWellFormed();
    assert IsWord(ws[0]) && forall w :: w in ws[1..] ==> w in ws;
    assert x.text[0..] == x.text;
    WordBranch(ws[0], x, 0);
    WordChain(ws[0], Nil, x, 0, Nil);
    if |ws| > 1 {
      PicksFirst(ws[1..], x);
      OrNode(Word(ws[0], Nil), Alternatives(ws[1..]), x, 0);
    } else {
      assert ws[1..] == [] && FirstPrefix([], x.text) == None;
    }
  }

  lemma NilIsWellFormed()
    ensures WellFormed(Nil)
  {
  }

  lemma {:induction false} FirstPrefixIs(ws: seq<string>, text: string)
    ensures FirstPrefix(ws, text) == Some(text) <==>
      exists i :: 0 <= i < |ws| && ws[i] == text && forall j :: 0 <= j < i ==> !(ws[j] <= text)
    decreases |ws|
  {
    if ws != [] && !(ws[0] <= text) {
      FirstPrefixIs(ws[1..], text);
      if i :| 0 <= i < |ws| - 1 && ws[1..][i] == text && forall j :: 0 <= j < i ==> !(ws[1..][j] <= text) {
        assert ws[i + 1] == text;
        assert forall j :: 0 < j < i + 1 ==> ws[j] == ws[1..][j - 1];
      }
      if i :| 0 <= i < |ws| && ws[i] == text && forall j :: 0 <= j < i ==> !(ws[j] <= text) {
        assert ws[1..][i - 1] == text;
        assert forall j :: 0 <= j < i - 1 ==> ws[1..][j] == ws[j + 1];
      }
    }
  }

  /**
   A list of words accepts one of them exactly if no earlier word of the list is a beginning of it: the
   first alternative that matches is taken, and never given up.
   */
  lemma AlternativesAccepted(ws: seq<string>, x: Memory)
    requires ws != [] && (forall w :: w in ws ==> IsWord(w)) && '\0' !in x.text
    ensures Accepts(Pattern(Alternatives(ws)), x) <==>
      exists i :: 0 <= i < |ws| && ws[i] == x.text && forall j :: 0 <= j < i ==> !(ws[j] <= x.text)
  {
    hide Alternatives, MatchChain, MatchBranch, WellFormed, IsWord, Accepts;
    AcceptsChain(Alternatives(ws), x);
    PicksFirst(ws, x);
    FirstPrefixIs(ws, x.text);
    FirstIsPrefix(ws, x.text);
  }

  lemma {:induction false} FirstIsPrefix(ws: seq<string>, text: string)
    ensures FirstPrefix(ws, text).Some? ==> FirstPrefix(ws, text).value <= text
    ensures FirstPrefix(ws, text).Some? && |FirstPrefix(ws, text).value| == |text| ==> FirstPrefix(ws, text) == Some(text)
    decreases |ws|
  {
    if ws != [] {
      assert ws[0] <= text && |ws[0]| == |text| ==> ws[0] == text[..|text|] == text;
      FirstIsPrefix(ws[1..], text);
    }
  }

  /* ---- groups ---- */

  lemma GroupNode(op: Op, t: Tree, next: Tree, x: Memory, s: nat)
    requires (op.Group? || op.PlainGroup?) && t.Node? && WellFormed(t) && next.Node? && WellFormed(next)
    ensures WellFormed(Node(op, t, Nil, next))
    ensures MatchChain(Node(op, t, Nil, next), x, s, Nil) ==
      var r := MatchChain(t, x, s, next);
      if r.None? then None else MatchChain(next, x, r.value, Nil)
  {
    GroupHere(op, t, next, x, s);
    hide MatchNode;
  }

  lemma GroupHere(op: Op, t: Tree, next: Tree, x: Memory, s: nat)
    requires (op.Group? || op.PlainGroup?) && t.Node? && WellFormed(t) && next.Node? && WellFormed(next)
    ensures WellFormed(Node(op, t, Nil, next))
    ensures MatchNode(Node(op, t, Nil, next), x, s, next) == MatchChain(t, x, s, next)
  {
    hide MatchChain;
  }

  /** A group matches what its contents match, captured or not. */
  lemma GroupAccepted(op: Op, w: string, v: string, x: Memory)
    requires (op.Group? || op.PlainGroup?) && IsWord(w) && IsWord(v) && '\0' !in x.text
    ensures var t := Node(op, Word(w, Nil), Nil, Word(v, Nil));
      WellFormed(t) && (Accepts(Pattern(t), x) <==> x.text == w + v)
  {
    hide MatchChain, MatchNode, Word, Accepts;
    NilIsWellFormed();
    assert x.text[0..] == x.text;
    GroupNode(op, Word(w, Nil), Word(v, Nil), x, 0);
    AcceptsChain(Node(op, Word(w, Nil), Nil, Word(v, Nil)), x);
    WordChain(w, Nil, x, 0, Word(v, Nil));
    if w <= x.text {
      WordChain(v, Nil, x, |w|, Nil);
      assert x.text == w + x.text[|w|..];
    }
    if x.text == w + v {
      assert x.text[|w|..] == v;
    }
  }

  /* ---- bounded repetitions ---- */

  function Repeated(cs: CharSet, min: nat, max: nat): (t: Tree)
    requires min <= UNBOUNDED && max <= UNBOUNDED
    ensures WellFormed(t) && t.Node?
  {
    Node(Greedy(min, max), SetTree(cs), Nil, Nil)
  }

  /** How many characters from s on the loop takes after n. */
  function Run(cs: CharSet, max: nat, x: Memory, s: nat, n: nat): nat
    requires s <= |x.text|
    decreases |x.text| - s
  {
    if s < |x.text| && n < max && In(cs, x.text[s]) then 1 + Run(cs, max, x, s + 1, n + 1) else 0
  }

  lemma LoopOnce(cs: CharSet, min: nat, max: nat, x: Memory, s: nat, n: nat)
    requires min <= UNBOUNDED && max <= UNBOUNDED && n < UNBOUNDED
    ensures MatchGreedy(Repeated(cs, min, max), x, s, n, Nil) ==
      if n >= max || !In(cs, x.At(s)) then (s, n)
      else if s + 1 >= |x.text| then (s + 1, n + 1)
      else MatchGreedy(Repeated(cs, min, max), x, s + 1, n + 1, Nil)
  {
    hide MatchNode, WellFormed, Memory.At, SetTree, In;
    NilIsWellFormed();
    SetNode(cs, x, s, Nil);
  }

  lemma {:induction false} LoopRun(cs: CharSet, min: nat, max: nat, x: Memory, s: nat, n: nat)
    requires min <= UNBOUNDED && max <= UNBOUNDED && IsText(x.text) && n <= s < |x.text|
    ensures MatchGreedy(Repeated(cs, min, max), x, s, n, Nil) == (s + Run(cs, max, x, s, n), n + Run(cs, max, x, s, n))
    decreases |x.text| - s
  {
    hide MatchGreedy, In, Repeated;
    LoopOnce(cs, min, max, x, s, n);
    if n < max && In(cs, x.text[s]) && s + 1 < |x.text| {
      LoopRun(cs, min, max, x, s + 1, n + 1);
    }
  }

  lemma {:induction false} RunIs(cs: CharSet, max: nat, x: Memory, s: nat, n: nat)
    requires s <= |x.text|
    ensures s + Run(cs, max, x, s, n) == |x.text| <==> AllOf(cs, x.text[s..]) && (s < |x.text| ==> n + (|x.text| - s) <= max)
    ensures s + Run(cs, max, x, s, n) <= |x.text|
    decreases |x.text| - s
  {
    hide In;
    if s < |x.text| {
      RunIs(cs, max, x, s + 1, n + 1);
      assert x.text[s..] == [x.text[s]] + x.text[s + 1..];
      assert AllOf(cs, x.text[s..]) <==> In(cs, x.text[s]) && AllOf(cs, x.text[s + 1..]) by {
        AllOfFirst(cs, x.text[s], x.text[s + 1..]);
      }
    }
  }

  lemma AllOfFirst(cs: CharSet, c: char, s: string)
    ensures AllOf(cs, [c] + s) <==> In(cs, c) && AllOf(cs, s)
  {
    hide In;
    var t := [c] + s;
    if AllOf(cs, t) {
      assert In(cs, t[0]);
      assert forall i {:trigger s[i]} :: 0 <= i < |s| ==> s[i] == t[i + 1];
    }
  }

  /**
   A set repeated between min and max times accepts the texts of that many of its characters. Only the
   empty text is refused besides if the set holds the terminating zero.
   */
  lemma RepeatedAccepted(cs: CharSet, min: nat, max: nat, x: Memory)
    requires min <= UNBOUNDED && max <= UNBOUNDED && IsText(x.text)
    ensures Accepts(Pattern(Repeated(cs, min, max)), x) <==>
      && AllOf(cs, x.text) && min <= |x.text| && (max == UNBOUNDED || |x.text| <= max)
      && (x.text == "" && max > 0 ==> !In(cs, '\0'))
  {
    hide MatchGreedy, In, Accepts, Run, MatchNode, MatchChain, WellFormed;
    var t := Repeated(cs, min, max);
    AcceptsChain(t, x);
    RepeatedChain(cs, min, max, x);
    assert x.text[0..] == x.text;
    RunIs(cs, max, x, 0, 0);
    if x.text != "" {
      LoopRun(cs, min, max, x, 0, 0);
    } else {
      LoopOnce(cs, min, max, x, 0, 0);
    }
  }

  lemma RepeatedChain(cs: CharSet, min: nat, max: nat, x: Memory)
    requires min <= UNBOUNDED && max <= UNBOUNDED
    ensures var (good, n) := MatchGreedy(Repeated(cs, min, max), x, 0, 0, Nil);
      MatchChain(Repeated(cs, min, max), x, 0, Nil) == if Admits(n, min, max) then Some(good) else None
  {
    hide MatchGreedy, WellFormed, SetTree;
  }

  /* ---- anchors and boundaries ---- */

  lemma EdgeNode(op: Op, next: Tree, x: Memory, s: nat)
    requires (op.Bol? || op.Eol? || op.Boundary?) && WellFormed(next)
    ensures var here := if op.Bol? then s == 0 else if op.Eol? then s == |x.text| else IsBoundary(x, s) == (op.kind == 'b');
      MatchChain(Node(op, Nil, Nil, next), x, s, Nil) ==
        if !here then None else if next.Node? then MatchChain(next, x, s, Nil) else Some(s)
  {
    hide IsBoundary, WellFormed;
  }

  /** An anchored word accepts that word and nothing else; an end inside a pattern accepts nothing. */
  lemma AnchorsAccepted(w: string, v: string, x: Memory)
    requires IsWord(w) && IsWord(v) && '\0' !in x.text
    ensures var end := Node(Eol, Nil, Nil, Nil);
      Accepts(Pattern(Node(Bol, Nil, Nil, Word(w, end))), x) <==> x.text == w
    ensures !Accepts(Pattern(Word(w, Node(Eol, Nil, Nil, Word(v, Nil)))), x)
  {
    hide MatchChain, MatchNode, Word, Accepts;
    var end, inside := Node(Eol, Nil, Nil, Nil), Node(Eol, Nil, Nil, Word(v, Nil));
    assert x.text[0..] == x.text;
    AcceptsChain(Node(Bol, Nil, Nil, Word(w, end)), x);
    EdgeNode(Bol, Word(w, end), x, 0);
    WordChain(w, end, x, 0, Nil);
    EdgeNode(Eol, Nil, x, |w|);
    PrefixFirst(v, "");
    AcceptsChain(Word(w, inside), x);
    WordChain(w, inside, x, 0, Nil);
    EdgeNode(Eol, Word(v, Nil), x, |w|);
    if w <= x.text {
      assert x.text == w + x.text[|w|..];
      if |w| == |x.text| {
        WordChain(v, Nil, x, |w|, Nil);
        assert x.text[|w|..] == "";
      }
    }
  }

  /** A text that begins and ends with a visible character begins and ends at word boundaries. */
  lemma BoundariesAccepted(w: string, x: Memory)
    requires IsWord(w) && !IsSpace(w[0]) && !IsSpace(w[|w| - 1]) && '\0' !in x.text
    ensures var end := Node(Boundary('b'), Nil, Nil, Nil);
      Accepts(Pattern(Node(Boundary('b'), Nil, Nil, Word(w, end))), x) <==> x.text == w
    ensures !Accepts(Pattern(Node(Boundary('B'), Nil, Nil, Word(w, Nil))), x)
  {
    hide MatchChain, MatchNode, Word, Accepts, IsSpace;
    var end := Node(Boundary('b'), Nil, Nil, Nil);
    NilIsWellFormed();
    assert x.text[0..] == x.text;
    AcceptsChain(Node(Boundary('b'), Nil, Nil, Word(w, end)), x);
    EdgeNode(Boundary('b'), Word(w, end), x, 0);
    WordChain(w, end, x, 0, Nil);
    EdgeNode(Boundary('b'), Nil, x, |w|);
    AcceptsChain(Node(Boundary('B'), Nil, Nil, Word(w, Nil)), x);
    EdgeNode(Boundary('B'), Word(w, Nil), x, 0);
    WordChain(w, Nil, x, 0, Nil);
    if w <= x.text {
      assert x.text[0] == w[0] && x.text[|w| - 1] == w[|w| - 1];
    }
  }

  /** Inside a text a boundary is seen where the next two characters differ in being visible. */
  lemma BoundaryInside(x: Memory, s: nat)
    requires 0 < s < |x.text|
    ensures IsBoundary(x, s) <==> IsSpace(x.At(s)) != IsSpace(x.At(s + 1))
  {
  }
}
