/**
 The matcher: no backtracking, one node of lookahead. It is total on every tree the compiler
 builds, and whatever it accepts is in the language of the pattern.
 */
module RegexMatcher {
  import opened Wrappers
  import opened Chars
  import opened RegexTree

  /** A C string in memory: the characters, the terminating zero, and whatever lies beyond. */
  datatype Memory = Memory(text: string, beyond: nat -> char) {
    function At(i: nat): char {
      if i < |text| then text[i] else if i == |text| then '\0' else beyond(i)
    }
  }

  /** The node that follows t: its successor in the chain, or what the context expects next. */
  function Follow(t: Tree, next: Tree): Tree
    requires t.Node?
  {
    if t.next.Node? then t.next else next
  }

  /** The lookahead never contradicts the chain. */
  predicate Agrees(t: Tree, next: Tree)
    requires t.Node?
  {
    t.next.Nil? || next.Nil? || next == t.next
  }

  /** Everything still ahead of the matcher: t's own subtree and what follows it. */
  function Ahead(t: Tree, next: Tree): nat
    requires t.Node?
  {
    1 + Size(t.left) + Size(t.right) + Size(Follow(t, next))
  }

  predicate IsBoundary(x: Memory, s: nat) {
    || (s == 0 && !IsSpace(x.At(s)))
    || (s == |x.text| && s > 0 && !IsSpace(x.At(s - 1)))
    || (!IsSpace(x.At(s)) && IsSpace(x.At(s + 1)))
    || (IsSpace(x.At(s)) && !IsSpace(x.At(s + 1)))
  }

  /** The lookahead used when trying the node that follows a repetition. */
  function Beyond(stop: Tree, next: Tree): Tree
    requires stop.Node?
  {
    if stop.next.Node? then stop.next else if next.Node? then next.next else Nil
  }

  /** Whether the lookahead is tried at all: not if it can match nothing. */
  predicate StopsAt(stop: Tree) {
    stop.Node? && !(stop.op.Greedy? && stop.op.min == 0)
  }

  /** The position after the match of t at s, if t matches there. */
  function MatchNode(t: Tree, x: Memory, s: nat, next: Tree): Option<nat>
    requires t.Node? && WellFormed(t) && WellFormed(next) && Agrees(t, next)
    decreases Ahead(t, next), 2, 0
  {
    match t.op
    case Greedy(min, max) =>
      var (good, n) := MatchGreedy(t, x, s, 0, next);
      if Admits(n, min, max) then Some(good) else None
    case Or =>
      var l := MatchBranch(t.left, x, s);
      if l.Some? then l else MatchBranch(t.right, x, s)
    case Group(_) => MatchChain(t.left, x, s, next)
    case PlainGroup => MatchChain(t.left, x, s, next)
    case Boundary(k) => if IsBoundary(x, s) == (k == 'b') then Some(s) else None
    case Bol => if s == 0 then Some(s) else None
    case Eol => if s == |x.text| then Some(s) else None
    case Dot => Some(s + 1)
    case NegClass => if InMembers(t.left, x.At(s)) then None else Some(s + 1)
    case Class => if InMembers(t.left, x.At(s)) then Some(s + 1) else None
    case NamedClass(k) => if InNamedClass(k, x.At(s)) then Some(s + 1) else None
    case Char(c) => if x.At(s) == c then Some(s + 1) else None
    case Range(_, _) => None
  }

  /** The greedy loop after n matches, the last of which ended at s: where it stops, and after how many. */
  function MatchGreedy(t: Tree, x: Memory, s: nat, n: nat, next: Tree): (nat, nat)
    requires t.Node? && t.op.Greedy? && WellFormed(t) && WellFormed(next) && Agrees(t, next) && n <= UNBOUNDED + 1
    decreases Ahead(t, next), 1, UNBOUNDED + 2 - n
  {
    var stop := Follow(t, next);
    if !(n == UNBOUNDED || n < t.op.max) then (s, n)
    else
      match MatchNode(t.left, x, s, stop)
      case None => (s, n)
      case Some(s') =>
        if StopsAt(stop) && MatchNode(stop, x, s', Beyond(stop, next)).Some? && Admits(n + 1, t.op.min, t.op.max)
        then (s', n + 1)
        else if s' >= |x.text| then (s', n + 1)
        else MatchGreedy(t, x, s', n + 1, next)
  }

  /** A branch of an alternation: the nodes of the chain in turn, without lookahead. */
  function MatchBranch(t: Tree, x: Memory, s: nat): Option<nat>
    requires t.Node? && WellFormed(t)
    decreases Size(t), 3, 0
  {
    match MatchNode(t, x, s, Nil)
    case None => None
    case Some(s') => if t.next.Node? then MatchBranch(t.next, x, s') else Some(s')
  }

  /** The chain of a group: each node looks ahead to its successor, the last to what follows the group. */
  function MatchChain(t: Tree, x: Memory, s: nat, next: Tree): Option<nat>
    requires t.Node? && WellFormed(t) && WellFormed(next)
    decreases Size(t) + Size(next), 3, 0
  {
    match MatchNode(t, x, s, Follow(t, next))
    case None => None
    case Some(s') => if t.next.Node? then MatchChain(t.next, x, s', next) else Some(s')
  }

  /** trex_match: the whole text, and nothing else. */
  predicate Accepts(t: Tree, x: Memory)
    requires t.Node? && WellFormed(t)
  {
    MatchNode(t, x, 0, Nil) == Some(|x.text|)
  }

  /** However long the text, a repetition is tried at most 65536 times. */
  lemma {:induction false} GreedyBound(t: Tree, x: Memory, s: nat, n: nat, next: Tree)
    requires t.Node? && t.op.Greedy? && WellFormed(t) && WellFormed(next) && Agrees(t, next) && n <= UNBOUNDED + 1
    ensures n <= MatchGreedy(t, x, s, n, next).1 <= UNBOUNDED + 1
    decreases UNBOUNDED + 2 - n
  {
    hide MatchNode;
    if n == UNBOUNDED || n < t.op.max {
      var r := MatchNode(t.left, x, s, Follow(t, next));
      if r.Some? && n <= UNBOUNDED {
        GreedyBound(t, x, r.value, n + 1, next);
      }
    }
  }

  /* ---- soundness ---- */

  lemma {:induction false} NodeSound(t: Tree, x: Memory, s: nat, next: Tree)
    requires t.Node? && WellFormed(t) && WellFormed(next) && Agrees(t, next)
    ensures var r := MatchNode(t, x, s, next);
      r.Some? ==> s <= r.value && (r.value <= |x.text| ==> Matches(t, x.text, s, r.value))
    decreases Ahead(t, next), 2, 0
  {
    match t.op
    case Greedy(min, max) =>
      GreedySound(t, x, s, s, 0, next);
      var (good, n) := MatchGreedy(t, x, s, 0, next);
      if good <= |x.text| && Admits(n, min, max) {
        assert Repeats(t.left, x.text, n, s, good);
      }
    case Or =>
      BranchSound(t.left, x, s);
      BranchSound(t.right, x, s);
    case Group(_) => ChainSound(t.left, x, s, next);
    case PlainGroup => ChainSound(t.left, x, s, next);
    case _ =>
  }

  lemma {:induction false} GreedySound(t: Tree, x: Memory, start: nat, s: nat, n: nat, next: Tree)
    requires t.Node? && t.op.Greedy? && WellFormed(t) && WellFormed(next) && Agrees(t, next) && n <= UNBOUNDED + 1
    requires start <= s && (s <= |x.text| ==> Repeats(t.left, x.text, n, start, s))
    ensures var (good, m) := MatchGreedy(t, x, s, n, next);
      start <= good && (good <= |x.text| ==> Repeats(t.left, x.text, m, start, good))
    decreases Ahead(t, next), 1, UNBOUNDED + 2 - n
  {
    var stop := Follow(t, next);
    if n == UNBOUNDED || n < t.op.max {
      NodeSound(t.left, x, s, stop);
      var r := MatchNode(t.left, x, s, stop);
      if r.Some? {
        if r.value <= |x.text| {
          assert Repeats(t.left, x.text, n, start, s) && Matches(t.left, x.text, s, r.value);
          assert Repeats(t.left, x.text, n + 1, start, r.value);
        }
        if r.value < |x.text| {
          GreedySound(t, x, start, r.value, n + 1, next);
        }
      }
    }
  }

  lemma {:induction false} BranchSound(t: Tree, x: Memory, s: nat)
    requires t.Node? && WellFormed(t)
    ensures var r := MatchBranch(t, x, s);
      r.Some? ==> s <= r.value && (r.value <= |x.text| ==> MatchesAll(t, x.text, s, r.value))
    decreases Size(t), 3, 0
  {
    NodeSound(t, x, s, Nil);
    var r := MatchNode(t, x, s, Nil);
    if r.Some? {
      if t.next.Node? {
        BranchSound(t.next, x, r.value);
      } else {
        assert MatchesAll(t.next, x.text, r.value, r.value);
      }
    }
  }

  lemma {:induction false} ChainSound(t: Tree, x: Memory, s: nat, next: Tree)
    requires t.Node? && WellFormed(t) && WellFormed(next)
    ensures var r := MatchChain(t, x, s, next);
      r.Some? ==> s <= r.value && (r.value <= |x.text| ==> MatchesAll(t, x.text, s, r.value))
    decreases Size(t) + Size(next), 3, 0
  {
    NodeSound(t, x, s, Follow(t, next));
    var r := MatchNode(t, x, s, Follow(t, next));
    if r.Some? {
      if t.next.Node? {
        ChainSound(t.next, x, r.value, next);
      } else {
        assert MatchesAll(t.next, x.text, r.value, r.value);
      }
    }
  }

  /** Whatever the lookahead decides and whatever lies after the text, an accepted text is in the language. */
  lemma Sound(t: Tree, x: Memory)
    requires t.Node? && WellFormed(t) && Accepts(t, x)
    ensures InLanguage(t, x.text)
  {
    NodeSound(t, x, 0, Nil);
  }
}
