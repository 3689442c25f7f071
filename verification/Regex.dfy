/** A compiled pattern: the matcher walking the arena, tied to the matcher on trees. */
module Regex {
  import opened Wrappers
  import opened RegexTree
  import opened RegexArena
  import RegexParser
  import RegexCompiler
  import RM = RegexMatcher

  lemma GreedyResult(t: Tree, x: RM.Memory, s: nat, next: Tree)
    requires t.Node? && t.op.Greedy? && WellFormed(t) && WellFormed(next) && RM.Agrees(t, next)
    ensures var (good, n) := RM.MatchGreedy(t, x, s, 0, next);
      RM.MatchNode(t, x, s, next) == if Admits(n, t.op.min, t.op.max) then Some(good) else None
  {
    hide RM.MatchGreedy, Admits, WellFormed, RM.Agrees;
  }

  /** An index of -1 stands for no node; the successor of a node is held at its link. */
  lemma HoldsStop(a: Arena, id: int, t: Tree)
    requires Holds(a, id, t)
    ensures t.Nil? <==> id == -1
    ensures t.Node? ==> 0 <= id < |a| && Encodes(a[id], t.op) && Holds(a, a[id].next, t.next) && (t.next.Nil? <==> a[id].next == -1)
    ensures Holds(a, -1, Nil)
  {
  }

  lemma StopWellFormed(t: Tree, next: Tree)
    requires t.Node? && t.op.Greedy? && WellFormed(t) && WellFormed(next) && RM.Agrees(t, next)
    ensures var stop := RM.Follow(t, next);
      && WellFormed(stop)
      && (stop.Node? ==> WellFormed(RM.Beyond(stop, next)) && RM.Agrees(stop, RM.Beyond(stop, next)))
      && (stop.Node? && stop.op.Greedy? ==> stop.op.min <= UNBOUNDED && stop.op.max <= UNBOUNDED)
  {
  }

  class TRex {
    const nodes: Arena
    ghost const tree: Tree

    /** The arena a compilation has left behind. */
    constructor (nodes: Arena, ghost tree: Tree)
      requires Holds(nodes, 0, tree) && WellFormed(tree) && tree.Node?
      ensures this.nodes == nodes && this.tree == tree && Valid()
    {
      this.nodes, this.tree := nodes, tree;
    }

    ghost predicate Valid() {
      Holds(nodes, 0, tree) && WellFormed(tree) && tree.Node?
    }

    /** Compiles a pattern; null if it is rejected. */
    static method Compile(pat: string) returns (r: TRex?)
      requires pat != "" && '\0' !in pat && !RegexParser.LoneEscape(pat, 0)
      ensures (r == null) == RegexParser.ParsePattern(pat).Failed?
      ensures r != null ==> r.Valid() && r.tree == RegexParser.ParsePattern(pat).value
    {
      var c := new RegexCompiler.Compiler(pat);
      var out := c.Compile();
      if out.Err? {
        return null;
      }
      r := new TRex(c.nodes, RegexParser.ParsePattern(pat).value);
    }

    /** Runs along the members of a class. */
    method MatchClass(first: int, c: char, ghost m: Tree) returns (found: bool)
      requires m.Node? && Holds(nodes, first, m)
      ensures found == InMembers(m, c)
    {
      var id := first;
      ghost var u := m;
      while true
        invariant u.Node? && Holds(nodes, id, u) && InMembers(m, c) == InMembers(u, c)
        decreases u
      {
        var n := nodes[id];
        match n.kind {
          case OP_RANGE =>
            if n.left <= c as int <= n.right {
              return true;
            }
          case OP_CCLASS =>
            if InNamedClass(n.left as char, c) {
              return true;
            }
          case OP_CHAR(d) =>
            if c == d {
              return true;
            }
          case _ =>
        }
        if n.next == -1 {
          return false;
        }
        id, u := n.next, u.next;
      }
    }

    /** Whether the number of matches is one the repetition accepts. */
    static method Enough(matches: nat, p0: nat, p1: nat) returns (b: bool)
      ensures b == Admits(matches, p0, p1)
    {
      if p0 == p1 && p0 == matches {
        b := true;
      } else if matches >= p0 && p1 == UNBOUNDED {
        b := true;
      } else {
        b := p0 <= matches <= p1;
      }
    }

    /** Looks one node ahead: whether the repetition may stop here. */
    method StopsHere(x: RM.Memory, s: nat, stop: int, next: int, ghost t: Tree, ghost tn: Tree) returns (b: bool)
      requires t.Node? && t.op.Greedy? && WellFormed(t) && WellFormed(tn) && RM.Agrees(t, tn)
      requires Holds(nodes, stop, RM.Follow(t, tn)) && Holds(nodes, next, tn)
      ensures var ts := RM.Follow(t, tn);
        b == (RM.StopsAt(ts) && RM.MatchNode(ts, x, s, RM.Beyond(ts, tn)).Some?)
      decreases RM.Ahead(t, tn), 0
    {
      hide Holds, RM.MatchNode, InMembers, UnpackMin, UnpackMax, WellFormed;
      b := false;
      HoldsStop(nodes, stop, RM.Follow(t, tn));
      StopWellFormed(t, tn);
      HoldsStop(nodes, next, tn);
      if stop != -1 {
        ghost var ts := RM.Follow(t, tn);
        if ts.op.Greedy? {
          Unpacked(ts.op.min, ts.op.max);
        }
        if !nodes[stop].kind.OP_GREEDY? || UnpackMin(nodes[stop].right) != 0 {
          var beyond := -1;
          if nodes[stop].next != -1 {
            beyond := nodes[stop].next;
          } else {
            // The original then tries the successor of next (trex.c:419-421): there never is one.
            assert next != -1 ==> nodes[next].next == -1;
          }
          var after := MatchNode(stop, x, s, beyond, ts, RM.Beyond(ts, tn));
          b := after.Some?;
        }
      }
    }

    /** Repeats a node while it matches, stopping early when what follows would match. */
    method MatchGreedy(id: int, x: RM.Memory, str: nat, next: int, ghost t: Tree, ghost tn: Tree) returns (r: Option<nat>)
      requires t.Node? && t.op.Greedy? && Holds(nodes, id, t) && WellFormed(t)
      requires Holds(nodes, next, tn) && WellFormed(tn) && RM.Agrees(t, tn)
      ensures r == RM.MatchNode(t, x, str, tn)
      decreases RM.Ahead(t, tn), 1
    {
      hide Holds, RM.MatchNode, InMembers, UnpackMin, UnpackMax;
      HoldsParts(nodes, id, t);
      var node := nodes[id];
      Unpacked(t.op.min, t.op.max);
      var p0, p1 := UnpackMin(node.right), UnpackMax(node.right);
      var stop := if node.next != -1 then node.next else next;
      ghost var ts := RM.Follow(t, tn);
      var s, good, matches := str, str, 0;
      ghost var result := RM.MatchGreedy(t, x, str, 0, tn);
      GreedyResult(t, x, str, tn);
      var going := true;
      while going && (matches == UNBOUNDED || matches < p1)
        invariant s == good && 0 <= matches <= UNBOUNDED + 1
        invariant going ==> result == RM.MatchGreedy(t, x, s, matches, tn)
        invariant !going ==> result == (good, matches)
        decreases going, UNBOUNDED + 1 - matches
      {
        var m := MatchNode(node.left, x, s, stop, t.left, ts);
        if m.None? {
          going := false;
        } else {
          matches := matches + 1;
          s, good := m.value, m.value;
          var after := StopsHere(x, s, stop, next, t, tn);
          var enough := Enough(matches, p0, p1);
          if (after && enough) || s >= |x.text| {
            going := false;
          }
        }
      }
      var enough := Enough(matches, p0, p1);
      r := if enough then Some(good) else None;
    }

    /** One branch of an alternation. */
    method MatchBranch(first: int, x: RM.Memory, str: nat, ghost t: Tree) returns (r: Option<nat>)
      requires t.Node? && Holds(nodes, first, t) && WellFormed(t)
      ensures r == RM.MatchBranch(t, x, str)
      decreases Size(t), 3
    {
      var id := first;
      ghost var u := t;
      HoldsNil(nodes);
      r := MatchNode(id, x, str, -1, u, Nil);
      while r.Some? && nodes[id].next != -1
        invariant u.Node? && Holds(nodes, id, u) && WellFormed(u) && Size(u) <= Size(t)
        invariant RM.MatchBranch(t, x, str) == if r.None? then None
          else if u.next.Node? then RM.MatchBranch(u.next, x, r.value) else r
        decreases u
      {
        id, u := nodes[id].next, u.next;
        r := MatchNode(id, x, r.value, -1, u, Nil);
      }
    }

    /** The chain of a group. */
    method MatchChain(first: int, x: RM.Memory, str: nat, next: int, ghost t: Tree, ghost tn: Tree) returns (r: Option<nat>)
      requires t.Node? && Holds(nodes, first, t) && WellFormed(t) && Holds(nodes, next, tn) && WellFormed(tn)
      ensures r == RM.MatchChain(t, x, str, tn)
      decreases Size(t) + Size(tn), 3
    {
      var id, cur := first, str;
      ghost var u := t;
      while true
        invariant u.Node? && Holds(nodes, id, u) && WellFormed(u) && Size(u) <= Size(t)
        invariant RM.MatchChain(t, x, str, tn) == RM.MatchChain(u, x, cur, tn)
        decreases u
      {
        var subnext := if nodes[id].next != -1 then nodes[id].next else next;
        r := MatchNode(id, x, cur, subnext, u, RM.Follow(u, tn));
        if r.None? || nodes[id].next == -1 {
          return;
        }
        cur := r.value;
        id, u := nodes[id].next, u.next;
      }
    }

    /** trex_matchnode: where the match of a node ends, if it matches at str. */
    method MatchNode(id: int, x: RM.Memory, str: nat, next: int, ghost t: Tree, ghost tn: Tree) returns (r: Option<nat>)
      requires t.Node? && Holds(nodes, id, t) && WellFormed(t)
      requires Holds(nodes, next, tn) && WellFormed(tn) && RM.Agrees(t, tn)
      ensures r == RM.MatchNode(t, x, str, tn)
      decreases RM.Ahead(t, tn), 2
    {
      hide Holds, InMembers, RM.IsBoundary, InNamedClass, RM.MatchGreedy, RM.MatchChain, RM.MatchBranch;
      HoldsParts(nodes, id, t);
      var node := nodes[id];
      match node.kind {
        case OP_GREEDY => r := MatchGreedy(id, x, str, next, t, tn);
        case OP_OR =>
          r := MatchBranch(node.left, x, str, t.left);
          if r.None? {
            r := MatchBranch(node.right, x, str, t.right);
          }
        case OP_EXPR => r := MatchChain(node.left, x, str, next, t.left, tn);
        case OP_NOCAPEXPR => r := MatchChain(node.left, x, str, next, t.left, tn);
        case OP_WB =>
          var b := RM.IsBoundary(x, str);
          r := if b == (node.left == 'b' as int) then Some(str) else None;
        case OP_BOL => r := if str == 0 then Some(str) else None;
        case OP_EOL => r := if str == |x.text| then Some(str) else None;
        case OP_DOT => r := Some(str + 1);
        case OP_CLASS =>
          var found := MatchClass(node.left, x.At(str), t.left);
          r := if found then Some(str + 1) else None;
        case OP_NCLASS =>
          var found := MatchClass(node.left, x.At(str), t.left);
          r := if found then None else Some(str + 1);
        case OP_CCLASS => r := if InNamedClass(node.left as char, x.At(str)) then Some(str + 1) else None;
        case OP_RANGE => r := None;
        case OP_CHAR(c) => r := if x.At(str) == c then Some(str + 1) else None;
      }
    }

    /** trex_match: an accepted text is in the language, whatever the memory behind it holds. */
    method Match(x: RM.Memory) returns (b: bool)
      requires Valid()
      ensures b == RM.Accepts(tree, x)
      ensures b ==> InLanguage(tree, x.text)
    {
      HoldsNil(nodes);
      var res := MatchNode(0, x, 0, -1, tree, Nil);
      b := res.Some? && res.value == |x.text|;
      if b {
        RM.Sound(tree, x);
      }
    }
  }
}
