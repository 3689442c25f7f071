/** The node arena of a compiled pattern, and what it means for it to hold a syntax tree. */
module RegexArena {
  import opened RegexTree

  datatype NodeType =
    | OP_CHAR(c: char) | OP_GREEDY | OP_OR | OP_EXPR | OP_NOCAPEXPR | OP_DOT | OP_CLASS | OP_CCLASS
    | OP_NCLASS | OP_RANGE | OP_EOL | OP_BOL | OP_WB

  datatype ANode = ANode(kind: NodeType, left: int, right: int, next: int)

  type Arena = seq<ANode>

  /** Two sixteen-bit bounds in one signed 32-bit integer. */
  function Pack(min: nat, max: nat): int {
    var n := min * 0x1_0000 + max;
    if n >= 0x8000_0000 then n - 0x1_0000_0000 else n
  }

  function UnpackMin(right: int): nat {
    (right / 0x1_0000) % 0x1_0000
  }

  function UnpackMax(right: int): nat {
    right % 0x1_0000
  }

  lemma Unpacked(min: nat, max: nat)
    requires min <= UNBOUNDED && max <= UNBOUNDED
    ensures UnpackMin(Pack(min, max)) == min && UnpackMax(Pack(min, max)) == max
  {
    var right := Pack(min, max);
    if min * 0x1_0000 + max >= 0x8000_0000 {
      assert right == (min - 0x1_0000) * 0x1_0000 + max;
      assert right / 0x1_0000 == min - 0x1_0000;
    } else {
      assert right / 0x1_0000 == min;
    }
  }

  /** The node carries the operator op. */
  predicate Encodes(n: ANode, op: Op) {
    match op
    case Char(c) => n.kind == OP_CHAR(c)
    case Dot => n.kind.OP_DOT?
    case Bol => n.kind.OP_BOL?
    case Eol => n.kind.OP_EOL?
    case Boundary(k) => n.kind.OP_WB? && n.left == k as int
    case NamedClass(k) => n.kind.OP_CCLASS? && n.left == k as int
    case Range(lo, hi) => n.kind.OP_RANGE? && n.left == lo as int && n.right == hi as int
    case Class => n.kind.OP_CLASS?
    case NegClass => n.kind.OP_NCLASS?
    case Group(i) => n.kind.OP_EXPR? && n.right == i
    case PlainGroup => n.kind.OP_NOCAPEXPR?
    case Or => n.kind.OP_OR?
    case Greedy(min, max) => n.kind.OP_GREEDY? && n.right == Pack(min, max) && min <= UNBOUNDED && max <= UNBOUNDED
  }

  predicate HasLeft(op: Op) {
    op.Greedy? || op.Or? || op.Group? || op.PlainGroup? || op.Class? || op.NegClass?
  }

  function LeftOf(n: ANode, op: Op): int {
    if HasLeft(op) then n.left else -1
  }

  function RightOf(n: ANode, op: Op): int {
    if op.Or? then n.right else -1
  }

  /** The nodes that make up the tree t rooted at id. */
  ghost function Footprint(a: Arena, id: int, t: Tree): set<int>
    decreases t
  {
    if t.Nil? || !(0 <= id < |a|) then {}
    else
      var below := Footprint(a, LeftOf(a[id], t.op), t.left) + Footprint(a, RightOf(a[id], t.op), t.right);
      {id} + below + Footprint(a, a[id].next, t.next)
  }

  /** Rooted at id the arena holds exactly the tree t: indices in range, -1 for no child, nothing shared. */
  ghost predicate Holds(a: Arena, id: int, t: Tree)
    decreases t
  {
    if t.Nil? then id == -1
    else
      && 0 <= id < |a| && Encodes(a[id], t.op)
      && var l, r, n := LeftOf(a[id], t.op), RightOf(a[id], t.op), a[id].next;
      && Holds(a, l, t.left) && Holds(a, r, t.right) && Holds(a, n, t.next)
      && var fl, fr, fn := Footprint(a, l, t.left), Footprint(a, r, t.right), Footprint(a, n, t.next);
      && id !in fl && id !in fr && id !in fn && fl !! fr && fl !! fn && fr !! fn
  }

  lemma {:induction false} FootprintInRange(a: Arena, id: int, t: Tree)
    ensures forall i :: i in Footprint(a, id, t) ==> 0 <= i < |a|
    decreases t
  {
    if t.Node? && 0 <= id < |a| {
      FootprintInRange(a, LeftOf(a[id], t.op), t.left);
      FootprintInRange(a, RightOf(a[id], t.op), t.right);
      FootprintInRange(a, a[id].next, t.next);
    }
  }

  /** Writing elsewhere leaves a tree alone. */
  lemma {:induction false} HoldsElsewhere(a: Arena, b: Arena, id: int, t: Tree)
    requires Holds(a, id, t) && |a| <= |b|
    requires forall i :: i in Footprint(a, id, t) && 0 <= i < |a| ==> b[i] == a[i]
    ensures Holds(b, id, t) && Footprint(b, id, t) == Footprint(a, id, t)
    decreases t
  {
    FootprintInRange(a, id, t);
    if t.Node? {
      HoldsElsewhere(a, b, LeftOf(a[id], t.op), t.left);
      HoldsElsewhere(a, b, RightOf(a[id], t.op), t.right);
      HoldsElsewhere(a, b, a[id].next, t.next);
    }
  }

  /** The definitions of Holds and Footprint, one node at a time. */
  lemma HoldsNode(a: Arena, id: int, t: Tree)
    requires t.Node? && 0 <= id < |a| && Encodes(a[id], t.op)
    requires var l, r, n := LeftOf(a[id], t.op), RightOf(a[id], t.op), a[id].next;
      && Holds(a, l, t.left) && Holds(a, r, t.right) && Holds(a, n, t.next)
      && var fl, fr, fn := Footprint(a, l, t.left), Footprint(a, r, t.right), Footprint(a, n, t.next);
      && id !in fl && id !in fr && id !in fn && fl !! fr && fl !! fn && fr !! fn
    ensures Holds(a, id, t)
    ensures Footprint(a, id, t) == {id} + Footprint(a, LeftOf(a[id], t.op), t.left)
              + Footprint(a, RightOf(a[id], t.op), t.right) + Footprint(a, a[id].next, t.next)
  {
  }

  lemma Separate(f: set<int>, g: set<int>, m: int)
    requires (forall i :: i in f ==> i < m) && (forall i :: i in g ==> m <= i)
    ensures f !! g
  {
    forall i | i in f ensures i !in g {
    }
  }

  lemma HoldsNil(a: Arena)
    ensures Holds(a, -1, Nil) && Footprint(a, -1, Nil) == {}
  {
  }

  ghost predicate Extends(a: Arena, b: Arena) {
    |a| <= |b| && forall i :: 0 <= i < |a| ==> b[i] == a[i]
  }

  /** b extends a, except that the link of node id may have changed. */
  ghost predicate SameBut(a: Arena, b: Arena, id: int) {
    && 0 <= id < |a| <= |b| && b[id] == a[id].(next := b[id].next)
    && forall i :: 0 <= i < |a| && i != id ==> b[i] == a[i]
  }

  lemma SameThenExtend(a: Arena, b: Arena, c: Arena, id: int)
    requires SameBut(a, b, id) && Extends(b, c)
    ensures SameBut(a, c, id)
  {
    assert c[id] == b[id];
  }

  lemma SameTwice(a: Arena, b: Arena, c: Arena, id: int, later: int)
    requires SameBut(a, b, id) && SameBut(b, c, later) && (later == id || later >= |a|)
    ensures SameBut(a, c, id)
  {
    assert later != id ==> c[id] == b[id];
    assert forall i :: 0 <= i < |a| && i != id ==> c[i] == b[i];
  }

  /** b extends a, and the nodes from `from` on hold t at id. */
  ghost predicate Built(a: Arena, b: Arena, id: int, t: Tree) {
    && Extends(a, b) && Holds(b, id, t)
    && forall i :: i in Footprint(b, id, t) ==> |a| <= i < |b|
  }

  /** A new node without children. */
  lemma BuiltLeaf(a: Arena, n: ANode, op: Op)
    requires Encodes(n, op) && !HasLeft(op) && n.next == -1
    ensures Built(a, a + [n], |a|, Leaf(op))
  {
    var b := a + [n];
    assert b[|a|] == n;
    assert Footprint(b, |a|, Leaf(op)) == {|a|};
  }

  /** What holding a tree means for its root and its subtrees. */
  lemma HoldsParts(a: Arena, id: int, t: Tree)
    requires t.Node? && Holds(a, id, t)
    ensures 0 <= id < |a| && Encodes(a[id], t.op)
    ensures var l, r, n := LeftOf(a[id], t.op), RightOf(a[id], t.op), a[id].next;
      && Holds(a, l, t.left) && Holds(a, r, t.right) && Holds(a, n, t.next)
      && var fl, fr, fn := Footprint(a, l, t.left), Footprint(a, r, t.right), Footprint(a, n, t.next);
      && Footprint(a, id, t) == {id} + fl + fr + fn
      && id !in fl && id !in fr && id !in fn && fl !! fr && fl !! fn && fr !! fn
  {
  }

  /** Appending to the chain of a single node. */
  lemma BuiltChain(a: Arena, b: Arena, id: int, t: Tree, c: Arena, id': int, t': Tree)
    requires Built(a, b, id, t) && t.Node? && t.next.Nil?
    requires Built(b, c, id', t')
    ensures Built(a, c[id := c[id].(next := id')], id, t.(next := t'))
  {
    hide Holds, Footprint, Encodes;
    HoldsParts(b, id, t);
    FootprintInRange(b, id, t);
    FootprintInRange(c, id', t');
    var d := c[id := c[id].(next := id')];
    var l, r := LeftOf(b[id], t.op), RightOf(b[id], t.op);
    assert d[id] == b[id].(next := id');
    EncodesLinked(b[id], t.op, id');
    HoldsElsewhere(b, d, l, t.left);
    HoldsElsewhere(b, d, r, t.right);
    HoldsElsewhere(c, d, id', t');
    Separate(Footprint(b, l, t.left), Footprint(c, id', t'), |b|);
    Separate(Footprint(b, r, t.right), Footprint(c, id', t'), |b|);
    HoldsNode(d, id, t.(next := t'));
  }

  lemma EncodesLinked(n: ANode, op: Op, next: int)
    ensures Encodes(n.(next := next), op) <==> Encodes(n, op)
    ensures LeftOf(n.(next := next), op) == LeftOf(n, op) && RightOf(n.(next := next), op) == RightOf(n, op)
  {
  }

  /** A new node above a finished tree. */
  lemma BuiltAbove(a: Arena, b: Arena, id: int, t: Tree, n: ANode, op: Op)
    requires Built(a, b, id, t)
    requires Encodes(n, op) && HasLeft(op) && !op.Or? && n.left == id && n.next == -1
    ensures Built(a, b + [n], |b|, Node(op, t, Nil, Nil))
  {
    var c := b + [n];
    FootprintInRange(b, id, t);
    HoldsElsewhere(b, c, id, t);
    assert Footprint(c, |b|, Node(op, t, Nil, Nil)) == {|b|} + Footprint(c, id, t);
  }

  /** A node made before the tree it is then given as its only child. */
  lemma BuiltBefore(a: Arena, n: ANode, b: Arena, id: int, t: Tree, op: Op)
    requires Built(a + [n], b, id, t) && Encodes(n, op) && HasLeft(op) && !op.Or? && n.next == -1
    ensures Built(a, b[|a| := b[|a|].(left := id)], |a|, Node(op, t, Nil, Nil))
  {
    hide Holds, Footprint, Encodes;
    var c := b[|a| := b[|a|].(left := id)];
    HoldsNil(c);
    assert b[|a|] == (a + [n])[|a|] && c[|a|] == n.(left := id);
    assert forall i :: 0 <= i < |a| ==> c[i] == (a + [n])[i];
    FootprintInRange(b, id, t);
    HoldsElsewhere(b, c, id, t);
    EncodesLeft(n, op, id);
    HoldsNode(c, |a|, Node(op, t, Nil, Nil));
  }

  lemma EncodesLeft(n: ANode, op: Op, id: int)
    requires Encodes(n, op) && HasLeft(op)
    ensures Encodes(n.(left := id), op)
  {
  }

  /** An alternation: left branch, the node, right branch. */
  lemma BuiltOr(a: Arena, b: Arena, l: int, tl: Tree, n: ANode, c: Arena, r: int, tr: Tree)
    requires Built(a, b, l, tl) && n.kind.OP_OR? && n.left == l && n.next == -1 && Built(b + [n], c, r, tr)
    ensures Built(a, c[|b| := c[|b|].(right := r)], |b|, Node(Or, tl, tr, Nil))
  {
    hide Holds, Footprint;
    var d := c[|b| := c[|b|].(right := r)];
    HoldsNil(d);
    assert c[|b|] == (b + [n])[|b|] && d[|b|] == n.(right := r);
    assert forall i :: 0 <= i < |b| ==> c[i] == (b + [n])[i];
    FootprintInRange(b, l, tl);
    FootprintInRange(c, r, tr);
    HoldsElsewhere(b, d, l, tl);
    HoldsElsewhere(c, d, r, tr);
    Separate(Footprint(b, l, tl), Footprint(c, r, tr), |b|);
    HoldsNode(d, |b|, Node(Or, tl, tr, Nil));
  }

  /* ---- class members ---- */

  /** ids are the nodes of a chain, each made after the one before; from the second on they carry ops. */
  ghost predicate Linked(a: Arena, ids: seq<int>, ops: seq<Op>, lo: int) {
    && |ids| == |ops| + 1 && lo >= 0
    && (forall k :: 0 <= k < |ids| ==> lo <= ids[k] < |a|)
    && (forall k, l :: 0 <= k < l < |ids| ==> ids[k] < ids[l])
    && (forall k {:trigger ops[k]} :: 0 <= k < |ops| ==> a[ids[k]].next == ids[k + 1] && Encodes(a[ids[k + 1]], ops[k]))
    && a[ids[|ops|]].next == -1
  }

  lemma LinkedElsewhere(a: Arena, b: Arena, ids: seq<int>, ops: seq<Op>, lo: int)
    requires Linked(a, ids, ops, lo) && |a| <= |b| && forall k :: 0 <= k < |ids| ==> b[ids[k]] == a[ids[k]]
    ensures Linked(b, ids, ops, lo)
  {
    forall k | 0 <= k < |ops| ensures b[ids[k]].next == ids[k + 1] && Encodes(b[ids[k + 1]], ops[k]) {
      LinkedAt(a, ids, ops, lo, k);
    }
  }

  lemma StillLinked(a: Arena, b: Arena, ids: seq<int>, ops: seq<Op>, lo: int)
    requires Linked(a, ids, ops, lo) && Extends(a, b)
    ensures Linked(b, ids, ops, lo) && ids[|ops|] < |a|
  {
    LinkedElsewhere(a, b, ids, ops, lo);
  }

  lemma LinkedAt(a: Arena, ids: seq<int>, ops: seq<Op>, lo: int, k: nat)
    requires Linked(a, ids, ops, lo) && k < |ops|
    ensures a[ids[k]].next == ids[k + 1] && Encodes(a[ids[k + 1]], ops[k])
  {
    var op := ops[k];
  }

  lemma LinkedTail(a: Arena, ids: seq<int>, ops: seq<Op>, lo: int)
    requires Linked(a, ids, ops, lo) && ops != []
    ensures Linked(a, ids[1..], ops[1..], lo)
    ensures a[ids[0]].next == ids[1] && Encodes(a[ids[1]], ops[0]) && ids[0] < ids[1]
  {
    var ids', ops' := ids[1..], ops[1..];
    LinkedAt(a, ids, ops, lo, 0);
    forall k | 0 <= k < |ops'| ensures a[ids'[k]].next == ids'[k + 1] && Encodes(a[ids'[k + 1]], ops'[k]) {
      LinkedAt(a, ids, ops, lo, k + 1);
    }
  }

  lemma LinkMember(a: Arena, ids: seq<int>, ops: seq<Op>, lo: int, id: int, op: Op)
    requires Linked(a, ids, ops, lo) && ids[|ops|] < id < |a| && Encodes(a[id], op) && a[id].next == -1
    requires AreMembers(ops)
    ensures Linked(a[ids[|ops|] := a[ids[|ops|]].(next := id)], ids + [id], ops + [op], lo)
  {
    var last := ids[|ops|];
    var b, ids', ops' := a[last := a[last].(next := id)], ids + [id], ops + [op];
    forall k | 0 <= k < |ops'| ensures b[ids'[k]].next == ids'[k + 1] && Encodes(b[ids'[k + 1]], ops'[k]) {
      if k < |ops| {
        assert ids'[k + 1] == ids[k + 1] && ops'[k] == ops[k];
        assert a[ids[k]].next == ids[k + 1] && Encodes(a[ids[k + 1]], ops[k]);
        assert b[ids[k + 1]] == a[ids[k + 1]] || k + 1 == |ops|;
      }
    }
  }

  lemma {:induction false} ChainHolds(a: Arena, ids: seq<int>, ops: seq<Op>, lo: int)
    requires Linked(a, ids, ops, lo) && AreMembers(ops)
    ensures Holds(a, a[ids[0]].next, ChainOf(ops))
    ensures forall i :: i in Footprint(a, a[ids[0]].next, ChainOf(ops)) ==> ids[0] < i < |a|
    decreases |ops|
  {
    if ops == [] {
      HoldsNil(a);
    } else {
      LinkedTail(a, ids, ops, lo);
      assert ops[0] in ops;
      ChainHolds(a, ids[1..], ops[1..], lo);
      HoldsNil(a);
      HoldsNode(a, ids[1], ChainOf(ops));
    }
  }

  /** The class node, once its chain of members has been moved to its left. */
  lemma BuiltClass(a: Arena, b: Arena, ids: seq<int>, ops: seq<Op>, op: Op)
    requires Extends(a, b) && Linked(b, ids, ops, |a|) && AreMembers(ops)
    requires (op.Class? || op.NegClass?) && Encodes(b[ids[0]], op)
    ensures var id := ids[0];
      Built(a, b[id := b[id].(left := b[id].next, next := -1)], id, Node(op, ChainOf(ops), Nil, Nil))
  {
    var id := ids[0];
    var c := b[id := b[id].(left := b[id].next, next := -1)];
    ChainHolds(b, ids, ops, |a|);
    HoldsElsewhere(b, c, b[id].next, ChainOf(ops));
    HoldsNil(c);
    HoldsNode(c, id, Node(op, ChainOf(ops), Nil, Nil));
  }

  /* ---- consequences of Built ---- */

  lemma BuiltNode(a: Arena, b: Arena, op: Op)
    requires Extends(a, b) && |b| == |a| + 1 && Encodes(b[|a|], op) && !HasLeft(op) && b[|a|].next == -1
    ensures Built(a, b, |a|, Leaf(op))
  {
    BuiltLeaf(a, b[|a|], op);
    assert b == a + [b[|a|]];
  }

  lemma BuiltInside(a: Arena, b: Arena, id: int, t: Tree)
    requires Built(a, b, id, t) && t.Node?
    ensures 0 <= |a| <= id < |b| && Holds(b, id, t)
  {
    assert id in Footprint(b, id, t);
  }
}
