/**
 The compiler: a recursive descent over the pattern that fills the growable arena in place. It
 builds exactly the tree the pure parser describes.
 */
module RegexCompiler {
  import opened Chars
  import opened RegexTree
  import opened RegexParser
  import opened RegexArena

  datatype Result = Ok(id: int) | Err(error: Error)

  /** What a compiling method promises about its outcome, given what the pure parser says. */
  ghost predicate Outcome(r: Parse<Tree>, before: Arena, after: Arena, at: Cursor, out: Result) {
    match r
    case Failed(e) => out == Err(e)
    case Done(t, c) => out.Ok? && at == c && Built(before, after, out.id, t)
  }

  class Compiler {
    const pat: string
    var p: nat
    var nodes: Arena
    var capacity: nat
    var groups: nat

    /** The source string must be non-empty, free of zeros and must not end in a lone backslash. */
    constructor (pat: string)
      requires pat != "" && '\0' !in pat && !LoneEscape(pat, 0)
      ensures this.pat == pat && Ready() && Cur() == Cursor(0, 0, 0)
    {
      this.pat := pat;
      p, nodes, capacity, groups := 0, [], |pat|, 0;
    }

    ghost function Cur(): Cursor
      reads this
    {
      Cursor(p, |nodes|, groups)
    }

    /** The arena fits in its allocation, and the rest of the pattern can be read safely. */
    ghost predicate Ready()
      reads this
    {
      |nodes| <= capacity && capacity > 0 && p <= |pat| && !LoneEscape(pat, p) && '\0' !in pat
    }

    method NewNode(kind: NodeType, left: int, right: int) returns (id: int)
      requires Ready()
      modifies this`nodes, this`capacity, this`groups
      ensures Ready() && id == |old(nodes)|
      ensures nodes == old(nodes) + [ANode(kind, left, if kind.OP_EXPR? then old(groups) else right, -1)]
      ensures groups == old(groups) + if kind.OP_EXPR? then 1 else 0
    {
      var n := ANode(kind, left, right, -1);
      if kind.OP_EXPR? {
        n := n.(right := groups);
        groups := groups + 1;
      }
      if capacity < |nodes| + 1 {
        capacity := capacity * 2;
      }
      id := |nodes|;
      nodes := nodes + [n];
    }

    /** The current character, zero at the end. */
    function Peek(): char
      reads this
    {
      At(pat, p)
    }

    /** Consumes one character; false if it is not the expected one. */
    method Expect(d: char) returns (ok: bool)
      requires Ready() && d != '\0' && d != '\\'
      modifies this`p
      ensures ok == (RegexParser.Expect(pat, old(Cur()), d).Done?)
      ensures ok ==> Ready() && Cur() == old(Cur()).Skip(1)
    {
      ok := Peek() == d;
      if ok {
        SkipOne(pat, p);
        p := p + 1;
      }
    }

    method EscapeChar() returns (r: Parse<char>)
      requires Ready()
      modifies this`p
      ensures r == ParseEscape(pat, old(Cur()))
      ensures r.Done? ==> Ready() && Cur() == r.at
    {
      if Peek() == '\\' {
        p := p + 1;
        var c := Peek();
        p := p + 1;
        r := Done(Escaped(c), Cursor(p, |nodes|, groups));
      } else if !IsPrint(Peek()) {
        r := Failed(LetterExpected);
      } else {
        var c := Peek();
        p := p + 1;
        r := Done(c, Cursor(p, |nodes|, groups));
      }
    }

    method CharNode(inClass: bool) returns (out: Result, ghost op: Op)
      requires Ready()
      modifies this
      ensures var r := ParseChar(pat, old(Cur()), inClass);
        match r
        case Failed(e) => out == Err(e)
        case Done(o, c) =>
          && out == Ok(|old(nodes)|) && Ready() && Cur() == c && op == o
          && Extends(old(nodes), nodes) && Encodes(nodes[|old(nodes)|], o) && nodes[|old(nodes)|].next == -1
    {
      op := Dot;
      if Peek() == '\\' {
        p := p + 1;
        var c := Peek();
        p := p + 1;
        var id;
        if c == 'n' || c == 't' || c == 'r' || c == 'f' || c == 'v' {
          id := NewNode(OP_CHAR(Escaped(c)), -1, -1);
        } else if IsClassLetter(c) {
          id := NewNode(OP_CCLASS, c as int, -1);
        } else if (c == 'b' || c == 'B') && !inClass {
          id := NewNode(OP_WB, c as int, -1);
        } else {
          id := NewNode(OP_CHAR(c), -1, -1);
        }
        out := Ok(id);
        op := ParseChar(pat, old(Cur()), inClass).value;
      } else if !IsPrint(Peek()) {
        out := Err(LetterExpected);
      } else {
        var c := Peek();
        p := p + 1;
        var id := NewNode(OP_CHAR(c), -1, -1);
        out := Ok(id);
        op := Char(c);
      }
    }

    /** Gives the last node of a chain a successor. */
    method SetNext(id: int, next: int)
      requires 0 <= id < |nodes|
      modifies this`nodes
      ensures nodes == old(nodes)[id := old(nodes)[id].(next := next)]
    {
      nodes := nodes[id := nodes[id].(next := next)];
    }

    /** What has been read of a class: the chain of entered members and the one held back. */
    ghost predicate Reading(ids: seq<int>, members: seq<Op>, held: Held, lo: nat, first: int)
      reads this
    {
      && AreMembers(members) && Linked(nodes, ids, members, lo) && lo <= |nodes|
      && (held.NoneHeld? ==> first == -1)
      && (held.Holding? ==>
            && first == held.id && (held.op.Char? || held.op.NamedClass?)
            && ids[|members|] < first < |nodes| && Encodes(nodes[first], held.op) && nodes[first].next == -1)
    }

    /** Enters the member held back, if there is one. */
    method EnterHeld(chain: int, first: int, ghost ids: seq<int>, ghost members: seq<Op>, ghost held: Held, ghost lo: nat)
      returns (chain': int, ghost ids': seq<int>)
      requires Ready() && Reading(ids, members, held, lo, first) && chain == ids[|members|]
      modifies this`nodes
      ensures Ready() && |nodes| == old(|nodes|)
      ensures SameBut(old(nodes), nodes, chain)
      ensures |ids'| == |Enter(members, held)| + 1 && ids'[0] == ids[0] && chain' == ids'[|Enter(members, held)|]
      ensures Reading(ids', Enter(members, held), NoneHeld, lo, -1)
    {
      chain', ids' := chain, ids;
      if first != -1 {
        LinkMember(nodes, ids, members, lo, first, held.op);
        SetNext(chain, first);
        chain', ids' := first, ids + [first];
      }
    }

    /** The members of the class whose node is ret, chained behind it. */
    method Members(ret: int) returns (out: Result, ghost ids: seq<int>, ghost members: seq<Op>)
      requires Ready() && ret == |nodes| - 1 && ret >= 0 && nodes[ret].next == -1
      modifies this
      ensures match ParseMembers(pat, old(Cur()), NoneHeld, [])
        case Failed(e) => out == Err(e)
        case Done(ops, c) =>
          && out.Ok? && Ready() && Cur() == c && members == ops && AreMembers(ops)
          && Linked(nodes, ids, ops, ret) && ids[0] == ret && SameBut(old(nodes), nodes, ret)
    {
      ghost var start, c1 := nodes, Cur();
      var first, chain := -1, ret;
      ghost var held := NoneHeld;
      ids, members := [ret], [];
      while Peek() != ']'
        invariant Ready() && SameBut(start, nodes, ret) && Reading(ids, members, held, ret, first)
        invariant ids[0] == ret && chain == ids[|members|] && (chain == ret || chain >= |start|)
        invariant ParseMembers(pat, Cur(), held, members) == ParseMembers(pat, c1, NoneHeld, [])
        decreases |pat| - p
      {
        hide Linked, Encodes, ParseChar, ParseEscape, SameBut;
        ghost var before, link := nodes, chain;
        if Peek() == '-' && first != -1 {
          out, chain, ids, members := RangeMember(chain, first, ids, members, held, ret);
          if out.Err? {
            return;
          }
          first, held := -1, NoneHeld;
        } else {
          ghost var ids', held';
          out, chain, ids', held' := CharMember(chain, first, ids, members, held, ret);
          if out.Err? {
            return;
          }
          members := Enter(members, held);
          first, ids, held := out.id, ids', held';
        }
        SameTwice(start, before, nodes, ret, link);
      }
      hide Linked, Encodes, SameBut;
      ghost var members', before, link := Enter(members, held), nodes, chain;
      chain, ids := EnterHeld(chain, first, ids, members, held, ret);
      SameTwice(start, before, nodes, ret, link);
      members := members';
      out := Ok(ret);
    }

    /** trex_class and the bracket after it. */
    method ClassNode() returns (out: Result)
      requires Ready()
      modifies this
      ensures Outcome(ParseClass(pat, old(Cur())), old(nodes), nodes, Cur(), out)
      ensures out.Ok? ==> Ready()
    {
      hide ParseMembers, Linked, Built;
      ghost var start := nodes;
      ghost var op := if At(pat, p) == '^' then NegClass else Class;
      var ret;
      if Peek() == '^' {
        ret := NewNode(OP_NCLASS, -1, -1);
        SkipOne(pat, p);
        p := p + 1;
      } else {
        ret := NewNode(OP_CLASS, -1, -1);
      }
      if Peek() == ']' {
        return Err(EmptyClass);
      }
      ghost var ids, members;
      out, ids, members := Members(ret);
      if out.Err? {
        return;
      }
      BuiltClass(start, nodes, ids, members, op);
      ghost var done := nodes[ret := nodes[ret].(left := nodes[ret].next, next := -1)];
      nodes := nodes[ret := nodes[ret].(left := nodes[ret].next)];
      nodes := nodes[ret := nodes[ret].(next := -1)];
      assert nodes == done;
      var ok := Expect(']');
      out := if ok then Ok(ret) else Err(ParenExpected);
    }

    /** Enters the member held back, if any, and holds back the next one. */
    method CharMember(chain: int, first: int, ghost ids: seq<int>, ghost members: seq<Op>, ghost held: Held, ghost lo: nat)
      returns (out: Result, chain': int, ghost ids': seq<int>, ghost held': Held)
      requires Ready() && Reading(ids, members, held, lo, first) && chain == ids[|members|]
      modifies this
      ensures match ParseChar(pat, old(Cur()), true)
        case Failed(e) => out == Err(e)
        case Done(op, c) =>
          && out.Ok? && Ready() && Cur() == c && held' == Holding(op, old(|nodes|))
          && Reading(ids', Enter(members, held), held', lo, out.id)
          && ids'[0] == ids[0] && chain' == ids'[|Enter(members, held)|]
      ensures out.Ok? ==> SameBut(old(nodes), nodes, chain)
    {
      hide ParseChar, Encodes;
      hide Linked, SameBut;
      held' := held;
      ghost var op;
      chain', ids' := EnterHeld(chain, first, ids, members, held, lo);
      ghost var entered := nodes;
      out, op := CharNode(true);
      if out.Ok? {
        held' := Holding(op, out.id);
        SameThenExtend(old(nodes), entered, nodes, chain);
        StillLinked(entered, nodes, ids', Enter(members, held), lo);
      }
    }

    /** The minus sign of a range and its upper end; the lower end is the member held back. */
    method RangeMember(chain: int, first: int, ghost ids: seq<int>, ghost members: seq<Op>, ghost held: Held, ghost lo: nat)
      returns (out: Result, chain': int, ghost ids': seq<int>, ghost members': seq<Op>)
      requires Ready() && Peek() == '-' && held.Holding?
      requires Reading(ids, members, held, lo, first) && chain == ids[|members|]
      modifies this
      ensures match ParseEscape(pat, old(Cur()).Skip(1).Made(1))
        case Failed(_) => out.Err?
        case Done(hi, c) =>
          if first > At(pat, old(p) + 1) as int || held.op.NamedClass? then out.Err?
          else
            && out.Ok? && Ready() && Cur() == c && members' == members + [Range(held.op.c, hi)]
            && Reading(ids', members', NoneHeld, lo, -1) && ids'[0] == ids[0] && chain' == ids'[|members'|]
      ensures out.Err? ==> ParseMembers(pat, old(Cur()), held, members) == Failed(out.error)
      ensures out.Ok? ==> SameBut(old(nodes), nodes, chain)
    {
      chain', ids', members' := chain, ids, members;
      SkipOne(pat, p);
      p := p + 1;
      var r := NewNode(OP_RANGE, -1, -1);
      if first > Peek() as int {
        return Err(InvalidRange), chain, ids, members;
      }
      if nodes[first].kind.OP_CCLASS? {
        return Err(ClassInRange), chain, ids, members;
      }
      nodes := nodes[r := nodes[r].(left := nodes[first].kind.c as int)];
      var t := EscapeChar();
      if t.Failed? {
        return Err(t.error), chain, ids, members;
      }
      nodes := nodes[r := nodes[r].(right := t.value as int)];
      LinkedElsewhere(old(nodes), nodes, ids, members, lo);
      ghost var range := Range(held.op.c, t.value);
      LinkMember(nodes, ids, members, lo, r, range);
      SetNext(chain, r);
      out, chain', ids', members' := Ok(r), r, ids + [r], members + [range];
    }

    /** trex_parsenumber, truncated to sixteen bits; the current character is a digit. */
    method Number() returns (r: Parse<nat>)
      requires Ready() && IsDigit(Peek())
      modifies this`p
      ensures r == ParseNumber(pat, old(Cur()))
      ensures r.Done? ==> Ready() && Cur() == r.at
    {
      NumberStays(pat, Cur());
      var ret: nat := Peek() as int - '0' as int;
      var positions: nat := 10;
      p := p + 1;
      while IsDigit(Peek())
        invariant p <= |pat|
        invariant ParseNumber(pat, old(Cur())) == (match ParseDigits(pat, Cur(), ret, positions)
                                                   case Failed(e) => Failed(e)
                                                   case Done(n, c) => Done(n % 0x1_0000, c))
        decreases |pat| - p
      {
        ret := ret * 10 + (Peek() as int - '0' as int);
        if positions == MAX_POSITIONS {
          return Failed(NumberOverflow);
        }
        p := p + 1;
        positions := positions * 10;
      }
      r := Done(ret % 0x1_0000, Cursor(p, |nodes|, groups));
    }

    /** The bounds between braces, the opening one consumed. */
    method Braces() returns (r: Parse<Quantifier>)
      requires Ready() && !LoneEscape(pat, p)
      modifies this`p
      ensures r == ParseBraces(pat, old(Cur()))
      ensures r.Done? ==> Ready() && Cur() == r.at
    {
      hide LoneEscape, ParseNumber;
      if !IsDigit(Peek()) {
        return Failed(NumberExpected);
      }
      var min := Number();
      if min.Failed? {
        return Failed(min.error);
      }
      SkipOne(pat, p);
      if Peek() == '}' {
        p := p + 1;
        return Done(Between(min.value, min.value), Cursor(p, |nodes|, groups));
      }
      if Peek() != ',' {
        return Failed(CommaOrBraceExpected);
      }
      p := p + 1;
      var max := UNBOUNDED;
      if IsDigit(Peek()) {
        var n := Number();
        if n.Failed? {
          return Failed(n.error);
        }
        max := n.value;
      }
      var ok := Expect('}');
      if !ok {
        return Failed(ParenExpected);
      }
      r := Done(Between(min.value, max), Cursor(p, |nodes|, groups));
    }

    /** An optional quantifier. */
    method ReadQuantifier() returns (r: Parse<Quantifier>)
      requires Ready()
      modifies this`p
      ensures r == ParseQuantifier(pat, old(Cur()))
      ensures r.Done? ==> Ready() && Cur() == r.at
    {
      SkipOne(pat, p);
      if Peek() == '*' {
        p := p + 1;
        r := Done(Between(0, UNBOUNDED), Cursor(p, |nodes|, groups));
      } else if Peek() == '+' {
        p := p + 1;
        r := Done(Between(1, UNBOUNDED), Cursor(p, |nodes|, groups));
      } else if Peek() == '?' {
        p := p + 1;
        r := Done(Between(0, 1), Cursor(p, |nodes|, groups));
      } else if Peek() == '{' {
        p := p + 1;
        r := Braces();
      } else {
        r := Done(Once, Cursor(p, |nodes|, groups));
      }
    }

    /** A parenthesised group, the opening parenthesis not yet consumed. */
    method GroupNode() returns (out: Result)
      requires Ready() && Peek() == '('
      modifies this
      ensures Outcome(ParseAtom(pat, old(Cur())), old(nodes), nodes, Cur(), out)
      ensures out.Ok? ==> Ready()
      decreases |pat| - p, 0
    {
      hide LoneEscape, Built, ParseList;
      ghost var start, c := nodes, Cur();
      SkipOne(pat, p);
      p := p + 1;
      var expr;
      if Peek() == '?' {
        SkipOne(pat, p);
        p := p + 1;
        var ok := Expect(':');
        if !ok {
          return Err(ParenExpected);
        }
        expr := NewNode(OP_NOCAPEXPR, -1, -1);
      } else {
        expr := NewNode(OP_EXPR, -1, -1);
      }
      ghost var n, list := nodes[expr], ParseList(pat, Cur());
      out := List();
      if out.Err? {
        return;
      }
      BuiltBefore(start, n, nodes, out.id, list.value, if n.kind.OP_EXPR? then Group(c.groups) else PlainGroup);
      nodes := nodes[expr := nodes[expr].(left := out.id)];
      var ok := Expect(')');
      out := if ok then Ok(expr) else Err(ParenExpected);
    }

    method Atom() returns (out: Result)
      requires Ready()
      modifies this
      ensures Outcome(ParseAtom(pat, old(Cur())), old(nodes), nodes, Cur(), out)
      ensures out.Ok? ==> Ready()
      decreases |pat| - p, 1
    {
      hide LoneEscape, Built, ParseClass, ParseChar, ParseList;
      ghost var start := nodes;
      SkipOne(pat, p);
      if Peek() == '(' {
        out := GroupNode();
      } else if Peek() == '[' {
        p := p + 1;
        out := ClassNode();
      } else if Peek() == '$' {
        p := p + 1;
        var id := NewNode(OP_EOL, -1, -1);
        BuiltLeaf(start, nodes[id], Eol);
        out := Ok(id);
      } else if Peek() == '.' {
        p := p + 1;
        var id := NewNode(OP_DOT, -1, -1);
        BuiltLeaf(start, nodes[id], Dot);
        out := Ok(id);
      } else {
        ghost var op;
        out, op := CharNode(false);
        if out.Ok? {
          BuiltNode(start, nodes, op);
        }
      }
    }

    /** trex_element: an atom, its quantifier, and the elements that follow. */
    method Element() returns (out: Result)
      requires Ready()
      modifies this
      ensures Outcome(ParseElement(pat, old(Cur())), old(nodes), nodes, Cur(), out)
      ensures out.Ok? ==> Ready()
      decreases |pat| - p, 2
    {
      hide LoneEscape, Built, ParseAtom, ParseQuantifier;
      ghost var start, c := nodes, Cur();
      out := Atom();
      if out.Err? {
        return;
      }
      ghost var t := ParseAtom(pat, c).value;
      var ret := out.id;
      var q := ReadQuantifier();
      if q.Failed? {
        return Err(q.error);
      }
      if q.value.Between? {
        ghost var b := nodes;
        var id := NewNode(OP_GREEDY, -1, -1);
        ghost var n := ANode(OP_GREEDY, ret, Pack(q.value.min, q.value.max), -1);
        BuiltAbove(start, b, ret, t, n, Greedy(q.value.min, q.value.max));
        nodes := nodes[id := nodes[id].(left := ret)];
        nodes := nodes[id := nodes[id].(right := Pack(q.value.min, q.value.max))];
        assert nodes == b + [n];
        t := Node(Greedy(q.value.min, q.value.max), t, Nil, Nil);
        ret := id;
      }
      if Peek() != '|' && Peek() != ')' && Peek() != '*' && Peek() != '+' && Peek() != '\0' {
        ghost var b, rest := nodes, ParseElement(pat, Cur());
        out := Element();
        if out.Err? {
          return;
        }
        BuiltChain(start, b, ret, t, nodes, out.id, rest.value);
        BuiltInside(start, b, ret, t);
        SetNext(ret, out.id);
      }
      out := Ok(ret);
    }

    /** trex_list: an optional anchor, a chain of elements, and the alternatives. */
    method List() returns (out: Result)
      requires Ready()
      modifies this
      ensures Outcome(ParseList(pat, old(Cur())), old(nodes), nodes, Cur(), out)
      ensures out.Ok? ==> Ready()
      decreases |pat| - p, 3
    {
      hide LoneEscape, Built, ParseElement;
      ghost var start, t := nodes, Nil;
      SkipOne(pat, p);
      var ret := -1;
      if Peek() == '^' {
        p := p + 1;
        ret := NewNode(OP_BOL, -1, -1);
        BuiltLeaf(start, nodes[ret], Bol);
        t := Leaf(Bol);
      }
      ghost var b, element := nodes, ParseElement(pat, Cur());
      out := Element();
      if out.Err? {
        return;
      }
      if ret != -1 {
        BuiltChain(start, b, ret, t, nodes, out.id, element.value);
        BuiltInside(start, b, ret, t);
        SetNext(ret, out.id);
        t := t.(next := element.value);
      } else {
        ret, t := out.id, element.value;
      }
      out := Ok(ret);
      if Peek() == '|' {
        out := Alternatives(ret, start, t);
      }
    }

    /** The alternatives to the chain at left, whose tree is t; nothing from start on was there before. */
    method Alternatives(left: int, ghost start: Arena, ghost t: Tree) returns (out: Result)
      requires Ready() && Peek() == '|' && Built(start, nodes, left, t)
      modifies this
      ensures match ParseList(pat, old(Cur()).Skip(1).Made(1))
        case Failed(e) => out == Err(e)
        case Done(r, c) => out.Ok? && Cur() == c && Built(start, nodes, out.id, Node(Or, t, r, Nil))
      ensures out.Ok? ==> Ready()
      decreases |pat| - p, 0
    {
      hide LoneEscape, Built, ParseList;
      SkipOne(pat, p);
      p := p + 1;
      ghost var b := nodes;
      var temp := NewNode(OP_OR, -1, -1);
      nodes := nodes[temp := nodes[temp].(left := left)];
      ghost var n, right := nodes[temp], ParseList(pat, Cur());
      assert nodes == b + [n];
      out := List();
      if out.Ok? {
        BuiltOr(start, b, left, t, n, nodes, out.id, right.value);
        nodes := nodes[temp := nodes[temp].(right := out.id)];
        out := Ok(temp);
      }
    }

    /** trex_compile: the outermost group is node 0, and its tree is the one the pure parser finds. */
    method Compile() returns (out: Result)
      requires Ready() && Cur() == Cursor(0, 0, 0)
      modifies this
      ensures match ParsePattern(pat)
        case Failed(e) => out == Err(e) && e != PastEnd
        case Done(t, c) => out == Ok(0) && Cur() == c && Holds(nodes, 0, t) && |nodes| <= capacity
    {
      NeverPastEnd(pat);
      hide LoneEscape, Built, ParseList;
      var first := NewNode(OP_EXPR, -1, -1);
      ghost var n, list := nodes[first], ParseList(pat, Cur());
      out := List();
      if out.Err? {
        return;
      }
      BuiltBefore([], n, nodes, out.id, list.value, Group(0));
      BuiltInside([], nodes[first := nodes[first].(left := out.id)], 0, Node(Group(0), list.value, Nil, Nil));
      nodes := nodes[first := nodes[first].(left := out.id)];
      if Peek() != '\0' {
        return Err(UnexpectedCharacter);
      }
      out := Ok(first);
    }
  }
}
