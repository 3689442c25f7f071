/**
 The grammar of T-Rex patterns as a pure recursive-descent parser. It threads the number of nodes
 and of captures made so far, because the original's range check compares a node's number.
 */
module RegexParser {
  import opened Chars
  import opened RegexTree

  datatype Error =
    | LetterExpected | EmptyClass | InvalidRange | ClassInRange | NumberOverflow | NumberExpected
    | CommaOrBraceExpected | ParenExpected | UnexpectedCharacter | PastEnd

  /** Where the parser is: position in the pattern, nodes made, captures made. */
  datatype Cursor = Cursor(p: nat, nodes: nat, groups: nat) {
    function Skip(k: nat): Cursor { this.(p := p + k) }
    function Made(k: nat): Cursor { this.(nodes := nodes + k) }
  }

  datatype Parse<T> = Done(value: T, at: Cursor) | Failed(error: Error)

  function At(pat: string, p: nat): char {
    if p < |pat| then pat[p] else '\0'
  }

  function Escaped(c: char): char {
    match c
    case 'n' => '\n'
    case 't' => '\t'
    case 'r' => '\r'
    case 'f' => 12 as char
    case 'v' => 11 as char
    case _ => c
  }

  /** One character, possibly escaped: the upper end of a range. */
  function ParseEscape(pat: string, c: Cursor): (r: Parse<char>)
    ensures r.Done? ==> c.p < r.at.p <= |pat|
  {
    if At(pat, c.p) == '\\' then
      if c.p + 1 >= |pat| then Failed(PastEnd) else Done(Escaped(pat[c.p + 1]), c.Skip(2))
    else if !IsPrint(At(pat, c.p)) then Failed(LetterExpected)
    else Done(At(pat, c.p), c.Skip(1))
  }

  /** A node for one character, an escape or a predefined class. */
  function ParseChar(pat: string, c: Cursor, inClass: bool): (r: Parse<Op>)
    ensures r.Done? ==> c.p < r.at.p <= |pat| && r.at.nodes == c.nodes + 1
    ensures r.Done? ==> (r.value.Char? || r.value.NamedClass? || (r.value.Boundary? && !inClass))
  {
    if At(pat, c.p) == '\\' then
      if c.p + 1 >= |pat| then Failed(PastEnd)
      else
        var d := pat[c.p + 1];
        var op := if IsClassLetter(d) then NamedClass(d)
                  else if (d == 'b' || d == 'B') && !inClass then Boundary(d)
                  else Char(Escaped(d));
        Done(op, c.Skip(2).Made(1))
    else if !IsPrint(At(pat, c.p)) then Failed(LetterExpected)
    else Done(Char(At(pat, c.p)), c.Skip(1).Made(1))
  }

  /** A member of a class that has been read but not yet entered, and the number of its node. */
  datatype Held = NoneHeld | Holding(op: Op, id: nat)

  function Enter(members: seq<Op>, held: Held): seq<Op> {
    if held.Holding? then members + [held.op] else members
  }

  /** The members of a class up to the closing bracket, which is not consumed. */
  function ParseMembers(pat: string, c: Cursor, held: Held, members: seq<Op>): (r: Parse<seq<Op>>)
    requires AreMembers(members) && (held.Holding? ==> held.op.Char? || held.op.NamedClass?)
    ensures r.Done? ==> AreMembers(r.value)
    ensures r.Done? ==> c.p <= r.at.p <= |pat| && r.at.groups == c.groups && r.at.nodes >= c.nodes
    ensures r.Done? ==> |r.value| >= |members|
    ensures r.Done? && (held.Holding? || At(pat, c.p) != ']') ==> |r.value| > |members|
    decreases |pat| - c.p
  {
    if At(pat, c.p) == ']' then Done(Enter(members, held), c)
    else if At(pat, c.p) == '-' && held.Holding? then
      var c' := c.Skip(1).Made(1);
      if held.id > At(pat, c'.p) as int then Failed(InvalidRange)
      else if held.op.NamedClass? then Failed(ClassInRange)
      else
        match ParseEscape(pat, c')
        case Failed(e) => Failed(e)
        case Done(hi, c'') => ParseMembers(pat, c'', NoneHeld, members + [Range(held.op.c, hi)])
    else
      match ParseChar(pat, c, true)
      case Failed(e) => Failed(e)
      case Done(op, c') => ParseMembers(pat, c', Holding(op, c.nodes), Enter(members, held))
  }

  function Expect(pat: string, c: Cursor, d: char): Parse<()> {
    if At(pat, c.p) != d then Failed(ParenExpected) else Done((), c.Skip(1))
  }

  /** After the opening bracket, up to and including the closing one. */
  function ParseClass(pat: string, c: Cursor): (r: Parse<Tree>)
    ensures r.Done? ==> c.p < r.at.p <= |pat| && r.at.groups == c.groups && r.at.nodes > c.nodes
    ensures r.Done? ==> r.value.Node? && r.value.next.Nil? && WellFormed(r.value) && !r.value.op.Greedy?
  {
    var op := if At(pat, c.p) == '^' then NegClass else Class;
    var c1 := (if At(pat, c.p) == '^' then c.Skip(1) else c).Made(1);
    if At(pat, c1.p) == ']' then Failed(EmptyClass)
    else
      match ParseMembers(pat, c1, NoneHeld, [])
      case Failed(e) => Failed(e)
      case Done(ops, c2) =>
        match Expect(pat, c2, ']')
        case Failed(e) => Failed(e)
        case Done(_, c3) =>
          ChainWellFormed(ops);
          Done(Node(op, ChainOf(ops), Nil, Nil), c3)
  }

  lemma {:induction false} ChainWellFormed(ops: seq<Op>)
    requires AreMembers(ops)
    ensures WellFormed(ChainOf(ops))
  {
    if ops != [] {
      assert ops[0] in ops;
      ChainWellFormed(ops[1..]);
    }
  }

  const MAX_POSITIONS := 1_000_000_000

  /** The remaining digits of a number, the first `ret` of which has been read. */
  function ParseDigits(pat: string, c: Cursor, ret: nat, positions: nat): (r: Parse<nat>)
    ensures r.Done? ==> c.p <= r.at.p && (c.p <= |pat| ==> r.at.p <= |pat|)
    ensures r.Done? ==> r.at.nodes == c.nodes && r.at.groups == c.groups
    decreases |pat| - c.p
  {
    if !IsDigit(At(pat, c.p)) then Done(ret, c)
    else if positions == MAX_POSITIONS then Failed(NumberOverflow)
    else ParseDigits(pat, c.Skip(1), ret * 10 + (At(pat, c.p) as int - '0' as int), positions * 10)
  }

  /** A number, truncated to sixteen bits as the repetition bounds are. */
  function ParseNumber(pat: string, c: Cursor): (r: Parse<nat>)
    requires IsDigit(At(pat, c.p))
    ensures r.Done? ==> c.p < r.at.p <= |pat| && r.at.nodes == c.nodes && r.at.groups == c.groups
    ensures r.Done? ==> r.value <= UNBOUNDED
  {
    match ParseDigits(pat, c.Skip(1), At(pat, c.p) as int - '0' as int, 10)
    case Failed(e) => Failed(e)
    case Done(n, c') => Done(n % 0x1_0000, c')
  }

  datatype Quantifier = Once | Between(min: nat, max: nat)

  function ParseBraces(pat: string, c: Cursor): (r: Parse<Quantifier>)
    ensures r.Done? ==> c.p < r.at.p <= |pat| && r.at.nodes == c.nodes && r.at.groups == c.groups
    ensures r.Done? ==> r.value.Between? && r.value.min <= UNBOUNDED && r.value.max <= UNBOUNDED
  {
    if !IsDigit(At(pat, c.p)) then Failed(NumberExpected)
    else
      match ParseNumber(pat, c)
      case Failed(e) => Failed(e)
      case Done(min, c1) =>
        if At(pat, c1.p) == '}' then Done(Between(min, min), c1.Skip(1))
        else if At(pat, c1.p) != ',' then Failed(CommaOrBraceExpected)
        else
          var c2 := c1.Skip(1);
          var bound := if IsDigit(At(pat, c2.p)) then ParseNumber(pat, c2) else Done(UNBOUNDED, c2);
          match bound
          case Failed(e) => Failed(e)
          case Done(max, c3) =>
            match Expect(pat, c3, '}')
            case Failed(e) => Failed(e)
            case Done(_, c4) => Done(Between(min, max), c4)
  }

  function ParseQuantifier(pat: string, c: Cursor): (r: Parse<Quantifier>)
    ensures r.Done? ==> c.p <= r.at.p && (c.p <= |pat| ==> r.at.p <= |pat|)
    ensures r.Done? ==> r.at.nodes == c.nodes && r.at.groups == c.groups
    ensures r.Done? && r.value.Between? ==> r.value.min <= UNBOUNDED && r.value.max <= UNBOUNDED
  {
    match At(pat, c.p)
    case '*' => Done(Between(0, UNBOUNDED), c.Skip(1))
    case '+' => Done(Between(1, UNBOUNDED), c.Skip(1))
    case '?' => Done(Between(0, 1), c.Skip(1))
    case '{' => ParseBraces(pat, c.Skip(1))
    case _ => Done(Once, c)
  }

  /** A group, a class, an anchor, a dot or a character. */
  function ParseAtom(pat: string, c: Cursor): (r: Parse<Tree>)
    ensures r.Done? ==> c.p < r.at.p <= |pat| && r.at.nodes > c.nodes
    ensures r.Done? ==> r.value.Node? && r.value.next.Nil? && WellFormed(r.value)
    decreases |pat| - c.p, 0
  {
    match At(pat, c.p)
    case '(' =>
      var plain := At(pat, c.p + 1) == '?';
      if plain && At(pat, c.p + 2) != ':' then Failed(ParenExpected)
      else
        var c1 := if plain then c.Skip(3).Made(1) else c.Skip(1).Made(1).(groups := c.groups + 1);
        (match ParseList(pat, c1)
         case Failed(e) => Failed(e)
         case Done(t, c2) =>
           match Expect(pat, c2, ')')
           case Failed(e) => Failed(e)
           case Done(_, c3) => Done(Node(if plain then PlainGroup else Group(c.groups), t, Nil, Nil), c3))
    case '[' => ParseClass(pat, c.Skip(1))
    case '$' => Done(Leaf(Eol), c.Skip(1).Made(1))
    case '.' => Done(Leaf(Dot), c.Skip(1).Made(1))
    case _ =>
      match ParseChar(pat, c, false)
      case Failed(e) => Failed(e)
      case Done(op, c1) => Done(Leaf(op), c1)
  }

  predicate EndsChain(d: char) {
    d == '|' || d == ')' || d == '*' || d == '+' || d == '\0'
  }

  /** An atom, its quantifier if any, and the elements that follow it. */
  function ParseElement(pat: string, c: Cursor): (r: Parse<Tree>)
    ensures r.Done? ==> c.p < r.at.p <= |pat| && r.at.nodes > c.nodes && r.value.Node? && WellFormed(r.value)
    decreases |pat| - c.p, 1
  {
    match ParseAtom(pat, c)
    case Failed(e) => Failed(e)
    case Done(atom, c1) =>
      match ParseQuantifier(pat, c1)
      case Failed(e) => Failed(e)
      case Done(q, c2) =>
        var t := if q.Once? then atom else Node(Greedy(q.min, q.max), atom, Nil, Nil);
        var c3 := if q.Once? then c2 else c2.Made(1);
        if EndsChain(At(pat, c3.p)) then Done(t, c3)
        else
          match ParseElement(pat, c3)
          case Failed(e) => Failed(e)
          case Done(rest, c4) => Done(t.(next := rest), c4)
  }

  /** An optional anchor, a chain of elements and the alternatives to it. */
  function ParseList(pat: string, c: Cursor): (r: Parse<Tree>)
    ensures r.Done? ==> c.p < r.at.p <= |pat| && r.at.nodes > c.nodes && r.value.Node? && WellFormed(r.value)
    decreases |pat| - c.p, 2
  {
    var anchored := At(pat, c.p) == '^';
    var c1 := if anchored then c.Skip(1).Made(1) else c;
    match ParseElement(pat, c1)
    case Failed(e) => Failed(e)
    case Done(e, c2) =>
      var t := if anchored then Node(Bol, Nil, Nil, e) else e;
      if At(pat, c2.p) != '|' then Done(t, c2)
      else
        match ParseList(pat, c2.Skip(1).Made(1))
        case Failed(e) => Failed(e)
        case Done(r, c3) => Done(Node(Or, t, r, Nil), c3)
  }

  /** The whole pattern: the outermost group is node 0. */
  function ParsePattern(pat: string): (r: Parse<Tree>)
    requires '\0' !in pat
    ensures r.Done? ==> r.value.Node? && WellFormed(r.value) && r.at.p == |pat|
  {
    match ParseList(pat, Cursor(0, 1, 1))
    case Failed(e) => Failed(e)
    case Done(t, c) =>
      if At(pat, c.p) != '\0' then Failed(UnexpectedCharacter)
      else Done(Node(Group(0), t, Nil, Nil), c)
  }

  /* ---- reading past the end ---- */

  /** Read from the left in units of a character or an escaped pair, the pattern ends inside a pair. */
  predicate LoneEscape(pat: string, p: nat)
    decreases |pat| - p
  {
    if p >= |pat| then false
    else if pat[p] == '\\' then p + 1 == |pat| || LoneEscape(pat, p + 2)
    else LoneEscape(pat, p + 1)
  }

  lemma {:induction false} DigitsStay(pat: string, c: Cursor, ret: nat, positions: nat)
    requires !LoneEscape(pat, c.p)
    ensures var r := ParseDigits(pat, c, ret, positions);
      if r.Done? then !LoneEscape(pat, r.at.p) else r.error != PastEnd
    decreases |pat| - c.p
  {
    if IsDigit(At(pat, c.p)) && positions != MAX_POSITIONS {
      DigitsStay(pat, c.Skip(1), ret * 10 + (At(pat, c.p) as int - '0' as int), positions * 10);
    }
  }

  lemma SkipOne(pat: string, p: nat)
    ensures !LoneEscape(pat, p) && At(pat, p) != '\\' ==> !LoneEscape(pat, p + 1)
  {
  }

  lemma NumberStays(pat: string, c: Cursor)
    requires !LoneEscape(pat, c.p) && IsDigit(At(pat, c.p))
    ensures var r := ParseNumber(pat, c);
      if r.Done? then !LoneEscape(pat, r.at.p) else r.error != PastEnd
  {
    DigitsStay(pat, c.Skip(1), At(pat, c.p) as int - '0' as int, 10);
  }

  lemma QuantifierStays(pat: string, c: Cursor)
    requires !LoneEscape(pat, c.p)
    ensures var r := ParseQuantifier(pat, c);
      if r.Done? then !LoneEscape(pat, r.at.p) else r.error != PastEnd
  {
    hide LoneEscape, ParseNumber;
    SkipOne(pat, c.p);
    if At(pat, c.p) == '{' && IsDigit(At(pat, c.p + 1)) {
      NumberStays(pat, c.Skip(1));
      var n := ParseNumber(pat, c.Skip(1));
      if n.Done? {
        SkipOne(pat, n.at.p);
        if At(pat, n.at.p) == ',' {
          SkipOne(pat, n.at.p + 1);
          if IsDigit(At(pat, n.at.p + 1)) {
            NumberStays(pat, n.at.Skip(1));
            var m := ParseNumber(pat, n.at.Skip(1));
            if m.Done? { SkipOne(pat, m.at.p); }
          }
        }
      }
    }
  }

  lemma {:induction false} MembersStay(pat: string, c: Cursor, held: Held, members: seq<Op>)
    requires AreMembers(members) && (held.Holding? ==> held.op.Char? || held.op.NamedClass?)
    requires !LoneEscape(pat, c.p)
    ensures var r := ParseMembers(pat, c, held, members);
      if r.Done? then !LoneEscape(pat, r.at.p) else r.error != PastEnd
    decreases |pat| - c.p
  {
    if At(pat, c.p) != ']' {
      if At(pat, c.p) == '-' && held.Holding? {
        var c' := c.Skip(1).Made(1);
        var e := ParseEscape(pat, c');
        if e.Done? && held.op.Char? {
          MembersStay(pat, e.at, NoneHeld, members + [Range(held.op.c, e.value)]);
        }
      } else {
        var e := ParseChar(pat, c, true);
        if e.Done? {
          MembersStay(pat, e.at, Holding(e.value, c.nodes), Enter(members, held));
        }
      }
    }
  }

  /** The same for a group, its parenthesis included, given that its inside stays within the pattern. */
  lemma {:induction false} GroupStays(pat: string, c: Cursor)
    requires !LoneEscape(pat, c.p) && At(pat, c.p) == '('
    ensures var r := ParseAtom(pat, c);
      if r.Done? then !LoneEscape(pat, r.at.p) else r.error != PastEnd
    decreases |pat| - c.p, 0
  {
    hide LoneEscape, ParseList;
    var plain := At(pat, c.p + 1) == '?';
    SkipOne(pat, c.p);
    if plain {
      SkipOne(pat, c.p + 1);
      SkipOne(pat, c.p + 2);
    }
    if !plain || At(pat, c.p + 2) == ':' {
      var c1 := if plain then c.Skip(3).Made(1) else c.Skip(1).Made(1).(groups := c.groups + 1);
      ListStays(pat, c1);
      if ParseList(pat, c1).Done? {
        SkipOne(pat, ParseList(pat, c1).at.p);
      }
    }
  }

  lemma ClassStays(pat: string, c: Cursor)
    requires !LoneEscape(pat, c.p)
    ensures var r := ParseClass(pat, c);
      if r.Done? then !LoneEscape(pat, r.at.p) else r.error != PastEnd
  {
    hide LoneEscape, ParseMembers;
    SkipOne(pat, c.p);
    var c1 := (if At(pat, c.p) == '^' then c.Skip(1) else c).Made(1);
    MembersStay(pat, c1, NoneHeld, []);
    var r := ParseMembers(pat, c1, NoneHeld, []);
    if r.Done? {
      SkipOne(pat, r.at.p);
    }
  }

  lemma {:induction false} AtomStays(pat: string, c: Cursor)
    requires !LoneEscape(pat, c.p)
    ensures var r := ParseAtom(pat, c);
      if r.Done? then !LoneEscape(pat, r.at.p) else r.error != PastEnd
    decreases |pat| - c.p, 1
  {
    hide ParseClass, ParseList;
    match At(pat, c.p)
    case '(' => GroupStays(pat, c);
    case '[' => ClassStays(pat, c.Skip(1));
    case _ =>
  }

  lemma {:induction false} ElementStays(pat: string, c: Cursor)
    requires !LoneEscape(pat, c.p)
    ensures var r := ParseElement(pat, c);
      if r.Done? then !LoneEscape(pat, r.at.p) else r.error != PastEnd
    decreases |pat| - c.p, 2
  {
    AtomStays(pat, c);
    var a := ParseAtom(pat, c);
    if a.Done? {
      QuantifierStays(pat, a.at);
      var q := ParseQuantifier(pat, a.at);
      if q.Done? {
        var c3 := if q.value.Once? then q.at else q.at.Made(1);
        if !EndsChain(At(pat, c3.p)) {
          ElementStays(pat, c3);
        }
      }
    }
  }

  lemma {:induction false} ListStays(pat: string, c: Cursor)
    requires !LoneEscape(pat, c.p)
    ensures var r := ParseList(pat, c);
      if r.Done? then !LoneEscape(pat, r.at.p) else r.error != PastEnd
    decreases |pat| - c.p, 3
  {
    var c1 := if At(pat, c.p) == '^' then c.Skip(1).Made(1) else c;
    ElementStays(pat, c1);
    var e := ParseElement(pat, c1);
    if e.Done? && At(pat, e.at.p) == '|' {
      ListStays(pat, e.at.Skip(1).Made(1));
    }
  }

  /** A pattern that does not end in a lone backslash is never read past its end. */
  lemma NeverPastEnd(pat: string)
    requires '\0' !in pat && !LoneEscape(pat, 0)
    ensures ParsePattern(pat).Failed? ==> ParsePattern(pat).error != PastEnd
  {
    ListStays(pat, Cursor(0, 1, 1));
  }
}
