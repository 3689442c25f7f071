/**
 The written form of every pattern tree: characters, classes, anchors, boundaries, groups, alternatives
 and all repetitions. The compiler reads it back to the same tree.
 */
module RegexRender {
  import opened Chars
  import opened RegexTree
  import opened RegexParser
  import opened RegexGreedy
  import Decimal

  /* ---- the trees that are written ---- */

  function OpsOf(m: Tree): seq<Op> {
    if m.Nil? then [] else [m.op] + OpsOf(m.next)
  }

  function Alone(t: Tree): Tree
    requires t.Node?
  {
    t.(next := Nil)
  }

  /** The nodes the compiler makes for a chain; a range takes two. */
  function Nodes(t: Tree): nat {
    match t
    case Nil => 0
    case Node(op, l, r, n) => (if op.Range? then 2 else 1) + Nodes(l) + Nodes(r) + Nodes(n)
  }

  /** The captures in a chain. */
  function Captures(t: Tree): nat {
    match t
    case Nil => 0
    case Node(op, l, r, n) => (if op.Group? then 1 else 0) + Captures(l) + Captures(r) + Captures(n)
  }

  predicate MembersOk(m: Tree) {
    m.Node? && ChainOf(OpsOf(m)) == m && forall op :: op in OpsOf(m) ==> IsMember(op)
  }

  /** What the grammar calls an atom, whatever follows it; captures are numbered from g on. */
  predicate AtomOk(t: Tree, g: nat)
    decreases t, 0
  {
    t.Node? && t.right.Nil? &&
    match t.op
    case Char(c) => t.left.Nil? && IsWritable(c)
    case NamedClass(k) => t.left.Nil? && IsClassLetter(k)
    case Boundary(k) => t.left.Nil? && (k == 'b' || k == 'B')
    case Dot => t.left.Nil?
    case Eol => t.left.Nil?
    case Class => MembersOk(t.left)
    case NegClass => MembersOk(t.left)
    case Group(i) => i == g && ListOk(t.left, g + 1)
    case PlainGroup => ListOk(t.left, g)
    case _ => false
  }

  /** An atom or a repeated atom. */
  predicate ElementOk(t: Tree, g: nat)
    decreases t, 1
  {
    t.Node? &&
    if t.op.Greedy? then
      && t.op.min <= UNBOUNDED && t.op.max <= UNBOUNDED && t.right.Nil?
      && t.left.Node? && t.left.next.Nil? && AtomOk(t.left, g)
    else AtomOk(t, g)
  }

  predicate ChainOk(t: Tree, g: nat)
    decreases t, 2
  {
    t.Node? && ElementOk(t, g) && (t.next.Node? ==> ChainOk(t.next, g + Captures(Alone(t))))
  }

  /** A chain, anchored or not. */
  predicate BranchOk(t: Tree, g: nat)
    decreases t, 3
  {
    t.Node? &&
    if t.op.Bol? then t.left.Nil? && t.right.Nil? && t.next.Node? && ChainOk(t.next, g) else ChainOk(t, g)
  }

  /** Alternatives. */
  predicate ListOk(t: Tree, g: nat)
    decreases t, 4
  {
    t.Node? &&
    if t.op.Or? then t.next.Nil? && BranchOk(t.left, g) && ListOk(t.right, g + Captures(t.left)) else BranchOk(t, g)
  }

  /* ---- how they are written ---- */

  function RenderQuantifier(min: nat, max: nat): string {
    if min == 0 && max == UNBOUNDED then "*"
    else if min == 1 && max == UNBOUNDED then "+"
    else if min == 0 && max == 1 then "?"
    else if min == max then "{" + Decimal.Digits(min) + "}"
    else if max == UNBOUNDED then "{" + Decimal.Digits(min) + ",}"
    else "{" + Decimal.Digits(min) + "," + Decimal.Digits(max) + "}"
  }

  function RenderAtom(t: Tree): string
    decreases t, 0
  {
    if t.Nil? then ""
    else
      match t.op
      case Char(c) => RenderChar(c)
      case NamedClass(k) => ['\\', k]
      case Boundary(k) => ['\\', k]
      case Dot => "."
      case Eol => "$"
      case Class => "[" + RenderMembers(OpsOf(t.left)) + "]"
      case NegClass => "[^" + RenderMembers(OpsOf(t.left)) + "]"
      case Group(_) => "(" + RenderList(t.left) + ")"
      case PlainGroup => "(?:" + RenderList(t.left) + ")"
      case _ => ""
  }

  function RenderElement(t: Tree): string
    decreases t, 1
  {
    if t.Node? && t.op.Greedy? then RenderAtom(t.left) + RenderQuantifier(t.op.min, t.op.max) else RenderAtom(t)
  }

  function RenderChain(t: Tree): string
    decreases t, 2
  {
    RenderElement(t) + if t.Node? && t.next.Node? then RenderChain(t.next) else ""
  }

  function RenderBranch(t: Tree): string
    decreases t, 3
  {
    if t.Node? && t.op.Bol? then "^" + RenderChain(t.next) else RenderChain(t)
  }

  function RenderList(t: Tree): string
    decreases t, 4
  {
    if t.Node? && t.op.Or? then RenderBranch(t.left) + "|" + RenderList(t.right) else RenderBranch(t)
  }

  /* ---- the ranges that come too late ---- */

  /** Whether the ranges of an atom pass the check when its first node has number n. */
  predicate AtomFit(t: Tree, n: nat)
    decreases t, 0
  {
    t.Node? ==>
      match t.op
      case Class => RangesFit(OpsOf(t.left), n + 1)
      case NegClass => RangesFit(OpsOf(t.left), n + 1)
      case Group(_) => ListFit(t.left, n + 1)
      case PlainGroup => ListFit(t.left, n + 1)
      case _ => true
  }

  predicate ElementFit(t: Tree, n: nat)
    decreases t, 1
  {
    if t.Node? && t.op.Greedy? then AtomFit(t.left, n) else AtomFit(t, n)
  }

  predicate ChainFit(t: Tree, n: nat)
    decreases t, 2
  {
    ElementFit(t, n) && (t.Node? && t.next.Node? ==> ChainFit(t.next, n + Nodes(Alone(t))))
  }

  predicate BranchFit(t: Tree, n: nat)
    decreases t, 3
  {
    if t.Node? && t.op.Bol? then ChainFit(t.next, n + 1) else ChainFit(t, n)
  }

  predicate ListFit(t: Tree, n: nat)
    decreases t, 4
  {
    if t.Node? && t.op.Or? then BranchFit(t.left, n) && ListFit(t.right, n + Nodes(t.left) + 1) else BranchFit(t, n)
  }

  /* ---- repetition bounds ---- */

  function DigitOf(c: char): nat
    requires IsDigit(c)
  {
    c as nat - '0' as nat
  }

  predicate AllDigits(s: string) {
    forall c :: c in s ==> IsDigit(c)
  }

  /** Reading digits from the left. */
  function Gather(ret: nat, s: string): nat
    requires AllDigits(s)
    decreases |s|
  {
    if s == "" then ret
    else
      assert s[0] in s && forall c :: c in s[1..] ==> c in s;
      Gather(ret * 10 + DigitOf(s[0]), s[1..])
  }

  lemma {:induction false} GatherLast(ret: nat, s: string, c: char)
    requires AllDigits(s) && IsDigit(c)
    ensures AllDigits(s + [c]) && Gather(ret, s + [c]) == Gather(ret, s) * 10 + DigitOf(c)
    decreases |s|
  {
    if s == "" {
      assert (s + [c])[1..] == "" && (s + [c])[0] == c;
    } else {
      assert s[0] in s && forall d :: d in s[1..] ==> d in s;
      GatherLast(ret * 10 + DigitOf(s[0]), s[1..], c);
      assert (s + [c])[1..] == s[1..] + [c] && (s + [c])[0] == s[0];
    }
  }

  lemma {:induction false} GatherDigits(n: nat)
    ensures AllDigits(Decimal.Digits(n)) && Decimal.Digits(n) != "" && Gather(0, Decimal.Digits(n)) == n
    ensures n < 100000 ==> |Decimal.Digits(n)| <= 5
  {
    if n < 10 {
      var none := "";
      GatherLast(0, none, Decimal.Digit(n));
      assert none + [Decimal.Digit(n)] == Decimal.Digits(n);
    } else {
      GatherDigits(n / 10);
      GatherLast(0, Decimal.Digits(n / 10), Decimal.Digit(n % 10));
      FewDigits(n);
    }
  }

  lemma FewDigits(n: nat)
    ensures n < 100000 ==> |Decimal.Digits(n)| <= 5
  {
    assert n < 10 ==> |Decimal.Digits(n)| == 1;
    if 10 <= n < 100000 { FewerDigits(n, 4); }
  }

  lemma FewerDigits(n: nat, k: nat)
    requires 1 <= k <= 4 && n < (if k == 4 then 100000 else if k == 3 then 10000 else if k == 2 then 1000 else 100)
    ensures |Decimal.Digits(n)| <= k + 1
    decreases k
  {
    if n >= 10 {
      if k > 1 { FewerDigits(n / 10, k - 1); } else { assert |Decimal.Digits(n / 10)| == 1; }
    }
  }

  /** How large the position counter may be for k more digits. */
  function Room(k: nat): nat {
    if k == 0 then MAX_POSITIONS else Room(k - 1) / 10
  }

  lemma {:induction false} DigitsRead(pat: string, c: Cursor, ret: nat, positions: nat, s: string, rest: string)
    requires Written(pat, c.p, s, rest) && AllDigits(s) && positions < Room(|s|) && (rest != "" ==> !IsDigit(rest[0]))
    ensures ParseDigits(pat, c, ret, positions) == Done(Gather(ret, s), c.Skip(|s|))
    decreases |s|
  {
    hide Written;
    AtStart(pat, c.p, s, rest);
    if s != "" {
      assert s[0] in s && (forall d :: d in s[1..] ==> d in s) && s == [s[0]] + s[1..];
      Split(pat, c.p, [s[0]], s[1..], rest);
      RoomLess(|s|);
      DigitsRead(pat, c.Skip(1), ret * 10 + DigitOf(s[0]), positions * 10, s[1..], rest);
    }
  }

  lemma RoomLess(k: nat)
    requires k > 0
    ensures Room(k) <= MAX_POSITIONS && (forall p: nat :: p < Room(k) ==> p * 10 < Room(k - 1))
    decreases k
  {
    if k > 1 { RoomLess(k - 1); }
  }

  lemma NumberRead(pat: string, c: Cursor, n: nat, rest: string)
    requires n <= UNBOUNDED && Written(pat, c.p, Decimal.Digits(n), rest) && (rest != "" ==> !IsDigit(rest[0]))
    ensures IsDigit(At(pat, c.p)) && ParseNumber(pat, c) == Done(n, c.Skip(|Decimal.Digits(n)|))
  {
    hide Written, ParseDigits, Decimal.Digits;
    var s := Decimal.Digits(n);
    GatherDigits(n);
    AtStart(pat, c.p, s, rest);
    assert s[0] in s && (forall d :: d in s[1..] ==> d in s) && s == [s[0]] + s[1..];
    Split(pat, c.p, [s[0]], s[1..], rest);
    RoomEnough(|s| - 1);
    DigitsRead(pat, c.Skip(1), DigitOf(s[0]), 10, s[1..], rest);
  }

  lemma RoomEnough(k: nat)
    requires k <= 4
    ensures 10 < Room(k)
  {
    assert Room(0) == 1_000_000_000 && Room(1) == 100_000_000 && Room(2) == 10_000_000 && Room(3) == 1_000_000;
  }

  lemma QuantifierRead(pat: string, c: Cursor, min: nat, max: nat, rest: string)
    requires min <= UNBOUNDED && max <= UNBOUNDED && Written(pat, c.p, RenderQuantifier(min, max), rest)
    ensures ParseQuantifier(pat, c) == Done(Between(min, max), c.Skip(|RenderQuantifier(min, max)|))
  {
    hide Written, ParseNumber, Decimal.Digits, ParseBraces;
    var s := RenderQuantifier(min, max);
    AtStart(pat, c.p, s, rest);
    if s[0] == '{' {
      BracesRead(pat, c, min, max, rest);
    }
  }

  lemma BracesStep(pat: string, c: Cursor, min: nat, c1: Cursor)
    requires IsDigit(At(pat, c.p)) && ParseNumber(pat, c) == Done(min, c1)
    ensures At(pat, c1.p) == '}' ==> ParseBraces(pat, c) == Done(Between(min, min), c1.Skip(1))
    ensures At(pat, c1.p) == ',' && At(pat, c1.p + 1) == '}' ==> ParseBraces(pat, c) == Done(Between(min, UNBOUNDED), c1.Skip(2))
    ensures At(pat, c1.p) == ',' && IsDigit(At(pat, c1.p + 1)) ==>
      var r := ParseNumber(pat, c1.Skip(1));
      r.Done? && At(pat, r.at.p) == '}' ==> ParseBraces(pat, c) == Done(Between(min, r.value), r.at.Skip(1))
  {
    hide ParseNumber, At;
  }

  /** What follows the first bound of a quantifier in braces. */
  function BoundEnd(min: nat, max: nat): string {
    if min == max then "}" else if max == UNBOUNDED then ",}" else "," + Decimal.Digits(max) + "}"
  }

  lemma BracesForm(min: nat, max: nat)
    requires RenderQuantifier(min, max)[0] == '{'
    ensures RenderQuantifier(min, max) == "{" + (Decimal.Digits(min) + BoundEnd(min, max))
    ensures BoundEnd(min, max)[0] == if min == max then '}' else ','
  {
    hide Decimal.Digits;
  }

  lemma BoundRead(pat: string, c: Cursor, min: nat, end: string, rest: string)
    requires min <= UNBOUNDED && end != "" && !IsDigit(end[0])
    requires Written(pat, c.p, "{" + (Decimal.Digits(min) + end), rest)
    ensures var k := |Decimal.Digits(min)|;
      && IsDigit(At(pat, c.p + 1)) && ParseNumber(pat, c.Skip(1)) == Done(min, c.Skip(1 + k))
      && Written(pat, c.p + 1 + k, end, rest) && At(pat, c.p + 1 + k) == end[0]
  {
    hide Written, ParseNumber, Decimal.Digits, At;
    var a := Decimal.Digits(min);
    Split(pat, c.p, "{", a + end, rest);
    Split(pat, c.p + 1, a, end, rest);
    NumberRead(pat, c.Skip(1), min, end + rest);
    AtStart(pat, c.p + 1 + |a|, end, rest);
  }

  lemma BracesRead(pat: string, c: Cursor, min: nat, max: nat, rest: string)
    requires min <= UNBOUNDED && max <= UNBOUNDED && Written(pat, c.p, RenderQuantifier(min, max), rest)
    requires RenderQuantifier(min, max)[0] == '{'
    ensures ParseBraces(pat, c.Skip(1)) == Done(Between(min, max), c.Skip(|RenderQuantifier(min, max)|))
  {
    hide Written, ParseNumber, Decimal.Digits, ParseBraces, At, RenderQuantifier;
    var k := |Decimal.Digits(min)|;
    BracesForm(min, max);
    BoundRead(pat, c, min, BoundEnd(min, max), rest);
    BracesStep(pat, c.Skip(1), min, c.Skip(1 + k));
    if min != max {
      if max == UNBOUNDED {
        assert ",}" == "," + "}";
        Split(pat, c.p + 1 + k, ",", "}", rest);
        AtStart(pat, c.p + 2 + k, "}", rest);
      } else {
        SecondRead(pat, c.Skip(1 + k), max, rest);
      }
    }
  }

  lemma SecondRead(pat: string, c: Cursor, max: nat, rest: string)
    requires max <= UNBOUNDED && Written(pat, c.p, "," + Decimal.Digits(max) + "}", rest)
    ensures At(pat, c.p) == ',' && IsDigit(At(pat, c.p + 1))
    ensures ParseNumber(pat, c.Skip(1)) == Done(max, c.Skip(1 + |Decimal.Digits(max)|))
    ensures At(pat, c.p + 1 + |Decimal.Digits(max)|) == '}'
  {
    hide Written, ParseNumber, Decimal.Digits, At;
    var b := Decimal.Digits(max);
    assert "," + b + "}" == "," + (b + "}");
    AtStart(pat, c.p, "," + b + "}", rest);
    Split(pat, c.p, ",", b + "}", rest);
    Split(pat, c.p + 1, b, "}", rest);
    NumberRead(pat, c.Skip(1), max, "}" + rest);
    AtStart(pat, c.p + 1 + |b|, "}", rest);
  }

  /* ---- the compiler reads back what is written ---- */

  lemma AloneCounts(t: Tree)
    requires t.Node?
    ensures Nodes(t) == Nodes(Alone(t)) + Nodes(t.next) && Captures(t) == Captures(Alone(t)) + Captures(t.next)
  {
  }

  lemma {:induction false} MembersCount(ops: seq<Op>)
    requires forall op :: op in ops ==> IsMember(op)
    ensures AreMembers(ops) && Nodes(ChainOf(ops)) == MemberNodes(ops) && Captures(ChainOf(ops)) == 0
    decreases |ops|
  {
    if ops != [] {
      assert ops[0] in ops && forall op :: op in ops[1..] ==> op in ops;
      MembersCount(ops[1..]);
    }
  }

  /** The characters an atom may be written to start with. */
  predicate Opens(c: char) {
    c != '\0' && c !in "*+?{|)^"
  }

  lemma SpecialOpens(c: char)
    requires Starts(c) && (c == '\\' || IsPrint(c))
    ensures Opens(c)
  {
  }

  lemma MarkOpens()
    ensures Opens('\\') && Opens('.') && Opens('$') && Opens('[') && Opens('(')
  {
  }

  lemma AtomStarts(t: Tree, g: nat)
    requires AtomOk(t, g)
    ensures RenderAtom(t) != "" && Opens(RenderAtom(t)[0])
  {
    hide RenderChar, RenderMembers, RenderList, ListOk, MembersOk, IsWritable, Opens;
    MarkOpens();
    if t.op.Char? {
      CharForms(t.op.c);
      CharStarts(t.op.c);
      SpecialOpens(RenderChar(t.op.c)[0]);
    }
  }

  lemma ChainStarts(t: Tree, g: nat)
    requires ChainOk(t, g)
    ensures RenderChain(t) != "" && Opens(RenderChain(t)[0])
  {
    hide AtomOk, RenderAtom, Opens, RenderQuantifier;
    AtomStarts(if t.op.Greedy? then t.left else t, g);
  }

  lemma DollarRead(pat: string, c: Cursor)
    requires At(pat, c.p) == '$'
    ensures ParseAtom(pat, c) == Done(Leaf(Eol), c.Skip(1).Made(1))
  {
    hide ParseChar, ParseClass, ParseList, At;
  }

  lemma BoundaryRead(pat: string, c: Cursor, k: char, rest: string)
    requires (k == 'b' || k == 'B') && Written(pat, c.p, ['\\', k], rest)
    ensures ParseChar(pat, c, false) == Done(Boundary(k), c.Skip(2).Made(1)) && Starts(At(pat, c.p))
  {
    Placed(pat, c.p, ['\\', k], rest);
    assert pat[c.p + 0] == '\\' && pat[c.p + 1] == k;
  }

  lemma GroupStep(pat: string, c: Cursor, plain: bool, c1: Cursor)
    requires At(pat, c.p) == '(' && (At(pat, c.p + 1) == '?' <==> plain) && (plain ==> At(pat, c.p + 2) == ':')
    requires c1 == if plain then Cursor(c.p + 3, c.nodes + 1, c.groups) else Cursor(c.p + 1, c.nodes + 1, c.groups + 1)
    ensures var r := ParseList(pat, c1);
      && (r.Failed? ==> ParseAtom(pat, c) == Failed(r.error))
      && (r.Done? && At(pat, r.at.p) == ')' ==>
            ParseAtom(pat, c) == Done(Node(if plain then PlainGroup else Group(c.groups), r.value, Nil, Nil), r.at.Skip(1)))
  {
    hide ParseList, At;
  }

  lemma ListStep(pat: string, c: Cursor, anchored: bool, c1: Cursor)
    requires At(pat, c.p) == '^' <==> anchored
    requires c1 == if anchored then Cursor(c.p + 1, c.nodes + 1, c.groups) else c
    ensures var r := ParseElement(pat, c1);
      && (r.Failed? ==> ParseList(pat, c) == Failed(r.error))
      && (r.Done? ==>
            var t := if anchored then Node(Bol, Nil, Nil, r.value) else r.value;
            if At(pat, r.at.p) != '|' then ParseList(pat, c) == Done(t, r.at)
            else
              var s := ParseList(pat, r.at.Skip(1).Made(1));
              ParseList(pat, c) == if s.Failed? then Failed(s.error) else Done(Node(Or, t, s.value, Nil), s.at))
  {
    hide ParseElement, At;
  }

  /** What follows a list or a chain inside a pattern. */
  predicate Closes(rest: string, inList: bool) {
    rest == "" || rest[0] == ')' || (inList && rest[0] == '|')
  }

  lemma {:induction false} AtomParsed(pat: string, c: Cursor, t: Tree, rest: string)
    requires AtomOk(t, c.groups) && Written(pat, c.p, RenderAtom(t), rest)
    ensures ParseAtom(pat, c) ==
      if !AtomFit(t, c.nodes) then Failed(InvalidRange)
      else Done(Alone(t), Cursor(c.p + |RenderAtom(t)|, c.nodes + Nodes(Alone(t)), c.groups + Captures(Alone(t))))
    decreases t, 0
  {
    hide ParseAtom, ParseClass, ParseChar, ParseEscape, ParseList, At, RenderChar, RenderMembers, RenderList, IsWritable, IsMember,
         RangesFit, MemberNodes, ChainOf, WellFormed, IsClassLetter, AreMembers, Starts, Written, ListOk, ListFit, MembersOk;
    AtomSteps(pat, c);
    AtStart(pat, c.p, RenderAtom(t), rest);
    match t.op
    case Char(d) =>
      CharStarts(d);
      CharRead(pat, c, d, rest, false);
    case NamedClass(k) => LetterRead(pat, c, k, rest, false);
    case Boundary(k) => BoundaryRead(pat, c, k, rest);
    case Dot =>
    case Eol => DollarRead(pat, c);
    case Class => MembersParsedBack(pat, c, t, rest);
    case NegClass => MembersParsedBack(pat, c, t, rest);
    case Group(_) => GroupParsed(pat, c, t, rest);
    case PlainGroup => GroupParsed(pat, c, t, rest);
  }

  lemma MembersParsedBack(pat: string, c: Cursor, t: Tree, rest: string)
    requires t.Node? && (t.op.Class? || t.op.NegClass?) && t.right.Nil? && MembersOk(t.left) && Written(pat, c.p, RenderAtom(t), rest)
    ensures ParseAtom(pat, c) ==
      if !RangesFit(OpsOf(t.left), c.nodes + 1) then Failed(InvalidRange)
      else Done(Alone(t), Cursor(c.p + |RenderAtom(t)|, c.nodes + Nodes(Alone(t)), c.groups + Captures(Alone(t))))
  {
    hide ParseAtom, ParseClass, RenderMembers, IsMember, RangesFit, MemberNodes, ChainOf, AreMembers, Written, At;
    var ops := OpsOf(t.left);
    MembersCount(ops);
    AtomSteps(pat, c);
    AtStart(pat, c.p, RenderAtom(t), rest);
    BracketRead(pat, c, t.op.NegClass?, ops, rest);
  }

  lemma {:induction false} GroupParsed(pat: string, c: Cursor, t: Tree, rest: string)
    requires t.Node? && (t.op.Group? || t.op.PlainGroup?) && AtomOk(t, c.groups) && Written(pat, c.p, RenderAtom(t), rest)
    ensures ParseAtom(pat, c) ==
      if !ListFit(t.left, c.nodes + 1) then Failed(InvalidRange)
      else Done(Alone(t), Cursor(c.p + |RenderAtom(t)|, c.nodes + Nodes(Alone(t)), c.groups + Captures(Alone(t))))
    decreases t.left, 5
  {
    hide ParseAtom, ParseList, At, RenderList, Written, ListOk, ListFit;
    var plain, inner := t.op.PlainGroup?, RenderList(t.left);
    var open := if plain then "(?:" else "(";
    var c1 := if plain then Cursor(c.p + 3, c.nodes + 1, c.groups) else Cursor(c.p + 1, c.nodes + 1, c.groups + 1);
    Split(pat, c.p, open + inner, ")", rest);
    Split(pat, c.p, open, inner, ")" + rest);
    AtStart(pat, c.p + |open + inner|, ")", rest);
    GroupOpens(pat, c.p, plain, t.left, c1.groups, ")" + rest);
    ListParsed(pat, c1, t.left, ")" + rest);
    GroupStep(pat, c, plain, c1);
  }

  lemma GroupOpens(pat: string, p: nat, plain: bool, t: Tree, g: nat, rest: string)
    requires ListOk(t, g) && Written(pat, p, if plain then "(?:" else "(", RenderList(t) + rest)
    ensures At(pat, p) == '(' && (At(pat, p + 1) == '?' <==> plain) && (plain ==> At(pat, p + 2) == ':')
  {
    hide RenderList, ListOk;
    var open := if plain then "(?:" else "(";
    ListStarts(t, g);
    Placed(pat, p, open, RenderList(t) + rest);
    AtStart(pat, p, open, RenderList(t) + rest);
    assert plain ==> pat[p + 1] == open[1] && pat[p + 2] == open[2];
  }

  lemma ListStarts(t: Tree, g: nat)
    requires ListOk(t, g)
    ensures RenderList(t) != "" && RenderList(t)[0] != '?'
  {
    hide RenderChain, ChainOk, Opens;
    var b := if t.op.Or? then t.left else t;
    assert BranchOk(b, g);
    ChainStarts(if b.op.Bol? then b.next else b, g);
    OpensNot();
  }

  lemma OpensNot()
    ensures !Opens('?') && !Opens('^') && !Opens('|') && !Opens(')') && !Opens('*') && !Opens('+') && !Opens('{') && !Opens('\0')
  {
  }

  /** An element, and where the rest of the chain is read from. */
  lemma {:induction false} ElementParsed(pat: string, c: Cursor, t: Tree, rest: string)
    requires ElementOk(t, c.groups) && Written(pat, c.p, RenderElement(t), rest)
    requires rest != "" ==> rest[0] !in "*+?{"
    ensures var c' := Cursor(c.p + |RenderElement(t)|, c.nodes + Nodes(Alone(t)), c.groups + Captures(Alone(t)));
      ParseElement(pat, c) ==
        if !ElementFit(t, c.nodes) then Failed(InvalidRange)
        else if EndsChain(At(pat, c'.p)) then Done(Alone(t), c')
        else
          match ParseElement(pat, c')
          case Failed(e) => Failed(e)
          case Done(next, c'') => Done(t.(next := next), c'')
    ensures At(pat, c.p + |RenderElement(t)|) == if rest == "" then '\0' else rest[0]
    decreases t, 1
  {
    hide ParseAtom, ParseQuantifier, ParseElement, RenderAtom, RenderQuantifier, AtomOk, AtomFit, At, Written, EndsChain;
    AtStart(pat, c.p, RenderElement(t), rest);
    if t.op.Greedy? {
      var a, q := t.left, RenderQuantifier(t.op.min, t.op.max);
      Split(pat, c.p, RenderAtom(a), q, rest);
      AtomParsed(pat, c, a, q + rest);
      if !AtomFit(a, c.nodes) {
        ElementFails(pat, c, InvalidRange);
      } else {
        var c1 := Cursor(c.p + |RenderAtom(a)|, c.nodes + Nodes(a), c.groups + Captures(a));
        QuantifierRead(pat, c1, t.op.min, t.op.max, rest);
        ElementStep(pat, c, a, c1, Between(t.op.min, t.op.max), c1.Skip(|q|));
      }
    } else {
      AtomParsed(pat, c, t, rest);
      if !AtomFit(t, c.nodes) {
        ElementFails(pat, c, InvalidRange);
      } else {
        var c1 := Cursor(c.p + |RenderAtom(t)|, c.nodes + Nodes(Alone(t)), c.groups + Captures(Alone(t)));
        NoQuantifier(pat, c1);
        ElementStep(pat, c, Alone(t), c1, Once, c1);
      }
    }
  }

  lemma {:induction false} ChainParsed(pat: string, c: Cursor, t: Tree, rest: string)
    requires ChainOk(t, c.groups) && Written(pat, c.p, RenderChain(t), rest) && Closes(rest, true)
    ensures ParseElement(pat, c) ==
      if !ChainFit(t, c.nodes) then Failed(InvalidRange)
      else Done(t, Cursor(c.p + |RenderChain(t)|, c.nodes + Nodes(t), c.groups + Captures(t)))
    decreases t, 2
  {
    hide ParseElement, RenderElement, ElementOk, ElementFit, At, Written, Opens, Nodes, Captures;
    var more := if t.next.Node? then RenderChain(t.next) else "";
    AloneCounts(t);
    NoCount();
    OpensNot();
    EndOfChain();
    Split(pat, c.p, RenderElement(t), more, rest);
    assert more + rest == rest || t.next.Node?;
    if t.next.Node? {
      ChainStarts(t.next, c.groups + Captures(Alone(t)));
    }
    NotQuantifier(more + rest);
    ElementParsed(pat, c, t, more + rest);
    if t.next.Node? {
      OpensContinues(more[0]);
      ChainParsed(pat, Cursor(c.p + |RenderElement(t)|, c.nodes + Nodes(Alone(t)), c.groups + Captures(Alone(t))), t.next, rest);
    }
  }

  lemma NoCount()
    ensures Nodes(Nil) == 0 && Captures(Nil) == 0
  {
  }

  lemma EndOfChain()
    ensures EndsChain('\0') && EndsChain(')') && EndsChain('|')
  {
  }

  lemma OpensContinues(c: char)
    requires Opens(c)
    ensures !EndsChain(c)
  {
  }

  lemma NotQuantifier(s: string)
    requires s == "" || Opens(s[0]) || s[0] == ')' || s[0] == '|'
    ensures s != "" ==> s[0] !in "*+?{"
  {
  }

  /** The first branch of a list. */
  lemma {:induction false} BranchParsed(pat: string, c: Cursor, t: Tree, rest: string)
    requires BranchOk(t, c.groups) && Written(pat, c.p, RenderBranch(t), rest) && Closes(rest, true)
    ensures At(pat, c.p) == '^' <==> t.op.Bol?
    ensures var c1 := if t.op.Bol? then Cursor(c.p + 1, c.nodes + 1, c.groups) else c;
      ParseElement(pat, c1) ==
        if !BranchFit(t, c.nodes) then Failed(InvalidRange)
        else Done(if t.op.Bol? then t.next else t, Cursor(c.p + |RenderBranch(t)|, c.nodes + Nodes(t), c.groups + Captures(t)))
    decreases t, 3
  {
    hide ParseElement, RenderChain, ChainOk, ChainFit, At, Written, Opens;
    OpensNot();
    AtStart(pat, c.p, RenderBranch(t), rest);
    if t.op.Bol? {
      Split(pat, c.p, "^", RenderChain(t.next), rest);
      ChainParsed(pat, Cursor(c.p + 1, c.nodes + 1, c.groups), t.next, rest);
    } else {
      ChainStarts(t, c.groups);
      ChainParsed(pat, c, t, rest);
    }
  }

  lemma {:induction false} ListParsed(pat: string, c: Cursor, t: Tree, rest: string)
    requires ListOk(t, c.groups) && Written(pat, c.p, RenderList(t), rest) && Closes(rest, false)
    ensures ParseList(pat, c) ==
      if !ListFit(t, c.nodes) then Failed(InvalidRange)
      else Done(t, Cursor(c.p + |RenderList(t)|, c.nodes + Nodes(t), c.groups + Captures(t)))
    decreases t, 4
  {
    hide ParseElement, ParseList, RenderBranch, ChainOk, BranchFit, At, Written, Nodes, Captures;
    var b := if t.op.Or? then t.left else t;
    var after := if t.op.Or? then "|" + RenderList(t.right) + rest else rest;
    var c1 := if b.op.Bol? then Cursor(c.p + 1, c.nodes + 1, c.groups) else c;
    var s := RenderBranch(b);
    if t.op.Or? {
      Split(pat, c.p, s + "|", RenderList(t.right), rest);
      Split(pat, c.p, s, "|", RenderList(t.right) + rest);
      assert "|" + (RenderList(t.right) + rest) == after;
    }
    AtStart(pat, c.p, s, after);
    BranchParsed(pat, c, b, after);
    ListStep(pat, c, b.op.Bol?, c1);
    BranchIs(b);
    OrCounts(t);
    if t.op.Or? && BranchFit(b, c.nodes) {
      ListParsed(pat, Cursor(c.p + |s| + 1, c.nodes + Nodes(b) + 1, c.groups + Captures(b)), t.right, rest);
    }
  }

  lemma OrCounts(t: Tree)
    requires t.Node?
    ensures t.op.Or? && t.next.Nil? ==>
      Nodes(t) == 1 + Nodes(t.left) + Nodes(t.right) && Captures(t) == Captures(t.left) + Captures(t.right)
  {
  }

  lemma BranchIs(b: Tree)
    requires b.Node?
    ensures forall g :: BranchOk(b, g) && b.op.Bol? ==> b == Node(Bol, Nil, Nil, b.next)
  {
  }

  /* ---- what is written never ends inside an escape ---- */

  lemma {:induction false} PlainWhole(s: string)
    requires '\\' !in s && '\0' !in s
    ensures Whole(s)
    decreases |s|
  {
    if s != "" {
      PlainWhole(s[1..]);
    }
  }

  lemma WholeQuantifier(min: nat, max: nat)
    ensures Whole(RenderQuantifier(min, max))
  {
    hide Decimal.Digits, Whole;
    GatherDigits(min);
    GatherDigits(max);
    PlainWhole(RenderQuantifier(min, max));
  }

  lemma WholeThree(a: string, b: string, c: string)
    requires Whole(a) && Whole(b) && Whole(c)
    ensures Whole(a + b + c)
  {
    hide Whole;
    WholeConcat(a, b);
    WholeConcat(a + b, c);
  }

  lemma WholeSigns()
    ensures Whole("") && Whole("[") && Whole("[^") && Whole("]") && Whole("(") && Whole("(?:") && Whole(")")
    ensures Whole(".") && Whole("$") && Whole("^") && Whole("|") && Whole("\\b") && Whole("\\B")
  {
    PlainWhole("[^");
    PlainWhole("(?:");
    assert "\\b"[2..] == "" && "\\B"[2..] == "";
  }

  lemma {:induction false} WholeAtom(t: Tree, g: nat)
    requires AtomOk(t, g)
    ensures Whole(RenderAtom(t))
    decreases t, 0
  {
    hide Whole, RenderChar, RenderMembers, RenderList, IsWritable, IsMember, IsClassLetter, ListOk, ChainOf;
    WholeSigns();
    match t.op
    case Char(c) => WholeChar(c);
    case NamedClass(k) => WholeName(k);
    case Boundary(k) => assert ['\\', k] == if k == 'b' then "\\b" else "\\B";
    case Dot =>
    case Eol =>
    case Class =>
      WholeMembers(OpsOf(t.left));
      WholeThree("[", RenderMembers(OpsOf(t.left)), "]");
    case NegClass =>
      WholeMembers(OpsOf(t.left));
      WholeThree("[^", RenderMembers(OpsOf(t.left)), "]");
    case Group(_) =>
      WholeList(t.left, g + 1);
      WholeThree("(", RenderList(t.left), ")");
    case PlainGroup =>
      WholeList(t.left, g);
      WholeThree("(?:", RenderList(t.left), ")");
  }

  lemma WholeName(k: char)
    requires IsClassLetter(k)
    ensures Whole(['\\', k])
  {
    hide RenderChar;
    WholeMember(NamedClass(k));
    assert RenderMember(NamedClass(k)) == ['\\', k];
  }

  lemma {:induction false} WholeChain(t: Tree, g: nat)
    requires ChainOk(t, g)
    ensures Whole(RenderChain(t))
    decreases t, 2
  {
    hide Whole, RenderAtom, AtomOk, RenderQuantifier;
    WholeSigns();
    if t.op.Greedy? {
      WholeAtom(t.left, g);
      WholeQuantifier(t.op.min, t.op.max);
      WholeConcat(RenderAtom(t.left), RenderQuantifier(t.op.min, t.op.max));
    } else {
      WholeAtom(t, g);
    }
    if t.next.Node? {
      WholeChain(t.next, g + Captures(Alone(t)));
      WholeConcat(RenderElement(t), RenderChain(t.next));
    } else {
      assert RenderElement(t) + "" == RenderElement(t);
    }
  }

  lemma {:induction false} WholeList(t: Tree, g: nat)
    requires ListOk(t, g)
    ensures Whole(RenderList(t))
    decreases t, 4
  {
    hide Whole, RenderChain, ChainOk;
    WholeSigns();
    var b := if t.op.Or? then t.left else t;
    if b.op.Bol? {
      WholeChain(b.next, g);
      WholeConcat("^", RenderChain(b.next));
    } else {
      WholeChain(b, g);
    }
    if t.op.Or? {
      WholeList(t.right, g + Captures(t.left));
      WholeThree(RenderBranch(b), "|", RenderList(t.right));
    }
  }

  /* ---- the whole pattern ---- */

  /**
   Compiling the written form of a tree gives the tree, inside the outermost capture, unless a range of a
   class comes too late in the pattern, and then it is refused. The pattern is never read past its end.
   */
  lemma CompileWritten(t: Tree)
    requires ListOk(t, 1)
    ensures '\0' !in RenderList(t) && !LoneEscape(RenderList(t), 0)
    ensures var r := ParsePattern(RenderList(t));
      if ListFit(t, 1) then r.Done? && r.value == Node(Group(0), t, Nil, Nil) else r == Failed(InvalidRange)
  {
    hide ListOk, ListFit, RenderList, ParseList, Written, At, Whole, LoneEscape;
    var pat := RenderList(t);
    WrittenWhole(pat);
    WholeList(t, 1);
    WholeEnds(pat, 0);
    ListParsed(pat, Cursor(0, 1, 1), t, "");
    AtStart(pat, 0, pat, "");
  }

  lemma WrittenWhole(pat: string)
    ensures Written(pat, 0, pat, "") && pat[0..] == pat
  {
    assert pat[0..] == pat == pat + "";
  }

  /* ---- token lists ---- */

  lemma {:induction false} OpsBack(ops: seq<Op>)
    ensures OpsOf(ChainOf(ops)) == ops
    decreases |ops|
  {
    if ops != [] {
      OpsBack(ops[1..]);
      assert ops == [ops[0]] + ops[1..];
    }
  }

  lemma TokenWritten(t: Token, next: Tree, g: nat, n: nat)
    requires IsToken(t)
    ensures var u := TokenTree(t, next);
      && ElementOk(u, g) && RenderElement(u) == RenderToken(t)
      && (ElementFit(u, n) <==> AtomFits(t, n))
      && Nodes(Alone(u)) == TokenNodes(t) && Captures(Alone(u)) == 0
  {
    hide AtomOk, AtomFit, RenderAtom, IsToken, AtomFits, RegexGreedy.RenderAtom, SetTree;
    if t.Lit? {
      LitWritten(t.c, next, g, n);
    } else {
      SetWritten(t.chars, g, n);
    }
  }

  lemma LitWritten(c: char, next: Tree, g: nat, n: nat)
    requires IsToken(Lit(c))
    ensures var u := Node(Char(c), Nil, Nil, next);
      AtomOk(u, g) && RenderAtom(u) == RegexGreedy.RenderAtom(Lit(c)) && AtomFit(u, n) && AtomFits(Lit(c), n)
      && AtomNodes(Lit(c)) == 1
  {
    hide RenderChar, IsWritable;
  }

  lemma SetWritten(cs: CharSet, g: nat, n: nat)
    requires IsToken(Star(cs))
    ensures var u := SetTree(cs);
      && AtomOk(u, g) && RenderAtom(u) == RegexGreedy.RenderAtom(Star(cs)) && (AtomFit(u, n) <==> AtomFits(Star(cs), n))
      && Nodes(u) == AtomNodes(Star(cs)) && Captures(u) == 0
  {
    hide RenderMembers, RangesFit, IsWritable, IsMember;
    match cs
    case Any =>
    case Named(_) =>
    case OneOf(ops) =>
      OpsBack(ops);
      MembersCount(ops);
    case NoneOf(ops) =>
      OpsBack(ops);
      MembersCount(ops);
  }

  lemma {:induction false} TokensWritten(ts: seq<Token>, g: nat, n: nat)
    requires ts != [] && forall t :: t in ts ==> IsToken(t)
    ensures var u := TreeOf(ts);
      ChainOk(u, g) && RenderChain(u) == Render(ts) && (ChainFit(u, n) <==> TokensFit(ts, n)) && !u.op.Bol? && !u.op.Or?
    decreases |ts|
  {
    hide IsToken, ElementOk, ElementFit, RenderElement, RenderToken, AtomFits, TokenNodes, Nodes, Captures;
    assert ts[0] in ts && forall t :: t in ts[1..] ==> t in ts;
    TokenWritten(ts[0], TreeOf(ts[1..]), g, n);
    if |ts| > 1 {
      TokensWritten(ts[1..], g, n + TokenNodes(ts[0]));
    } else {
      assert ts[1..] == [] && TokensFit([], n + TokenNodes(ts[0])) && Render([]) == "";
    }
  }

  /** Compiling a written token list gives its tree, unless a range comes too late in the pattern. */
  lemma CompileRendered(ts: seq<Token>)
    requires ts != [] && forall t :: t in ts ==> IsToken(t)
    ensures Render(ts) != "" && '\0' !in Render(ts) && !LoneEscape(Render(ts), 0)
    ensures var r := ParsePattern(Render(ts));
      if TokensFit(ts, 1) then r.Done? && r.value == PatternTree(ts) else r == Failed(InvalidRange)
  {
    hide IsToken, ChainOk, ChainFit, RenderChain, Render, TokensFit, ParsePattern, LoneEscape, Opens;
    TokensWritten(ts, 1, 1);
    ChainStarts(TreeOf(ts), 1);
    PlainList(TreeOf(ts), 1, 1);
    CompileWritten(TreeOf(ts));
  }

  /** A list without alternatives and anchor is a chain. */
  lemma PlainList(t: Tree, g: nat, n: nat)
    requires ChainOk(t, g) && !t.op.Bol? && !t.op.Or?
    ensures ListOk(t, g) && RenderList(t) == RenderChain(t) && (ListFit(t, n) <==> ChainFit(t, n))
  {
    assert BranchOk(t, g) && RenderBranch(t) == RenderChain(t) && (BranchFit(t, n) <==> ChainFit(t, n));
  }

  lemma {:induction false} NoRanges(ts: seq<Token>, n: nat)
    requires forall t :: t in ts ==> t.Lit? || t.chars.Any? || t.chars.Named?
    ensures TokensFit(ts, n)
    decreases |ts|
  {
    if ts != [] {
      assert ts[0] in ts;
      NoRanges(ts[1..], n + TokenNodes(ts[0]));
    }
  }

  lemma {:induction false} FitAfter(ts: seq<Token>, t: Token, n: nat)
    requires forall u :: u in ts ==> u.Lit?
    ensures TokensFit(ts + [t], n) <==> AtomFits(t, n + |ts|)
    decreases |ts|
  {
    hide RangesFit;
    if ts == [] {
      assert TokensFit([], n + TokenNodes(t)) && ([] + [t])[1..] == [];
    } else {
      assert ts[0] in ts && (forall u :: u in ts[1..] ==> u in ts);
      assert (ts + [t])[1..] == ts[1..] + [t];
      FitAfter(ts[1..], t, n + 1);
    }
  }

  /** A single range behind characters is read exactly as long as they are few enough. */
  lemma RangeAfter(ts: seq<Token>, lo: char, hi: char)
    requires (forall t :: t in ts ==> t.Lit? && IsToken(t)) && IsWritable(lo) && IsWritable(hi)
    ensures var t := Star(OneOf([Range(lo, hi)]));
      '\0' !in Render(ts + [t]) && (ParsePattern(Render(ts + [t])).Done? <==> |ts| + 2 <= RenderChar(hi)[0] as int)
  {
    hide Render, RenderChar, ParsePattern, TokensFit, IsWritable;
    var t := Star(OneOf([Range(lo, hi)]));
    FitAfter(ts, t, 1);
    CompileRendered(ts + [t]);
    assert [Range(lo, hi)][1..] == [] && RangesFit([], |ts| + 4);
  }
}
