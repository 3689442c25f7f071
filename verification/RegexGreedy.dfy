/**
 Patterns made of literal characters and starred sets, a set being the dot, a predefined class or a
 bracket class: how they are written, and what the compiler makes of them.
 */
module RegexGreedy {
  import opened Chars
  import opened RegexTree
  import opened RegexParser

  type ClassLetter = k: char | IsClassLetter(k) witness 'w'

  type Members = ops: seq<Op> | ops != [] && AreMembers(ops) witness [Char('a')]

  datatype CharSet = Any | Named(kind: ClassLetter) | OneOf(ops: Members) | NoneOf(ops: Members)

  datatype Token = Lit(c: char) | Star(chars: CharSet)

  /** Whether a set holds a character. The terminating zero is a character like any other here. */
  predicate In(cs: CharSet, c: char) {
    match cs
    case Any => true
    case Named(k) => InNamedClass(k, c)
    case OneOf(ops) => InMembers(ChainOf(ops), c)
    case NoneOf(ops) => !InMembers(ChainOf(ops), c)
  }

  /* ---- the tree of a token list ---- */

  const STAR := Greedy(0, UNBOUNDED)

  function SetTree(cs: CharSet): (t: Tree)
    ensures WellFormed(t) && t.Node? && t.next.Nil? && !t.op.Greedy?
  {
    match cs
    case Any => Leaf(Dot)
    case Named(k) => Leaf(NamedClass(k))
    case OneOf(ops) => ChainWellFormed(ops); Node(Class, ChainOf(ops), Nil, Nil)
    case NoneOf(ops) => ChainWellFormed(ops); Node(NegClass, ChainOf(ops), Nil, Nil)
  }

  function TokenTree(t: Token, next: Tree): Tree {
    match t
    case Lit(c) => Node(Char(c), Nil, Nil, next)
    case Star(cs) => Node(STAR, SetTree(cs), Nil, next)
  }

  function TreeOf(ts: seq<Token>): (t: Tree)
    ensures WellFormed(t) && (t.Node? <==> ts != [])
  {
    if ts == [] then Nil else TokenTree(ts[0], TreeOf(ts[1..]))
  }

  function PatternTree(ts: seq<Token>): Tree {
    Node(Group(0), TreeOf(ts), Nil, Nil)
  }

  /* ---- how it is written ---- */

  /** Characters with a meaning of their own somewhere in a pattern; they are written with a backslash. */
  predicate IsSpecial(c: char) {
    c in "\\([$.|)*+?{^]-"
  }

  /** The control characters that have an escape of their own, besides everything printable. */
  predicate IsWritable(c: char) {
    IsPrint(c) || '\t' <= c <= '\r'
  }

  function EscapeLetter(c: char): char {
    match c as int
    case 9 => 't'
    case 10 => 'n'
    case 11 => 'v'
    case 12 => 'f'
    case _ => 'r'
  }

  function RenderChar(c: char): (s: string)
    ensures |s| == 1 || |s| == 2
  {
    if '\t' <= c <= '\r' then ['\\', EscapeLetter(c)]
    else if IsSpecial(c) then ['\\', c]
    else [c]
  }

  predicate IsMember(op: Op) {
    match op
    case Char(c) => IsWritable(c)
    case NamedClass(k) => IsClassLetter(k)
    case Range(lo, hi) => IsWritable(lo) && IsWritable(hi)
    case _ => false
  }

  function RenderMember(op: Op): string {
    match op
    case Char(c) => RenderChar(c)
    case NamedClass(k) => ['\\', k]
    case Range(lo, hi) => RenderChar(lo) + "-" + RenderChar(hi)
    case _ => ""
  }

  function RenderMembers(ops: seq<Op>): string {
    if ops == [] then "" else RenderMember(ops[0]) + RenderMembers(ops[1..])
  }

  predicate IsToken(t: Token) {
    match t
    case Lit(c) => IsWritable(c)
    case Star(OneOf(ops)) => forall op :: op in ops ==> IsMember(op)
    case Star(NoneOf(ops)) => forall op :: op in ops ==> IsMember(op)
    case Star(_) => true
  }

  /** A token without its star. */
  function RenderAtom(t: Token): string {
    match t
    case Lit(c) => RenderChar(c)
    case Star(Any) => "."
    case Star(Named(k)) => ['\\', k]
    case Star(OneOf(ops)) => "[" + RenderMembers(ops) + "]"
    case Star(NoneOf(ops)) => "[^" + RenderMembers(ops) + "]"
  }

  function RenderToken(t: Token): string {
    if t.Lit? then RenderAtom(t) else RenderAtom(t) + "*"
  }

  function Render(ts: seq<Token>): string {
    if ts == [] then "" else RenderToken(ts[0]) + Render(ts[1..])
  }

  /* ---- the nodes the compiler makes, and the ranges it refuses ---- */

  function MemberNodes(ops: seq<Op>): nat {
    if ops == [] then 0 else (if ops[0].Range? then 2 else 1) + MemberNodes(ops[1..])
  }

  function AtomNodes(t: Token): nat {
    match t
    case Star(OneOf(ops)) => 1 + MemberNodes(ops)
    case Star(NoneOf(ops)) => 1 + MemberNodes(ops)
    case _ => 1
  }

  function TokenNodes(t: Token): nat {
    AtomNodes(t) + if t.Lit? then 0 else 1
  }

  /** For each range, the number of its first node is at most the code of what its upper end starts with. */
  predicate RangesFit(ops: seq<Op>, n: nat) {
    ops == [] ||
    (&& (ops[0].Range? ==> n <= RenderChar(ops[0].hi)[0] as int)
     && RangesFit(ops[1..], n + if ops[0].Range? then 2 else 1))
  }

  predicate AtomFits(t: Token, n: nat) {
    match t
    case Star(OneOf(ops)) => RangesFit(ops, n + 1)
    case Star(NoneOf(ops)) => RangesFit(ops, n + 1)
    case _ => true
  }

  predicate TokensFit(ts: seq<Token>, n: nat) {
    ts == [] || (AtomFits(ts[0], n) && TokensFit(ts[1..], n + TokenNodes(ts[0])))
  }

  /* ---- reading a character, a member, a class ---- */

  /** At position p the pattern reads s and then the rest. */
  predicate Written(pat: string, p: nat, s: string, rest: string) {
    p <= |pat| && pat[p..] == s + rest
  }

  lemma Placed(pat: string, p: nat, s: string, rest: string)
    requires Written(pat, p, s, rest)
    ensures p + |s| <= |pat| && pat[p + |s|..] == rest && forall i :: 0 <= i < |s| ==> pat[p + i] == s[i]
  {
    assert forall i :: 0 <= i < |s| ==> pat[p + i] == pat[p..][i] == s[i];
    assert forall i :: 0 <= i < |rest| ==> pat[p + |s| + i] == pat[p..][|s| + i] == rest[i];
    assert pat[p + |s|..] == rest;
  }

  lemma Split(pat: string, p: nat, s: string, t: string, rest: string)
    requires Written(pat, p, s + t, rest)
    ensures Written(pat, p, s, t + rest) && Written(pat, p + |s|, t, rest)
  {
    assert s + t + rest == s + (t + rest);
    Placed(pat, p, s, t + rest);
  }

  lemma AtStart(pat: string, p: nat, s: string, rest: string)
    requires Written(pat, p, s, rest)
    ensures p + |s| <= |pat|
    ensures s != "" ==> At(pat, p) == s[0]
    ensures At(pat, p + |s|) == if rest == "" then '\0' else rest[0]
  {
    Placed(pat, p, s, rest);
    assert s != "" ==> pat[p + 0] == s[0];
  }

  lemma SpecialIsPunct(c: char)
    requires IsSpecial(c)
    ensures IsPunct(c)
  {
  }

  lemma LettersAreAlpha(c: char)
    requires IsClassLetter(c) || c == 'b' || c == 'B' || Escaped(c) != c
    ensures IsAlpha(c)
  {
  }

  lemma ControlForm(c: char)
    requires '\t' <= c <= '\r'
    ensures Escaped(EscapeLetter(c)) == c && EscapeLetter(c) in "tnvfr"
  {
  }

  lemma ControlLetter(c: char)
    requires c in "tnvfr"
    ensures !IsClassLetter(c) && c != 'b' && c != 'B'
  {
  }

  /** A character is written as itself or as a backslash and a letter that stands for it. */
  lemma CharForms(d: char)
    requires IsWritable(d)
    ensures var s := RenderChar(d);
      if |s| == 1 then s[0] == d && IsPrint(d) && !IsSpecial(d)
      else s[0] == '\\' && Escaped(s[1]) == d && !IsClassLetter(s[1]) && s[1] != 'b' && s[1] != 'B'
  {
    hide IsSpecial, IsClassLetter, Escaped, EscapeLetter;
    if '\t' <= d <= '\r' {
      ControlForm(d);
      ControlLetter(EscapeLetter(d));
    } else if IsSpecial(d) {
      SpecialIsPunct(d);
      if IsClassLetter(d) || d == 'b' || d == 'B' || Escaped(d) != d {
        LettersAreAlpha(d);
      }
    }
  }

  lemma CharRead(pat: string, c: Cursor, d: char, rest: string, inClass: bool)
    requires IsWritable(d) && Written(pat, c.p, RenderChar(d), rest)
    ensures ParseChar(pat, c, inClass) == Done(Char(d), Cursor(c.p + |RenderChar(d)|, c.nodes + 1, c.groups))
    ensures ParseEscape(pat, c) == Done(d, Cursor(c.p + |RenderChar(d)|, c.nodes, c.groups))
    ensures At(pat, c.p) == RenderChar(d)[0]
  {
    hide RenderChar, IsWritable, IsClassLetter, Escaped;
    Placed(pat, c.p, RenderChar(d), rest);
    CharForms(d);
    assert pat[c.p + 0] == RenderChar(d)[0];
    if |RenderChar(d)| == 2 {
      assert pat[c.p + 1] == RenderChar(d)[1];
    }
  }

  /** What a character or an escape may start with, in a class or outside. */
  predicate Starts(c: char) {
    c == '\\' || !IsSpecial(c)
  }

  lemma CharStarts(d: char)
    requires IsWritable(d)
    ensures Starts(RenderChar(d)[0])
  {
    CharForms(d);
  }

  lemma LetterRead(pat: string, c: Cursor, k: char, rest: string, inClass: bool)
    requires IsClassLetter(k) && Written(pat, c.p, ['\\', k], rest)
    ensures ParseChar(pat, c, inClass) == Done(NamedClass(k), Cursor(c.p + 2, c.nodes + 1, c.groups))
    ensures Starts(At(pat, c.p))
  {
    Placed(pat, c.p, ['\\', k], rest);
    assert pat[c.p + 0] == '\\' && pat[c.p + 1] == k;
  }

  lemma EnterMore(members: seq<Op>, held: Held, op: Op, id: nat, ops: seq<Op>)
    requires AreMembers(members) && (held.Holding? ==> held.op.Char? || held.op.NamedClass?)
    ensures AreMembers(Enter(members, held))
    ensures Enter(Enter(members, held), Holding(op, id)) + ops == Enter(members, held) + ([op] + ops)
    ensures Enter(Enter(members, held) + [op], NoneHeld) + ops == Enter(members, held) + ([op] + ops)
  {
  }

  /** What reading members gives. */
  function MembersParsed(c: Cursor, p: nat, before: seq<Op>, ops: seq<Op>): Parse<seq<Op>> {
    if RangesFit(ops, c.nodes) then Done(before + ops, Cursor(p, c.nodes + MemberNodes(ops), c.groups)) else Failed(InvalidRange)
  }

  lemma {:induction false} MembersRead(pat: string, c: Cursor, held: Held, members: seq<Op>, ops: seq<Op>, rest: string)
    requires AreMembers(members) && (held.Holding? ==> held.op.Char? || held.op.NamedClass?)
    requires (forall op :: op in ops ==> IsMember(op)) && Written(pat, c.p, RenderMembers(ops), "]" + rest)
    ensures ParseMembers(pat, c, held, members) == MembersParsed(c, c.p + |RenderMembers(ops)|, Enter(members, held), ops)
    decreases |ops|
  {
    hide ParseMembers, RenderMember, ParseChar, ParseEscape, RenderChar, IsMember, Enter, Written, At, AreMembers;
    if ops == [] {
      AtStart(pat, c.p, "", "]" + rest);
      MembersEnd(pat, c, held, members);
      assert Enter(members, held) + ops == Enter(members, held);
    } else {
      var op := ops[0];
      assert ops[0] in ops && ops == [op] + ops[1..];
      Split(pat, c.p, RenderMember(op), RenderMembers(ops[1..]), "]" + rest);
      EnterMore(members, held, op, c.nodes, ops[1..]);
      if op.Range? {
        RangeRead(pat, c, held, members, op.lo, op.hi, RenderMembers(ops[1..]) + ("]" + rest));
        if c.nodes <= RenderChar(op.hi)[0] as int {
          var c' := Cursor(c.p + |RenderMember(op)|, c.nodes + 2, c.groups);
          MembersRead(pat, c', NoneHeld, Enter(members, held) + [op], ops[1..], rest);
        }
      } else {
        SingleRead(pat, c, held, members, op, RenderMembers(ops[1..]) + ("]" + rest));
        var c' := Cursor(c.p + |RenderMember(op)|, c.nodes + 1, c.groups);
        MembersRead(pat, c', Holding(op, c.nodes), Enter(members, held), ops[1..], rest);
      }
    }
  }

  lemma MembersEnd(pat: string, c: Cursor, held: Held, members: seq<Op>)
    requires AreMembers(members) && (held.Holding? ==> held.op.Char? || held.op.NamedClass?) && At(pat, c.p) == ']'
    ensures ParseMembers(pat, c, held, members) == Done(Enter(members, held), c)
  {
  }

  lemma MemberStep(pat: string, c: Cursor, held: Held, members: seq<Op>, op: Op, c': Cursor)
    requires AreMembers(members) && (held.Holding? ==> held.op.Char? || held.op.NamedClass?)
    requires Starts(At(pat, c.p)) && ParseChar(pat, c, true) == Done(op, c')
    ensures AreMembers(Enter(members, held)) && (op.Char? || op.NamedClass?)
    ensures ParseMembers(pat, c, held, members) == ParseMembers(pat, c', Holding(op, c.nodes), Enter(members, held))
  {
    hide ParseChar, At;
  }

  lemma SingleRead(pat: string, c: Cursor, held: Held, members: seq<Op>, op: Op, more: string)
    requires AreMembers(members) && (held.Holding? ==> held.op.Char? || held.op.NamedClass?)
    requires IsMember(op) && !op.Range? && Written(pat, c.p, RenderMember(op), more)
    ensures op.Char? || op.NamedClass?
    ensures AreMembers(Enter(members, held))
    ensures ParseMembers(pat, c, held, members)
         == ParseMembers(pat, Cursor(c.p + |RenderMember(op)|, c.nodes + 1, c.groups), Holding(op, c.nodes), Enter(members, held))
  {
    hide RenderChar, ParseChar, ParseMembers, ParseEscape, IsWritable, IsClassLetter, AreMembers, Enter, At, Starts, Written;
    if op.Char? {
      CharStarts(op.c);
      CharRead(pat, c, op.c, more, true);
    } else {
      LetterRead(pat, c, op.kind, more, true);
    }
    MemberStep(pat, c, held, members, op, Cursor(c.p + |RenderMember(op)|, c.nodes + 1, c.groups));
  }

  lemma RangeRead(pat: string, c: Cursor, held: Held, members: seq<Op>, lo: char, hi: char, more: string)
    requires AreMembers(members) && (held.Holding? ==> held.op.Char? || held.op.NamedClass?)
    requires IsMember(Range(lo, hi)) && Written(pat, c.p, RenderMember(Range(lo, hi)), more)
    ensures AreMembers(Enter(members, held) + [Range(lo, hi)])
    ensures ParseMembers(pat, c, held, members) ==
      if c.nodes > RenderChar(hi)[0] as int then Failed(InvalidRange)
      else ParseMembers(pat, Cursor(c.p + |RenderMember(Range(lo, hi))|, c.nodes + 2, c.groups), NoneHeld,
                        Enter(members, held) + [Range(lo, hi)])
  {
    hide *;
    RangeForm(lo, hi);
    var l, h := RenderChar(lo), RenderChar(hi);
    Split(pat, c.p, l + "-", h, more);
    Split(pat, c.p, l, "-", h + more);
    AtStart(pat, c.p + |l|, "-", h + more);
    SingleRead(pat, c, held, members, Char(lo), "-" + (h + more));
    var c1 := Cursor(c.p + |l|, c.nodes + 1, c.groups);
    var c2 := Cursor(c.p + |l| + 1, c.nodes + 2, c.groups);
    CharRead(pat, c2, hi, more, true);
    HyphenRead(pat, c1, lo, c.nodes, hi, c2, Enter(members, held));
  }

  lemma RangeForm(lo: char, hi: char)
    ensures RenderMember(Range(lo, hi)) == RenderChar(lo) + "-" + RenderChar(hi) && RenderMember(Char(lo)) == RenderChar(lo)
    ensures IsMember(Range(lo, hi)) ==> IsMember(Char(lo)) && IsWritable(hi)
  {
  }

  lemma HyphenRead(pat: string, c: Cursor, lo: char, id: nat, hi: char, c': Cursor, members: seq<Op>)
    requires AreMembers(members) && At(pat, c.p) == '-' && c' == Cursor(c.p + 1, c.nodes + 1, c.groups)
    requires ParseEscape(pat, c').Done? && ParseEscape(pat, c').value == hi
    ensures AreMembers(members + [Range(lo, hi)])
    ensures ParseMembers(pat, c, Holding(Char(lo), id), members) ==
      if id > At(pat, c'.p) as int then Failed(InvalidRange)
      else ParseMembers(pat, ParseEscape(pat, c').at, NoneHeld, members + [Range(lo, hi)])
  {
    hide ParseEscape, ParseChar, At;
  }

  lemma MembersStart(ops: seq<Op>)
    requires ops != [] && forall op :: op in ops ==> IsMember(op)
    ensures RenderMembers(ops) != "" && RenderMembers(ops)[0] != '^' && RenderMembers(ops)[0] != ']'
  {
    assert ops[0] in ops;
    assert RenderMembers(ops)[0] == RenderMember(ops[0])[0];
  }

  lemma ClassStep(pat: string, c: Cursor, neg: bool, c1: Cursor)
    requires At(pat, c.p) == '^' <==> neg
    requires c1 == Cursor(c.p + (if neg then 1 else 0), c.nodes + 1, c.groups) && At(pat, c1.p) != ']'
    ensures var r := ParseMembers(pat, c1, NoneHeld, []);
      && (r.Failed? ==> ParseClass(pat, c) == Failed(r.error))
      && (r.Done? && At(pat, r.at.p) == ']' ==>
            ParseClass(pat, c) == Done(Node(if neg then NegClass else Class, ChainOf(r.value), Nil, Nil), r.at.Skip(1)))
  {
    hide ParseMembers, At, ChainOf;
  }

  /** A bracket class, after its opening bracket. */
  lemma ClassRead(pat: string, c: Cursor, neg: bool, ops: Members, rest: string)
    requires (forall op :: op in ops ==> IsMember(op))
    requires Written(pat, c.p, (if neg then "^" else "") + RenderMembers(ops) + "]", rest)
    ensures ParseClass(pat, c) ==
      if !RangesFit(ops, c.nodes + 1) then Failed(InvalidRange)
      else Done(Node(if neg then NegClass else Class, ChainOf(ops), Nil, Nil),
                Cursor(c.p + |RenderMembers(ops)| + (if neg then 2 else 1), c.nodes + 1 + MemberNodes(ops), c.groups))
  {
    hide ParseMembers, ParseClass, RenderMembers, IsMember, RangesFit, MemberNodes, ChainOf, At, Written;
    var caret, m := if neg then "^" else "", RenderMembers(ops);
    MembersStart(ops);
    Split(pat, c.p, caret + m, "]", rest);
    Split(pat, c.p, caret, m, "]" + rest);
    AtStart(pat, c.p, caret, m + ("]" + rest));
    AtStart(pat, c.p + |caret|, m, "]" + rest);
    AtStart(pat, c.p + |caret + m|, "]", rest);
    var c1 := Cursor(c.p + |caret|, c.nodes + 1, c.groups);
    MembersRead(pat, c1, NoneHeld, [], ops, rest);
    ClassStep(pat, c, neg, c1);
    assert Enter([], NoneHeld) + ops == ops;
  }

  /* ---- reading tokens ---- */

  lemma AtomSteps(pat: string, c: Cursor)
    ensures Starts(At(pat, c.p)) && ParseChar(pat, c, false).Done? ==>
      ParseAtom(pat, c) == Done(Leaf(ParseChar(pat, c, false).value), ParseChar(pat, c, false).at)
    ensures At(pat, c.p) == '[' ==> ParseAtom(pat, c) == ParseClass(pat, c.Skip(1))
    ensures At(pat, c.p) == '.' ==> ParseAtom(pat, c) == Done(Leaf(Dot), c.Skip(1).Made(1))
  {
    hide ParseChar, ParseClass, ParseList, At;
  }

  lemma BracketRead(pat: string, c: Cursor, neg: bool, ops: Members, rest: string)
    requires (forall op :: op in ops ==> IsMember(op))
    requires Written(pat, c.p, (if neg then "[^" else "[") + RenderMembers(ops) + "]", rest)
    ensures ParseClass(pat, c.Skip(1)) ==
      if !RangesFit(ops, c.nodes + 1) then Failed(InvalidRange)
      else Done(Node(if neg then NegClass else Class, ChainOf(ops), Nil, Nil),
                Cursor(c.p + |RenderMembers(ops)| + (if neg then 3 else 2), c.nodes + 1 + MemberNodes(ops), c.groups))
  {
    hide ParseClass, RenderMembers, IsMember, RangesFit, MemberNodes, Written;
    var caret := if neg then "^" else "";
    assert (if neg then "[^" else "[") + RenderMembers(ops) + "]" == "[" + (caret + RenderMembers(ops) + "]");
    Split(pat, c.p, "[", caret + RenderMembers(ops) + "]", rest);
    ClassRead(pat, c.Skip(1), neg, ops, rest);
  }

  lemma NoQuantifier(pat: string, c: Cursor)
    requires At(pat, c.p) !in "*+?{"
    ensures ParseQuantifier(pat, c) == Done(Once, c)
  {
  }

  /** One step of reading a chain: an atom and its quantifier, then what the rest gives. */
  lemma ElementStep(pat: string, c: Cursor, atom: Tree, c1: Cursor, q: Quantifier, c2: Cursor)
    requires ParseAtom(pat, c) == Done(atom, c1) && ParseQuantifier(pat, c1) == Done(q, c2)
    ensures var t := if q.Once? then atom else Node(Greedy(q.min, q.max), atom, Nil, Nil);
      var c3 := if q.Once? then c2 else c2.Made(1);
      ParseElement(pat, c) ==
        if EndsChain(At(pat, c3.p)) then Done(t, c3)
        else
          match ParseElement(pat, c3)
          case Failed(e) => Failed(e)
          case Done(rest, c4) => Done(t.(next := rest), c4)
  {
    hide ParseAtom, ParseQuantifier, At, EndsChain, WellFormed;
  }

  lemma ElementFails(pat: string, c: Cursor, e: Error)
    requires ParseAtom(pat, c) == Failed(e)
    ensures ParseElement(pat, c) == Failed(e)
  {
    hide ParseAtom;
  }

  /* ---- what is written never ends inside an escape ---- */

  /** Made of single characters and escaped pairs, none of them the terminating zero. */
  predicate Whole(s: string) {
    s == "" ||
    (s[0] != '\0' && if s[0] != '\\' then Whole(s[1..]) else |s| >= 2 && s[1] != '\0' && Whole(s[2..]))
  }

  lemma WholeHead(s: string)
    requires s != ""
    ensures s[0] != '\\' ==> (Whole(s) <==> s[0] != '\0' && Whole(s[1..]))
    ensures s[0] == '\\' ==> (Whole(s) <==> |s| >= 2 && s[1] != '\0' && Whole(s[2..]))
  {
  }

  lemma {:induction false} WholeConcat(a: string, b: string)
    requires Whole(a) && Whole(b)
    ensures Whole(a + b)
    decreases |a|
  {
    hide Whole;
    if a == "" {
      assert a + b == b;
    } else {
      WholeHead(a);
      WholeHead(a + b);
      if a[0] == '\\' {
        assert (a + b)[2..] == a[2..] + b;
        WholeConcat(a[2..], b);
      } else {
        assert (a + b)[1..] == a[1..] + b;
        WholeConcat(a[1..], b);
      }
    }
  }

  lemma {:induction false} WholeEnds(pat: string, p: nat)
    requires p <= |pat| && Whole(pat[p..])
    ensures !LoneEscape(pat, p) && '\0' !in pat[p..]
    decreases |pat| - p
  {
    if p < |pat| {
      var k := if pat[p] == '\\' then 2 else 1;
      assert pat[p..][k..] == pat[p + k..];
      WholeEnds(pat, p + k);
      assert pat[p..] == pat[p..][..k] + pat[p + k..];
    }
  }

  lemma WholeChar(c: char)
    requires IsWritable(c)
    ensures Whole(RenderChar(c))
  {
  }

  lemma WholeMember(op: Op)
    requires IsMember(op)
    ensures Whole(RenderMember(op))
  {
    hide RenderChar, IsWritable;
    match op
    case Char(c) => WholeChar(c);
    case NamedClass(k) => assert Whole(['\\', k]);
    case Range(lo, hi) =>
      WholeChar(lo);
      WholeChar(hi);
      WholeConcat(RenderChar(lo), "-");
      WholeConcat(RenderChar(lo) + "-", RenderChar(hi));
  }

  lemma {:induction false} WholeMembers(ops: seq<Op>)
    requires forall op :: op in ops ==> IsMember(op)
    ensures Whole(RenderMembers(ops))
  {
    hide RenderMember, IsMember, Whole;
    if ops != [] {
      assert ops[0] in ops;
      WholeMember(ops[0]);
      WholeMembers(ops[1..]);
      WholeConcat(RenderMember(ops[0]), RenderMembers(ops[1..]));
    } else {
      WholeNothing();
    }
  }

  lemma WholeNothing()
    ensures Whole("")
  {
  }
}
