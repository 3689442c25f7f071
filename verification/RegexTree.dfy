/** Syntax trees of T-Rex patterns and the language each denotes. */
module RegexTree {
  import opened Chars

  predicate IsClassLetter(k: char) {
    k in "aAwWsSdDxXcCpPlu"
  }

  /** The predefined classes, as the matcher decides them. */
  predicate InNamedClass(k: char, c: char) {
    match k
    case 'a' => IsAlpha(c)
    case 'A' => !IsAlpha(c)
    case 'w' => IsAlnum(c) || c == '_'
    case 'W' => !IsAlnum(c) && c != '_'
    case 's' => IsSpace(c)
    case 'S' => !IsSpace(c)
    case 'd' => IsDigit(c)
    case 'D' => !IsDigit(c)
    case 'x' => IsXDigit(c)
    case 'X' => !IsXDigit(c)
    case 'c' => IsCntrl(c)
    case 'C' => !IsCntrl(c)
    case 'p' => IsPunct(c)
    case 'P' => !IsPunct(c)
    case 'l' => IsLower(c)
    case 'u' => IsUpper(c)
    case _ => false
  }

  /* ---- trees ---- */

  const UNBOUNDED := 0xFFFF

  datatype Op =
    | Char(c: char) | Dot | Bol | Eol | Boundary(kind: char)
    | NamedClass(kind: char) | Range(lo: char, hi: char) | Class | NegClass
    | Group(index: nat) | PlainGroup | Or | Greedy(min: nat, max: nat)

  /** A node with its two kinds of children and the node that follows it in its chain. */
  datatype Tree = Nil | Node(op: Op, left: Tree, right: Tree, next: Tree)

  function Size(t: Tree): nat {
    match t
    case Nil => 0
    case Node(_, l, r, n) => 1 + Size(l) + Size(r) + Size(n)
  }

  function Leaf(op: Op): Tree {
    Node(op, Nil, Nil, Nil)
  }

  /** What the compiler builds: operators have their operands, and a repeated node is alone in its chain. */
  predicate WellFormed(t: Tree) {
    match t
    case Nil => true
    case Node(op, l, r, n) =>
      && WellFormed(n) && WellFormed(l) && WellFormed(r)
      && (op.Greedy? ==> l.Node? && l.next.Nil? && op.min <= UNBOUNDED && op.max <= UNBOUNDED)
      && ((op.Group? || op.PlainGroup?) ==> l.Node?)
      && (op.Or? ==> l.Node? && r.Node?)
      && ((op.Class? || op.NegClass?) ==> l.Node?)
  }

  /** Operators that occur inside a class. */
  predicate AreMembers(ops: seq<Op>) {
    forall op :: op in ops ==> op.Char? || op.NamedClass? || op.Range?
  }

  /** A chain of nodes without children. */
  function ChainOf(ops: seq<Op>): Tree {
    if ops == [] then Nil else Node(ops[0], Nil, Nil, ChainOf(ops[1..]))
  }

  /* ---- languages ---- */

  /** Whether one of the members of a class, a chain, accepts the character. */
  predicate InMembers(m: Tree, c: char) {
    match m
    case Nil => false
    case Node(op, _, _, next) =>
      || (match op
          case Range(lo, hi) => lo <= c <= hi
          case NamedClass(k) => InNamedClass(k, c)
          case Char(d) => c == d
          case _ => false)
      || InMembers(next, c)
  }

  predicate Admits(n: nat, min: nat, max: nat) {
    n >= min && (max == UNBOUNDED || n <= max)
  }

  /** The node t, on its own, matches exactly text[i..j]. Word boundaries only assert that nothing is consumed. */
  ghost predicate Matches(t: Tree, text: string, i: nat, j: nat)
    decreases t, 0
  {
    t.Node? && i <= j <= |text| &&
    match t.op
    case Char(c) => j == i + 1 && text[i] == c
    case Dot => j == i + 1
    case Bol => i == j == 0
    case Eol => i == j == |text|
    case Boundary(_) => i == j
    case NamedClass(k) => j == i + 1 && InNamedClass(k, text[i])
    case Class => j == i + 1 && InMembers(t.left, text[i])
    case NegClass => j == i + 1 && !InMembers(t.left, text[i])
    case Group(_) => MatchesAll(t.left, text, i, j)
    case PlainGroup => MatchesAll(t.left, text, i, j)
    case Or => MatchesAll(t.left, text, i, j) || MatchesAll(t.right, text, i, j)
    case Greedy(min, max) => exists n: nat :: Admits(n, min, max) && Repeats(t.left, text, n, i, j)
    case Range(_, _) => false
  }

  /** The chain that starts at t matches exactly text[i..j]. */
  ghost predicate MatchesAll(t: Tree, text: string, i: nat, j: nat)
    decreases t, 1
  {
    if t.Nil? then i == j
    else exists k: nat :: Matches(t, text, i, k) && MatchesAll(t.next, text, k, j)
  }

  /** text[i..j] is n consecutive matches of t. */
  ghost predicate Repeats(t: Tree, text: string, n: nat, i: nat, j: nat)
    decreases t, n
  {
    if n == 0 then i == j
    else exists k: nat :: Repeats(t, text, n - 1, i, k) && Matches(t, text, k, j)
  }

  /** The language of a compiled pattern. */
  ghost predicate InLanguage(t: Tree, text: string) {
    Matches(t, text, 0, |text|)
  }
}
