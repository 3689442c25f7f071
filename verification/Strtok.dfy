/** The C library's strtok, called with a single space as the delimiter set, and the fields it finds. */
module Strtok {
  import opened Wrappers
  import opened MessagePatterns

  /** What is left once leading spaces are skipped. */
  function SkipSpaces(s: string): (r: string)
    ensures r != "" ==> r[0] != ' '
  {
    if s != "" && s[0] == ' ' then SkipSpaces(s[1..]) else s
  }

  /** One call: the token if there is one, and what remains for the next call. */
  function Next(s: string): (Option<string>, string) {
    var r := SkipSpaces(s);
    var k := FirstSpace(r);
    if r == "" then (None, "") else (Some(r[..k]), if k < |r| then r[k + 1..] else "")
  }

  /** What remains after n calls. */
  function RestAfter(s: string, n: nat): string
    decreases n
  {
    if n == 0 then s else RestAfter(Next(s).1, n - 1)
  }

  /** What the call number n returns, counting from zero. */
  function Token(s: string, n: nat): Option<string> {
    Next(RestAfter(s, n)).0
  }

  lemma {:induction false} OneMore(s: string, n: nat)
    ensures RestAfter(s, n + 1) == Next(RestAfter(s, n)).1
    decreases n
  {
    if n > 0 {
      OneMore(Next(s).1, n - 1);
    }
  }

  /** The string being split and the saved position in it; the number of calls so far says what is left. */
  class Tokenizer {
    const text: string
    var pos: nat
    ghost var calls: nat

    constructor (s: string)
      ensures text == s && calls == 0 && Valid()
    {
      text, pos, calls := s, 0, 0;
    }

    ghost predicate Valid()
      reads this
    {
      pos <= |text| && text[pos..] == RestAfter(text, calls)
    }

    method Skip()
      requires pos <= |text|
      modifies this`pos
      ensures pos <= |text| && text[pos..] == SkipSpaces(text[old(pos)..])
    {
      while pos < |text| && text[pos] == ' '
        invariant pos <= |text| && SkipSpaces(text[pos..]) == SkipSpaces(text[old(pos)..])
        decreases |text| - pos
      {
        assert text[pos..][1..] == text[pos + 1..];
        pos := pos + 1;
      }
    }

    method Scan()
      requires pos <= |text|
      modifies this`pos
      ensures pos <= |text| && pos == old(pos) + FirstSpace(text[old(pos)..])
    {
      while pos < |text| && text[pos] != ' '
        invariant pos <= |text| && pos + FirstSpace(text[pos..]) == old(pos) + FirstSpace(text[old(pos)..])
        decreases |text| - pos
      {
        assert text[pos..][1..] == text[pos + 1..];
        pos := pos + 1;
      }
    }

    /** strtok(NULL, " "). */
    method Take() returns (t: Option<string>)
      requires Valid()
      modifies this
      ensures Valid() && calls == old(calls) + 1 && t == Token(text, old(calls))
    {
      hide FirstSpace, SkipSpaces, RestAfter;
      OneMore(text, calls);
      Skip();
      if pos == |text| {
        calls := calls + 1;
        return None;
      }
      var start := pos;
      Scan();
      t := Some(text[start..pos]);
      assert text[start..][..pos - start] == text[start..pos];
      if pos < |text| {
        assert text[start..][pos - start + 1..] == text[pos + 1..];
        pos := pos + 1;
      }
      calls := calls + 1;
    }

    /** strtok(NULL, ""): everything that is left. */
    method TakeAll() returns (t: Option<string>)
      requires Valid()
      modifies this
      ensures t == if RestAfter(text, old(calls)) == "" then None else Some(RestAfter(text, old(calls)))
    {
      t := if pos == |text| then None else Some(text[pos..]);
      pos := |text|;
    }
  }

  /* ---- tokens of joined fields ---- */

  /** Strings separated by single spaces. */
  function Join(ss: seq<string>): string
    requires ss != []
  {
    if |ss| == 1 then ss[0] else ss[0] + " " + Join(ss[1..])
  }

  predicate IsField(s: string) {
    s != "" && ' ' !in s
  }

  lemma FirstOfJoin(s: string, rest: string)
    requires ' ' !in s
    ensures var k := FirstSpace(s + " " + rest);
      k == |s| && (s + " " + rest)[..k] == s && (s + " " + rest)[k + 1..] == rest
    ensures FirstSpace(s) == |s|
  {
    var t := s + " " + rest;
    var k := FirstSpace(t);
    assert t[|s|] == ' ' && forall i :: 0 <= i < |s| ==> t[i] == s[i];
    assert s[..|s|] == s;
  }

  /** Splitting undoes joining, as long as the fields taken are not empty. */
  lemma {:induction false} TokenOfJoin(ss: seq<string>, n: nat)
    requires n < |ss| && forall i :: 0 <= i < n ==> IsField(ss[i])
    ensures RestAfter(Join(ss), n) == Join(ss[n..])
    ensures IsField(ss[n]) ==> Token(Join(ss), n) == Some(ss[n])
    decreases n
  {
    if n == 0 {
      assert ss[0..] == ss;
      if IsField(ss[0]) {
        FirstOfJoin(ss[0], if |ss| > 1 then Join(ss[1..]) else "");
        assert ss[0][..|ss[0]|] == ss[0];
      }
    } else {
      assert IsField(ss[0]);
      FirstOfJoin(ss[0], Join(ss[1..]));
      TokenOfJoin(ss[1..], n - 1);
      assert ss[1..][n - 1..] == ss[n..];
    }
  }
}
