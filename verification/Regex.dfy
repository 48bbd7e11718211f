/** The regular-expression engine of libc/regex.c: pointers into the pattern and the text are indices. */
module Regex {
  import opened RegexSyntax

  /** match_class(): is `c` in the class whose '[' is just before `pat`, and where does the class end? */
  method MatchClass(c: char, p: string, pat: nat) returns (r: bool, end: nat)
    requires pat <= |p| && CString(p)
    ensures r == Accepts(Class(Negated(p, pat), Items(p, Body(p, pat))), c)
    ensures end == AfterBracket(p, Body(p, pat))
  {
    hide InItems, Items;
    var negate := false;
    var i := pat;
    var found := false;
    if CharAt(p, i) == '^' {
      negate := true;
      i := i + 1;
    }
    ghost var b := i;
    while i < |p| && p[i] != ']'
      invariant b <= i <= |p| && Bracket(p, b) == Bracket(p, i)
      invariant InItems(Items(p, b), c) <==> found || InItems(Items(p, i), c)
      decreases |p| - i
    {
      MemberStep(p, i, c);
      if CharAt(p, i + 1) == '-' && CharAt(p, i + 2) != '\0' && CharAt(p, i + 2) != ']' {
        if p[i] <= c <= p[i + 2] {
          found := true;
        }
        BracketSkips(p, i);
        i := i + 3;
      } else {
        if c == p[i] {
          found := true;
        }
        i := i + 1;
      }
    }
    NoItems(p, i, c);
    if i < |p| {
      i := i + 1;
    }
    return if negate then !found else found, i;
  }

  lemma NoItems(p: string, i: nat, c: char)
    requires i >= |p| || p[i] == ']'
    ensures !InItems(Items(p, i), c)
  {
  }

  lemma MemberStep(p: string, i: nat, c: char)
    requires i < |p| && p[i] != ']'
    ensures InItems(Items(p, i), c) <==>
      if IsRange(p, i) then p[i] <= c <= p[i + 2] || InItems(Items(p, i + 3), c)
      else c == p[i] || InItems(Items(p, i + 1), c)
  {
    var first := Items(p, i)[0];
    var rest := Items(p, if IsRange(p, i) then i + 3 else i + 1);
    assert Items(p, i) == [first] + rest;
    assert InItems(Items(p, i), c) <==> InItem(first, c) || InItems(rest, c) by {
      if InItems(rest, c) {
        var k :| 0 <= k < |rest| && InItem(rest[k], c);
        assert InItem(Items(p, i)[k + 1], c);
      }
      if InItem(first, c) {
        assert InItem(Items(p, i)[0], c);
      }
    }
  }

  lemma BracketSkips(p: string, i: nat)
    requires IsRange(p, i) && p[i] != ']'
    ensures Bracket(p, i) == Bracket(p, i + 3)
  {
    assert Bracket(p, i) == Bracket(p, i + 1) == Bracket(p, i + 2) == Bracket(p, i + 3);
  }

  method PatNext(p: string, pat: nat) returns (next: nat)
    requires pat < |p| && CString(p)
    ensures next == Next(p, pat)
  {
    if CharAt(p, pat) == '\\' && CharAt(p, pat + 1) != '\0' {
      return pat + 2;
    }
    if p[pat] == '[' {
      var found, end := MatchClass('\0', p, pat + 1);
      return end;
    }
    return pat + 1;
  }

  method MatchOne(p: string, pat: nat, c: char) returns (r: bool)
    requires pat < |p| && CString(p)
    ensures r == (c != '\0' && Accepts(ElemAt(p, pat), c))
  {
    if c == '\0' {
      return false;
    }
    if p[pat] == '.' {
      return true;
    }
    if p[pat] == '\\' && CharAt(p, pat + 1) != '\0' {
      return c == p[pat + 1];
    }
    if p[pat] == '[' {
      var found, end := MatchClass(c, p, pat + 1);
      return found;
    }
    return c == p[pat];
  }

  /** How the meaning of the pattern from `i` on starts: at its end or at a final `$`, */
  lemma GreedyEnds(p: string, i: nat, s: string, text: nat)
    requires i <= |p| && text <= |s|
    ensures i == |p| ==> Greedy(Nodes(p, i), s, text) == Some(text)
    ensures i + 1 == |p| && p[i] == '$' ==> Greedy(Nodes(p, i), s, text) == if text == |s| then Some(text) else None
  {
    assert i + 1 == |p| && p[i] == '$' ==> Nodes(p, i)[1..] == [];
  }

  /** with a starred element, */
  lemma GreedyStar(p: string, i: nat, s: string, text: nat)
    requires i < |p| && text <= |s| && !(p[i] == '$' && i + 1 == |p|) && CharAt(p, Next(p, i)) == '*'
    ensures Greedy(Nodes(p, i), s, text) ==
            Backtrack(Nodes(p, Next(p, i) + 1), s, text, Longest(StarElem(p, i), s, text))
  {
    assert Nodes(p, i)[1..] == Nodes(p, Next(p, i) + 1);
  }

  /** or with a single one. */
  lemma GreedySingle(p: string, i: nat, s: string, text: nat)
    requires i < |p| && text <= |s| && !(p[i] == '$' && i + 1 == |p|) && CharAt(p, Next(p, i)) != '*'
    ensures Greedy(Nodes(p, i), s, text) ==
            if text < |s| && Accepts(ElemAt(p, i), s[text]) then Greedy(Nodes(p, Next(p, i)), s, text + 1) else None
  {
    assert Nodes(p, i)[1..] == Nodes(p, Next(p, i));
  }

  /** match_here(): the end of the match that starts at `text`, if there is one. */
  method MatchHere(p: string, pat: nat, s: string, text: nat) returns (r: Option<nat>)
    requires CString(p) && CString(s) && pat <= |p| && text <= |s|
    ensures r == Greedy(Nodes(p, pat), s, text)
    decreases |p| - pat, 0
  {
    hide Backtrack, Longest, Greedy, Nodes, Accepts;
    GreedyEnds(p, pat, s, text);
    if CharAt(p, pat) == '\0' {
      return Some(text);
    }
    if p[pat] == '$' && CharAt(p, pat + 1) == '\0' {
      if CharAt(s, text) == '\0' {
        return Some(text);
      }
      return None;
    }
    var next := PatNext(p, pat);
    if CharAt(p, next) == '*' {
      GreedyStar(p, pat, s, text);
      if p[pat] == '[' {
        r := MatchStar('\0', true, pat, p, next + 1, s, text, StarElem(p, pat));
        return;
      }
      var c := if p[pat] == '\\' && CharAt(p, pat + 1) != '\0' then p[pat + 1] else p[pat];
      r := MatchStar(c, false, pat, p, next + 1, s, text, StarElem(p, pat));
      return;
    }
    GreedySingle(p, pat, s, text);
    var one := MatchOne(p, pat, CharAt(s, text));
    if one {
      r := MatchHere(p, next, s, text + 1);
      return;
    }
    return None;
  }

  /** match_star(): as many characters as possible, then fewer, until the rest of the pattern matches. */
  method MatchStar(c: char, isClass: bool, classPat: nat, p: string, pat: nat, s: string, text: nat, ghost e: Elem)
    returns (r: Option<nat>)
    requires CString(p) && CString(s) && classPat < |p| && pat <= |p| && text <= |s|
    requires if isClass then p[classPat] == '[' && e == ElemAt(p, classPat)
             else c != '\0' && e == if c == '.' then Any else Lit(c)
    ensures r == Backtrack(Nodes(p, pat), s, text, Longest(e, s, text))
    decreases |p| - pat, 1
  {
    hide Greedy, Nodes, Items;
    var t := text;
    if isClass {
      while t < |s|
        invariant text <= t <= |s| && Longest(e, s, text) == Longest(e, s, t)
        decreases |s| - t
      {
        var found, end := MatchClass(s[t], p, classPat + 1);
        if !found {
          break;
        }
        t := t + 1;
      }
    } else if c == '.' {
      while t < |s|
        invariant text <= t <= |s| && Longest(e, s, text) == Longest(e, s, t)
      {
        t := t + 1;
      }
    } else {
      while CharAt(s, t) == c
        invariant text <= t <= |s| && Longest(e, s, text) == Longest(e, s, t)
        decreases |s| - t
      {
        t := t + 1;
      }
    }
    assert t == Longest(e, s, text);
    while true
      invariant text <= t <= |s|
      invariant Backtrack(Nodes(p, pat), s, text, Longest(e, s, text)) == Backtrack(Nodes(p, pat), s, text, t)
      decreases t
    {
      r := MatchHere(p, pat, s, t);
      if r.Some? || t == text {
        return;
      }
      t := t - 1;
    }
  }

  // ----- the public interface

  /** regcomp()'s scan of a pattern. */
  predicate Scans(p: string, i: nat)
    decreases |p| - i
  {
    i >= |p| ||
    if p[i] == '\\' then i + 1 < |p| && Scans(p, i + 2)
    else if p[i] == '[' then
      var k := DocBracket(p, Body(p, i + 1));
      k < |p| && Scans(p, k + 1)
    else Scans(p, i + 1)
  }

  /** The scan accepts exactly the patterns of the documented syntax. */
  lemma {:induction false} ScansDocumented(p: string, i: nat)
    requires CString(p)
    ensures Scans(p, i) <==> Documented(p, i).Some?
    decreases |p| - i
  {
    if i >= |p| || (p[i] == '$' && i + 1 == |p|) { return; }
    if p[i] == '\\' && i + 1 >= |p| { return; }
    var k := DocBracket(p, Body(p, i + 1));
    if p[i] == '[' && k == |p| { return; }
    var next := if p[i] == '\\' then i + 2 else if p[i] == '[' then k + 1 else i + 1;
    ScansDocumented(p, next);
    if CharAt(p, next) == '*' {
      assert Scans(p, next) == Scans(p, next + 1);
      ScansDocumented(p, next + 1);
    }
  }

  class RegexT {
    var pattern: string
    var valid: bool

    constructor ()
      ensures !valid
    {
      pattern, valid := "", false;
    }

    /** regcomp() */
    method Regcomp(p: string) returns (r: int)
      requires CString(p)
      modifies this
      ensures r == 0 <==> |p| < RE_MAXPAT && Documented(p, 0).Some?
      ensures valid == (r == 0) && (valid ==> pattern == p) && (r != 0 ==> r == -1)
    {
      hide Documented, DocBracket;
      ScansDocumented(p, 0);
      if |p| >= RE_MAXPAT {
        valid := false;
        return -1;
      }
      var i := 0;
      while i < |p|
        invariant i <= |p| && Scans(p, 0) == Scans(p, i)
        decreases |p| - i
      {
        if p[i] == '\\' {
          if i + 1 == |p| {
            valid := false;
            return -1;
          }
          i := i + 2;
        } else if p[i] == '[' {
          i := ClassEnd(p, i + 1);
          if i == |p| {
            valid := false;
            return -1;
          }
          i := i + 1;
        } else {
          i := i + 1;
        }
      }
      pattern := p;
      valid := true;
      return 0;
    }

    /** The part of the scan behind an opening bracket: where the closing one is, or the end of the pattern. */
    static method ClassEnd(p: string, i0: nat) returns (i: nat)
      requires i0 <= |p| && CString(p)
      ensures i0 <= i <= |p| && i == DocBracket(p, Body(p, i0))
    {
      i := i0;
      if CharAt(p, i) == '^' {
        i := i + 1;
      }
      assert i == Body(p, i0);
      if CharAt(p, i) == ']' {
        i := i + 1;
      }
      while i < |p| && p[i] != ']'
        invariant i0 <= i <= |p| && Bracket(p, i) == DocBracket(p, Body(p, i0))
        decreases |p| - i
      {
        i := i + 1;
      }
    }

    /** The pattern without its leading anchor. */
    ghost function Program(): seq<Node>
      reads this
    {
      Nodes(pattern, if Anchored() then 1 else 0)
    }

    ghost predicate Anchored()
      reads this
    {
      CharAt(pattern, 0) == '^'
    }

    /** regexec(): the leftmost match, or -1 when there is none. */
    method Regexec(s: string) returns (r: int, start: nat, end: nat)
      requires CString(pattern) && CString(s)
      ensures r == 0 || r == -1
      ensures !valid ==> r == -1
      ensures r == 0 ==>
        && start <= |s| && Greedy(Program(), s, start) == Some(end) && Matches(Program(), s, start, end)
        && (forall i: nat, j: nat :: i < start ==> !Matches(Program(), s, i, j))
        && (Anchored() ==> start == 0)
      ensures r == -1 && valid ==>
        forall i: nat, j: nat :: i <= |s| && (Anchored() ==> i == 0) ==> !Matches(Program(), s, i, j)
    {
      start, end := 0, 0;
      if !valid {
        return -1, 0, 0;
      }
      ghost var ns := Program();
      if CharAt(pattern, 0) == '^' {
        var m := MatchHere(pattern, 1, s, 0);
        FirstMatch(ns, s, 0);
        if m.Some? {
          return 0, 0, m.value;
        }
        return -1, 0, 0;
      }
      var text := 0;
      while true
        invariant text <= |s|
        invariant forall i: nat, j: nat :: i < text ==> !Matches(ns, s, i, j)
        decreases |s| - text
      {
        var m := MatchHere(pattern, 0, s, text);
        FirstMatch(ns, s, text);
        if m.Some? {
          return 0, text, m.value;
        }
        if text == |s| {
          return -1, 0, 0;
        }
        text := text + 1;
      }
    }
  }

  /** For every pattern regcomp() accepts, the nodes regexec() searches for are the documented ones
      exactly when the pattern is plain. */
  lemma CompiledAsDocumented(p: string)
    requires CString(p) && Documented(p, 0).Some?
    ensures var a := if CharAt(p, 0) == '^' then 1 else 0;
            Documented(p, a).Some? && (Nodes(p, a) == Documented(p, a).value <==> Plain(p, a))
  {
    var a := if CharAt(p, 0) == '^' then 1 else 0;
    ScansDocumented(p, 0);
    ScansDocumented(p, a);
    ReadsAsDocumented(p, a);
  }

  /** The search at one position decides whether anything matches there. */
  lemma FirstMatch(ns: seq<Node>, s: string, i: nat)
    requires i <= |s|
    ensures Greedy(ns, s, i).Some? <==> exists j: nat :: Matches(ns, s, i, j)
    ensures Greedy(ns, s, i).Some? ==> Matches(ns, s, i, Greedy(ns, s, i).value)
  {
    var found := Greedy(ns, s, i);
    if found.Some? {
      GreedySound(ns, s, i);
      assert exists j: nat :: Matches(ns, s, i, j) by {
        assert Matches(ns, s, i, found.value);
      }
    }
    forall j: nat | Matches(ns, s, i, j)
      ensures Greedy(ns, s, i).Some?
    {
      GreedyComplete(ns, s, i, j);
    }
  }

  /** In the documented syntax "^\.*$" matches dots only; the engine matches any text with it. */
  lemma StarredEscapedDot(s: string)
    ensures var p := "^\\.*$";
            && Documented(p, 1) == Some([Star(Lit('.')), AtEnd]) && Nodes(p, 1) == [Star(Any), AtEnd]
            && Greedy(Nodes(p, 1), s, 0) == Some(|s|)
  {
    var p := "^\\.*$";
    assert Nodes(p, 4) == [AtEnd] && Documented(p, 4) == Some([AtEnd]);
    assert Documented(p, 1) == WithStar(p, Lit('.'), 3) == Cons(Star(Lit('.')), Documented(p, 4));
    assert [Star(Lit('.'))] + [AtEnd] == [Star(Lit('.')), AtEnd];
    assert Nodes(p, 1) == [Star(Any)] + Nodes(p, 4) == [Star(Any), AtEnd];
    var ns := Nodes(p, 1);
    assert ns[1..] == [AtEnd];
    AnyRun(s, 0);
    assert [AtEnd][1..] == [];
    assert Greedy([AtEnd], s, |s|) == Some(|s|);
  }

  lemma {:induction false} AnyRun(s: string, i: nat)
    requires i <= |s|
    ensures Longest(Any, s, i) == |s|
    decreases |s| - i
  {
    if i < |s| {
      AnyRun(s, i + 1);
    }
  }

  /** In the documented syntax "[]a]" matches a bracket; the engine reads an empty class, then "a]". */
  lemma BracketFirst(s: string, i: nat, j: nat)
    ensures var p := "[]a]";
            && Documented(p, 0) == Some([Single(Class(false, [One(']'), One('a')]))])
            && !Matches(Nodes(p, 0), s, i, j)
  {
    var p := "[]a]";
    assert Body(p, 1) == 1 && Items(p, 1) == [];
    assert Items(p, 3) == [] && Items(p, 2) == [One('a')] + Items(p, 3);
    assert Bracket(p, 2) == 3;
    assert Documented(p, 4) == Some([]);
    var c := Class(false, [One(']'), One('a')]);
    assert DocItems(p, 1) == [One(']')] + Items(p, 2) == [One(']'), One('a')];
    assert Documented(p, 0) == WithStar(p, c, 4) == Cons(Single(c), Documented(p, 4));
    assert [Single(c)] + [] == [Single(c)];
    assert Nodes(p, 0)[0] == Single(Class(false, []));
  }
}
