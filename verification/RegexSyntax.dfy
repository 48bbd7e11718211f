/** What a pattern of libc/regex.c means: the list of nodes it is read as, the texts those nodes match,
  and the match the greedy, backtracking search settles on. */
module RegexSyntax {

  const RE_MAXPAT := 128

  datatype Option<+T> = None | Some(value: T)

  datatype Item = One(c: char) | Range(lo: char, hi: char)

  datatype Elem = Any | Lit(c: char) | Class(negate: bool, items: seq<Item>)

  datatype Node = Single(e: Elem) | Star(e: Elem) | AtEnd

  // ----- meaning

  predicate InItem(i: Item, c: char) {
    match i
    case One(d) => c == d
    case Range(lo, hi) => lo <= c <= hi
  }

  predicate InItems(items: seq<Item>, c: char) {
    exists k :: 0 <= k < |items| && InItem(items[k], c)
  }

  predicate Accepts(e: Elem, c: char) {
    match e
    case Any => true
    case Lit(d) => c == d
    case Class(negate, items) => InItems(items, c) != negate
  }

  /** Characters i..k of the text all match the element. */
  ghost predicate Run(e: Elem, s: string, i: nat, k: nat) {
    i <= k <= |s| && forall m :: i <= m < k ==> Accepts(e, s[m])
  }

  /** The nodes match exactly the text between `i` and `j`. */
  ghost predicate Matches(ns: seq<Node>, s: string, i: nat, j: nat)
    decreases |ns|
  {
    if ns == [] then i == j <= |s|
    else
      match ns[0]
      case AtEnd => i == |s| && Matches(ns[1..], s, i, j)
      case Single(e) => i < |s| && Accepts(e, s[i]) && Matches(ns[1..], s, i + 1, j)
      case Star(e) => exists k: nat :: Run(e, s, i, k) && Matches(ns[1..], s, k, j)
  }

  /** Where the search for a match that starts at `i` ends: a star takes the longest run after which the
      rest of the pattern still matches. */
  function Greedy(ns: seq<Node>, s: string, i: nat): (r: Option<nat>)
    requires i <= |s|
    ensures r.Some? ==> i <= r.value <= |s|
    decreases |ns|, 0
  {
    if ns == [] then Some(i)
    else
      match ns[0]
      case AtEnd => if i == |s| then Greedy(ns[1..], s, i) else None
      case Single(e) => if i < |s| && Accepts(e, s[i]) then Greedy(ns[1..], s, i + 1) else None
      case Star(e) => Backtrack(ns[1..], s, i, Longest(e, s, i))
  }

  /** The end of the longest run of characters that match the element. */
  function Longest(e: Elem, s: string, i: nat): (k: nat)
    requires i <= |s|
    ensures Run(e, s, i, k) && (k < |s| ==> !Accepts(e, s[k]))
    decreases |s| - i
  {
    if i < |s| && Accepts(e, s[i]) then Longest(e, s, i + 1) else i
  }

  /** The rest of the pattern is tried at `k` first, then one character earlier, down to `i`. */
  function Backtrack(rest: seq<Node>, s: string, i: nat, k: nat): (r: Option<nat>)
    requires i <= k <= |s|
    ensures r.Some? ==> i <= r.value <= |s|
    decreases |rest|, 1, k
  {
    if Greedy(rest, s, k).Some? then Greedy(rest, s, k)
    else if k == i then None
    else Backtrack(rest, s, i, k - 1)
  }

  /** `m` is the last position up to `k` from which the rest of the pattern matches. */
  ghost predicate LastGood(rest: seq<Node>, s: string, i: nat, k: nat, m: nat)
    requires k <= |s|
  {
    i <= m <= k && Greedy(rest, s, m).Some? && forall n :: m < n <= k ==> Greedy(rest, s, n).None?
  }

  lemma {:induction false} BacktrackIs(rest: seq<Node>, s: string, i: nat, k: nat, m: nat)
    requires i <= k <= |s| && LastGood(rest, s, i, k, m)
    ensures Backtrack(rest, s, i, k) == Greedy(rest, s, m)
    decreases k
  {
    if m < k {
      assert Greedy(rest, s, k).None?;
      BacktrackIs(rest, s, i, k - 1, m);
    }
  }

  lemma {:induction false} BacktrackFinds(rest: seq<Node>, s: string, i: nat, k: nat, m: nat)
    requires i <= m <= k <= |s| && Greedy(rest, s, m).Some?
    ensures Backtrack(rest, s, i, k).Some?
    decreases k
  {
    if m < k && Greedy(rest, s, k).None? {
      BacktrackFinds(rest, s, i, k - 1, m);
    }
  }

  /** Soundness: what the search finds is a match. */
  lemma {:induction false} GreedySound(ns: seq<Node>, s: string, i: nat)
    requires i <= |s| && Greedy(ns, s, i).Some?
    ensures Matches(ns, s, i, Greedy(ns, s, i).value)
    decreases |ns|
  {
    if ns == [] { return; }
    match ns[0] {
      case AtEnd => GreedySound(ns[1..], s, i);
      case Single(_) => GreedySound(ns[1..], s, i + 1);
      case Star(e) =>
        var k := BacktrackStop(ns[1..], s, i, Longest(e, s, i));
        GreedySound(ns[1..], s, k);
        assert Run(e, s, i, k);
    }
  }

  /** The position at which backtracking stops. */
  lemma {:induction false} BacktrackStop(rest: seq<Node>, s: string, i: nat, k: nat) returns (m: nat)
    requires i <= k <= |s| && Backtrack(rest, s, i, k).Some?
    ensures i <= m <= k && Greedy(rest, s, m) == Backtrack(rest, s, i, k)
    ensures forall n :: m < n <= k ==> Greedy(rest, s, n).None?
    decreases k
  {
    if Greedy(rest, s, k).Some? { return k; }
    m := BacktrackStop(rest, s, i, k - 1);
  }

  /** Completeness: if any text from `i` on matches, the search succeeds. */
  lemma {:induction false} GreedyComplete(ns: seq<Node>, s: string, i: nat, j: nat)
    requires i <= |s| && Matches(ns, s, i, j)
    ensures Greedy(ns, s, i).Some?
    decreases |ns|
  {
    if ns == [] { return; }
    match ns[0] {
      case AtEnd => GreedyComplete(ns[1..], s, i, j);
      case Single(_) => GreedyComplete(ns[1..], s, i + 1, j);
      case Star(e) =>
        var k: nat :| Run(e, s, i, k) && Matches(ns[1..], s, k, j);
        GreedyComplete(ns[1..], s, k, j);
        assert k <= Longest(e, s, i);
        BacktrackFinds(ns[1..], s, i, Longest(e, s, i), k);
    }
  }

  /** The star rule, stated without the search: the run is the longest one after which the rest of the
      pattern matches anything at all. */
  lemma StarIsLongest(e: Elem, rest: seq<Node>, s: string, i: nat, k: nat)
    requires Run(e, s, i, k) && (exists j :: Matches(rest, s, k, j))
    requires forall m: nat, j :: k < m && Run(e, s, i, m) ==> !Matches(rest, s, m, j)
    ensures Greedy([Star(e)] + rest, s, i) == Greedy(rest, s, k)
  {
    var j :| Matches(rest, s, k, j);
    GreedyComplete(rest, s, k, j);
    var top := Longest(e, s, i);
    assert ([Star(e)] + rest)[1..] == rest;
    forall n | k < n <= top
      ensures Greedy(rest, s, n).None?
    {
      assert Run(e, s, i, n);
      if Greedy(rest, s, n).Some? {
        GreedySound(rest, s, n);
      }
    }
    BacktrackIs(rest, s, i, top, k);
  }

  // ----- reading a pattern

  /** The character at a position of a C string. */
  function CharAt(s: string, i: nat): char {
    if i < |s| then s[i] else '\0'
  }

  ghost predicate CString(s: string) {
    forall i :: 0 <= i < |s| ==> s[i] != '\0'
  }

  /** p[i], '-', p[i + 2] form a range. */
  predicate IsRange(p: string, i: nat) {
    i + 2 < |p| && p[i + 1] == '-' && p[i + 2] != ']'
  }

  /** The members of a class from `i` up to the first ']'. */
  function Items(p: string, i: nat): seq<Item>
    decreases |p| - i
  {
    if i >= |p| || p[i] == ']' then []
    else if IsRange(p, i) then [Range(p[i], p[i + 2])] + Items(p, i + 3)
    else [One(p[i])] + Items(p, i + 1)
  }

  /** The position of the first ']' from `i` on, or the end. */
  function Bracket(p: string, i: nat): (k: nat)
    requires i <= |p|
    ensures i <= k <= |p| && (k < |p| ==> p[k] == ']')
    decreases |p| - i
  {
    if i == |p| || p[i] == ']' then i else Bracket(p, i + 1)
  }

  predicate Negated(p: string, i: nat) {
    CharAt(p, i) == '^'
  }

  /** The first member of the class whose '[' is just before `i`. */
  function Body(p: string, i: nat): (b: nat)
    requires i <= |p|
    ensures i <= b <= |p|
  {
    if Negated(p, i) then i + 1 else i
  }

  function AfterBracket(p: string, i: nat): (k: nat)
    requires i <= |p|
    ensures i <= k <= |p|
  {
    if Bracket(p, i) < |p| then Bracket(p, i) + 1 else |p|
  }

  predicate Escape(p: string, i: nat) {
    CharAt(p, i) == '\\' && i + 1 < |p|
  }

  /** pat_next() */
  function Next(p: string, i: nat): (k: nat)
    requires i < |p|
    ensures i < k <= |p|
  {
    if Escape(p, i) then i + 2
    else if p[i] == '[' then AfterBracket(p, Body(p, i + 1))
    else i + 1
  }

  /** The element at `i` as match_one() takes it. */
  function ElemAt(p: string, i: nat): Elem
    requires i < |p|
  {
    if p[i] == '.' then Any
    else if Escape(p, i) then Lit(p[i + 1])
    else if p[i] == '[' then Class(Negated(p, i + 1), Items(p, Body(p, i + 1)))
    else Lit(p[i])
  }

  /** The element at `i` as match_star() takes it: a starred dot matches anything, escaped or not. */
  function StarElem(p: string, i: nat): Elem
    requires i < |p|
  {
    if ElemAt(p, i) == Lit('.') then Any else ElemAt(p, i)
  }

  /** The pattern from `i` on, as the matcher takes it. */
  function Nodes(p: string, i: nat): seq<Node>
    decreases |p| - i
  {
    if i >= |p| then []
    else if p[i] == '$' && i + 1 == |p| then [AtEnd]
    else if CharAt(p, Next(p, i)) == '*' then [Star(StarElem(p, i))] + Nodes(p, Next(p, i) + 1)
    else [Single(ElemAt(p, i))] + Nodes(p, Next(p, i))
  }

  // ----- the documented syntax

  function Cons(n: Node, rest: Option<seq<Node>>): Option<seq<Node>> {
    if rest.None? then None else Some([n] + rest.value)
  }

  /** The class after a '[', with a ']' that comes first taken literally. */
  function DocItems(p: string, b: nat): seq<Item> {
    if CharAt(p, b) == ']' then [One(']')] + Items(p, b + 1) else Items(p, b)
  }

  function DocBracket(p: string, b: nat): (k: nat)
    requires b <= |p|
    ensures b <= k <= |p|
  {
    if CharAt(p, b) == ']' then Bracket(p, b + 1) else Bracket(p, b)
  }

  /** The pattern from `i` on in the documented syntax; nothing if it ends in a lone backslash or in an
      open class. */
  function Documented(p: string, i: nat): Option<seq<Node>>
    decreases if i < |p| then |p| - i else 0, 0
  {
    if i >= |p| then Some([])
    else if p[i] == '$' && i + 1 == |p| then Some([AtEnd])
    else if p[i] == '\\' then
      if i + 1 < |p| then WithStar(p, Lit(p[i + 1]), i + 2) else None
    else if p[i] == '[' then
      var b := Body(p, i + 1);
      var k := DocBracket(p, b);
      if k < |p| then WithStar(p, Class(Negated(p, i + 1), DocItems(p, b)), k + 1) else None
    else WithStar(p, if p[i] == '.' then Any else Lit(p[i]), i + 1)
  }

  function WithStar(p: string, e: Elem, next: nat): Option<seq<Node>>
    requires next <= |p|
    decreases |p| - next, 1
  {
    if CharAt(p, next) == '*' then Cons(Star(e), Documented(p, next + 1)) else Cons(Single(e), Documented(p, next))
  }

  /** No class starts with ']' and no escaped dot is starred. */
  predicate Plain(p: string, i: nat)
    decreases |p| - i
  {
    i >= |p| || (p[i] == '$' && i + 1 == |p|) ||
    (&& !(p[i] == '[' && CharAt(p, Body(p, i + 1)) == ']')
     && !(Escape(p, i) && p[i + 1] == '.' && CharAt(p, i + 2) == '*')
     && Plain(p, if CharAt(p, Next(p, i)) == '*' then Next(p, i) + 1 else Next(p, i)))
  }

  /** A class that starts with a bracket is read as an empty one. */
  lemma BracketDiffers(p: string, i: nat)
    requires CString(p) && Documented(p, i).Some? && i < |p| && p[i] == '[' && CharAt(p, Body(p, i + 1)) == ']'
    ensures Nodes(p, i) != Documented(p, i).value && !Plain(p, i)
  {
    var b := Body(p, i + 1);
    assert Items(p, b) == [] && DocItems(p, b)[0] == One(']');
    assert Documented(p, i).value[0] != Nodes(p, i)[0];
  }

  /** The matcher reads an accepted pattern as documented exactly when it is plain. */
  lemma {:induction false} ReadsAsDocumented(p: string, i: nat)
    requires CString(p) && Documented(p, i).Some?
    ensures Nodes(p, i) == Documented(p, i).value <==> Plain(p, i)
    decreases |p| - i
  {
    if i >= |p| || (p[i] == '$' && i + 1 == |p|) { return; }
    if p[i] == '[' && CharAt(p, Body(p, i + 1)) == ']' {
      BracketDiffers(p, i);
      return;
    }
    var next := Next(p, i);
    var rest := if CharAt(p, next) == '*' then next + 1 else next;
    if Escape(p, i) && p[i + 1] == '.' && CharAt(p, i + 2) == '*' {
      assert Documented(p, i).value[0] == Star(Lit('.'));
      assert Nodes(p, i)[0] == Star(Any);
      return;
    }
    var n := if CharAt(p, next) == '*' then Star(ElemAt(p, i)) else Single(ElemAt(p, i));
    assert Documented(p, i) == Cons(n, Documented(p, rest));
    assert Nodes(p, i) == [n] + Nodes(p, rest);
    ReadsAsDocumented(p, rest);
    SameTail(n, Nodes(p, rest), Documented(p, rest).value);
  }

  lemma SameTail(n: Node, a: seq<Node>, b: seq<Node>)
    ensures [n] + a == [n] + b <==> a == b
  {
    if [n] + a == [n] + b {
      assert a == ([n] + a)[1..] == ([n] + b)[1..] == b;
    }
  }
}
