/** Patterns of libc/regex.c as they are written: every list of nodes has a text that is read as just this list, by the
  engine and in the documented syntax. */
module RegexText {
  import opened RegexSyntax

  // ----- writing a pattern

  /** The characters that mean something else than themselves outside a class. */
  predicate Special(c: char) {
    c == '.' || c == '*' || c == '[' || c == '\\' || c == '$' || c == '^'
  }

  function ItemText(i: Item): string {
    match i
    case One(c) => [c]
    case Range(lo, hi) => [lo, '-', hi]
  }

  function ItemsText(items: seq<Item>): string {
    if items == [] then "" else ItemText(items[0]) + ItemsText(items[1..])
  }

  function ElemText(e: Elem): string {
    match e
    case Any => "."
    case Lit(c) => if Special(c) then ['\\', c] else [c]
    case Class(negate, items) => (if negate then "[^" else "[") + (ItemsText(items) + "]")
  }

  function NodeText(n: Node): string {
    match n
    case Single(e) => ElemText(e)
    case Star(e) => ElemText(e) + "*"
    case AtEnd => "$"
  }

  function Text(ns: seq<Node>): string {
    if ns == [] then "" else NodeText(ns[0]) + Text(ns[1..])
  }

  /** What a class can be made of: characters other than the bracket and the dash, and ranges of such. */
  predicate ItemFits(i: Item) {
    match i
    case One(c) => c != ']' && c != '-' && c != '\0'
    case Range(lo, hi) => lo != ']' && lo != '-' && hi != ']' && lo != '\0' && hi != '\0'
  }

  /** A class has at least one member, and one that is not negated does not start with the caret. */
  predicate ElemFits(e: Elem) {
    match e
    case Any => true
    case Lit(c) => c != '\0'
    case Class(negate, items) =>
      && items != [] && (forall k :: 0 <= k < |items| ==> ItemFits(items[k]))
      && (negate || ItemText(items[0])[0] != '^')
  }

  /** The end of the text is asked for at most at the end. */
  predicate Fit(ns: seq<Node>) {
    forall k :: 0 <= k < |ns| ==> if ns[k].AtEnd? then k == |ns| - 1 else ElemFits(ns[k].e)
  }

  // ----- reading it

  /** `t` stands in p from `i` on. */
  predicate Stands(p: string, i: nat, t: string) {
    i + |t| <= |p| && p[i..i + |t|] == t
  }

  lemma StandsBoth(p: string, i: nat, a: string, b: string)
    requires Stands(p, i, a + b)
    ensures Stands(p, i, a) && Stands(p, i + |a|, b)
  {
    assert p[i..i + |a|] == (a + b)[..|a|] == a;
    assert p[i + |a|..i + |a| + |b|] == (a + b)[|a|..] == b;
  }

  lemma StandsAt(p: string, i: nat, t: string, k: nat)
    requires Stands(p, i, t) && k < |t|
    ensures i + k < |p| && p[i + k] == t[k]
  {
    assert p[i..i + |t|][k] == t[k];
  }

  lemma ItemStands(p: string, i: nat, item: Item, next: char)
    requires Stands(p, i, ItemText(item)) && ItemFits(item) && i + |ItemText(item)| < |p|
      && p[i + |ItemText(item)|] == next && next != '-'
    ensures p[i] != ']' && p[i] == ItemText(item)[0]
    ensures IsRange(p, i) <==> item.Range?
    ensures item == (if IsRange(p, i) then Range(p[i], p[i + 2]) else One(p[i]))
    ensures item.Range? ==> p[i + 1] == '-'
  {
    StandsAt(p, i, ItemText(item), 0);
    if item.Range? {
      StandsAt(p, i, ItemText(item), 1);
      StandsAt(p, i, ItemText(item), 2);
    }
  }

  lemma ItemsStart(items: seq<Item>)
    requires forall k :: 0 <= k < |items| ==> ItemFits(items[k])
    ensures var c := (ItemsText(items) + "]")[0]; c != '-' && (items != [] ==> c != ']' && c == ItemText(items[0])[0])
  {
  }

  /** The members of a class are read up to the bracket that closes it. */
  lemma {:induction false} ItemsRead(p: string, i: nat, items: seq<Item>)
    requires (forall k :: 0 <= k < |items| ==> ItemFits(items[k])) && Stands(p, i, ItemsText(items) + "]")
    ensures Items(p, i) == items && Bracket(p, i) == i + |ItemsText(items)| < |p|
    decreases |items|
  {
    hide Stands, IsRange;
    if items == [] {
      ItemsSplit(items);
      StandsAt(p, i, "]", 0);
      return;
    }
    var item, first, rest := items[0], ItemText(items[0]), ItemsText(items[1..]) + "]";
    ItemsSplit(items);
    StandsBoth(p, i, first, rest);
    ItemsStart(items[1..]);
    StandsAt(p, i + |first|, rest, 0);
    hide ItemsText;
    ItemStands(p, i, item, p[i + |first|]);
    ItemsRead(p, i + |first|, items[1..]);
    hide ItemText, ItemFits;
    OneItem(p, i, item, items[1..], if item.Range? then i + 3 else i + 1);
    assert items == [item] + items[1..];
  }

  lemma ItemsSplit(items: seq<Item>)
    ensures items == [] ==> ItemsText(items) == "" && ItemsText(items) + "]" == "]"
    ensures items != [] ==> ItemsText(items) + "]" == ItemText(items[0]) + (ItemsText(items[1..]) + "]")
    ensures items != [] ==> |ItemsText(items)| == |ItemText(items[0])| + |ItemsText(items[1..])|
  {
  }

  /** One member more in front. */
  lemma OneItem(p: string, i: nat, item: Item, rest: seq<Item>, next: nat)
    requires i < next <= |p| && p[i] != ']' && Items(p, next) == rest && (IsRange(p, i) <==> item.Range?)
    requires item == (if IsRange(p, i) then Range(p[i], p[i + 2]) else One(p[i]))
    requires next == if item.Range? then i + 3 else i + 1
    ensures Items(p, i) == [item] + rest && Bracket(p, i) == Bracket(p, next)
  {
    if item.Range? {
      assert Bracket(p, i) == Bracket(p, i + 1) == Bracket(p, i + 2) == Bracket(p, i + 3);
    }
  }

  /** The element is read as it was written, and the next one behind it. */
  lemma ElemRead(p: string, i: nat, e: Elem)
    requires Stands(p, i, ElemText(e)) && ElemFits(e)
    ensures i < |p| && ElemAt(p, i) == e && Next(p, i) == i + |ElemText(e)|
    ensures p[i] != '$' && p[i] != '*' && (p[i] == '\\' <==> e.Lit? && Special(e.c)) && (p[i] == '[' <==> e.Class?)
  {
    StandsAt(p, i, ElemText(e), 0);
    match e
    case Any =>
    case Lit(c) => if Special(c) { StandsAt(p, i, ElemText(e), 1); }
    case Class(negate, items) =>
      ClassRead(p, i, negate, items);
  }

  lemma ClassRead(p: string, i: nat, negate: bool, items: seq<Item>)
    requires ElemFits(Class(negate, items)) && Stands(p, i, ElemText(Class(negate, items)))
    ensures i < |p| && p[i] == '[' && (Negated(p, i + 1) <==> negate)
    ensures var b := Body(p, i + 1);
            && Items(p, b) == items && CharAt(p, b) != ']' && Bracket(p, b) < |p|
            && Bracket(p, b) + 1 == i + |ElemText(Class(negate, items))|
  {
    hide Stands, Items, Bracket;
    var open, body := if negate then "[^" else "[", ItemsText(items) + "]";
    StandsBoth(p, i, open, body);
    StandsAt(p, i, open, 0);
    if negate { StandsAt(p, i, open, 1); }
    ItemsStart(items);
    StandsAt(p, i + |open|, body, 0);
    ItemsRead(p, i + |open|, items);
    hide ItemsText, ItemFits, ItemText;
  }

  lemma TextStart(ns: seq<Node>)
    requires Fit(ns) && ns != []
    ensures Text(ns) != [] && Text(ns)[0] != '*'
  {
    ElemStart(ns[0]);
  }

  lemma ElemStart(n: Node)
    ensures NodeText(n) != [] && NodeText(n)[0] != '*'
  {
  }

  /** What stands behind the first node. */
  lemma NodeStands(p: string, i: nat, ns: seq<Node>)
    requires Fit(ns) && ns != [] && Stands(p, i, Text(ns)) && i + |Text(ns)| == |p|
    ensures var next := i + |NodeText(ns[0])|;
            && Stands(p, i, NodeText(ns[0])) && Stands(p, next, Text(ns[1..])) && next + |Text(ns[1..])| == |p|
            && Fit(ns[1..]) && CharAt(p, next) != '*'
    ensures ns[0].AtEnd? ==> ns == [AtEnd] && i + 1 == |p| && p[i] == '$'
    ensures ns[0].Star? ==> var k := i + |ElemText(ns[0].e)|;
      Stands(p, i, ElemText(ns[0].e)) && k < |p| && p[k] == '*' && k + 1 == i + |NodeText(ns[0])|
  {
    hide NodeText, Stands, Fit;
    var first, rest := NodeText(ns[0]), Text(ns[1..]);
    FitRest(ns);
    TextSplit(ns);
    hide Text;
    StandsBoth(p, i, first, rest);
    ElemStart(ns[0]);
    StandsAt(p, i, first, 0);
    if ns[1..] != [] {
      TextStart(ns[1..]);
      StandsAt(p, i + |first|, rest, 0);
    } else {
      TextEmpty();
    }
    if ns[0].Star? {
      StarText(ns[0]);
      StandsBoth(p, i, ElemText(ns[0].e), "*");
      StandsAt(p, i + |ElemText(ns[0].e)|, "*", 0);
      hide ElemText;
    }
    if ns[0].AtEnd? {
      EndText();
      TextEmpty();
    }
  }

  lemma TextSplit(ns: seq<Node>)
    requires ns != []
    ensures Text(ns) == NodeText(ns[0]) + Text(ns[1..])
  {
  }

  lemma FitRest(ns: seq<Node>)
    requires Fit(ns) && ns != []
    ensures Fit(ns[1..]) && (ns[0].AtEnd? ==> ns == [AtEnd])
  {
  }

  lemma StarText(n: Node)
    requires n.Star?
    ensures NodeText(n) == ElemText(n.e) + "*"
  {
  }

  lemma EndText()
    ensures NodeText(AtEnd) == "$"
  {
  }

  /** The engine reads every pattern as the nodes it was written for, but a starred dot that is meant literally. */
  lemma {:induction false} EngineReads(p: string, i: nat, ns: seq<Node>)
    requires Fit(ns) && Stands(p, i, Text(ns)) && i + |Text(ns)| == |p|
    requires forall k :: 0 <= k < |ns| ==> ns[k] != Star(Lit('.'))
    ensures Nodes(p, i) == ns
    decreases |ns|
  {
    hide Text, NodeText, Stands;
    if ns == [] {
      TextEmpty();
      return;
    }
    NodeStands(p, i, ns);
    if ns[0].AtEnd? { return; }
    NodeElem(ns[0]);
    var next := i + |NodeText(ns[0])|;
    FitFirst(ns);
    ElemRead(p, i, ns[0].e);
    EngineReads(p, next, ns[1..]);
    hide ElemText, ElemFits, ElemAt, Next, Nodes, Fit;
    OneNode(p, i, ns[0], next);
    assert ns == [ns[0]] + ns[1..];
  }

  lemma FitFirst(ns: seq<Node>)
    requires Fit(ns) && ns != [] && !ns[0].AtEnd?
    ensures ElemFits(ns[0].e)
  {
  }

  lemma OneNode(p: string, i: nat, n: Node, next: nat)
    requires i < |p| && p[i] != '$' && !n.AtEnd? && n != Star(Lit('.')) && ElemAt(p, i) == n.e && next <= |p|
    requires if n.Star? then CharAt(p, Next(p, i)) == '*' && next == Next(p, i) + 1
             else CharAt(p, next) != '*' && next == Next(p, i)
    ensures Nodes(p, i) == [n] + Nodes(p, next)
  {
    hide ElemAt, Next;
  }

  lemma TextEmpty()
    ensures Text([]) == ""
  {
  }

  lemma NodeElem(n: Node)
    ensures n.Single? ==> NodeText(n) == ElemText(n.e)
  {
  }

  /** And so does the documented syntax, without exception. */
  lemma {:induction false} SyntaxReads(p: string, i: nat, ns: seq<Node>)
    requires Fit(ns) && Stands(p, i, Text(ns)) && i + |Text(ns)| == |p|
    ensures Documented(p, i) == Some(ns)
    decreases |ns|
  {
    hide Text, NodeText, Stands;
    if ns == [] {
      TextEmpty();
      return;
    }
    NodeStands(p, i, ns);
    if ns[0].AtEnd? { return; }
    NodeElem(ns[0]);
    var e, next := ns[0].e, i + |NodeText(ns[0])|;
    ElemRead(p, i, e);
    SyntaxReads(p, next, ns[1..]);
    ElemDocumented(p, i, e);
    hide ElemText, ElemFits, ElemAt, Next, Documented;
    assert ns == [ns[0]] + ns[1..];
  }

  lemma ElemDocumented(p: string, i: nat, e: Elem)
    requires Stands(p, i, ElemText(e)) && ElemFits(e)
    ensures i < |p| && i + |ElemText(e)| <= |p| && Documented(p, i) == WithStar(p, e, i + |ElemText(e)|)
  {
    ElemRead(p, i, e);
    if e.Class? {
      ClassRead(p, i, e.negate, e.items);
    }
    hide ElemText, ElemFits, WithStar, Items, Bracket;
  }

  /** What regexec() searches for when such a pattern is compiled, behind an anchor or not. */
  lemma ProgramReads(ns: seq<Node>, anchored: bool)
    requires Fit(ns) && forall k :: 0 <= k < |ns| ==> ns[k] != Star(Lit('.'))
    ensures var p := (if anchored then "^" else "") + Text(ns);
            && (CharAt(p, 0) == '^' <==> anchored) && Documented(p, 0).Some?
            && Nodes(p, if anchored then 1 else 0) == ns && Documented(p, if anchored then 1 else 0) == Some(ns)
  {
    hide Nodes, Text, Fit, Documented;
    var front := if anchored then "^" else "";
    var p, a := front + Text(ns), |front|;
    assert p[a..a + |Text(ns)|] == Text(ns);
    EngineReads(p, a, ns);
    SyntaxReads(p, a, ns);
    if ns != [] {
      PlainStart(ns);
      assert p[a] == Text(ns)[0];
    } else {
      TextEmpty();
    }
    if anchored {
      CaretReads(p, ns);
    }
  }

  lemma CaretReads(p: string, ns: seq<Node>)
    requires p != "" && p[0] == '^' && Documented(p, 1) == Some(ns) && CharAt(p, 1) != '*'
    ensures Documented(p, 0).Some?
  {
  }

  lemma PlainStart(ns: seq<Node>)
    requires Fit(ns) && ns != []
    ensures Text(ns) != [] && Text(ns)[0] != '^' && Text(ns)[0] != '*'
  {
    TextStart(ns);
  }

  // ----- what it matches

  /** A text matches two patterns one after the other exactly when it can be cut into texts that match them. */
  lemma {:induction false} MatchesBoth(a: seq<Node>, b: seq<Node>, s: string, i: nat, j: nat)
    ensures Matches(a + b, s, i, j) <==> exists k: nat :: Matches(a, s, i, k) && Matches(b, s, k, j)
    decreases |a|
  {
    if a == [] {
      assert a + b == b;
      MatchesInside(b, s, i, j);
      assert i <= |s| ==> Matches(a, s, i, i);
      return;
    }
    assert (a + b)[0] == a[0] && (a + b)[1..] == a[1..] + b;
    match a[0]
    case AtEnd => MatchesBoth(a[1..], b, s, i, j);
    case Single(e) => MatchesBoth(a[1..], b, s, i + 1, j);
    case Star(e) =>
      var rest := a[1..];
      var both := rest + b;
      if Matches(a + b, s, i, j) {
        var m: nat :| Run(e, s, i, m) && Matches(both, s, m, j);
        MatchesBoth(rest, b, s, m, j);
        var k: nat :| Matches(rest, s, m, k) && Matches(b, s, k, j);
        assert Matches(a, s, i, k);
      }
      if k: nat :| Matches(a, s, i, k) && Matches(b, s, k, j) {
        var m: nat :| Run(e, s, i, m) && Matches(rest, s, m, k);
        MatchesBoth(rest, b, s, m, j);
        assert Matches(rest, s, m, k) && Matches(b, s, k, j);
        assert Matches(both, s, m, j);
      }
  }

  lemma {:induction false} MatchesInside(ns: seq<Node>, s: string, i: nat, j: nat)
    ensures Matches(ns, s, i, j) ==> i <= j <= |s|
    decreases |ns|
  {
    if ns == [] || !Matches(ns, s, i, j) { return; }
    match ns[0]
    case AtEnd => MatchesInside(ns[1..], s, i, j);
    case Single(e) => MatchesInside(ns[1..], s, i + 1, j);
    case Star(e) =>
      var k: nat :| Run(e, s, i, k) && Matches(ns[1..], s, k, j);
      MatchesInside(ns[1..], s, k, j);
  }

  /** The parts: one character, as many as there are, and the end of the text. */
  lemma MatchesPart(e: Elem, s: string, i: nat, j: nat)
    ensures Matches([Single(e)], s, i, j) <==> j == i + 1 <= |s| && Accepts(e, s[i])
    ensures Matches([Star(e)], s, i, j) <==> i <= j <= |s| && forall m :: i <= m < j ==> Accepts(e, s[m])
    ensures Matches([AtEnd], s, i, j) <==> i == j == |s|
  {
    assert [Single(e)][1..] == [] && [Star(e)][1..] == [] && [AtEnd][1..] == [];
    if Matches([Star(e)], s, i, j) {
      var k: nat :| Run(e, s, i, k) && Matches([], s, k, j);
      assert k == j;
    }
    if Run(e, s, i, j) {
      assert Matches([], s, j, j);
    }
  }

  function Ones(w: string): seq<Item> {
    seq(|w|, k requires 0 <= k < |w| => One(w[k]))
  }

  function Lits(w: string): seq<Node> {
    seq(|w|, k requires 0 <= k < |w| => Single(Lit(w[k])))
  }

  /** A dot accepts every character, another one itself; a class the characters it lists or spans, or the others. */
  lemma AcceptsWhat(c: char, d: char, w: string, lo: char, hi: char)
    ensures Accepts(Any, c) && (Accepts(Lit(d), c) <==> c == d)
    ensures Accepts(Class(false, Ones(w)), c) <==> c in w
    ensures Accepts(Class(true, Ones(w)), c) <==> c !in w
    ensures Accepts(Class(false, [Range(lo, hi)]), c) <==> lo <= c <= hi
  {
    if c in w {
      var k :| 0 <= k < |w| && w[k] == c;
      assert InItem(Ones(w)[k], c);
    }
    if InItems(Ones(w), c) {
      var k :| 0 <= k < |Ones(w)| && InItem(Ones(w)[k], c);
      assert w[k] == c;
    }
    if lo <= c <= hi { assert InItem([Range(lo, hi)][0], c); }
  }

  lemma {:induction false} OnesText(w: string)
    ensures ItemsText(Ones(w)) == w
    decreases |w|
  {
    if w != "" {
      OnesText(w[1..]);
      assert Ones(w)[1..] == Ones(w[1..]);
      assert w == [w[0]] + w[1..];
    }
  }

  /** The texts of classes. */
  lemma ClassTexts(w: string, lo: char, hi: char)
    ensures ElemText(Class(false, Ones(w))) == "[" + (w + "]") && ElemText(Class(true, Ones(w))) == "[^" + (w + "]")
    ensures ElemText(Class(false, [Range(lo, hi)])) == ['[', lo, '-', hi, ']']
  {
    OnesText(w);
    var items := [Range(lo, hi)];
    assert items[1..] == [];
    assert ItemsText(items) == [lo, '-', hi] + "" == [lo, '-', hi];
  }

  lemma {:induction false} LitsText(w: string)
    requires forall k :: 0 <= k < |w| ==> !Special(w[k])
    ensures Text(Lits(w)) == w
    decreases |w|
  {
    if w != "" {
      LitsText(w[1..]);
      assert Lits(w)[1..] == Lits(w[1..]);
      assert w == [w[0]] + w[1..];
    }
  }

  lemma {:induction false} LitsMatch(w: string, s: string, i: nat, j: nat)
    ensures Matches(Lits(w), s, i, j) <==> j == i + |w| <= |s| && s[i..j] == w
    decreases |w|
  {
    if w == "" {
      assert i <= |s| ==> s[i..i] == [];
      return;
    }
    assert Lits(w)[1..] == Lits(w[1..]);
    LitsMatch(w[1..], s, i + 1, j);
    if i < |s| && j == i + |w| <= |s| {
      assert s[i..j] == [s[i]] + s[i + 1..j];
      assert w == [w[0]] + w[1..];
    }
  }

  /** A pattern of ordinary characters matches that text and no other. */
  lemma WordMatches(w: string, s: string, i: nat, j: nat)
    requires forall k :: 0 <= k < |w| ==> !Special(w[k]) && w[k] != '\0'
    ensures CharAt(w, 0) != '^' && Documented(w, 0).Some?
    ensures Matches(Nodes(w, 0), s, i, j) <==> j == i + |w| <= |s| && s[i..j] == w
  {
    LitsText(w);
    ProgramReads(Lits(w), false);
    assert "" + w == w;
    LitsMatch(w, s, i, j);
  }
}
