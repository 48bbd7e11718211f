/** The grammar of shell arithmetic (apps/dash/arith_yacc.c).

  Token codes and the precedence table are the source's own.  A `Tree` is a syntax tree, `Written` says
  which tokens spell it and `Shaped` states the C rules of precedence and associativity.  The
  layered parser has one function for each grammar level; it is proved to accept exactly the
  spellings of shaped trees, and to agree with precedence climbing. */
module ArithSyntax {

  const ARITH_EOF := 0
  const ARITH_ASS := 1
  const ARITH_OR := 2
  const ARITH_AND := 3
  const ARITH_BAD := 4
  const ARITH_NUM := 5
  const ARITH_VAR := 6
  const ARITH_NOT := 7
  const ARITH_BINOP_MIN := 8
  const ARITH_LE := 8
  const ARITH_GE := 9
  const ARITH_LT := 10
  const ARITH_GT := 11
  const ARITH_EQ := 12
  const ARITH_REM := 13
  const ARITH_BAND := 14
  const ARITH_LSHIFT := 15
  const ARITH_RSHIFT := 16
  const ARITH_MUL := 17
  const ARITH_ADD := 18
  const ARITH_BOR := 19
  const ARITH_SUB := 20
  const ARITH_BXOR := 21
  const ARITH_DIV := 22
  const ARITH_NE := 23
  const ARITH_BINOP_MAX := 24
  const ARITH_ASS_MIN := 24
  const ARITH_REMASS := 24
  const ARITH_BANDASS := 25
  const ARITH_LSHIFTASS := 26
  const ARITH_RSHIFTASS := 27
  const ARITH_MULASS := 28
  const ARITH_ADDASS := 29
  const ARITH_BORASS := 30
  const ARITH_SUBASS := 31
  const ARITH_BXORASS := 32
  const ARITH_DIVASS := 33
  const ARITH_ASS_MAX := 34
  const ARITH_LPAREN := 34
  const ARITH_RPAREN := 35
  const ARITH_BNOT := 36
  const ARITH_QMARK := 37
  const ARITH_COLON := 38

  const ARITH_MAX_PREC := 8

  /** intmax_t */
  type intmax = x: int | -0x8000_0000_0000_0000 <= x < 0x8000_0000_0000_0000

  predicate IsOpCode(code: int) {
    ARITH_ASS <= code <= ARITH_AND || ARITH_NOT <= code <= ARITH_COLON
  }

  type OpCode = c: int | IsOpCode(c) witness ARITH_NOT

  type BinCode = c: int | IsBinop(c) witness ARITH_LE

  type AssignCode = c: int | IsAssign(c) witness ARITH_ASS

  type UnaryCode = c: int | IsUnary(c) witness ARITH_NOT

  datatype Token = Number(val: intmax) | Name(name: string) | Op(code: OpCode) {
    function Code(): (c: int)
      ensures c != ARITH_EOF && c != ARITH_BAD
    {
      match this
      case Number(_) => ARITH_NUM
      case Name(_) => ARITH_VAR
      case Op(c) => c
    }
  }

  /** The text being evaluated: its tokens, then either the end of the string or a character the
      lexer rejects.  The lexer never moves past that last point. */
  datatype Source = Source(toks: seq<Token>, bad: bool) {
    function Code(p: nat): int {
      if p < |toks| then toks[p].Code() else if bad then ARITH_BAD else ARITH_EOF
    }

    function Adv(p: nat): nat {
      if p < |toks| then p + 1 else p
    }
  }

  predicate IsBinop(op: int) {
    ARITH_BINOP_MIN <= op < ARITH_BINOP_MAX
  }

  predicate IsAssign(op: int) {
    op == ARITH_ASS || ARITH_ASS_MIN <= op < ARITH_ASS_MAX
  }

  predicate IsUnary(op: int) {
    op == ARITH_ADD || op == ARITH_SUB || op == ARITH_NOT || op == ARITH_BNOT
  }

  /** arith_prec(): a smaller number binds tighter. */
  function Prec(op: int): (k: nat)
    requires IsBinop(op)
    ensures k < ARITH_MAX_PREC
  {
    if op == ARITH_MUL || op == ARITH_DIV || op == ARITH_REM then 0
    else if op == ARITH_ADD || op == ARITH_SUB then 1
    else if op == ARITH_LSHIFT || op == ARITH_RSHIFT then 2
    else if ARITH_LE <= op <= ARITH_GT then 3
    else if op == ARITH_EQ || op == ARITH_NE then 4
    else if op == ARITH_BAND then 5
    else if op == ARITH_BXOR then 6
    else 7
  }

  predicate BindsBelow(op: int, k: nat) {
    IsBinop(op) && Prec(op) < k
  }

  datatype Tree =
    | Num(v: intmax)
    | Var(name: string)
    | Paren(t: Tree)
    | Unary(unop: UnaryCode, t: Tree)
    | Bin(op: BinCode, l: Tree, r: Tree)
    | And(l: Tree, r: Tree)
    | Or(l: Tree, r: Tree)
    | Cond(c: Tree, a: Tree, b: Tree)
    | Assign(name: string, assop: AssignCode, t: Tree)

  const AND_LEVEL := 9
  const OR_LEVEL := 10
  const COND_LEVEL := 11
  const ASSIGN_LEVEL := 12

  /** How loosely the outermost operator of a tree binds: 0 for a primary, 1..8 for the eight binary
      levels, then &&, ||, ?: and assignment. */
  function Rank(t: Tree): nat {
    match t
    case Num(_) => 0
    case Var(_) => 0
    case Paren(_) => 0
    case Unary(_, _) => 0
    case Bin(op, _, _) => Prec(op) + 1
    case And(_, _) => AND_LEVEL
    case Or(_, _) => OR_LEVEL
    case Cond(_, _, _) => COND_LEVEL
    case Assign(_, _, _) => ASSIGN_LEVEL
  }

  /** Precedence and associativity: binary operators group to the left, &&, ||, ?: and assignment
      to the right, and an operand that binds more loosely needs parentheses. */
  predicate Shaped(t: Tree) {
    match t
    case Num(_) => true
    case Var(_) => true
    case Paren(u) => Shaped(u)
    case Unary(_, u) => Shaped(u) && Rank(u) == 0
    case Bin(op, l, r) => Shaped(l) && Shaped(r) && Rank(l) <= Prec(op) + 1 && Rank(r) <= Prec(op)
    case And(l, r) => Shaped(l) && Shaped(r) && Rank(l) < AND_LEVEL && Rank(r) <= AND_LEVEL
    case Or(l, r) => Shaped(l) && Shaped(r) && Rank(l) < OR_LEVEL && Rank(r) <= OR_LEVEL
    case Cond(c, a, b) =>
      Shaped(c) && Shaped(a) && Shaped(b) && Rank(c) < COND_LEVEL && Rank(b) <= COND_LEVEL
    case Assign(_, _, u) => Shaped(u)
  }

  /** The number of tokens a tree is written with. */
  function Size(t: Tree): (n: nat)
    ensures n > 0
  {
    match t
    case Num(_) => 1
    case Var(_) => 1
    case Paren(u) => Size(u) + 2
    case Unary(_, u) => Size(u) + 1
    case Bin(_, l, r) => Size(l) + 1 + Size(r)
    case And(l, r) => Size(l) + 1 + Size(r)
    case Or(l, r) => Size(l) + 1 + Size(r)
    case Cond(c, a, b) => Size(c) + 1 + Size(a) + 1 + Size(b)
    case Assign(_, _, u) => Size(u) + 2
  }

  predicate Sees(s: seq<Token>, p: nat, tok: Token) {
    p < |s| && s[p] == tok
  }

  /** `t` is written in `s` from position `p` on. */
  predicate Written(s: seq<Token>, p: nat, t: Tree)
    decreases Size(t), 2
  {
    match t
    case Num(v) => Sees(s, p, Number(v))
    case Var(name) => Sees(s, p, Name(name))
    case Paren(u) => Sees(s, p, Op(ARITH_LPAREN)) && Written(s, p + 1, u) && Sees(s, p + 1 + Size(u), Op(ARITH_RPAREN))
    case Unary(op, u) => Sees(s, p, Op(op)) && Written(s, p + 1, u)
    case Bin(op, l, r) => Written2(s, p, l, op, r)
    case And(l, r) => Written2(s, p, l, ARITH_AND, r)
    case Or(l, r) => Written2(s, p, l, ARITH_OR, r)
    case Cond(c, a, b) => Written3(s, p, c, a, b)
    case Assign(name, op, u) => Sees(s, p, Name(name)) && Sees(s, p + 1, Op(op)) && Written(s, p + 2, u)
  }

  predicate Written2(s: seq<Token>, p: nat, l: Tree, op: OpCode, r: Tree)
    decreases Size(l) + 1 + Size(r), 0
  {
    Written(s, p, l) && Sees(s, p + Size(l), Op(op)) && Written(s, p + Size(l) + 1, r)
  }

  predicate Written3(s: seq<Token>, p: nat, c: Tree, a: Tree, b: Tree)
    decreases Size(c) + 1 + Size(a) + 1 + Size(b), 1
  {
    var i := p + Size(c);
    Written(s, p, c) && Sees(s, i, Op(ARITH_QMARK)) && Written2(s, i + 1, a, ARITH_COLON, b)
  }

  // ----- the layered parser

  datatype Parsed = Fail | Done(tree: Tree, next: nat)

  function ParsePrimary(s: Source, p: nat): (r: Parsed)
    ensures r.Done? ==> p < r.next <= |s.toks|
    decreases |s.toks| - p, 0
  {
    if p >= |s.toks| then Fail
    else
      match s.toks[p]
      case Number(v) => Done(Num(v), p + 1)
      case Name(n) => Done(Var(n), p + 1)
      case Op(op) =>
        if op == ARITH_LPAREN then
          match ParseAssign(s, p + 1)
          case Fail => Fail
          case Done(t, q) => if s.Code(q) == ARITH_RPAREN then Done(Paren(t), q + 1) else Fail
        else if IsUnary(op) then
          match ParsePrimary(s, p + 1)
          case Fail => Fail
          case Done(t, q) => Done(Unary(op, t), q)
        else Fail
  }

  /** Operators of precedence below `k`, level by level. */
  function ParseLevel(s: Source, p: nat, k: nat): (r: Parsed)
    requires k <= ARITH_MAX_PREC
    ensures r.Done? ==> p < r.next <= |s.toks|
    decreases |s.toks| - p, k + 1
  {
    if k == 0 then ParsePrimary(s, p)
    else
      match ParseLevel(s, p, k - 1)
      case Fail => Fail
      case Done(t, q) => ParseTail(s, t, q, k - 1)
  }

  /** The rest of a left-associative chain of operators of precedence exactly `k`. */
  function ParseTail(s: Source, t: Tree, p: nat, k: nat): (r: Parsed)
    requires k < ARITH_MAX_PREC && p <= |s.toks|
    ensures r.Done? ==> p <= r.next <= |s.toks|
    decreases |s.toks| - p, 0
  {
    var op := s.Code(p);
    if IsBinop(op) && Prec(op) == k then
      match ParseLevel(s, p + 1, k)
      case Fail => Fail
      case Done(b, q) => ParseTail(s, Bin(op, t, b), q, k)
    else Done(t, p)
  }

  function ParseAnd(s: Source, p: nat): (r: Parsed)
    ensures r.Done? ==> p < r.next <= |s.toks|
    decreases |s.toks| - p, 10
  {
    match ParseLevel(s, p, ARITH_MAX_PREC)
    case Fail => Fail
    case Done(l, q) =>
      if s.Code(q) != ARITH_AND then Done(l, q)
      else
        match ParseAnd(s, q + 1)
        case Fail => Fail
        case Done(r, q') => Done(And(l, r), q')
  }

  function ParseOr(s: Source, p: nat): (r: Parsed)
    ensures r.Done? ==> p < r.next <= |s.toks|
    decreases |s.toks| - p, 11
  {
    match ParseAnd(s, p)
    case Fail => Fail
    case Done(l, q) =>
      if s.Code(q) != ARITH_OR then Done(l, q)
      else
        match ParseOr(s, q + 1)
        case Fail => Fail
        case Done(r, q') => Done(Or(l, r), q')
  }

  function ParseCond(s: Source, p: nat): (r: Parsed)
    ensures r.Done? ==> p < r.next <= |s.toks|
    decreases |s.toks| - p, 12
  {
    match ParseOr(s, p)
    case Fail => Fail
    case Done(c, q) =>
      if s.Code(q) != ARITH_QMARK then Done(c, q)
      else
        match ParseAssign(s, q + 1)
        case Fail => Fail
        case Done(a, q') =>
          if s.Code(q') != ARITH_COLON then Fail
          else
            match ParseCond(s, q' + 1)
            case Fail => Fail
            case Done(b, q'') => Done(Cond(c, a, b), q'')
  }

  function ParseAssign(s: Source, p: nat): (r: Parsed)
    ensures r.Done? ==> p < r.next <= |s.toks|
    decreases |s.toks| - p, 13
  {
    if p < |s.toks| && s.toks[p].Name? && IsAssign(s.Code(p + 1)) then
      match ParseAssign(s, p + 2)
      case Fail => Fail
      case Done(t, q) => Done(Assign(s.toks[p].name, s.Code(p + 1), t), q)
    else ParseCond(s, p)
  }

  /** A whole expression: nothing but the end of the string may follow. */
  function Parse(s: Source): (r: Parsed) {
    match ParseAssign(s, 0)
    case Fail => Fail
    case Done(t, q) => if s.Code(q) == ARITH_EOF then Done(t, q) else Fail
  }

  // ----- precedence climbing

  /** Extend `t` with every operator of precedence below `m`, taking each right operand one level
      tighter: what binop2() does with its loop and its recursive call. */
  function Climb(s: Source, t: Tree, p: nat, m: nat): (r: Parsed)
    requires m <= ARITH_MAX_PREC && p <= |s.toks|
    ensures r.Done? ==> p <= r.next <= |s.toks|
    decreases |s.toks| - p
  {
    var op := s.Code(p);
    if BindsBelow(op, m) then
      match ParseLevel(s, p + 1, Prec(op))
      case Fail => Fail
      case Done(b, q) => Climb(s, Bin(op, t, b), q, m)
    else Done(t, p)
  }

  function ClimbFrom(s: Source, r: Parsed, m: nat): Parsed
    requires m <= ARITH_MAX_PREC && (r.Done? ==> r.next <= |s.toks|)
  {
    if r.Fail? then Fail else Climb(s, r.tree, r.next, m)
  }

  /** No operator of precedence below `k` is left behind by the level-`k` parser. */
  lemma {:induction false} LevelStops(s: Source, p: nat, k: nat)
    requires k <= ARITH_MAX_PREC
    ensures ParseLevel(s, p, k).Done? ==> !BindsBelow(s.Code(ParseLevel(s, p, k).next), k)
    decreases |s.toks| - p, k + 1
  {
    if k > 0 {
      LevelStops(s, p, k - 1);
      var r := ParseLevel(s, p, k - 1);
      if r.Done? {
        TailStops(s, r.tree, r.next, k - 1);
      }
    }
  }

  lemma {:induction false} TailStops(s: Source, t: Tree, p: nat, k: nat)
    requires k < ARITH_MAX_PREC && p <= |s.toks| && !BindsBelow(s.Code(p), k)
    ensures ParseTail(s, t, p, k).Done? ==> !BindsBelow(s.Code(ParseTail(s, t, p, k).next), k + 1)
    decreases |s.toks| - p, 0
  {
    var op := s.Code(p);
    if IsBinop(op) && Prec(op) == k {
      var b := ParseLevel(s, p + 1, k);
      if b.Done? {
        LevelStops(s, p + 1, k);
        TailStops(s, Bin(op, t, b.tree), b.next, k);
      }
    }
  }

  /** Climbing one level further is climbing, then one flat left-associative chain. */
  lemma {:induction false} ClimbStep(s: Source, t: Tree, p: nat, m: nat)
    requires m < ARITH_MAX_PREC && p <= |s.toks|
    ensures Climb(s, t, p, m + 1) ==
            (match Climb(s, t, p, m) case Fail => Fail case Done(u, q) => ParseTail(s, u, q, m))
    decreases |s.toks| - p
  {
    hide ParseLevel;
    var op := s.Code(p);
    if BindsBelow(op, m + 1) {
      var b := ParseLevel(s, p + 1, Prec(op));
      if b.Done? {
        ClimbStep(s, Bin(op, t, b.tree), b.next, m);
        LevelStops(s, p + 1, Prec(op));
      }
    }
  }

  /** The layered parser and precedence climbing build the same tree. */
  lemma {:induction false} LevelIsClimb(s: Source, p: nat, k: nat)
    requires k <= ARITH_MAX_PREC
    ensures ParseLevel(s, p, k) == ClimbFrom(s, ParsePrimary(s, p), k)
    decreases k
  {
    if k > 0 {
      LevelIsClimb(s, p, k - 1);
      var r := ParsePrimary(s, p);
      if r.Done? {
        ClimbStep(s, r.tree, r.next, k - 1);
      }
    }
  }

  // ----- the parser builds a shaped tree of the tokens it consumes

  ghost predicate Spells(s: Source, p: nat, r: Parsed, level: nat) {
    r.Done? ==>
      r.next == p + Size(r.tree) <= |s.toks| && Written(s.toks, p, r.tree) && Shaped(r.tree) && Rank(r.tree) <= level
  }

  lemma {:induction false} PrimarySound(s: Source, p: nat)
    ensures Spells(s, p, ParsePrimary(s, p), 0)
    decreases |s.toks| - p, 0
  {
    if p < |s.toks| && s.toks[p].Op? {
      var op := s.toks[p].code;
      if op == ARITH_LPAREN {
        AssignSound(s, p + 1);
      } else if IsUnary(op) {
        PrimarySound(s, p + 1);
      }
    }
  }

  lemma {:induction false} LevelSound(s: Source, p: nat, k: nat)
    requires k <= ARITH_MAX_PREC
    ensures Spells(s, p, ParseLevel(s, p, k), k)
    decreases |s.toks| - p, k + 1
  {
    if k == 0 {
      PrimarySound(s, p);
    } else {
      LevelSound(s, p, k - 1);
      var r := ParseLevel(s, p, k - 1);
      if r.Done? {
        TailSound(s, p, r.tree, r.next, k - 1);
      }
    }
  }

  lemma {:induction false} TailSound(s: Source, p0: nat, t: Tree, p: nat, k: nat)
    requires k < ARITH_MAX_PREC && p <= |s.toks| && Spells(s, p0, Done(t, p), k + 1)
    ensures Spells(s, p0, ParseTail(s, t, p, k), k + 1)
    decreases |s.toks| - p, 0
  {
    var op := s.Code(p);
    if IsBinop(op) && Prec(op) == k {
      LevelSound(s, p + 1, k);
      var b := ParseLevel(s, p + 1, k);
      if b.Done? {
        TailSound(s, p0, Bin(op, t, b.tree), b.next, k);
      }
    }
  }

  lemma {:induction false} AndSound(s: Source, p: nat)
    ensures Spells(s, p, ParseAnd(s, p), AND_LEVEL)
    decreases |s.toks| - p, 10
  {
    LevelSound(s, p, ARITH_MAX_PREC);
    var l := ParseLevel(s, p, ARITH_MAX_PREC);
    if l.Done? && s.Code(l.next) == ARITH_AND {
      AndSound(s, l.next + 1);
    }
  }

  lemma {:induction false} OrSound(s: Source, p: nat)
    ensures Spells(s, p, ParseOr(s, p), OR_LEVEL)
    decreases |s.toks| - p, 11
  {
    AndSound(s, p);
    var l := ParseAnd(s, p);
    if l.Done? && s.Code(l.next) == ARITH_OR {
      OrSound(s, l.next + 1);
    }
  }

  lemma CondUnfold(s: Source, p: nat, c: Tree, i: nat, a: Tree, j: nat, b: Tree, e: nat)
    requires ParseOr(s, p) == Done(c, i) && s.Code(i) == ARITH_QMARK
    requires ParseAssign(s, i + 1) == Done(a, j) && s.Code(j) == ARITH_COLON
    requires ParseCond(s, j + 1) == Done(b, e)
    ensures ParseCond(s, p) == Done(Cond(c, a, b), e)
  {
  }

  lemma CondSpells(s: Source, p: nat, c: Parsed, a: Parsed, b: Parsed)
    requires c.Done? && Spells(s, p, c, OR_LEVEL) && s.Code(c.next) == ARITH_QMARK
    requires a.Done? && Spells(s, c.next + 1, a, ASSIGN_LEVEL) && s.Code(a.next) == ARITH_COLON
    requires b.Done? && Spells(s, a.next + 1, b, COND_LEVEL)
    ensures Spells(s, p, Done(Cond(c.tree, a.tree, b.tree), b.next), COND_LEVEL)
  {
    assert Sees(s.toks, c.next, Op(ARITH_QMARK)) && Sees(s.toks, a.next, Op(ARITH_COLON));
    assert Written3(s.toks, p, c.tree, a.tree, b.tree);
  }

  lemma {:induction false} CondSound(s: Source, p: nat)
    ensures Spells(s, p, ParseCond(s, p), COND_LEVEL)
    decreases |s.toks| - p, 12
  {
    hide ParseAssign, Written, Shaped, Size;
    OrSound(s, p);
    var c := ParseOr(s, p);
    if c.Fail? || s.Code(c.next) != ARITH_QMARK { return; }
    AssignSound(s, c.next + 1);
    var a := ParseAssign(s, c.next + 1);
    if a.Fail? || s.Code(a.next) != ARITH_COLON { return; }
    CondSound(s, a.next + 1);
    var b := ParseCond(s, a.next + 1);
    if b.Fail? { return; }
    CondSpells(s, p, c, a, b);
    CondUnfold(s, p, c.tree, c.next, a.tree, a.next, b.tree, b.next);
  }

  lemma {:induction false} AssignSound(s: Source, p: nat)
    ensures Spells(s, p, ParseAssign(s, p), ASSIGN_LEVEL)
    decreases |s.toks| - p, 13
  {
    if p < |s.toks| && s.toks[p].Name? && IsAssign(s.Code(p + 1)) {
      AssignSound(s, p + 2);
    } else {
      CondSound(s, p);
    }
  }

  // ----- every shaped tree is found again from its tokens

  /** `code` would make the parser of the given level read on. */
  predicate Continues(code: int, level: nat) {
    || BindsBelow(code, if level < ARITH_MAX_PREC then level else ARITH_MAX_PREC)
    || (level >= AND_LEVEL && code == ARITH_AND)
    || (level >= OR_LEVEL && code == ARITH_OR)
    || (level >= COND_LEVEL && code == ARITH_QMARK)
    || (level >= ASSIGN_LEVEL && IsAssign(code))
  }

  lemma {:induction false} WrittenFits(s: seq<Token>, p: nat, t: Tree)
    requires Written(s, p, t)
    ensures p + Size(t) <= |s|
    decreases t
  {
    match t
    case Num(_) =>
    case Var(_) =>
    case Paren(u) =>
    case Unary(_, u) => WrittenFits(s, p + 1, u);
    case Bin(_, l, r) => WrittenFits(s, p + Size(l) + 1, r);
    case And(l, r) => WrittenFits(s, p + Size(l) + 1, r);
    case Or(l, r) => WrittenFits(s, p + Size(l) + 1, r);
    case Cond(c, a, b) =>
      assert Written2(s, p + Size(c) + 1, a, ARITH_COLON, b);
      WrittenFits(s, p + Size(c) + 1 + Size(a) + 1, b);
    case Assign(_, _, u) => WrittenFits(s, p + 2, u);
  }

  lemma {:induction false} PrimaryComplete(s: Source, p: nat, t: Tree)
    requires Shaped(t) && Rank(t) == 0 && Written(s.toks, p, t)
    ensures ParsePrimary(s, p) == Done(t, p + Size(t))
    decreases t, 0
  {
    match t
    case Num(_) =>
    case Var(_) =>
    case Bin(_, _, _) =>
    case Paren(u) => AssignComplete(s, p + 1, u);
    case Unary(_, u) => PrimaryComplete(s, p + 1, u);
  }

  /** The parts of a binary node in the tokens. */
  lemma BinWritten(s: Source, p: nat, t: Tree)
    requires t.Bin? && Shaped(t) && Written(s.toks, p, t)
    ensures Shaped(t.l) && Shaped(t.r) && Rank(t.l) <= Prec(t.op) + 1 == Rank(t) && Rank(t.r) <= Prec(t.op)
    ensures var i := p + Size(t.l);
            && Written(s.toks, p, t.l) && i < |s.toks| && s.Code(i) == t.op && Written(s.toks, i + 1, t.r)
            && p + Size(t) == i + 1 + Size(t.r)
  {
    assert Written2(s.toks, p, t.l, t.op, t.r);
  }

  lemma AndWritten(s: Source, p: nat, t: Tree)
    requires t.And? && Shaped(t) && Written(s.toks, p, t)
    ensures Shaped(t.l) && Shaped(t.r) && Rank(t.l) < AND_LEVEL && Rank(t.r) <= AND_LEVEL
    ensures var i := p + Size(t.l);
            && Written(s.toks, p, t.l) && s.Code(i) == ARITH_AND && Written(s.toks, i + 1, t.r)
            && p + Size(t) == i + 1 + Size(t.r)
  {
    assert Written2(s.toks, p, t.l, ARITH_AND, t.r);
  }

  lemma OrWritten(s: Source, p: nat, t: Tree)
    requires t.Or? && Shaped(t) && Written(s.toks, p, t)
    ensures Shaped(t.l) && Shaped(t.r) && Rank(t.l) < OR_LEVEL && Rank(t.r) <= OR_LEVEL
    ensures var i := p + Size(t.l);
            && Written(s.toks, p, t.l) && s.Code(i) == ARITH_OR && Written(s.toks, i + 1, t.r)
            && p + Size(t) == i + 1 + Size(t.r)
  {
    assert Written2(s.toks, p, t.l, ARITH_OR, t.r);
  }

  /** Climbing from the first primary of `t` reaches `t` itself before anything after it is read. */
  lemma {:induction false} ClimbReaches(s: Source, p: nat, t: Tree, k: nat)
    requires k <= ARITH_MAX_PREC && Shaped(t) && Rank(t) <= k && Written(s.toks, p, t)
    requires !BindsBelow(s.Code(p + Size(t)), if Rank(t) == 0 then 0 else Rank(t) - 1)
    ensures p + Size(t) <= |s.toks|
    ensures ClimbFrom(s, ParsePrimary(s, p), k) == Climb(s, t, p + Size(t), k)
    decreases t, 1
  {
    hide ParsePrimary, ParseLevel, Written, Shaped, Size;
    WrittenFits(s.toks, p, t);
    if Rank(t) == 0 {
      PrimaryComplete(s, p, t);
    } else {
      var Bin(op, l, r) := t;
      BinWritten(s, p, t);
      ClimbReaches(s, p, l, k);
      LevelComplete(s, p + Size(l) + 1, r, Prec(op));
    }
  }

  lemma {:induction false} LevelComplete(s: Source, p: nat, t: Tree, k: nat)
    requires k <= ARITH_MAX_PREC && Shaped(t) && Rank(t) <= k && Written(s.toks, p, t)
    requires !BindsBelow(s.Code(p + Size(t)), k)
    ensures ParseLevel(s, p, k) == Done(t, p + Size(t))
    decreases t, 2
  {
    ClimbReaches(s, p, t, k);
    LevelIsClimb(s, p, k);
  }

  lemma {:induction false} AndComplete(s: Source, p: nat, t: Tree)
    requires Shaped(t) && Rank(t) <= AND_LEVEL && Written(s.toks, p, t)
    requires !Continues(s.Code(p + Size(t)), AND_LEVEL)
    ensures ParseAnd(s, p) == Done(t, p + Size(t))
    decreases t, 3
  {
    hide ParseLevel, Written, Shaped, Size;
    if t.And? {
      AndWritten(s, p, t);
      LevelComplete(s, p, t.l, ARITH_MAX_PREC);
      AndComplete(s, p + Size(t.l) + 1, t.r);
    } else {
      LevelComplete(s, p, t, ARITH_MAX_PREC);
    }
  }

  lemma {:induction false} OrComplete(s: Source, p: nat, t: Tree)
    requires Shaped(t) && Rank(t) <= OR_LEVEL && Written(s.toks, p, t)
    requires !Continues(s.Code(p + Size(t)), OR_LEVEL)
    ensures ParseOr(s, p) == Done(t, p + Size(t))
    decreases t, 4
  {
    hide ParseAnd, Written, Shaped, Size;
    if t.Or? {
      OrWritten(s, p, t);
      AndComplete(s, p, t.l);
      OrComplete(s, p + Size(t.l) + 1, t.r);
    } else {
      AndComplete(s, p, t);
    }
  }

  lemma CondWritten(s: Source, p: nat, t: Tree)
    requires t.Cond? && Shaped(t) && Written(s.toks, p, t)
    ensures Shaped(t.c) && Shaped(t.a) && Shaped(t.b) && Rank(t.c) <= OR_LEVEL && Rank(t.b) <= COND_LEVEL
    ensures var i := p + Size(t.c);
            var j := i + 1 + Size(t.a);
            && Written(s.toks, p, t.c) && s.Code(i) == ARITH_QMARK
            && Written(s.toks, i + 1, t.a) && s.Code(j) == ARITH_COLON
            && Written(s.toks, j + 1, t.b) && p + Size(t) == j + 1 + Size(t.b)
  {
    assert Written3(s.toks, p, t.c, t.a, t.b);
    assert Written2(s.toks, p + Size(t.c) + 1, t.a, ARITH_COLON, t.b);
  }

  lemma {:induction false} CondNodeComplete(s: Source, p: nat, t: Tree)
    requires t.Cond? && Shaped(t) && Written(s.toks, p, t)
    requires !Continues(s.Code(p + Size(t)), COND_LEVEL)
    ensures ParseCond(s, p) == Done(t, p + Size(t))
    decreases t, 5
  {
    hide ParseOr, ParseAssign, ParseCond, Written, Shaped, Size;
    var i := p + Size(t.c);
    var j := i + 1 + Size(t.a);
    CondWritten(s, p, t);
    OrComplete(s, p, t.c);
    AssignComplete(s, i + 1, t.a);
    CondComplete(s, j + 1, t.b);
    CondUnfold(s, p, t.c, i, t.a, j, t.b, p + Size(t));
  }

  lemma {:induction false} CondComplete(s: Source, p: nat, t: Tree)
    requires Shaped(t) && Rank(t) <= COND_LEVEL && Written(s.toks, p, t)
    requires !Continues(s.Code(p + Size(t)), COND_LEVEL)
    ensures ParseCond(s, p) == Done(t, p + Size(t))
    decreases t, 6
  {
    if t.Cond? {
      CondNodeComplete(s, p, t);
    } else {
      OrComplete(s, p, t);
    }
  }

  /** Only an assignment has an assignment operator as its second token. */
  lemma {:induction false} SecondToken(s: Source, p: nat, t: Tree)
    requires Shaped(t) && !t.Assign? && Size(t) > 1 && Written(s.toks, p, t)
    ensures s.Code(p) == ARITH_VAR ==> !IsAssign(s.Code(p + 1))
    decreases t
  {
    match t
    case Bin(_, l, _) => if Size(l) > 1 { SecondToken(s, p, l); }
    case And(l, _) => if Size(l) > 1 { SecondToken(s, p, l); }
    case Or(l, _) => if Size(l) > 1 { SecondToken(s, p, l); }
    case Cond(c, _, _) => if Size(c) > 1 { SecondToken(s, p, c); }
    case _ =>
  }

  lemma {:induction false} AssignComplete(s: Source, p: nat, t: Tree)
    requires Shaped(t) && Written(s.toks, p, t)
    requires !Continues(s.Code(p + Size(t)), ASSIGN_LEVEL)
    ensures ParseAssign(s, p) == Done(t, p + Size(t))
    decreases t, 7
  {
    if t.Assign? {
      AssignComplete(s, p + 2, t.t);
    } else {
      if Size(t) > 1 {
        SecondToken(s, p, t);
      }
      CondComplete(s, p, t);
    }
  }

  // ----- main results on the grammar

  /** The source spells the tree `t` and nothing else. */
  predicate Spelled(s: Source, t: Tree) {
    !s.bad && Written(s.toks, 0, t) && Size(t) == |s.toks|
  }

  /** The parser accepts exactly the token sequences that spell a tree obeying precedence and
      associativity, and returns that tree. */
  lemma ParseIff(s: Source, t: Tree)
    ensures Parse(s) == Done(t, |s.toks|) <==> Shaped(t) && Spelled(s, t)
  {
    AssignSound(s, 0);
    if Shaped(t) && Spelled(s, t) {
      AssignComplete(s, 0, t);
    }
  }

  lemma ParseDecides(s: Source)
    ensures Parse(s).Fail? <==> !exists t :: Shaped(t) && Spelled(s, t)
    ensures Parse(s).Done? ==> Parse(s).next == |s.toks|
  {
    var r := Parse(s);
    AssignSound(s, 0);
    if r.Done? {
      ParseIff(s, r.tree);
    } else {
      forall t | Shaped(t) && Spelled(s, t)
        ensures false
      {
        ParseIff(s, t);
      }
    }
  }

  /** The grammar is unambiguous. */
  lemma Unambiguous(s: Source, t: Tree, u: Tree)
    requires Shaped(t) && Spelled(s, t) && Shaped(u) && Spelled(s, u)
    ensures t == u
  {
    ParseIff(s, t);
    ParseIff(s, u);
  }
}
