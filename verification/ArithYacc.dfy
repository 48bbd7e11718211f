/** dash's arithmetic evaluator (apps/dash/arith_yacc.c): one pass that parses by precedence climbing
  and evaluates as it goes.  Each method is proved to do what "parse to a tree, then evaluate the
  tree" does, and to touch nothing when `noeval` is set. */
module ArithYacc {
  import opened ArithSyntax
  import opened ArithEval

  /** yyerror() does not return: an error ends the evaluation. */
  datatype Error = DivisionByZero | Syntax

  datatype Result<+T> = Ok(value: T) | Err(error: Error) {
    predicate IsFailure() {
      Err?
    }

    function PropagateFailure<U>(): Result<U>
      requires Err?
    {
      Err(error)
    }

    function Extract(): T
      requires Ok?
    {
      value
    }
  }

  /** union yystype */
  datatype YyVal = Val(val: intmax) | Ref(name: string)

  /** `v` is what the lexer stores for the token at `p`; only numbers and names store anything. */
  predicate Holds(s: Source, p: nat, v: YyVal) {
    p < |s.toks| ==>
      match s.toks[p]
      case Number(n) => v == Val(n)
      case Name(n) => v == Ref(n)
      case Op(_) => true
  }

  /** A left operand that stops evaluation stops every tree climbed from it. */
  lemma {:induction false} ClimbStops(s: Source, t: Tree, p: nat, m: nat, env: Env)
    requires m <= ARITH_MAX_PREC && p <= |s.toks| && Eval(t, env).DivideByZero?
    ensures var r := Climb(s, t, p, m); r.Done? ==> Eval(r.tree, env) == Eval(t, env)
    decreases |s.toks| - p
  {
    var op := s.Code(p);
    if BindsBelow(op, m) {
      var b := ParseLevel(s, p + 1, Prec(op));
      if b.Done? {
        ClimbStops(s, Bin(op, t, b.tree), b.next, m, env);
      }
    }
  }

  /** The two parses consume the same tokens and mean the same. */
  ghost predicate SameMeaning(a: Parsed, b: Parsed) {
    && a.Done? == b.Done?
    && (a.Done? ==> a.next == b.next && forall env: Env :: Eval(a.tree, env) == Eval(b.tree, env))
  }

  /** A unary plus means nothing. */
  lemma PlusMeans(s: Source, p: nat)
    requires s.Code(p) == ARITH_ADD
    ensures SameMeaning(ParsePrimary(s, p), ParsePrimary(s, p + 1))
  {
  }

  class Evaluator {
    const src: Source
    var next: nat              // arith_buf: the next token the lexer returns
    var yylval: YyVal
    var last: int              // last_token
    var vars: Env

    constructor (src: Source, vars: Env)
      ensures this.src == src && this.vars == vars && next == 0
    {
      this.src, this.vars := src, vars;
      next, yylval, last := 0, Val(0), 0;
    }

    /** last_token is the token at `q`, and nothing beyond it has been read. */
    ghost predicate AtToken(q: nat)
      reads this
    {
      q <= |src.toks| && last == src.Code(q) && next == src.Adv(q) && Holds(src, q, yylval)
    }

    /** The token at `p`, its value and the code after it have been read, and nothing beyond. */
    ghost predicate Ahead(p: nat, token: int, val: YyVal, op: int)
      reads this
    {
      && p <= |src.toks| && token == src.Code(p) && Holds(src, p, val)
      && op == src.Code(src.Adv(p)) && next == src.Adv(src.Adv(p)) && Holds(src, src.Adv(p), yylval)
    }

    /** What a parsing method must have done, given what the tree parser makes of its input. */
    ghost predicate Agrees(parsed: Parsed, noeval: bool, env: Env, r: Result<intmax>)
      reads this
    {
      if noeval then
        vars == env && if parsed.Fail? then r == Err(Syntax) else r.Ok? && AtToken(parsed.next)
      else if parsed.Fail? then r.Err?
      else
        match Eval(parsed.tree, env)
        case Value(v, e) => r == Ok(v) && vars == e && AtToken(parsed.next)
        case DivideByZero(e) => r == Err(DivisionByZero) && vars == e
    }

    method Yylex() returns (token: int)
      requires next <= |src.toks|
      modifies this`next, this`yylval
      ensures token == src.Code(old(next)) && next == src.Adv(old(next)) && Holds(src, old(next), yylval)
    {
      token := src.Code(next);
      if next < |src.toks| {
        match src.toks[next] {
          case Number(n) => yylval := Val(n);
          case Name(n) => yylval := Ref(n);
          case Op(_) =>
        }
        next := next + 1;
      }
    }

    method Primary(token0: int, val0: YyVal, op0: int, noeval: bool, ghost p0: nat) returns (r: Result<intmax>)
      requires Ahead(p0, token0, val0, op0)
      modifies this
      ensures Agrees(ParsePrimary(src, p0), noeval, old(vars), r)
      decreases |src.toks| - p0, 0, 1
    {
      hide ParsePrimary, Eval;
      var token, val, op := token0, val0, op0;
      ghost var p := p0;
      while token == ARITH_ADD
        invariant p0 <= p && Ahead(p, token, val, op) && vars == old(vars)
        invariant SameMeaning(ParsePrimary(src, p0), ParsePrimary(src, p))
        decreases |src.toks| - p
      {
        PlusMeans(src, p);
        token, val := op, yylval;
        op := Yylex();
        p := p + 1;
      }
      r := PrimaryProper(token, val, op, noeval, p);
    }

    /** primary() behind any unary plus. */
    method PrimaryProper(token: int, val0: YyVal, op: int, noeval: bool, ghost p: nat) returns (r: Result<intmax>)
      requires Ahead(p, token, val0, op) && token != ARITH_ADD
      modifies this
      ensures Agrees(ParsePrimary(src, p), noeval, old(vars), r)
      decreases |src.toks| - p, 0, 0
    {
      var val := val0;
      if token == ARITH_LPAREN {
        var result :- Assignment(op, noeval, p + 1);
        if last != ARITH_RPAREN {
          return Err(Syntax);
        }
        last := Yylex();
        return Ok(result);
      } else if token == ARITH_NUM {
        last := op;
        return Ok(val.val);
      } else if token == ARITH_VAR {
        last := op;
        if noeval {
          var junk: intmax := *;   // the union holds a pointer here
          return Ok(junk);
        }
        return Ok(Lookup(vars, val.name));
      } else if token == ARITH_SUB || token == ARITH_NOT || token == ARITH_BNOT {
        val := yylval;
        var op' := Yylex();
        var result :- Primary(op, val, op', noeval, p + 1);
        return Ok(DoUnary(token, result));
      } else {
        return Err(Syntax);
      }
    }

    /** The right operand of the operator `op` at `p`: the part of binop2()'s loop that reads a primary
        and lets tighter operators take it as their left operand. */
    method RightOperand(op: int, noeval: bool, ghost p: nat) returns (r: Result<intmax>)
      requires p < |src.toks| && op == src.Code(p) && IsBinop(op) && next == src.Adv(p)
      modifies this
      ensures Agrees(ParseLevel(src, p + 1, Prec(op)), noeval, old(vars), r)
      decreases |src.toks| - p, 0
    {
      hide ParseLevel, ParsePrimary;
      ghost var operand := ParsePrimary(src, p + 1);
      ghost var env := vars;
      LevelIsClimb(src, p + 1, Prec(op));
      if operand.Done? && Eval(operand.tree, env).DivideByZero? {
        ClimbStops(src, operand.tree, operand.next, Prec(op), env);
      }
      var token := Yylex();
      var val := yylval;
      var ahead := Yylex();
      var b :- Primary(token, val, ahead, noeval, p + 1);
      var op2 := last;
      if IsBinop(op2) && Prec(op2) < Prec(op) {
        r := Binop2(b, op2, Prec(op), noeval, operand.tree, operand.next, env);
      } else {
        r := Ok(b);
      }
    }

    /** Precedence climbing: `a` is the value of the tree `left` built so far and `op` the operator at
        `p`, just read. */
    method Binop2(a0: intmax, op0: int, prec: nat, noeval: bool, ghost left0: Tree, ghost p0: nat, ghost env: Env)
      returns (r: Result<intmax>)
      requires prec <= ARITH_MAX_PREC && p0 < |src.toks| && op0 == src.Code(p0) && BindsBelow(op0, prec)
      requires next == src.Adv(p0)
      requires if noeval then vars == env else Eval(left0, env) == Value(a0, vars)
      modifies this
      ensures Agrees(Climb(src, left0, p0, prec), noeval, env, r)
      decreases |src.toks| - p0, 1
    {
      hide ParseLevel, DoBinop, Holds;
      var a, op := a0, op0;
      ghost var left, p := left0, p0;
      while true
        invariant p0 <= p < |src.toks| && op == src.Code(p) && BindsBelow(op, prec) && next == src.Adv(p)
        invariant if noeval then vars == env else Eval(left, env) == Value(a, vars)
        invariant Climb(src, left0, p0, prec) == Climb(src, left, p, prec)
        decreases |src.toks| - p
      {
        ghost var right := ParseLevel(src, p + 1, Prec(op));
        if right.Done? && !noeval && Eval(Bin(op, left, right.tree), env).DivideByZero? {
          ClimbStops(src, Bin(op, left, right.tree), right.next, prec, env);
        }
        var b :- RightOperand(op, noeval, p);
        if noeval {
          a := b;
        } else if Divides(op) && b == 0 {
          return Err(DivisionByZero);
        } else {
          a := DoBinop(op, a, b);
        }
        left, p := Bin(op, left, right.tree), right.next;
        if !IsBinop(last) || Prec(last) >= prec {
          return Ok(a);
        }
        op := last;
      }
    }

    method Binop(token: int, val: YyVal, op0: int, noeval: bool, ghost p: nat) returns (r: Result<intmax>)
      requires Ahead(p, token, val, op0)
      modifies this
      ensures Agrees(ParseLevel(src, p, ARITH_MAX_PREC), noeval, old(vars), r)
      decreases |src.toks| - p, 2
    {
      ghost var operand := ParsePrimary(src, p);
      LevelIsClimb(src, p, ARITH_MAX_PREC);
      if operand.Done? && Eval(operand.tree, vars).DivideByZero? {
        ClimbStops(src, operand.tree, operand.next, ARITH_MAX_PREC, vars);
      }
      ghost var env := vars;
      var a :- Primary(token, val, op0, noeval, p);
      var op := last;
      if !IsBinop(op) {
        return Ok(a);
      }
      r := Binop2(a, op, ARITH_MAX_PREC, noeval, operand.tree, operand.next, env);
    }

    method And(token0: int, val0: YyVal, op0: int, noeval: bool, ghost p: nat) returns (r: Result<intmax>)
      requires Ahead(p, token0, val0, op0)
      modifies this
      ensures Agrees(ParseAnd(src, p), noeval, old(vars), r)
      decreases |src.toks| - p, 3
    {
      ghost var l := ParseLevel(src, p, ARITH_MAX_PREC);
      var a :- Binop(token0, val0, op0, noeval, p);
      if last != ARITH_AND {
        return Ok(a);
      }
      var token := Yylex();
      var val := yylval;
      var op := Yylex();
      var b :- And(token, val, op, noeval || a == 0, l.next + 1);
      return Ok(Truth(a != 0 && b != 0));
    }

    method Or(token0: int, val0: YyVal, op0: int, noeval: bool, ghost p: nat) returns (r: Result<intmax>)
      requires Ahead(p, token0, val0, op0)
      modifies this
      ensures Agrees(ParseOr(src, p), noeval, old(vars), r)
      decreases |src.toks| - p, 4
    {
      ghost var l := ParseAnd(src, p);
      var a :- And(token0, val0, op0, noeval, p);
      if last != ARITH_OR {
        return Ok(a);
      }
      var token := Yylex();
      var val := yylval;
      var op := Yylex();
      var b :- Or(token, val, op, noeval || a != 0, l.next + 1);
      return Ok(Truth(a != 0 || b != 0));
    }

    method Cond(token0: int, val0: YyVal, op0: int, noeval: bool, ghost p: nat) returns (r: Result<intmax>)
      requires Ahead(p, token0, val0, op0)
      modifies this
      ensures Agrees(ParseCond(src, p), noeval, old(vars), r)
      decreases |src.toks| - p, 5, 1
    {
      hide ParseOr, ParseAssign, Holds, Truth;
      ghost var c, env := ParseOr(src, p), vars;
      var a :- Or(token0, val0, op0, noeval, p);
      if last != ARITH_QMARK {
        return Ok(a);
      }
      r := Branches(a, noeval, p, c, env);
    }

    /** The part of cond() behind the question mark. */
    method Branches(a: intmax, noeval: bool, ghost p: nat, ghost c: Parsed, ghost env: Env) returns (r: Result<intmax>)
      requires c == ParseOr(src, p) && c.Done? && AtToken(c.next) && last == ARITH_QMARK
      requires if noeval then vars == env else Eval(c.tree, env) == Value(a, vars)
      modifies this
      ensures Agrees(ParseCond(src, p), noeval, env, r)
      decreases |src.toks| - p, 5, 0
    {
      hide ParseOr, ParseAssign, Holds, Truth;
      var first := Yylex();
      ghost var t := ParseAssign(src, c.next + 1);
      var b :- Assignment(first, noeval || a == 0, c.next + 1);
      if last != ARITH_COLON {
        return Err(Syntax);
      }
      var token := Yylex();
      var val := yylval;
      var op := Yylex();
      var d :- Cond(token, val, op, noeval || a != 0, t.next + 1);
      return Ok(if a != 0 then b else d);
    }

    method Assignment(v: int, noeval: bool, ghost p: nat) returns (r: Result<intmax>)
      requires p <= |src.toks| && v == src.Code(p) && next == src.Adv(p) && Holds(src, p, yylval)
      modifies this
      ensures Agrees(ParseAssign(src, p), noeval, old(vars), r)
      decreases |src.toks| - p, 6
    {
      hide ParseCond, DoBinop;
      var val := yylval;
      var op := Yylex();
      if v != ARITH_VAR {
        r := Cond(v, val, op, noeval, p);
        return;
      }
      if !IsAssign(op) {
        r := Cond(v, val, op, noeval, p);
        return;
      }
      var first := Yylex();
      var result :- Assignment(first, noeval, p + 2);
      if noeval {
        return Ok(result);
      }
      var value := result;
      if op != ARITH_ASS {
        if Divides(op - 11) && result == 0 {
          return Err(DivisionByZero);
        }
        value := DoBinop(op - 11, Lookup(vars, val.name), result);
      }
      vars := vars[val.name := value];
      return Ok(value);
    }

    /** The result, for every input, in terms of the grammar and the meaning of trees alone. */
    method Arith() returns (r: Result<intmax>)
      requires next == 0
      modifies this
      ensures forall t :: Shaped(t) && Spelled(src, t) ==>
        match Eval(t, old(vars))
        case Value(v, e) => r == Ok(v) && vars == e
        case DivideByZero(e) => r == Err(DivisionByZero) && vars == e
      ensures (!exists t :: Shaped(t) && Spelled(src, t)) ==> r.Err?
    {
      ParseDecides(src);
      forall t | Shaped(t) && Spelled(src, t)
        ensures Parse(src) == Done(t, |src.toks|)
      {
        ParseIff(src, t);
      }
      var first := Yylex();
      var result :- Assignment(first, false, 0);
      if last != ARITH_EOF {
        return Err(Syntax);
      }
      return Ok(result);
    }
  }
}
