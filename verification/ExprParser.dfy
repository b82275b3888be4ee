/** The expression parser and printer, from tokens to expressions and back. */
module ExprParser {
  import opened Types
  import opened Semantics
  import opened SplitExpr

  /** `EndT` is the None that ends every token list. */
  datatype Token =
    | SymT(s: nat)
    | RelT(op: RelOp)
    | NotT
    | AndT
    | OrT
    | OpenT
    | CloseT
    | OtherT
    | EndT

  /** How expressions are read: with `transform`, a plain m becomes m && MODULES. */
  datatype Mode = Mode(transform: bool, m: nat, modules: nat)

  function PlainSym(k: Mode, s: nat): Expr {
    if k.transform && s == k.m then And(SymE(k.m), SymE(k.modules)) else SymE(s)
  }

  // ---------- The grammar as functions on the remaining tokens ----------

  /** expr: and_expr ['||' expr] */
  function ParseOr(k: Mode, ts: seq<Token>): (r: Option<(Expr, seq<Token>)>)
    ensures r.Some? ==> |r.value.1| < |ts|
    decreases |ts|, 2
  {
    match ParseAnd(k, ts)
    case None => None
    case Some((e, rest)) =>
      if rest != [] && rest[0] == OrT then
        match ParseOr(k, rest[1..])
        case None => None
        case Some((e', rest')) => Some((Or(e, e'), rest'))
      else Some((e, rest))
  }

  /** and_expr: factor ['&&' and_expr] */
  function ParseAnd(k: Mode, ts: seq<Token>): (r: Option<(Expr, seq<Token>)>)
    ensures r.Some? ==> |r.value.1| < |ts|
    decreases |ts|, 1
  {
    match ParseFactor(k, ts)
    case None => None
    case Some((e, rest)) =>
      if rest != [] && rest[0] == AndT then
        match ParseAnd(k, rest[1..])
        case None => None
        case Some((e', rest')) => Some((And(e, e'), rest'))
      else Some((e, rest))
  }

  /** factor: symbol [relation symbol] | '!' factor | '(' expr ')' */
  function ParseFactor(k: Mode, ts: seq<Token>): (r: Option<(Expr, seq<Token>)>)
    ensures r.Some? ==> |r.value.1| < |ts|
    decreases |ts|, 0
  {
    if ts == [] then None
    else
      match ts[0]
      case SymT(s) =>
        if |ts| > 1 && ts[1].RelT? then
          if |ts| > 2 && ts[2].SymT? then Some((Rel(ts[1].op, s, ts[2].s), ts[3..])) else None
        else Some((PlainSym(k, s), ts[1..]))
      case NotT =>
        (match ParseFactor(k, ts[1..])
         case None => None
         case Some((e, rest)) => Some((Not(e), rest)))
      case OpenT =>
        (match ParseOr(k, ts[1..])
         case None => None
         case Some((e, rest)) => if rest != [] && rest[0] == CloseT then Some((e, rest[1..])) else None)
      case _ => None
  }

  // ---------- The parser ----------

  /** The parser's state: the tokens of a line and the index of the next one. */
  class Parser {
    const tokens: seq<Token>
    const k: Mode
    var i: nat

    /** The None at the end has not been passed yet. */
    ghost predicate Valid()
      reads this
    {
      i < |tokens| && tokens[|tokens| - 1] == EndT
    }

    /** What is left on success, and the index stays in front of the terminator. */
    ghost predicate Parsed(r: Option<Expr>, spec: Option<(Expr, seq<Token>)>)
      reads this
    {
      match spec
      case None => r == None
      case Some((e, rest)) => r == Some(e) && Valid() && tokens[i..] == rest
    }

    constructor (tokens: seq<Token>, k: Mode)
      requires tokens != [] && tokens[|tokens| - 1] == EndT
      ensures Valid() && this.tokens == tokens && this.k == k && i == 0
    {
      this.tokens, this.k, this.i := tokens, k, 0;
    }

    /** Kconfig._check_token() */
    method CheckToken(token: Token) returns (found: bool)
      requires Valid() && token != EndT
      modifies this
      ensures Valid() && found == (old(tokens[i]) == token) && i == if found then old(i) + 1 else old(i)
    {
      if tokens[i] == token {
        i := i + 1;
        return true;
      }
      return false;
    }

    /** Kconfig._expect_sym(), None standing for the parse error. */
    method ExpectSym() returns (s: Option<nat>)
      requires Valid()
      modifies this
      ensures old(tokens[i]).SymT? ==> Valid() && s == Some(old(tokens[i]).s) && i == old(i) + 1
      ensures !old(tokens[i]).SymT? ==> s == None
    {
      var token := tokens[i];
      i := i + 1;
      return if token.SymT? then Some(token.s) else None;
    }

    /** Kconfig._parse_expr() */
    method ParseExpr() returns (r: Option<Expr>)
      requires Valid()
      modifies this
      ensures Parsed(r, ParseOr(k, old(tokens[i..])))
      decreases |tokens| - i, 2
    {
      ghost var ts := tokens[i..];
      var left := ParseAndExpr();
      if left.None? {
        return None;
      }
      var found := CheckToken(OrT);
      if !found {
        return left;
      }
      assert tokens[i..] == tokens[i - 1..][1..];
      var right := ParseExpr();
      return if right.None? then None else Some(Or(left.value, right.value));
    }

    /** Kconfig._parse_and_expr() */
    method ParseAndExpr() returns (r: Option<Expr>)
      requires Valid()
      modifies this
      ensures Parsed(r, ParseAnd(k, old(tokens[i..])))
      decreases |tokens| - i, 1
    {
      ghost var ts := tokens[i..];
      var left := ParseFactorExpr();
      if left.None? {
        return None;
      }
      var found := CheckToken(AndT);
      if !found {
        return left;
      }
      assert tokens[i..] == tokens[i - 1..][1..];
      var right := ParseAndExpr();
      return if right.None? then None else Some(And(left.value, right.value));
    }

    /** Kconfig._parse_factor() */
    method ParseFactorExpr() returns (r: Option<Expr>)
      requires Valid()
      modifies this
      ensures Parsed(r, ParseFactor(k, old(tokens[i..])))
      decreases |tokens| - i, 0
    {
      ghost var ts := tokens[i..];
      var token := tokens[i];
      i := i + 1;
      if token.SymT? {
        assert tokens[i] == ts[1] && tokens[i..] == ts[1..];
        if !tokens[i].RelT? {
          return Some(PlainSym(k, token.s));
        }
        i := i + 1;
        var op := tokens[i - 1].op;
        assert tokens[i] == ts[2];
        var right := ExpectSym();
        if right.None? {
          return None;
        }
        assert tokens[i..] == ts[3..];
        return Some(Rel(op, token.s, right.value));
      }
      if token == NotT {
        assert tokens[i..] == ts[1..];
        var e := ParseFactorExpr();
        return if e.None? then None else Some(Not(e.value));
      }
      if token == OpenT {
        assert tokens[i..] == ts[1..];
        var e := ParseExpr();
        if e.None? {
          return None;
        }
        var closed := CheckToken(CloseT);
        if closed {
          assert tokens[i..] == tokens[i - 1..][1..];
          return e;
        }
      }
      return None;
    }
  }

  // ---------- The printer ----------

  /** expr_str(), with tokens instead of text. Choices print as text that does not parse. */
  function Print(e: Expr): seq<Token>
    decreases e, 0
  {
    match e
    case SymE(s) => [SymT(s)]
    case ChoiceE(_) => [OtherT]
    case And(l, r) => Parenthesize(l, OR) + [AndT] + Parenthesize(r, OR)
    case Or(l, r) => Parenthesize(l, AND) + [OrT] + Parenthesize(r, AND)
    case Not(e1) => [NotT] + if e1.SymE? || e1.ChoiceE? then Print(e1) else [OpenT] + Print(e1) + [CloseT]
    case Rel(op, a, b) => [SymT(a), RelT(op), SymT(b)]
  }

  /** _parenthesize() */
  function Parenthesize(e: Expr, op: Op): seq<Token>
    decreases e, 1
  {
    if HasOp(e, op) then [OpenT] + Print(e) + [CloseT] else Print(e)
  }

  /** The expression with runs of the same operator nested to the right. */
  function Norm(e: Expr): Expr {
    match e
    case And(l, r) => Append(AND, Norm(l), Norm(r))
    case Or(l, r) => Append(OR, Norm(l), Norm(r))
    case Not(e1) => Not(Norm(e1))
    case _ => e
  }

  function Combine(op: Op, l: Expr, r: Expr): Expr {
    if op == AND then And(l, r) else Or(l, r)
  }

  /** Puts `r` behind the last operand of `l`. */
  function Append(op: Op, l: Expr, r: Expr): Expr
    decreases l
  {
    if HasOp(l, op) then Combine(op, l.l, Append(op, l.r, r)) else Combine(op, l, r)
  }

  /** The rewriting of m in conditions; operands of relations are left alone. */
  function Rewrite(k: Mode, e: Expr): Expr {
    match e
    case SymE(s) => PlainSym(k, s)
    case And(l, r) => And(Rewrite(k, l), Rewrite(k, r))
    case Or(l, r) => Or(Rewrite(k, l), Rewrite(k, r))
    case Not(e1) => Not(Rewrite(k, e1))
    case _ => e
  }

  /** Append on the rewritten form, in which an operand may itself be m && MODULES. */
  function AppendTo(k: Mode, op: Op, l: Expr, x: Expr): Expr
    decreases l
  {
    if HasOp(l, op) then Combine(op, Rewrite(k, l.l), AppendTo(k, op, l.r, x)) else Combine(op, Rewrite(k, l), x)
  }

  predicate NoChoice(e: Expr) {
    match e
    case ChoiceE(_) => false
    case And(l, r) => NoChoice(l) && NoChoice(r)
    case Or(l, r) => NoChoice(l) && NoChoice(r)
    case Not(e1) => NoChoice(e1)
    case _ => true
  }

  lemma {:induction false} RewriteAppend(k: Mode, op: Op, l: Expr, r: Expr)
    ensures Rewrite(k, Append(op, l, r)) == AppendTo(k, op, l, Rewrite(k, r))
    decreases l
  {
    if HasOp(l, op) {
      RewriteAppend(k, op, l.r, r);
    }
  }

  lemma {:induction false} AppendToAppend(k: Mode, op: Op, a: Expr, b: Expr, x: Expr)
    ensures AppendTo(k, op, Append(op, a, b), x) == AppendTo(k, op, a, AppendTo(k, op, b, x))
    decreases a
  {
    if HasOp(a, op) {
      AppendToAppend(k, op, a.r, b, x);
    }
  }

  /** Normalising keeps the operator at the top, if there is one. */
  lemma NormTop(e: Expr, op: Op)
    ensures HasOp(Norm(e), op) == HasOp(e, op)
  {
    if e.And? {
      assert Append(AND, Norm(e.l), Norm(e.r)).And?;
    } else if e.Or? {
      assert Append(OR, Norm(e.l), Norm(e.r)).Or?;
    }
  }

  // ---------- Parsing what was printed ----------

  /** Nothing that continues the expression follows. */
  predicate Stops(ts: seq<Token>) {
    ts != [] && !ts[0].RelT? && ts[0] != AndT && ts[0] != OrT
  }

  /** The tokens p in front of ts are read as the factor e. */
  predicate FactorBefore(k: Mode, p: seq<Token>, e: Expr, ts: seq<Token>) {
    ts != [] && !ts[0].RelT? ==> ParseFactor(k, p + ts) == Some((Rewrite(k, e), ts))
  }

  ghost predicate ReadAsFactor(k: Mode, p: seq<Token>, e: Expr) {
    forall ts :: FactorBefore(k, p, e, ts)
  }

  /** Read by ParseAnd or ParseOr. */
  function ParseOp(k: Mode, op: Op, ts: seq<Token>): Option<(Expr, seq<Token>)> {
    if op == AND then ParseAnd(k, ts) else ParseOr(k, ts)
  }

  function TokenOf(op: Op): Token {
    if op == AND then AndT else OrT
  }

  /** The tokens p are read as a whole run of operands. */
  predicate AloneBefore(k: Mode, op: Op, p: seq<Token>, e: Expr, ts: seq<Token>) {
    Stops(ts) ==> ParseOp(k, op, p + ts) == Some((Rewrite(k, e), ts))
  }

  /** The tokens p are read as the first operands of a run that goes on with ts. */
  predicate OperandsBefore(k: Mode, op: Op, p: seq<Token>, e: Expr, ts: seq<Token>) {
    match ParseOp(k, op, ts)
    case None => true
    case Some((x, rest)) => ParseOp(k, op, p + ([TokenOf(op)] + ts)) == Some((AppendTo(k, op, e, x), rest))
  }

  ghost predicate ReadAsOperands(k: Mode, op: Op, p: seq<Token>, e: Expr) {
    && (forall ts :: AloneBefore(k, op, p, e, ts))
    && (forall ts :: OperandsBefore(k, op, p, e, ts))
  }

  /** A factor is an operand of either operator. */
  lemma FactorOperands(k: Mode, op: Op, p: seq<Token>, e: Expr)
    requires ReadAsFactor(k, p, e) && !HasOp(e, op)
    ensures ReadAsOperands(k, op, p, e)
  {
    hide ParseFactor, Rewrite;
    forall ts
      ensures AloneBefore(k, op, p, e, ts)
    {
      FactorAlone(k, op, p, e, ts);
    }
    forall ts
      ensures OperandsBefore(k, op, p, e, ts)
    {
      FactorThenOperands(k, op, p, e, ts);
    }
  }

  lemma FactorAlone(k: Mode, op: Op, p: seq<Token>, e: Expr, ts: seq<Token>)
    requires ReadAsFactor(k, p, e)
    ensures AloneBefore(k, op, p, e, ts)
  {
    hide ParseFactor, Rewrite;
    assert FactorBefore(k, p, e, ts);
    if Stops(ts) {
      assert ParseAnd(k, p + ts) == Some((Rewrite(k, e), ts));
      assert ParseOr(k, p + ts) == Some((Rewrite(k, e), ts));
    }
  }

  lemma FactorThenOperands(k: Mode, op: Op, p: seq<Token>, e: Expr, ts: seq<Token>)
    requires ReadAsFactor(k, p, e) && !HasOp(e, op)
    ensures OperandsBefore(k, op, p, e, ts)
  {
    hide ParseFactor, Rewrite;
    var more := [TokenOf(op)] + ts;
    assert more[1..] == ts;
    assert FactorBefore(k, p, e, more);
    assert ParseAnd(k, p + more) ==
           if op == AND && ParseAnd(k, ts).Some?
           then Some((And(Rewrite(k, e), ParseAnd(k, ts).value.0), ParseAnd(k, ts).value.1))
           else if op == AND then None
           else Some((Rewrite(k, e), more));
  }

  /** Two runs of operands with the operator between them. */
  lemma JoinOperands(k: Mode, op: Op, p: seq<Token>, q: seq<Token>, l: Expr, r: Expr)
    requires ReadAsOperands(k, op, p, l) && ReadAsOperands(k, op, q, r)
    ensures ReadAsOperands(k, op, p + [TokenOf(op)] + q, Append(op, l, r))
  {
    hide ParseOp, Rewrite, AppendTo, Append, Stops;
    var t := [TokenOf(op)];
    var pq := p + t + q;
    RewriteAppend(k, op, l, r);
    forall ts
      ensures AloneBefore(k, op, pq, Append(op, l, r), ts)
    {
      assert pq + ts == p + (t + (q + ts));
      assert AloneBefore(k, op, q, r, ts) && OperandsBefore(k, op, p, l, q + ts);
    }
    forall ts
      ensures OperandsBefore(k, op, pq, Append(op, l, r), ts)
    {
      var rest := q + (t + ts);
      assert pq + (t + ts) == p + (t + rest);
      assert OperandsBefore(k, op, q, r, ts) && OperandsBefore(k, op, p, l, rest);
      if ParseOp(k, op, ts).Some? {
        AppendToAppend(k, op, l, r, ParseOp(k, op, ts).value.0);
      }
    }
  }

  /** A parenthesised expression is a factor. */
  lemma ParenFactor(k: Mode, p: seq<Token>, e: Expr)
    requires forall ts :: AloneBefore(k, OR, p, e, ts)
    ensures ReadAsFactor(k, [OpenT] + p + [CloseT], e)
  {
    hide ParseOr, Rewrite;
    forall ts
      ensures FactorBefore(k, [OpenT] + p + [CloseT], e, ts)
    {
      var all := [OpenT] + p + [CloseT] + ts;
      assert all[1..] == p + ([CloseT] + ts);
      assert AloneBefore(k, OR, p, e, [CloseT] + ts);
      assert ([CloseT] + ts)[1..] == ts;
    }
  }

  lemma NotFactor(k: Mode, p: seq<Token>, e: Expr)
    requires ReadAsFactor(k, p, e)
    ensures ReadAsFactor(k, [NotT] + p, Not(e))
  {
    forall ts
      ensures FactorBefore(k, [NotT] + p, Not(e), ts)
    {
      var all := [NotT] + p + ts;
      assert all[1..] == p + ts;
      assert FactorBefore(k, p, e, ts);
      assert ParseFactor(k, all) ==
             match ParseFactor(k, all[1..])
             case None => None
             case Some((e', rest)) => Some((Not(e'), rest));
      hide ParseFactor;
    }
  }

  lemma LeafFactor(k: Mode, e: Expr)
    requires e.SymE? || e.Rel?
    ensures ReadAsFactor(k, Print(e), e)
  {
    forall ts
      ensures FactorBefore(k, Print(e), e, ts)
    {
      var all := Print(e) + ts;
      if ts != [] {
        if e.SymE? {
          assert all[1..] == ts && all[1] == ts[0];
        } else {
          assert all[3..] == ts;
        }
      }
    }
  }

  /** An expression printed as an operand of the operator. */
  lemma {:induction false} PrintedOperand(k: Mode, op: Op, e: Expr)
    requires NoChoice(e)
    ensures var other := if op == AND then OR else AND;
            ReadAsOperands(k, op, Parenthesize(e, other), Norm(e))
    decreases e, 3
  {
    hide ReadAsOperands, ReadAsFactor, Rewrite;
    var other := if op == AND then OR else AND;
    if HasOp(e, op) {
      PrintedOperand(k, op, e.l);
      PrintedOperand(k, op, e.r);
      JoinOperands(k, op, Parenthesize(e.l, other), Parenthesize(e.r, other), Norm(e.l), Norm(e.r));
    } else {
      if HasOp(e, other) {
        PrintedAlone(k, e);
        ParenFactor(k, Print(e), Norm(e));
      } else {
        PrintedFactor(k, e);
      }
      NormTop(e, op);
      FactorOperands(k, op, Parenthesize(e, other), Norm(e));
    }
  }

  lemma {:induction false} PrintedFactor(k: Mode, e: Expr)
    requires NoChoice(e) && !e.And? && !e.Or?
    ensures ReadAsFactor(k, Print(e), Norm(e))
    decreases e, 1
  {
    hide ReadAsFactor, ReadAsOperands, Rewrite;
    if e.Not? {
      if e.e.SymE? {
        LeafFactor(k, e.e);
        NotFactor(k, Print(e.e), e.e);
      } else {
        PrintedAlone(k, e.e);
        ParenFactor(k, Print(e.e), Norm(e.e));
        NotFactor(k, [OpenT] + Print(e.e) + [CloseT], Norm(e.e));
      }
    } else {
      LeafFactor(k, e);
    }
  }

  /** A printed expression is read back in normal form, with m rewritten if asked for, and the
      parser stops right behind it. */
  lemma {:induction false} PrintedAlone(k: Mode, e: Expr)
    requires NoChoice(e)
    ensures forall ts :: AloneBefore(k, OR, Print(e), Norm(e), ts)
    decreases e, 2
  {
    hide Rewrite, ParseOr, ParseAnd, Print, Norm, AloneBefore, OperandsBefore;
    if e.Or? {
      PrintedJoin(k, OR, e);
    } else if e.And? {
      PrintedJoin(k, AND, e);
      OrOfAnd(k, Print(e), Norm(e));
    } else {
      PrintedFactor(k, e);
      NormTop(e, OR);
      FactorOperands(k, OR, Print(e), Norm(e));
    }
  }

  lemma {:induction false} PrintedJoin(k: Mode, op: Op, e: Expr)
    requires NoChoice(e) && HasOp(e, op)
    ensures ReadAsOperands(k, op, Print(e), Norm(e))
    decreases e, 0
  {
    hide ReadAsOperands;
    var other := if op == AND then OR else AND;
    PrintedOperand(k, op, e.l);
    PrintedOperand(k, op, e.r);
    JoinOperands(k, op, Parenthesize(e.l, other), Parenthesize(e.r, other), Norm(e.l), Norm(e.r));
  }

  lemma OrOfAnd(k: Mode, p: seq<Token>, e: Expr)
    requires ReadAsOperands(k, AND, p, e)
    ensures forall ts :: AloneBefore(k, OR, p, e, ts)
  {
    hide ParseAnd, Rewrite;
    forall ts
      ensures AloneBefore(k, OR, p, e, ts)
    {
      assert AloneBefore(k, AND, p, e, ts);
    }
  }

  // ---------- The round trip ----------

  /** No AND or OR has the same operator as its left operand. */
  predicate LeftFree(e: Expr) {
    match e
    case And(l, r) => !l.And? && LeftFree(l) && LeftFree(r)
    case Or(l, r) => !l.Or? && LeftFree(l) && LeftFree(r)
    case Not(e1) => LeftFree(e1)
    case _ => true
  }

  lemma {:induction false} AppendLeftFree(op: Op, l: Expr, r: Expr)
    requires LeftFree(l) && LeftFree(r)
    ensures LeftFree(Append(op, l, r))
    decreases l
  {
    if HasOp(l, op) {
      AppendLeftFree(op, l.r, r);
    }
  }

  /** The normal form exists for every expression, and an expression is its own normal form
      exactly if it has no operator to the left of the same operator. */
  lemma {:induction false} NormIsExact(e: Expr)
    ensures LeftFree(Norm(e)) && (Norm(e) == e <==> LeftFree(e))
  {
    match e
    case And(l, r) =>
      NormIsExact(l);
      NormIsExact(r);
      AppendLeftFree(AND, Norm(l), Norm(r));
      if LeftFree(e) {
        assert Append(AND, l, r) == e;
      }
    case Or(l, r) =>
      NormIsExact(l);
      NormIsExact(r);
      AppendLeftFree(OR, Norm(l), Norm(r));
      if LeftFree(e) {
        assert Append(OR, l, r) == e;
      }
    case Not(e1) => NormIsExact(e1);
    case _ =>
  }

  lemma {:induction false} AppendValue(cfg: Config, u: User, op: Op, l: Expr, r: Expr, env: Env)
    ensures ExprVal(cfg, u, Append(op, l, r), env) == ExprVal(cfg, u, Combine(op, l, r), env)
    decreases l
  {
    if HasOp(l, op) {
      AppendValue(cfg, u, op, l.r, r, env);
    }
  }

  /** The normal form has the same value. */
  lemma {:induction false} NormValue(cfg: Config, u: User, e: Expr, env: Env)
    ensures ExprVal(cfg, u, Norm(e), env) == ExprVal(cfg, u, e, env)
  {
    match e
    case And(l, r) =>
      NormValue(cfg, u, l, env);
      NormValue(cfg, u, r, env);
      AppendValue(cfg, u, AND, Norm(l), Norm(r), env);
    case Or(l, r) =>
      NormValue(cfg, u, l, env);
      NormValue(cfg, u, r, env);
      AppendValue(cfg, u, OR, Norm(l), Norm(r), env);
    case Not(e1) => NormValue(cfg, u, e1, env);
    case _ =>
  }

  function NormAll(es: seq<Expr>): seq<Expr> {
    seq(|es|, i requires 0 <= i < |es| => Norm(es[i]))
  }

  lemma {:induction false} AppendOperands(op: Op, l: Expr, r: Expr)
    ensures Operands(Append(op, l, r), op) == Operands(l, op) + Operands(r, op)
    decreases l
  {
    if HasOp(l, op) {
      AppendOperands(op, l.r, r);
      assert Operands(l, op) == Operands(l.l, op) + Operands(l.r, op);
    }
  }

  /** Normalising keeps the operands that split_expr() finds, and their order. */
  lemma {:induction false} NormOperands(e: Expr, op: Op)
    ensures Operands(Norm(e), op) == NormAll(Operands(e, op))
  {
    if HasOp(e, op) {
      NormOperands(e.l, op);
      NormOperands(e.r, op);
      AppendOperands(op, Norm(e.l), Norm(e.r));
      assert NormAll(Operands(e.l, op) + Operands(e.r, op)) == NormAll(Operands(e.l, op)) + NormAll(Operands(e.r, op));
    } else {
      NormTop(e, op);
    }
  }

  lemma {:induction false} RewriteNothing(k: Mode, e: Expr)
    requires !k.transform
    ensures Rewrite(k, e) == e
  {
    match e
    case And(l, r) => RewriteNothing(k, l); RewriteNothing(k, r);
    case Or(l, r) => RewriteNothing(k, l); RewriteNothing(k, r);
    case Not(e1) => RewriteNothing(k, e1);
    case _ =>
  }

  /** Rewriting m to m && MODULES does not change values while MODULES is not n. */
  lemma {:induction false} RewriteValue(cfg: Config, u: User, k: Mode, e: Expr, env: Env)
    requires env(TriV(k.m)).t == 1 && env(TriV(k.modules)).t != 0
    ensures ExprVal(cfg, u, Rewrite(k, e), env) == ExprVal(cfg, u, e, env)
  {
    match e
    case And(l, r) => RewriteValue(cfg, u, k, l, env); RewriteValue(cfg, u, k, r, env);
    case Or(l, r) => RewriteValue(cfg, u, k, l, env); RewriteValue(cfg, u, k, r, env);
    case Not(e1) => RewriteValue(cfg, u, k, e1, env);
    case _ =>
  }

  /** With MODULES at n, the rewriting turns m into n. */
  lemma RewriteValueIff(cfg: Config, u: User, k: Mode, env: Env)
    requires k.transform && env(TriV(k.m)).t == 1
    ensures (forall e :: ExprVal(cfg, u, Rewrite(k, e), env) == ExprVal(cfg, u, e, env)) <==> env(TriV(k.modules)).t != 0
  {
    if env(TriV(k.modules)).t != 0 {
      forall e
        ensures ExprVal(cfg, u, Rewrite(k, e), env) == ExprVal(cfg, u, e, env)
      {
        RewriteValue(cfg, u, k, e, env);
      }
    } else {
      assert ExprVal(cfg, u, Rewrite(k, SymE(k.m)), env) == 0 && ExprVal(cfg, u, SymE(k.m), env) == 1;
    }
  }

  /** Printing an expression and parsing the result gives the normal form, with m rewritten if
      asked for, and leaves exactly the terminator. The expression itself comes back exactly if
      it has no operator to the left of the same operator. */
  lemma PrintParse(k: Mode, e: Expr)
    requires NoChoice(e)
    ensures ParseOr(k, Print(e) + [EndT]) == Some((Rewrite(k, Norm(e)), [EndT]))
    ensures !k.transform ==> (ParseOr(k, Print(e) + [EndT]) == Some((e, [EndT])) <==> LeftFree(e))
  {
    PrintedAlone(k, e);
    assert AloneBefore(k, OR, Print(e), Norm(e), [EndT]);
    if !k.transform {
      RewriteNothing(k, Norm(e));
      NormIsExact(e);
    }
  }

  /** What is parsed back has the value and the operands of the printed expression. */
  lemma PrintParseMeaning(cfg: Config, u: User, k: Mode, e: Expr, op: Op, env: Env)
    requires NoChoice(e) && env(TriV(k.m)).t == 1 && env(TriV(k.modules)).t != 0
    ensures var r := ParseOr(k, Print(e) + [EndT]);
            && r.Some? && ExprVal(cfg, u, r.value.0, env) == ExprVal(cfg, u, e, env)
            && (!k.transform ==> Operands(r.value.0, op) == NormAll(Operands(e, op)))
  {
    PrintParse(k, e);
    NormValue(cfg, u, e, env);
    RewriteValue(cfg, u, k, Norm(e), env);
    NormOperands(e, op);
    if !k.transform {
      RewriteNothing(k, Norm(e));
    }
  }
}
