/** The top-level operands of an expression, and the diagnoses that rest on them: the
    dependencies an assigned value misses, and the selects that exceed the dependencies. */
module SplitExpr {
  import opened Types
  import opened Semantics
  import opened Evaluation
  import opened Caching
  import opened UserInput
  import opened Choices
  import opened FullConfig
  import opened MinConfig
  import opened Engine
  import opened ConfigIO

  datatype Op = AND | OR

  predicate HasOp(e: Expr, op: Op) {
    if op == AND then e.And? else e.Or?
  }

  /** The operands from left to right; nested operators of the same kind are opened up. */
  function Operands(e: Expr, op: Op): seq<Expr> {
    match e
    case And(l, r) => if op == AND then Operands(l, op) + Operands(r, op) else [e]
    case Or(l, r) => if op == OR then Operands(l, op) + Operands(r, op) else [e]
    case _ => [e]
  }

  /** split_expr()'s inner function, which appends to the result list. */
  method Rec(e: Expr, op: Op, res: seq<Expr>) returns (res': seq<Expr>)
    ensures res' == res + Operands(e, op)
  {
    if HasOp(e, op) {
      res' := Rec(e.l, op, res);
      res' := Rec(e.r, op, res');
    } else {
      res' := res + [e];
    }
  }

  method Split(e: Expr, op: Op) returns (res: seq<Expr>)
    ensures res == Operands(e, op)
  {
    res := Rec(e, op, []);
  }

  /** The expression that joins operands, associating to the right. */
  function Join(es: seq<Expr>, op: Op): Expr
    requires es != []
  {
    if |es| == 1 then es[0]
    else if op == AND then And(es[0], Join(es[1..], op))
    else Or(es[0], Join(es[1..], op))
  }

  // ---------- Operands and values ----------

  /** The list is not empty, and none of its elements has the operator at the top. */
  lemma {:induction false} OperandsFlat(e: Expr, op: Op)
    ensures Operands(e, op) != []
    ensures forall x :: x in Operands(e, op) ==> !HasOp(x, op)
  {
    if HasOp(e, op) {
      OperandsFlat(e.l, op);
      OperandsFlat(e.r, op);
    }
  }

  /** Splitting undoes joining: a list of operands without the operator comes back, in order. */
  lemma {:induction false} OperandsOfJoin(es: seq<Expr>, op: Op)
    requires es != [] && forall x :: x in es ==> !HasOp(x, op)
    ensures Operands(Join(es, op), op) == es
  {
    assert es[0] in es;
    if |es| > 1 {
      assert forall x :: x in es[1..] ==> x in es;
      OperandsOfJoin(es[1..], op);
      assert [es[0]] + es[1..] == es;
    }
  }

  /** All operands have at least (AND) or at most (OR) the value v, and one has exactly v. */
  ghost predicate IsExtremum(cfg: Config, u: User, es: seq<Expr>, op: Op, v: Tri, env: Env) {
    && (forall x :: x in es ==> if op == AND then v <= ExprVal(cfg, u, x, env) else ExprVal(cfg, u, x, env) <= v)
    && (exists x :: x in es && ExprVal(cfg, u, x, env) == v)
  }

  /** The value of an expression is the minimum of its AND operands and the maximum of its OR
      operands. */
  lemma {:induction false} ValueOfOperands(cfg: Config, u: User, e: Expr, op: Op, env: Env)
    ensures IsExtremum(cfg, u, Operands(e, op), op, ExprVal(cfg, u, e, env), env)
  {
    if HasOp(e, op) {
      ValueOfOperands(cfg, u, e.l, op, env);
      ValueOfOperands(cfg, u, e.r, op, env);
      var ls, rs, v := Operands(e.l, op), Operands(e.r, op), ExprVal(cfg, u, e, env);
      assert forall x :: x in ls || x in rs <==> x in ls + rs;
      if ExprVal(cfg, u, e.l, env) == v {
        var x :| x in ls && ExprVal(cfg, u, x, env) == v;
        assert x in ls + rs;
      } else {
        var x :| x in rs && ExprVal(cfg, u, x, env) == v;
        assert x in ls + rs;
      }
    } else {
      assert e in Operands(e, op);
    }
  }

  /** Expressions with the same operands have the same value: parentheses and order at the top
      level do not matter. */
  lemma SameOperandsSameValue(cfg: Config, u: User, e1: Expr, e2: Expr, op: Op, env: Env)
    requires forall x :: x in Operands(e1, op) <==> x in Operands(e2, op)
    ensures ExprVal(cfg, u, e1, env) == ExprVal(cfg, u, e2, env)
  {
    ValueOfOperands(cfg, u, e1, op, env);
    ValueOfOperands(cfg, u, e2, op, env);
  }

  // ---------- Missing dependencies ----------

  /** The dependencies that are below the assigned value, or n for symbols that are not bool
      or tristate. */
  ghost predicate IsMissing(cfg: Config, u: User, i: nat, dep: Expr)
    requires Acyclic(cfg)
  {
    var v := ExprVal(cfg, u, dep, EnvOf(cfg, u));
    if IsBoolTri(cfg.Sym(i).typ) then i in u.sym && v < UserTri(u.sym[i]) else v == 0
  }

  ghost function Missing(cfg: Config, u: User, i: nat, deps: seq<Expr>): seq<Expr>
    requires Acyclic(cfg)
  {
    if deps == [] then []
    else
      Missing(cfg, u, i, deps[..|deps| - 1]) +
      if IsMissing(cfg, u, i, deps[|deps| - 1]) then [deps[|deps| - 1]] else []
  }

  lemma {:induction false} MissingSpec(cfg: Config, u: User, i: nat, deps: seq<Expr>)
    requires Acyclic(cfg)
    ensures forall dep :: dep in Missing(cfg, u, i, deps) <==> dep in deps && IsMissing(cfg, u, i, dep)
  {
    hide Acyclic, IsMissing;
    if deps != [] {
      MissingSpec(cfg, u, i, deps[..|deps| - 1]);
      assert deps == deps[..|deps| - 1] + [deps[|deps| - 1]];
    }
  }

  /** missing_deps() of an assigned symbol. */
  method MissingDeps(k: Kconfig, i: nat) returns (missing: seq<Expr>)
    requires k.Valid() && i < |k.cfg.syms| && k.cfg.syms[i].defined
    requires IsBoolTri(k.cfg.syms[i].typ) ==> i in k.user.sym
    modifies k`cache, k.syms, k.choices
    ensures k.Valid() && Acyclic(k.cfg)
    ensures missing == Missing(k.cfg, k.user, i, Operands(k.cfg.syms[i].directDep, AND))
  {
    hide k.Valid, Eval, k.Below, ExprVal, Operands;
    k.Basics();
    var d := k.cfg.syms[i];
    var deps := Split(d.directDep, AND);
    OperandsInRange(k, i);
    missing := [];
    var n := 0;
    while n < |deps|
      invariant 0 <= n <= |deps| && k.Valid() && Acyclic(k.cfg)
      invariant missing == Missing(k.cfg, k.user, i, deps[..n])
    {
      k.SymFields(i);
      BoundedExpr(k, deps[n]);
      var v := k.ExprValue(deps[n], RankBound(k.cfg, deps[n]));
      k.SymFields(i);
      assert deps[..n + 1][..n] == deps[..n];
      if IsBoolTri(d.typ) {
        if v < UserTri(k.syms[i].userValue.value) {
          missing := missing + [deps[n]];
        }
      } else if v == 0 {
        missing := missing + [deps[n]];
      }
      n := n + 1;
    }
    assert deps[..n] == deps;
  }

  lemma {:induction false} OperandItems(e: Expr, op: Op, x: Expr)
    requires x in Operands(e, op)
    ensures ExprItems(x) <= ExprItems(e)
  {
    if HasOp(e, op) {
      if x in Operands(e.l, op) {
        OperandItems(e.l, op, x);
      } else {
        OperandItems(e.r, op, x);
      }
    }
  }

  lemma OperandsInRange(k: Kconfig, i: nat)
    requires k.Valid() && i < |k.cfg.syms| && k.cfg.syms[i].defined
    ensures forall e, x :: e in Operands(k.cfg.syms[i].directDep, AND) && x in ExprItems(e) ==> ItemInRange(k.cfg, x)
  {
    var d := k.cfg.syms[i];
    assert ExprItems(d.directDep) <= ItemsOf(k.cfg, S(i));
    forall e, x | e in Operands(d.directDep, AND) && x in ExprItems(e)
      ensures ItemInRange(k.cfg, x)
    {
      OperandItems(d.directDep, AND, e);
    }
  }

  /** Dependencies are missing exactly if the direct dependency is below the assigned value
      (is n, for symbols that are not bool or tristate), and each listed one is to blame. */
  lemma MissingDepsExact(cfg: Config, u: User, i: nat)
    requires ConfigOK(cfg) && UserOK(cfg, u)
    ensures var missing := Missing(cfg, u, i, Operands(cfg.Sym(i).directDep, AND));
            && (missing != [] <==> IsMissing(cfg, u, i, cfg.Sym(i).directDep))
            && (forall dep :: dep in missing ==> IsMissing(cfg, u, i, dep))
  {
    var deps, env := Operands(cfg.Sym(i).directDep, AND), EnvOf(cfg, u);
    MissingSpec(cfg, u, i, deps);
    ValueOfOperands(cfg, u, cfg.Sym(i).directDep, AND, env);
    hide Eval, ExprVal, Operands, ConfigOK, UserOK;
    var missing := Missing(cfg, u, i, deps);
    if missing != [] {
      assert missing[0] in missing;
    }
  }

  /** For a visible tristate symbol, missing dependencies mean that the assigned value was not
      reached, unless a select or imply reaches it. */
  lemma MissingDepsMeansLower(cfg: Config, u: User, i: nat)
    requires ConfigOK(cfg) && UserOK(cfg, u) && Propagated(cfg)
    requires i < |cfg.syms| && cfg.syms[i].defined && cfg.syms[i].choice.None?
    requires TypeOf(cfg, u, i, EnvOf(cfg, u)) == TRISTATE
    requires i in u.sym && IsMissing(cfg, u, i, cfg.syms[i].directDep)
    requires ExprVal(cfg, u, cfg.syms[i].revDep, EnvOf(cfg, u)) < UserTri(u.sym[i])
    requires Eval(cfg, u, Vis(i)).t != 0 && ExprVal(cfg, u, cfg.syms[i].weakRevDep, EnvOf(cfg, u)) != 2
    ensures Eval(cfg, u, TriV(i)).t < UserTri(u.sym[i])
  {
    var d, env := cfg.syms[i], EnvOf(cfg, u);
    VisibilityLimited(cfg, u, i);
    NotConstant(cfg, i);
    hide ConfigOK, UserOK, Eval, ExprVal, Propagated, SymTriVal, DefaultTri;
    Basis(cfg);
    EvalStep(cfg, u, TriV(i));
    PlainTriValue(cfg, u, i, env);
  }

  lemma VisibilityLimited(cfg: Config, u: User, i: nat)
    requires ConfigOK(cfg) && UserOK(cfg, u) && Propagated(cfg) && i < |cfg.syms|
    requires TypeOf(cfg, u, i, EnvOf(cfg, u)) == TRISTATE
    ensures Eval(cfg, u, Vis(i)).t <= ExprVal(cfg, u, cfg.syms[i].directDep, EnvOf(cfg, u))
  {
    var env, d := EnvOf(cfg, u), cfg.syms[i];
    assert forall k :: 0 <= k < |d.prompts| ==> Entails(cfg, d.prompts[k], d.directDep);
    hide ConfigOK, UserOK, Propagated, Entails, Eval, TypeOf;
    Basis(cfg);
    EvalN(cfg, u);
    EvalStep(cfg, u, Vis(i));
    forall s | cfg.Sym(s).constTri == Some(2)
      ensures env(TriV(s)).t == 2
    {
      EvalStep(cfg, u, TriV(s));
    }
    EntailsPrompts(cfg, u, d.prompts, d.directDep, env);
  }

  // ---------- Unsatisfied selects ----------

  /** A select that _warn_select_unsatisfied_deps() lists. */
  ghost predicate IsCulprit(cfg: Config, u: User, i: nat, select: Expr)
    requires Acyclic(cfg)
  {
    var d, env := cfg.Sym(i), EnvOf(cfg, u);
    select in Operands(d.revDep, OR) && ExprVal(cfg, u, select, env) > ExprVal(cfg, u, d.directDep, env)
  }

  /** A select above the direct dependency has a culprit that reaches the value of the select,
      and without one there is no culprit. */
  lemma UnsatisfiedSelect(cfg: Config, u: User, i: nat)
    requires Acyclic(cfg)
    ensures var d, env := cfg.Sym(i), EnvOf(cfg, u);
            var direct, rev := ExprVal(cfg, u, d.directDep, env), ExprVal(cfg, u, d.revDep, env);
            && (direct < rev <==> exists e :: IsCulprit(cfg, u, i, e))
            && (direct < rev ==> exists e :: IsCulprit(cfg, u, i, e) && ExprVal(cfg, u, e, env) == rev)
  {
    var d, env := cfg.Sym(i), EnvOf(cfg, u);
    hide Eval, Acyclic, ExprVal, Operands;
    ValueOfOperands(cfg, u, d.revDep, OR, env);
    var direct, rev := ExprVal(cfg, u, d.directDep, env), ExprVal(cfg, u, d.revDep, env);
    if direct < rev {
      var e :| e in Operands(d.revDep, OR) && ExprVal(cfg, u, e, env) == rev;
      assert IsCulprit(cfg, u, i, e);
    }
  }

  /** The symbol that the warning names for a culprit, its first AND operand, is itself above
      the direct dependency. */
  lemma NamedSelecter(cfg: Config, u: User, i: nat, e: Expr)
    requires Acyclic(cfg) && IsCulprit(cfg, u, i, e)
    ensures Operands(e, AND) != []
    ensures ExprVal(cfg, u, Operands(e, AND)[0], EnvOf(cfg, u)) > ExprVal(cfg, u, cfg.Sym(i).directDep, EnvOf(cfg, u))
  {
    hide Eval, Acyclic, ExprVal;
    OperandsFlat(e, AND);
    ValueOfOperands(cfg, u, e, AND, EnvOf(cfg, u));
    assert Operands(e, AND)[0] in Operands(e, AND);
  }
}
