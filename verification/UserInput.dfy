/** How user input enters evaluation: expressions only see the modes of choices, and each
    symbol and choice only looks at its own input. Two user states give all attributes the
    same values exactly if each step gives the same result on the values of the first. */
module UserInput {
  import opened Types
  import opened Numbers
  import opened Semantics
  import opened Evaluation
  import opened Caching

  /** Every choice has the same mode in both user states, with the same values around. */
  ghost predicate SameModes(cfg: Config, u: User, u': User, env: Env) {
    forall c :: ChoiceTri(cfg, u, c, env) == ChoiceTri(cfg, u', c, env)
  }

  lemma {:induction false} SameExpr(cfg: Config, u: User, u': User, e: Expr, env: Env)
    requires SameModes(cfg, u, u', env)
    ensures ExprVal(cfg, u', e, env) == ExprVal(cfg, u, e, env)
  {
    match e
    case And(l, r) => SameExpr(cfg, u, u', l, env); SameExpr(cfg, u, u', r, env);
    case Or(l, r) => SameExpr(cfg, u, u', l, env); SameExpr(cfg, u, u', r, env);
    case Not(e1) => SameExpr(cfg, u, u', e1, env);
    case _ =>
  }

  lemma {:induction false} SamePrompts(cfg: Config, u: User, u': User, ps: seq<Expr>, env: Env)
    requires SameModes(cfg, u, u', env)
    ensures PromptMax(cfg, u', ps, env) == PromptMax(cfg, u, ps, env)
  {
    if ps != [] {
      SameExpr(cfg, u, u', ps[0], env);
      SamePrompts(cfg, u, u', ps[1..], env);
    }
  }

  lemma {:induction false} SameFirstDefault(cfg: Config, u: User, u': User, ds: seq<Default>, env: Env)
    requires SameModes(cfg, u, u', env)
    ensures FirstDefault(cfg, u', ds, env) == FirstDefault(cfg, u, ds, env)
    ensures DefaultTri(cfg, u', ds, env) == DefaultTri(cfg, u, ds, env)
    ensures DefaultText(cfg, u', ds, env) == DefaultText(cfg, u, ds, env)
    ensures HasDefault(cfg, u', ds, env) == HasDefault(cfg, u, ds, env)
  {
    if ds != [] {
      SameExpr(cfg, u, u', ds[0].cond, env);
      SameFirstDefault(cfg, u, u', ds[1..], env);
      var k := FirstDefault(cfg, u, ds, env);
      if k < |ds| {
        SameExpr(cfg, u, u', ds[k].cond, env);
        SameExpr(cfg, u, u', ds[k].value, env);
      }
    }
  }

  lemma {:induction false} SameFirstRange(cfg: Config, u: User, u': User, rs: seq<RangeDef>, env: Env)
    requires SameModes(cfg, u, u', env)
    ensures FirstRange(cfg, u', rs, env) == FirstRange(cfg, u, rs, env)
  {
    if rs != [] {
      SameExpr(cfg, u, u', rs[0].cond, env);
      SameFirstRange(cfg, u, u', rs[1..], env);
    }
  }

  lemma SameActiveRange(cfg: Config, u: User, u': User, d: SymDef, env: Env)
    requires SameModes(cfg, u, u', env)
    ensures ActiveRange(cfg, u', d, env) == ActiveRange(cfg, u, d, env)
  {
    SameFirstRange(cfg, u, u', d.ranges, env);
  }

  lemma {:induction false} SameSelection(cfg: Config, u: User, u': User, ds: seq<ChoiceDefault>, ss: seq<nat>, env: Env)
    requires SameModes(cfg, u, u', env)
    ensures SelectionFromDefaults(cfg, u', ds, ss, env) == SelectionFromDefaults(cfg, u, ds, ss, env)
  {
    if ds != [] {
      SameExpr(cfg, u, u', ds[0].cond, env);
      SameSelection(cfg, u, u', ds[1..], ss, env);
    }
  }

  lemma SameType(cfg: Config, u: User, u': User, i: nat, env: Env)
    requires SameModes(cfg, u, u', env)
    ensures TypeOf(cfg, u', i, env) == TypeOf(cfg, u, i, env)
    ensures PromotesM(cfg, u', i, env) == PromotesM(cfg, u, i, env)
  {
    SameExpr(cfg, u, u', cfg.Sym(i).weakRevDep, env);
  }

  /** Visibilities and assignable values do not look at the input of their own item. */
  lemma SameInputless(cfg: Config, u: User, u': User, a: Attr, env: Env)
    requires SameModes(cfg, u, u', env)
    requires a.Vis? || a.CVis? || a.Asg? || a.CAsg?
    ensures Step(cfg, u', a, env) == Step(cfg, u, a, env)
  {
    match a
    case Vis(i) =>
      SamePrompts(cfg, u, u', cfg.Sym(i).prompts, env);
      SameType(cfg, u, u', i, env);
    case Asg(i) =>
      SameExpr(cfg, u, u', cfg.Sym(i).revDep, env);
      SameExpr(cfg, u, u', cfg.Sym(i).weakRevDep, env);
      SameType(cfg, u, u', i, env);
    case CVis(c) => SamePrompts(cfg, u, u', cfg.Choice(c).prompts, env);
    case CAsg(c) =>
  }

  /** The value of a bool or tristate symbol outside choices in terms of the user's value and
      of what the rest of the configuration contributes. */
  function PlainTri(vis: Tri, user: Option<UVal>, def: Tri, weak: Tri, direct: Tri, rev: Tri, promotes: bool): TriResult {
    var base :=
      if vis != 0 && user.Some? then TriResult(Min(UserTri(user.value), vis), true)
      else if weak != 0 && direct != 0 then TriResult(Max(weak, def), true)
      else TriResult(def, vis != 0 || def != 0);
    var selected := if rev != 0 then TriResult(Max(rev, base.val), true) else base;
    if selected.val == 1 && promotes then TriResult(2, selected.write) else selected
  }

  lemma PlainTriValue(cfg: Config, u: User, i: nat, env: Env)
    requires var d := cfg.Sym(i); IsBoolTri(d.typ) && d.constTri.None? && d.choice.None?
    ensures var d := cfg.Sym(i);
            SymTriVal(cfg, u, i, env) ==
            PlainTri(env(Vis(i)).t, UserOf(u, i), DefaultTri(cfg, u, d.defaults, env),
                     ExprVal(cfg, u, d.weakRevDep, env), ExprVal(cfg, u, d.directDep, env),
                     ExprVal(cfg, u, d.revDep, env), PromotesM(cfg, u, i, env))
  {
  }

  /** The value of a symbol only depends on its own user value and on the modes. */
  lemma SameSymbol(cfg: Config, u: User, u': User, i: nat, env: Env)
    requires SameModes(cfg, u, u', env)
    requires UserOf(u, i) == UserOf(u', i) || env(Vis(i)).t == 0
    ensures Step(cfg, u', TriV(i), env) == Step(cfg, u, TriV(i), env)
    ensures Step(cfg, u', StrV(i), env) == Step(cfg, u, StrV(i), env)
  {
    hide DefaultTri, DefaultText, HasDefault, PromotesM, ExprVal, ActiveRange, NumOrZero;
    var d := cfg.Sym(i);
    SameFirstDefault(cfg, u, u', d.defaults, env);
    SameExpr(cfg, u, u', d.revDep, env);
    SameExpr(cfg, u, u', d.weakRevDep, env);
    SameExpr(cfg, u, u', d.directDep, env);
    SameType(cfg, u, u', i, env);
    SameActiveRange(cfg, u, u', d, env);
  }

  /** Equal environments give equal steps. */
  lemma SameReads(cfg: Config, u: User, env: Env, env': Env, a: Attr)
    requires forall b :: env(b) == env'(b)
    requires env(TriV(cfg.n)).t == 0
    ensures Step(cfg, u, a, env) == Step(cfg, u, a, env')
  {
    StepCongruence(cfg, u, env, u, env', a);
  }

  /** All attributes have the same values in both user states. */
  ghost predicate SameValues(cfg: Config, u: User, u': User)
    requires Acyclic(cfg)
  {
    forall a :: Eval(cfg, u', a) == Eval(cfg, u, a)
  }

  /** Every step of u' on the values of u gives them back. */
  ghost predicate SameSteps(cfg: Config, u: User, u': User)
    requires Acyclic(cfg)
  {
    forall a :: Step(cfg, u', a, EnvOf(cfg, u)) == Eval(cfg, u, a)
  }

  lemma SameValuesSameStep(cfg: Config, u: User, u': User, a: Attr)
    requires ConfigOK(cfg) && UserOK(cfg, u) && UserOK(cfg, u') && SameValues(cfg, u, u')
    ensures Step(cfg, u', a, EnvOf(cfg, u)) == Eval(cfg, u, a)
  {
    hide Eval, Step;
    EvalStep(cfg, u', a);
    EvalN(cfg, u');
    SameReads(cfg, u', EnvOf(cfg, u'), EnvOf(cfg, u), a);
  }

  lemma SameValuesIff(cfg: Config, u: User, u': User)
    requires ConfigOK(cfg) && UserOK(cfg, u) && UserOK(cfg, u')
    ensures SameValues(cfg, u, u') <==> SameSteps(cfg, u, u')
  {
    hide Eval, Step;
    if SameValues(cfg, u, u') {
      forall a
        ensures Step(cfg, u', a, EnvOf(cfg, u)) == Eval(cfg, u, a)
      {
        SameValuesSameStep(cfg, u, u', a);
      }
    }
    if SameSteps(cfg, u, u') {
      forall a
        ensures Eval(cfg, u', a) == Eval(cfg, u, a)
      {
        Solution(cfg, u, u', a);
      }
    }
  }

  lemma Solution(cfg: Config, u: User, u': User, a: Attr)
    requires ConfigOK(cfg) && UserOK(cfg, u) && UserOK(cfg, u')
    requires SameSteps(cfg, u, u')
    ensures Eval(cfg, u', a) == Eval(cfg, u, a)
  {
    hide Eval, Step;
    var env := EnvOf(cfg, u);
    forall b
      ensures env(b) == Step(cfg, u', b, env)
    {
      assert Step(cfg, u', b, EnvOf(cfg, u)) == Eval(cfg, u, b);
    }
    EvalUnique(cfg, u', env, a);
  }

  // ---------- Input that is not read ----------

  /** The user states agree on the input of everything below the attribute. */
  ghost predicate SameBelow(cfg: Config, u: User, u': User, a: Attr)
    requires Acyclic(cfg)
  {
    forall x {:trigger Rank(cfg)(x)} :: Rank(cfg)(x) < Rank(cfg)(a) && !Inert(cfg, x) ==>
      SameInput(u, u', x, EnvOf(cfg, u)) && (x.CVis? ==> ModeOf(u, x.c) == ModeOf(u', x.c))
  }

  lemma ChoiceNotInert(cfg: Config, x: Attr)
    ensures x.CVis? ==> !Inert(cfg, x)
  {
  }

  /** Values below the attribute are then the same. */
  lemma {:induction false} BelowUnaffected(cfg: Config, u: User, u': User, a: Attr, b: Attr)
    requires ConfigOK(cfg) && UserOK(cfg, u) && UserOK(cfg, u') && SameBelow(cfg, u, u', a)
    requires Rank(cfg)(b) < Rank(cfg)(a)
    ensures Eval(cfg, u', b) == Eval(cfg, u, b)
    decreases Rank(cfg)(b)
  {
    hide Eval, Reads, Step, ConfigOK, UserOK, Inert, SameInput, IsRank;
    assert Acyclic(cfg);
    if Inert(cfg, b) {
      InertUnchanged(cfg, u, u', b);
    } else {
      forall x | x in Reads(cfg, u, b, EnvOf(cfg, u))
        ensures Eval(cfg, u, x) == Eval(cfg, u', x) && (x.CVis? ==> ModeOf(u, x.c) == ModeOf(u', x.c))
      {
        ReadsLowerRank(cfg, u, b, x);
        BelowUnaffected(cfg, u, u', a, x);
        ChoiceNotInert(cfg, x);
      }
      SameValue(cfg, u, u', b);
    }
  }

  /** So the new value of the attribute is one step from the old values. */
  lemma StepUnaffected(cfg: Config, u: User, u': User, a: Attr)
    requires ConfigOK(cfg) && UserOK(cfg, u) && UserOK(cfg, u') && SameBelow(cfg, u, u', a)
    ensures Eval(cfg, u', a) == Step(cfg, u', a, EnvOf(cfg, u))
  {
    hide Eval, Reads, Step, UserOK, IsRank, SameBelow;
    forall x | x in Reads(cfg, u', a, EnvOf(cfg, u'))
      ensures Eval(cfg, u', x) == Eval(cfg, u, x)
    {
      ReadsLowerRank(cfg, u', a, x);
      BelowUnaffected(cfg, u, u', a, x);
    }
    EvalN(cfg, u);
    EvalN(cfg, u');
    StepCongruence(cfg, u', EnvOf(cfg, u'), u', EnvOf(cfg, u), a);
    EvalStep(cfg, u', a);
  }
}
