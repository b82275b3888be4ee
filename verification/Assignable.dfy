/** Whether exactly the assignable values would be respected, as the documentation says. */
module Assignable {
  import opened Types
  import opened Semantics
  import opened Evaluation
  import opened Caching
  import opened Updates
  import opened UserInput
  import opened Choices

  /** The user state after set_value(v) on symbol i. */
  function AfterSet(cfg: Config, u: User, i: nat, v: Tri): User {
    SetSym(cfg, State(u, {}), i, UTri(v)).user
  }

  /** The value would be respected: assigning it makes it the value of the symbol. */
  ghost predicate Respected(cfg: Config, u: User, i: nat, v: Tri)
    requires Acyclic(cfg)
  {
    Eval(cfg, AfterSet(cfg, u, i, v), TriV(i)).t == v
  }

  ghost predicate Listed(cfg: Config, u: User, i: nat, v: Tri)
    requires Acyclic(cfg)
  {
    v in Eval(cfg, u, Asg(i)).asg
  }

  ghost function ValueOf(cfg: Config, u: User, e: Expr): Tri
    requires Acyclic(cfg)
  {
    ExprVal(cfg, u, e, EnvOf(cfg, u))
  }

  lemma AfterSetOK(cfg: Config, u: User, i: nat, v: Tri)
    requires ConfigOK(cfg) && UserOK(cfg, u) && i < |cfg.syms|
    ensures UserOK(cfg, AfterSet(cfg, u, i, v))
  {
    SetSymOK(cfg, State(u, {}), i, UTri(v));
  }

  /** The own input of the symbol changes, and for y the selection of its choice. */
  lemma AfterSetInput(cfg: Config, u: User, i: nat, v: Tri)
    requires i < |cfg.syms| && IsBoolTri(cfg.syms[i].typ)
    ensures var u', d := AfterSet(cfg, u, i, v), cfg.syms[i];
            && u'.mode == u.mode
            && (forall j: nat :: j != i ==> UserOf(u', j) == UserOf(u, j))
            && (if ValidValue(d.typ, UTri(v)) then UserOf(u', i) == Some(UTri(v)) else u' == u)
            && (forall c: nat :: SelectionOf(u', c) ==
                  if d.choice == Some(c) && v == 2 then Some(i) else SelectionOf(u, c))
  {
  }

  // ---------- Symbols outside choices ----------

  lemma PlainSameBelow(cfg: Config, u: User, i: nat, v: Tri)
    requires ConfigOK(cfg) && UserOK(cfg, u) && i < |cfg.syms| && IsBoolTri(cfg.syms[i].typ)
    requires cfg.syms[i].choice.None? || v != 2
    ensures SameBelow(cfg, u, AfterSet(cfg, u, i, v), TriV(i))
  {
    AfterSetInput(cfg, u, i, v);
    TextAboveValue(cfg, i);
    hide AfterSet, Eval, ConfigOK, UserOK, ValidValue;
  }

  lemma TextAboveValue(cfg: Config, i: nat)
    requires Acyclic(cfg) && IsBoolTri(cfg.Sym(i).typ)
    ensures Rank(cfg)(TriV(i)) < Rank(cfg)(StrV(i))
  {
    assert IsRank(cfg, Rank(cfg)) && TriV(i) in StaticReads(cfg, StrV(i));
  }

  /** The value after the assignment, from the values before it. */
  lemma PlainAfterSet(cfg: Config, u: User, i: nat, v: Tri)
    requires ConfigOK(cfg) && UserOK(cfg, u) && i < |cfg.syms| && cfg.syms[i].defined
    requires IsBoolTri(cfg.syms[i].typ) && cfg.syms[i].choice.None?
    ensures var d, env, u' := cfg.syms[i], EnvOf(cfg, u), AfterSet(cfg, u, i, v);
            Eval(cfg, u', TriV(i)).t ==
            PlainTri(env(Vis(i)).t, UserOf(u', i), DefaultTri(cfg, u', d.defaults, env),
                     ValueOf(cfg, u, d.weakRevDep), ExprVal(cfg, u', d.directDep, env),
                     ValueOf(cfg, u, d.revDep), PromotesM(cfg, u, i, env)).val
  {
    var d, env, u' := cfg.syms[i], EnvOf(cfg, u), AfterSet(cfg, u, i, v);
    AfterSetOK(cfg, u, i, v);
    AfterSetInput(cfg, u, i, v);
    PlainSameBelow(cfg, u, i, v);
    assert SymOK(cfg, i);
    hide AfterSet, Eval, ConfigOK, UserOK, ValidValue, DefaultTri, ExprVal, PromotesM, SameBelow, PlainTri;
    StepUnaffected(cfg, u, u', TriV(i));
    PlainTriValue(cfg, u', i, env);
    assert SameModes(cfg, u, u', env);
    SameExpr(cfg, u, u', d.revDep, env);
    SameExpr(cfg, u, u', d.weakRevDep, env);
    SameType(cfg, u, u', i, env);
  }

  /** Of m visibility are only tristate symbols whose values are not limited to n and y. */
  lemma PlainVisM(cfg: Config, u: User, i: nat)
    requires ConfigOK(cfg) && UserOK(cfg, u) && i < |cfg.syms|
    requires Eval(cfg, u, Vis(i)).t == 1
    ensures TypeOf(cfg, u, i, EnvOf(cfg, u)) == TRISTATE == cfg.syms[i].typ
  {
    hide Eval, UserOK;
    EvalStep(cfg, u, Vis(i));
  }

  /** The assignable values of a visible symbol: what selects allow, and m unless it would be
      promoted. */
  lemma ListedValues(cfg: Config, u: User, i: nat, v: Tri)
    requires ConfigOK(cfg) && UserOK(cfg, u) && i < |cfg.syms| && IsBoolTri(cfg.syms[i].typ)
    requires Eval(cfg, u, Vis(i)).t != 0
    ensures var d := cfg.syms[i];
            var rev, weak := ValueOf(cfg, u, d.revDep), ValueOf(cfg, u, d.weakRevDep);
            Listed(cfg, u, i, v) <==>
            if Eval(cfg, u, Vis(i)).t == 1 then
              (if rev != 0 then v == rev else v == 0 || v == if weak == 2 then 2 else 1)
            else
              v == 2 || (d.choice.None? && v >= rev && (v == 1 ==> !PromotesM(cfg, u, i, EnvOf(cfg, u))))
  {
    hide Eval, UserOK, ConfigOK, ExprVal, PromotesM;
    Basis(cfg);
    EvalStep(cfg, u, Asg(i));
  }

  /** For a visible symbol outside choices the assignable values are those that would be
      respected, except if it has m visibility, is selected to m and implied to y: then m is
      listed although it would be promoted, and y is not listed although it would be kept. */
  lemma PlainAssignable(cfg: Config, u: User, i: nat, v: Tri)
    requires ConfigOK(cfg) && UserOK(cfg, u) && i < |cfg.syms| && cfg.syms[i].defined
    requires IsBoolTri(cfg.syms[i].typ) && cfg.syms[i].choice.None? && Eval(cfg, u, Vis(i)).t != 0
    ensures var d := cfg.syms[i];
            (Listed(cfg, u, i, v) <==> Respected(cfg, u, i, v)) <==>
            !(Eval(cfg, u, Vis(i)).t == 1 && ValueOf(cfg, u, d.revDep) == 1 &&
              ValueOf(cfg, u, d.weakRevDep) == 2 && v != 0)
  {
    PlainAfterSet(cfg, u, i, v);
    AfterSetInput(cfg, u, i, v);
    ListedValues(cfg, u, i, v);
    if Eval(cfg, u, Vis(i)).t == 1 {
      PlainVisM(cfg, u, i);
    }
    hide Eval, UserOK, ConfigOK, AfterSet, ExprVal, DefaultTri, Listed, ValueOf;
  }

  // ---------- Choice symbols ----------

  lemma MemberRanks(cfg: Config, c: nat, i: nat)
    requires ConfigOK(cfg) && c < |cfg.choices| && i in cfg.choices[c].syms && IsBoolTri(cfg.Sym(i).typ)
    ensures Rank(cfg)(Vis(i)) < Rank(cfg)(CSel(c)) < Rank(cfg)(TriV(i)) < Rank(cfg)(StrV(i))
  {
    TextAboveValue(cfg, i);
    assert ChoiceOK(cfg, c) && SymOK(cfg, i);
    assert IsRank(cfg, Rank(cfg));
    assert CSel(c) in StaticReads(cfg, TriV(i)) && Vis(i) in StaticReads(cfg, CSel(c));
  }

  lemma MemberSameBelow(cfg: Config, u: User, c: nat, i: nat, v: Tri)
    requires ConfigOK(cfg) && UserOK(cfg, u) && c < |cfg.choices| && i in cfg.choices[c].syms
    requires i < |cfg.syms| && IsBoolTri(cfg.syms[i].typ) && cfg.syms[i].choice == Some(c)
    ensures SameBelow(cfg, u, AfterSet(cfg, u, i, v), CSel(c))
  {
    AfterSetInput(cfg, u, i, v);
    MemberRanks(cfg, c, i);
    hide AfterSet, Eval, ConfigOK, UserOK, ValidValue;
  }

  /** The visibility does not change. y becomes the selection in y mode, and the other values do
      not touch the selection. */
  lemma MemberAfterSet(cfg: Config, u: User, c: nat, i: nat, v: Tri)
    requires ConfigOK(cfg) && UserOK(cfg, u) && TristateChoice(cfg, c) && i in cfg.choices[c].syms
    ensures var u' := AfterSet(cfg, u, i, v);
            && UserOK(cfg, u')
            && Eval(cfg, u', Vis(i)) == Eval(cfg, u, Vis(i))
            && (v == 2 && Mode(cfg, u, c) == 2 && Eval(cfg, u, Vis(i)).t != 0 ==>
                  Eval(cfg, u', CSel(c)).sel == Some(i))
            && (v != 2 ==> Eval(cfg, u', CSel(c)) == Eval(cfg, u, CSel(c)))
  {
    var u' := AfterSet(cfg, u, i, v);
    assert ChoiceOK(cfg, c);
    AfterSetOK(cfg, u, i, v);
    MemberRanks(cfg, c, i);
    MemberSameBelow(cfg, u, c, i, v);
    hide AfterSet, Eval, ConfigOK, UserOK, ValidValue, SameBelow, StaticReads;
    BelowUnaffected(cfg, u, u', CSel(c), Vis(i));
    SelectionAfterSet(cfg, u, c, i, v);
  }

  lemma SelectionAfterSet(cfg: Config, u: User, c: nat, i: nat, v: Tri)
    requires ConfigOK(cfg) && UserOK(cfg, u) && TristateChoice(cfg, c) && i in cfg.choices[c].syms
    requires cfg.syms[i].choice == Some(c) && UserOK(cfg, AfterSet(cfg, u, i, v))
    requires SameBelow(cfg, u, AfterSet(cfg, u, i, v), CSel(c))
    ensures var u' := AfterSet(cfg, u, i, v);
            && (v == 2 && Mode(cfg, u, c) == 2 && Eval(cfg, u, Vis(i)).t != 0 ==>
                  Eval(cfg, u', CSel(c)).sel == Some(i))
            && (v != 2 ==> Eval(cfg, u', CSel(c)) == Eval(cfg, u, CSel(c)))
  {
    var u', env, d := AfterSet(cfg, u, i, v), EnvOf(cfg, u), cfg.choices[c];
    AfterSetInput(cfg, u, i, v);
    hide AfterSet, Eval, ConfigOK, UserOK, ValidValue, SameBelow, SelectionFromDefaults, StaticReads;
    Basis(cfg);
    StepUnaffected(cfg, u, u', CSel(c));
    EvalStep(cfg, u, CSel(c));
    SameMode(cfg, u, u', env);
    SameSelection(cfg, u, u', d.defaults, d.syms, env);
  }

  lemma SameMode(cfg: Config, u: User, u': User, env: Env)
    requires u'.mode == u.mode
    ensures SameModes(cfg, u, u', env)
  {
  }

  lemma MemberTri(cfg: Config, u: User, c: nat, i: nat)
    requires ConfigOK(cfg) && UserOK(cfg, u) && TristateChoice(cfg, c) && i in cfg.choices[c].syms
    ensures var vis := Eval(cfg, u, Vis(i)).t;
            Eval(cfg, u, TriV(i)).t ==
            if vis == 2 then (if Eval(cfg, u, CSel(c)).sel == Some(i) then 2 else 0)
            else if vis == 1 && UserOf(u, i).Some? && UserTri(UserOf(u, i).value) != 0 then 1 else 0
  {
    hide Eval, UserOK;
    assert ChoiceOK(cfg, c) && SymOK(cfg, i);
    EvalStep(cfg, u, TriV(i));
  }

  /** In y mode the only assignable value of a visible choice symbol, y, would be respected. The
      values that would be respected are the assignable ones exactly if the symbol is selected:
      the symbols that are not selected are n, and assigning n keeps them so. In m mode they are
      the same exactly if selects and implies do not reach the symbol, whose value ignores them. */
  lemma MemberAssignable(cfg: Config, u: User, c: nat, i: nat)
    requires ConfigOK(cfg) && UserOK(cfg, u) && TristateChoice(cfg, c) && PromptsInside(cfg, c)
    requires i in cfg.choices[c].syms && Eval(cfg, u, Vis(i)).t != 0
    ensures var d := cfg.syms[i];
            (forall v :: Listed(cfg, u, i, v) <==> Respected(cfg, u, i, v)) <==>
            if Eval(cfg, u, Vis(i)).t == 2 then Eval(cfg, u, CSel(c)).sel == Some(i)
            else ValueOf(cfg, u, d.revDep) == 0 && ValueOf(cfg, u, d.weakRevDep) != 2
    ensures Eval(cfg, u, Vis(i)).t == 2 ==> Respected(cfg, u, i, 2) && forall v :: Listed(cfg, u, i, v) <==> v == 2
  {
    var d := cfg.syms[i];
    assert ChoiceOK(cfg, c);
    NoMemberAboveMode(cfg, u, c, i);
    if Eval(cfg, u, Vis(i)).t == 1 {
      PlainVisM(cfg, u, i);
    }
    hide Eval, UserOK, ConfigOK, PromptsInside, Listed, Respected, ValueOf;
    Basis(cfg);
    forall v: Tri
      ensures Respected(cfg, u, i, v) <==>
              if Eval(cfg, u, Vis(i)).t == 2 then v == 2 || (v == 0 && Eval(cfg, u, CSel(c)).sel != Some(i))
              else v != 2
      ensures Listed(cfg, u, i, v) <==>
              if Eval(cfg, u, Vis(i)).t == 2 then v == 2
              else if ValueOf(cfg, u, d.revDep) != 0 then v == ValueOf(cfg, u, d.revDep)
              else v == 0 || v == if ValueOf(cfg, u, d.weakRevDep) == 2 then 2 else 1
    {
      MemberRespected(cfg, u, c, i, v);
      ListedValues(cfg, u, i, v);
    }
    assert Respected(cfg, u, i, 0) <==> (Eval(cfg, u, Vis(i)).t == 2 ==> Eval(cfg, u, CSel(c)).sel != Some(i));
    assert Respected(cfg, u, i, 1) <==> Eval(cfg, u, Vis(i)).t == 1;
  }

  lemma MemberRespected(cfg: Config, u: User, c: nat, i: nat, v: Tri)
    requires ConfigOK(cfg) && UserOK(cfg, u) && TristateChoice(cfg, c) && i in cfg.choices[c].syms
    requires Eval(cfg, u, Vis(i)).t == 2 ==> Mode(cfg, u, c) == 2
    requires Eval(cfg, u, Vis(i)).t != 0
    ensures Respected(cfg, u, i, v) <==>
            if Eval(cfg, u, Vis(i)).t == 2 then v == 2 || (v == 0 && Eval(cfg, u, CSel(c)).sel != Some(i))
            else v != 2
  {
    var u' := AfterSet(cfg, u, i, v);
    if Eval(cfg, u, Vis(i)).t == 1 {
      PlainVisM(cfg, u, i);
    }
    AfterSetInput(cfg, u, i, v);
    hide Eval, UserOK, ConfigOK, AfterSet, Mode;
    Basis(cfg);
    MemberAfterSet(cfg, u, c, i, v);
    MemberTri(cfg, u', c, i);
  }

  // ---------- Choices ----------

  /** The assignable modes of a visible choice are exactly those that would be respected. */
  lemma ModeAssignable(cfg: Config, u: User, c: nat, v: Tri)
    requires ConfigOK(cfg) && UserOK(cfg, u) && c < |cfg.choices| && IsBoolTri(cfg.choices[c].typ)
    requires Eval(cfg, u, CVis(c)).t != 0
    ensures v in Eval(cfg, u, CAsg(c)).asg <==>
            Mode(cfg, SetChoice(cfg, State(u, {}), c, UTri(v)).user, c) == v
  {
    var u' := SetChoice(cfg, State(u, {}), c, UTri(v)).user;
    SetChoiceOK(cfg, State(u, {}), c, UTri(v));
    ModeSameBelow(cfg, u, c, v);
    ModeInput(cfg, u, c, v);
    ListedModes(cfg, u, c, v);
    hide Eval, UserOK, SameBelow, StaticReads, ConfigOK, SetChoice;
    Basis(cfg);
    VisibilityKept(cfg, u, u', c);
  }

  lemma ListedModes(cfg: Config, u: User, c: nat, v: Tri)
    requires ConfigOK(cfg) && UserOK(cfg, u) && c < |cfg.choices| && IsBoolTri(cfg.choices[c].typ)
    requires Eval(cfg, u, CVis(c)).t != 0
    ensures var vis, typ := Eval(cfg, u, CVis(c)).t, ChoiceTypeOf(cfg, c, EnvOf(cfg, u));
            && (vis == 1 ==> typ == TRISTATE)
            && (v in Eval(cfg, u, CAsg(c)).asg <==>
                  v <= vis && (v == 0 ==> cfg.choices[c].isOptional) && (v == 1 ==> typ == TRISTATE))
  {
    hide Eval, UserOK, ConfigOK, PromptMax;
    Basis(cfg);
    EvalStep(cfg, u, CAsg(c));
    EvalStep(cfg, u, CVis(c));
  }

  lemma ModeInput(cfg: Config, u: User, c: nat, v: Tri)
    requires c < |cfg.choices| && IsBoolTri(cfg.choices[c].typ)
    ensures var u' := SetChoice(cfg, State(u, {}), c, UTri(v)).user;
            && (forall j: nat :: j != c ==> ModeOf(u', j) == ModeOf(u, j))
            && (if cfg.choices[c].typ == TRISTATE || v != 1 then ModeOf(u', c) == Some(v) else u' == u)
  {
  }

  lemma ModulesBelow(cfg: Config, c: nat)
    requires ConfigOK(cfg) && c < |cfg.choices|
    ensures cfg.choices[c].typ == TRISTATE ==> Rank(cfg)(TriV(cfg.modules)) < Rank(cfg)(CVis(c))
  {
    assert IsRank(cfg, Rank(cfg));
    assert cfg.choices[c].typ == TRISTATE ==> TriV(cfg.modules) in StaticReads(cfg, CVis(c));
  }

  lemma ModeSameBelow(cfg: Config, u: User, c: nat, v: Tri)
    requires ConfigOK(cfg) && c < |cfg.choices|
    ensures SameBelow(cfg, u, SetChoice(cfg, State(u, {}), c, UTri(v)).user, CVis(c))
  {
    hide ConfigOK, Eval;
  }

  /** What the mode is computed from does not depend on the mode. */
  lemma VisibilityKept(cfg: Config, u: User, u': User, c: nat)
    requires ConfigOK(cfg) && UserOK(cfg, u) && UserOK(cfg, u') && c < |cfg.choices|
    requires SameBelow(cfg, u, u', CVis(c))
    requires forall j: nat :: j != c ==> ModeOf(u', j) == ModeOf(u, j)
    ensures Eval(cfg, u', CVis(c)) == Eval(cfg, u, CVis(c))
    ensures cfg.choices[c].typ == TRISTATE ==>
              Eval(cfg, u', TriV(cfg.modules)) == Eval(cfg, u, TriV(cfg.modules))
  {
    ModulesBelow(cfg, c);
    if cfg.choices[c].typ == TRISTATE {
      BelowUnaffected(cfg, u, u', CVis(c), TriV(cfg.modules));
    }
    PromptsKept(cfg, u, u', c);
  }

  lemma PromptsKept(cfg: Config, u: User, u': User, c: nat)
    requires ConfigOK(cfg) && UserOK(cfg, u) && UserOK(cfg, u') && c < |cfg.choices|
    requires SameBelow(cfg, u, u', CVis(c)) && forall j: nat :: j != c ==> ModeOf(u', j) == ModeOf(u, j)
    ensures Eval(cfg, u', CVis(c)) == Eval(cfg, u, CVis(c))
  {
    hide Eval, Reads, Step, UserOK, IsRank, ConfigOK;
    Basis(cfg);
    forall x | x in Reads(cfg, u, CVis(c), EnvOf(cfg, u))
      ensures Eval(cfg, u, x) == Eval(cfg, u', x) && (x.CVis? ==> ModeOf(u, x.c) == ModeOf(u', x.c))
    {
      ReadsLowerRank(cfg, u, CVis(c), x);
      BelowUnaffected(cfg, u, u', CVis(c), x);
    }
    SameValue(cfg, u, u', CVis(c));
  }
}
