/** Choices: in y mode exactly one member is y, and no member exceeds the mode. */
module Choices {
  import opened Types
  import opened Semantics
  import opened Evaluation
  import opened Caching

  /** The mode and selection of a choice in user state u. */
  ghost function Mode(cfg: Config, u: User, c: nat): Tri
    requires Acyclic(cfg)
  {
    ChoiceTri(cfg, u, c, EnvOf(cfg, u))
  }

  ghost predicate Visible(cfg: Config, u: User, i: nat)
    requires Acyclic(cfg)
  {
    Eval(cfg, u, Vis(i)).t != 0
  }

  /** The choice and its symbols are bool or tristate (anything else draws a warning). */
  predicate TristateChoice(cfg: Config, c: nat) {
    && c < |cfg.choices| && IsBoolTri(cfg.choices[c].typ)
    && forall i :: i in cfg.choices[c].syms ==> i < |cfg.syms| && IsBoolTri(cfg.syms[i].typ)
  }

  // ---------- The selection ----------

  lemma {:induction false} FirstVisibleSpec(ss: seq<nat>, env: Env)
    ensures FirstVisible(ss, env).None? <==> forall s :: s in ss ==> env(Vis(s)).t == 0
    ensures FirstVisible(ss, env).Some? ==>
              FirstVisible(ss, env).value in ss && env(Vis(FirstVisible(ss, env).value)).t != 0
  {
    if ss != [] {
      FirstVisibleSpec(ss[1..], env);
    }
  }

  lemma {:induction false} SelectionSpec(cfg: Config, u: User, ds: seq<ChoiceDefault>, ss: seq<nat>, env: Env)
    requires forall k :: 0 <= k < |ds| ==> ds[k].sym in ss
    ensures var sel := SelectionFromDefaults(cfg, u, ds, ss, env);
            && (sel.None? <==> forall s :: s in ss ==> env(Vis(s)).t == 0)
            && (sel.Some? ==> sel.value in ss && env(Vis(sel.value)).t != 0)
  {
    if ds == [] {
      FirstVisibleSpec(ss, env);
    } else {
      assert ds[0].sym in ss;
      SelectionSpec(cfg, u, ds[1..], ss, env);
    }
  }

  lemma SelectionStep(cfg: Config, u: User, c: nat, env: Env)
    requires c < |cfg.choices| && (c in u.selection ==> u.selection[c] in cfg.choices[c].syms)
    requires forall k :: 0 <= k < |cfg.choices[c].defaults| ==> cfg.choices[c].defaults[k].sym in cfg.choices[c].syms
    ensures var sel := ChoiceSelVal(cfg, u, c, env);
            && (sel.Some? <==> ChoiceTri(cfg, u, c, env) == 2 && exists s :: s in cfg.choices[c].syms && env(Vis(s)).t != 0)
            && (sel.Some? ==> sel.value in cfg.choices[c].syms && env(Vis(sel.value)).t != 0)
  {
    hide SelectionFromDefaults, ChoiceTri;
    SelectionSpec(cfg, u, cfg.choices[c].defaults, cfg.choices[c].syms, env);
  }

  /** In y mode the selection is a visible member, and there is one if any member is visible.
      In the other modes there is no selection. */
  lemma SelectionIsVisibleMember(cfg: Config, u: User, c: nat)
    requires ConfigOK(cfg) && UserOK(cfg, u) && c < |cfg.choices|
    ensures var sel := Eval(cfg, u, CSel(c)).sel;
            && (sel.Some? <==> Mode(cfg, u, c) == 2 && exists s :: s in cfg.choices[c].syms && Visible(cfg, u, s))
            && (sel.Some? ==> sel.value in cfg.choices[c].syms && Visible(cfg, u, sel.value))
  {
    var env := EnvOf(cfg, u);
    DefaultsAreMembers(cfg, c);
    SelectionStep(cfg, u, c, env);
    hide Eval, ConfigOK, ChoiceSelVal, ChoiceTri;
    Basis(cfg);
    EvalStep(cfg, u, CSel(c));
    forall s
      ensures Visible(cfg, u, s) <==> env(Vis(s)).t != 0
    {
    }
  }

  lemma DefaultsAreMembers(cfg: Config, c: nat)
    requires ConfigOK(cfg) && c < |cfg.choices|
    ensures forall k :: 0 <= k < |cfg.choices[c].defaults| ==> cfg.choices[c].defaults[k].sym in cfg.choices[c].syms
  {
    assert ChoiceOK(cfg, c);
    hide DependsOn, Promptless, ItemsOf, Acyclic;
  }

  // ---------- The visibility and value of members ----------

  /** A member is not of m visibility in y mode. */
  lemma MemberVisInYMode(cfg: Config, u: User, c: nat, i: nat)
    requires ConfigOK(cfg) && UserOK(cfg, u) && TristateChoice(cfg, c)
    requires i in cfg.choices[c].syms && Mode(cfg, u, c) == 2
    ensures Eval(cfg, u, Vis(i)).t == 0 || Eval(cfg, u, Vis(i)).t == 2
  {
    assert ChoiceOK(cfg, c);
    EvalStep(cfg, u, Vis(i));
  }

  lemma MemberValue(cfg: Config, u: User, c: nat, i: nat)
    requires ConfigOK(cfg) && UserOK(cfg, u) && TristateChoice(cfg, c) && i in cfg.choices[c].syms
    ensures var v, vis := Eval(cfg, u, TriV(i)).t, Eval(cfg, u, Vis(i)).t;
            if vis == 2 then v == (if Eval(cfg, u, CSel(c)).sel == Some(i) then 2 else 0)
            else v <= vis
  {
    assert ChoiceOK(cfg, c) && SymOK(cfg, i);
    EvalStep(cfg, u, TriV(i));
  }

  /** A member has the value y exactly if it is the selection, which requires y mode. */
  lemma YMeansSelected(cfg: Config, u: User, c: nat, i: nat)
    requires ConfigOK(cfg) && UserOK(cfg, u) && TristateChoice(cfg, c) && i in cfg.choices[c].syms
    ensures Eval(cfg, u, TriV(i)).t == 2 <==> Eval(cfg, u, CSel(c)).sel == Some(i)
    ensures Mode(cfg, u, c) == 2 ==> Eval(cfg, u, TriV(i)).t != 1
  {
    MemberValue(cfg, u, c, i);
    SelectionIsVisibleMember(cfg, u, c);
    if Mode(cfg, u, c) == 2 {
      MemberVisInYMode(cfg, u, c, i);
    }
  }

  /** There is a member with the value y exactly in y mode with some visible member, and then
      it is the only one: all others are n. */
  lemma ExactlyOneY(cfg: Config, u: User, c: nat)
    requires ConfigOK(cfg) && UserOK(cfg, u) && TristateChoice(cfg, c)
    ensures (exists i :: i in cfg.choices[c].syms && Eval(cfg, u, TriV(i)).t == 2) <==>
            (Mode(cfg, u, c) == 2 && exists i :: i in cfg.choices[c].syms && Visible(cfg, u, i))
    ensures forall i, j | i in cfg.choices[c].syms && j in cfg.choices[c].syms && i != j ::
              Eval(cfg, u, TriV(i)).t == 2 ==> Eval(cfg, u, TriV(j)).t == 0
  {
    SelectionIsVisibleMember(cfg, u, c);
    var sel := Eval(cfg, u, CSel(c)).sel;
    forall i | i in cfg.choices[c].syms
      ensures Eval(cfg, u, TriV(i)).t == 2 <==> sel == Some(i)
      ensures Mode(cfg, u, c) == 2 ==> Eval(cfg, u, TriV(i)).t != 1
    {
      YMeansSelected(cfg, u, c, i);
    }
    if sel.Some? {
      assert sel.value in cfg.choices[c].syms && Eval(cfg, u, TriV(sel.value)).t == 2;
    }
  }

  // ---------- The mode bounds the members ----------

  /** The condition is n, or contains the choice as an AND operand. */
  predicate LimitedBy(cfg: Config, e: Expr, c: nat) {
    e == SymE(cfg.n) || e == ChoiceE(c) || (e.And? && (LimitedBy(cfg, e.l, c) || LimitedBy(cfg, e.r, c)))
  }

  /** Finalisation makes the choice a condition of every prompt inside it; a choice symbol with
      a prompt outside its choice draws a warning. */
  predicate PromptsInside(cfg: Config, c: nat) {
    c < |cfg.choices| &&
    forall i, k :: i in cfg.choices[c].syms && 0 <= k < |cfg.Sym(i).prompts| ==>
      LimitedBy(cfg, cfg.Sym(i).prompts[k], c)
  }

  lemma {:induction false} LimitedValue(cfg: Config, u: User, e: Expr, c: nat, env: Env)
    requires LimitedBy(cfg, e, c) && env(TriV(cfg.n)).t == 0
    ensures ExprVal(cfg, u, e, env) <= ChoiceTri(cfg, u, c, env)
  {
    if e.And? {
      if LimitedBy(cfg, e.l, c) {
        LimitedValue(cfg, u, e.l, c, env);
      } else {
        LimitedValue(cfg, u, e.r, c, env);
      }
    }
  }

  lemma {:induction false} LimitedPrompts(cfg: Config, u: User, ps: seq<Expr>, c: nat, env: Env)
    requires forall k :: 0 <= k < |ps| ==> LimitedBy(cfg, ps[k], c)
    requires env(TriV(cfg.n)).t == 0
    ensures PromptMax(cfg, u, ps, env) <= ChoiceTri(cfg, u, c, env)
  {
    if ps != [] {
      LimitedValue(cfg, u, ps[0], c, env);
      LimitedPrompts(cfg, u, ps[1..], c, env);
    }
  }

  /** m mode needs a tristate choice and MODULES. */
  lemma MModeNeedsModules(cfg: Config, u: User, c: nat, env: Env)
    requires IsBoolTri(cfg.Choice(c).typ) && ChoiceTri(cfg, u, c, env) == 1
    ensures cfg.Choice(c).typ == TRISTATE && env(TriV(cfg.modules)).t != 0
  {
  }

  /** The mode is an upper bound on the visibility of the members, and so on their values. */
  lemma NoMemberAboveMode(cfg: Config, u: User, c: nat, i: nat)
    requires ConfigOK(cfg) && UserOK(cfg, u) && TristateChoice(cfg, c) && PromptsInside(cfg, c)
    requires i in cfg.choices[c].syms
    ensures Eval(cfg, u, Vis(i)).t <= Mode(cfg, u, c)
    ensures Eval(cfg, u, TriV(i)).t <= Mode(cfg, u, c)
  {
    var env := EnvOf(cfg, u);
    assert ChoiceOK(cfg, c);
    EvalStep(cfg, u, Vis(i));
    EvalN(cfg, u);
    LimitedPrompts(cfg, u, cfg.syms[i].prompts, c, env);
    if ChoiceTri(cfg, u, c, env) == 1 {
      MModeNeedsModules(cfg, u, c, env);
    }
    MemberValue(cfg, u, c, i);
  }
}
