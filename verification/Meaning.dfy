/** What visibilities, modes, values and selections are, in terms of conditions and positions in
    the lists of properties. */
module Meaning {
  import opened Types
  import opened Numbers
  import opened Semantics
  import opened Evaluation
  import opened Caching
  import opened Choices

  // ---------- Conditions ----------

  /** The value of an expression. */
  ghost function Value(cfg: Config, u: User, e: Expr): Tri
    requires Acyclic(cfg)
  {
    ExprVal(cfg, u, e, EnvOf(cfg, u))
  }

  predicate IsMin(v: Tri, x: Tri, y: Tri) {
    v <= x && v <= y && (v == x || v == y)
  }

  predicate IsMax(v: Tri, x: Tri, y: Tri) {
    v >= x && v >= y && (v == x || v == y)
  }

  /** AND, OR and NOT are minimum, maximum and complement; symbols and choices have the values
      that are computed for them. */
  lemma ExprMeaning(cfg: Config, u: User, l: Expr, r: Expr, s: nat, c: nat)
    requires Acyclic(cfg)
    ensures IsMin(Value(cfg, u, And(l, r)), Value(cfg, u, l), Value(cfg, u, r))
    ensures IsMax(Value(cfg, u, Or(l, r)), Value(cfg, u, l), Value(cfg, u, r))
    ensures Value(cfg, u, Not(l)) + Value(cfg, u, l) == 2
    ensures Value(cfg, u, SymE(s)) == Eval(cfg, u, TriV(s)).t && Value(cfg, u, ChoiceE(c)) == Mode(cfg, u, c)
  {
    hide Eval, ChoiceTri, Compare;
    var env := EnvOf(cfg, u);
    assert ExprVal(cfg, u, And(l, r), env) == Min(ExprVal(cfg, u, l, env), ExprVal(cfg, u, r, env));
    assert ExprVal(cfg, u, Or(l, r), env) == Max(ExprVal(cfg, u, l, env), ExprVal(cfg, u, r, env));
    assert ExprVal(cfg, u, Not(l), env) == 2 - ExprVal(cfg, u, l, env);
  }

  /** Tristate symbols without MODULES, and bool symbols, have no m. */
  ghost predicate HasM(cfg: Config, u: User, typ: SType)
    requires Acyclic(cfg)
  {
    typ == TRISTATE && Eval(cfg, u, TriV(cfg.modules)).t != 0
  }

  ghost predicate SomePrompt(cfg: Config, u: User, ps: seq<Expr>, v: Tri)
    requires Acyclic(cfg)
  {
    exists k :: 0 <= k < |ps| && Value(cfg, u, ps[k]) == v
  }

  lemma {:induction false} PromptMaxMeaning(cfg: Config, u: User, ps: seq<Expr>)
    requires Acyclic(cfg)
    ensures var m := PromptMax(cfg, u, ps, EnvOf(cfg, u));
            && (m == 2 <==> SomePrompt(cfg, u, ps, 2))
            && (m == 0 <==> !SomePrompt(cfg, u, ps, 1) && !SomePrompt(cfg, u, ps, 2))
  {
    hide ExprVal;
    if ps != [] {
      PromptMaxMeaning(cfg, u, ps[1..]);
      forall v: Tri
        ensures SomePrompt(cfg, u, ps, v) <==> Value(cfg, u, ps[0]) == v || SomePrompt(cfg, u, ps[1..], v)
      {
        if SomePrompt(cfg, u, ps[1..], v) {
          var k :| 0 <= k < |ps[1..]| && Value(cfg, u, ps[1..][k]) == v;
          assert Value(cfg, u, ps[k + 1]) == v;
        }
        if SomePrompt(cfg, u, ps, v) && Value(cfg, u, ps[0]) != v {
          var k :| 0 <= k < |ps| && Value(cfg, u, ps[k]) == v;
          assert Value(cfg, u, ps[1..][k - 1]) == v;
        }
      }
    }
  }

  // ---------- Visibility ----------

  /** A symbol outside choices is visible with y if a prompt condition is y, or m and the symbol
      has no m; with m if one is m; and otherwise it is not visible. */
  lemma VisibilityMeaning(cfg: Config, u: User, i: nat)
    requires ConfigOK(cfg) && UserOK(cfg, u) && cfg.Sym(i).choice.None?
    ensures var d, vis := cfg.Sym(i), Eval(cfg, u, Vis(i)).t;
            && (vis == 0 <==> !SomePrompt(cfg, u, d.prompts, 1) && !SomePrompt(cfg, u, d.prompts, 2))
            && (vis == 2 <==> SomePrompt(cfg, u, d.prompts, 2) ||
                              (SomePrompt(cfg, u, d.prompts, 1) && !HasM(cfg, u, d.typ)))
  {
    PromptMaxMeaning(cfg, u, cfg.Sym(i).prompts);
    hide Eval, ConfigOK, UserOK, PromptMax, SomePrompt;
    Basis(cfg);
    EvalStep(cfg, u, Vis(i));
  }

  /** A choice symbol is hidden if it has no m while the choice is not in y mode, or if it is only
      visible with m while the choice is in y mode. */
  lemma MemberVisibilityMeaning(cfg: Config, u: User, c: nat, i: nat)
    requires ConfigOK(cfg) && UserOK(cfg, u) && cfg.Sym(i).choice == Some(c)
    ensures var d, vis, mode := cfg.Sym(i), Eval(cfg, u, Vis(i)).t, Mode(cfg, u, c);
            var hidden := (cfg.Choice(c).typ == TRISTATE && d.typ != TRISTATE && mode != 2) ||
                          (d.typ == TRISTATE && mode == 2 && !SomePrompt(cfg, u, d.prompts, 2));
            && (vis == 0 <==> hidden || (!SomePrompt(cfg, u, d.prompts, 1) && !SomePrompt(cfg, u, d.prompts, 2)))
            && (vis == 2 <==> !hidden && (SomePrompt(cfg, u, d.prompts, 2) ||
                                          (SomePrompt(cfg, u, d.prompts, 1) && !HasM(cfg, u, d.typ))))
  {
    PromptMaxMeaning(cfg, u, cfg.Sym(i).prompts);
    hide Eval, ConfigOK, UserOK, PromptMax, SomePrompt, ChoiceTri;
    Basis(cfg);
    EvalStep(cfg, u, Vis(i));
  }

  lemma ChoiceVisibilityMeaning(cfg: Config, u: User, c: nat)
    requires ConfigOK(cfg) && UserOK(cfg, u)
    ensures var d, vis := cfg.Choice(c), Eval(cfg, u, CVis(c)).t;
            && (vis == 0 <==> !SomePrompt(cfg, u, d.prompts, 1) && !SomePrompt(cfg, u, d.prompts, 2))
            && (vis == 2 <==> SomePrompt(cfg, u, d.prompts, 2) ||
                              (SomePrompt(cfg, u, d.prompts, 1) && !HasM(cfg, u, d.typ)))
  {
    PromptMaxMeaning(cfg, u, cfg.Choice(c).prompts);
    hide Eval, ConfigOK, UserOK, PromptMax, SomePrompt;
    Basis(cfg);
    EvalStep(cfg, u, CVis(c));
  }

  /** The mode of a choice. It is n if the choice is not visible, or optional and not set to m or
      y; y if the choice has no m, or is visible with y and set to y; and otherwise m. */
  lemma ModeMeaning(cfg: Config, u: User, c: nat)
    requires ConfigOK(cfg) && UserOK(cfg, u) && IsBoolTri(cfg.Choice(c).typ)
    ensures var d, vis, mode := cfg.Choice(c), Eval(cfg, u, CVis(c)).t, Mode(cfg, u, c);
            && (mode == 0 <==> vis == 0 || (d.isOptional && (c !in u.mode || u.mode[c] == 0)))
            && (mode == 2 <==> mode != 0 && (!HasM(cfg, u, d.typ) || (vis == 2 && c in u.mode && u.mode[c] == 2)))
  {
    hide Eval, ConfigOK, UserOK;
    Basis(cfg);
  }

  // ---------- Defaults ----------

  /** The k-th of the conditions is the first one that is met. */
  ghost predicate FirstMet(cfg: Config, u: User, conds: seq<Expr>, k: nat)
    requires Acyclic(cfg)
  {
    && k < |conds| && Value(cfg, u, conds[k]) != 0
    && forall j :: 0 <= j < k ==> Value(cfg, u, conds[j]) == 0
  }

  ghost predicate NoneMet(cfg: Config, u: User, conds: seq<Expr>)
    requires Acyclic(cfg)
  {
    forall j :: 0 <= j < |conds| ==> Value(cfg, u, conds[j]) == 0
  }

  function DefaultConds(ds: seq<Default>): (cs: seq<Expr>)
    ensures |cs| == |ds| && forall k :: 0 <= k < |ds| ==> cs[k] == ds[k].cond
  {
    seq(|ds|, k requires 0 <= k < |ds| => ds[k].cond)
  }

  function RangeConds(rs: seq<RangeDef>): (cs: seq<Expr>)
    ensures |cs| == |rs| && forall k :: 0 <= k < |rs| ==> cs[k] == rs[k].cond
  {
    seq(|rs|, k requires 0 <= k < |rs| => rs[k].cond)
  }

  lemma {:induction false} FirstDefaultMeaning(cfg: Config, u: User, ds: seq<Default>)
    requires Acyclic(cfg)
    ensures var k := FirstDefault(cfg, u, ds, EnvOf(cfg, u));
            if k < |ds| then FirstMet(cfg, u, DefaultConds(ds), k) else NoneMet(cfg, u, DefaultConds(ds))
  {
    hide ExprVal;
    if ds != [] && Value(cfg, u, ds[0].cond) == 0 {
      FirstDefaultMeaning(cfg, u, ds[1..]);
      var cs, rest := DefaultConds(ds), DefaultConds(ds[1..]);
      assert forall j :: 0 < j < |ds| ==> cs[j] == rest[j - 1];
    }
  }

  lemma {:induction false} FirstRangeMeaning(cfg: Config, u: User, rs: seq<RangeDef>)
    requires Acyclic(cfg)
    ensures var k := FirstRange(cfg, u, rs, EnvOf(cfg, u));
            if k < |rs| then FirstMet(cfg, u, RangeConds(rs), k) else NoneMet(cfg, u, RangeConds(rs))
  {
    hide ExprVal;
    if rs != [] && Value(cfg, u, rs[0].cond) == 0 {
      FirstRangeMeaning(cfg, u, rs[1..]);
      var cs, rest := RangeConds(rs), RangeConds(rs[1..]);
      assert forall j :: 0 < j < |rs| ==> cs[j] == rest[j - 1];
    }
  }

  /** v is the value that the defaults give: the value of the first one with a met condition,
      limited by this condition, and n if there is none. */
  ghost predicate IsDefault(cfg: Config, u: User, ds: seq<Default>, v: Tri)
    requires Acyclic(cfg)
  {
    if NoneMet(cfg, u, DefaultConds(ds)) then v == 0
    else exists k: nat :: FirstMet(cfg, u, DefaultConds(ds), k)
                       && IsMin(v, Value(cfg, u, ds[k].value), Value(cfg, u, ds[k].cond))
  }

  lemma DefaultMeaning(cfg: Config, u: User, ds: seq<Default>)
    requires Acyclic(cfg)
    ensures IsDefault(cfg, u, ds, DefaultTri(cfg, u, ds, EnvOf(cfg, u)))
  {
    hide ExprVal, FirstDefault;
    FirstDefaultMeaning(cfg, u, ds);
  }

  // ---------- Values of bool and tristate symbols ----------

  /** v is the value before selects: the value the user assigned, limited by the visibility; or
      else the default, raised to an imply whose direct dependency is met. */
  ghost predicate IsUnselected(cfg: Config, u: User, i: nat, v: Tri)
    requires Acyclic(cfg)
  {
    var d, vis := cfg.Sym(i), Eval(cfg, u, Vis(i)).t;
    if vis != 0 && i in u.sym then
      u.sym[i].UTri? && IsMin(v, u.sym[i].t, vis)
    else if Value(cfg, u, d.weakRevDep) != 0 && Value(cfg, u, d.directDep) != 0 then
      exists w: Tri :: IsDefault(cfg, u, d.defaults, w) && IsMax(v, w, Value(cfg, u, d.weakRevDep))
    else
      IsDefault(cfg, u, d.defaults, v)
  }

  /** The value of a symbol outside choices: what it is before selects, raised to the selects,
      with m turned into y if the symbol has no m or is implied to y. */
  lemma ValueMeaning(cfg: Config, u: User, i: nat)
    requires ConfigOK(cfg) && UserOK(cfg, u) && i < |cfg.syms| && cfg.syms[i].defined
    requires IsBoolTri(cfg.syms[i].typ) && cfg.syms[i].choice.None?
    ensures var d, t := cfg.syms[i], Eval(cfg, u, TriV(i)).t;
            exists v: Tri, w: Tri :: IsUnselected(cfg, u, i, v) && IsMax(w, v, Value(cfg, u, d.revDep)) &&
              t == if w == 1 && (!HasM(cfg, u, d.typ) || Value(cfg, u, d.weakRevDep) == 2) then 2 else w
  {
    var d, env := cfg.syms[i], EnvOf(cfg, u);
    assert SymOK(cfg, i);
    DefaultMeaning(cfg, u, d.defaults);
    TriUser(cfg, u, i);
    hide Eval, ConfigOK, UserOK, ExprVal, DefaultTri, IsDefault, SymOK;
    Basis(cfg);
    EvalStep(cfg, u, TriV(i));
    assert IsUnselected(cfg, u, i, BaseTri(cfg, u, i, env).val);
    assert IsMax(SelectedTri(cfg, u, i, env).val, BaseTri(cfg, u, i, env).val, Value(cfg, u, d.revDep));
  }

  lemma TriUser(cfg: Config, u: User, i: nat)
    requires UserOK(cfg, u) && IsBoolTri(cfg.Sym(i).typ)
    ensures i in u.sym ==> u.sym[i].UTri?
  {
  }

  /** It is written if the symbol is visible, selected, or implied with its dependency met, or has
      a default other than n. */
  lemma WrittenMeaning(cfg: Config, u: User, i: nat)
    requires ConfigOK(cfg) && UserOK(cfg, u) && i < |cfg.syms| && cfg.syms[i].defined
    requires IsBoolTri(cfg.syms[i].typ) && cfg.syms[i].choice.None?
    ensures var d := cfg.syms[i];
            Eval(cfg, u, StrV(i)).w <==>
              || Eval(cfg, u, Vis(i)).t != 0 || Value(cfg, u, d.revDep) != 0
              || (Value(cfg, u, d.weakRevDep) != 0 && Value(cfg, u, d.directDep) != 0)
              || !IsDefault(cfg, u, d.defaults, 0)
  {
    var d, env := cfg.syms[i], EnvOf(cfg, u);
    assert SymOK(cfg, i);
    DefaultMeaning(cfg, u, d.defaults);
    DefaultUnique(cfg, u, d.defaults, DefaultTri(cfg, u, d.defaults, env), 0);
    hide Eval, ConfigOK, UserOK, ExprVal, DefaultTri, IsDefault, SymOK, PromotesM;
    Basis(cfg);
    EvalStep(cfg, u, TriV(i));
    EvalStep(cfg, u, StrV(i));
  }

  lemma DefaultUnique(cfg: Config, u: User, ds: seq<Default>, v: Tri, w: Tri)
    requires Acyclic(cfg) && IsDefault(cfg, u, ds, v)
    ensures IsDefault(cfg, u, ds, w) ==> v == w
  {
    hide Value;
    var cs := DefaultConds(ds);
    if !NoneMet(cfg, u, cs) && IsDefault(cfg, u, ds, w) {
      var j: nat :| FirstMet(cfg, u, cs, j) && IsMin(v, Value(cfg, u, ds[j].value), Value(cfg, u, ds[j].cond));
      var k: nat :| FirstMet(cfg, u, cs, k) && IsMin(w, Value(cfg, u, ds[k].value), Value(cfg, u, ds[k].cond));
      assert j == k;
    }
  }

  /** Bool and tristate values as text. */
  lemma TriTextMeaning(cfg: Config, u: User, i: nat)
    requires ConfigOK(cfg) && UserOK(cfg, u) && IsBoolTri(cfg.Sym(i).typ)
    ensures var t, s := Eval(cfg, u, TriV(i)).t, Eval(cfg, u, StrV(i)).s;
            && (t == 0 ==> s == "n") && (t == 1 ==> s == "m") && (t == 2 ==> s == "y")
            && Eval(cfg, u, StrV(i)).w == Eval(cfg, u, TriV(i)).w
  {
    hide Eval, ConfigOK, UserOK;
    Basis(cfg);
    EvalStep(cfg, u, StrV(i));
  }

  /** A choice symbol of y visibility is y if it is selected and otherwise n; one of m visibility
      is m if the user assigned m or y to it and otherwise n. It is written if it is visible. */
  lemma MemberMeaning(cfg: Config, u: User, c: nat, i: nat)
    requires ConfigOK(cfg) && UserOK(cfg, u) && i < |cfg.syms| && cfg.syms[i].defined
    requires IsBoolTri(cfg.syms[i].typ) && cfg.syms[i].choice == Some(c)
    ensures var vis, v := Eval(cfg, u, Vis(i)).t, Eval(cfg, u, TriV(i));
            && (vis == 2 ==> v.t == if Eval(cfg, u, CSel(c)).sel == Some(i) then 2 else 0)
            && (vis == 1 ==> v.t == if i in u.sym && u.sym[i] in {UTri(1), UTri(2)} then 1 else 0)
            && (vis == 0 ==> v.t == 0)
            && (v.w <==> vis != 0)
  {
    assert SymOK(cfg, i);
    TriUser(cfg, u, i);
    hide Eval, ConfigOK, UserOK;
    Basis(cfg);
    EvalStep(cfg, u, TriV(i));
  }

  /** Constants have their own value, and other symbols that are not bool or tristate count as n. */
  lemma ConstantMeaning(cfg: Config, u: User, i: nat)
    requires ConfigOK(cfg) && UserOK(cfg, u)
    ensures var d, v := cfg.Sym(i), Eval(cfg, u, TriV(i));
            && (d.constTri.Some? ==> v.t == d.constTri.value && !v.w)
            && (d.constTri.None? && !IsBoolTri(d.typ) ==> v.t == 0 && !v.w)
  {
    hide Eval, ConfigOK, UserOK;
    Basis(cfg);
    EvalStep(cfg, u, TriV(i));
  }

  // ---------- Values of other symbols ----------

  /** Constants and undefined symbols have their name as value. */
  lemma UnknownMeaning(cfg: Config, u: User, i: nat)
    requires ConfigOK(cfg) && UserOK(cfg, u) && cfg.Sym(i).typ == UNKNOWN
    ensures Eval(cfg, u, StrV(i)).s == cfg.Sym(i).name && !Eval(cfg, u, StrV(i)).w
  {
    hide Eval, ConfigOK, UserOK;
    Basis(cfg);
    EvalStep(cfg, u, StrV(i));
  }

  /** s is the text that the defaults give: the value of the symbol that is the first default
      with a met condition, and "" if there is none. */
  ghost predicate IsDefaultText(cfg: Config, u: User, ds: seq<Default>, s: string)
    requires Acyclic(cfg)
  {
    if NoneMet(cfg, u, DefaultConds(ds)) then s == ""
    else exists k: nat :: FirstMet(cfg, u, DefaultConds(ds), k)
                       && s == if ds[k].value.SymE? then Eval(cfg, u, StrV(ds[k].value.s)).s else ""
  }

  lemma DefaultTextMeaning(cfg: Config, u: User, ds: seq<Default>)
    requires Acyclic(cfg)
    ensures IsDefaultText(cfg, u, ds, DefaultText(cfg, u, ds, EnvOf(cfg, u)))
    ensures HasDefault(cfg, u, ds, EnvOf(cfg, u)) <==> !NoneMet(cfg, u, DefaultConds(ds))
  {
    hide Eval, ExprVal, FirstDefault;
    FirstDefaultMeaning(cfg, u, ds);
  }

  /** A string is what the user assigned if it is visible, or else what the defaults give. It is
      written if it is visible or has a default. */
  lemma StringMeaning(cfg: Config, u: User, i: nat)
    requires ConfigOK(cfg) && UserOK(cfg, u) && cfg.Sym(i).typ == STRING
    ensures var d, v, vis := cfg.Sym(i), Eval(cfg, u, StrV(i)), Eval(cfg, u, Vis(i)).t;
            && (if vis != 0 && i in u.sym then u.sym[i] == UStr(v.s) else IsDefaultText(cfg, u, d.defaults, v.s))
            && (v.w <==> !d.neverWritten && (vis != 0 || !NoneMet(cfg, u, DefaultConds(d.defaults))))
  {
    var d := cfg.Sym(i);
    DefaultTextMeaning(cfg, u, d.defaults);
    StrUser(cfg, u, i);
    hide Eval, ConfigOK, UserOK, DefaultText, HasDefault, IsDefaultText, NoneMet;
    Basis(cfg);
    EvalStep(cfg, u, StrV(i));
  }

  lemma StrUser(cfg: Config, u: User, i: nat)
    requires UserOK(cfg, u) && !IsBoolTri(cfg.Sym(i).typ)
    ensures i in u.sym ==> u.sym[i].UStr?
  {
  }

  /** n is the number that a text counts as where malformed numbers are 0. */
  predicate CountsAsNumber(s: string, typ: SType, n: int) {
    var r := ParseInt(s, if typ == INT then 10 else 16);
    r == Some(n) || (r == None && n == 0)
  }

  /** low and high are the bounds of the range in effect: those of the first range with a met
      condition. */
  ghost predicate InEffect(cfg: Config, u: User, i: nat, low: int, high: int)
    requires Acyclic(cfg)
  {
    var d := cfg.Sym(i);
    exists k: nat :: FirstMet(cfg, u, RangeConds(d.ranges), k)
      && CountsAsNumber(Eval(cfg, u, StrV(d.ranges[k].low)).s, d.typ, low)
      && CountsAsNumber(Eval(cfg, u, StrV(d.ranges[k].high)).s, d.typ, high)
  }

  lemma RangeMeaning(cfg: Config, u: User, i: nat)
    requires Acyclic(cfg) && IsIntHex(cfg.Sym(i).typ)
    ensures var d := cfg.Sym(i);
            match ActiveRange(cfg, u, d, EnvOf(cfg, u))
            case None => NoneMet(cfg, u, RangeConds(d.ranges))
            case Some((low, high)) => InEffect(cfg, u, i, low, high) && !NoneMet(cfg, u, RangeConds(d.ranges))
  {
    hide Eval, ExprVal, FirstRange, ParseInt;
    FirstRangeMeaning(cfg, u, cfg.Sym(i).ranges);
  }

  /** The text of a number, given the range in effect (if `ranged`), the text s that the defaults
      give, the number n that it counts as, and the number x that the user's text counts as. */
  ghost predicate IsNumber(cfg: Config, u: User, i: nat, text: string, low: int, high: int, s: string, n: int, x: int)
    requires Acyclic(cfg)
  {
    var d, ranged := cfg.Sym(i), !NoneMet(cfg, u, RangeConds(cfg.Sym(i).ranges));
    && (ranged ==> InEffect(cfg, u, i, low, high))
    && IsDefaultText(cfg, u, d.defaults, s) && CountsAsNumber(s, d.typ, n)
    && (i in u.sym ==> u.sym[i].UStr? && CountsAsNumber(u.sym[i].s, d.typ, x))
    && text == if Eval(cfg, u, Vis(i)).t != 0 && i in u.sym && (ranged ==> low <= x <= high) then u.sym[i].s
               else if ranged && n < low then (if d.typ == INT then DecStr(low) else HexStr(low))
               else if ranged && n > high then (if d.typ == INT then DecStr(high) else HexStr(high))
               else s
  }

  /** A number is what the user assigned if it is visible and, in case a range is in effect, in
      the range. Or else it is what the defaults give, or the bound that this exceeds. */
  lemma NumberMeaning(cfg: Config, u: User, i: nat)
    requires ConfigOK(cfg) && UserOK(cfg, u) && i < |cfg.syms| && IsIntHex(cfg.syms[i].typ)
    ensures exists low: int, high: int, s: string, n: int, x: int ::
              IsNumber(cfg, u, i, Eval(cfg, u, StrV(i)).s, low, high, s, n, x)
  {
    var low, high, s, n, x := NumberParts(cfg, u, i);
    hide IsNumber, Eval, ConfigOK, UserOK;
    Basis(cfg);
  }

  /** It is written if it is visible or has a default. */
  lemma NumberWritten(cfg: Config, u: User, i: nat)
    requires ConfigOK(cfg) && UserOK(cfg, u) && IsIntHex(cfg.Sym(i).typ)
    ensures var d := cfg.Sym(i);
            Eval(cfg, u, StrV(i)).w <==>
              !d.neverWritten && (Eval(cfg, u, Vis(i)).t != 0 || !NoneMet(cfg, u, DefaultConds(d.defaults)))
  {
    DefaultTextMeaning(cfg, u, cfg.Sym(i).defaults);
    hide Eval, ConfigOK, UserOK, DefaultText, HasDefault, IsDefaultText, NoneMet, ActiveRange, OutsideRange;
    hide Clamp, ParseInt, NumOrZero;
    Basis(cfg);
    EvalStep(cfg, u, StrV(i));
  }

  lemma NumberParts(cfg: Config, u: User, i: nat) returns (low: int, high: int, s: string, n: int, x: int)
    requires ConfigOK(cfg) && UserOK(cfg, u) && i < |cfg.syms| && IsIntHex(cfg.syms[i].typ)
    ensures IsNumber(cfg, u, i, Eval(cfg, u, StrV(i)).s, low, high, s, n, x)
  {
    hide Eval, ConfigOK, UserOK, DefaultText, HasDefault, IsDefaultText, NoneMet, ActiveRange, InEffect, IntVal;
    hide ParseInt, DecStr, HexStr, CountsAsNumber, NumOrZero;
    Basis(cfg);
    var d, env := cfg.syms[i], EnvOf(cfg, u);
    var range := ActiveRange(cfg, u, d, env);
    var text := if i in u.sym then UserStr(u.sym[i]) else "";
    s := DefaultText(cfg, u, d.defaults, env);
    n, x := NumOrZero(s, BaseOf(d.typ)), NumOrZero(text, BaseOf(d.typ));
    low, high := 0, 0;
    if range.Some? {
      low, high := range.value.0, range.value.1;
    }
    RangeMeaning(cfg, u, i);
    DefaultTextMeaning(cfg, u, d.defaults);
    NumberStep(cfg, u, i);
    StrUser(cfg, u, i);
    NonEmptyUser(cfg, u, i);
    CountsText(d.typ, s);
    CountsText(d.typ, text);
    IntValParts(cfg, u, i, env, s, text);
  }

  lemma NumberStep(cfg: Config, u: User, i: nat)
    requires ConfigOK(cfg) && UserOK(cfg, u) && IsIntHex(cfg.Sym(i).typ)
    ensures Eval(cfg, u, StrV(i)).s == IntVal(cfg, u, i, EnvOf(cfg, u)).val
  {
    hide Eval, ConfigOK, UserOK, IntVal;
    Basis(cfg);
    EvalStep(cfg, u, StrV(i));
  }

  lemma IntValParts(cfg: Config, u: User, i: nat, env: Env, s: string, text: string)
    requires i < |cfg.syms| && IsIntHex(cfg.syms[i].typ) && s == DefaultText(cfg, u, cfg.syms[i].defaults, env)
    requires text == if i in u.sym then UserStr(u.sym[i]) else ""
    requires i in u.sym ==> text != ""
    ensures var d := cfg.syms[i];
            var range, n, x := ActiveRange(cfg, u, d, env), NumOrZero(s, BaseOf(d.typ)), NumOrZero(text, BaseOf(d.typ));
            IntVal(cfg, u, i, env).val ==
            if env(Vis(i)).t != 0 && i in u.sym && (range.Some? ==> range.value.0 <= x <= range.value.1) then text
            else if range.Some? && n < range.value.0 then (if d.typ == INT then DecStr(range.value.0) else HexStr(range.value.0))
            else if range.Some? && n > range.value.1 then (if d.typ == INT then DecStr(range.value.1) else HexStr(range.value.1))
            else s
  {
    hide DefaultText, HasDefault, ActiveRange, ParseInt, DecStr, HexStr, NumOrZero;
  }

  lemma CountsText(typ: SType, s: string)
    requires IsIntHex(typ)
    ensures CountsAsNumber(s, typ, NumOrZero(s, BaseOf(typ)))
  {
    hide ParseInt;
  }

  lemma NonEmptyUser(cfg: Config, u: User, i: nat)
    requires UserOK(cfg, u) && IsIntHex(cfg.Sym(i).typ)
    ensures i in u.sym ==> u.sym[i].UStr? && u.sym[i].s != ""
  {
    if i in u.sym && u.sym[i] == UStr("") {
      EmptyIsMalformed();
    }
  }

  lemma EmptyIsMalformed()
    ensures ParseInt("", 10) == None && ParseInt("", 16) == None
  {
    hide ReadUnsigned, IsSpace;
    StripNothing("");
    NoDigits(10);
    NoDigits(16);
  }

  lemma NoDigits(base: nat)
    requires base == 10 || base == 16
    ensures ReadUnsigned("", base) == None
  {
    hide DigitValue, ReadAfterPrefix;
  }

  // ---------- Selections ----------

  ghost predicate IsVisible(cfg: Config, u: User, i: nat)
    requires Acyclic(cfg)
  {
    Eval(cfg, u, Vis(i)).t != 0
  }

  /** The k-th default has a met condition and a visible symbol, and it is the first such. */
  ghost predicate FirstUsable(cfg: Config, u: User, ds: seq<ChoiceDefault>, k: nat)
    requires Acyclic(cfg)
  {
    && k < |ds| && Usable(cfg, u, ds[k])
    && forall j :: 0 <= j < k ==> !Usable(cfg, u, ds[j])
  }

  ghost predicate Usable(cfg: Config, u: User, d: ChoiceDefault)
    requires Acyclic(cfg)
  {
    Value(cfg, u, d.cond) != 0 && IsVisible(cfg, u, d.sym)
  }

  /** The j-th symbol is the first visible one. */
  ghost predicate FirstShown(cfg: Config, u: User, ss: seq<nat>, j: nat)
    requires Acyclic(cfg)
  {
    j < |ss| && IsVisible(cfg, u, ss[j]) && forall m :: 0 <= m < j ==> !IsVisible(cfg, u, ss[m])
  }

  lemma {:induction false} FirstVisibleMeaning(cfg: Config, u: User, ss: seq<nat>)
    requires Acyclic(cfg)
    ensures match FirstVisible(ss, EnvOf(cfg, u))
            case None => forall m :: 0 <= m < |ss| ==> !IsVisible(cfg, u, ss[m])
            case Some(s) => exists j: nat :: FirstShown(cfg, u, ss, j) && s == ss[j]
  {
    hide Eval;
    if ss != [] {
      if IsVisible(cfg, u, ss[0]) {
        assert FirstShown(cfg, u, ss, 0);
      } else {
        FirstVisibleMeaning(cfg, u, ss[1..]);
        var r := FirstVisible(ss, EnvOf(cfg, u));
        assert forall m :: 0 < m < |ss| ==> ss[m] == ss[1..][m - 1];
        if r.Some? {
          var j: nat :| FirstShown(cfg, u, ss[1..], j) && r.value == ss[1..][j];
          assert FirstShown(cfg, u, ss, j + 1);
        }
      }
    }
  }

  lemma {:induction false} DefaultSelectionMeaning(cfg: Config, u: User, ds: seq<ChoiceDefault>, ss: seq<nat>)
    requires Acyclic(cfg)
    ensures var r := SelectionFromDefaults(cfg, u, ds, ss, EnvOf(cfg, u));
            if exists k :: 0 <= k < |ds| && Usable(cfg, u, ds[k]) then
              exists k: nat :: FirstUsable(cfg, u, ds, k) && r == Some(ds[k].sym)
            else r == FirstVisible(ss, EnvOf(cfg, u))
  {
    hide Eval, ExprVal, FirstVisible;
    if ds != [] {
      if Usable(cfg, u, ds[0]) {
        assert FirstUsable(cfg, u, ds, 0);
      } else {
        var rest := ds[1..];
        DefaultSelectionMeaning(cfg, u, rest, ss);
        assert forall m :: 0 < m < |ds| ==> ds[m] == rest[m - 1];
        if exists k :: 0 <= k < |ds| && Usable(cfg, u, ds[k]) {
          var k :| 0 <= k < |ds| && Usable(cfg, u, ds[k]);
          assert Usable(cfg, u, rest[k - 1]);
          var j: nat :| FirstUsable(cfg, u, rest, j)
            && SelectionFromDefaults(cfg, u, rest, ss, EnvOf(cfg, u)) == Some(rest[j].sym);
          assert FirstUsable(cfg, u, ds, j + 1);
        } else {
          assert forall k :: 0 <= k < |rest| ==> !Usable(cfg, u, rest[k]) by {
            forall k | 0 <= k < |rest|
              ensures !Usable(cfg, u, rest[k])
            {
              assert rest[k] == ds[k + 1];
            }
          }
        }
      }
    }
  }

  /** In y mode the selection is the symbol that the user selected, if it is visible; or else the
      symbol of the first default with a met condition and a visible symbol; or else the first
      visible symbol, if there is one. In the other modes there is no selection. */
  lemma SelectionMeaning(cfg: Config, u: User, c: nat)
    requires ConfigOK(cfg) && UserOK(cfg, u) && c < |cfg.choices|
    ensures var d, sel := cfg.choices[c], Eval(cfg, u, CSel(c)).sel;
            if Mode(cfg, u, c) != 2 then sel == None
            else if c in u.selection && IsVisible(cfg, u, u.selection[c]) then sel == Some(u.selection[c])
            else if exists k :: 0 <= k < |d.defaults| && Usable(cfg, u, d.defaults[k]) then
              exists k: nat :: FirstUsable(cfg, u, d.defaults, k) && sel == Some(d.defaults[k].sym)
            else if exists m :: 0 <= m < |d.syms| && IsVisible(cfg, u, d.syms[m]) then
              exists j: nat :: FirstShown(cfg, u, d.syms, j) && sel == Some(d.syms[j])
            else sel == None
  {
    var d := cfg.choices[c];
    Basis(cfg);
    DefaultSelectionMeaning(cfg, u, d.defaults, d.syms);
    FirstVisibleMeaning(cfg, u, d.syms);
    hide Eval, ConfigOK, UserOK, SelectionFromDefaults, FirstVisible, ChoiceTri, Usable, FirstUsable, IsVisible, FirstShown;
    SelectionStep(cfg, u, c);
  }

  lemma SelectionStep(cfg: Config, u: User, c: nat)
    requires ConfigOK(cfg) && UserOK(cfg, u)
    ensures var d := cfg.Choice(c);
            Eval(cfg, u, CSel(c)).sel ==
            if Mode(cfg, u, c) != 2 then None
            else if c in u.selection && IsVisible(cfg, u, u.selection[c]) then Some(u.selection[c])
            else SelectionFromDefaults(cfg, u, d.defaults, d.syms, EnvOf(cfg, u))
  {
    hide Eval, ConfigOK, UserOK, SelectionFromDefaults, ChoiceTri, IsVisible;
    Basis(cfg);
    EvalStep(cfg, u, CSel(c));
    VisibleValue(cfg, u, c);
  }

  lemma VisibleValue(cfg: Config, u: User, c: nat)
    requires Acyclic(cfg)
    ensures c in u.selection ==> (IsVisible(cfg, u, u.selection[c]) <==> EnvOf(cfg, u)(Vis(u.selection[c])).t != 0)
  {
    hide Eval;
  }
}
