/** Writing a minimal configuration and loading it back: exactly when the omitted lines lose
    nothing. */
module MinConfig {
  import opened Types
  import opened Numbers
  import opened Semantics
  import opened Evaluation
  import opened Caching
  import opened Updates
  import opened ConfigFile
  import opened ReadBack
  import opened Choices
  import opened Ranges
  import opened UserInput
  import opened FullConfig

  // ---------- What is omitted ----------

  /** The default of a bool or tristate symbol as _str_default() computes it, without looking
      at dependencies. */
  ghost function TriDefault(cfg: Config, u: User, i: nat): Tri
    requires Acyclic(cfg)
  {
    var d, env := cfg.Sym(i), EnvOf(cfg, u);
    var val := Max(ExprVal(cfg, u, d.revDep, env),
                   Max(ExprVal(cfg, u, d.weakRevDep, env), DefaultTri(cfg, u, d.defaults, env)));
    if val == 1 && TypeOf(cfg, u, i, env) == BOOL then 2 else val
  }

  /** Symbol._str_default(). A number is not clamped to the range. */
  ghost function StrDefault(cfg: Config, u: User, i: nat): string
    requires Acyclic(cfg)
  {
    var d := cfg.Sym(i);
    if IsBoolTri(d.typ) then
      if d.choice.Some? then "n" else TriStr(TriDefault(cfg, u, i))
    else if d.typ != UNKNOWN then DefaultText(cfg, u, d.defaults, EnvOf(cfg, u))
    else ""
  }

  /** The symbol cannot be changed because of a select. */
  ghost predicate Pinned(cfg: Config, u: User, i: nat)
    requires Acyclic(cfg)
  {
    cfg.Sym(i).choice.None? && Eval(cfg, u, Vis(i)).t <= ExprVal(cfg, u, cfg.Sym(i).revDep, EnvOf(cfg, u))
  }

  /** The selection that the choice has by default. */
  ghost predicate IsDefaultSelection(cfg: Config, u: User, i: nat)
    requires Acyclic(cfg)
  {
    && cfg.Sym(i).choice.Some?
    && var d := cfg.Choice(cfg.Sym(i).choice.value);
    && !d.isOptional && SelectionFromDefaults(cfg, u, d.defaults, d.syms, EnvOf(cfg, u)) == Some(i)
    && cfg.Sym(i).typ == BOOL && Eval(cfg, u, TriV(i)).t == 2
  }

  ghost predicate Omitted(cfg: Config, u: User, i: nat)
    requires Acyclic(cfg)
  {
    || Pinned(cfg, u, i)
    || Eval(cfg, u, StrV(i)).s == StrDefault(cfg, u, i)
    || IsDefaultSelection(cfg, u, i)
  }

  /** The symbols that write_min_config() writes. */
  ghost function MinWritten(cfg: Config, u: User): set<nat>
    requires Acyclic(cfg)
  {
    set i | i in Written(cfg, u) && !Omitted(cfg, u, i)
  }

  ghost function MinLines(cfg: Config, u: User): seq<string>
    requires Acyclic(cfg)
  {
    LinesFor(cfg, EnvOf(cfg, u), MinWritten(cfg, u), |cfg.syms|)
  }

  // ---------- Prompts are limited by dependencies ----------

  /** The condition e cannot be true without the dependency. */
  predicate Entails(cfg: Config, e: Expr, dep: Expr) {
    || e == SymE(cfg.n)
    || e == dep
    || (e.And? && (Entails(cfg, e.l, dep) || Entails(cfg, e.r, dep)))
    || (dep.Or? && (Entails(cfg, e, dep.l) || Entails(cfg, e, dep.r)))
    || (dep.SymE? && cfg.Sym(dep.s).constTri == Some(2))
  }

  /** Finalisation puts the dependencies of each menu node into its prompt condition, and
      collects them in direct_dep. Selects of string, int and hex symbols draw a warning. */
  predicate Propagated(cfg: Config) {
    && (forall i, k :: 0 <= i < |cfg.syms| && 0 <= k < |cfg.syms[i].prompts| ==>
          Entails(cfg, cfg.syms[i].prompts[k], cfg.syms[i].directDep))
    && (forall i :: 0 <= i < |cfg.syms| && !IsBoolTri(cfg.syms[i].typ) && cfg.syms[i].typ != UNKNOWN ==>
          cfg.syms[i].revDep == SymE(cfg.n))
  }

  lemma {:induction false} EntailsValue(cfg: Config, u: User, e: Expr, dep: Expr, env: Env)
    requires Entails(cfg, e, dep) && env(TriV(cfg.n)).t == 0
    requires forall s :: cfg.Sym(s).constTri == Some(2) ==> env(TriV(s)).t == 2
    ensures ExprVal(cfg, u, e, env) <= ExprVal(cfg, u, dep, env)
  {
    if e == SymE(cfg.n) || e == dep {
    } else if e.And? && Entails(cfg, e.l, dep) {
      EntailsValue(cfg, u, e.l, dep, env);
    } else if e.And? && Entails(cfg, e.r, dep) {
      EntailsValue(cfg, u, e.r, dep, env);
    } else if dep.Or? && Entails(cfg, e, dep.l) {
      EntailsValue(cfg, u, e, dep.l, env);
    } else if dep.Or? {
      EntailsValue(cfg, u, e, dep.r, env);
    }
  }

  lemma {:induction false} EntailsPrompts(cfg: Config, u: User, ps: seq<Expr>, dep: Expr, env: Env)
    requires forall k :: 0 <= k < |ps| ==> Entails(cfg, ps[k], dep)
    requires env(TriV(cfg.n)).t == 0
    requires forall s :: cfg.Sym(s).constTri == Some(2) ==> env(TriV(s)).t == 2
    ensures PromptMax(cfg, u, ps, env) <= ExprVal(cfg, u, dep, env)
  {
    if ps != [] {
      EntailsValue(cfg, u, ps[0], dep, env);
      EntailsPrompts(cfg, u, ps[1..], dep, env);
    }
  }

  /** The direct dependency of a visible symbol is not n. */
  lemma VisibleDependency(cfg: Config, u: User, i: nat)
    requires ConfigOK(cfg) && UserOK(cfg, u) && Propagated(cfg) && i < |cfg.syms|
    requires Eval(cfg, u, Vis(i)).t != 0
    ensures ExprVal(cfg, u, cfg.syms[i].directDep, EnvOf(cfg, u)) != 0
  {
    var env, d := EnvOf(cfg, u), cfg.syms[i];
    assert forall k :: 0 <= k < |d.prompts| ==> Entails(cfg, d.prompts[k], d.directDep);
    hide ConfigOK, UserOK, Propagated, Entails, Eval;
    Basis(cfg);
    EvalN(cfg, u);
    EvalStep(cfg, u, Vis(i));
    forall s | cfg.Sym(s).constTri == Some(2)
      ensures env(TriV(s)).t == 2
    {
      EvalStep(cfg, u, TriV(s));
    }
    EntailsPrompts(cfg, u, d.prompts, d.directDep, env);
  }

  // ---------- When nothing is lost ----------

  /** A pinned symbol has at least the value of the select, and a user value does not count.
      Without it the default counts again, which only shows if it is above a select of m. */
  ghost predicate PinnedKept(cfg: Config, u: User, i: nat)
    requires Acyclic(cfg)
  {
    var d, env := cfg.Sym(i), EnvOf(cfg, u);
    var def := Max(ExprVal(cfg, u, d.weakRevDep, env), DefaultTri(cfg, u, d.defaults, env));
    || i !in u.sym
    || def <= ExprVal(cfg, u, d.revDep, env)
    || PromotesM(cfg, u, i, env)
  }

  ghost predicate MinValueKept(cfg: Config, u: User, i: nat)
    requires Acyclic(cfg)
  {
    if i in MinWritten(cfg, u) then ValueKept(cfg, u, i)
    else Eval(cfg, u, Vis(i)).t != 0 && Pinned(cfg, u, i) ==> PinnedKept(cfg, u, i)
  }

  ghost predicate MinSymKept(cfg: Config, u: User, i: nat)
    requires Acyclic(cfg)
  {
    var d := cfg.Sym(i);
    && (IsBoolTri(d.typ) && d.choice.None? ==> MinValueKept(cfg, u, i))
    && (IsIntHex(d.typ) && i in MinWritten(cfg, u) ==> NumberKept(cfg, u, i))
  }

  ghost predicate MinAllKept(cfg: Config, u: User)
    requires Acyclic(cfg)
  {
    && (forall i :: 0 <= i < |cfg.syms| && cfg.syms[i].defined ==> MinSymKept(cfg, u, i))
    && (forall c :: 0 <= c < |cfg.choices| ==> ModeShown(cfg, u, MinWritten(cfg, u), c))
  }

  ghost predicate MinReloaded(cfg: Config, u: User, u2: User) {
    && Propagated(cfg)
    && ConfigOK(cfg) && Reloaded(cfg, u, MinWritten(cfg, u), u2)
  }

  // ---------- Values ----------

  /** The user value in u2 is what is stored if symbol i was written, and absent if not. */
  lemma MinStored(cfg: Config, u: User, u2: User, i: nat)
    requires MinReloaded(cfg, u, u2) && cfg.Sym(i).defined
    ensures i in MinWritten(cfg, u) ==> StoredIfVisible(cfg, u, u2, i)
    ensures i !in MinWritten(cfg, u) ==> UserOf(u2, i) == None
    ensures !cfg.Sym(i).neverWritten
  {
    hide Eval, Stored, UserOK, Acyclic, MinWritten;
  }

  /** A visible symbol that is not written is omitted for a reason. */
  lemma VisibleOmitted(cfg: Config, u: User, i: nat)
    requires ConfigOK(cfg) && UserOK(cfg, u) && i < |cfg.syms| && cfg.syms[i].defined
    requires !cfg.syms[i].neverWritten && cfg.syms[i].typ != UNKNOWN
    requires Eval(cfg, u, Vis(i)).t != 0 && i !in MinWritten(cfg, u)
    ensures Omitted(cfg, u, i)
  {
    hide Omitted, Eval;
    VisibleIsWritten(cfg, u, i);
  }

  /** Dropping the assignment of a symbol that is pinned or has its default value. */
  lemma PlainTriOmitted(vis: Tri, user: Option<UVal>, def: Tri, weak: Tri, direct: Tri, rev: Tri,
                        promotes: bool, isBool: bool)
    requires vis != 0 && direct != 0 && (promotes <==> isBool || weak == 2)
    ensures var r := PlainTri(vis, user, def, weak, direct, rev, promotes);
            var again := PlainTri(vis, None, def, weak, direct, rev, promotes);
            var val := Max(rev, Max(weak, def));
            && (vis <= rev ==> (again == r <==> user.None? || Max(weak, def) <= rev || promotes))
            && (r.val == (if val == 1 && isBool then 2 else val) ==> again == r)
  {
  }

  lemma MinPlainTri(cfg: Config, u: User, u2: User, i: nat)
    requires MinReloaded(cfg, u, u2) && Pair(cfg, u, u2)
    requires i < |cfg.syms| && cfg.syms[i].defined && IsBoolTri(cfg.syms[i].typ) && cfg.syms[i].choice.None?
    ensures Step(cfg, u2, TriV(i), EnvOf(cfg, u)) == Eval(cfg, u, TriV(i)) <==> MinValueKept(cfg, u, i)
  {
    hide MinReloaded, Pair, Eval, Step, ConfigOK, UserOK, MinWritten, ValueKept, StoredIfVisible, Acyclic;
    hide PinnedKept, Pinned;
    MinBasis(cfg, u, u2);
    MinStored(cfg, u, u2, i);
    if i in MinWritten(cfg, u) {
      PlainTriReloaded(cfg, u, u2, i);
    } else if Eval(cfg, u, Vis(i)).t == 0 {
      PairModes(cfg, u, u2);
      EvalStep(cfg, u, TriV(i));
      SameSymbol(cfg, u, u2, i, EnvOf(cfg, u));
    } else {
      OmittedPlainTri(cfg, u, u2, i);
    }
  }

  lemma MinBasis(cfg: Config, u: User, u2: User)
    requires MinReloaded(cfg, u, u2)
    ensures ConfigOK(cfg) && Acyclic(cfg) && HasN(cfg) && UserOK(cfg, u) && UserOK(cfg, u2)
    ensures Propagated(cfg) && PlainConfig(cfg) && Reloaded(cfg, u, MinWritten(cfg, u), u2)
  {
  }

  lemma PairModes(cfg: Config, u: User, u2: User)
    requires Pair(cfg, u, u2)
    ensures Acyclic(cfg) && SameModes(cfg, u, u2, EnvOf(cfg, u))
  {
  }

  /** The value of symbol i with the given user value, in state u. */
  ghost function PlainStep(cfg: Config, u: User, i: nat, user: Option<UVal>): TriResult
    requires Acyclic(cfg)
  {
    var d, env := cfg.Sym(i), EnvOf(cfg, u);
    PlainTri(env(Vis(i)).t, user, DefaultTri(cfg, u, d.defaults, env),
             ExprVal(cfg, u, d.weakRevDep, env), ExprVal(cfg, u, d.directDep, env),
             ExprVal(cfg, u, d.revDep, env), PromotesM(cfg, u, i, env))
  }

  lemma PlainStepValue(cfg: Config, u: User, u2: User, i: nat)
    requires Pair(cfg, u, u2)
    requires i < |cfg.syms| && cfg.syms[i].defined && IsBoolTri(cfg.syms[i].typ) && cfg.syms[i].choice.None?
    ensures var r := PlainStep(cfg, u, i, UserOf(u2, i));
            Step(cfg, u2, TriV(i), EnvOf(cfg, u)) == NO_VAL.(t := r.val, w := r.write)
  {
    var env, d := EnvOf(cfg, u), cfg.syms[i];
    assert SymOK(cfg, i);
    hide ConfigOK, UserOK, Eval, SymTriVal, PlainTri, DefaultTri, ExprVal, PromotesM;
    PlainTriValue(cfg, u2, i, env);
    SameFirstDefault(cfg, u, u2, d.defaults, env);
    SameExpr(cfg, u, u2, d.revDep, env);
    SameExpr(cfg, u, u2, d.weakRevDep, env);
    SameExpr(cfg, u, u2, d.directDep, env);
    SameType(cfg, u, u2, i, env);
  }

  lemma OmittedPlainTri(cfg: Config, u: User, u2: User, i: nat)
    requires MinReloaded(cfg, u, u2) && Pair(cfg, u, u2)
    requires i < |cfg.syms| && cfg.syms[i].defined && IsBoolTri(cfg.syms[i].typ) && cfg.syms[i].choice.None?
    requires i !in MinWritten(cfg, u) && Eval(cfg, u, Vis(i)).t != 0
    ensures Step(cfg, u2, TriV(i), EnvOf(cfg, u)) == Eval(cfg, u, TriV(i)) <==>
            (Pinned(cfg, u, i) ==> PinnedKept(cfg, u, i))
  {
    hide MinReloaded, Eval, Step, ConfigOK, UserOK, MinWritten, Acyclic, Propagated, PlainTri;
    hide DefaultTri, ExprVal, StoredIfVisible, PlainConfig;
    MinBasis(cfg, u, u2);
    MinStored(cfg, u, u2, i);
    VisibleOmitted(cfg, u, i);
    VisibleDependency(cfg, u, i);
    PlainStepValue(cfg, u, u, i);
    PlainStepValue(cfg, u, u2, i);
    EvalStep(cfg, u, TriV(i));
    BoolTriText(cfg, u, i);
    var d, env := cfg.syms[i], EnvOf(cfg, u);
    PlainTriOmitted(env(Vis(i)).t, UserOf(u, i), DefaultTri(cfg, u, d.defaults, env),
                    ExprVal(cfg, u, d.weakRevDep, env), ExprVal(cfg, u, d.directDep, env),
                    ExprVal(cfg, u, d.revDep, env), PromotesM(cfg, u, i, env), TypeOf(cfg, u, i, env) == BOOL);
    if Eval(cfg, u, StrV(i)).s == StrDefault(cfg, u, i) {
      SameTriStr(Eval(cfg, u, TriV(i)).t, TriDefault(cfg, u, i));
    }
    hide PromotesM, TypeOf;
  }

  lemma SameTriStr(a: Tri, b: Tri)
    requires TriStr(a) == TriStr(b)
    ensures a == b
  {
  }

  lemma MinMember(cfg: Config, u: User, u2: User, i: nat)
    requires MinReloaded(cfg, u, u2) && Pair(cfg, u, u2)
    requires i < |cfg.syms| && cfg.syms[i].defined && IsBoolTri(cfg.syms[i].typ) && cfg.syms[i].choice.Some?
    ensures Step(cfg, u2, TriV(i), EnvOf(cfg, u)) == Eval(cfg, u, TriV(i))
  {
    hide MinReloaded, Eval, ConfigOK, UserOK, MinWritten, Acyclic, Propagated, StoredIfVisible, PlainConfig;
    MinBasis(cfg, u, u2);
    MinStored(cfg, u, u2, i);
    if i in MinWritten(cfg, u) {
      hide Step;
      MemberReloaded(cfg, u, u2, i);
    } else {
      NotConstant(cfg, i);
      EvalStep(cfg, u, TriV(i));
      var vis := Eval(cfg, u, Vis(i)).t;
      if vis == 1 {
        VisibleOmitted(cfg, u, i);
        BoolTriText(cfg, u, i);
        SameTriStrN(Eval(cfg, u, TriV(i)).t);
      }
    }
  }

  lemma SameTriStrN(a: Tri)
    ensures TriStr(a) == "n" <==> a == 0
  {
  }

  lemma NotConstant(cfg: Config, i: nat)
    requires ConfigOK(cfg) && i < |cfg.syms| && cfg.syms[i].defined
    ensures cfg.syms[i].constTri.None?
  {
    assert SymOK(cfg, i);
  }

  lemma MinString(cfg: Config, u: User, u2: User, i: nat)
    requires MinReloaded(cfg, u, u2) && Pair(cfg, u, u2)
    requires i < |cfg.syms| && cfg.syms[i].defined && cfg.syms[i].typ == STRING
    ensures Step(cfg, u2, StrV(i), EnvOf(cfg, u)) == Eval(cfg, u, StrV(i))
  {
    hide MinReloaded, Eval, ConfigOK, UserOK, MinWritten, Acyclic, StoredIfVisible, PlainConfig, Step;
    MinBasis(cfg, u, u2);
    MinStored(cfg, u, u2, i);
    PairModes(cfg, u, u2);
    if i in MinWritten(cfg, u) {
      StringReloaded(cfg, u, u2, i);
    } else if Eval(cfg, u, Vis(i)).t == 0 {
      EvalStep(cfg, u, StrV(i));
      SameSymbol(cfg, u, u2, i, EnvOf(cfg, u));
    } else {
      VisibleOmitted(cfg, u, i);
      EvalN(cfg, u);
      OmittedString(cfg, u, u2, i);
    }
  }

  lemma OmittedString(cfg: Config, u: User, u2: User, i: nat)
    requires Pair(cfg, u, u2) && cfg.Sym(i).typ == STRING && !cfg.Sym(i).neverWritten
    requires Eval(cfg, u, Vis(i)).t != 0 && UserOf(u2, i) == None
    requires Eval(cfg, u, StrV(i)).s == DefaultText(cfg, u, cfg.Sym(i).defaults, EnvOf(cfg, u))
    ensures Step(cfg, u2, StrV(i), EnvOf(cfg, u)) == Eval(cfg, u, StrV(i))
  {
    hide Eval, ConfigOK, UserOK, DefaultText, HasDefault;
    Basis(cfg);
    EvalStep(cfg, u, StrV(i));
    SameFirstDefault(cfg, u, u2, cfg.Sym(i).defaults, EnvOf(cfg, u));
  }

  /** Dropping the assignment of a number that equals its default. */
  lemma NumberOmitted(t: SType, vis: Tri, text: string, range: Option<(int, int)>, default_: string, hasDefault: bool)
    requires vis != 0 && PlainNumber(t, vis, text, range, default_, hasDefault).val == default_
    ensures PlainNumber(t, vis, "", range, default_, hasDefault) == PlainNumber(t, vis, text, range, default_, hasDefault)
  {
  }

  lemma MinNumber(cfg: Config, u: User, u2: User, i: nat)
    requires MinReloaded(cfg, u, u2) && Pair(cfg, u, u2)
    requires i < |cfg.syms| && cfg.syms[i].defined && IsIntHex(cfg.syms[i].typ)
    ensures Step(cfg, u2, StrV(i), EnvOf(cfg, u)) == Eval(cfg, u, StrV(i)) <==>
            (i in MinWritten(cfg, u) ==> NumberKept(cfg, u, i))
  {
    hide MinReloaded, Eval, ConfigOK, UserOK, MinWritten, Acyclic, StoredIfVisible, PlainConfig, Step, NumberKept;
    hide Pair, PlainNumber;
    MinBasis(cfg, u, u2);
    MinStored(cfg, u, u2, i);
    PairModes(cfg, u, u2);
    if i in MinWritten(cfg, u) {
      NumberReloaded(cfg, u, u2, i);
    } else if Eval(cfg, u, Vis(i)).t == 0 {
      EvalStep(cfg, u, StrV(i));
      SameSymbol(cfg, u, u2, i, EnvOf(cfg, u));
    } else {
      VisibleOmitted(cfg, u, i);
      EvalN(cfg, u);
      EvalStep(cfg, u, StrV(i));
      NumberStepValue(cfg, u, u, i);
      NumberStepValue(cfg, u, u2, i);
      var d, env := cfg.syms[i], EnvOf(cfg, u);
      NumberOmitted(d.typ, env(Vis(i)).t, TextOf(UserOf(u, i)), ActiveRange(cfg, u, d, env),
                    DefaultText(cfg, u, d.defaults, env), HasDefault(cfg, u, d.defaults, env));
    }
  }

  lemma MinSelection(cfg: Config, u: User, u2: User, c: nat)
    requires MinReloaded(cfg, u, u2) && Pair(cfg, u, u2) && c < |cfg.choices|
    ensures Step(cfg, u2, CSel(c), EnvOf(cfg, u)) == Eval(cfg, u, CSel(c))
  {
    var env, written, d := EnvOf(cfg, u), MinWritten(cfg, u), cfg.choices[c];
    assert TristateChoice(cfg, c) && ChoiceReadBack(cfg, env, written, u2, c);
    hide ConfigOK, UserOK, PlainConfig, IsReadBack, Stored, Eval, Nonzero, MinWritten, TristateChoice, Propagated;
    Basis(cfg);
    EvalStep(cfg, u, CSel(c));
    SelectionIsVisibleMember(cfg, u, c);
    SameSelection(cfg, u, u2, d.defaults, d.syms, env);
    var sel := Eval(cfg, u, CSel(c)).sel;
    if sel.Some? {
      SelectedMember(cfg, u, c, sel.value);
    } else if Mode(cfg, u, c) == 2 {
      forall i: nat
        ensures !Nonzero(cfg, env, written, c, i)
      {
        InvisibleMember(cfg, u, c, i, written);
      }
    }
  }

  /** The selection is written, or it is the default selection and nothing else is written. */
  lemma SelectedMember(cfg: Config, u: User, c: nat, i: nat)
    requires ConfigOK(cfg) && UserOK(cfg, u) && PlainConfig(cfg) && c < |cfg.choices|
    requires Eval(cfg, u, CSel(c)).sel == Some(i) && i in cfg.choices[c].syms
    ensures Eval(cfg, u, TriV(i)).t == 2
    ensures var env, written, d := EnvOf(cfg, u), MinWritten(cfg, u), cfg.choices[c];
            || Nonzero(cfg, env, written, c, i)
            || (SelectionFromDefaults(cfg, u, d.defaults, d.syms, env) == Some(i) &&
                forall j: nat :: !Nonzero(cfg, env, written, c, j))
  {
    hide ConfigOK, UserOK, PlainConfig, Eval;
    Basis(cfg);
    ModeType(cfg, c);
    AllTristate(cfg, c);
    InChoice(cfg, i, c);
    YMeansSelected(cfg, u, c, i);
    NonzeroIsWritten(cfg, u, c, i);
    if i !in MinWritten(cfg, u) {
      BoolTriText(cfg, u, i);
      SameTriStrN(Eval(cfg, u, TriV(i)).t);
      assert IsDefaultSelection(cfg, u, i);
      forall j: nat
        ensures !Nonzero(cfg, EnvOf(cfg, u), MinWritten(cfg, u), c, j)
      {
        InChoice(cfg, j, c);
        if j in cfg.choices[c].syms && Eval(cfg, u, TriV(j)).t != 0 {
          MembersAgree(cfg, u, c, i, j);
        }
      }
    }
  }

  lemma AllTristate(cfg: Config, c: nat)
    requires PlainConfig(cfg) && c < |cfg.choices|
    ensures TristateChoice(cfg, c) && PromptsInside(cfg, c)
  {
  }

  // ---------- The round trip ----------

  ghost predicate MinAttrKept(cfg: Config, u: User, a: Attr)
    requires Acyclic(cfg)
  {
    match a
    case TriV(i) =>
      IsBoolTri(cfg.Sym(i).typ) && cfg.Sym(i).choice.None? && cfg.Sym(i).defined ==> MinValueKept(cfg, u, i)
    case StrV(i) =>
      IsIntHex(cfg.Sym(i).typ) && cfg.Sym(i).defined ==> i in MinWritten(cfg, u) ==> NumberKept(cfg, u, i)
    case _ => true
  }

  lemma MinDefinedSym(cfg: Config, u: User, u2: User, i: nat)
    requires MinReloaded(cfg, u, u2) && Pair(cfg, u, u2) && cfg.Sym(i).defined
    ensures Step(cfg, u2, TriV(i), EnvOf(cfg, u)) == Eval(cfg, u, TriV(i)) <==> MinAttrKept(cfg, u, TriV(i))
    ensures Step(cfg, u2, StrV(i), EnvOf(cfg, u)) == Eval(cfg, u, StrV(i)) <==> MinAttrKept(cfg, u, StrV(i))
  {
    hide Eval, MinReloaded, Pair, ConfigOK, UserOK, PlainConfig, MinValueKept, NumberKept, MinWritten, Acyclic;
    MinBasis(cfg, u, u2);
    var t := cfg.syms[i].typ;
    EvalStep(cfg, u, TriV(i));
    EvalStep(cfg, u, StrV(i));
    if IsBoolTri(t) {
      if cfg.syms[i].choice.None? {
        MinPlainTri(cfg, u, u2, i);
      } else {
        MinMember(cfg, u, u2, i);
      }
    } else {
      OtherTri(cfg, u, u2, i, EnvOf(cfg, u));
      if t == STRING {
        MinString(cfg, u, u2, i);
      } else if IsIntHex(t) {
        MinNumber(cfg, u, u2, i);
      }
    }
  }

  lemma MinAttr(cfg: Config, u: User, u2: User, a: Attr)
    requires MinReloaded(cfg, u, u2) && Pair(cfg, u, u2)
    ensures Step(cfg, u2, a, EnvOf(cfg, u)) == Eval(cfg, u, a) <==> MinAttrKept(cfg, u, a)
  {
    hide Eval, MinReloaded, Pair, ConfigOK, UserOK, PlainConfig, MinAttrKept, Step, Acyclic;
    MinBasis(cfg, u, u2);
    PairModes(cfg, u, u2);
    EvalStep(cfg, u, a);
    var env := EnvOf(cfg, u);
    if (match ItemOf(a) case S(i) => !cfg.Sym(i).defined case C(c) => c >= |cfg.choices|) {
      OutsideUser(cfg, u, u2, a, env);
      NothingOmitted(cfg, u, a);
    } else {
      match a
      case TriV(i) => MinDefinedSym(cfg, u, u2, i);
      case StrV(i) => MinDefinedSym(cfg, u, u2, i);
      case CSel(c) =>
        MinSelection(cfg, u, u2, c);
        NothingOmitted(cfg, u, a);
      case _ =>
        SameInputless(cfg, u, u2, a, env);
        NothingOmitted(cfg, u, a);
    }
  }

  lemma NothingOmitted(cfg: Config, u: User, a: Attr)
    requires Acyclic(cfg)
    requires (a.TriV? || a.StrV?) ==> !cfg.Sym(a.i).defined
    ensures MinAttrKept(cfg, u, a)
  {
  }

  lemma MinAllKeptByAttr(cfg: Config, u: User)
    requires Acyclic(cfg)
    ensures MinAllKept(cfg, u) <==>
            && (forall a :: MinAttrKept(cfg, u, a))
            && (forall c :: 0 <= c < |cfg.choices| ==> ModeShown(cfg, u, MinWritten(cfg, u), c))
  {
    hide MinValueKept, NumberKept, ModeShown, MinWritten, Acyclic;
    if forall a :: MinAttrKept(cfg, u, a) {
      forall i | 0 <= i < |cfg.syms| && cfg.syms[i].defined
        ensures MinSymKept(cfg, u, i)
      {
        assert MinAttrKept(cfg, u, TriV(i)) && MinAttrKept(cfg, u, StrV(i));
      }
    }
    if forall i :: 0 <= i < |cfg.syms| && cfg.syms[i].defined ==> MinSymKept(cfg, u, i) {
      forall a
        ensures MinAttrKept(cfg, u, a)
      {
        if a.TriV? || a.StrV? {
          assert cfg.Sym(a.i).defined ==> MinSymKept(cfg, u, a.i);
        }
      }
    }
  }

  lemma MinReloadedSame(cfg: Config, u: User, u2: User)
    requires MinReloaded(cfg, u, u2)
    ensures SameConfig(cfg, u, u2) <==> MinAllKept(cfg, u)
  {
    hide Eval, Step, MinReloaded, ConfigOK, UserOK, PlainConfig, MinAttrKept, ModeShown, MinSymKept, SameModes;
    hide Acyclic, Reloaded;
    MinBasis(cfg, u, u2);
    SameConfigSteps(cfg, u, u2);
    ModesReloaded(cfg, u, MinWritten(cfg, u), u2);
    MinAllKeptByAttr(cfg, u);
    if SameModes(cfg, u, u2, EnvOf(cfg, u)) {
      assert Pair(cfg, u, u2);
      forall a
        ensures Step(cfg, u2, a, EnvOf(cfg, u)) == Eval(cfg, u, a) <==> MinAttrKept(cfg, u, a)
      {
        MinAttr(cfg, u, u2, a);
      }
    }
    hide MinAllKept, SameConfig;
  }

  /** Writing the minimal configuration of u and loading it over any earlier state gives all
      symbols and choices their values and modes back, exactly if the written values can be
      read back, no pinned symbol hides a higher default behind a user value, and the modes
      are shown by what is written. */
  lemma MinRoundTrip(cfg: Config, u: User, st: State)
    requires ConfigOK(cfg) && UserOK(cfg, u) && UserOK(cfg, st.user)
    requires PlainConfig(cfg) && Propagated(cfg) && OneLiners(cfg, u)
    ensures SameConfig(cfg, u, LoadConfig(cfg, st, MinLines(cfg, u), true).user) <==> MinAllKept(cfg, u)
  {
    hide Eval, IsReadBack, PlainConfig, LoadConfig, UserOK, SameConfig, MinAllKept, OneLiners, Writable, LinesFor;
    hide Propagated;
    Basis(cfg);
    var env, written := EnvOf(cfg, u), MinWritten(cfg, u);
    WrittenIsWritable(cfg, u, written);
    ReadBackLines(cfg, st, env, written);
    LoadConfigOK(cfg, st, MinLines(cfg, u), true);
    MinReloadedSame(cfg, u, LoadConfig(cfg, st, MinLines(cfg, u), true).user);
  }

  /** Without tristates, omitting defaults, pinned symbols and default selections never loses
      anything. */
  lemma MinRoundTripWithoutTristates(cfg: Config, u: User, st: State)
    requires ConfigOK(cfg) && UserOK(cfg, u) && UserOK(cfg, st.user)
    requires PlainConfig(cfg) && Propagated(cfg) && OneLiners(cfg, u)
    requires NoTristates(cfg) && TrimmedNumbers(cfg, u)
    ensures SameConfig(cfg, u, LoadConfig(cfg, st, MinLines(cfg, u), true).user)
  {
    hide Eval, PlainConfig, LoadConfig, UserOK, SameConfig, OneLiners, ValueKept, ModeShown, MinWritten;
    hide PinnedKept, Pinned, Propagated;
    Basis(cfg);
    MinRoundTrip(cfg, u, st);
    forall i | 0 <= i < |cfg.syms| && cfg.syms[i].defined
      ensures MinSymKept(cfg, u, i)
    {
      if cfg.syms[i].typ == BOOL {
        BoolKept(cfg, u, i);
        BoolPinnedKept(cfg, u, i);
      }
    }
    forall c | 0 <= c < |cfg.choices|
      ensures ModeShown(cfg, u, MinWritten(cfg, u), c)
    {
      BoolModeShown(cfg, u, MinWritten(cfg, u), c);
    }
  }

  /** A visible pinned bool symbol is y. */
  lemma BoolPinnedKept(cfg: Config, u: User, i: nat)
    requires ConfigOK(cfg) && UserOK(cfg, u) && i < |cfg.syms| && cfg.syms[i].typ == BOOL
    ensures Eval(cfg, u, Vis(i)).t != 0 && Pinned(cfg, u, i) ==> PinnedKept(cfg, u, i)
  {
    BoolIsNotM(cfg, u, i);
  }
}
