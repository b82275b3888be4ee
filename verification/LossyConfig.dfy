/** Symbols whose value does not survive being written and loaded: the full configuration loses
    a default above the visibility and the trailing blanks of a number, and the minimal one a
    user value that a select was thought to pin. */
module LossyConfig {
  import opened Types
  import opened Numbers
  import opened Semantics
  import opened Evaluation
  import opened Caching
  import opened Updates
  import opened ConfigText
  import opened ConfigFile
  import opened UserInput
  import opened Ranges
  import opened FullConfig
  import opened MinConfig

  const N := 0
  const MODULES := 1
  const T := 2
  const M := 3
  const Y := 4
  const NUM := 5

  const MODULES_DEF := SymDef("MODULES", BOOL, None, false, true, [SymE(Y)], [], [], SymE(N), SymE(N), SymE(Y), None, false)

  /** Visible if m, y by default, and selected by MODULES if m. */
  const T_DEF := SymDef("T", TRISTATE, None, false, true, [SymE(M)], [Default(SymE(Y), SymE(Y))], [],
                        And(SymE(MODULES), SymE(M)), SymE(N), SymE(Y), None, false)

  const NUM_DEF := SymDef("NUM", INT, None, false, true, [SymE(Y)], [], [], SymE(N), SymE(N), SymE(Y), None, false)

  const CFG := Config([Constant("n", 0), MODULES_DEF, T_DEF, Constant("m", 1), Constant("y", 2), NUM_DEF],
                      [], N, MODULES)

  function RankOf(a: Attr): nat {
    match a
    case Vis(i) => if i == T then 3 else if i == MODULES then 1 else 3
    case TriV(i) => if i == T then 4 else if i == MODULES then 2 else 0
    case StrV(_) => 7
    case Asg(_) => 8
    case CVis(_) => 0
    case CSel(_) => 1
    case CAsg(_) => 1
  }

  lemma Lists()
    ensures PromptAttrs(CFG, [SymE(Y)]) == {TriV(Y)} && PromptItems([SymE(Y)]) == {S(Y)}
    ensures PromptAttrs(CFG, [SymE(M)]) == {TriV(M)} && PromptItems([SymE(M)]) == {S(M)}
    ensures DefaultAttrs(CFG, T_DEF.defaults) == {TriV(Y)} && DefaultItems(T_DEF.defaults) == {S(Y)}
  {
    assert [SymE(Y)][1..] == [] && [SymE(M)][1..] == [] && T_DEF.defaults[1..] == [];
  }

  lemma RevDepReads()
    ensures ExprAttrs(CFG, T_DEF.revDep) == {TriV(MODULES), TriV(M)}
  {
    assert ExprAttrs(CFG, SymE(MODULES)) == {TriV(MODULES)} && ExprAttrs(CFG, SymE(M)) == {TriV(M)};
  }

  ghost predicate Ranked(a: Attr) {
    forall b :: b in StaticReads(CFG, a) ==> RankOf(b) < RankOf(a)
  }

  lemma ModulesRank()
    ensures Ranked(Vis(MODULES)) && Ranked(TriV(MODULES)) && Ranked(StrV(MODULES)) && Ranked(Asg(MODULES))
  {
    Lists();
    assert CFG.Sym(MODULES) == MODULES_DEF;
  }

  lemma TRank()
    ensures Ranked(Vis(T)) && Ranked(TriV(T)) && Ranked(StrV(T)) && Ranked(Asg(T))
  {
    Lists();
    RevDepReads();
    assert CFG.Sym(T) == T_DEF;
  }

  lemma OtherRank(i: nat)
    requires i != T && i != MODULES
    ensures Ranked(Vis(i)) && Ranked(TriV(i)) && Ranked(StrV(i)) && Ranked(Asg(i))
  {
    Lists();
    assert CFG.Sym(i) == Constant("n", 0) || CFG.Sym(i) == Constant("m", 1) || CFG.Sym(i) == Constant("y", 2)
        || CFG.Sym(i) == NUM_DEF || CFG.Sym(i) == NO_SYM;
  }

  lemma AttrRank(a: Attr)
    ensures Ranked(a)
  {
    hide StaticReads;
    match ItemOf(a)
    case S(i) =>
      if i == T {
        TRank();
      } else if i == MODULES {
        ModulesRank();
      } else {
        OtherRank(i);
      }
    case C(c) => ChoiceRank(c);
  }

  lemma ChoiceRank(c: nat)
    ensures Ranked(CVis(c)) && Ranked(CSel(c)) && Ranked(CAsg(c))
  {
    assert CFG.Choice(c) == NO_CHOICE;
  }

  lemma LossyAcyclic()
    ensures Acyclic(CFG)
  {
    hide StaticReads;
    forall a, b | b in StaticReads(CFG, a)
      ensures RankOf(b) < RankOf(a)
    {
      AttrRank(a);
    }
    assert IsRank(CFG, RankOf);
  }

  lemma LossyItems(y: Ref, x: Ref)
    requires ItemInRange(CFG, y) && x in ItemsOf(CFG, y)
    ensures ItemInRange(CFG, x)
  {
    Lists();
    assert CFG.Sym(T) == T_DEF && CFG.Sym(MODULES) == MODULES_DEF && CFG.Sym(NUM) == NUM_DEF;
  }

  lemma LossyWellFormed()
    ensures ConfigOK(CFG)
  {
    LossyAcyclic();
    forall x, y | ItemInRange(CFG, y) && x in ItemsOf(CFG, y)
      ensures ItemInRange(CFG, x)
    {
      LossyItems(y, x);
    }
    hide Acyclic, ItemsOf;
  }

  lemma LossyConfigOK()
    ensures ConfigOK(CFG) && PlainConfig(CFG) && Propagated(CFG)
  {
    LossyWellFormed();
    hide ConfigOK;
    assert CFG.Sym(T) == T_DEF && CFG.Sym(MODULES) == MODULES_DEF && CFG.Sym(NUM) == NUM_DEF;
    assert NameOK("T") && NameOK("MODULES") && NameOK("NUM");
  }

  /** MODULES is y; T has the user value, if any. */
  function UserWith(t: Option<UVal>): User {
    User(if t.Some? then map[MODULES := UTri(2), T := t.value] else map[MODULES := UTri(2)], map[], map[])
  }

  lemma Values(u: User)
    requires u == UserWith(None) || u == UserWith(Some(UTri(1)))
    ensures ConfigOK(CFG) && UserOK(CFG, u)
    ensures var env := EnvOf(CFG, u);
            && env(TriV(N)).t == 0 && env(TriV(M)).t == 1 && env(TriV(Y)).t == 2
            && env(TriV(MODULES)).t == 2 && env(Vis(T)).t == 1
            && TypeOf(CFG, u, T, env) == TRISTATE
  {
    LossyConfigOK();
    hide ConfigOK, PlainConfig, Propagated, Eval;
    Basis(CFG);
    Constants(u);
    ModulesValue(u);
    assert CFG.Sym(T) == T_DEF;
    EvalStep(CFG, u, Vis(T));
    assert [SymE(M)][1..] == [];
    assert PromptMax(CFG, u, [SymE(M)], EnvOf(CFG, u)) == 1;
  }

  lemma Constants(u: User)
    requires ConfigOK(CFG) && UserOK(CFG, u)
    ensures var env := EnvOf(CFG, u); env(TriV(N)).t == 0 && env(TriV(M)).t == 1 && env(TriV(Y)).t == 2
  {
    hide ConfigOK, UserOK, Eval;
    Basis(CFG);
    EvalStep(CFG, u, TriV(N));
    EvalStep(CFG, u, TriV(M));
    EvalStep(CFG, u, TriV(Y));
  }

  lemma ModulesValue(u: User)
    requires ConfigOK(CFG) && UserOK(CFG, u) && UserOf(u, MODULES) == Some(UTri(2))
    ensures Eval(CFG, u, TriV(MODULES)).t == 2
  {
    hide ConfigOK, UserOK, Eval;
    Basis(CFG);
    Constants(u);
    assert CFG.Sym(MODULES) == MODULES_DEF;
    EvalStep(CFG, u, Vis(MODULES));
    EvalStep(CFG, u, TriV(MODULES));
    assert [SymE(Y)][1..] == [];
    assert PromptMax(CFG, u, [SymE(Y)], EnvOf(CFG, u)) == 2;
  }

  /** What the rest of the configuration contributes to T. */
  lemma Contributions(u: User)
    requires u == UserWith(None) || u == UserWith(Some(UTri(1)))
    ensures Acyclic(CFG)
    ensures var env := EnvOf(CFG, u);
            && DefaultTri(CFG, u, T_DEF.defaults, env) == 2 && ExprVal(CFG, u, T_DEF.revDep, env) == 1
            && ExprVal(CFG, u, T_DEF.weakRevDep, env) == 0 && !PromotesM(CFG, u, T, env)
            && Eval(CFG, u, TriV(T)).t == if T in u.sym then 1 else 2
  {
    Values(u);
    hide ConfigOK, Eval, TypeOf;
    Basis(CFG);
    var env := EnvOf(CFG, u);
    assert CFG.Sym(T) == T_DEF;
    assert FirstDefault(CFG, u, T_DEF.defaults, env) == 0;
    EvalStep(CFG, u, TriV(T));
    PlainTriValue(CFG, u, T, env);
  }

  lemma TextOfLossy(u: User)
    requires ConfigOK(CFG) && UserOK(CFG, u)
    requires '\n' !in Eval(CFG, u, StrV(NUM)).s
    ensures OneLiners(CFG, u)
  {
    hide ConfigOK, UserOK, Eval;
    Basis(CFG);
    forall i | i in Written(CFG, u)
      ensures '\n' !in Eval(CFG, u, StrV(i)).s
    {
      assert CFG.syms[i].defined;
      if i != NUM {
        assert CFG.Sym(i) == T_DEF || CFG.Sym(i) == MODULES_DEF;
        BoolTriText(CFG, u, i);
      }
    }
  }

  /** Without a user value NUM is empty. */
  lemma NoNumber(u: User)
    requires ConfigOK(CFG) && UserOK(CFG, u) && NUM !in u.sym
    ensures Eval(CFG, u, StrV(NUM)).s == ""
  {
    hide ConfigOK, UserOK, Eval;
    Basis(CFG);
    assert CFG.Sym(NUM) == NUM_DEF;
    EvalStep(CFG, u, StrV(NUM));
  }

  /** NUM is assigned a number with a trailing blank. */
  const BLANK := User(map[NUM := UStr("5 ")], map[], map[])

  lemma Five()
    ensures StripRight("5 ") == "5" && ParseInt("5 ", 10) == Some(5)
  {
    assert "5 "[..1] == "5" && StripRight("5") == "5";
    ParseTrimmed("5 ", 10);
    ParseDecStr(5);
    assert DecStr(5) == "5";
  }

  lemma ValidFive()
    ensures ValidValue(INT, UStr("5 "))
  {
    Five();
    hide ParseInt, StripRight;
  }

  lemma BlankOK()
    ensures UserOK(CFG, BLANK)
  {
    hide ValidValue, CFG;
    ValidFive();
    NumDef();
    assert BLANK.sym[NUM] == UStr("5 ");
  }

  lemma BlankVisible()
    ensures ConfigOK(CFG) && UserOK(CFG, BLANK) && Eval(CFG, BLANK, Vis(NUM)).t == 2
  {
    LossyConfigOK();
    BlankOK();
    hide ConfigOK, UserOK, PlainConfig, Propagated, Eval;
    Basis(CFG);
    assert CFG.Sym(NUM) == NUM_DEF;
    EvalStep(CFG, BLANK, TriV(Y));
    EvalStep(CFG, BLANK, Vis(NUM));
    assert [SymE(Y)][1..] == [];
    assert PromptMax(CFG, BLANK, [SymE(Y)], EnvOf(CFG, BLANK)) == 2;
  }

  lemma NoRange(u: User)
    requires Acyclic(CFG)
    ensures RangeInEffect(CFG, u, NUM) == None
  {
    assert CFG.Sym(NUM) == NUM_DEF;
  }

  lemma BlankValue()
    ensures ConfigOK(CFG) && UserOK(CFG, BLANK) && Eval(CFG, BLANK, StrV(NUM)).s == "5 "
  {
    BlankVisible();
    hide ConfigOK, UserOK, Eval, ActiveRange, NumOrZero, DefaultText, HasDefault, CFG;
    Basis(CFG);
    NoRange(BLANK);
    NumDef();
    EvalStep(CFG, BLANK, StrV(NUM));
    PlainNumberValue(CFG, BLANK, NUM, EnvOf(CFG, BLANK));
  }

  lemma NumDef()
    ensures CFG.Sym(NUM) == NUM_DEF && NUM < |CFG.syms| && CFG.syms[NUM] == NUM_DEF
  {
  }

  lemma BlankNotKept()
    ensures ConfigOK(CFG) && !SymKept(CFG, BLANK, NUM)
  {
    BlankVisible();
    BlankValue();
    Five();
    NumDef();
    hide ConfigOK, UserOK, Eval, ActiveRange, ParseInt, StripRight, CFG;
    Basis(CFG);
    NoRange(BLANK);
  }

  /** The trailing blank of a number does not come back. */
  lemma FullConfigLosesBlank(st: State)
    requires UserOK(CFG, st.user)
    ensures ConfigOK(CFG) && UserOK(CFG, BLANK)
    ensures !SameConfig(CFG, BLANK, LoadConfig(CFG, st, ConfigLines(CFG, BLANK), true).user)
  {
    BlankOK();
    BlankValue();
    BlankNotKept();
    LossyConfigOK();
    TextOfLossy(BLANK);
    NumDef();
    hide Eval, ConfigOK, PlainConfig, Propagated, ConfigLines, LoadConfig, SameConfig, UserOK, SymKept, CFG;
    FullRoundTrip(CFG, BLANK, st);
  }

  /** With the default y above its visibility m, T does not come back from the full
      configuration. */
  lemma FullConfigLosesDefault(st: State)
    requires UserOK(CFG, st.user)
    ensures ConfigOK(CFG) && UserOK(CFG, UserWith(None))
    ensures var u := UserWith(None);
            !SameConfig(CFG, u, LoadConfig(CFG, st, ConfigLines(CFG, u), true).user)
  {
    var u := UserWith(None);
    Values(u);
    Contributions(u);
    LossyConfigOK();
    NoNumber(u);
    TextOfLossy(u);
    assert CFG.Sym(T) == T_DEF;
    assert !ValueKept(CFG, u, T);
    hide Eval, ConfigOK, PlainConfig, Propagated, ConfigLines, LoadConfig, SameConfig, UserOK, ValueKept;
    assert !SymKept(CFG, u, T);
    FullRoundTrip(CFG, u, st);
  }

  /** The user value m of T is not written to the minimal configuration because the select of m
      pins T, but without it the default y counts. */
  lemma MinConfigLosesUserValue(st: State)
    requires UserOK(CFG, st.user)
    ensures ConfigOK(CFG) && UserOK(CFG, UserWith(Some(UTri(1))))
    ensures var u := UserWith(Some(UTri(1)));
            !SameConfig(CFG, u, LoadConfig(CFG, st, MinLines(CFG, u), true).user)
  {
    var u := UserWith(Some(UTri(1)));
    Values(u);
    Contributions(u);
    LossyConfigOK();
    NoNumber(u);
    TextOfLossy(u);
    assert CFG.Sym(T) == T_DEF;
    hide Eval, ConfigOK, PlainConfig, Propagated, MinLines, LoadConfig, SameConfig, UserOK, PromotesM, ExprVal, DefaultTri;
    assert Pinned(CFG, u, T) && !PinnedKept(CFG, u, T);
    assert T !in MinWritten(CFG, u);
    assert !MinValueKept(CFG, u, T);
    assert !MinSymKept(CFG, u, T);
    MinRoundTrip(CFG, u, st);
  }
}
