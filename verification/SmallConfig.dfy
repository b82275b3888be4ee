/** A small configuration with an optional tristate choice and an implied symbol. The old user
    selection of the choice survives a replacing load, its mode is lost if it does not show in
    the symbols, and the implied symbol does not take its assignable value. */
module SmallConfig {
  import opened Types
  import opened Numbers
  import opened Semantics
  import opened Evaluation
  import opened Caching
  import opened Updates
  import opened ConfigText
  import opened ConfigFile
  import opened UserInput
  import opened Choices
  import opened Assignable
  import opened FullConfig
  import opened MinConfig

  const N := 0
  const MODULES := 1
  const A := 2
  const B := 3
  const Y := 4
  const M := 5
  const IMP := 6

  function Member(name: string): SymDef {
    SymDef(name, TRISTATE, None, false, true, [ChoiceE(0)], [], [], SymE(N), SymE(N), ChoiceE(0), Some(0), false)
  }

  const MODULES_DEF := SymDef("MODULES", BOOL, None, false, true, [SymE(Y)], [], [], SymE(N), SymE(N), SymE(Y), None, false)

  /** Visible if m, selected to m, and implied to y. */
  const IMP_DEF := SymDef("IMP", TRISTATE, None, false, true, [SymE(M)], [], [], SymE(M), SymE(Y), SymE(Y), None, false)

  /** A choice with the members A and B. */
  const CHOICE_DEF := ChoiceDef(TRISTATE, true, [SymE(Y)], [], [A, B])

  const CFG := Config(
    [Constant("n", 0), MODULES_DEF, Member("A"), Member("B"), Constant("y", 2), Constant("m", 1), IMP_DEF],
    [CHOICE_DEF], N, MODULES)

  lemma Definitions()
    ensures |CFG.syms| == 7 && CFG.choices == [CHOICE_DEF] && CFG.n == N && CFG.modules == MODULES
    ensures CFG.Sym(N) == Constant("n", 0) && CFG.Sym(Y) == Constant("y", 2) && CFG.Sym(M) == Constant("m", 1)
    ensures CFG.Sym(MODULES) == MODULES_DEF && CFG.Sym(IMP) == IMP_DEF && CFG.Choice(0) == CHOICE_DEF
    ensures CFG.Sym(A) == Member("A") && CFG.Sym(B) == Member("B")
    ensures forall i :: i >= 7 ==> CFG.Sym(i) == NO_SYM
    ensures forall c :: c >= 1 ==> CFG.Choice(c) == NO_CHOICE
  {
  }

  // ---------- The order of evaluation ----------

  function RankOf(a: Attr): nat {
    match a
    case Vis(i) => if i == A || i == B then 4 else if i == MODULES then 1 else 3
    case TriV(i) => if i == A || i == B then 6 else if i == MODULES then 2 else if i == IMP then 4 else 0
    case StrV(_) => 7
    case Asg(_) => 8
    case CVis(_) => 3
    case CSel(_) => 5
    case CAsg(_) => 8
  }

  ghost predicate Ranked(a: Attr) {
    forall b :: b in StaticReads(CFG, a) ==> RankOf(b) < RankOf(a)
  }

  lemma OnePrompt()
    ensures PromptAttrs(CFG, [SymE(Y)]) == {TriV(Y)} && PromptItems([SymE(Y)]) == {S(Y)}
    ensures PromptAttrs(CFG, [SymE(M)]) == {TriV(M)} && PromptItems([SymE(M)]) == {S(M)}
    ensures PromptAttrs(CFG, [ChoiceE(0)]) == ModeAttrs(CFG, 0) && PromptItems([ChoiceE(0)]) == {C(0)}
    ensures ModeAttrs(CFG, 0) == {CVis(0), TriV(MODULES)}
  {
    Definitions();
    assert [ChoiceE(0)][1..] == [] && [SymE(Y)][1..] == [] && [SymE(M)][1..] == [];
  }

  lemma MemberRank(i: nat)
    requires i == A || i == B
    ensures Ranked(Vis(i)) && Ranked(TriV(i)) && Ranked(StrV(i)) && Ranked(Asg(i))
  {
    OnePrompt();
    Definitions();
    hide CFG, PromptAttrs, ModeAttrs;
  }

  lemma ModulesRank()
    ensures Ranked(Vis(MODULES)) && Ranked(TriV(MODULES)) && Ranked(StrV(MODULES)) && Ranked(Asg(MODULES))
  {
    OnePrompt();
    Definitions();
    hide CFG, PromptAttrs, ModeAttrs;
  }

  lemma ImpRank()
    ensures Ranked(Vis(IMP)) && Ranked(TriV(IMP)) && Ranked(StrV(IMP)) && Ranked(Asg(IMP))
  {
    OnePrompt();
    Definitions();
    hide CFG, PromptAttrs, ModeAttrs;
  }

  lemma OtherRank(i: nat)
    requires i != A && i != B && i != MODULES && i != IMP
    ensures Ranked(Vis(i)) && Ranked(TriV(i)) && Ranked(StrV(i)) && Ranked(Asg(i))
  {
    Definitions();
    hide CFG;
    assert CFG.Sym(i) == Constant("n", 0) || CFG.Sym(i) == Constant("y", 2) || CFG.Sym(i) == Constant("m", 1)
        || CFG.Sym(i) == NO_SYM;
  }

  lemma ChoiceRank(c: nat)
    ensures Ranked(CVis(c)) && Ranked(CSel(c)) && Ranked(CAsg(c))
  {
    OnePrompt();
    Definitions();
    hide CFG;
  }

  lemma AttrRank(a: Attr)
    ensures Ranked(a)
  {
    hide StaticReads, CFG;
    match ItemOf(a)
    case S(i) =>
      if i == A || i == B {
        MemberRank(i);
      } else if i == MODULES {
        ModulesRank();
      } else if i == IMP {
        ImpRank();
      } else {
        OtherRank(i);
      }
    case C(c) => ChoiceRank(c);
  }

  lemma SmallAcyclic()
    ensures Acyclic(CFG)
  {
    hide StaticReads, CFG;
    forall a, b | b in StaticReads(CFG, a)
      ensures RankOf(b) < RankOf(a)
    {
      AttrRank(a);
    }
    assert IsRank(CFG, RankOf);
  }

  lemma SmallItems(y: Ref, x: Ref)
    requires ItemInRange(CFG, y) && x in ItemsOf(CFG, y)
    ensures ItemInRange(CFG, x)
  {
    OnePrompt();
    Definitions();
    hide CFG, PromptItems;
  }

  lemma SymsOK()
    ensures forall i :: 0 <= i < |CFG.syms| ==> SymOK(CFG, i)
  {
  }

  lemma ChoicesOK()
    ensures forall c :: 0 <= c < |CFG.choices| ==> ChoiceOK(CFG, c)
  {
    OnePrompt();
    Definitions();
    assert C(0) in ItemsOf(CFG, S(A)) && C(0) in ItemsOf(CFG, S(B));
    hide ItemsOf, CFG;
    assert CFG.syms[A] == CFG.Sym(A) && CFG.syms[B] == CFG.Sym(B);
  }

  lemma SmallParts()
    ensures PartsOK(CFG)
  {
    SymsOK();
    ChoicesOK();
    Definitions();
    hide SymOK, ChoiceOK, CFG, ItemsOf;
    forall x, y | ItemInRange(CFG, y) && x in ItemsOf(CFG, y)
      ensures ItemInRange(CFG, x)
    {
      SmallItems(y, x);
    }
  }

  lemma SmallConfigOK()
    ensures ConfigOK(CFG)
  {
    hide Acyclic, PartsOK;
    SmallAcyclic();
    SmallParts();
  }

  lemma SmallNames()
    ensures NamesOK(CFG)
  {
    assert NameOK("A") && NameOK("B") && NameOK("MODULES") && NameOK("IMP");
    Definitions();
    hide NameOK;
  }

  lemma SmallConfigPlain()
    ensures PlainConfig(CFG) && Propagated(CFG)
  {
    SmallNames();
    Definitions();
    hide NamesOK;
  }

  // ---------- A selection that survives ----------

  lemma FindB()
    ensures Lookup(CFG.syms, "B") == Some(B)
  {
    Definitions();
    LookupFinds(CFG.syms, B);
  }

  /** The user has selected A. Loading a file that only assigns m to B keeps the selection of
      A, while clearing and merging does not. */
  lemma OldSelectionSurvives()
    ensures ConfigOK(CFG)
    ensures var st, lines := State(User(map[], map[], map[0 := A]), {}), ["CONFIG_B=m"];
            && UserOK(CFG, st.user)
            && SelectionOf(LoadConfig(CFG, st, lines, true).user, 0) == Some(A)
            && SelectionOf(LoadLines(CFG, UnsetAll(CFG, st), lines).user, 0) == None
  {
    hide Lookup, MatchSet, ConfigOK;
    SmallConfigOK();
    var st, line := State(User(map[], map[], map[0 := A]), {}), "CONFIG_B=m";
    assert line == SetLine("B", "m");
    assert NameOK("B");
    MatchSetLine("B", "m");
    FindB();
    Definitions();
    assert AssignsMember(CFG, line, 0, "m");
    var a0, b0 := ClearFlags(CFG, st), UnsetAll(CFG, st);
    assert [line][..0] == [];
    assert LoadLines(CFG, a0, [line]) == LoadLine(CFG, LoadLines(CFG, a0, []), line);
    assert LoadLines(CFG, b0, [line]) == LoadLine(CFG, LoadLines(CFG, b0, []), line);
    assert LoadLine(CFG, a0, line) == SetTriText(CFG, a0, B, "m");
    assert LoadLine(CFG, b0, line) == SetTriText(CFG, b0, B, "m");
  }

  // ---------- Values ----------

  /** MODULES is y, and the choice has been set to m. */
  const M_MODE := User(map[MODULES := UTri(2)], map[0 := 1], map[])

  lemma Constants()
    ensures ConfigOK(CFG) && UserOK(CFG, M_MODE)
    ensures var env := EnvOf(CFG, M_MODE);
            env(TriV(N)).t == 0 && env(TriV(M)).t == 1 && env(TriV(Y)).t == 2
  {
    SmallConfigOK();
    Definitions();
    hide ConfigOK, Eval, CFG;
    Basis(CFG);
    EvalStep(CFG, M_MODE, TriV(N));
    EvalStep(CFG, M_MODE, TriV(M));
    EvalStep(CFG, M_MODE, TriV(Y));
  }

  lemma MaxOfOne(e: Expr, env: Env)
    ensures PromptMax(CFG, M_MODE, [e], env) == ExprVal(CFG, M_MODE, e, env)
  {
    assert [e][1..] == [];
    hide CFG, M_MODE;
  }

  lemma ModulesValue()
    ensures ConfigOK(CFG) && UserOK(CFG, M_MODE) && Eval(CFG, M_MODE, TriV(MODULES)).t == 2
  {
    Constants();
    Definitions();
    MaxOfOne(SymE(Y), EnvOf(CFG, M_MODE));
    hide ConfigOK, UserOK, Eval, CFG, PromptMax;
    Basis(CFG);
    EvalStep(CFG, M_MODE, Vis(MODULES));
    EvalStep(CFG, M_MODE, TriV(MODULES));
  }

  // ---------- A mode that is lost ----------

  lemma ChoiceInMMode()
    ensures ConfigOK(CFG) && UserOK(CFG, M_MODE) && Mode(CFG, M_MODE, 0) == 1
    ensures ChoiceTri(CFG, NOTHING, 0, EnvOf(CFG, M_MODE)) == 0
  {
    ModulesValue();
    Constants();
    Definitions();
    MaxOfOne(SymE(Y), EnvOf(CFG, M_MODE));
    hide ConfigOK, UserOK, Eval, CFG, PromptMax;
    Basis(CFG);
    EvalStep(CFG, M_MODE, CVis(0));
  }

  lemma MembersN(i: nat)
    requires i == A || i == B
    ensures ConfigOK(CFG) && UserOK(CFG, M_MODE) && Eval(CFG, M_MODE, TriV(i)).t == 0
  {
    ChoiceInMMode();
    SmallConfigPlain();
    Definitions();
    hide ConfigOK, UserOK, Eval, CFG, Mode, PromptsInside;
    Basis(CFG);
    NoMemberAboveMode(CFG, M_MODE, 0, i);
    EvalStep(CFG, M_MODE, TriV(i));
  }

  lemma ModeNotShown(written: set<nat>)
    ensures Acyclic(CFG) && !ModeShown(CFG, M_MODE, written, 0)
  {
    ChoiceInMMode();
    MembersN(A);
    MembersN(B);
    Definitions();
    hide Eval, CFG, Mode, ChoiceTri, UserOK;
  }

  lemma TextOfSmall()
    ensures Acyclic(CFG) && OneLiners(CFG, M_MODE)
  {
    Constants();
    Definitions();
    hide ConfigOK, UserOK, Eval, CFG;
    Basis(CFG);
    forall i | i in Written(CFG, M_MODE)
      ensures '\n' !in Eval(CFG, M_MODE, StrV(i)).s
    {
      assert CFG.Sym(i).defined;
      BoolTriText(CFG, M_MODE, i);
    }
  }

  /** The user has set the choice to m, and all its symbols are n. Nothing that is written shows
      the mode, so neither the full nor the minimal configuration brings it back. */
  lemma ModeLost(st: State)
    requires UserOK(CFG, st.user)
    ensures ConfigOK(CFG) && UserOK(CFG, M_MODE)
    ensures !SameConfig(CFG, M_MODE, LoadConfig(CFG, st, ConfigLines(CFG, M_MODE), true).user)
    ensures !SameConfig(CFG, M_MODE, LoadConfig(CFG, st, MinLines(CFG, M_MODE), true).user)
  {
    Constants();
    TextOfSmall();
    SmallConfigPlain();
    Definitions();
    hide Eval, ConfigOK, PlainConfig, Propagated, ConfigLines, MinLines, LoadConfig, SameConfig, UserOK, CFG, ModeShown;
    ModeNotShown(Written(CFG, M_MODE));
    ModeNotShown(MinWritten(CFG, M_MODE));
    FullRoundTrip(CFG, M_MODE, st);
    MinRoundTrip(CFG, M_MODE, st);
  }

  // ---------- An assignable value that is not respected ----------

  lemma ImpliedSymbol()
    ensures ConfigOK(CFG) && UserOK(CFG, M_MODE)
    ensures Eval(CFG, M_MODE, Vis(IMP)).t == 1
    ensures ValueOf(CFG, M_MODE, SymE(M)) == 1 && ValueOf(CFG, M_MODE, SymE(Y)) == 2
  {
    Constants();
    ModulesValue();
    Definitions();
    MaxOfOne(SymE(M), EnvOf(CFG, M_MODE));
    hide ConfigOK, UserOK, Eval, CFG, PromptMax;
    Basis(CFG);
    EvalStep(CFG, M_MODE, Vis(IMP));
  }

  /** m is the only assignable value of the implied symbol, but assigning it gives y. */
  lemma AssignableNotRespected()
    ensures ConfigOK(CFG) && UserOK(CFG, M_MODE)
    ensures Eval(CFG, M_MODE, Asg(IMP)).asg == [1]
    ensures !Respected(CFG, M_MODE, IMP, 1) && Respected(CFG, M_MODE, IMP, 2)
  {
    ImpliedSymbol();
    Definitions();
    hide ConfigOK, UserOK, Eval, CFG, Respected;
    Basis(CFG);
    EvalStep(CFG, M_MODE, Asg(IMP));
    PlainAssignable(CFG, M_MODE, IMP, 1);
    PlainAssignable(CFG, M_MODE, IMP, 2);
  }
}
