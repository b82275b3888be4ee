/** Configurations that pass the loop check although their values depend on themselves: through
    MODULES, and through the membership of a choice. */
module LoopExamples {
  import opened Types
  import opened Semantics
  import opened Evaluation
  import opened Caching
  import opened DepLoop
  import opened WellFounded

  /** A symbol whose prompt has its dependency as the condition. */
  function Prompted(name: string, typ: SType, dep: Expr, choice: Option<nat>): SymDef {
    SymDef(name, typ, None, false, true, [dep], [], [], SymE(0), SymE(0), dep, choice, false)
  }

  lemma OnePrompt(cfg: Config, e: Expr)
    ensures PromptAttrs(cfg, [e]) == ExprAttrs(cfg, e) && PromptItems([e]) == ExprItems(e)
  {
    assert [e][1..] == [];
  }

  // ---------- MODULES ----------

  const N := 0
  const MODULES := 1
  const T := 2
  const Y := 3

  /** MODULES depends on a tristate symbol, which reads MODULES to know its type. */
  const MODULES_LOOP := Config(
    [Constant("n", 0), Prompted("MODULES", BOOL, SymE(T), None), Prompted("T", TRISTATE, SymE(Y), None),
     Constant("y", 2)],
    [], N, MODULES)

  lemma ModulesLoopItems(y: Ref, x: Ref)
    requires ItemInRange(MODULES_LOOP, y) && x in ItemsOf(MODULES_LOOP, y)
    ensures y == S(MODULES) || y == S(T)
    ensures x in (if y == S(MODULES) then {S(T), S(N)} else {S(Y), S(N)})
  {
    OnePrompt(MODULES_LOOP, SymE(T));
    OnePrompt(MODULES_LOOP, SymE(Y));
    var cfg := MODULES_LOOP;
    assert cfg.Sym(N) == Constant("n", 0) && cfg.Sym(Y) == Constant("y", 2);
    assert cfg.Sym(MODULES) == Prompted("MODULES", BOOL, SymE(T), None);
    assert cfg.Sym(T) == Prompted("T", TRISTATE, SymE(Y), None);
  }

  lemma ModulesLoopPlain()
    ensures PartsOK(MODULES_LOOP)
  {
    var cfg := MODULES_LOOP;
    forall x, y | ItemInRange(cfg, y) && x in ItemsOf(cfg, y)
      ensures ItemInRange(cfg, x)
    {
      ModulesLoopItems(y, x);
    }
    hide ItemsOf;
  }

  lemma ModulesLoopOrdered()
    ensures exists order :: Ordered(MODULES_LOOP, order)
  {
    var cfg, order := MODULES_LOOP, map[S(MODULES) := 0, S(T) := 1];
    forall x, y | x in order && x.S? && Mentioned(cfg, x, y)
      ensures y in order && order[y] < order[x]
    {
      ModulesLoopItems(y, x);
    }
    hide Mentioned;
    assert Numbered(cfg, order);
    assert Ordered(cfg, order);
  }

  /** The value of MODULES is read to compute it. */
  lemma ModulesLoopCyclic()
    ensures !Acyclic(MODULES_LOOP)
  {
    var cfg := MODULES_LOOP;
    OnePrompt(cfg, SymE(T));
    assert cfg.Sym(MODULES) == Prompted("MODULES", BOOL, SymE(T), None);
    assert cfg.Sym(T) == Prompted("T", TRISTATE, SymE(Y), None);
    assert Vis(MODULES) in StaticReads(cfg, TriV(MODULES));
    assert TriV(T) in StaticReads(cfg, Vis(MODULES));
    assert TriV(MODULES) in StaticReads(cfg, TriV(T));
    hide StaticReads;
  }

  /** The check passes, since no symbol depends on itself through dependents, but evaluation is
      not well-founded. */
  lemma ModulesLoop()
    ensures PartsOK(MODULES_LOOP) && MODULES_LOOP.choices == [] && exists order :: Ordered(MODULES_LOOP, order)
    ensures !ModulesReadsNoTristate(MODULES_LOOP) && !Acyclic(MODULES_LOOP)
  {
    hide Acyclic, Ordered, PartsOK, ModulesReadsNoTristate, NoCutReadsItself;
    ModulesLoopPlain();
    ModulesLoopOrdered();
    ModulesLoopCyclic();
    var order :| Ordered(MODULES_LOOP, order);
    CheckedMeansAcyclicIff(MODULES_LOOP, order);
    ChoiceFreeIff(MODULES_LOOP, order);
  }

  // ---------- A choice ----------

  const Z := 2
  const P := 3
  const A := 4
  const B := 5
  const X := 6
  const YES := 7

  /** A choice with the symbols A and B. A depends on X, and X on B, so the visibility of A,
      which decides about the selection, depends on the value of B. Before the search comes to A
      and B it enters the choice through the prompt, which depends on Z, or through P, another
      symbol of the choice. */
  function ChoiceLoop(viaSymbol: bool): Config {
    Config(
      [Constant("n", 0), Prompted("MODULES", BOOL, SymE(YES), None), Prompted("Z", BOOL, SymE(YES), None),
       if viaSymbol then Prompted("P", BOOL, ChoiceE(0), Some(0)) else Prompted("P", BOOL, SymE(YES), None),
       Prompted("A", BOOL, And(SymE(X), ChoiceE(0)), Some(0)), Prompted("B", BOOL, ChoiceE(0), Some(0)),
       Prompted("X", BOOL, SymE(B), None), Constant("y", 2)],
      [ChoiceDef(BOOL, false, [SymE(if viaSymbol then YES else Z)], [], Members(viaSymbol))], N, MODULES)
  }

  function Members(viaSymbol: bool): seq<nat> {
    if viaSymbol then [P, A, B] else [A, B]
  }

  /** The non-constant items that the items of the configuration mention. */
  function MentionedBy(viaSymbol: bool, y: Ref): set<Ref> {
    match y
    case S(i) =>
      if i == A then {S(X), C(0)} else if i == B || (i == P && viaSymbol) then {C(0)}
      else if i == X then {S(B)} else {}
    case C(c) => if c == 0 && !viaSymbol then {S(Z)} else {}
  }

  lemma Constants(viaSymbol: bool)
    ensures var cfg := ChoiceLoop(viaSymbol);
            cfg.Sym(N) == Constant("n", 0) && cfg.Sym(YES) == Constant("y", 2)
  {
  }

  lemma OnePrompts(cfg: Config)
    ensures PromptItems([SymE(YES)]) == {S(YES)} && PromptItems([SymE(Z)]) == {S(Z)}
    ensures PromptItems([SymE(B)]) == {S(B)} && PromptItems([ChoiceE(0)]) == {C(0)}
    ensures PromptItems([And(SymE(X), ChoiceE(0))]) == {S(X), C(0)} == ExprItems(And(SymE(X), ChoiceE(0)))
  {
    OnePrompt(cfg, SymE(YES));
    OnePrompt(cfg, SymE(Z));
    OnePrompt(cfg, SymE(B));
    OnePrompt(cfg, ChoiceE(0));
    OnePrompt(cfg, And(SymE(X), ChoiceE(0)));
    assert ExprItems(And(SymE(X), ChoiceE(0))) == {S(X), C(0)};
  }

  lemma ChoiceLoopItems(viaSymbol: bool, y: Ref, x: Ref)
    requires ItemInRange(ChoiceLoop(viaSymbol), y) && x in ItemsOf(ChoiceLoop(viaSymbol), y)
    ensures x in MentionedBy(viaSymbol, y) || x == S(YES) || x == S(N)
  {
    OnePrompts(ChoiceLoop(viaSymbol));
    Constants(viaSymbol);
    hide PromptItems;
  }

  function OrderOf(x: Ref): nat {
    match x
    case S(i) =>
      if i == A then 0 else if i == X then 1 else if i == B then 2
      else if i == Z then 4 else if i == P then 5 else 6
    case C(_) => 3
  }

  const CHOICE_ITEMS: set<Ref> := {S(A), S(X), S(B), C(0), S(Z), S(P), S(MODULES)}

  lemma ChoiceItemsSpec(viaSymbol: bool)
    ensures |CHOICE_ITEMS| == 7
    ensures var cfg := ChoiceLoop(viaSymbol);
            forall i :: 0 <= i < |cfg.syms| && cfg.syms[i].defined ==> S(i) in CHOICE_ITEMS
  {
  }

  lemma OrderDown(viaSymbol: bool, x: Ref, y: Ref)
    requires x.S? && x in CHOICE_ITEMS && x in MentionedBy(viaSymbol, y)
    ensures y in CHOICE_ITEMS && OrderOf(y) < OrderOf(x) < 7
  {
  }

  lemma OnlyMentioned(viaSymbol: bool, x: Ref, y: Ref)
    requires Mentioned(ChoiceLoop(viaSymbol), x, y)
    ensures x in MentionedBy(viaSymbol, y)
  {
    ChoiceLoopItems(viaSymbol, y, x);
    Constants(viaSymbol);
    hide ItemsOf, ChoiceLoop;
  }

  lemma ChoiceLoopOrdered(viaSymbol: bool)
    ensures exists order :: Ordered(ChoiceLoop(viaSymbol), order)
  {
    hide Mentioned, MentionedBy, ChoiceLoop;
    ChoiceItemsSpec(viaSymbol);
    var items, cfg := CHOICE_ITEMS, ChoiceLoop(viaSymbol);
    var order := map x | x in items :: OrderOf(x);
    assert |order| == |order.Keys| && order.Keys == items;
    forall x, y | x in order && x.S? && Mentioned(cfg, x, y)
      ensures y in order && order[y] < order[x]
    {
      OnlyMentioned(viaSymbol, x, y);
      OrderDown(viaSymbol, x, y);
    }
    assert Numbered(cfg, order);
    assert Ordered(cfg, order);
  }

  lemma ChoiceLoopPlain(viaSymbol: bool)
    ensures PartsOK(ChoiceLoop(viaSymbol))
  {
    var cfg := ChoiceLoop(viaSymbol);
    forall x, y | ItemInRange(cfg, y) && x in ItemsOf(cfg, y)
      ensures ItemInRange(cfg, x)
    {
      ChoiceLoopItems(viaSymbol, y, x);
    }
    SymsOK(viaSymbol);
    ChoicesOK(viaSymbol);
    hide ItemsOf, SymOK, ChoiceOK;
  }

  lemma SymsOK(viaSymbol: bool)
    ensures var cfg := ChoiceLoop(viaSymbol);
            forall i :: 0 <= i < |cfg.syms| ==> SymOK(cfg, i)
  {
  }

  lemma ChoicesOK(viaSymbol: bool)
    ensures var cfg := ChoiceLoop(viaSymbol);
            forall c :: 0 <= c < |cfg.choices| ==> ChoiceOK(cfg, c)
  {
    MembersMention(viaSymbol);
    hide ItemsOf;
  }

  lemma MembersMention(viaSymbol: bool)
    ensures var cfg := ChoiceLoop(viaSymbol);
            forall i :: i in Members(viaSymbol) ==> C(0) in ItemsOf(cfg, S(i))
  {
    OnePrompts(ChoiceLoop(viaSymbol));
    hide PromptItems;
  }

  /** B is read to compute B: the selection of the choice depends on the visibility of A, this
      on X, and X on B. */
  lemma ChoiceLoopCyclic(viaSymbol: bool)
    ensures !Acyclic(ChoiceLoop(viaSymbol))
  {
    var cfg := ChoiceLoop(viaSymbol);
    OnePrompt(cfg, SymE(B));
    OnePrompt(cfg, And(SymE(X), ChoiceE(0)));
    assert cfg.Sym(B) == Prompted("B", BOOL, ChoiceE(0), Some(0)) && cfg.Choice(0) == cfg.choices[0];
    assert cfg.Sym(A) == Prompted("A", BOOL, And(SymE(X), ChoiceE(0)), Some(0));
    assert cfg.Sym(X) == Prompted("X", BOOL, SymE(B), None);
    assert CSel(0) in StaticReads(cfg, TriV(B));
    assert A in Members(viaSymbol) && Vis(A) in StaticReads(cfg, CSel(0));
    assert TriV(X) in ExprAttrs(cfg, SymE(X));
    assert TriV(X) in StaticReads(cfg, Vis(A));
    assert Vis(X) in StaticReads(cfg, TriV(X));
    assert TriV(B) in StaticReads(cfg, Vis(X));
    hide StaticReads;
  }

  // ---------- What the search does ----------

  /** The dependents as the search meets them. */
  function DependentsOf(viaSymbol: bool, x: Ref): seq<Ref> {
    match x
    case S(i) =>
      if i == Z && !viaSymbol then [C(0)] else if i == X then [S(A)] else if i == B then [S(X)] else []
    case C(c) => if c != 0 then [] else if viaSymbol then [S(P), S(A), S(B)] else [S(A), S(B)]
  }

  function ChoiceDependents(viaSymbol: bool): Dependents {
    map x | x in ItemSet(ChoiceLoop(viaSymbol)) :: DependentsOf(viaSymbol, x)
  }

  lemma ItemsMentioned(viaSymbol: bool, y: Ref, x: Ref)
    requires ItemInRange(ChoiceLoop(viaSymbol), y) && x in MentionedBy(viaSymbol, y)
    ensures Mentioned(ChoiceLoop(viaSymbol), x, y)
  {
    var cfg := ChoiceLoop(viaSymbol);
    OnePrompts(cfg);
    assert cfg.Choice(0) == cfg.choices[0];
    hide PromptItems;
  }

  lemma DependentsMatch(viaSymbol: bool, x: Ref, y: Ref)
    requires ItemInRange(ChoiceLoop(viaSymbol), x)
    ensures y in DependentsOf(viaSymbol, x) <==> Mentioned(ChoiceLoop(viaSymbol), x, y)
  {
    if y in DependentsOf(viaSymbol, x) {
      ItemsMentioned(viaSymbol, y, x);
    }
    if Mentioned(ChoiceLoop(viaSymbol), x, y) {
      OnlyMentioned(viaSymbol, x, y);
      assert x in MentionedBy(viaSymbol, y);
    }
    hide ItemsOf;
  }

  lemma ChoiceDependentsOK(viaSymbol: bool)
    ensures DependentsOK(ChoiceLoop(viaSymbol), ChoiceDependents(viaSymbol))
  {
    ChoiceLoopPlain(viaSymbol);
    GraphIsOK(ChoiceLoop(viaSymbol));
    var cfg, deps := ChoiceLoop(viaSymbol), ChoiceDependents(viaSymbol);
    hide Mentioned, GraphOK, PartsOK, ChoiceLoop;
    forall x | ItemInRange(cfg, x)
      ensures x in deps
    {
    }
    forall x, y | x in deps
      ensures y in deps[x] <==> Mentioned(cfg, x, y)
    {
      DependentsMatch(viaSymbol, x, y);
    }
  }

  lemma GraphIsOK(cfg: Config)
    requires PartsOK(cfg)
    ensures GraphOK(cfg)
  {
    hide ItemsOf, DependsOn, Promptless;
    forall i | 0 <= i < |cfg.syms| && cfg.syms[i].choice.Some?
      ensures cfg.syms[i].choice.value < |cfg.choices|
    {
      assert SymOK(cfg, i);
    }
    forall c, i {:trigger i in cfg.choices[c].syms} | 0 <= c < |cfg.choices| && i in cfg.choices[c].syms
      ensures i < |cfg.syms| && cfg.syms[i].choice == Some(c)
    {
      assert ChoiceOK(cfg, c);
    }
  }

  /** A symbol with one dependent, or none, that does not enter a choice. */
  lemma PlainVisit(cfg: Config, deps: Dependents, m: Marks, i: nat, ignoreChoice: bool, m': Marks)
    requires DependentsOK(cfg, deps) && i < |cfg.syms| && S(i) !in m.open && S(i) !in m.done
    requires cfg.syms[i].choice.None? || ignoreChoice
    requires forall y :: y in deps[S(i)] ==> ItemInRange(cfg, y)
    requires VisitAll(cfg, deps, Marks(m.open + {S(i)}, m.done), deps[S(i)], S(i)) == Visited(NoLoop, m')
    ensures VisitSym(cfg, deps, m, i, ignoreChoice) == Visited(NoLoop, Closed(m', S(i)))
  {
    hide VisitAll, VisitChoice, DependentsOK;
  }

  lemma OneDependent(cfg: Config, deps: Dependents, m: Marks, y: Ref, cur: Ref, m': Marks)
    requires DependentsOK(cfg, deps) && ItemInRange(cfg, y)
    requires var r := if y.C? then VisitChoice(cfg, deps, m, y.c, None) else VisitSym(cfg, deps, m, y.i, false);
             r == Visited(NoLoop, m')
    ensures forall x :: x in [y] ==> ItemInRange(cfg, x)
    ensures VisitAll(cfg, deps, m, [y], cur) == Visited(NoLoop, m')
  {
    hide VisitChoice, VisitSym, DependentsOK;
    assert [y][1..] == [];
  }

  lemma NoDependents(cfg: Config, deps: Dependents, m: Marks, cur: Ref)
    requires DependentsOK(cfg, deps)
    ensures VisitAll(cfg, deps, m, [], cur) == Visited(NoLoop, m)
  {
  }

  lemma LeafVisit(cfg: Config, deps: Dependents, m: Marks, i: nat, ignoreChoice: bool)
    requires DependentsOK(cfg, deps) && i < |cfg.syms| && S(i) !in m.open && S(i) !in m.done
    requires (cfg.syms[i].choice.None? || ignoreChoice) && deps[S(i)] == []
    ensures VisitSym(cfg, deps, m, i, ignoreChoice) == Visited(NoLoop, Marks(m.open, m.done + {S(i)}))
  {
    hide VisitSym, VisitChoice, VisitAll, DependentsOK;
    var m1 := Marks(m.open + {S(i)}, m.done);
    NoDependents(cfg, deps, m1, S(i));
    PlainVisit(cfg, deps, m, i, ignoreChoice, m1);
    assert m.open + {S(i)} - {S(i)} == m.open;
  }

  /** A symbol whose only dependent is visited without a loop. */
  lemma ChainVisit(cfg: Config, deps: Dependents, m: Marks, i: nat, ignoreChoice: bool, y: Ref, done: set<Ref>)
    requires DependentsOK(cfg, deps) && i < |cfg.syms| && S(i) !in m.open && S(i) !in m.done
    requires (cfg.syms[i].choice.None? || ignoreChoice) && deps[S(i)] == [y] && ItemInRange(cfg, y)
    requires var m1 := Marks(m.open + {S(i)}, m.done);
             var r := if y.C? then VisitChoice(cfg, deps, m1, y.c, None) else VisitSym(cfg, deps, m1, y.i, false);
             r == Visited(NoLoop, Marks(m1.open, done))
    ensures VisitSym(cfg, deps, m, i, ignoreChoice) == Visited(NoLoop, Marks(m.open, done + {S(i)}))
  {
    hide VisitSym, VisitChoice, VisitAll, DependentsOK;
    var m1 := Marks(m.open + {S(i)}, m.done);
    OneDependent(cfg, deps, m1, y, S(i), Marks(m1.open, done));
    PlainVisit(cfg, deps, m, i, ignoreChoice, Marks(m1.open, done));
    assert m.open + {S(i)} - {S(i)} == m.open;
  }

  lemma DoneVisit(cfg: Config, deps: Dependents, m: Marks, i: nat)
    requires DependentsOK(cfg, deps) && i < |cfg.syms| && S(i) in m.done
    ensures VisitSym(cfg, deps, m, i, false) == Visited(NoLoop, m)
  {
    hide DependentsOK, VisitAll, VisitChoice;
  }

  ghost predicate Searched(viaSymbol: bool, cfg: Config, deps: Dependents) {
    && cfg == ChoiceLoop(viaSymbol) && DependentsOK(cfg, deps)
    && (forall x :: ItemInRange(cfg, x) ==> deps[x] == DependentsOf(viaSymbol, x))
  }

  lemma KnownDependents(viaSymbol: bool)
    ensures Searched(viaSymbol, ChoiceLoop(viaSymbol), ChoiceDependents(viaSymbol))
  {
    ChoiceDependentsOK(viaSymbol);
    hide DependentsOK, ChoiceLoop;
  }

  /** Within the choice, A is finished first, and the way from B ends at A. */
  lemma MembersVisit(viaSymbol: bool, cfg: Config, deps: Dependents, m: Marks, skip: Option<nat>)
    requires Searched(viaSymbol, cfg, deps) && skip == (if viaSymbol then Some(P) else None)
    requires forall i :: i == A || i == B || i == X ==> S(i) !in m.open && S(i) !in m.done
    ensures AllBelow(Members(viaSymbol), |cfg.syms|)
    ensures VisitMembers(cfg, deps, m, Members(viaSymbol), 0, skip) ==
            Visited(NoLoop, Marks(m.open, m.done + {S(A), S(X), S(B)}))
  {
    hide VisitSym, VisitAll, VisitChoice, DependentsOK;
    LeafVisit(cfg, deps, m, A, true);
    var afterA := Marks(m.open, m.done + {S(A)});
    var inB := Marks(m.open + {S(B)}, afterA.done);
    DoneVisit(cfg, deps, Marks(inB.open + {S(X)}, inB.done), A);
    ChainVisit(cfg, deps, inB, X, false, S(A), inB.done);
    ChainVisit(cfg, deps, afterA, B, true, S(X), inB.done + {S(X)});
    assert inB.done + {S(X)} + {S(B)} == m.done + {S(A), S(X), S(B)};
    hide Searched;
    TwoMembers(cfg, deps, m, skip, afterA, Marks(m.open, m.done + {S(A), S(X), S(B)}));
    assert viaSymbol ==> Members(viaSymbol)[1..] == [A, B];
  }

  lemma TwoMembers(cfg: Config, deps: Dependents, m: Marks, skip: Option<nat>, m1: Marks, m2: Marks)
    requires DependentsOK(cfg, deps) && |cfg.syms| > B && skip != Some(A) && skip != Some(B)
    requires VisitSym(cfg, deps, m, A, true) == Visited(NoLoop, m1)
    requires VisitSym(cfg, deps, m1, B, true) == Visited(NoLoop, m2)
    ensures AllBelow([A, B], |cfg.syms|) && VisitMembers(cfg, deps, m, [A, B], 0, skip) == Visited(NoLoop, m2)
  {
    hide VisitSym, DependentsOK;
    assert [A, B][1..] == [B] && [B][1..] == [];
    assert VisitMembers(cfg, deps, m1, [B], 0, skip) == Visited(NoLoop, m2);
  }

  /** The choice is finished without a loop. */
  lemma ChoiceVisit(viaSymbol: bool, cfg: Config, deps: Dependents, m: Marks, skip: Option<nat>)
    requires Searched(viaSymbol, cfg, deps) && skip == (if viaSymbol then Some(P) else None)
    requires forall i :: i == A || i == B || i == X ==> S(i) !in m.open && S(i) !in m.done
    requires C(0) !in m.open && C(0) !in m.done
    ensures VisitChoice(cfg, deps, m, 0, skip) ==
            Visited(NoLoop, Marks(m.open, m.done + {S(A), S(X), S(B), C(0)}))
  {
    hide VisitMembers, DependentsOK;
    MembersVisit(viaSymbol, cfg, deps, Marks(m.open + {C(0)}, m.done), skip);
    assert m.open + {C(0)} - {C(0)} == m.open;
    assert m.done + {S(A), S(X), S(B)} + {C(0)} == m.done + {S(A), S(X), S(B), C(0)};
  }

  /** Z enters the choice, or is finished at once. */
  lemma ZVisit(viaSymbol: bool, cfg: Config, deps: Dependents, m: Marks)
    requires Searched(viaSymbol, cfg, deps) && m == Marks({}, {S(MODULES)})
    ensures VisitSym(cfg, deps, m, Z, false) ==
            Visited(NoLoop, Marks({}, m.done + {S(Z)} + if viaSymbol then {} else {S(A), S(X), S(B), C(0)}))
  {
    hide VisitSym, VisitAll, VisitChoice, DependentsOK;
    if viaSymbol {
      LeafVisit(cfg, deps, m, Z, false);
      assert m.done + {S(Z)} + {} == m.done + {S(Z)};
    } else {
      var done := m.done + {S(A), S(X), S(B), C(0)};
      ChoiceVisit(viaSymbol, cfg, deps, Marks({} + {S(Z)}, m.done), None);
      ChainVisit(cfg, deps, m, Z, false, C(0), done);
      assert done + {S(Z)} == m.done + {S(Z)} + {S(A), S(X), S(B), C(0)};
    }
  }

  const ALL_DONE := Marks({}, {S(MODULES), S(Z), S(P), S(A), S(X), S(B), C(0)})

  /** So does P. */
  lemma PVisit(viaSymbol: bool, cfg: Config, deps: Dependents, m: Marks)
    requires Searched(viaSymbol, cfg, deps)
    requires m == Marks({}, {S(MODULES)} + {S(Z)} + if viaSymbol then {} else {S(A), S(X), S(B), C(0)})
    ensures VisitSym(cfg, deps, m, P, false) == Visited(NoLoop, ALL_DONE)
  {
    hide VisitAll, VisitChoice, DependentsOK;
    if viaSymbol {
      var inP := Marks({} + {S(P)}, m.done);
      NoDependents(cfg, deps, inP, S(P));
      ChoiceVisit(viaSymbol, cfg, deps, inP, Some(P));
      assert Closed(Marks(inP.open, m.done + {S(A), S(X), S(B), C(0)}), S(P)) == ALL_DONE;
    } else {
      hide VisitSym;
      LeafVisit(cfg, deps, m, P, false);
      assert Marks({}, m.done + {S(P)}) == ALL_DONE;
    }
  }

  lemma RestDone(viaSymbol: bool, cfg: Config, deps: Dependents)
    requires Searched(viaSymbol, cfg, deps)
    ensures VisitDefined(cfg, deps, ALL_DONE, A) == Visited(NoLoop, ALL_DONE)
  {
    hide VisitSym, DependentsOK;
    DoneVisit(cfg, deps, ALL_DONE, A);
    DoneVisit(cfg, deps, ALL_DONE, B);
    DoneVisit(cfg, deps, ALL_DONE, X);
    assert VisitDefined(cfg, deps, ALL_DONE, YES) == Visited(NoLoop, ALL_DONE);
    assert VisitDefined(cfg, deps, ALL_DONE, X) == Visited(NoLoop, ALL_DONE);
    assert VisitDefined(cfg, deps, ALL_DONE, B) == Visited(NoLoop, ALL_DONE);
  }

  lemma WholeSearch(viaSymbol: bool, cfg: Config, deps: Dependents)
    requires Searched(viaSymbol, cfg, deps)
    ensures VisitDefined(cfg, deps, Marks({}, {}), 0) == Visited(NoLoop, ALL_DONE)
  {
    hide VisitSym, DependentsOK;
    var start := Marks({}, {S(MODULES)});
    LeafVisit(cfg, deps, Marks({}, {}), MODULES, false);
    assert Marks({}, {} + {S(MODULES)}) == start;
    ZVisit(viaSymbol, cfg, deps, start);
    var afterZ := Marks({}, start.done + {S(Z)} + if viaSymbol then {} else {S(A), S(X), S(B), C(0)});
    PVisit(viaSymbol, cfg, deps, afterZ);
    RestDone(viaSymbol, cfg, deps);
    assert VisitDefined(cfg, deps, afterZ, P) == Visited(NoLoop, ALL_DONE);
    assert VisitDefined(cfg, deps, start, Z) == Visited(NoLoop, ALL_DONE);
    assert VisitDefined(cfg, deps, Marks({}, {}), MODULES) == Visited(NoLoop, ALL_DONE);
  }

  /** The search enters the choice through its prompt or through P, and finishes A from there
      without coming back to the choice, so that nothing is left to close the loop when it comes
      to A from B. The check raises nothing, although the selection of the choice is read to
      compute it. If it enters through the prompt, two symbols in the choice are enough. */
  lemma ChoiceLoopMissed(viaSymbol: bool)
    ensures var cfg := ChoiceLoop(viaSymbol);
            && PartsOK(cfg) && !NoCutReadsItself(cfg) && !Acyclic(cfg)
            && DependentsOK(cfg, ChoiceDependents(viaSymbol))
            && VisitDefined(cfg, ChoiceDependents(viaSymbol), Marks({}, {}), 0).outcome == NoLoop
  {
    KnownDependents(viaSymbol);
    WholeSearch(viaSymbol, ChoiceLoop(viaSymbol), ChoiceDependents(viaSymbol));
    ChoiceLoopPlain(viaSymbol);
    ChoiceLoopOrdered(viaSymbol);
    ChoiceLoopCyclic(viaSymbol);
    hide PartsOK, Ordered, NoCutReadsItself, Acyclic, VisitDefined, ChoiceLoop, DependentsOK;
    var order :| Ordered(ChoiceLoop(viaSymbol), order);
    CheckedMeansAcyclicIff(ChoiceLoop(viaSymbol), order);
  }

  // ---------- Where it is found ----------

  lemma LoopPart(viaSymbol: bool, cfg: Config, deps: Dependents, m: Marks)
    requires Searched(viaSymbol, cfg, deps) && m.open == {S(A), C(0)} && S(B) !in m.done && S(X) !in m.done
    requires S(A) !in m.done
    ensures VisitSym(cfg, deps, m, B, true).outcome == Part([S(A), S(X), S(B)])
  {
    hide VisitChoice, DependentsOK;
    var inB := Marks(m.open + {S(B)}, m.done);
    var inX := Marks(inB.open + {S(X)}, inB.done);
    assert VisitSym(cfg, deps, inX, A, false).outcome == Part([S(A)]);
    assert VisitAll(cfg, deps, inX, [S(A)], S(X)).outcome == Part([S(A), S(X)]);
    assert VisitSym(cfg, deps, inB, X, false).outcome == Part([S(A), S(X)]);
    assert VisitAll(cfg, deps, inB, [S(X)], S(B)).outcome == Part([S(A), S(X), S(B)]);
  }

  lemma MembersPart(viaSymbol: bool, cfg: Config, deps: Dependents, m: Marks)
    requires Searched(viaSymbol, cfg, deps) && m == Marks({S(A), C(0)}, {})
    ensures AllBelow(Members(viaSymbol), |cfg.syms|)
    ensures VisitMembers(cfg, deps, m, Members(viaSymbol), 0, Some(A)).outcome == Part([S(A), S(X), S(B), C(0)])
  {
    hide VisitSym, DependentsOK;
    var m1 := if viaSymbol then Marks(m.open, m.done + {S(P)}) else m;
    LoopPart(viaSymbol, cfg, deps, m1);
    assert [A, B][1..] == [B];
    assert VisitMembers(cfg, deps, m1, [A, B], 0, Some(A)).outcome == Part([S(A), S(X), S(B), C(0)]);
    if viaSymbol {
      LeafVisit(cfg, deps, m, P, true);
      assert Members(viaSymbol)[1..] == [A, B];
    }
  }

  /** Whether the loop is found depends on where the search starts: from A it is. */
  lemma ChoiceLoopFound(viaSymbol: bool)
    ensures var cfg, deps := ChoiceLoop(viaSymbol), ChoiceDependents(viaSymbol);
            && DependentsOK(cfg, deps)
            && VisitSym(cfg, deps, Marks({}, {}), A, false).outcome == Raised([S(A), S(X), S(B), C(0)])
  {
    KnownDependents(viaSymbol);
    hide VisitAll, VisitMembers, DependentsOK, ChoiceDependents;
    var cfg, deps := ChoiceLoop(viaSymbol), ChoiceDependents(viaSymbol);
    var inA, inC := Marks({S(A)}, {}), Marks({S(A), C(0)}, {});
    assert {} + {S(A)} == inA.open && inA.open + {C(0)} == inC.open;
    MembersPart(viaSymbol, cfg, deps, inC);
    NoDependents(cfg, deps, inA, S(A));
    assert VisitChoice(cfg, deps, inA, 0, Some(A)).outcome == Part([S(A), S(X), S(B), C(0)]);
    hide VisitChoice;
  }
}
