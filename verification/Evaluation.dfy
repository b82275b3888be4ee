/** The fixpoint of the step equations: its existence for acyclic configurations,
    its uniqueness, and the fact that a value depends only on what was read. */
module Evaluation {
  import opened Types
  import opened Numbers
  import opened Semantics

  // ---------- What the properties of an item mention ----------

  function ModeAttrs(cfg: Config, c: nat): set<Attr> {
    {CVis(c)} + if cfg.Choice(c).typ == TRISTATE then {TriV(cfg.modules)} else {}
  }

  function ExprAttrs(cfg: Config, e: Expr): set<Attr> {
    match e
    case SymE(s) => {TriV(s)}
    case ChoiceE(c) => ModeAttrs(cfg, c)
    case And(l, r) => ExprAttrs(cfg, l) + ExprAttrs(cfg, r)
    case Or(l, r) => ExprAttrs(cfg, l) + ExprAttrs(cfg, r)
    case Not(e1) => ExprAttrs(cfg, e1)
    case Rel(_, a, b) => SymToNumReads(cfg, a) + SymToNumReads(cfg, b) + {StrV(a), StrV(b)}
  }

  function PromptAttrs(cfg: Config, ps: seq<Expr>): set<Attr> {
    if ps == [] then {} else ExprAttrs(cfg, ps[0]) + PromptAttrs(cfg, ps[1..])
  }

  function DefaultAttrs(cfg: Config, ds: seq<Default>): set<Attr> {
    if ds == [] then {}
    else ExprAttrs(cfg, ds[0].cond) + ExprAttrs(cfg, ds[0].value) + DefaultAttrs(cfg, ds[1..])
  }

  function DefaultStrAttrs(cfg: Config, ds: seq<Default>): set<Attr> {
    if ds == [] then {}
    else ExprAttrs(cfg, ds[0].cond) + DefaultStrReads(ds[0].value) + DefaultStrAttrs(cfg, ds[1..])
  }

  function RangeAttrs(cfg: Config, rs: seq<RangeDef>): set<Attr> {
    if rs == [] then {}
    else ExprAttrs(cfg, rs[0].cond) + {StrV(rs[0].low), StrV(rs[0].high)} + RangeAttrs(cfg, rs[1..])
  }

  function ChoiceDefaultAttrs(cfg: Config, ds: seq<ChoiceDefault>): set<Attr> {
    if ds == [] then {}
    else ExprAttrs(cfg, ds[0].cond) + {Vis(ds[0].sym)} + ChoiceDefaultAttrs(cfg, ds[1..])
  }

  function MemberAttrs(ss: seq<nat>): set<Attr> {
    set s | s in ss :: Vis(s)
  }

  function TypeAttrs(cfg: Config, i: nat): set<Attr> {
    var d := cfg.Sym(i);
    if d.typ != TRISTATE then {}
    else {TriV(cfg.modules)} + if d.choice.Some? then ModeAttrs(cfg, d.choice.value) else {}
  }

  /** Everything that some evaluation of `a` may read. */
  function StaticReads(cfg: Config, a: Attr): set<Attr> {
    match a
    case Vis(i) =>
      var d := cfg.Sym(i);
      PromptAttrs(cfg, d.prompts) + TypeAttrs(cfg, i) + {TriV(cfg.n)} +
      if d.choice.Some? then ModeAttrs(cfg, d.choice.value) else {}
    case TriV(i) =>
      var d := cfg.Sym(i);
      if d.constTri.Some? || !IsBoolTri(d.typ) then {}
      else if d.choice.Some? then {Vis(i), CSel(d.choice.value)}
      else
        {Vis(i)} + DefaultAttrs(cfg, d.defaults) + ExprAttrs(cfg, d.revDep) +
        ExprAttrs(cfg, d.weakRevDep) + ExprAttrs(cfg, d.directDep) + TypeAttrs(cfg, i)
    case StrV(i) =>
      var d := cfg.Sym(i);
      if IsBoolTri(d.typ) then {TriV(i)}
      else if d.typ == UNKNOWN then {}
      else {Vis(i)} + DefaultStrAttrs(cfg, d.defaults) + RangeAttrs(cfg, d.ranges)
    case Asg(i) =>
      var d := cfg.Sym(i);
      if !IsBoolTri(d.typ) then {}
      else {Vis(i)} + ExprAttrs(cfg, d.revDep) + ExprAttrs(cfg, d.weakRevDep) + TypeAttrs(cfg, i)
    case CVis(c) =>
      var d := cfg.Choice(c);
      PromptAttrs(cfg, d.prompts) + if d.typ == TRISTATE then {TriV(cfg.modules)} else {}
    case CSel(c) =>
      var d := cfg.Choice(c);
      ModeAttrs(cfg, c) + ChoiceDefaultAttrs(cfg, d.defaults) + MemberAttrs(d.syms)
    case CAsg(c) => ModeAttrs(cfg, c)
  }

  /** A rank that every read lowers: there is no dependency loop. */
  ghost predicate IsRank(cfg: Config, rank: Attr -> nat) {
    forall a, b {:trigger b in StaticReads(cfg, a)} :: b in StaticReads(cfg, a) ==> rank(b) < rank(a)
  }

  ghost predicate Acyclic(cfg: Config) {
    exists rank :: IsRank(cfg, rank)
  }

  ghost function Rank(cfg: Config): (rank: Attr -> nat)
    requires Acyclic(cfg)
    ensures IsRank(cfg, rank)
  {
    var rank :| IsRank(cfg, rank);
    rank
  }

  // ---------- User states ----------

  /** The values set_value() accepts for a symbol of the type. */
  predicate ValidValue(t: SType, v: UVal) {
    match v
    case UTri(x) => (t == BOOL && x != 1) || t == TRISTATE
    case UStr(s) =>
      || t == STRING
      || (t == INT && ParseInt(s, 10).Some?)
      || (t == HEX && ParseInt(s, 16).Some? && ParseInt(s, 16).value >= 0)
  }

  /** The user states that set_value(), unset_value() and loading can produce. */
  ghost predicate UserOK(cfg: Config, u: User) {
    && (forall i :: i in u.sym ==> i < |cfg.syms| && ValidValue(cfg.syms[i].typ, u.sym[i]))
    && (forall c :: c in u.mode ==> c < |cfg.choices| && ValidValue(cfg.choices[c].typ, UTri(u.mode[c])))
    && (forall c :: c in u.selection ==> c < |cfg.choices| && u.selection[c] in cfg.choices[c].syms)
  }

  // ---------- Dynamic reads are static reads ----------

  lemma {:induction false} ExprReadsStatic(cfg: Config, u: User, e: Expr, env: Env)
    ensures ExprReads(cfg, u, e, env) <= ExprAttrs(cfg, e)
  {
    match e
    case SymE(_) =>
    case ChoiceE(_) =>
    case And(l, r) => ExprReadsStatic(cfg, u, l, env); ExprReadsStatic(cfg, u, r, env);
    case Or(l, r) => ExprReadsStatic(cfg, u, l, env); ExprReadsStatic(cfg, u, r, env);
    case Not(e1) => ExprReadsStatic(cfg, u, e1, env);
    case Rel(_, _, _) =>
  }

  lemma {:induction false} PromptReadsStatic(cfg: Config, u: User, ps: seq<Expr>, env: Env)
    ensures PromptReads(cfg, u, ps, env) <= PromptAttrs(cfg, ps)
  {
    if ps != [] {
      ExprReadsStatic(cfg, u, ps[0], env);
      PromptReadsStatic(cfg, u, ps[1..], env);
    }
  }

  lemma {:induction false} DefaultTriReadsStatic(cfg: Config, u: User, ds: seq<Default>, env: Env)
    ensures DefaultTriReads(cfg, u, ds, env) <= DefaultAttrs(cfg, ds)
  {
    if ds != [] {
      ExprReadsStatic(cfg, u, ds[0].cond, env);
      ExprReadsStatic(cfg, u, ds[0].value, env);
      DefaultTriReadsStatic(cfg, u, ds[1..], env);
    }
  }

  lemma {:induction false} DefaultTextReadsStatic(cfg: Config, u: User, ds: seq<Default>, env: Env)
    ensures DefaultTextReads(cfg, u, ds, env) <= DefaultStrAttrs(cfg, ds)
  {
    if ds != [] {
      ExprReadsStatic(cfg, u, ds[0].cond, env);
      DefaultTextReadsStatic(cfg, u, ds[1..], env);
    }
  }

  lemma {:induction false} RangeReadsStatic(cfg: Config, u: User, rs: seq<RangeDef>, env: Env)
    ensures FirstRangeReads(cfg, u, rs, env) <= RangeAttrs(cfg, rs)
    ensures forall k :: 0 <= k < |rs| ==> {StrV(rs[k].low), StrV(rs[k].high)} <= RangeAttrs(cfg, rs)
  {
    if rs != [] {
      ExprReadsStatic(cfg, u, rs[0].cond, env);
      RangeReadsStatic(cfg, u, rs[1..], env);
      forall k | 0 <= k < |rs|
        ensures {StrV(rs[k].low), StrV(rs[k].high)} <= RangeAttrs(cfg, rs)
      {
        if k > 0 {
          assert rs[k] == rs[1..][k - 1];
        }
      }
    }
  }

  lemma {:induction false} FirstVisibleReadsStatic(ss: seq<nat>, env: Env)
    ensures FirstVisibleReads(ss, env) <= MemberAttrs(ss)
  {
    if ss != [] {
      FirstVisibleReadsStatic(ss[1..], env);
    }
  }

  lemma {:induction false} SelectionReadsStatic(cfg: Config, u: User, ds: seq<ChoiceDefault>, ss: seq<nat>, env: Env)
    ensures SelectionFromDefaultsReads(cfg, u, ds, ss, env) <= ChoiceDefaultAttrs(cfg, ds) + MemberAttrs(ss)
  {
    if ds == [] {
      FirstVisibleReadsStatic(ss, env);
    } else {
      ExprReadsStatic(cfg, u, ds[0].cond, env);
      SelectionReadsStatic(cfg, u, ds[1..], ss, env);
    }
  }

  lemma SymTriReadsStatic(cfg: Config, u: User, i: nat, env: Env)
    ensures SymTriReads(cfg, u, i, env) <= StaticReads(cfg, TriV(i))
  {
    var d := cfg.Sym(i);
    if !d.constTri.Some? && IsBoolTri(d.typ) && d.choice.None? {
      DefaultTriReadsStatic(cfg, u, d.defaults, env);
      ExprReadsStatic(cfg, u, d.revDep, env);
      ExprReadsStatic(cfg, u, d.weakRevDep, env);
      ExprReadsStatic(cfg, u, d.directDep, env);
      assert SelectedTriReads(cfg, u, i, env) <= StaticReads(cfg, TriV(i));
    }
  }

  lemma SymStrReadsStatic(cfg: Config, u: User, i: nat, env: Env)
    ensures SymStrReads(cfg, u, i, env) <= StaticReads(cfg, StrV(i))
  {
    var d := cfg.Sym(i);
    DefaultTextReadsStatic(cfg, u, d.defaults, env);
    RangeReadsStatic(cfg, u, d.ranges, env);
  }

  lemma SymAsgReadsStatic(cfg: Config, u: User, i: nat, env: Env)
    ensures SymAsgReads(cfg, u, i, env) <= StaticReads(cfg, Asg(i))
  {
    ExprReadsStatic(cfg, u, cfg.Sym(i).revDep, env);
    ExprReadsStatic(cfg, u, cfg.Sym(i).weakRevDep, env);
  }

  lemma ChoiceSelReadsStatic(cfg: Config, u: User, c: nat, env: Env)
    requires UserOK(cfg, u)
    ensures ChoiceSelReads(cfg, u, c, env) <= StaticReads(cfg, CSel(c))
  {
    SelectionReadsStatic(cfg, u, cfg.Choice(c).defaults, cfg.Choice(c).syms, env);
  }

  /** Whatever is read is mentioned in a property of the item. */
  lemma ReadsStatic(cfg: Config, u: User, a: Attr, env: Env)
    requires UserOK(cfg, u)
    ensures Reads(cfg, u, a, env) <= StaticReads(cfg, a)
  {
    match a
    case Vis(i) => PromptReadsStatic(cfg, u, cfg.Sym(i).prompts, env);
    case TriV(i) => SymTriReadsStatic(cfg, u, i, env);
    case StrV(i) => SymStrReadsStatic(cfg, u, i, env);
    case Asg(i) => SymAsgReadsStatic(cfg, u, i, env);
    case CVis(c) => PromptReadsStatic(cfg, u, cfg.Choice(c).prompts, env);
    case CSel(c) => ChoiceSelReadsStatic(cfg, u, c, env);
    case CAsg(c) =>
  }

  // ---------- A value depends only on what was read ----------

  /** The two states agree on the attributes in `rs`, including the choice modes
      (which are read together with the visibility of the choice). */
  ghost predicate Agree(u1: User, env1: Env, u2: User, env2: Env, rs: set<Attr>) {
    forall b :: b in rs ==>
      env1(b) == env2(b) && (b.CVis? ==> ModeOf(u1, b.c) == ModeOf(u2, b.c))
  }

  /** The two states agree on the user's own input to `a`. An assigned value does not
      matter while the symbol is invisible. */
  ghost predicate SameInput(u1: User, u2: User, a: Attr, env: Env) {
    match a
    case TriV(i) => UserOf(u1, i) == UserOf(u2, i) || env(Vis(i)).t == 0
    case StrV(i) => UserOf(u1, i) == UserOf(u2, i) || env(Vis(i)).t == 0
    case CSel(c) => SelectionOf(u1, c) == SelectionOf(u2, c)
    case _ => true
  }

  lemma ChoiceTriCongruence(cfg: Config, u1: User, env1: Env, u2: User, env2: Env, c: nat)
    requires Agree(u1, env1, u2, env2, ChoiceTriReads(cfg, u1, c, env1))
    ensures ChoiceTri(cfg, u1, c, env1) == ChoiceTri(cfg, u2, c, env2)
    ensures ChoiceTriReads(cfg, u1, c, env1) == ChoiceTriReads(cfg, u2, c, env2)
  {
    assert CVis(c) in ChoiceTriReads(cfg, u1, c, env1);
    assert RawMode(cfg, u1, c, env1) == RawMode(cfg, u2, c, env2);
  }

  lemma CompareCongruence(cfg: Config, a: nat, b: nat, env1: Env, env2: Env)
    requires forall x :: x in CompareReads(cfg, a, b, env1) ==> env1(x) == env2(x)
    ensures Compare(cfg, a, b, env1) == Compare(cfg, a, b, env2)
    ensures CompareReads(cfg, a, b, env1) == CompareReads(cfg, a, b, env2)
  {
    hide ParseInt, Strcmp, SymToNum;
    var rs := CompareReads(cfg, a, b, env1);
    if !(cfg.Sym(a).typ == STRING && cfg.Sym(b).typ == STRING) {
      assert SymToNumReads(cfg, a) <= rs;
      NumCongruence(cfg, a, env1, env2);
      if SymToNum(cfg, a, env1).Some? {
        assert SymToNumReads(cfg, b) <= rs;
        NumCongruence(cfg, b, env1, env2);
      }
    }
    assert rs >= {StrV(a), StrV(b)} ==> env1(StrV(a)) == env2(StrV(a)) && env1(StrV(b)) == env2(StrV(b));
  }

  lemma NumCongruence(cfg: Config, s: nat, env1: Env, env2: Env)
    requires forall x :: x in SymToNumReads(cfg, s) ==> env1(x) == env2(x)
    ensures SymToNum(cfg, s, env1) == SymToNum(cfg, s, env2)
  {
    hide ParseInt;
    assert (if IsBoolTri(cfg.Sym(s).typ) then TriV(s) else StrV(s)) in SymToNumReads(cfg, s);
  }

  lemma {:induction false} ExprCongruence(cfg: Config, u1: User, env1: Env, u2: User, env2: Env, e: Expr)
    requires Agree(u1, env1, u2, env2, ExprReads(cfg, u1, e, env1))
    ensures ExprVal(cfg, u1, e, env1) == ExprVal(cfg, u2, e, env2)
    ensures ExprReads(cfg, u1, e, env1) == ExprReads(cfg, u2, e, env2)
  {
    match e
    case SymE(s) => assert TriV(s) in ExprReads(cfg, u1, e, env1);
    case ChoiceE(c) => ChoiceTriCongruence(cfg, u1, env1, u2, env2, c);
    case And(l, r) =>
      ExprCongruence(cfg, u1, env1, u2, env2, l);
      if ExprVal(cfg, u1, l, env1) != 0 {
        ExprCongruence(cfg, u1, env1, u2, env2, r);
      }
    case Or(l, r) =>
      ExprCongruence(cfg, u1, env1, u2, env2, l);
      if ExprVal(cfg, u1, l, env1) != 2 {
        ExprCongruence(cfg, u1, env1, u2, env2, r);
      }
    case Not(e1) => ExprCongruence(cfg, u1, env1, u2, env2, e1);
    case Rel(_, a, b) => CompareCongruence(cfg, a, b, env1, env2);
  }

  lemma {:induction false} PromptCongruence(cfg: Config, u1: User, env1: Env, u2: User, env2: Env, ps: seq<Expr>)
    requires Agree(u1, env1, u2, env2, PromptReads(cfg, u1, ps, env1))
    ensures PromptMax(cfg, u1, ps, env1) == PromptMax(cfg, u2, ps, env2)
    ensures PromptReads(cfg, u1, ps, env1) == PromptReads(cfg, u2, ps, env2)
  {
    hide ExprVal, ExprReads;
    if ps != [] {
      ExprCongruence(cfg, u1, env1, u2, env2, ps[0]);
      PromptCongruence(cfg, u1, env1, u2, env2, ps[1..]);
    }
  }

  lemma {:induction false} FirstDefaultCongruence(cfg: Config, u1: User, env1: Env, u2: User, env2: Env, ds: seq<Default>)
    requires Agree(u1, env1, u2, env2, FirstDefaultReads(cfg, u1, ds, env1))
    ensures FirstDefault(cfg, u1, ds, env1) == FirstDefault(cfg, u2, ds, env2)
    ensures FirstDefaultReads(cfg, u1, ds, env1) == FirstDefaultReads(cfg, u2, ds, env2)
    ensures var k := FirstDefault(cfg, u1, ds, env1);
            k < |ds| ==> ExprVal(cfg, u1, ds[k].cond, env1) == ExprVal(cfg, u2, ds[k].cond, env2)
  {
    hide ExprVal, ExprReads;
    if ds != [] {
      ExprCongruence(cfg, u1, env1, u2, env2, ds[0].cond);
      if ExprVal(cfg, u1, ds[0].cond, env1) == 0 {
        FirstDefaultCongruence(cfg, u1, env1, u2, env2, ds[1..]);
      }
    }
  }

  lemma {:induction false} FirstRangeCongruence(cfg: Config, u1: User, env1: Env, u2: User, env2: Env, rs: seq<RangeDef>)
    requires Agree(u1, env1, u2, env2, FirstRangeReads(cfg, u1, rs, env1))
    ensures FirstRange(cfg, u1, rs, env1) == FirstRange(cfg, u2, rs, env2)
    ensures FirstRangeReads(cfg, u1, rs, env1) == FirstRangeReads(cfg, u2, rs, env2)
  {
    hide ExprVal, ExprReads;
    if rs != [] {
      ExprCongruence(cfg, u1, env1, u2, env2, rs[0].cond);
      if ExprVal(cfg, u1, rs[0].cond, env1) == 0 {
        FirstRangeCongruence(cfg, u1, env1, u2, env2, rs[1..]);
      }
    }
  }

  lemma DefaultTriCongruence(cfg: Config, u1: User, env1: Env, u2: User, env2: Env, ds: seq<Default>)
    requires Agree(u1, env1, u2, env2, DefaultTriReads(cfg, u1, ds, env1))
    ensures DefaultTri(cfg, u1, ds, env1) == DefaultTri(cfg, u2, ds, env2)
    ensures DefaultTriReads(cfg, u1, ds, env1) == DefaultTriReads(cfg, u2, ds, env2)
  {
    hide ExprVal, ExprReads, FirstDefault, FirstDefaultReads;
    FirstDefaultCongruence(cfg, u1, env1, u2, env2, ds);
    var k := FirstDefault(cfg, u1, ds, env1);
    if k < |ds| {
      ExprCongruence(cfg, u1, env1, u2, env2, ds[k].value);
    }
  }

  lemma DefaultTextCongruence(cfg: Config, u1: User, env1: Env, u2: User, env2: Env, ds: seq<Default>)
    requires Agree(u1, env1, u2, env2, DefaultTextReads(cfg, u1, ds, env1))
    ensures DefaultText(cfg, u1, ds, env1) == DefaultText(cfg, u2, ds, env2)
    ensures HasDefault(cfg, u1, ds, env1) == HasDefault(cfg, u2, ds, env2)
    ensures DefaultTextReads(cfg, u1, ds, env1) == DefaultTextReads(cfg, u2, ds, env2)
  {
    hide ExprVal, ExprReads, FirstDefault, FirstDefaultReads;
    FirstDefaultCongruence(cfg, u1, env1, u2, env2, ds);
  }

  lemma ActiveRangeCongruence(cfg: Config, u1: User, env1: Env, u2: User, env2: Env, d: SymDef)
    requires Agree(u1, env1, u2, env2, ActiveRangeReads(cfg, u1, d, env1))
    ensures ActiveRange(cfg, u1, d, env1) == ActiveRange(cfg, u2, d, env2)
    ensures ActiveRangeReads(cfg, u1, d, env1) == ActiveRangeReads(cfg, u2, d, env2)
  {
    hide FirstRange, FirstRangeReads, NumOrZero;
    FirstRangeCongruence(cfg, u1, env1, u2, env2, d.ranges);
  }

  lemma {:induction false} FirstVisibleCongruence(ss: seq<nat>, env1: Env, env2: Env)
    requires forall b :: b in FirstVisibleReads(ss, env1) ==> env1(b) == env2(b)
    ensures FirstVisible(ss, env1) == FirstVisible(ss, env2)
    ensures FirstVisibleReads(ss, env1) == FirstVisibleReads(ss, env2)
  {
    if ss != [] && env1(Vis(ss[0])).t == 0 {
      FirstVisibleCongruence(ss[1..], env1, env2);
    }
  }

  lemma {:induction false} SelectionCongruence(cfg: Config, u1: User, env1: Env, u2: User, env2: Env,
                                               ds: seq<ChoiceDefault>, ss: seq<nat>)
    requires Agree(u1, env1, u2, env2, SelectionFromDefaultsReads(cfg, u1, ds, ss, env1))
    ensures SelectionFromDefaults(cfg, u1, ds, ss, env1) == SelectionFromDefaults(cfg, u2, ds, ss, env2)
    ensures SelectionFromDefaultsReads(cfg, u1, ds, ss, env1) == SelectionFromDefaultsReads(cfg, u2, ds, ss, env2)
  {
    hide ExprVal, ExprReads, FirstVisible, FirstVisibleReads;
    if ds == [] {
      FirstVisibleCongruence(ss, env1, env2);
    } else {
      ExprCongruence(cfg, u1, env1, u2, env2, ds[0].cond);
      if !UsableDefault(cfg, u1, ds[0], env1) {
        SelectionCongruence(cfg, u1, env1, u2, env2, ds[1..], ss);
      }
    }
  }

  lemma {:induction false} PromptlessMax(cfg: Config, u: User, ps: seq<Expr>, env: Env)
    requires forall k :: 0 <= k < |ps| ==> ps[k] == SymE(cfg.n)
    requires env(TriV(cfg.n)).t == 0
    ensures PromptMax(cfg, u, ps, env) == 0
  {
    if ps != [] {
      PromptlessMax(cfg, u, ps[1..], env);
    }
  }

  lemma HiddenCongruence(cfg: Config, u1: User, env1: Env, u2: User, env2: Env, d: SymDef, vis: Tri)
    requires Agree(u1, env1, u2, env2, HiddenReads(cfg, u1, d, vis, env1))
    ensures HiddenByMode(cfg, u1, d, vis, env1) == HiddenByMode(cfg, u2, d, vis, env2)
    ensures HiddenReads(cfg, u1, d, vis, env1) == HiddenReads(cfg, u2, d, vis, env2)
  {
    if HiddenReads(cfg, u1, d, vis, env1) != {} {
      ChoiceTriCongruence(cfg, u1, env1, u2, env2, d.choice.value);
    }
  }

  lemma TypeCongruence(cfg: Config, u1: User, env1: Env, u2: User, env2: Env, i: nat)
    requires Agree(u1, env1, u2, env2, TypeReads(cfg, u1, i, env1))
    ensures TypeOf(cfg, u1, i, env1) == TypeOf(cfg, u2, i, env2)
    ensures TypeReads(cfg, u1, i, env1) == TypeReads(cfg, u2, i, env2)
  {
    var d := cfg.Sym(i);
    if d.typ == TRISTATE && d.choice.Some? {
      ChoiceTriCongruence(cfg, u1, env1, u2, env2, d.choice.value);
    }
  }

  lemma SymVisCongruence(cfg: Config, u1: User, env1: Env, u2: User, env2: Env, i: nat)
    requires Agree(u1, env1, u2, env2, SymVisReads(cfg, u1, i, env1))
    requires env1(TriV(cfg.n)).t == 0 && env2(TriV(cfg.n)).t == 0
    ensures SymVisVal(cfg, u1, i, env1) == SymVisVal(cfg, u2, i, env2)
    ensures SymVisReads(cfg, u1, i, env1) == SymVisReads(cfg, u2, i, env2)
  {
    hide PromptMax, PromptReads, HiddenByMode, HiddenReads, TypeOf, TypeReads;
    var d := cfg.Sym(i);
    if Promptless(cfg, d) {
      PromptlessMax(cfg, u1, d.prompts, env1);
      PromptlessMax(cfg, u2, d.prompts, env2);
    } else {
      PromptCongruence(cfg, u1, env1, u2, env2, d.prompts);
      var vis := PromptMax(cfg, u1, d.prompts, env1);
      HiddenCongruence(cfg, u1, env1, u2, env2, d, vis);
      if !HiddenByMode(cfg, u1, d, vis, env1) && vis == 1 {
        assert TypeReads(cfg, u1, i, env1) <= SymVisReads(cfg, u1, i, env1);
        TypeCongruence(cfg, u1, env1, u2, env2, i);
      }
    }
  }

  lemma SymTriCongruence(cfg: Config, u1: User, env1: Env, u2: User, env2: Env, i: nat)
    requires Agree(u1, env1, u2, env2, SymTriReads(cfg, u1, i, env1))
    requires SameInput(u1, u2, TriV(i), env1)
    ensures SymTriVal(cfg, u1, i, env1) == SymTriVal(cfg, u2, i, env2)
    ensures SymTriReads(cfg, u1, i, env1) == SymTriReads(cfg, u2, i, env2)
  {
    hide ExprVal, ExprReads, DefaultTri, DefaultTriReads, PromotesM, PromotesMReads;
    var d := cfg.Sym(i);
    if d.constTri.Some? || !IsBoolTri(d.typ) || d.choice.Some? {
    } else {
      assert SymTriReads(cfg, u1, i, env1) >= SelectedTriReads(cfg, u1, i, env1) >= BaseTriReads(cfg, u1, i, env1);
      BaseTriCongruence(cfg, u1, env1, u2, env2, i);
      ExprCongruence(cfg, u1, env1, u2, env2, d.revDep);
      if ExprVal(cfg, u1, d.revDep, env1) != 0 {
        ExprCongruence(cfg, u1, env1, u2, env2, d.directDep);
      }
      if SelectedTri(cfg, u1, i, env1).val == 1 {
        assert PromotesMReads(cfg, u1, i, env1) <= SymTriReads(cfg, u1, i, env1);
        PromotesMCongruence(cfg, u1, env1, u2, env2, i);
      }
    }
  }

  lemma BaseTriCongruence(cfg: Config, u1: User, env1: Env, u2: User, env2: Env, i: nat)
    requires Agree(u1, env1, u2, env2, BaseTriReads(cfg, u1, i, env1))
    requires SameInput(u1, u2, TriV(i), env1)
    ensures BaseTri(cfg, u1, i, env1) == BaseTri(cfg, u2, i, env2)
    ensures BaseTriReads(cfg, u1, i, env1) == BaseTriReads(cfg, u2, i, env2)
  {
    hide ExprVal, ExprReads, DefaultTri, DefaultTriReads;
    var d := cfg.Sym(i);
    if !(env1(Vis(i)).t != 0 && UserOf(u1, i).Some?) {
      DefaultTriCongruence(cfg, u1, env1, u2, env2, d.defaults);
      ExprCongruence(cfg, u1, env1, u2, env2, d.weakRevDep);
      if ExprVal(cfg, u1, d.weakRevDep, env1) != 0 {
        ExprCongruence(cfg, u1, env1, u2, env2, d.directDep);
      }
    }
  }

  lemma PromotesMCongruence(cfg: Config, u1: User, env1: Env, u2: User, env2: Env, i: nat)
    requires Agree(u1, env1, u2, env2, PromotesMReads(cfg, u1, i, env1))
    ensures PromotesM(cfg, u1, i, env1) == PromotesM(cfg, u2, i, env2)
    ensures PromotesMReads(cfg, u1, i, env1) == PromotesMReads(cfg, u2, i, env2)
  {
    hide ExprVal, ExprReads, TypeOf, TypeReads;
    TypeCongruence(cfg, u1, env1, u2, env2, i);
    if TypeOf(cfg, u1, i, env1) != BOOL {
      ExprCongruence(cfg, u1, env1, u2, env2, cfg.Sym(i).weakRevDep);
    }
  }

  lemma SymStrCongruence(cfg: Config, u1: User, env1: Env, u2: User, env2: Env, i: nat)
    requires Agree(u1, env1, u2, env2, SymStrReads(cfg, u1, i, env1))
    requires SameInput(u1, u2, StrV(i), env1)
    ensures SymStrVal(cfg, u1, i, env1) == SymStrVal(cfg, u2, i, env2)
    ensures SymStrReads(cfg, u1, i, env1) == SymStrReads(cfg, u2, i, env2)
  {
    hide DefaultText, DefaultTextReads, HasDefault, ActiveRange, ActiveRangeReads, Clamp, NumOrZero;
    var d := cfg.Sym(i);
    if IsIntHex(d.typ) {
      ActiveRangeCongruence(cfg, u1, env1, u2, env2, d);
      if !UsesUserNumber(u1, i, d, env1(Vis(i)).t, ActiveRange(cfg, u1, d, env1)) {
        DefaultTextCongruence(cfg, u1, env1, u2, env2, d.defaults);
      }
    } else if d.typ == STRING {
      if !(env1(Vis(i)).t != 0 && UserOf(u1, i).Some?) {
        DefaultTextCongruence(cfg, u1, env1, u2, env2, d.defaults);
      }
    }
  }

  lemma SymAsgCongruence(cfg: Config, u1: User, env1: Env, u2: User, env2: Env, i: nat)
    requires Agree(u1, env1, u2, env2, SymAsgReads(cfg, u1, i, env1))
    ensures SymAsgVal(cfg, u1, i, env1) == SymAsgVal(cfg, u2, i, env2)
    ensures SymAsgReads(cfg, u1, i, env1) == SymAsgReads(cfg, u2, i, env2)
  {
    hide ExprVal, ExprReads, PromotesM, PromotesMReads;
    var d := cfg.Sym(i);
    if IsBoolTri(d.typ) && env1(Vis(i)).t != 0 {
      ExprCongruence(cfg, u1, env1, u2, env2, d.revDep);
      var rev := ExprVal(cfg, u1, d.revDep, env1);
      if env1(Vis(i)).t == 2 {
        if d.choice.None? && rev != 2 {
          PromotesMCongruence(cfg, u1, env1, u2, env2, i);
        }
      } else if rev == 0 {
        ExprCongruence(cfg, u1, env1, u2, env2, d.weakRevDep);
      }
    }
  }

  lemma ChoiceSelCongruence(cfg: Config, u1: User, env1: Env, u2: User, env2: Env, c: nat)
    requires Agree(u1, env1, u2, env2, ChoiceSelReads(cfg, u1, c, env1))
    requires SameInput(u1, u2, CSel(c), env1)
    ensures ChoiceSelVal(cfg, u1, c, env1) == ChoiceSelVal(cfg, u2, c, env2)
    ensures ChoiceSelReads(cfg, u1, c, env1) == ChoiceSelReads(cfg, u2, c, env2)
  {
    hide SelectionFromDefaults, SelectionFromDefaultsReads, ChoiceTri, ChoiceTriReads;
    var d := cfg.Choice(c);
    var sel := SelectionOf(u1, c);
    ChoiceTriCongruence(cfg, u1, env1, u2, env2, c);
    if ChoiceTri(cfg, u1, c, env1) == 2 && !(sel.Some? && env1(Vis(sel.value)).t != 0) {
      SelectionCongruence(cfg, u1, env1, u2, env2, d.defaults, d.syms);
    }
  }

  /** If two states agree on what the first one reads, the value and the reads are the same. */
  lemma StepCongruence(cfg: Config, u1: User, env1: Env, u2: User, env2: Env, a: Attr)
    requires Agree(u1, env1, u2, env2, Reads(cfg, u1, a, env1))
    requires SameInput(u1, u2, a, env1)
    requires env1(TriV(cfg.n)).t == 0 && env2(TriV(cfg.n)).t == 0
    ensures Step(cfg, u1, a, env1) == Step(cfg, u2, a, env2)
    ensures Reads(cfg, u1, a, env1) == Reads(cfg, u2, a, env2)
  {
    match a
    case Vis(i) => SymVisCongruence(cfg, u1, env1, u2, env2, i);
    case TriV(i) => SymTriCongruence(cfg, u1, env1, u2, env2, i);
    case StrV(i) => SymStrCongruence(cfg, u1, env1, u2, env2, i);
    case Asg(i) => SymAsgCongruence(cfg, u1, env1, u2, env2, i);
    case CVis(c) => PromptCongruence(cfg, u1, env1, u2, env2, cfg.Choice(c).prompts);
    case CSel(c) => ChoiceSelCongruence(cfg, u1, env1, u2, env2, c);
    case CAsg(c) =>
  }

  // ---------- The denotation ----------

  /** The value of `a` by plain recursion, without caches. */
  ghost function Eval(cfg: Config, u: User, a: Attr): Val
    requires Acyclic(cfg)
    decreases Rank(cfg)(a)
  {
    Step(cfg, u, a, b => if Rank(cfg)(b) < Rank(cfg)(a) then Eval(cfg, u, b) else NO_VAL)
  }

  ghost function EnvOf(cfg: Config, u: User): Env
    requires Acyclic(cfg)
  {
    a => Eval(cfg, u, a)
  }

  /** n is the constant 0, as in Kconfig._init. */
  predicate HasN(cfg: Config) {
    cfg.Sym(cfg.n).constTri == Some(0)
  }

  lemma EvalN(cfg: Config, u: User)
    requires Acyclic(cfg) && HasN(cfg)
    ensures Eval(cfg, u, TriV(cfg.n)).t == 0
  {
    var a := TriV(cfg.n);
    var env := b => if Rank(cfg)(b) < Rank(cfg)(a) then Eval(cfg, u, b) else NO_VAL;
    assert Eval(cfg, u, a) == Step(cfg, u, a, env);
  }

  /** Eval satisfies the step equations. */
  lemma EvalStep(cfg: Config, u: User, a: Attr)
    requires Acyclic(cfg) && HasN(cfg) && UserOK(cfg, u)
    ensures Eval(cfg, u, a) == Step(cfg, u, a, EnvOf(cfg, u))
  {
    var env := b => if Rank(cfg)(b) < Rank(cfg)(a) then Eval(cfg, u, b) else NO_VAL;
    assert Eval(cfg, u, a) == Step(cfg, u, a, env);
    ReadsStatic(cfg, u, a, env);
    EvalN(cfg, u);
    forall b | b in Reads(cfg, u, a, env)
      ensures env(b) == EnvOf(cfg, u)(b)
    {
      assert IsRank(cfg, Rank(cfg)) && b in StaticReads(cfg, a);
      assert Rank(cfg)(b) < Rank(cfg)(a);
    }
    assert env(TriV(cfg.n)).t == 0 && EnvOf(cfg, u)(TriV(cfg.n)).t == 0;
    StepCongruence(cfg, u, env, u, EnvOf(cfg, u), a);
  }

  /** The step equations have only one solution. */
  lemma {:induction false} EvalUnique(cfg: Config, u: User, env: Env, a: Attr)
    requires Acyclic(cfg) && HasN(cfg) && UserOK(cfg, u)
    requires forall b :: env(b) == Step(cfg, u, b, env)
    ensures env(a) == Eval(cfg, u, a)
    decreases Rank(cfg)(a)
  {
    ReadsStatic(cfg, u, a, env);
    forall b | b in Reads(cfg, u, a, env)
      ensures env(b) == EnvOf(cfg, u)(b)
    {
      assert b in StaticReads(cfg, a);
      EvalUnique(cfg, u, env, b);
    }
    EvalN(cfg, u);
    assert EnvOf(cfg, u)(TriV(cfg.n)).t == 0;
    assert env(TriV(cfg.n)) == Step(cfg, u, TriV(cfg.n), env);
    StepCongruence(cfg, u, env, u, EnvOf(cfg, u), a);
    EvalStep(cfg, u, a);
  }
}
