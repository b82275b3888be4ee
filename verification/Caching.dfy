/** The dependents graph, and why invalidating along it keeps every remaining
    cached value correct. */
module Caching {
  import opened Types
  import opened Numbers
  import opened Semantics
  import opened Evaluation

  // ---------- Dependents ----------

  function ExprItems(e: Expr): set<Ref> {
    match e
    case SymE(s) => {S(s)}
    case ChoiceE(c) => {C(c)}
    case And(l, r) => ExprItems(l) + ExprItems(r)
    case Or(l, r) => ExprItems(l) + ExprItems(r)
    case Not(e1) => ExprItems(e1)
    case Rel(_, a, b) => {S(a), S(b)}
  }

  function PromptItems(ps: seq<Expr>): set<Ref> {
    if ps == [] then {} else ExprItems(ps[0]) + PromptItems(ps[1..])
  }

  function DefaultItems(ds: seq<Default>): set<Ref> {
    if ds == [] then {}
    else ExprItems(ds[0].value) + ExprItems(ds[0].cond) + DefaultItems(ds[1..])
  }

  function RangeItems(rs: seq<RangeDef>): set<Ref> {
    if rs == [] then {}
    else {S(rs[0].low), S(rs[0].high)} + ExprItems(rs[0].cond) + RangeItems(rs[1..])
  }

  function ChoiceDefaultItems(ds: seq<ChoiceDefault>): set<Ref> {
    if ds == [] then {} else ExprItems(ds[0].cond) + ChoiceDefaultItems(ds[1..])
  }

  /** The items a symbol's properties mention. */
  function SymItems(d: SymDef): set<Ref> {
    PromptItems(d.prompts) + DefaultItems(d.defaults) + ExprItems(d.revDep) +
    ExprItems(d.weakRevDep) + RangeItems(d.ranges) + ExprItems(d.directDep)
  }

  /** The items a choice's properties mention. */
  function ChoiceItems(d: ChoiceDef): set<Ref> {
    PromptItems(d.prompts) + ChoiceDefaultItems(d.defaults)
  }

  function ItemsOf(cfg: Config, y: Ref): set<Ref> {
    match y
    case S(i) => if cfg.Sym(i).defined then SymItems(cfg.Sym(i)) else {}
    case C(c) => ChoiceItems(cfg.Choice(c))
  }

  predicate IsConstant(cfg: Config, x: Ref) {
    x.S? && cfg.Sym(x.i).isConstant
  }

  predicate HasMember(cfg: Config, c: nat, x: Ref) {
    x.S? && x.i in cfg.Choice(c).syms
  }

  /** y is in x._dependents after _build_dep() and _add_choice_deps(). */
  predicate DependsOn(cfg: Config, y: Ref, x: Ref) {
    || Mentions(cfg, y, x)
    || (y.C? && HasMember(cfg, y.c, x))
  }

  /** The dependents sets of all items. */
  type Deps = map<Ref, set<Ref>>

  /** y becomes a dependent of every item in `items` that is not a constant. */
  function AddAll(cfg: Config, deps: Deps, items: set<Ref>, y: Ref): Deps {
    map x | x in deps :: deps[x] + if x in items && !IsConstant(cfg, x) then {y} else {}
  }

  lemma AddAllTwice(cfg: Config, deps: Deps, a: set<Ref>, b: set<Ref>, y: Ref)
    ensures AddAll(cfg, AddAll(cfg, deps, a, y), b, y) == AddAll(cfg, deps, a + b, y)
  {
    var l, r := AddAll(cfg, AddAll(cfg, deps, a, y), b, y), AddAll(cfg, deps, a + b, y);
    forall x | x in deps
      ensures l[x] == r[x]
    {
    }
  }

  /** y is among the first i symbols or the first c choices. */
  predicate Among(y: Ref, i: nat, c: nat) {
    match y
    case S(j) => j < i
    case C(j) => j < c
  }

  predicate Mentions(cfg: Config, y: Ref, x: Ref) {
    x in ItemsOf(cfg, y) && !IsConstant(cfg, x)
  }

  /** The dependents sets after the first i symbols and the first c choices were processed
      by _build_dep(). */
  ghost predicate DepsUpTo(cfg: Config, deps: Deps, i: nat, c: nat) {
    forall x, y :: x in deps ==> (y in deps[x] <==> Among(y, i, c) && Mentions(cfg, y, x))
  }

  lemma DepsUpToNext(cfg: Config, deps: Deps, i: nat, c: nat, i': nat, c': nat, y0: Ref)
    requires DepsUpTo(cfg, deps, i, c)
    requires forall y :: Among(y, i', c') <==> Among(y, i, c) || y == y0
    ensures DepsUpTo(cfg, AddAll(cfg, deps, ItemsOf(cfg, y0), y0), i', c')
  {
    var after := AddAll(cfg, deps, ItemsOf(cfg, y0), y0);
    forall x, y | x in after
      ensures y in after[x] <==> Among(y, i', c') && Mentions(cfg, y, x)
    {
      assert y in after[x] <==> y in deps[x] || (y == y0 && Mentions(cfg, y0, x));
    }
  }

  /** An undefined symbol depends on nothing. */
  lemma DepsUpToSkip(cfg: Config, deps: Deps, i: nat)
    requires DepsUpTo(cfg, deps, i, 0) && !cfg.Sym(i).defined
    ensures DepsUpTo(cfg, deps, i + 1, 0)
  {
    forall x, y | x in deps
      ensures y in deps[x] <==> Among(y, i + 1, 0) && Mentions(cfg, y, x)
    {
      assert y in deps[x] <==> Among(y, i, 0) && Mentions(cfg, y, x);
      assert Among(y, i + 1, 0) <==> Among(y, i, 0) || y == S(i);
      assert !Mentions(cfg, S(i), x);
    }
  }

  lemma AddNone(cfg: Config, deps: Deps, y: Ref)
    ensures AddAll(cfg, deps, {}, y) == deps
  {
    forall x | x in deps
      ensures AddAll(cfg, deps, {}, y)[x] == deps[x]
    {
    }
  }

  /** The dependents sets after _add_choice_deps() dealt with the first c choices and with
      the first k symbols of choice c. */
  ghost predicate MembersUpTo(cfg: Config, deps: Deps, c: nat, k: nat)
    requires k <= |cfg.Choice(c).syms|
  {
    forall x, y :: x in deps ==>
      (y in deps[x] <==>
        || (ItemInRange(cfg, y) && Mentions(cfg, y, x))
        || (y.C? && y.c < c && HasMember(cfg, y.c, x))
        || (y == C(c) && x.S? && x.i in cfg.Choice(c).syms[..k]))
  }

  lemma MembersUpToNext(cfg: Config, deps: Deps, c: nat, k: nat)
    requires k < |cfg.Choice(c).syms| && S(cfg.Choice(c).syms[k]) in deps
    requires MembersUpTo(cfg, deps, c, k)
    ensures var x := S(cfg.Choice(c).syms[k]);
            MembersUpTo(cfg, deps[x := deps[x] + {C(c)}], c, k + 1)
  {
    var ss := cfg.Choice(c).syms;
    assert ss[..k + 1] == ss[..k] + [ss[k]];
  }

  lemma MembersUpToNextChoice(cfg: Config, deps: Deps, c: nat)
    requires MembersUpTo(cfg, deps, c, |cfg.Choice(c).syms|)
    ensures MembersUpTo(cfg, deps, c + 1, 0)
  {
    var ss := cfg.Choice(c).syms;
    assert ss[..|ss|] == ss;
  }

  /** The dependents sets are exactly the dependency edges. */
  ghost predicate DepsExact(cfg: Config, deps: Deps) {
    forall x, y :: x in deps ==> (y in deps[x] <==> ItemInRange(cfg, y) && DependsOn(cfg, y, x))
  }

  lemma MembersComplete(cfg: Config, deps: Deps)
    requires MembersUpTo(cfg, deps, |cfg.choices|, 0)
    ensures DepsExact(cfg, deps)
  {
  }

  lemma MembersStart(cfg: Config, deps: Deps)
    requires DepsUpTo(cfg, deps, |cfg.syms|, |cfg.choices|)
    ensures MembersUpTo(cfg, deps, 0, 0)
  {
    assert cfg.Choice(0).syms[..0] == [];
    forall y
      ensures Among(y, |cfg.syms|, |cfg.choices|) <==> ItemInRange(cfg, y)
    {
    }
  }

  // ---------- Well-formed configurations ----------

  predicate ItemInRange(cfg: Config, x: Ref) {
    match x
    case S(i) => i < |cfg.syms|
    case C(c) => c < |cfg.choices|
  }

  predicate AttrInRange(cfg: Config, a: Attr) {
    ItemInRange(cfg, ItemOf(a))
  }

  /** Undefined symbols have no menu node, hence no prompt, choice or type; only the
      constants n, m and y have a type. */
  predicate SymOK(cfg: Config, i: nat)
    requires i < |cfg.syms|
  {
    var d := cfg.syms[i];
    && (d.constTri.Some? ==> d.isConstant && d.typ == TRISTATE)
    && (d.isConstant ==> !d.defined)
    && (!d.defined ==> d.prompts == [] && d.choice.None? && (d.typ == UNKNOWN || d.constTri.Some?))
    && (d.choice.Some? ==> d.choice.value < |cfg.choices| && i in cfg.choices[d.choice.value].syms)
  }

  /** Members are defined symbols that belong to the choice, and depend on it unless they can
      never be visible. A default is a member. */
  predicate ChoiceOK(cfg: Config, c: nat)
    requires c < |cfg.choices|
  {
    var d := cfg.choices[c];
    && (forall i :: i in d.syms ==>
          && i < |cfg.syms| && cfg.syms[i].defined && cfg.syms[i].choice == Some(c)
          && (DependsOn(cfg, S(i), C(c)) || Promptless(cfg, cfg.syms[i])))
    && (forall k :: 0 <= k < |d.defaults| ==> d.defaults[k].sym in d.syms)
  }

  /** Everything parsing and finalisation guarantee, together with the sanity checks that
      only warn. */
  ghost predicate PartsOK(cfg: Config) {
    && cfg.n < |cfg.syms| && cfg.modules < |cfg.syms|
    && HasN(cfg)
    && (forall i :: 0 <= i < |cfg.syms| ==> SymOK(cfg, i))
    && (forall c :: 0 <= c < |cfg.choices| ==> ChoiceOK(cfg, c))
    && (forall x, y :: ItemInRange(cfg, y) && x in ItemsOf(cfg, y) ==> ItemInRange(cfg, x))
  }

  /** Everything that evaluation and caching rely on: there are no dependency loops either. */
  ghost predicate ConfigOK(cfg: Config) {
    PartsOK(cfg) && Acyclic(cfg)
  }

  lemma Basis(cfg: Config)
    requires ConfigOK(cfg)
    ensures Acyclic(cfg) && HasN(cfg)
  {
  }

  // ---------- Every read follows a dependents edge ----------

  /** Attributes with a fixed value, which no assignment can change. */
  predicate Inert(cfg: Config, a: Attr) {
    match a
    case Vis(i) => !cfg.Sym(i).defined
    case TriV(i) => !cfg.Sym(i).defined || !IsBoolTri(cfg.Sym(i).typ)
    case StrV(i) => !cfg.Sym(i).defined || cfg.Sym(i).typ == UNKNOWN
    case Asg(i) => !cfg.Sym(i).defined || !IsBoolTri(cfg.Sym(i).typ)
    case _ => false
  }

  /** b is an attribute of an item in `items`, or MODULES, or fixed. */
  predicate AccountedFor(cfg: Config, items: set<Ref>, b: Attr) {
    ItemOf(b) in items || b == TriV(cfg.modules) || Inert(cfg, b)
  }

  lemma {:induction false} ExprAttrsLinked(cfg: Config, e: Expr)
    ensures forall b :: b in ExprAttrs(cfg, e) ==> AccountedFor(cfg, ExprItems(e), b)
  {
    match e
    case SymE(_) =>
    case ChoiceE(_) =>
    case And(l, r) => ExprAttrsLinked(cfg, l); ExprAttrsLinked(cfg, r);
    case Or(l, r) => ExprAttrsLinked(cfg, l); ExprAttrsLinked(cfg, r);
    case Not(e1) => ExprAttrsLinked(cfg, e1);
    case Rel(_, _, _) =>
  }

  lemma {:induction false} PromptAttrsLinked(cfg: Config, ps: seq<Expr>)
    ensures forall b :: b in PromptAttrs(cfg, ps) ==> AccountedFor(cfg, PromptItems(ps), b)
  {
    if ps != [] {
      ExprAttrsLinked(cfg, ps[0]);
      PromptAttrsLinked(cfg, ps[1..]);
    }
  }

  lemma {:induction false} DefaultAttrsLinked(cfg: Config, ds: seq<Default>)
    ensures forall b :: b in DefaultAttrs(cfg, ds) ==> AccountedFor(cfg, DefaultItems(ds), b)
    ensures forall b :: b in DefaultStrAttrs(cfg, ds) ==> AccountedFor(cfg, DefaultItems(ds), b)
  {
    if ds != [] {
      ExprAttrsLinked(cfg, ds[0].cond);
      ExprAttrsLinked(cfg, ds[0].value);
      DefaultAttrsLinked(cfg, ds[1..]);
    }
  }

  lemma {:induction false} RangeAttrsLinked(cfg: Config, rs: seq<RangeDef>)
    ensures forall b :: b in RangeAttrs(cfg, rs) ==> AccountedFor(cfg, RangeItems(rs), b)
  {
    if rs != [] {
      ExprAttrsLinked(cfg, rs[0].cond);
      RangeAttrsLinked(cfg, rs[1..]);
    }
  }

  lemma {:induction false} SelectionReadsLinked(cfg: Config, u: User, ds: seq<ChoiceDefault>, ss: seq<nat>,
                                                env: Env, members: set<Ref>)
    requires forall k :: 0 <= k < |ds| ==> S(ds[k].sym) in members
    requires forall s :: s in ss ==> S(s) in members
    ensures forall b :: b in SelectionFromDefaultsReads(cfg, u, ds, ss, env) ==>
                    AccountedFor(cfg, ChoiceDefaultItems(ds) + members, b)
  {
    if ds == [] {
      FirstVisibleReadsStatic(ss, env);
    } else {
      ExprReadsStatic(cfg, u, ds[0].cond, env);
      ExprAttrsLinked(cfg, ds[0].cond);
      SelectionReadsLinked(cfg, u, ds[1..], ss, env, members);
    }
  }

  lemma PromptlessVis(cfg: Config, u: User, i: nat)
    requires ConfigOK(cfg) && UserOK(cfg, u)
    requires Promptless(cfg, cfg.Sym(i))
    ensures Eval(cfg, u, Vis(i)).t == 0
  {
    EvalStep(cfg, u, Vis(i));
    EvalN(cfg, u);
    PromptlessMax(cfg, u, cfg.Sym(i).prompts, EnvOf(cfg, u));
  }

  /** The item of a read attribute b is the reader's own item, or has the reader among its
      dependents, or b never changes, or b is the value of MODULES. */
  predicate ReadOK(cfg: Config, a: Attr, b: Attr) {
    || ItemOf(b) == ItemOf(a)
    || b == TriV(cfg.modules)
    || Inert(cfg, b)
    || DependsOn(cfg, ItemOf(a), ItemOf(b))
  }

  lemma LinkedReadOK(cfg: Config, a: Attr, b: Attr, items: set<Ref>)
    requires ConfigOK(cfg) && AttrInRange(cfg, a)
    requires AccountedFor(cfg, items, b) && items <= ItemsOf(cfg, ItemOf(a))
    ensures ReadOK(cfg, a, b)
  {
    if ItemOf(b) in items && b != TriV(cfg.modules) {
      var x := ItemOf(b);
      assert ItemInRange(cfg, x);
      if IsConstant(cfg, x) {
        assert SymOK(cfg, x.i);
      }
    }
  }

  lemma SymVisReadOK(cfg: Config, u: User, i: nat, b: Attr)
    requires ConfigOK(cfg) && UserOK(cfg, u) && i < |cfg.syms|
    requires b in SymVisReads(cfg, u, i, EnvOf(cfg, u))
    ensures ReadOK(cfg, Vis(i), b)
  {
    var d, env := cfg.syms[i], EnvOf(cfg, u);
    assert SymOK(cfg, i) && SymOK(cfg, cfg.n);
    if !Promptless(cfg, d) {
      if b in PromptReads(cfg, u, d.prompts, env) {
        PromptReadsStatic(cfg, u, d.prompts, env);
        PromptAttrsLinked(cfg, d.prompts);
        LinkedReadOK(cfg, Vis(i), b, PromptItems(d.prompts));
      } else if d.choice.Some? && b != TriV(cfg.modules) {
        assert b == CVis(d.choice.value);
        assert ChoiceOK(cfg, d.choice.value);
      }
    }
  }

  lemma SymTriReadOK(cfg: Config, u: User, i: nat, b: Attr)
    requires ConfigOK(cfg) && UserOK(cfg, u) && i < |cfg.syms|
    requires b in SymTriReads(cfg, u, i, EnvOf(cfg, u))
    ensures ReadOK(cfg, TriV(i), b)
  {
    var d, env := cfg.syms[i], EnvOf(cfg, u);
    assert SymOK(cfg, i);
    if d.choice.Some? {
      if b == CSel(d.choice.value) {
        assert env(Vis(i)).t == 2;
        assert ChoiceOK(cfg, d.choice.value);
        if Promptless(cfg, d) {
          PromptlessVis(cfg, u, i);
          assert false;
        }
      }
    } else {
      SymTriReadsStatic(cfg, u, i, env);
      if b in DefaultAttrs(cfg, d.defaults) {
        DefaultAttrsLinked(cfg, d.defaults);
        LinkedReadOK(cfg, TriV(i), b, DefaultItems(d.defaults));
      } else if b in ExprAttrs(cfg, d.revDep) {
        ExprAttrsLinked(cfg, d.revDep);
        LinkedReadOK(cfg, TriV(i), b, ExprItems(d.revDep));
      } else if b in ExprAttrs(cfg, d.weakRevDep) {
        ExprAttrsLinked(cfg, d.weakRevDep);
        LinkedReadOK(cfg, TriV(i), b, ExprItems(d.weakRevDep));
      } else if b in ExprAttrs(cfg, d.directDep) {
        ExprAttrsLinked(cfg, d.directDep);
        LinkedReadOK(cfg, TriV(i), b, ExprItems(d.directDep));
      }
    }
  }

  lemma SymStrReadOK(cfg: Config, u: User, i: nat, b: Attr)
    requires ConfigOK(cfg) && UserOK(cfg, u) && i < |cfg.syms|
    requires b in SymStrReads(cfg, u, i, EnvOf(cfg, u))
    ensures ReadOK(cfg, StrV(i), b)
  {
    var d, env := cfg.syms[i], EnvOf(cfg, u);
    assert SymOK(cfg, i);
    SymStrReadsStatic(cfg, u, i, env);
    if b in DefaultStrAttrs(cfg, d.defaults) && ItemOf(b) != S(i) {
      DefaultAttrsLinked(cfg, d.defaults);
      LinkedReadOK(cfg, StrV(i), b, DefaultItems(d.defaults));
    } else if b in RangeAttrs(cfg, d.ranges) && ItemOf(b) != S(i) {
      RangeAttrsLinked(cfg, d.ranges);
      LinkedReadOK(cfg, StrV(i), b, RangeItems(d.ranges));
    }
  }

  lemma SymAsgReadOK(cfg: Config, u: User, i: nat, b: Attr)
    requires ConfigOK(cfg) && UserOK(cfg, u) && i < |cfg.syms|
    requires b in SymAsgReads(cfg, u, i, EnvOf(cfg, u))
    ensures ReadOK(cfg, Asg(i), b)
  {
    var d, env := cfg.syms[i], EnvOf(cfg, u);
    assert SymOK(cfg, i);
    if b != Vis(i) {
      if !d.defined {
        PromptlessVis(cfg, u, i);
        assert false;
      }
      ExprReadsStatic(cfg, u, d.revDep, env);
      ExprReadsStatic(cfg, u, d.weakRevDep, env);
      if b in ExprAttrs(cfg, d.revDep) {
        ExprAttrsLinked(cfg, d.revDep);
        LinkedReadOK(cfg, Asg(i), b, ExprItems(d.revDep));
      } else if b in ExprAttrs(cfg, d.weakRevDep) {
        ExprAttrsLinked(cfg, d.weakRevDep);
        LinkedReadOK(cfg, Asg(i), b, ExprItems(d.weakRevDep));
      }
    }
  }

  lemma ChoiceVisReadOK(cfg: Config, u: User, c: nat, b: Attr)
    requires ConfigOK(cfg) && UserOK(cfg, u) && c < |cfg.choices|
    requires b in ChoiceVisReads(cfg, u, c, EnvOf(cfg, u))
    ensures ReadOK(cfg, CVis(c), b)
  {
    var d := cfg.choices[c];
    PromptReadsStatic(cfg, u, d.prompts, EnvOf(cfg, u));
    PromptAttrsLinked(cfg, d.prompts);
    if b != TriV(cfg.modules) {
      LinkedReadOK(cfg, CVis(c), b, PromptItems(d.prompts));
    }
  }

  lemma ChoiceSelReadOK(cfg: Config, u: User, c: nat, b: Attr)
    requires ConfigOK(cfg) && UserOK(cfg, u) && c < |cfg.choices|
    requires b in ChoiceSelReads(cfg, u, c, EnvOf(cfg, u))
    ensures ReadOK(cfg, CSel(c), b)
  {
    var d := cfg.choices[c];
    assert ChoiceOK(cfg, c);
    var members := set s | s in d.syms :: S(s);
    SelectionReadsLinked(cfg, u, d.defaults, d.syms, EnvOf(cfg, u), members);
    if b !in ChoiceTriReads(cfg, u, c, EnvOf(cfg, u)) && ItemOf(b) !in members {
      assert AccountedFor(cfg, ChoiceDefaultItems(d.defaults) + members, b);
      LinkedReadOK(cfg, CSel(c), b, ChoiceDefaultItems(d.defaults));
    }
  }

  /** Every dynamic read is covered by the dependents graph. */
  lemma ReadsFollowDependents(cfg: Config, u: User, a: Attr, b: Attr)
    requires ConfigOK(cfg) && UserOK(cfg, u) && AttrInRange(cfg, a)
    requires b in Reads(cfg, u, a, EnvOf(cfg, u))
    ensures ReadOK(cfg, a, b)
  {
    match a
    case Vis(i) => SymVisReadOK(cfg, u, i, b);
    case TriV(i) => SymTriReadOK(cfg, u, i, b);
    case StrV(i) => SymStrReadOK(cfg, u, i, b);
    case Asg(i) => SymAsgReadOK(cfg, u, i, b);
    case CVis(c) => ChoiceVisReadOK(cfg, u, c, b);
    case CSel(c) => ChoiceSelReadOK(cfg, u, c, b);
    case CAsg(c) =>
  }

  /** Fixed attributes only read fixed attributes, and no assignment changes their value. */
  lemma InertUnchanged(cfg: Config, u1: User, u2: User, a: Attr)
    requires ConfigOK(cfg) && UserOK(cfg, u1) && UserOK(cfg, u2)
    requires Inert(cfg, a)
    ensures Eval(cfg, u1, a) == Eval(cfg, u2, a)
    ensures Reads(cfg, u1, a, EnvOf(cfg, u1)) == Reads(cfg, u2, a, EnvOf(cfg, u2))
    ensures forall b :: b in Reads(cfg, u1, a, EnvOf(cfg, u1)) ==> Inert(cfg, b)
  {
    var i := ItemOf(a).i;
    assert i < |cfg.syms| ==> SymOK(cfg, i);
    assert SymOK(cfg, cfg.n);
    EvalStep(cfg, u1, a);
    EvalStep(cfg, u2, a);
    if !cfg.Sym(i).defined {
      PromptlessVis(cfg, u1, i);
      PromptlessVis(cfg, u2, i);
      EvalStep(cfg, u1, TriV(i));
      EvalStep(cfg, u2, TriV(i));
    }
  }

  // ---------- The cache invariant ----------

  type Cache = map<Attr, Val>

  predicate Covered(cfg: Config, cache: Cache, b: Attr) {
    b in cache || Inert(cfg, b)
  }

  /** Every cached value is the value plain recursion gives, and everything that is read
      to compute a cached value is itself cached (or fixed). */
  ghost predicate CacheOK(cfg: Config, u: User, cache: Cache)
    requires Acyclic(cfg)
  {
    forall a :: a in cache ==>
      && AttrInRange(cfg, a)
      && cache[a] == Eval(cfg, u, a)
      && forall b :: b in Reads(cfg, u, a, EnvOf(cfg, u)) ==> Covered(cfg, cache, b)
  }

  /** If an item has a cached value, its visibility is cached, so _cached_vis tells whether
      the item has cached values at all. */
  lemma VisCached(cfg: Config, u: User, cache: Cache, a: Attr)
    requires ConfigOK(cfg) && UserOK(cfg, u) && CacheOK(cfg, u, cache)
    requires a in cache && !Inert(cfg, a)
    ensures VisOf(ItemOf(a)) in cache
  {
    var env := EnvOf(cfg, u);
    match a
    case StrV(i) =>
      if IsBoolTri(cfg.Sym(i).typ) {
        assert TriV(i) in Reads(cfg, u, a, env);
        assert Vis(i) in Reads(cfg, u, TriV(i), env) by { assert SymOK(cfg, i); }
      } else {
        assert Vis(i) in Reads(cfg, u, a, env);
      }
    case TriV(i) => assert Vis(i) in Reads(cfg, u, a, env) by { assert SymOK(cfg, i); }
    case Asg(i) => assert Vis(i) in Reads(cfg, u, a, env);
    case CSel(c) => assert CVis(c) in Reads(cfg, u, a, env);
    case CAsg(c) => assert CVis(c) in Reads(cfg, u, a, env);
    case _ =>
  }

  /** What recursive invalidation leaves behind: `dead` is the set of items that were
      invalidated. Their dependents have no cached visibility, and invalidating MODULES
      invalidates every defined symbol and every choice. */
  ghost predicate Invalidated(cfg: Config, before: Cache, after: Cache, dead: set<Ref>) {
    && (forall a :: a in after ==> a in before && after[a] == before[a] && ItemOf(a) !in dead)
    && (forall a :: a in before && a !in after ==> ItemOf(a) in dead)
    && (forall x, y :: x in dead && ItemInRange(cfg, y) && DependsOn(cfg, y, x) ==> VisOf(y) !in after)
    && (S(cfg.modules) in dead ==> forall a :: a in after ==> Inert(cfg, a))
  }

  /** The user input of every item is unchanged, except where nothing is cached or where
      it has no effect. */
  ghost predicate ChangedOnly(cfg: Config, u1: User, u2: User, after: Cache) {
    && (forall i :: UserOf(u1, i) == UserOf(u2, i) || Vis(i) !in after || Promptless(cfg, cfg.Sym(i)))
    && (forall c :: (ModeOf(u1, c) == ModeOf(u2, c) && SelectionOf(u1, c) == SelectionOf(u2, c))
                    || CVis(c) !in after)
  }

  lemma ReadsStayCached(cfg: Config, u: User, before: Cache, after: Cache, dead: set<Ref>, a: Attr, b: Attr)
    requires ConfigOK(cfg) && UserOK(cfg, u) && CacheOK(cfg, u, before)
    requires Invalidated(cfg, before, after, dead)
    requires a in after && b in Reads(cfg, u, a, EnvOf(cfg, u))
    ensures Covered(cfg, after, b)
  {
    if Inert(cfg, a) {
      InertUnchanged(cfg, u, u, a);
    } else if !Inert(cfg, b) {
      VisCached(cfg, u, before, a);
      ReadsFollowDependents(cfg, u, a, b);
      assert b in before;
    }
  }

  lemma SurvivorInput(cfg: Config, u1: User, u2: User, before: Cache, after: Cache, dead: set<Ref>, a: Attr)
    requires ConfigOK(cfg) && UserOK(cfg, u1) && CacheOK(cfg, u1, before)
    requires Invalidated(cfg, before, after, dead)
    requires ChangedOnly(cfg, u1, u2, after)
    requires a in after && !Inert(cfg, a)
    ensures SameInput(u1, u2, a, EnvOf(cfg, u1))
  {
    VisCached(cfg, u1, before, a);
    assert VisOf(ItemOf(a)) in after;
    if a.TriV? || a.StrV? {
      if Promptless(cfg, cfg.Sym(a.i)) {
        PromptlessVis(cfg, u1, a.i);
      }
    }
  }

  lemma ReadsLowerRank(cfg: Config, u: User, a: Attr, b: Attr)
    requires ConfigOK(cfg) && UserOK(cfg, u)
    requires b in Reads(cfg, u, a, EnvOf(cfg, u))
    ensures Rank(cfg)(b) < Rank(cfg)(a)
  {
    ReadsStatic(cfg, u, a, EnvOf(cfg, u));
    assert IsRank(cfg, Rank(cfg)) && b in StaticReads(cfg, a);
  }

  /** What survived the invalidation still has the value it had, and reads the same. */
  lemma {:induction false} SurvivorUnchanged(cfg: Config, u1: User, u2: User, before: Cache, after: Cache,
                                             dead: set<Ref>, a: Attr)
    requires ConfigOK(cfg) && UserOK(cfg, u1) && UserOK(cfg, u2) && CacheOK(cfg, u1, before)
    requires Invalidated(cfg, before, after, dead)
    requires ChangedOnly(cfg, u1, u2, after)
    requires Covered(cfg, after, a)
    ensures Eval(cfg, u1, a) == Eval(cfg, u2, a)
    ensures Reads(cfg, u1, a, EnvOf(cfg, u1)) == Reads(cfg, u2, a, EnvOf(cfg, u2))
    decreases Rank(cfg)(a)
  {
    if Inert(cfg, a) {
      InertUnchanged(cfg, u1, u2, a);
    } else {
      forall b | b in Reads(cfg, u1, a, EnvOf(cfg, u1))
        ensures Eval(cfg, u1, b) == Eval(cfg, u2, b) && Covered(cfg, after, b)
      {
        ReadsLowerRank(cfg, u1, a, b);
        ReadsStayCached(cfg, u1, before, after, dead, a, b);
        SurvivorUnchanged(cfg, u1, u2, before, after, dead, b);
      }
      SurvivorStep(cfg, u1, u2, before, after, dead, a);
    }
  }

  lemma SurvivorStep(cfg: Config, u1: User, u2: User, before: Cache, after: Cache, dead: set<Ref>, a: Attr)
    requires ConfigOK(cfg) && UserOK(cfg, u1) && UserOK(cfg, u2) && CacheOK(cfg, u1, before)
    requires Invalidated(cfg, before, after, dead)
    requires ChangedOnly(cfg, u1, u2, after)
    requires a in after && !Inert(cfg, a)
    requires forall b :: b in Reads(cfg, u1, a, EnvOf(cfg, u1)) ==>
               Eval(cfg, u1, b) == Eval(cfg, u2, b) && Covered(cfg, after, b)
    ensures Eval(cfg, u1, a) == Eval(cfg, u2, a)
    ensures Reads(cfg, u1, a, EnvOf(cfg, u1)) == Reads(cfg, u2, a, EnvOf(cfg, u2))
  {
    var rs := Reads(cfg, u1, a, EnvOf(cfg, u1));
    assert Agree(u1, EnvOf(cfg, u1), u2, EnvOf(cfg, u2), rs) by {
      SurvivingModes(cfg, u1, u2, after, rs);
    }
    SurvivorInput(cfg, u1, u2, before, after, dead, a);
    SameValue(cfg, u1, u2, a);
  }

  lemma SurvivingModes(cfg: Config, u1: User, u2: User, after: Cache, rs: set<Attr>)
    requires ChangedOnly(cfg, u1, u2, after)
    requires forall b :: b in rs ==> Covered(cfg, after, b)
    ensures forall b :: b in rs && b.CVis? ==> ModeOf(u1, b.c) == ModeOf(u2, b.c)
  {
    forall b | b in rs && b.CVis?
      ensures ModeOf(u1, b.c) == ModeOf(u2, b.c)
    {
      assert Covered(cfg, after, b) && !Inert(cfg, b);
    }
  }

  lemma SameValue(cfg: Config, u1: User, u2: User, a: Attr)
    requires ConfigOK(cfg) && UserOK(cfg, u1) && UserOK(cfg, u2)
    requires Agree(u1, EnvOf(cfg, u1), u2, EnvOf(cfg, u2), Reads(cfg, u1, a, EnvOf(cfg, u1)))
    requires SameInput(u1, u2, a, EnvOf(cfg, u1))
    ensures Eval(cfg, u1, a) == Eval(cfg, u2, a)
    ensures Reads(cfg, u1, a, EnvOf(cfg, u1)) == Reads(cfg, u2, a, EnvOf(cfg, u2))
  {
    EvalN(cfg, u1);
    EvalN(cfg, u2);
    StepCongruence(cfg, u1, EnvOf(cfg, u1), u2, EnvOf(cfg, u2), a);
    EvalStep(cfg, u1, a);
    EvalStep(cfg, u2, a);
  }

  /** An assignment followed by recursive invalidation leaves a correct cache. */
  lemma InvalidationSound(cfg: Config, u1: User, u2: User, before: Cache, after: Cache, dead: set<Ref>)
    requires ConfigOK(cfg) && UserOK(cfg, u1) && UserOK(cfg, u2) && CacheOK(cfg, u1, before)
    requires Invalidated(cfg, before, after, dead)
    requires ChangedOnly(cfg, u1, u2, after)
    ensures CacheOK(cfg, u2, after)
  {
    forall a | a in after
      ensures after[a] == Eval(cfg, u2, a)
      ensures forall b :: b in Reads(cfg, u2, a, EnvOf(cfg, u2)) ==> Covered(cfg, after, b)
    {
      SurvivorUnchanged(cfg, u1, u2, before, after, dead, a);
      forall b | b in Reads(cfg, u2, a, EnvOf(cfg, u2))
        ensures Covered(cfg, after, b)
      {
        ReadsStayCached(cfg, u1, before, after, dead, a, b);
      }
    }
  }

  /** Storing a freshly computed value keeps the invariant. */
  lemma FillSound(cfg: Config, u: User, cache: Cache, a: Attr)
    requires ConfigOK(cfg) && CacheOK(cfg, u, cache)
    requires AttrInRange(cfg, a)
    requires forall b :: b in Reads(cfg, u, a, EnvOf(cfg, u)) ==> Covered(cfg, cache, b)
    ensures CacheOK(cfg, u, cache[a := Eval(cfg, u, a)])
  {
  }

  /** The cache without the values of x. */
  function Without(cache: Cache, x: Ref): (r: Cache)
    ensures forall a :: a in r <==> a in cache && ItemOf(a) != x
    ensures forall a :: a in r ==> r[a] == cache[a]
  {
    map a | a in cache && ItemOf(a) != x :: cache[a]
  }

  /** The items with a cached visibility. */
  ghost function Live(cfg: Config, cache: Cache): set<Ref> {
    (set i | 0 <= i < |cfg.syms| && Vis(i) in cache :: S(i)) +
    (set c | 0 <= c < |cfg.choices| && CVis(c) in cache :: C(c))
  }

  lemma LiveShrinks(cfg: Config, before: Cache, after: Cache, x: Ref)
    requires ItemInRange(cfg, x) && VisOf(x) !in after
    requires forall a :: a in after ==> a in before
    ensures Live(cfg, after) <= Live(cfg, before)
    ensures x !in Live(cfg, after)
    ensures VisOf(x) in before ==> x in Live(cfg, before)
  {
  }

  /** Invalidation in progress: the dependents of x in `todo` have not been dealt with. */
  ghost predicate InvalidatedExcept(cfg: Config, before: Cache, after: Cache, dead: set<Ref>, x: Ref, todo: set<Ref>) {
    && (forall a :: a in after ==> a in before && after[a] == before[a] && ItemOf(a) !in dead)
    && (forall a :: a in before && a !in after ==> ItemOf(a) in dead)
    && (forall w, y :: w in dead && ItemInRange(cfg, y) && DependsOn(cfg, y, w) ==>
          VisOf(y) !in after || (w == x && y in todo))
    && (S(cfg.modules) in dead ==> forall a :: a in after ==> Inert(cfg, a))
  }

  lemma InvalidateOne(cfg: Config, cache: Cache, x: Ref, dependents: set<Ref>)
    requires x != S(cfg.modules)
    requires forall y :: y in dependents <==> ItemInRange(cfg, y) && DependsOn(cfg, y, x)
    ensures InvalidatedExcept(cfg, cache, Without(cache, x), {x}, x, dependents)
  {
  }

  /** One dependent is skipped because it has no cached visibility. */
  lemma SkipDependent(cfg: Config, before: Cache, after: Cache, dead: set<Ref>, x: Ref, todo: set<Ref>, y: Ref)
    requires InvalidatedExcept(cfg, before, after, dead, x, todo)
    requires VisOf(y) !in after
    ensures InvalidatedExcept(cfg, before, after, dead, x, todo - {y})
  {
  }

  /** One dependent was invalidated recursively. */
  lemma MergeDependent(cfg: Config, before: Cache, mid: Cache, after: Cache,
                       dead: set<Ref>, more: set<Ref>, x: Ref, todo: set<Ref>, y: Ref)
    requires InvalidatedExcept(cfg, before, mid, dead, x, todo)
    requires Invalidated(cfg, mid, after, more) && y in more
    ensures InvalidatedExcept(cfg, before, after, dead + more, x, todo - {y})
  {
    assert ItemOf(VisOf(y)) == y;
  }

  // ---------- Which values an assignment can change ----------

  /** `items` is closed under dependents; every set that contains what is reachable from x
      through _dependents is such a set. */
  ghost predicate ClosedUnderDependents(cfg: Config, items: set<Ref>) {
    forall x, y :: x in items && ItemInRange(cfg, y) && DependsOn(cfg, y, x) ==> y in items
  }

  /** Unless MODULES is reachable, only the values of items reachable from a changed item
      can change. */
  lemma {:induction false} AssignmentIsLocal(cfg: Config, u1: User, u2: User, items: set<Ref>, a: Attr)
    requires ConfigOK(cfg) && UserOK(cfg, u1) && UserOK(cfg, u2)
    requires ClosedUnderDependents(cfg, items) && S(cfg.modules) !in items
    requires forall i :: S(i) !in items ==> UserOf(u1, i) == UserOf(u2, i)
    requires forall c :: C(c) !in items ==> ModeOf(u1, c) == ModeOf(u2, c) && SelectionOf(u1, c) == SelectionOf(u2, c)
    requires AttrInRange(cfg, a) && ItemOf(a) !in items
    ensures Eval(cfg, u1, a) == Eval(cfg, u2, a)
    decreases Rank(cfg)(a)
  {
    forall b | b in Reads(cfg, u1, a, EnvOf(cfg, u1))
      ensures Eval(cfg, u1, b) == Eval(cfg, u2, b) && (b.CVis? ==> ModeOf(u1, b.c) == ModeOf(u2, b.c))
    {
      ReadsLowerRank(cfg, u1, a, b);
      ReadsFollowDependents(cfg, u1, a, b);
      if Inert(cfg, b) {
        InertUnchanged(cfg, u1, u2, b);
      } else {
        assert ItemOf(b) !in items;
        AssignmentIsLocal(cfg, u1, u2, items, b);
      }
    }
    SameValue(cfg, u1, u2, a);
  }
}
