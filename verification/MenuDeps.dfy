/** What propagated conditions mean, and which facts about configurations they establish. */
module MenuDeps {
  import opened Types
  import opened Numbers
  import opened Semantics
  import opened MinConfig
  import opened MenuSpec

  // ---------- Values of the final conditions ----------

  /** The values of the conditions of a menu node. */
  datatype Meaning = Meaning(
    id: nat,
    dep: Tri,
    prompt: Option<Tri>,
    defaults: seq<Tri>,
    ranges: seq<Tri>,
    selects: seq<Tri>,
    implies: seq<Tri>)

  function CondsOfDefaults(cfg: Config, u: User, ds: seq<Default>, env: Env): seq<Tri> {
    seq(|ds|, i requires 0 <= i < |ds| => ExprVal(cfg, u, ds[i].cond, env))
  }

  function CondsOfRanges(cfg: Config, u: User, rs: seq<RangeDef>, env: Env): seq<Tri> {
    seq(|rs|, i requires 0 <= i < |rs| => ExprVal(cfg, u, rs[i].cond, env))
  }

  function CondsOfSelects(cfg: Config, u: User, ss: seq<Select>, env: Env): seq<Tri> {
    seq(|ss|, i requires 0 <= i < |ss| => ExprVal(cfg, u, ss[i].cond, env))
  }

  function MinAll(vs: seq<Tri>, v: Tri): seq<Tri> {
    seq(|vs|, i requires 0 <= i < |vs| => Min(vs[i], v))
  }

  /** The values of the conditions as they stand in a node. */
  function ValuesIn(cfg: Config, u: User, id: nat, p: Props, env: Env): Meaning {
    Meaning(id, ExprVal(cfg, u, p.dep, env),
            if p.prompt.Some? then Some(ExprVal(cfg, u, p.prompt.value, env)) else None,
            CondsOfDefaults(cfg, u, p.defaults, env), CondsOfRanges(cfg, u, p.ranges, env),
            CondsOfSelects(cfg, u, p.selects, env), CondsOfSelects(cfg, u, p.implies, env))
  }

  /** What the conditions of a node mean if the values of all enclosing dependencies have the
      minimum `outer` and those of all enclosing 'visible if's the minimum `visible`: every
      condition is limited by the dependencies, and the prompts of symbols and choices also by
      the visibility. Other items only have the dependencies limited. */
  function Limited(m: Meaning, item: Item, outer: Tri, visible: Tri): Meaning {
    var dep := Min(m.dep, outer);
    if item.SymItem? || item.ChoiceItem? then
      Meaning(m.id, dep,
              if m.prompt.Some? then Some(Min(m.prompt.value, Min(visible, dep))) else None,
              MinAll(m.defaults, dep), MinAll(m.ranges, dep), MinAll(m.selects, dep), MinAll(m.implies, dep))
    else
      m.(dep := dep, prompt := if m.prompt.Some? then Some(Min(m.prompt.value, dep)) else None)
  }

  /** The meaning of the whole parsed tree. The mode of a choice limits its contents. */
  function Meanings(cfg: Config, u: User, ts: seq<Tree>, outer: Tri, visible: Tri, env: Env): seq<Meaning> {
    if ts == [] then []
    else
      var t := ts[0];
      var m := Limited(ValuesIn(cfg, u, t.id, t.props, env), t.item, outer, visible);
      var inner := if t.item.ChoiceItem? then ChoiceTri(cfg, u, t.item.c, env) else m.dep;
      var innerVisible := if t.item.MenuItem? then Min(visible, ExprVal(cfg, u, t.props.visibility, env)) else visible;
      [m] + Meanings(cfg, u, t.kids, inner, innerVisible, env) + Meanings(cfg, u, ts[1..], outer, visible, env)
  }

  function ValuesOfEntries(cfg: Config, u: User, es: seq<Entry>, env: Env): seq<Meaning> {
    if es == [] then []
    else [ValuesIn(cfg, u, es[0].id, es[0].props, env)] + ValuesOfEntries(cfg, u, es[1..], env)
  }

  lemma {:induction false} ValuesConcat(cfg: Config, u: User, a: seq<Entry>, b: seq<Entry>, env: Env)
    ensures ValuesOfEntries(cfg, u, a + b, env) == ValuesOfEntries(cfg, u, a, env) + ValuesOfEntries(cfg, u, b, env)
  {
    if a == [] {
      assert a + b == b;
    } else {
      assert (a + b)[1..] == a[1..] + b;
      ValuesConcat(cfg, u, a[1..], b, env);
    }
  }

  lemma InheritDefaults(cfg: Config, u: User, k: Consts, ds: seq<Default>, dep: Expr, env: Env)
    requires ConstsOK(k, env)
    ensures CondsOfDefaults(cfg, u, AndDefaults(k, ds, dep), env) ==
            MinAll(CondsOfDefaults(cfg, u, ds, env), ExprVal(cfg, u, dep, env))
  {
    hide ExprVal, MakeAnd;
    forall i | 0 <= i < |ds|
      ensures ExprVal(cfg, u, MakeAnd(k, ds[i].cond, dep), env) ==
              Min(ExprVal(cfg, u, ds[i].cond, env), ExprVal(cfg, u, dep, env))
    {
      MakeAndValue(cfg, u, k, ds[i].cond, dep, env);
    }
  }

  lemma InheritRanges(cfg: Config, u: User, k: Consts, rs: seq<RangeDef>, dep: Expr, env: Env)
    requires ConstsOK(k, env)
    ensures CondsOfRanges(cfg, u, AndRanges(k, rs, dep), env) ==
            MinAll(CondsOfRanges(cfg, u, rs, env), ExprVal(cfg, u, dep, env))
  {
    hide ExprVal, MakeAnd;
    forall i | 0 <= i < |rs|
      ensures ExprVal(cfg, u, MakeAnd(k, rs[i].cond, dep), env) ==
              Min(ExprVal(cfg, u, rs[i].cond, env), ExprVal(cfg, u, dep, env))
    {
      MakeAndValue(cfg, u, k, rs[i].cond, dep, env);
    }
  }

  lemma InheritSelects(cfg: Config, u: User, k: Consts, ss: seq<Select>, dep: Expr, env: Env)
    requires ConstsOK(k, env)
    ensures CondsOfSelects(cfg, u, AndSelects(k, ss, dep), env) ==
            MinAll(CondsOfSelects(cfg, u, ss, env), ExprVal(cfg, u, dep, env))
  {
    hide ExprVal, MakeAnd;
    forall i | 0 <= i < |ss|
      ensures ExprVal(cfg, u, MakeAnd(k, ss[i].cond, dep), env) ==
              Min(ExprVal(cfg, u, ss[i].cond, env), ExprVal(cfg, u, dep, env))
    {
      MakeAndValue(cfg, u, k, ss[i].cond, dep, env);
    }
  }

  /** One step of propagation limits the meaning of the child. */
  lemma InheritMeaning(cfg: Config, u: User, k: Consts, id: nat, item: Item, p: Props, baseDep: Expr, vis: Expr, env: Env)
    requires ConstsOK(k, env)
    ensures ValuesIn(cfg, u, id, Inherit(k, item, p, baseDep, vis), env) ==
            Limited(ValuesIn(cfg, u, id, p, env), item, ExprVal(cfg, u, baseDep, env), ExprVal(cfg, u, vis, env))
  {
    hide ExprVal, MakeAnd, CondsOfDefaults, CondsOfRanges, CondsOfSelects, AndDefaults, AndRanges, AndSelects, MinAll;
    hide ConstsOK, AndPrompt;
    var dep := MakeAnd(k, p.dep, baseDep);
    MakeAndValue(cfg, u, k, p.dep, baseDep, env);
    MakeAndValue(cfg, u, k, vis, dep, env);
    InheritPromptMeaning(cfg, u, k, p.prompt, MakeAnd(k, vis, dep), env);
    InheritPromptMeaning(cfg, u, k, p.prompt, dep, env);
    if item.SymItem? || item.ChoiceItem? {
      InheritDefaults(cfg, u, k, p.defaults, dep, env);
      InheritRanges(cfg, u, k, p.ranges, dep, env);
      InheritSelects(cfg, u, k, p.selects, dep, env);
      InheritSelects(cfg, u, k, p.implies, dep, env);
    }
  }

  lemma InheritPromptMeaning(cfg: Config, u: User, k: Consts, prompt: Option<Expr>, e: Expr, env: Env)
    requires ConstsOK(k, env)
    ensures AndPrompt(k, prompt, e).Some? <==> prompt.Some?
    ensures prompt.Some? ==>
              ExprVal(cfg, u, AndPrompt(k, prompt, e).value, env) ==
              Min(ExprVal(cfg, u, prompt.value, env), ExprVal(cfg, u, e, env))
  {
    hide ExprVal, MakeAnd;
    if prompt.Some? {
      MakeAndValue(cfg, u, k, prompt.value, e, env);
    }
  }

  /** Propagation preserves the meaning: every final condition has the minimum of its own value
      and the values of the enclosing dependencies and, for the prompts of symbols and
      choices, of the enclosing 'visible if's. */
  lemma {:induction false} PropagationMeaning(cfg: Config, u: User, k: Consts, ts: seq<Tree>, baseDep: Expr, vis: Expr, env: Env)
    requires ConstsOK(k, env)
    ensures ValuesOfEntries(cfg, u, Listing(k, Propagate(k, ts, baseDep, vis), vis), env) ==
            Meanings(cfg, u, ts, ExprVal(cfg, u, baseDep, env), ExprVal(cfg, u, vis, env), env)
    decreases Size(ts)
  {
    hide ValuesIn, Limited, MakeAnd, ConstsOK;
    if ts == [] {
    } else {
      var t := ts[0];
      var p := Inherit(k, t.item, t.props, baseDep, vis);
      var inner := InnerVisible(k, t.item, p, vis);
      InheritMeaning(cfg, u, k, t.id, t.item, t.props, baseDep, vis, env);
      InnerMeaning(cfg, u, k, t, baseDep, vis, env);
      PropagationMeaning(cfg, u, k, t.kids, BaseDep(t.item, p), inner, env);
      PropagationMeaning(cfg, u, k, ts[1..], baseDep, vis, env);
      PropagateFirst(k, ts, baseDep, vis);
      hide Inherit, InnerVisible, Propagate;
      var e := [Entry(t.id, t.item, p)];
      var a := Listing(k, Propagate(k, t.kids, BaseDep(t.item, p), inner), inner);
      var b := Listing(k, Propagate(k, ts[1..], baseDep, vis), vis);
      ValuesConcat(cfg, u, e + a, b, env);
      ValuesConcat(cfg, u, e, a, env);
      assert e[1..] == [];
    }
  }

  lemma PropagateFirst(k: Consts, ts: seq<Tree>, baseDep: Expr, vis: Expr)
    requires ts != []
    ensures var t := ts[0];
            var p := Inherit(k, t.item, t.props, baseDep, vis);
            var inner := InnerVisible(k, t.item, p, vis);
            Listing(k, Propagate(k, ts, baseDep, vis), vis) ==
            [Entry(t.id, t.item, p)]
            + Listing(k, Propagate(k, t.kids, BaseDep(t.item, p), inner), inner)
            + Listing(k, Propagate(k, ts[1..], baseDep, vis), vis)
  {
    hide Inherit, InnerVisible, BaseDep;
    var r := Propagate(k, ts, baseDep, vis);
    assert r[1..] == Propagate(k, ts[1..], baseDep, vis);
  }

  lemma InnerMeaning(cfg: Config, u: User, k: Consts, t: Tree, baseDep: Expr, vis: Expr, env: Env)
    requires ConstsOK(k, env)
    ensures var p := Inherit(k, t.item, t.props, baseDep, vis);
            && ExprVal(cfg, u, BaseDep(t.item, p), env) ==
               (if t.item.ChoiceItem? then ChoiceTri(cfg, u, t.item.c, env)
                else Min(ExprVal(cfg, u, t.props.dep, env), ExprVal(cfg, u, baseDep, env)))
            && ExprVal(cfg, u, InnerVisible(k, t.item, p, vis), env) ==
               (if t.item.MenuItem? then Min(ExprVal(cfg, u, vis, env), ExprVal(cfg, u, t.props.visibility, env))
                else ExprVal(cfg, u, vis, env))
            && Limited(ValuesIn(cfg, u, t.id, t.props, env), t.item,
                       ExprVal(cfg, u, baseDep, env), ExprVal(cfg, u, vis, env)).dep ==
               Min(ExprVal(cfg, u, t.props.dep, env), ExprVal(cfg, u, baseDep, env))
  {
    MakeAndValue(cfg, u, k, t.props.dep, baseDep, env);
    MakeAndValue(cfg, u, k, vis, t.props.visibility, env);
    hide ExprVal, MakeAnd;
    if t.item.ChoiceItem? {
      ChoiceValue(cfg, u, t.item.c, env);
    }
  }

  lemma ChoiceValue(cfg: Config, u: User, c: nat, env: Env)
    ensures ExprVal(cfg, u, ChoiceE(c), env) == ChoiceTri(cfg, u, c, env)
  {
  }

  // ---------- Prompts and direct dependencies ----------

  /** The direct dependency of a symbol: the dependencies of its menu nodes, combined with OR
      in the order in which they were finalised. */
  function DirectDep(k: Consts, deps: seq<Expr>): Expr {
    if deps == [] then SymE(k.n)
    else MakeOr(k, DirectDep(k, deps[..|deps| - 1]), deps[|deps| - 1])
  }

  /** The constants of the menu tree are those of the configuration. */
  predicate SameConsts(cfg: Config, k: Consts) {
    k.n == cfg.n && cfg.Sym(k.n).constTri == Some(0) && cfg.Sym(k.y).constTri == Some(2)
  }

  /** A final prompt condition entails the final dependency of its node. */
  lemma PromptEntailsDep(cfg: Config, k: Consts, item: Item, p: Props, baseDep: Expr, vis: Expr)
    requires SameConsts(cfg, k) && p.prompt.Some?
    ensures Entails(cfg, Inherit(k, item, p, baseDep, vis).prompt.value, Inherit(k, item, p, baseDep, vis).dep)
  {
    var dep := MakeAnd(k, p.dep, baseDep);
    hide AndDefaults, AndRanges, AndSelects;
    if dep != SymE(k.y) {
      EntailsAnd(cfg, k, vis, dep, dep);
      EntailsAnd(cfg, k, p.prompt.value, MakeAnd(k, vis, dep), dep);
      EntailsAnd(cfg, k, p.prompt.value, dep, dep);
    }
  }

  lemma EntailsAnd(cfg: Config, k: Consts, e: Expr, e': Expr, dep: Expr)
    requires SameConsts(cfg, k) && Entails(cfg, e', dep) && e' != SymE(k.y)
    ensures Entails(cfg, MakeAnd(k, e, e'), dep) && MakeAnd(k, e, e') != SymE(k.y)
  {
  }

  /** What entails n entails everything. */
  lemma {:induction false} EntailsN(cfg: Config, k: Consts, e: Expr, dep: Expr)
    requires SameConsts(cfg, k) && Entails(cfg, e, SymE(k.n))
    ensures Entails(cfg, e, dep)
  {
    if e.And? && e != dep {
      if Entails(cfg, e.l, SymE(k.n)) {
        EntailsN(cfg, k, e.l, dep);
      } else {
        EntailsN(cfg, k, e.r, dep);
      }
    }
  }

  lemma EntailsOr(cfg: Config, k: Consts, e: Expr, d1: Expr, d2: Expr)
    requires SameConsts(cfg, k) && (Entails(cfg, e, d1) || Entails(cfg, e, d2))
    ensures Entails(cfg, e, MakeOr(k, d1, d2))
  {
    if d1 == SymE(k.n) && Entails(cfg, e, d1) {
      EntailsN(cfg, k, e, d2);
    } else if d2 == SymE(k.n) && Entails(cfg, e, d2) {
      EntailsN(cfg, k, e, d1);
    }
  }

  lemma {:induction false} EntailsDirectDep(cfg: Config, k: Consts, e: Expr, deps: seq<Expr>, i: nat)
    requires SameConsts(cfg, k) && i < |deps| && Entails(cfg, e, deps[i])
    ensures Entails(cfg, e, DirectDep(k, deps))
  {
    hide Entails, MakeOr;
    var n := |deps| - 1;
    if i < n {
      EntailsDirectDep(cfg, k, e, deps[..n], i);
    }
    EntailsOr(cfg, k, e, DirectDep(k, deps[..n]), deps[n]);
  }

  /** Every prompt of a symbol entails its direct dependency, as minimal configurations and the
      diagnosis of missing dependencies rely on: `deps` are the final dependencies of the
      symbol's menu nodes, of which the node with the prompt is the i-th. */
  lemma PromptEntailsDirectDep(cfg: Config, k: Consts, item: Item, p: Props, baseDep: Expr, vis: Expr,
                               deps: seq<Expr>, i: nat)
    requires SameConsts(cfg, k) && p.prompt.Some?
    requires i < |deps| && deps[i] == Inherit(k, item, p, baseDep, vis).dep
    ensures Entails(cfg, Inherit(k, item, p, baseDep, vis).prompt.value, DirectDep(k, deps))
  {
    hide Entails, Inherit;
    PromptEntailsDep(cfg, k, item, p, baseDep, vis);
    InheritPrompt(k, item, p, baseDep, vis);
    EntailsDirectDep(cfg, k, Inherit(k, item, p, baseDep, vis).prompt.value, deps, i);
  }

  lemma InheritPrompt(k: Consts, item: Item, p: Props, baseDep: Expr, vis: Expr)
    ensures Inherit(k, item, p, baseDep, vis).prompt.Some? <==> p.prompt.Some?
  {
    hide MakeAnd;
  }

  // ---------- Automatic menu dependencies ----------

  /** The forms that the comment of _expr_depends_on() lists. */
  predicate ListedForms(k: Consts, e: Expr, s: nat) {
    match e
    case SymE(a) => a == s
    case Rel(EQUAL, a, b) => (a == s && (b == k.m || b == k.y)) || (b == s && (a == k.m || a == k.y))
    case Rel(UNEQUAL, a, b) => (a == s && b == k.n) || (b == s && a == k.n)
    case And(l, r) => ListedForms(k, l, s) || ListedForms(k, r, s)
    case _ => false
  }

  /** The comparisons that are accepted although they are not listed: s != y and y != s. */
  predicate UnequalY(k: Consts, e: Expr, s: nat) {
    match e
    case Rel(UNEQUAL, a, b) => (a == s && b == k.y) || (b == s && a == k.y)
    case And(l, r) => UnequalY(k, l, s) || UnequalY(k, r, s)
    case _ => false
  }

  /** The code accepts the listed forms and, because `and` binds tighter than `or`, also
      comparisons with y by !=. */
  lemma {:induction false} AcceptedForms(k: Consts, e: Expr, s: nat)
    requires s != k.n && s != k.m && s != k.y && k.n != k.m && k.m != k.y && k.n != k.y
    ensures ExprDependsOn(k, e, s) <==> ListedForms(k, e, s) || UnequalY(k, e, s)
  {
    match e
    case And(l, r) => AcceptedForms(k, l, s); AcceptedForms(k, r, s);
    case _ =>
  }

  /** The constants are tristate symbols with their values. */
  predicate ConstsTri(cfg: Config, k: Consts, env: Env) {
    && ConstsOK(k, env) && env(TriV(k.m)).t == 1
    && IsBoolTri(cfg.Sym(k.n).typ) && IsBoolTri(cfg.Sym(k.m).typ) && IsBoolTri(cfg.Sym(k.y).typ)
  }

  /** A listed form is only true if the bool or tristate symbol is not n, which is why the node
      belongs into the symbol's menu. Of the other accepted comparisons the opposite holds: they
      are y if the symbol is n. */
  lemma {:induction false} AcceptedMeans(cfg: Config, u: User, k: Consts, e: Expr, s: nat, env: Env)
    requires ConstsTri(cfg, k, env) && IsBoolTri(cfg.Sym(s).typ)
    requires s != k.n && s != k.m && s != k.y && k.n != k.m && k.m != k.y && k.n != k.y
    requires ExprDependsOn(k, e, s)
    ensures ListedForms(k, e, s) && ExprVal(cfg, u, e, env) != 0 ==> env(TriV(s)).t != 0
    ensures !ListedForms(k, e, s) && !e.And? && env(TriV(s)).t == 0 ==> ExprVal(cfg, u, e, env) == 2
  {
    match e
    case And(l, r) =>
      AcceptedForms(k, l, s);
      AcceptedForms(k, r, s);
      if ListedForms(k, l, s) {
        AcceptedMeans(cfg, u, k, l, s, env);
      } else if ListedForms(k, r, s) {
        AcceptedMeans(cfg, u, k, r, s, env);
      }
    case _ =>
  }
}
