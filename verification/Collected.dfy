/** The configuration that is collected from a finalised menu tree: it has the properties that
    the theorems on choices, minimal configurations and missing dependencies rely on. */
module Collected {
  import opened Types
  import opened Numbers
  import opened Semantics
  import opened Caching
  import opened Choices
  import opened MinConfig
  import opened MenuSpec
  import opened MenuDeps
  import MenuTree

  // ---------- Conditions inside choices ----------

  predicate HasChoice(e: Expr, c: nat) {
    e == ChoiceE(c) || (e.And? && (HasChoice(e.l, c) || HasChoice(e.r, c)))
  }

  /** The condition is n, or has the choice as an AND operand. */
  predicate BoundTo(cfg: Config, e: Expr, c: nat) {
    e == SymE(cfg.n) || HasChoice(e, c)
  }

  predicate PropsBound(cfg: Config, p: Props, c: nat) {
    BoundTo(cfg, p.dep, c) && (p.prompt.Some? ==> BoundTo(cfg, p.prompt.value, c))
  }

  lemma BoundAnd(cfg: Config, k: Consts, e1: Expr, e2: Expr, c: nat)
    requires SameConsts(cfg, k) && BoundTo(cfg, e2, c)
    ensures BoundTo(cfg, MakeAnd(k, e1, e2), c)
  {
  }

  lemma BoundInherit(cfg: Config, k: Consts, item: Item, p: Props, baseDep: Expr, vis: Expr, c: nat)
    requires SameConsts(cfg, k) && BoundTo(cfg, baseDep, c)
    ensures PropsBound(cfg, Inherit(k, item, p, baseDep, vis), c)
  {
    hide MakeAnd, BoundTo, AndDefaults, AndRanges, AndSelects;
    var dep := MakeAnd(k, p.dep, baseDep);
    BoundAnd(cfg, k, p.dep, baseDep, c);
    BoundAnd(cfg, k, vis, dep, c);
    if p.prompt.Some? {
      BoundAnd(cfg, k, p.prompt.value, dep, c);
      BoundAnd(cfg, k, p.prompt.value, MakeAnd(k, vis, dep), c);
    }
  }

  predicate TopBound(cfg: Config, ts: seq<Tree>, c: nat) {
    forall i :: 0 <= i < |ts| ==> PropsBound(cfg, ts[i].props, c)
  }

  /** All conditions of the trees are bound to the choice, except below nested choices, which
      bind their own contents. */
  predicate InnerBound(cfg: Config, ts: seq<Tree>, c: nat) {
    forall i :: 0 <= i < |ts| ==>
      PropsBound(cfg, ts[i].props, c) && (!ts[i].item.ChoiceItem? ==> InnerBound(cfg, ts[i].kids, c))
  }

  /** Every choice in the trees binds its contents. */
  predicate ChoicesBound(cfg: Config, ts: seq<Tree>) {
    forall i :: 0 <= i < |ts| ==>
      && (ts[i].item.ChoiceItem? ==> InnerBound(cfg, ts[i].kids, ts[i].item.c))
      && ChoicesBound(cfg, ts[i].kids)
  }

  lemma InnerBoundConcat(cfg: Config, a: seq<Tree>, b: seq<Tree>, c: nat)
    ensures InnerBound(cfg, a + b, c) <==> InnerBound(cfg, a, c) && InnerBound(cfg, b, c)
  {
    var ab := a + b;
    assert forall i :: 0 <= i < |a| ==> ab[i] == a[i];
    assert forall i :: 0 <= i < |b| ==> ab[|a| + i] == b[i];
    hide PropsBound;
  }

  lemma ChoicesBoundConcat(cfg: Config, a: seq<Tree>, b: seq<Tree>)
    ensures ChoicesBound(cfg, a + b) <==> ChoicesBound(cfg, a) && ChoicesBound(cfg, b)
  {
    var ab := a + b;
    assert forall i :: 0 <= i < |a| ==> ab[i] == a[i];
    assert forall i :: 0 <= i < |b| ==> ab[|a| + i] == b[i];
    hide InnerBound;
  }

  lemma {:induction false} PropagateBound(cfg: Config, k: Consts, ts: seq<Tree>, baseDep: Expr, vis: Expr, c: nat)
    requires SameConsts(cfg, k) && BoundTo(cfg, baseDep, c)
    ensures TopBound(cfg, Propagate(k, ts, baseDep, vis), c)
  {
    hide PropsBound, BoundTo, Inherit, Size;
    if ts != [] {
      BoundInherit(cfg, k, ts[0].item, ts[0].props, baseDep, vis, c);
      PropagateBound(cfg, k, ts[1..], baseDep, vis, c);
    }
  }

  // ---------- What closing a level keeps ----------

  lemma {:induction false} FlattenBound(cfg: Config, ts: seq<Tree>, c: nat)
    requires InnerBound(cfg, ts, c)
    ensures InnerBound(cfg, Flatten(ts), c)
    decreases Size(ts)
  {
    hide PropsBound, InnerBound;
    if ts != [] {
      var t, rest := ts[0], ts[1..];
      assert [t] + rest == ts;
      InnerBoundConcat(cfg, [t], rest, c);
      InnerBoundOne(cfg, t, c);
      if t.kids != [] && Dissolves(t.item, t.props) {
        SizeConcat(t.kids, rest);
        InnerBoundConcat(cfg, t.kids, rest, c);
        FlattenBound(cfg, t.kids + rest, c);
        InnerBoundOne(cfg, t.(kids := []), c);
        InnerBoundNone(cfg, c);
        InnerBoundConcat(cfg, [t.(kids := [])], Flatten(t.kids + rest), c);
      } else {
        FlattenBound(cfg, rest, c);
        InnerBoundConcat(cfg, [t], Flatten(rest), c);
      }
    }
  }

  lemma InnerBoundOne(cfg: Config, t: Tree, c: nat)
    ensures InnerBound(cfg, [t], c) <==>
            PropsBound(cfg, t.props, c) && (!t.item.ChoiceItem? ==> InnerBound(cfg, t.kids, c))
  {
    assert [t][0] == t;
    hide PropsBound;
  }

  lemma InnerBoundNone(cfg: Config, c: nat)
    ensures InnerBound(cfg, [], c)
  {
  }

  lemma {:induction false} RemoveIfsBound(cfg: Config, ts: seq<Tree>, c: nat)
    requires InnerBound(cfg, ts, c)
    ensures InnerBound(cfg, RemoveIfs(ts), c)
  {
    hide PropsBound, InnerBound;
    if ts == [] {
    } else {
      assert [ts[0]] + ts[1..] == ts;
      InnerBoundConcat(cfg, [ts[0]], ts[1..], c);
      RemoveIfsBound(cfg, ts[1..], c);
      InnerBoundConcat(cfg, [ts[0]], RemoveIfs(ts[1..]), c);
    }
  }

  lemma {:induction false} FlattenChoices(cfg: Config, ts: seq<Tree>)
    requires ChoicesBound(cfg, ts)
    ensures ChoicesBound(cfg, Flatten(ts))
    decreases Size(ts)
  {
    hide InnerBound, ChoicesBound;
    if ts != [] {
      var t, rest := ts[0], ts[1..];
      assert [t] + rest == ts;
      ChoicesBoundConcat(cfg, [t], rest);
      ChoicesBoundOne(cfg, t);
      if t.kids != [] && Dissolves(t.item, t.props) {
        SizeConcat(t.kids, rest);
        ChoicesBoundConcat(cfg, t.kids, rest);
        FlattenChoices(cfg, t.kids + rest);
        ChoicesBoundOne(cfg, t.(kids := []));
        ChoicesBoundNone(cfg);
        ChoicesBoundConcat(cfg, [t.(kids := [])], Flatten(t.kids + rest));
      } else {
        FlattenChoices(cfg, rest);
        ChoicesBoundConcat(cfg, [t], Flatten(rest));
      }
    }
  }

  lemma ChoicesBoundOne(cfg: Config, t: Tree)
    ensures ChoicesBound(cfg, [t]) <==>
            (t.item.ChoiceItem? ==> InnerBound(cfg, t.kids, t.item.c)) && ChoicesBound(cfg, t.kids)
  {
    assert [t][0] == t;
    hide InnerBound;
  }

  lemma ChoicesBoundNone(cfg: Config)
    ensures ChoicesBound(cfg, [])
  {
  }

  lemma {:induction false} RemoveIfsChoices(cfg: Config, ts: seq<Tree>)
    requires ChoicesBound(cfg, ts)
    ensures ChoicesBound(cfg, RemoveIfs(ts))
  {
    hide InnerBound, ChoicesBound;
    if ts == [] {
    } else {
      assert [ts[0]] + ts[1..] == ts;
      ChoicesBoundConcat(cfg, [ts[0]], ts[1..]);
      RemoveIfsChoices(cfg, ts[1..]);
      ChoicesBoundConcat(cfg, [ts[0]], RemoveIfs(ts[1..]));
    }
  }

  lemma CloseLevelBound(cfg: Config, ts: seq<Tree>, c: nat)
    requires InnerBound(cfg, ts, c)
    ensures InnerBound(cfg, CloseLevel(ts), c)
  {
    FlattenBound(cfg, ts, c);
    RemoveIfsBound(cfg, Flatten(ts), c);
  }

  lemma CloseLevelChoices(cfg: Config, ts: seq<Tree>)
    requires ChoicesBound(cfg, ts)
    ensures ChoicesBound(cfg, CloseLevel(ts))
  {
    FlattenChoices(cfg, ts);
    RemoveIfsChoices(cfg, Flatten(ts));
  }

  // ---------- Finalisation binds the contents of choices ----------

  lemma TopBoundFirst(cfg: Config, ts: seq<Tree>, c: nat)
    requires ts != [] && TopBound(cfg, ts, c)
    ensures PropsBound(cfg, ts[0].props, c) && TopBound(cfg, ts[1..], c)
  {
    hide PropsBound;
  }

  /** The conditions of the siblings are bound to the choice: then those of everything that is
      finalised are, in the final tree, however it was nested. */
  lemma {:induction false} FinalizeFirstBound(cfg: Config, k: Consts, ts: seq<Tree>, vis: Expr, c: nat)
    requires SameConsts(cfg, k) && ts != [] && Parsed(ts) && TopBound(cfg, ts, c)
    ensures InnerBound(cfg, FinalizeFirst(k, ts, vis)[..1], c)
    ensures TopBound(cfg, FinalizeFirst(k, ts, vis)[1..], c) && Parsed(FinalizeFirst(k, ts, vis)[1..])
    decreases Size(ts), 2
  {
    hide InnerBound, TopBound, PropsBound, Parsed, Propagate, FinalizeAll, TakeIn, CloseLevel, Size, SameConsts;
    var t, r := ts[0], FinalizeFirst(k, ts, vis);
    ParsedFirst(ts);
    SizeFirst(ts);
    TopBoundFirst(cfg, ts, c);
    FinalizeFirstKeeps(k, ts, vis);
    InnerBoundNone(cfg, c);
    if t.item.SymItem? {
      TakeInBound(cfg, k, t.item.s, [], ts[1..], vis, c);
      var taken := TakeIn(k, t.item.s, [], ts[1..], vis);
      CloseLevelBound(cfg, taken.0, c);
      CloseLevelBound(cfg, t.kids, c);
    } else if !t.item.ChoiceItem? {
      var inner := InnerVisible(k, t.item, t.props, vis);
      DepBound(cfg, t.props, c);
      PropagateBound(cfg, k, t.kids, t.props.dep, inner, c);
      PropagateParsed(k, t.kids, t.props.dep, inner);
      FinalizeAllBound(cfg, k, Propagate(k, t.kids, t.props.dep, inner), inner, c);
      CloseLevelBound(cfg, FinalizeAll(k, Propagate(k, t.kids, t.props.dep, inner), inner), c);
    }
    assert r[..1] == [r[0]];
    InnerBoundOne(cfg, r[0], c);
  }

  lemma DepBound(cfg: Config, p: Props, c: nat)
    requires PropsBound(cfg, p, c)
    ensures BoundTo(cfg, p.dep, c)
  {
  }

  lemma {:induction false} TakeInBound(cfg: Config, k: Consts, s: nat, kids: seq<Tree>, rest: seq<Tree>, vis: Expr, c: nat)
    requires SameConsts(cfg, k) && Parsed(rest) && InnerBound(cfg, kids, c) && TopBound(cfg, rest, c)
    ensures InnerBound(cfg, TakeIn(k, s, kids, rest, vis).0, c) && TopBound(cfg, TakeIn(k, s, kids, rest, vis).1, c)
    decreases Size(rest), 3
  {
    hide InnerBound, TopBound, PropsBound, Parsed, FinalizeFirst, Size, SameConsts;
    if rest != [] && AutoMenuDep(k, s, rest[0].props) {
      var r := FinalizeFirst(k, rest, vis);
      FinalizeFirstBound(cfg, k, rest, vis, c);
      SizeSplit(r);
      assert r[..1] == [r[0]];
      InnerBoundConcat(cfg, kids, [r[0]], c);
      TakeInBound(cfg, k, s, kids + [r[0]], r[1..], vis, c);
    }
  }

  lemma {:induction false} FinalizeAllBound(cfg: Config, k: Consts, ts: seq<Tree>, vis: Expr, c: nat)
    requires SameConsts(cfg, k) && Parsed(ts) && TopBound(cfg, ts, c)
    ensures InnerBound(cfg, FinalizeAll(k, ts, vis), c)
    decreases Size(ts), 3
  {
    hide InnerBound, TopBound, PropsBound, Parsed, FinalizeFirst, Size, SameConsts;
    if ts == [] {
      InnerBoundNone(cfg, c);
    } else {
      var r := FinalizeFirst(k, ts, vis);
      FinalizeFirstBound(cfg, k, ts, vis, c);
      SizeSplit(r);
      FinalizeAllBound(cfg, k, r[1..], vis, c);
      assert r[..1] == [r[0]];
      InnerBoundConcat(cfg, [r[0]], FinalizeAll(k, r[1..], vis), c);
    }
  }

  /** In the final tree every choice binds its contents: all conditions below it, except below
      nested choices, are n or have the choice as an AND operand. */
  lemma {:induction false} FinalizeFirstChoices(cfg: Config, k: Consts, ts: seq<Tree>, vis: Expr)
    requires SameConsts(cfg, k) && ts != [] && Parsed(ts)
    ensures ChoicesBound(cfg, FinalizeFirst(k, ts, vis)[..1]) && Parsed(FinalizeFirst(k, ts, vis)[1..])
    decreases Size(ts), 2
  {
    hide InnerBound, ChoicesBound, Parsed, Propagate, FinalizeAll, TakeIn, CloseLevel, Size, SameConsts;
    var t, r := ts[0], FinalizeFirst(k, ts, vis);
    ParsedFirst(ts);
    SizeFirst(ts);
    FinalizeFirstKeeps(k, ts, vis);
    ChoicesBoundNone(cfg);
    if t.item.SymItem? {
      TakeInChoices(cfg, k, t.item.s, [], ts[1..], vis);
      var taken := TakeIn(k, t.item.s, [], ts[1..], vis);
      CloseLevelChoices(cfg, taken.0);
      CloseLevelChoices(cfg, t.kids);
    } else {
      var inner, base := InnerVisible(k, t.item, t.props, vis), BaseDep(t.item, t.props);
      var kids0 := Propagate(k, t.kids, base, inner);
      PropagateParsed(k, t.kids, base, inner);
      FinalizeAllChoices(cfg, k, kids0, inner);
      CloseLevelChoices(cfg, FinalizeAll(k, kids0, inner));
      if t.item.ChoiceItem? {
        PropagateBound(cfg, k, t.kids, base, inner, t.item.c);
        FinalizeAllBound(cfg, k, kids0, inner, t.item.c);
        CloseLevelBound(cfg, FinalizeAll(k, kids0, inner), t.item.c);
      }
    }
    assert r[..1] == [r[0]];
    ChoicesBoundOne(cfg, r[0]);
  }

  lemma {:induction false} TakeInChoices(cfg: Config, k: Consts, s: nat, kids: seq<Tree>, rest: seq<Tree>, vis: Expr)
    requires SameConsts(cfg, k) && Parsed(rest) && ChoicesBound(cfg, kids)
    ensures ChoicesBound(cfg, TakeIn(k, s, kids, rest, vis).0)
    decreases Size(rest), 3
  {
    hide ChoicesBound, Parsed, FinalizeFirst, Size, SameConsts;
    if rest != [] && AutoMenuDep(k, s, rest[0].props) {
      var r := FinalizeFirst(k, rest, vis);
      FinalizeFirstChoices(cfg, k, rest, vis);
      SizeSplit(r);
      assert r[..1] == [r[0]];
      ChoicesBoundConcat(cfg, kids, [r[0]]);
      TakeInChoices(cfg, k, s, kids + [r[0]], r[1..], vis);
    }
  }

  lemma {:induction false} FinalizeAllChoices(cfg: Config, k: Consts, ts: seq<Tree>, vis: Expr)
    requires SameConsts(cfg, k) && Parsed(ts)
    ensures ChoicesBound(cfg, FinalizeAll(k, ts, vis))
    decreases Size(ts), 3
  {
    hide ChoicesBound, Parsed, FinalizeFirst, Size, SameConsts;
    if ts == [] {
      ChoicesBoundNone(cfg);
    } else {
      var r := FinalizeFirst(k, ts, vis);
      FinalizeFirstChoices(cfg, k, ts, vis);
      SizeSplit(r);
      FinalizeAllChoices(cfg, k, r[1..], vis);
      assert r[..1] == [r[0]];
      ChoicesBoundConcat(cfg, [r[0]], FinalizeAll(k, r[1..], vis));
    }
  }

  // ---------- Prompts and dependencies ----------

  predicate FitsDep(cfg: Config, p: Props) {
    p.prompt.Some? ==> Entails(cfg, p.prompt.value, p.dep)
  }

  predicate AllFit(cfg: Config, es: seq<Entry>) {
    forall i :: 0 <= i < |es| ==> FitsDep(cfg, es[i].props)
  }

  lemma AllFitConcat(cfg: Config, a: seq<Entry>, b: seq<Entry>)
    requires AllFit(cfg, a) && AllFit(cfg, b)
    ensures AllFit(cfg, a + b)
  {
    hide FitsDep;
  }

  /** Every prompt below the root entails the dependencies of its node. */
  lemma {:induction false} ListingFits(cfg: Config, k: Consts, ts: seq<Tree>, baseDep: Expr, vis: Expr)
    requires SameConsts(cfg, k)
    ensures AllFit(cfg, Listing(k, Propagate(k, ts, baseDep, vis), vis))
    decreases Size(ts)
  {
    hide AllFit, FitsDep, Inherit, SameConsts;
    if ts == [] {
      NoneFit(cfg, k, vis);
    } else {
      var t := ts[0];
      var p := Inherit(k, t.item, t.props, baseDep, vis);
      var inner := InnerVisible(k, t.item, p, vis);
      InheritFits(cfg, k, t, baseDep, vis);
      ListingFits(cfg, k, t.kids, BaseDep(t.item, p), inner);
      ListingFits(cfg, k, ts[1..], baseDep, vis);
      PropagateFirst(k, ts, baseDep, vis);
      hide Propagate, Listing, InnerVisible;
      var e := [Entry(t.id, t.item, p)];
      AllFitConcat(cfg, e, Listing(k, Propagate(k, t.kids, BaseDep(t.item, p), inner), inner));
      AllFitConcat(cfg, e + Listing(k, Propagate(k, t.kids, BaseDep(t.item, p), inner), inner),
                   Listing(k, Propagate(k, ts[1..], baseDep, vis), vis));
    }
  }

  lemma NoneFit(cfg: Config, k: Consts, vis: Expr)
    ensures AllFit(cfg, Listing(k, [], vis))
  {
  }

  lemma InheritFits(cfg: Config, k: Consts, t: Tree, baseDep: Expr, vis: Expr)
    requires SameConsts(cfg, k)
    ensures AllFit(cfg, [Entry(t.id, t.item, Inherit(k, t.item, t.props, baseDep, vis))])
  {
    hide Inherit, Entails, SameConsts;
    InheritPrompt(k, t.item, t.props, baseDep, vis);
    if t.props.prompt.Some? {
      PromptEntailsDep(cfg, k, t.item, t.props, baseDep, vis);
    }
  }

  lemma {:induction false} NoIfsIn(es: seq<Entry>)
    ensures forall e :: e in NoIfs(es) ==> e in es
  {
    if es != [] {
      NoIfsIn(es[1..]);
    }
  }

  // ---------- Collecting ----------

  /** The conditions of the menu nodes of symbol i, in definition order. */
  function NodesOf(es: seq<Entry>, i: nat): seq<Props> {
    if es == [] then []
    else (if es[0].item == SymItem(i) then [es[0].props] else []) + NodesOf(es[1..], i)
  }

  function PromptsOf(ps: seq<Props>): seq<Expr> {
    if ps == [] then []
    else (if ps[0].prompt.Some? then [ps[0].prompt.value] else []) + PromptsOf(ps[1..])
  }

  function DepsOf(ps: seq<Props>): seq<Expr> {
    seq(|ps|, j requires 0 <= j < |ps| => ps[j].dep)
  }

  /** The selects of a node that aim at symbol i, combined into the reverse dependency so far. */
  function SelectInto(k: Consts, rev: Expr, s: nat, selects: seq<Select>, i: nat): Expr
    decreases |selects|
  {
    if selects == [] then rev
    else
      SelectInto(k, if selects[0].target == i then MakeOr(k, rev, MakeAnd(k, SymE(s), selects[0].cond)) else rev,
                 s, selects[1..], i)
  }

  /** The reverse dependency of symbol i, as _add_props_to_sym() builds it up. */
  function RevDepOf(k: Consts, rev: Expr, es: seq<Entry>, i: nat): Expr
    decreases |es|
  {
    if es == [] then rev
    else
      RevDepOf(k, if es[0].item.SymItem? then SelectInto(k, rev, es[0].item.s, es[0].props.selects, i) else rev,
               es[1..], i)
  }

  function Tops(ts: seq<Tree>): seq<Entry> {
    seq(|ts|, j requires 0 <= j < |ts| => Entry(ts[j].id, ts[j].item, ts[j].props))
  }

  /** The children of the menu nodes of choice c. */
  function Children(ts: seq<Tree>, c: nat): seq<Entry> {
    if ts == [] then []
    else (if ts[0].item == ChoiceItem(c) then Tops(ts[0].kids) else []) + Children(ts[0].kids, c) + Children(ts[1..], c)
  }

  function SymsOf(es: seq<Entry>): seq<nat> {
    if es == [] then [] else (if es[0].item.SymItem? then [es[0].item.s] else []) + SymsOf(es[1..])
  }

  /** The parts of the configuration that finalisation collects from the menu nodes. */
  predicate CollectedFrom(cfg: Config, k: Consts, ts: seq<Tree>) {
    && SameConsts(cfg, k)
    && (forall i :: 0 <= i < |cfg.syms| ==>
          var nodes := NodesOf(Preorder(ts), i);
          && cfg.syms[i].prompts == PromptsOf(nodes)
          && cfg.syms[i].directDep == DirectDep(k, DepsOf(nodes))
          && cfg.syms[i].revDep == RevDepOf(k, SymE(k.n), Preorder(ts), i)
          && (cfg.syms[i].defined <==> nodes != []))
    && (forall c :: 0 <= c < |cfg.choices| ==> cfg.choices[c].syms == SymsOf(Children(ts, c)))
  }

  /** What the sanity checks warn about otherwise: a select of a string, int or hex symbol, and
      a choice symbol with a prompt outside its choice. */
  ghost predicate Sane(cfg: Config, ts: seq<Tree>) {
    && (forall e, j :: e in Preorder(ts) && 0 <= j < |e.props.selects| ==>
          IsBoolTri(cfg.Sym(e.props.selects[j].target).typ) || cfg.Sym(e.props.selects[j].target).typ == UNKNOWN)
    && (forall c, e | 0 <= c < |cfg.choices| && e in Preorder(ts) && e.item.SymItem? && e.props.prompt.Some? ::
          e.item.s in cfg.choices[c].syms ==> e in Children(ts, c))
  }

  lemma {:induction false} NodeOrigin(es: seq<Entry>, i: nat, j: nat)
    requires j < |NodesOf(es, i)|
    ensures exists e :: e in es && e.item == SymItem(i) && e.props == NodesOf(es, i)[j]
  {
    if es[0].item == SymItem(i) && j == 0 {
      assert es[0] in es;
    } else {
      var j' := if es[0].item == SymItem(i) then j - 1 else j;
      NodeOrigin(es[1..], i, j');
      var e :| e in es[1..] && e.item == SymItem(i) && e.props == NodesOf(es[1..], i)[j'];
      assert e in es;
    }
  }

  lemma {:induction false} PromptOrigin(ps: seq<Props>, m: nat)
    requires m < |PromptsOf(ps)|
    ensures exists j :: 0 <= j < |ps| && ps[j].prompt == Some(PromptsOf(ps)[m])
  {
    if ps[0].prompt.Some? && m == 0 {
    } else {
      var m' := if ps[0].prompt.Some? then m - 1 else m;
      PromptOrigin(ps[1..], m');
      var j :| 0 <= j < |ps[1..]| && ps[1..][j].prompt == Some(PromptsOf(ps[1..])[m']);
      assert ps[j + 1] == ps[1..][j];
    }
  }

  lemma {:induction false} SelectNothing(k: Consts, rev: Expr, s: nat, selects: seq<Select>, i: nat)
    requires forall j :: 0 <= j < |selects| ==> selects[j].target != i
    ensures SelectInto(k, rev, s, selects, i) == rev
    decreases |selects|
  {
    if selects != [] {
      SelectNothing(k, rev, s, selects[1..], i);
    }
  }

  lemma {:induction false} NeverSelected(k: Consts, es: seq<Entry>, i: nat)
    requires forall e, j :: e in es && 0 <= j < |e.props.selects| ==> e.props.selects[j].target != i
    ensures RevDepOf(k, SymE(k.n), es, i) == SymE(k.n)
    decreases |es|
  {
    if es != [] {
      assert es[0] in es;
      if es[0].item.SymItem? {
        SelectNothing(k, SymE(k.n), es[0].item.s, es[0].props.selects, i);
      }
      NeverSelected(k, es[1..], i);
    }
  }

  lemma {:induction false} ChildrenBound(cfg: Config, ts: seq<Tree>, c: nat, e: Entry)
    requires ChoicesBound(cfg, ts) && e in Children(ts, c)
    ensures PropsBound(cfg, e.props, c)
    decreases Size(ts)
  {
    hide InnerBound, PropsBound;
    var t := ts[0];
    assert [t] + ts[1..] == ts;
    ChoicesBoundConcat(cfg, [t], ts[1..]);
    ChoicesBoundOne(cfg, t);
    hide ChoicesBound;
    if t.item == ChoiceItem(c) && e in Tops(t.kids) {
      InnerTops(cfg, t.kids, c, e);
    } else if e in Children(t.kids, c) {
      ChildrenBound(cfg, t.kids, c, e);
    } else {
      ChildrenBound(cfg, ts[1..], c, e);
    }
  }

  lemma InnerTops(cfg: Config, ts: seq<Tree>, c: nat, e: Entry)
    requires InnerBound(cfg, ts, c) && e in Tops(ts)
    ensures PropsBound(cfg, e.props, c)
  {
    hide PropsBound;
  }

  // ---------- The theorem ----------

  lemma PromptFits(cfg: Config, k: Consts, ts: seq<Tree>, i: nat, m: nat)
    requires CollectedFrom(cfg, k, ts) && AllFit(cfg, Preorder(ts)) && i < |cfg.syms| && m < |cfg.syms[i].prompts|
    ensures Entails(cfg, cfg.syms[i].prompts[m], cfg.syms[i].directDep)
  {
    hide Entails, SameConsts;
    var nodes := NodesOf(Preorder(ts), i);
    PromptOrigin(nodes, m);
    var j :| 0 <= j < |nodes| && nodes[j].prompt == Some(cfg.syms[i].prompts[m]);
    NodeOrigin(Preorder(ts), i, j);
    var e :| e in Preorder(ts) && e.item == SymItem(i) && e.props == nodes[j];
    assert FitsDep(cfg, e.props);
    EntailsDirectDep(cfg, k, cfg.syms[i].prompts[m], DepsOf(nodes), j);
  }

  lemma PromptBound(cfg: Config, k: Consts, ts: seq<Tree>, c: nat, i: nat, m: nat)
    requires CollectedFrom(cfg, k, ts) && Sane(cfg, ts) && ChoicesBound(cfg, ts)
    requires c < |cfg.choices| && i in cfg.choices[c].syms && i < |cfg.syms| && m < |cfg.syms[i].prompts|
    ensures BoundTo(cfg, cfg.syms[i].prompts[m], c)
  {
    hide ChoicesBound, SameConsts, BoundTo;
    var nodes := NodesOf(Preorder(ts), i);
    PromptOrigin(nodes, m);
    var j :| 0 <= j < |nodes| && nodes[j].prompt == Some(cfg.syms[i].prompts[m]);
    NodeOrigin(Preorder(ts), i, j);
    var e :| e in Preorder(ts) && e.item == SymItem(i) && e.props == nodes[j];
    ChildrenBound(cfg, ts, c, e);
  }

  lemma {:induction false} BoundIsLimited(cfg: Config, e: Expr, c: nat)
    requires BoundTo(cfg, e, c)
    ensures LimitedBy(cfg, e, c)
    ensures e != SymE(cfg.n) ==> C(c) in ExprItems(e)
  {
    if e.And? && HasChoice(e.l, c) {
      BoundIsLimited(cfg, e.l, c);
    } else if e.And? {
      BoundIsLimited(cfg, e.r, c);
    }
  }

  lemma {:induction false} PromptItem(ps: seq<Expr>, m: nat, x: Ref)
    requires m < |ps| && x in ExprItems(ps[m])
    ensures x in PromptItems(ps)
  {
    if m > 0 {
      PromptItem(ps[1..], m - 1, x);
    }
  }

  /** What the tree means for choice c and its symbol i. */
  lemma MemberBound(cfg: Config, k: Consts, ts: seq<Tree>, c: nat, i: nat)
    requires CollectedFrom(cfg, k, ts) && Sane(cfg, ts) && ChoicesBound(cfg, ts)
    requires c < |cfg.choices| && i in cfg.choices[c].syms && i < |cfg.syms|
    ensures forall m :: 0 <= m < |cfg.syms[i].prompts| ==> LimitedBy(cfg, cfg.syms[i].prompts[m], c)
    ensures DependsOn(cfg, S(i), C(c)) || Promptless(cfg, cfg.syms[i])
  {
    hide CollectedFrom, Sane, ChoicesBound, LimitedBy, BoundTo;
    var ps := cfg.syms[i].prompts;
    forall m | 0 <= m < |ps|
      ensures LimitedBy(cfg, ps[m], c)
      ensures ps[m] != SymE(cfg.n) ==> C(c) in PromptItems(ps)
    {
      PromptBound(cfg, k, ts, c, i, m);
      BoundIsLimited(cfg, ps[m], c);
      if ps[m] != SymE(cfg.n) {
        PromptItem(ps, m, C(c));
      }
    }
    PromptsAreDefined(cfg, k, ts, i);
  }

  /** Only symbols with a menu node have prompts. */
  lemma PromptsAreDefined(cfg: Config, k: Consts, ts: seq<Tree>, i: nat)
    requires CollectedFrom(cfg, k, ts) && i < |cfg.syms|
    ensures cfg.syms[i].prompts != [] ==> cfg.syms[i].defined
  {
    hide SameConsts, Preorder;
  }

  /** The root of the tree is the main menu. */
  predicate MainMenu(cfg: Config, root: Tree) {
    Parsed([root]) && root.item.MenuItem? && root.props.prompt.Some? && FitsDep(cfg, root.props)
  }

  /** The configuration collected from a finalised tree: its prompts entail the direct
      dependencies and no string, int or hex symbol is selected, as minimal configurations and
      the diagnosis of missing dependencies rely on. */
  lemma FinalizedPropagated(cfg: Config, k: Consts, root: Tree, final: Tree)
    requires MainMenu(cfg, root) && final == FinalizeFirst(k, [root], SymE(k.y))[0]
    requires CollectedFrom(cfg, k, [final]) && Sane(cfg, [final])
    ensures Propagated(cfg)
  {
    FinalFits(cfg, k, root, final);
    hide FinalizeFirst, CollectedFrom, Sane, AllFit, MainMenu, Entails;
    forall i, m | 0 <= i < |cfg.syms| && 0 <= m < |cfg.syms[i].prompts|
      ensures Entails(cfg, cfg.syms[i].prompts[m], cfg.syms[i].directDep)
    {
      PromptFits(cfg, k, [final], i, m);
    }
    forall i | 0 <= i < |cfg.syms| && !IsBoolTri(cfg.syms[i].typ) && cfg.syms[i].typ != UNKNOWN
      ensures cfg.syms[i].revDep == SymE(cfg.n)
    {
      Unselected(cfg, k, [final], i);
    }
  }

  /** Each choice limits the prompts of its symbols, which depend on it, as the theorems on
      choices, caching and full configurations rely on. */
  lemma FinalizedMembers(cfg: Config, k: Consts, root: Tree, final: Tree, c: nat)
    requires MainMenu(cfg, root) && final == FinalizeFirst(k, [root], SymE(k.y))[0]
    requires CollectedFrom(cfg, k, [final]) && Sane(cfg, [final])
    requires c < |cfg.choices| && forall i :: i in cfg.choices[c].syms ==> i < |cfg.syms|
    ensures PromptsInside(cfg, c)
    ensures forall i :: i in cfg.choices[c].syms ==>
              DependsOn(cfg, S(i), C(c)) || Promptless(cfg, cfg.syms[i])
  {
    FinalConsts(cfg, k, [final]);
    FinalChoices(cfg, k, root, final);
    hide FinalizeFirst, CollectedFrom, Sane, ChoicesBound, MainMenu, LimitedBy, DependsOn, Promptless;
    forall i | i in cfg.choices[c].syms
      ensures forall m :: 0 <= m < |cfg.syms[i].prompts| ==> LimitedBy(cfg, cfg.syms[i].prompts[m], c)
      ensures DependsOn(cfg, S(i), C(c)) || Promptless(cfg, cfg.syms[i])
    {
      MemberBound(cfg, k, [final], c, i);
    }
  }

  lemma FinalConsts(cfg: Config, k: Consts, ts: seq<Tree>)
    requires CollectedFrom(cfg, k, ts)
    ensures SameConsts(cfg, k)
  {
  }

  lemma Unselected(cfg: Config, k: Consts, ts: seq<Tree>, i: nat)
    requires CollectedFrom(cfg, k, ts) && Sane(cfg, ts) && i < |cfg.syms|
    requires !IsBoolTri(cfg.syms[i].typ) && cfg.syms[i].typ != UNKNOWN
    ensures cfg.syms[i].revDep == SymE(cfg.n)
  {
    hide Preorder, Children, RevDepOf, NodesOf, PromptsOf, DirectDep, DepsOf;
    NeverSelected(k, Preorder(ts), i);
  }

  lemma FinalFits(cfg: Config, k: Consts, root: Tree, final: Tree)
    requires MainMenu(cfg, root) && final == FinalizeFirst(k, [root], SymE(k.y))[0]
    requires CollectedFrom(cfg, k, [final])
    ensures AllFit(cfg, Preorder([final]))
  {
    FinalConsts(cfg, k, [final]);
    hide FinalizeFirst, SameConsts, FitsDep, Inherit, CollectedFrom;
    MenuTree.WholeTree(k, root, final);
    var inner := InnerVisible(k, root.item, root.props, SymE(k.y));
    var below := Listing(k, Propagate(k, root.kids, BaseDep(root.item, root.props), inner), inner);
    var all := Listing(k, [root], SymE(k.y));
    ListingFits(cfg, k, root.kids, BaseDep(root.item, root.props), inner);
    assert [root][1..] == [];
    assert all == [Entry(root.id, root.item, root.props)] + below;
    AllFitConcat(cfg, [Entry(root.id, root.item, root.props)], below);
    NoIfsIn(all);
    hide Listing, Propagate, NoIfs, Preorder;
    forall j | 0 <= j < |NoIfs(all)|
      ensures FitsDep(cfg, NoIfs(all)[j].props)
    {
      assert NoIfs(all)[j] in all;
    }
  }

  lemma FinalChoices(cfg: Config, k: Consts, root: Tree, final: Tree)
    requires SameConsts(cfg, k) && MainMenu(cfg, root) && final == FinalizeFirst(k, [root], SymE(k.y))[0]
    ensures ChoicesBound(cfg, [final])
  {
    hide FinalizeFirst, ChoicesBound, Parsed;
    FinalizeFirstChoices(cfg, k, [root], SymE(k.y));
    assert FinalizeFirst(k, [root], SymE(k.y))[..1] == [final];
  }

  // ---------- Selects ----------

  /** Symbol s selects symbol i with a value of at least v: it has such a value itself, and so has
      the condition of one of the selects of the node. */
  predicate SelectsWith(cfg: Config, u: User, s: nat, selects: seq<Select>, i: nat, v: Tri, env: Env) {
    && env(TriV(s)).t >= v
    && exists j :: 0 <= j < |selects| && selects[j].target == i && ExprVal(cfg, u, selects[j].cond, env) >= v
  }

  lemma {:induction false} SelectIntoMeaning(cfg: Config, u: User, k: Consts, rev: Expr, s: nat, selects: seq<Select>,
                                             i: nat, v: Tri, env: Env)
    requires ConstsOK(k, env)
    ensures ExprVal(cfg, u, SelectInto(k, rev, s, selects, i), env) >= v <==>
            ExprVal(cfg, u, rev, env) >= v || SelectsWith(cfg, u, s, selects, i, v, env)
    decreases |selects|
  {
    hide ExprVal, MakeAnd, MakeOr;
    if selects != [] {
      var sel, rest := selects[0], selects[1..];
      var both := MakeAnd(k, SymE(s), sel.cond);
      SelectIntoMeaning(cfg, u, k, if sel.target == i then MakeOr(k, rev, both) else rev, s, rest, i, v, env);
      MakeAndValue(cfg, u, k, SymE(s), sel.cond, env);
      MakeOrValue(cfg, u, k, rev, both, env);
      SymValue(cfg, u, s, env);
      assert forall j :: 0 < j < |selects| ==> selects[j] == rest[j - 1];
      if SelectsWith(cfg, u, s, rest, i, v, env) {
        var j :| 0 <= j < |rest| && rest[j].target == i && ExprVal(cfg, u, rest[j].cond, env) >= v;
        assert selects[j + 1] == rest[j];
      }
    }
  }

  lemma SymValue(cfg: Config, u: User, s: nat, env: Env)
    ensures ExprVal(cfg, u, SymE(s), env) == env(TriV(s)).t
  {
  }

  /** One of the nodes selects symbol i with a value of at least v. */
  predicate SelectedWith(cfg: Config, u: User, es: seq<Entry>, i: nat, v: Tri, env: Env) {
    exists e :: e in es && e.item.SymItem? && SelectsWith(cfg, u, e.item.s, e.props.selects, i, v, env)
  }

  /** The reverse dependency is the largest value with which a node selects the symbol. */
  lemma {:induction false} RevDepMeaning(cfg: Config, u: User, k: Consts, rev: Expr, es: seq<Entry>, i: nat, v: Tri, env: Env)
    requires ConstsOK(k, env)
    ensures ExprVal(cfg, u, RevDepOf(k, rev, es, i), env) >= v <==>
            ExprVal(cfg, u, rev, env) >= v || SelectedWith(cfg, u, es, i, v, env)
    decreases |es|
  {
    hide ExprVal, SelectInto, SelectsWith;
    if es != [] {
      var e, rest := es[0], es[1..];
      if e.item.SymItem? {
        SelectIntoMeaning(cfg, u, k, rev, e.item.s, e.props.selects, i, v, env);
      }
      RevDepMeaning(cfg, u, k, if e.item.SymItem? then SelectInto(k, rev, e.item.s, e.props.selects, i) else rev, rest, i, v, env);
      assert forall x :: x in es <==> x == e || x in rest;
    }
  }

  /** In a configuration that is collected from a menu tree, a symbol is selected to at least v
      exactly if a symbol of the tree selects it so. */
  lemma SelectedValue(cfg: Config, u: User, k: Consts, ts: seq<Tree>, i: nat, v: Tri, env: Env)
    requires CollectedFrom(cfg, k, ts) && ConstsOK(k, env) && i < |cfg.syms| && v != 0
    ensures ExprVal(cfg, u, cfg.syms[i].revDep, env) >= v <==> SelectedWith(cfg, u, Preorder(ts), i, v, env)
  {
    RevDepMeaning(cfg, u, k, SymE(k.n), Preorder(ts), i, v, env);
    ConstValues(cfg, u, k, env);
    hide ExprVal, RevDepOf, SelectedWith, Preorder;
  }
}
